/**
 * Canonical Huffman codes: the encoder's assignment of code words to lengths, the decoder's
 * limit/base/perm tables, and the proof that the decoder's bit-by-bit search finds the symbol of
 * every code word.
 */
module HuffmanCodes {
  import opened Bits
  import opened Residues

  const MAX_CODE_LEN: nat := 23
  const LONGEST: nat := 20
  const MAX_ALPHA_SIZE: nat := 258

  /** How many symbols have code length n. */
  function LenCount(len: seq<nat>, n: nat): nat {
    if len == [] then 0 else LenCount(len[..|len| - 1], n) + (if len[|len| - 1] == n then 1 else 0)
  }

  /** How many symbols have a code shorter than n. */
  function Shorter(len: seq<nat>, n: nat): nat {
    if n == 0 then 0 else Shorter(len, n - 1) + LenCount(len, n - 1)
  }

  /** The first code word of length n. */
  function FirstCode(len: seq<nat>, n: nat): nat {
    if n == 0 then 0 else 2 * (FirstCode(len, n - 1) + LenCount(len, n - 1))
  }

  function RankOf(len: seq<nat>, i: nat): nat
    requires i < |len|
  {
    LenCount(len[..i], len[i])
  }

  /** The code word of symbol i. */
  function CodeOf(len: seq<nat>, i: nat): nat
    requires i < |len|
  {
    FirstCode(len, len[i]) + RankOf(len, i)
  }

  /** The place of symbol i when symbols are listed by length, then by index. */
  function PlaceOf(len: seq<nat>, i: nat): nat
    requires i < |len|
  {
    Shorter(len, len[i]) + RankOf(len, i)
  }

  predicate LensOk(len: seq<nat>) {
    1 <= |len| <= MAX_ALPHA_SIZE && forall i :: 0 <= i < |len| ==> 1 <= len[i] <= LONGEST
  }

  /** The code words of each length fit in that many bits. */
  ghost predicate Fits(len: seq<nat>) {
    forall n :: 0 <= n <= LONGEST ==> FirstCode(len, n) + LenCount(len, n) <= Pow2(n)
  }

  // ---------------------------------------------------------------- counting

  lemma {:induction false} CountMono(len: seq<nat>, n: nat, i: nat, j: nat)
    requires i <= j <= |len|
    ensures LenCount(len[..i], n) <= LenCount(len[..j], n)
    decreases j
  {
    if i < j {
      assert len[..j][..j - 1] == len[..j - 1];
      CountMono(len, n, i, j - 1);
    }
  }

  lemma CountNext(len: seq<nat>, i: nat, n: nat)
    requires i < |len|
    ensures LenCount(len[..i + 1], n) == LenCount(len[..i], n) + (if len[i] == n then 1 else 0)
  {
    assert len[..i + 1][..i] == len[..i];
  }

  /** Ranks stay below the count and grow with the index. */
  lemma RankBelow(len: seq<nat>, i: nat, j: nat)
    requires i < j <= |len|
    ensures RankOf(len, i) < LenCount(len[..j], len[i])
  {
    CountNext(len, i, len[i]);
    CountMono(len, len[i], i + 1, j);
  }

  lemma RankBounded(len: seq<nat>, i: nat)
    requires i < |len|
    ensures RankOf(len, i) < LenCount(len, len[i])
  {
    RankBelow(len, i, |len|);
    assert len[..|len|] == len;
  }

  lemma RanksDiffer(len: seq<nat>, i: nat, j: nat)
    requires i < |len| && j < |len| && i != j && len[i] == len[j]
    ensures RankOf(len, i) != RankOf(len, j)
  {
    if i < j { RankBelow(len, i, j); } else { RankBelow(len, j, i); }
  }

  lemma {:induction false} ShorterSnoc(len: seq<nat>, x: nat, n: nat)
    ensures Shorter(len + [x], n) == Shorter(len, n) + (if x < n then 1 else 0)
  {
    if n > 0 {
      ShorterSnoc(len, x, n - 1);
      assert (len + [x])[..|len|] == len;
    }
  }

  lemma {:induction false} ShorterNone(n: nat)
    ensures Shorter([], n) == 0
  {
    if n > 0 { ShorterNone(n - 1); }
  }

  lemma {:induction false} ShorterAll(len: seq<nat>, n: nat)
    requires forall i :: 0 <= i < |len| ==> len[i] < n
    ensures Shorter(len, n) == |len|
  {
    if len == [] {
      ShorterNone(n);
    } else {
      ShorterAll(len[..|len| - 1], n);
      ShorterSnoc(len[..|len| - 1], len[|len| - 1], n);
      assert len[..|len| - 1] + [len[|len| - 1]] == len;
    }
  }

  lemma {:induction false} ShorterMono(len: seq<nat>, a: nat, b: nat)
    requires a <= b
    ensures Shorter(len, a) <= Shorter(len, b)
    decreases b
  {
    if a < b { ShorterMono(len, a, b - 1); }
  }

  lemma PlaceBounded(len: seq<nat>, i: nat)
    requires LensOk(len) && i < |len|
    ensures PlaceOf(len, i) < |len|
  {
    RankBounded(len, i);
    ShorterMono(len, len[i] + 1, LONGEST + 1);
    ShorterAll(len, LONGEST + 1);
  }

  lemma PlacesDiffer(len: seq<nat>, i: nat, j: nat)
    requires i < |len| && j < |len| && i != j
    ensures PlaceOf(len, i) != PlaceOf(len, j)
  {
    if len[i] == len[j] {
      RanksDiffer(len, i, j);
    } else if len[i] < len[j] {
      RankBounded(len, i);
      ShorterMono(len, len[i] + 1, len[j]);
    } else {
      RankBounded(len, j);
      ShorterMono(len, len[j] + 1, len[i]);
    }
  }

  // ---------------------------------------------------------------- code words as bit strings

  /** Every shorter prefix of a code word lies above all code words of the prefix's length. */
  lemma {:induction false} PrefixAbove(len: seq<nat>, i: nat, n: nat)
    requires i < |len| && n < len[i]
    ensures CodeOf(len, i) / Pow2(len[i] - n) >= FirstCode(len, n) + LenCount(len, n)
  {
    var d := len[i] - n;
    FirstCodeGrows(len, n, len[i]);
    DivAtLeast(CodeOf(len, i), Pow2(d), FirstCode(len, n) + LenCount(len, n));
  }

  lemma TimesDouble(x: nat, p: nat)
    ensures x * (2 * p) == 2 * (x * p)
  {
  }

  lemma DivAtLeast(v: nat, p: nat, q: nat)
    requires p >= 1 && v >= q * p
    ensures v / p >= q
  {
    var q2, r2 := v / p, v % p;
    assert v == q2 * p + r2;
    MulLe(q2 + 1, q, p);
    assert (q2 + 1) * p == q2 * p + p;
  }

  lemma {:induction false} FirstCodeGrows(len: seq<nat>, n: nat, m: nat)
    requires n < m
    ensures FirstCode(len, m) >= (FirstCode(len, n) + LenCount(len, n)) * Pow2(m - n)
    decreases m
  {
    hide LenCount;
    var x := FirstCode(len, n) + LenCount(len, n);
    if n + 1 < m {
      FirstCodeGrows(len, n, m - 1);
      TimesDouble(x, Pow2(m - 1 - n));
    } else {
      assert Pow2(1) == 2;
    }
  }

  lemma CodeFits(len: seq<nat>, i: nat)
    requires LensOk(len) && Fits(len) && i < |len|
    ensures CodeOf(len, i) < Pow2(len[i])
  {
    RankBounded(len, i);
  }

  /** The code word of symbol i, as the bits the encoder writes. */
  function Word(len: seq<nat>, i: nat): (w: seq<bool>)
    requires i < |len|
    ensures |w| == len[i]
  {
    BitsOf(CodeOf(len, i), len[i])
  }

  /** The first n bits of a code word, as the number the decoder holds after n bits. */
  lemma WordPrefixValue(len: seq<nat>, i: nat, n: nat)
    requires LensOk(len) && Fits(len) && i < |len| && n <= len[i]
    ensures ValueOf(Word(len, i)[..n]) == CodeOf(len, i) / Pow2(len[i] - n)
  {
    hide Pow2, LenCount, FirstCode, BitsOf, ValueOf, CodeOf;
    var c, l := CodeOf(len, i), len[i];
    CodeFits(len, i);
    BitsPrefix(c, l, n);
    Pow2Add(n, l - n);
    assert n + (l - n) == l;
    DivBelow(c, Pow2(l - n), Pow2(n));
    ValueOfBits(c / Pow2(l - n), n);
  }

  lemma DivBelow(v: nat, p: nat, q: nat)
    requires p >= 1 && v < q * p
    ensures v / p < q
  {
    var q2, r2 := v / p, v % p;
    assert v == q2 * p + r2;
    MulLe(q, q2, p);
  }

  /** No code word is a prefix of another. */
  lemma PrefixFree(len: seq<nat>, i: nat, j: nat)
    requires LensOk(len) && Fits(len) && i < |len| && j < |len| && i != j
    ensures !(Word(len, i) <= Word(len, j))
  {
    if Word(len, i) <= Word(len, j) {
      var n := len[i];
      assert Word(len, j)[..n] == Word(len, i)[..n];
      WordPrefixValue(len, i, n);
      WordPrefixValue(len, j, n);
      RankBounded(len, i);
      assert CodeOf(len, i) / Pow2(0) == CodeOf(len, i);
      if len[j] == n {
        RanksDiffer(len, i, j);
      } else {
        PrefixAbove(len, j, n);
      }
      assert false;
    }
  }

  // ---------------------------------------------------------------- the canonical order

  /** Symbol i comes before symbol j: it has a shorter code, or the same length and a smaller index. */
  predicate Ahead(len: seq<nat>, i: nat, j: nat)
    requires i < |len| && j < |len|
  {
    len[i] < len[j] || (len[i] == len[j] && i < j)
  }

  /** No symbol stands between i and j in that order. */
  predicate NextTo(len: seq<nat>, i: nat, j: nat)
    requires i < |len| && j < |len|
  {
    Ahead(len, i, j) && forall k :: 0 <= k < |len| ==> !(Ahead(len, i, k) && Ahead(len, k, j))
  }

  lemma {:induction false} NoneBetween(len: seq<nat>, n: nat, i: nat, j: nat)
    requires i <= j <= |len| && forall k :: i <= k < j ==> len[k] != n
    ensures LenCount(len[..j], n) == LenCount(len[..i], n)
    decreases j
  {
    if i < j {
      CountNext(len, j - 1, n);
      NoneBetween(len, n, i, j - 1);
    }
  }

  lemma {:induction false} FirstCodeLater(len: seq<nat>, n: nat, m: nat)
    requires n < m && forall k :: 0 <= k < |len| ==> !(n < len[k] < m)
    ensures FirstCode(len, m) == (FirstCode(len, n) + LenCount(len, n)) * Pow2(m - n)
    decreases m
  {
    hide LenCount;
    var x := FirstCode(len, n) + LenCount(len, n);
    if n + 1 < m {
      FirstCodeLater(len, n, m - 1);
      NoneBetween(len, m - 1, 0, |len|);
      NothingCounted(len, m - 1);
      TimesDouble(x, Pow2(m - 1 - n));
    } else {
      assert Pow2(1) == 2;
    }
  }

  lemma NothingCounted(len: seq<nat>, n: nat)
    ensures len[..|len|] == len && LenCount(len[..0], n) == 0
  {
  }

  /** The code is canonical: the first symbol's word is all zeros ... */
  lemma FirstIsZero(len: seq<nat>, i: nat)
    requires i < |len| && forall k :: 0 <= k < |len| ==> !Ahead(len, k, i)
    ensures CodeOf(len, i) == 0
  {
    hide FirstCode, LenCount;
    forall k | 0 <= k < |len| ensures len[k] >= len[i] && (k < i ==> len[k] != len[i]) {
      assert !Ahead(len, k, i);
    }
    NothingShorter(len, len[i]);
    NoneBetween(len, len[i], 0, i);
    NothingCounted(len, len[i]);
  }

  lemma {:induction false} NothingShorter(len: seq<nat>, n: nat)
    requires forall k :: 0 <= k < |len| ==> len[k] >= n
    ensures FirstCode(len, n) == 0
  {
    if n > 0 {
      NothingShorter(len, n - 1);
      NoneBetween(len, n - 1, 0, |len|);
      NothingCounted(len, n - 1);
    }
  }

  /** ... and the next symbol's word is one more, with zeros behind it up to its own length. */
  lemma NextIsOneMore(len: seq<nat>, i: nat, j: nat)
    requires i < |len| && j < |len| && NextTo(len, i, j)
    ensures CodeOf(len, j) == (CodeOf(len, i) + 1) * Pow2(len[j] - len[i])
  {
    hide FirstCode, LenCount;
    var n := len[i];
    forall k | 0 <= k < |len|
      ensures !(n < len[k] < len[j]) && (len[k] == n && i < k ==> len[j] == n && k >= j) && (len[k] == len[j] && k < j ==> len[j] == n && k <= i)
    {
      assert !(Ahead(len, i, k) && Ahead(len, k, j));
    }
    CountNext(len, i, n);
    if len[j] == n {
      NoneBetween(len, n, i + 1, j);
      assert Pow2(0) == 1;
    } else {
      NoneBetween(len, n, i + 1, |len|);
      NothingCounted(len, n);
      NoneBetween(len, len[j], 0, j);
      NothingCounted(len, len[j]);
      FirstCodeLater(len, n, len[j]);
    }
  }

  // ---------------------------------------------------------------- the Kraft sum

  /** The Kraft sum of the codes no longer than n, in units of one code of length n. */
  function Kraft(len: seq<nat>, n: nat): nat {
    if len == [] then 0
    else Kraft(len[..|len| - 1], n) + (if len[|len| - 1] <= n then Pow2(n - len[|len| - 1]) else 0)
  }

  lemma {:induction false} FirstCodeSnoc(len: seq<nat>, x: nat, n: nat)
    ensures FirstCode(len + [x], n) == FirstCode(len, n) + (if x < n then Pow2(n - x) else 0)
  {
    if n > 0 {
      FirstCodeSnoc(len, x, n - 1);
      assert (len + [x])[..|len|] == len;
      assert Pow2(1) == 2;
    }
  }

  lemma {:induction false} FirstCodeNone(n: nat)
    ensures FirstCode([], n) == 0
  {
    if n > 0 { FirstCodeNone(n - 1); }
  }

  /** The code words of length n end where the Kraft sum says. */
  lemma {:induction false} KraftIsCodeEnd(len: seq<nat>, n: nat)
    ensures Kraft(len, n) == FirstCode(len, n) + LenCount(len, n)
  {
    if len == [] {
      FirstCodeNone(n);
    } else {
      KraftIsCodeEnd(len[..|len| - 1], n);
      FirstCodeSnoc(len[..|len| - 1], len[|len| - 1], n);
      assert len[..|len| - 1] + [len[|len| - 1]] == len;
    }
  }

  lemma {:induction false} KraftGrows(len: seq<nat>, n: nat)
    ensures Kraft(len, n + 1) >= 2 * Kraft(len, n)
    ensures (forall i :: 0 <= i < |len| ==> len[i] <= n) ==> Kraft(len, n + 1) == 2 * Kraft(len, n)
  {
    if len != [] { KraftGrows(len[..|len| - 1], n); }
  }

  lemma {:induction false} KraftBound(len: seq<nat>, n: nat, b: nat)
    requires Kraft(len, b) <= Pow2(b) && forall i :: 0 <= i < |len| ==> len[i] <= b
    ensures Kraft(len, n) <= Pow2(n)
    decreases if n < b then b - n else n - b
  {
    hide Kraft;
    if n < b {
      KraftBound(len, n + 1, b);
      KraftGrows(len, n);
    } else if n > b {
      KraftBound(len, n - 1, b);
      KraftGrows(len, n - 1);
    }
  }

  /** A full Kraft sum at one bound is a full Kraft sum at any other that no length exceeds. */
  lemma {:induction false} KraftFull(len: seq<nat>, n: nat, b: nat)
    requires Kraft(len, b) == Pow2(b)
    requires forall i :: 0 <= i < |len| ==> len[i] <= b && len[i] <= n
    ensures Kraft(len, n) == Pow2(n)
    decreases if n < b then b - n else n - b
  {
    hide Kraft;
    if n < b {
      KraftFull(len, n + 1, b);
      KraftGrows(len, n);
    } else if n > b {
      KraftFull(len, n - 1, b);
      KraftGrows(len, n - 1);
    }
  }

  /** Code words fit in their lengths exactly when the Kraft sum is at most one. */
  lemma KraftFits(len: seq<nat>)
    requires LensOk(len)
    ensures Fits(len) <==> Kraft(len, LONGEST) <= Pow2(LONGEST)
  {
    hide Kraft, Pow2, FirstCode, LenCount;
    KraftIsCodeEnd(len, LONGEST);
    if Kraft(len, LONGEST) <= Pow2(LONGEST) {
      forall n | 0 <= n <= LONGEST ensures FirstCode(len, n) + LenCount(len, n) <= Pow2(n) {
        KraftIsCodeEnd(len, n);
        KraftBound(len, n, LONGEST);
      }
    }
  }

  // ---------------------------------------------------------------- the decoder's tables

  /** What the table builder leaves for lengths minLen..maxLen: the exact limit, base and perm. */
  ghost predicate TablesOk(len: seq<nat>, limit: seq<int>, base: seq<int>, perm: seq<nat>, minLen: nat, maxLen: nat) {
    && LensOk(len) && |limit| == |base| == |perm| == MAX_ALPHA_SIZE
    && 1 <= minLen <= maxLen <= LONGEST
    && (forall i :: 0 <= i < |len| ==> minLen <= len[i] <= maxLen)
    && (forall n :: minLen <= n <= maxLen ==> limit[n] == FirstCode(len, n) + LenCount(len, n) - 1)
    && (forall n :: minLen <= n <= maxLen ==> base[n] == FirstCode(len, n) - Shorter(len, n))
    && (forall i :: 0 <= i < |len| ==> PlaceOf(len, i) < MAX_ALPHA_SIZE && perm[PlaceOf(len, i)] == i)
  }

  datatype Found = Corrupt | NeedBits | Symbol(sym: nat, next: nat)

  /** The decoder's search from bit `pos`: `zn` bits read so far, spelling `zvec`. */
  function Search(bits: seq<bool>, pos: nat, zn: nat, zvec: nat, limit: seq<int>, base: seq<int>, perm: seq<nat>): (r: Found)
    requires |limit| == |base| == |perm| == MAX_ALPHA_SIZE
    decreases LONGEST + 1 - zn
  {
    if zn > LONGEST then Corrupt
    else if zvec <= limit[zn] then
      if zvec - base[zn] < 0 || zvec - base[zn] >= MAX_ALPHA_SIZE then Corrupt
      else Symbol(perm[zvec - base[zn]], pos)
    else if pos >= |bits| then NeedBits
    else Search(bits, pos + 1, zn + 1, 2 * zvec + Bit(bits[pos]), limit, base, perm)
  }

  /** One symbol: minLen bits at once, then bit by bit. */
  function DecodeSymbol(bits: seq<bool>, pos: nat, minLen: nat, limit: seq<int>, base: seq<int>, perm: seq<nat>): (r: Found)
    requires |limit| == |base| == |perm| == MAX_ALPHA_SIZE
  {
    if pos + minLen > |bits| then NeedBits
    else Search(bits, pos + minLen, minLen, ValueOf(bits[pos..pos + minLen]), limit, base, perm)
  }

  /** The search, n bits into a code word, reads exactly the rest of it and names its symbol. */
  lemma {:induction false} SearchFinds(len: seq<nat>, limit: seq<int>, base: seq<int>, perm: seq<nat>,
                                       minLen: nat, maxLen: nat, bits: seq<bool>, start: nat, i: nat, n: nat)
    requires TablesOk(len, limit, base, perm, minLen, maxLen) && Fits(len) && i < |len|
    requires start + len[i] <= |bits| && bits[start..start + len[i]] == Word(len, i)
    requires minLen <= n <= len[i]
    ensures Search(bits, start + n, n, ValueOf(bits[start..start + n]), limit, base, perm)
         == Symbol(i, start + len[i])
    decreases len[i] - n
  {
    hide Pow2, LenCount, FirstCode, BitsOf, ValueOf, CodeOf, Word, Search;
    assert bits[start..start + n] == Word(len, i)[..n];
    WordPrefixValue(len, i, n);
    if n == len[i] {
      SearchStops(len, limit, base, perm, minLen, maxLen, bits, start, i);
    } else {
      assert bits[start..start + n + 1] == bits[start..start + n] + [bits[start + n]];
      ValueSnoc(bits[start..start + n], bits[start + n]);
      PrefixAbove(len, i, n);
      SearchGoesOn(len, limit, base, perm, minLen, maxLen, bits, start + n, n, ValueOf(bits[start..start + n]));
      SearchFinds(len, limit, base, perm, minLen, maxLen, bits, start, i, n + 1);
    }
  }

  lemma SearchStops(len: seq<nat>, limit: seq<int>, base: seq<int>, perm: seq<nat>,
                    minLen: nat, maxLen: nat, bits: seq<bool>, start: nat, i: nat)
    requires TablesOk(len, limit, base, perm, minLen, maxLen) && i < |len|
    ensures Search(bits, start + len[i], len[i], CodeOf(len, i) / Pow2(0), limit, base, perm)
         == Symbol(i, start + len[i])
  {
    hide LenCount, FirstCode;
    RankBounded(len, i);
    assert CodeOf(len, i) / Pow2(0) == CodeOf(len, i);
    assert CodeOf(len, i) - base[len[i]] == PlaceOf(len, i);
  }

  lemma SearchGoesOn(len: seq<nat>, limit: seq<int>, base: seq<int>, perm: seq<nat>,
                     minLen: nat, maxLen: nat, bits: seq<bool>, pos: nat, n: nat, v: nat)
    requires TablesOk(len, limit, base, perm, minLen, maxLen)
    requires minLen <= n < maxLen && pos < |bits| && v >= FirstCode(len, n) + LenCount(len, n)
    ensures Search(bits, pos, n, v, limit, base, perm)
         == Search(bits, pos + 1, n + 1, 2 * v + Bit(bits[pos]), limit, base, perm)
  {
    hide LenCount, FirstCode;
  }

  /** Every code word, wherever it stands in the stream, decodes to its own symbol and no more bits. */
  lemma WordDecodes(len: seq<nat>, limit: seq<int>, base: seq<int>, perm: seq<nat>, minLen: nat, maxLen: nat,
                    before: seq<bool>, i: nat, after: seq<bool>)
    requires TablesOk(len, limit, base, perm, minLen, maxLen) && Fits(len) && i < |len|
    ensures DecodeSymbol(before + Word(len, i) + after, |before|, minLen, limit, base, perm)
         == Symbol(i, |before| + len[i])
  {
    var bits := before + Word(len, i) + after;
    assert bits[|before|..|before| + len[i]] == Word(len, i);
    SearchFinds(len, limit, base, perm, minLen, maxLen, bits, |before|, i, minLen);
  }
}
