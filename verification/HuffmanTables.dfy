/** The loops that assign code words, build the decoder's tables, and read one symbol. */
module HuffmanTables {
  import opened HuffmanCodes

  lemma {:induction false} NoneShorter(len: seq<nat>, n: nat)
    requires forall i :: 0 <= i < |len| ==> len[i] >= n
    ensures FirstCode(len, n) == 0 && Shorter(len, n) == 0
  {
    if n > 0 {
      NoneShorter(len, n - 1);
      NoneOf(len, n - 1);
    }
  }

  lemma {:induction false} NoneOf(len: seq<nat>, n: nat)
    requires forall i :: 0 <= i < |len| ==> len[i] != n
    ensures LenCount(len, n) == 0
  {
    if len != [] { NoneOf(len[..|len| - 1], n); }
  }

  /** The code words go to the symbols in order of length, then of index. */
  method AssignCodes(code: array<int>, len: seq<nat>, minLen: nat, maxLen: nat)
    requires |len| <= code.Length && forall i :: 0 <= i < |len| ==> minLen <= len[i] <= maxLen
    modifies code
    ensures forall i :: 0 <= i < |len| ==> code[i] == CodeOf(len, i)
    ensures forall i :: |len| <= i < code.Length ==> code[i] == old(code[i])
  {
    hide LenCount, Shorter;
    NoneShorter(len, minLen);
    var vec := 0;
    var n := minLen;
    while n <= maxLen
      invariant minLen <= n
      invariant n <= maxLen + 1 || n == minLen
      invariant vec == FirstCode(len, n)
      invariant forall i :: 0 <= i < |len| && len[i] < n ==> code[i] == CodeOf(len, i)
      invariant forall i :: |len| <= i < code.Length ==> code[i] == old(code[i])
    {
      var i := 0;
      assert LenCount(len[..0], n) == 0 by { NoneOf(len[..0], n); }
      while i < |len|
        invariant i <= |len|
        invariant vec == FirstCode(len, n) + LenCount(len[..i], n)
        invariant forall k :: 0 <= k < |len| && (len[k] < n || (len[k] == n && k < i)) ==> code[k] == CodeOf(len, k)
        invariant forall k :: |len| <= k < code.Length ==> code[k] == old(code[k])
      {
        CountNext(len, i, n);
        if len[i] == n {
          code[i] := vec;
          vec := vec + 1;
        }
        i := i + 1;
      }
      assert len[..i] == len;
      vec := 2 * vec;
      n := n + 1;
    }
  }

  /** perm lists the symbols by length, then by index. */
  ghost predicate Listed(len: seq<nat>, perm: seq<nat>, n: nat, j: nat) {
    forall k :: 0 <= k < |len| && (len[k] < n || (len[k] == n && k < j)) ==>
      PlaceOf(len, k) < |perm| && perm[PlaceOf(len, k)] == k
  }

  lemma ListedStart(len: seq<nat>, perm: seq<nat>, n: nat)
    requires forall i :: 0 <= i < |len| ==> n <= len[i]
    ensures Listed(len, perm, n, 0)
  {
  }

  lemma ListedNext(len: seq<nat>, perm: seq<nat>, n: nat)
    requires Listed(len, perm, n, |len|)
    ensures Listed(len, perm, n + 1, 0)
  {
  }

  lemma ListedSkip(len: seq<nat>, perm: seq<nat>, n: nat, j: nat)
    requires Listed(len, perm, n, j) && j < |len| && len[j] != n
    ensures Listed(len, perm, n, j + 1)
  {
  }

  lemma ListedOne(len: seq<nat>, perm: seq<nat>, n: nat, j: nat)
    requires LensOk(len) && |perm| == MAX_ALPHA_SIZE && Listed(len, perm, n, j) && j < |len| && len[j] == n
    ensures PlaceOf(len, j) < |perm| && Listed(len, perm[PlaceOf(len, j) := j], n, j + 1)
  {
    hide PlaceOf;
    PlaceBounded(len, j);
    forall k | 0 <= k < |len| && k != j ensures PlaceOf(len, k) != PlaceOf(len, j) {
      PlacesDiffer(len, k, j);
    }
  }

  method ListSymbols(perm: array<nat>, len: seq<nat>, minLen: nat, maxLen: nat)
    requires perm.Length == MAX_ALPHA_SIZE && LensOk(len)
    requires minLen <= maxLen && forall i :: 0 <= i < |len| ==> minLen <= len[i] <= maxLen
    modifies perm
    ensures Listed(len, perm[..], maxLen + 1, 0)
  {
    hide LenCount, Shorter, FirstCode, Listed;
    NoneShorter(len, minLen);
    ListedStart(len, perm[..], minLen);
    var pp := 0;
    var n := minLen;
    while n <= maxLen
      invariant minLen <= n <= maxLen + 1
      invariant pp == Shorter(len, n)
      invariant Listed(len, perm[..], n, 0)
    {
      NoneOf(len[..0], n);
      var j := 0;
      while j < |len|
        invariant j <= |len|
        invariant pp == Shorter(len, n) + LenCount(len[..j], n)
        invariant Listed(len, perm[..], n, j)
      {
        CountNext(len, j, n);
        if len[j] == n {
          ListedOne(len, perm[..], n, j);
          perm[pp] := j;
          pp := pp + 1;
        } else {
          ListedSkip(len, perm[..], n, j);
        }
        j := j + 1;
      }
      assert len[..j] == len;
      ListedNext(len, perm[..], n);
      ShorterNext(len, n);
      n := n + 1;
    }
  }

  lemma ShorterNext(len: seq<nat>, n: nat)
    ensures Shorter(len, n + 1) == Shorter(len, n) + LenCount(len, n)
  {
  }

  /** base[n] becomes the number of symbols with a code shorter than n. */
  method CountShorter(base: array<int>, len: seq<nat>)
    requires base.Length == MAX_ALPHA_SIZE && LensOk(len)
    modifies base
    ensures forall n :: 0 <= n < MAX_CODE_LEN ==> base[n] == Shorter(len, n)
  {
    hide LenCount, Shorter;
    var i := 0;
    while i < MAX_CODE_LEN
      invariant i <= MAX_CODE_LEN
      invariant forall n :: 0 <= n < i ==> base[n] == 0
    {
      base[i] := 0;
      i := i + 1;
    }
    forall n: nat ensures LenCount(len[..0], n) == 0 { NoneOf(len[..0], n); }
    i := 0;
    while i < |len|
      invariant i <= |len|
      invariant base[0] == 0
      invariant forall n :: 1 <= n < MAX_CODE_LEN ==> base[n] == LenCount(len[..i], n - 1)
    {
      forall n: nat ensures LenCount(len[..i + 1], n) == LenCount(len[..i], n) + (if len[i] == n then 1 else 0) {
        CountNext(len, i, n);
      }
      assert 1 <= len[i] + 1 < MAX_CODE_LEN;
      base[len[i] + 1] := base[len[i] + 1] + 1;
      i := i + 1;
    }
    assert len[..i] == len;
    assert Shorter(len, 0) == 0 by { ShorterZero(len); }
    i := 1;
    while i < MAX_CODE_LEN
      invariant 1 <= i <= MAX_CODE_LEN
      invariant forall n :: 0 <= n < i ==> base[n] == Shorter(len, n)
      invariant forall n :: i <= n < MAX_CODE_LEN ==> base[n] == LenCount(len, n - 1)
    {
      ShorterNext(len, i - 1);
      base[i] := base[i] + base[i - 1];
      i := i + 1;
    }
  }

  lemma ShorterZero(len: seq<nat>)
    ensures Shorter(len, 0) == 0
  {
  }

  lemma FirstCodeNext(len: seq<nat>, n: nat)
    ensures FirstCode(len, n + 1) == 2 * (FirstCode(len, n) + LenCount(len, n))
  {
  }

  /** limit[n] becomes the last code word of length n. */
  method FillLimits(limit: array<int>, base: array<int>, len: seq<nat>, minLen: nat, maxLen: nat)
    requires limit.Length == base.Length == MAX_ALPHA_SIZE && limit != base
    requires 1 <= minLen <= maxLen <= LONGEST
    requires FirstCode(len, minLen) == 0
    requires forall n :: 0 <= n < MAX_CODE_LEN ==> base[n] == Shorter(len, n)
    modifies limit
    ensures forall n :: minLen <= n <= maxLen ==> limit[n] == FirstCode(len, n) + LenCount(len, n) - 1
  {
    hide LenCount, Shorter, FirstCode;
    var i := 0;
    while i < MAX_CODE_LEN
      invariant i <= MAX_CODE_LEN
    {
      limit[i] := 0;
      i := i + 1;
    }
    var vec := 0;
    i := minLen;
    while i <= maxLen
      invariant minLen <= i <= maxLen + 1
      invariant vec == FirstCode(len, i)
      invariant forall n :: minLen <= n < i ==> limit[n] == FirstCode(len, n) + LenCount(len, n) - 1
    {
      ShorterNext(len, i);
      FirstCodeNext(len, i);
      vec := vec + (base[i + 1] - base[i]);
      limit[i] := vec - 1;
      vec := 2 * vec;
      i := i + 1;
    }
  }

  /** base[n] becomes what to subtract from a code word of length n to find its place in perm. */
  method Rebase(limit: array<int>, base: array<int>, len: seq<nat>, minLen: nat, maxLen: nat)
    requires limit.Length == base.Length == MAX_ALPHA_SIZE && limit != base
    requires 1 <= minLen <= maxLen <= LONGEST
    requires FirstCode(len, minLen) == 0 && Shorter(len, minLen) == 0
    requires forall n :: minLen <= n <= maxLen ==> limit[n] == FirstCode(len, n) + LenCount(len, n) - 1
    requires forall n :: 0 <= n < MAX_CODE_LEN ==> base[n] == Shorter(len, n)
    modifies base
    ensures forall n :: minLen <= n <= maxLen ==> base[n] == FirstCode(len, n) - Shorter(len, n)
  {
    hide LenCount, Shorter, FirstCode;
    var i := minLen + 1;
    while i <= maxLen
      invariant minLen + 1 <= i <= maxLen + 1
      invariant forall n :: minLen <= n < i ==> base[n] == FirstCode(len, n) - Shorter(len, n)
      invariant forall n :: i <= n <= maxLen ==> base[n] == Shorter(len, n)
    {
      FirstCodeNext(len, i - 1);
      base[i] := 2 * (limit[i - 1] + 1) - base[i];
      i := i + 1;
    }
  }

  method CreateDecodeTables(limit: array<int>, base: array<int>, perm: array<nat>, len: seq<nat>, minLen: nat, maxLen: nat)
    requires limit.Length == base.Length == perm.Length == MAX_ALPHA_SIZE && limit != base
    requires LensOk(len) && 1 <= minLen <= maxLen <= LONGEST
    requires forall i :: 0 <= i < |len| ==> minLen <= len[i] <= maxLen
    modifies limit, base, perm
    ensures TablesOk(len, limit[..], base[..], perm[..], minLen, maxLen)
  {
    hide LenCount, Shorter, FirstCode, PlaceOf;
    NoneShorter(len, minLen);
    ListSymbols(perm, len, minLen, maxLen);
    CountShorter(base, len);
    FillLimits(limit, base, len, minLen, maxLen);
    Rebase(limit, base, len, minLen, maxLen);
    forall i | 0 <= i < |len| ensures PlaceOf(len, i) < MAX_ALPHA_SIZE && perm[PlaceOf(len, i)] == i {
      PlaceBounded(len, i);
    }
  }
}
