/** Suffixes of a byte string in lexicographic order; a suffix comes after its own proper prefixes. */
module SuffixOrder {
  import opened Bytes

  predicate Less(s: seq<Byte>, x: int, y: int)
    requires 0 <= x <= |s| && 0 <= y <= |s|
    decreases |s| - x
  {
    if y == |s| then false
    else if x == |s| then true
    else if s[x] != s[y] then s[x] < s[y]
    else Less(s, x + 1, y + 1)
  }

  /** The suffixes at x and y both reach h bytes and agree on them. */
  ghost predicate Agree(s: seq<Byte>, x: int, y: int, h: nat) {
    && 0 <= x && 0 <= y && x + h <= |s| && y + h <= |s|
    && s[x..x + h] == s[y..y + h]
  }

  lemma {:induction false} LessAsym(s: seq<Byte>, x: int, y: int)
    requires 0 <= x <= |s| && 0 <= y <= |s|
    ensures !(Less(s, x, y) && Less(s, y, x))
    decreases |s| - x
  {
    if x < |s| && y < |s| { LessAsym(s, x + 1, y + 1); }
  }

  lemma {:induction false} LessTotal(s: seq<Byte>, x: int, y: int)
    requires 0 <= x <= |s| && 0 <= y <= |s| && x != y
    ensures Less(s, x, y) || Less(s, y, x)
    decreases |s| - x
  {
    if x < |s| && y < |s| { LessTotal(s, x + 1, y + 1); }
  }

  lemma {:induction false} LessTrans(s: seq<Byte>, x: int, y: int, z: int)
    requires 0 <= x <= |s| && 0 <= y <= |s| && 0 <= z <= |s|
    requires Less(s, x, y) && Less(s, y, z)
    ensures Less(s, x, z)
    decreases |s| - x
  {
    if x < |s| && y < |s| && z < |s| && s[x] == s[y] == s[z] {
      LessTrans(s, x + 1, y + 1, z + 1);
    }
  }

  /** Suffixes that agree on h bytes compare as the rests do. */
  lemma {:induction false} AgreeShift(s: seq<Byte>, x: int, y: int, h: nat)
    requires Agree(s, x, y, h)
    ensures Less(s, x, y) == Less(s, x + h, y + h)
    decreases h
  {
    if h > 0 {
      assert s[x] == s[x..x + h][0] == s[y..y + h][0] == s[y];
      assert s[x + 1..x + h] == s[x..x + h][1..] == s[y..y + h][1..] == s[y + 1..y + h];
      AgreeShift(s, x + 1, y + 1, h - 1);
    }
  }

  lemma AgreeMore(s: seq<Byte>, x: int, y: int, h: nat, k: nat)
    requires Agree(s, x, y, h) && Agree(s, x + h, y + h, k)
    ensures Agree(s, x, y, h + k)
  {
    assert s[x..x + h + k] == s[x..x + h] + s[x + h..x + h + k];
    assert s[y..y + h + k] == s[y..y + h] + s[y + h..y + h + k];
  }

}
