/** Size classes of the PPMd suballocator: 38 block sizes from 1 to 128 units, at most 4 units apart. */
module PpmdTables {

  const INDEXES: nat := 38
  const LARGEST: nat := 128

  function Step(i: nat): nat {
    if i >= 12 then 4 else i / 4 + 1
  }

  /** The units of a block of class i. */
  function Units(i: nat): (k: nat)
    ensures k >= 1
  {
    if i == 0 then 1 else Units(i - 1) + Step(i)
  }

  /** In closed form. */
  lemma {:induction false} UnitsAre(i: nat)
    ensures Units(i) == if i < 4 then i + 1 else if i < 8 then 2 * i - 2 else if i < 12 then 3 * i - 9 else 4 * i - 20
  {
    if i > 0 { UnitsAre(i - 1); }
  }

  lemma NextUnits(i: nat)
    ensures Units(i) == (if i == 0 then 0 else Units(i - 1)) + Step(i)
  {
  }

  lemma UnitsRise(i: nat, j: nat)
    requires i < j
    ensures Units(i) < Units(j)
  {
    UnitsAre(i);
    UnitsAre(j);
  }

  lemma SearchEnds(nu: nat, i: nat)
    requires nu <= LARGEST && i < INDEXES
    ensures i + 1 < INDEXES || Units(i) >= nu
  {
    UnitsAre(i);
  }

  function Search(nu: nat, i: nat): (r: nat)
    requires 1 <= nu <= LARGEST && i < INDEXES && (i > 0 ==> Units(i - 1) < nu)
    ensures r < INDEXES && Units(r) >= nu && (r > 0 ==> Units(r - 1) < nu)
    decreases INDEXES - i
  {
    SearchEnds(nu, i);
    if Units(i) >= nu then i else Search(nu, i + 1)
  }

  /** The least class with nu units or more. */
  function Index(nu: nat): (r: nat)
    requires 1 <= nu <= LARGEST
    ensures r < INDEXES && Units(r) >= nu && (r > 0 ==> Units(r - 1) < nu)
  {
    Search(nu, 0)
  }

  lemma IndexIs(nu: nat, i: nat)
    requires 1 <= nu <= LARGEST && i < INDEXES && Units(i) >= nu && (i > 0 ==> Units(i - 1) < nu)
    ensures Index(nu) == i
  {
    hide Search, Index, Units;
    var r := Index(nu);
    if r < i {
      if r < i - 1 { UnitsRise(r, i - 1); }
    } else if i < r {
      if i < r - 1 { UnitsRise(i, r - 1); }
    }
  }

  /** A block that is no size of a class is two blocks that are: one of the next smaller class, and a rest of up to 3 units. */
  lemma TwoPieces(nu: nat)
    requires 1 <= nu <= LARGEST && Units(Index(nu)) != nu
    ensures Index(nu) > 0 && Units(Index(nu) - 1) < nu
    ensures var rest := nu - Units(Index(nu) - 1); 1 <= rest <= 3 && Units(rest - 1) == rest
  {
    var i := Index(nu);
    UnitsAre(i);
    UnitsAre(i - 1);
    UnitsAre(nu - Units(i - 1) - 1);
  }

  lemma Largest()
    ensures Units(INDEXES - 1) == LARGEST && forall i :: 0 <= i < INDEXES ==> Units(i) <= LARGEST
  {
    UnitsAre(INDEXES - 1);
    forall i | 0 <= i < INDEXES ensures Units(i) <= LARGEST { UnitsAre(i); }
  }

  /** Both tables are inverse to each other as far as they can be. */
  method Construct(units2Indx: array<nat>, indx2Units: array<nat>)
    requires units2Indx.Length == LARGEST && indx2Units.Length == INDEXES && units2Indx != indx2Units
    modifies units2Indx, indx2Units
    ensures forall i :: 0 <= i < INDEXES ==> indx2Units[i] == Units(i)
    ensures forall nu :: 0 <= nu < LARGEST ==> units2Indx[nu] == Index(nu + 1)
  {
    hide Search, Index, Units;
    Largest();
    var i, k := 0, 0;
    while i < INDEXES
      invariant 0 <= i <= INDEXES && k == (if i == 0 then 0 else Units(i - 1))
      invariant forall j :: 0 <= j < i ==> indx2Units[j] == Units(j)
      invariant forall nu :: 0 <= nu < k ==> units2Indx[nu] == Index(nu + 1)
    {
      var step := if i >= 12 then 4 else i / 4 + 1;
      NextUnits(i);
      assert Units(i) <= LARGEST;
      while step > 0
        invariant 0 <= step && k + step == Units(i) && k >= (if i == 0 then 0 else Units(i - 1))
        invariant forall j :: 0 <= j < i ==> indx2Units[j] == Units(j)
        invariant forall nu :: 0 <= nu < k ==> units2Indx[nu] == Index(nu + 1)
      {
        IndexIs(k + 1, i);
        units2Indx[k] := i;
        k := k + 1;
        step := step - 1;
      }
      indx2Units[i] := k;
      i := i + 1;
    }
  }
}
