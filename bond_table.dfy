/**
 * The UnityMolBonds object: two dictionaries of fixed-size rows and the bond counter,
 * updated in place by Add and Remove. Each method is proved against the entry-list
 * specification of module Bonds through State().
 */
module BondTable {
  import opened Wrappers
  import opened Bonds
  import BondLemmas

  /** The rows of a dictionary as entry lists. */
  function Abs(m: map<AtomRef, Row>): (r: map<AtomRef, seq<AtomRef>>)
    ensures r.Keys == m.Keys
  {
    map k | k in m :: Entries(m[k])
  }

  predicate ValidRows(m: map<AtomRef, Row>) {
    forall k :: k in m ==> ValidRow(m[k])
  }

  lemma AbsUpdate(m: map<AtomRef, Row>, k: AtomRef, row: Row)
    ensures Abs(m[k := row]) == Abs(m)[k := Entries(row)]
  {
  }

  lemma AbsRemove(m: map<AtomRef, Row>, k: AtomRef)
    ensures Abs(m - {k}) == Abs(m) - {k}
  {
  }

  lemma ValidRowsDistinct(m: map<AtomRef, Row>)
    requires ValidRows(m)
    ensures DistinctRows(Abs(m))
  {
  }

  // ---------------------------------------------------------------- the row loops

  /**
   * The slot loop of Add and AddDual: stops at `b` (already bonded) or writes `b` into the
   * first null slot; a full row without `b` is left as it is.
   */
  method RowAdd(row: Row, b: AtomRef) returns (r: Row, wrote: bool)
    requires ValidRow(row)
    ensures ValidRow(r) && Entries(r) == Insert(Entries(row), b)
    ensures wrote <==> b !in Entries(row) && |Entries(row)| < NBBONDS
  {
    FillOfEntries(row);
    var i := 0;
    while i < NBBONDS && row[i].Some? && row[i] != Some(b)
      invariant 0 <= i <= NBBONDS
      invariant forall k :: 0 <= k < i ==> row[k].Some? && row[k] != Some(b)
    {
      i := i + 1;
    }
    var e := Entries(row);
    if i < NBBONDS && row[i] == Some(b) {
      assert e[i] == b;
      r, wrote := row, false;
    } else if i < NBBONDS {
      LenIs(row, i);
      assert b !in e;
      r, wrote := row[i := Some(b)], true;
      assert r == Fill(e + [b]);
      EntriesOfFill(e + [b]);
    } else {
      LenIs(row, NBBONDS);
      assert b !in e;
      r, wrote := row, false;
    }
  }

  /** A row holding only `b`: the new UnityMolAtom[NBBONDS] with slot 0 set. */
  method NewRow(b: AtomRef) returns (r: Row)
    ensures ValidRow(r) && Entries(r) == [b]
  {
    r := seq(NBBONDS, i => None);
    r := r[0 := Some(b)];
    assert r == Fill([b]);
    EntriesOfFill([b]);
  }

  /** Nulls every slot (the bonded == null case of Remove and RemoveDual). */
  method ClearRow(row: Row) returns (r: Row)
    requires |row| == NBBONDS
    ensures ValidRow(r) && Entries(r) == []
  {
    r := row;
    for i := 0 to NBBONDS
      invariant |r| == NBBONDS
      invariant forall k :: 0 <= k < i ==> r[k] == None
    {
      r := r[i := None];
    }
    assert r == Fill([]);
    EntriesOfFill([]);
  }

  /**
   * The removal loop: finds `b`, finds the last taken slot, moves that atom into b's slot
   * and nulls the last one. `emptied` is the source's `j == 0`: `b` was the only atom.
   */
  method RowRemove(row: Row, b: AtomRef) returns (r: Row, emptied: bool)
    requires ValidRow(row)
    ensures ValidRow(r) && Entries(r) == SwapRemove(Entries(row), b)
    ensures emptied <==> Entries(row) == [b]
  {
    FillOfEntries(row);
    var e := Entries(row);
    var i := 0;
    while i < NBBONDS && row[i].Some? && row[i] != Some(b)
      invariant 0 <= i <= NBBONDS
      invariant forall k :: 0 <= k < i ==> row[k].Some? && row[k] != Some(b)
    {
      i := i + 1;
    }
    if i < NBBONDS && row[i] == Some(b) {
      assert e[i] == b;
      var j := i;
      while j < NBBONDS - 1 && row[j + 1].Some?
        invariant i <= j < NBBONDS
        invariant forall k :: 0 <= k <= j ==> row[k].Some?
      {
        j := j + 1;
      }
      LenIs(row, j + 1);
      r := row[i := row[j]][j := None];
      emptied := j == 0;
      SwapRemoveRow(e, b, i);
      assert r == Fill(SwapRemove(e, b));
      BondLemmas.SwapRemoveProps(e, b);
      EntriesOfFill(SwapRemove(e, b));
    } else {
      if i < NBBONDS {
        LenIs(row, i);
      } else {
        LenIs(row, NBBONDS);
      }
      assert b !in e;
      r, emptied := row, false;
    }
  }

  /** Slot by slot, removal is the overwrite of b's slot and the release of the last one. */
  lemma SwapRemoveRow(e: seq<AtomRef>, b: AtomRef, i: nat)
    requires Distinct(e) && |e| <= NBBONDS && i < |e| && e[i] == b
    ensures Fill(e)[i := Some(e[|e| - 1])][|e| - 1 := None] == Fill(SwapRemove(e, b))
  {
    assert IndexOf(e, b) == i;
    BondLemmas.SwapRemoveProps(e, b);
  }

  // ---------------------------------------------------------------- one dictionary

  /**
   * The row update of Add and AddDual for key `k`: the slot loop on an existing row, or a
   * new row holding only `b`. `stored` is when Add increments bondsCount.
   */
  method AddToRows(m: map<AtomRef, Row>, k: AtomRef, b: AtomRef) returns (m': map<AtomRef, Row>, stored: bool)
    requires ValidRows(m)
    ensures ValidRows(m') && Abs(m') == Abs(m)[k := Insert(RowOf(Abs(m), k), b)]
    ensures stored <==> b !in RowOf(Abs(m), k) && |RowOf(Abs(m), k)| < NBBONDS
  {
    if k in m {
      var r, wrote := RowAdd(m[k], b);
      assert RowOf(Abs(m), k) == Entries(m[k]);
      AbsUpdate(m, k, r);
      m', stored := m[k := r], wrote;
    } else {
      var r := NewRow(b);
      assert RowOf(Abs(m), k) == [] && Insert([], b) == [b];
      AbsUpdate(m, k, r);
      m', stored := m[k := r], true;
    }
    assert forall j :: j in m' ==> j == k || m'[j] == m[j];
  }

  /** Nulls the row of `k`; the key stays. */
  method ClearRowOf(m: map<AtomRef, Row>, k: AtomRef) returns (m': map<AtomRef, Row>)
    requires ValidRows(m) && k in m
    ensures ValidRows(m') && Abs(m') == Abs(m)[k := []]
  {
    var r := ClearRow(m[k]);
    AbsUpdate(m, k, r);
    m' := m[k := r];
  }

  /** Takes `b` out of the row of `k`, deleting the key when the row held only `b`. */
  method DropFromRow(m: map<AtomRef, Row>, k: AtomRef, b: AtomRef) returns (m': map<AtomRef, Row>)
    requires ValidRows(m) && k in m
    ensures ValidRows(m') && Abs(m') == DropFrom(Abs(m), k, b)
  {
    var r, emptied := RowRemove(m[k], b);
    if emptied {
      AbsRemove(m, k);
      m' := m - {k};
    } else {
      AbsUpdate(m, k, r);
      m' := m[k := r];
      if b !in Entries(m[k]) {
        assert Abs(m') == Abs(m);
      }
    }
  }

  /** The row of `k` once the key loop of Remove has visited it. */
  function Visited(e: seq<AtomRef>, k: AtomRef, atom: AtomRef, bonded: Option<AtomRef>): seq<AtomRef> {
    if Matches(e, k, atom, bonded) then SwapRemove(e, atom) else e
  }

  /** Hit, on one row's entries. */
  predicate Matches(e: seq<AtomRef>, k: AtomRef, atom: AtomRef, bonded: Option<AtomRef>) {
    (bonded.None? || bonded == Some(k)) && atom in e
  }

  /**
   * The loop of Remove over bonds.Keys: `atom` leaves the row of every key it hits, and
   * the keys whose rows it empties are collected in rm and deleted after the loop.
   */
  method DropFromAllRows(m: map<AtomRef, Row>, atom: AtomRef, bonded: Option<AtomRef>)
    returns (m': map<AtomRef, Row>)
    requires ValidRows(m)
    ensures ValidRows(m') && Abs(m') == DropEverywhere(Abs(m), atom, bonded)
  {
    var cur, rm := VisitRows(m, atom, bonded);
    m' := DeleteKeys(cur, rm);
    DropFromAllRowsResult(m, cur, rm, m', atom, bonded);
  }

  /** The foreach over the keys, in any order: each visit touches only its own row. */
  method VisitRows(m: map<AtomRef, Row>, atom: AtomRef, bonded: Option<AtomRef>)
    returns (cur: map<AtomRef, Row>, rm: set<AtomRef>)
    requires ValidRows(m)
    ensures cur.Keys == m.Keys && ValidRows(cur)
    ensures forall k :: k in m ==> Entries(cur[k]) == Visited(Entries(m[k]), k, atom, bonded)
    ensures forall k :: k in rm <==> k in m && Matches(Entries(m[k]), k, atom, bonded) && |Entries(m[k])| == 1
  {
    cur := m;
    var todo := m.Keys;
    rm := {};
    while todo != {}
      invariant Visiting(m, cur, rm, todo, atom, bonded)
      decreases |todo|
    {
      var k :| k in todo;
      var r, emptied := VisitRow(cur[k], k, atom, bonded);
      VisitStep(m, cur, rm, todo, atom, bonded, k, r, emptied);
      cur := cur[k := r];
      if emptied {
        rm := rm + {k};
      }
      todo := todo - {k};
    }
  }

  /** The invariant of the key loop: the keys left in todo are unvisited, the others visited. */
  ghost predicate Visiting(m: map<AtomRef, Row>, cur: map<AtomRef, Row>, rm: set<AtomRef>, todo: set<AtomRef>,
                     atom: AtomRef, bonded: Option<AtomRef>)
  {
    todo <= m.Keys && cur.Keys == m.Keys && ValidRows(cur) &&
    (forall k :: k in todo ==> cur[k] == m[k]) &&
    (forall k :: k in m && k !in todo ==> Entries(cur[k]) == Visited(Entries(m[k]), k, atom, bonded)) &&
    (forall k :: k in rm <==> k in m && k !in todo && Matches(Entries(m[k]), k, atom, bonded) &&
                              |Entries(m[k])| == 1)
  }

  lemma VisitStep(m: map<AtomRef, Row>, cur: map<AtomRef, Row>, rm: set<AtomRef>, todo: set<AtomRef>,
                  atom: AtomRef, bonded: Option<AtomRef>, k: AtomRef, r: Row, emptied: bool)
    requires Visiting(m, cur, rm, todo, atom, bonded) && k in todo
    requires ValidRow(r) && Entries(r) == Visited(Entries(cur[k]), k, atom, bonded)
    requires emptied <==> Matches(Entries(cur[k]), k, atom, bonded) && |Entries(cur[k])| == 1
    ensures Visiting(m, cur[k := r], if emptied then rm + {k} else rm, todo - {k}, atom, bonded)
  {
    VisitedRows(m, cur, todo, atom, bonded, k, r);
    VisitedRemovals(m, cur, rm, todo, atom, bonded, k, emptied);
  }

  lemma VisitedRows(m: map<AtomRef, Row>, cur: map<AtomRef, Row>, todo: set<AtomRef>,
                    atom: AtomRef, bonded: Option<AtomRef>, k: AtomRef, r: Row)
    requires todo <= m.Keys && cur.Keys == m.Keys && ValidRows(cur) && k in todo
    requires forall x :: x in todo ==> cur[x] == m[x]
    requires forall x :: x in m && x !in todo ==> Entries(cur[x]) == Visited(Entries(m[x]), x, atom, bonded)
    requires ValidRow(r) && Entries(r) == Visited(Entries(cur[k]), k, atom, bonded)
    ensures var cur', todo' := cur[k := r], todo - {k};
      todo' <= m.Keys && cur'.Keys == m.Keys && ValidRows(cur') &&
      (forall x :: x in todo' ==> cur'[x] == m[x]) &&
      (forall x :: x in m && x !in todo' ==> Entries(cur'[x]) == Visited(Entries(m[x]), x, atom, bonded))
  {
    var cur', todo' := cur[k := r], todo - {k};
    forall x | x in m && x !in todo'
      ensures Entries(cur'[x]) == Visited(Entries(m[x]), x, atom, bonded)
    {
      if x != k {
        assert cur'[x] == cur[x];
      }
    }
  }

  lemma VisitedRemovals(m: map<AtomRef, Row>, cur: map<AtomRef, Row>, rm: set<AtomRef>, todo: set<AtomRef>,
                        atom: AtomRef, bonded: Option<AtomRef>, k: AtomRef, emptied: bool)
    requires k in todo && k in m && k in cur && cur[k] == m[k]
    requires forall x :: x in rm <==> x in m && x !in todo && Matches(Entries(m[x]), x, atom, bonded) &&
                                      |Entries(m[x])| == 1
    requires emptied <==> Matches(Entries(cur[k]), k, atom, bonded) && |Entries(cur[k])| == 1
    ensures var rm', todo' := if emptied then rm + {k} else rm, todo - {k};
      forall x :: x in rm' <==> x in m && x !in todo' && Matches(Entries(m[x]), x, atom, bonded) &&
                                |Entries(m[x])| == 1
  {
  }

  /** One visit of the key loop: `atom` leaves the row of `k` when the key matches. */
  method VisitRow(row: Row, k: AtomRef, atom: AtomRef, bonded: Option<AtomRef>) returns (r: Row, emptied: bool)
    requires ValidRow(row)
    ensures ValidRow(r)
    ensures Entries(r) == Visited(Entries(row), k, atom, bonded)
    ensures emptied <==> Matches(Entries(row), k, atom, bonded) && |Entries(row)| == 1
  {
    r, emptied := row, false;
    if bonded.None? || bonded == Some(k) {
      r, emptied := RowRemove(row, atom);
      if atom !in Entries(row) {
        assert SwapRemove(Entries(row), atom) == Entries(row);
      }
    }
  }

  /** foreach (rmi in rm) bonds.Remove(rmi). */
  method DeleteKeys(cur: map<AtomRef, Row>, rm: set<AtomRef>) returns (m': map<AtomRef, Row>)
    ensures m' == cur - rm
  {
    m' := cur;
    var rest := rm;
    while rest != {}
      invariant rest <= rm
      invariant m' == cur - (rm - rest)
      decreases |rest|
    {
      var x :| x in rest;
      m' := m' - {x};
      rest := rest - {x};
    }
    assert rm - rest == rm;
  }

  lemma DropFromAllRowsResult(m: map<AtomRef, Row>, cur: map<AtomRef, Row>, rm: set<AtomRef>,
                              m': map<AtomRef, Row>, atom: AtomRef, bonded: Option<AtomRef>)
    requires cur.Keys == m.Keys && ValidRows(cur)
    requires forall k :: k in m ==> Entries(cur[k]) == Visited(Entries(m[k]), k, atom, bonded)
    requires forall k :: k in rm <==> k in m && Matches(Entries(m[k]), k, atom, bonded) && |Entries(m[k])| == 1
    requires m' == cur - rm
    ensures ValidRows(m') && Abs(m') == DropEverywhere(Abs(m), atom, bonded)
  {
    var d := DropEverywhere(Abs(m), atom, bonded);
    DropKeys(m, rm, atom, bonded);
    forall k | k in d
      ensures Abs(m')[k] == d[k]
    {
      DropValue(m, cur, atom, bonded, k);
    }
    forall k | k in m'
      ensures ValidRow(m'[k])
    {
      assert m'[k] == cur[k];
    }
  }

  /** The keys left after the loop are those DropEverywhere keeps. */
  lemma DropKeys(m: map<AtomRef, Row>, rm: set<AtomRef>, atom: AtomRef, bonded: Option<AtomRef>)
    requires forall k :: k in rm <==> k in m && Matches(Entries(m[k]), k, atom, bonded) && |Entries(m[k])| == 1
    ensures (m - rm).Keys == DropEverywhere(Abs(m), atom, bonded).Keys
  {
  }

  /** A row kept after the loop holds what DropEverywhere keeps for it. */
  lemma DropValue(m: map<AtomRef, Row>, cur: map<AtomRef, Row>, atom: AtomRef, bonded: Option<AtomRef>, k: AtomRef)
    requires k in m && k in cur && Entries(cur[k]) == Visited(Entries(m[k]), k, atom, bonded)
    requires k in DropEverywhere(Abs(m), atom, bonded)
    ensures Entries(cur[k]) == DropEverywhere(Abs(m), atom, bonded)[k]
  {
    assert Abs(m)[k] == Entries(m[k]);
  }

  // ---------------------------------------------------------------- the table

  class UnityMolBonds {
    /** Primary rows: atom -> the atoms it was added with. */
    var bonds: map<AtomRef, Row>
    /** Dual rows: both directions of every added bond. */
    var bondsDual: map<AtomRef, Row>
    var bondsCount: int

    ghost predicate Valid()
      reads this
    {
      ValidRows(bonds) && ValidRows(bondsDual)
    }

    function State(): Table
      reads this
    {
      Table(Abs(bonds), Abs(bondsDual), bondsCount)
    }

    constructor()
      ensures Valid() && State() == Table(map[], map[], 0)
    {
      bonds := map[];
      bondsDual := map[];
      bondsCount := 0;
    }

    /** The Count and Length properties: both return the bonds counter. */
    function Count(): (n: int)
      reads this
      ensures n == State().count
    {
      bondsCount
    }

    /** The Dbonds property: the primary dictionary itself. */
    function Dbonds(): (r: map<AtomRef, Row>)
      reads this
      ensures r.Keys == State().bonds.Keys
      ensures Valid() ==> forall k :: k in r ==> ValidRow(r[k]) && Entries(r[k]) == State().bonds[k]
    {
      bonds
    }

    /** Add(atom, bonded). */
    method Add(atom: AtomRef, bonded: AtomRef)
      requires Valid()
      modifies this
      ensures Valid() && State() == AddSpec(old(State()), atom, bonded)
    {
      var stored;
      bonds, stored := AddToRows(bonds, atom, bonded);
      if stored {
        bondsCount := bondsCount + 1;
      }
      AddDual(atom, bonded);
      AddDual(bonded, atom);
    }

    /** The array overload Add(atom, bonded[]): one Add per element, in order. */
    method AddAll(atom: AtomRef, bonded: seq<AtomRef>)
      requires Valid()
      modifies this
      ensures Valid() && State() == AddAllSpec(old(State()), atom, bonded)
    {
      for i := 0 to |bonded|
        invariant Valid() && State() == AddAllSpec(old(State()), atom, bonded[..i])
      {
        assert bonded[..i + 1][..i] == bonded[..i];
        Add(atom, bonded[i]);
      }
      assert bonded[..|bonded|] == bonded;
    }

    method AddDual(atom: AtomRef, bonded: AtomRef)
      requires Valid()
      modifies this
      ensures Valid() && bonds == old(bonds) && bondsCount == old(bondsCount)
      ensures Abs(bondsDual) == AddDualSpec(old(Abs(bondsDual)), atom, bonded)
    {
      var added;
      bondsDual, added := AddToRows(bondsDual, atom, bonded);
    }

    /** Remove(atom, bonded); `bonded` None is the default null argument. */
    method Remove(atom: AtomRef, bonded: Option<AtomRef>)
      requires Valid()
      modifies this
      ensures Valid() && State() == RemoveSpec(old(State()), atom, bonded)
    {
      // atom--bonded or atom--all, in atom's own row
      if atom in bonds {
        if bonded.None? {
          bonds := ClearRowOf(bonds, atom);
        } else {
          bonds := DropFromRow(bonds, atom, bonded.value);
        }
      }
      // all--atom or bonded--atom, in every row
      bonds := DropFromAllRows(bonds, atom, bonded);
      RemoveDual(Some(atom), bonded);
      RemoveDual(bonded, Some(atom));
    }

    /** RemoveDual(atom, bonded), either argument possibly null. */
    method RemoveDual(atom: Option<AtomRef>, bonded: Option<AtomRef>)
      requires Valid()
      modifies this
      ensures Valid() && bonds == old(bonds) && bondsCount == old(bondsCount)
      ensures Abs(bondsDual) == RemoveDualSpec(old(Abs(bondsDual)), atom, bonded)
    {
      if atom.Some? && atom.value in bondsDual {
        if bonded.None? {
          bondsDual := ClearRowOf(bondsDual, atom.value);
        } else {
          bondsDual := DropFromRow(bondsDual, atom.value, bonded.value);
        }
      }
      if bonded.Some? && bonded.value in bondsDual {
        if atom.None? {
          bondsDual := ClearRowOf(bondsDual, bonded.value);
        } else {
          bondsDual := DropFromRow(bondsDual, bonded.value, atom.value);
        }
      }
    }

    /** countBondedAtoms(a): -1 when a has no dual row, else its number of taken slots. */
    method CountBondedAtoms(a: AtomRef) returns (r: int)
      requires Valid()
      ensures r == CountBondedSpec(State(), a)
    {
      if a !in bondsDual {
        return -1;
      }
      var res := bondsDual[a];
      var count := 0;
      for i := 0 to NBBONDS
        invariant count == if i <= Len(res) then i else Len(res)
      {
        if res[i].Some? {
          count := count + 1;
        }
      }
      return count;
    }

    /** isBondedTo(a1, a2): a2 is in a1's dual row. */
    method IsBondedTo(a1: AtomRef, a2: AtomRef) returns (r: bool)
      requires Valid()
      ensures r <==> BondedSpec(State(), a1, a2)
    {
      if a1 in bondsDual {
        var res := bondsDual[a1];
        for i := 0 to NBBONDS
          invariant forall k :: 0 <= k < i ==> res[k] != Some(a2)
        {
          if res[i] == Some(a2) {
            assert Entries(res)[i] == a2;
            return true;
          }
        }
        assert forall k :: 0 <= k < |Entries(res)| ==> Entries(res)[k] != a2;
      }
      return false;
    }

    /**
     * getBondOrderProt(a1, a2): the order listed for a2 among the atoms the residue topology
     * bonds to a1, or -1 when the atoms are not bonded or the topology does not list a2.
     */
    method GetBondOrderProt(a1: AtomRef, a2: AtomRef, topology: AtomRef -> seq<(AtomRef, real)>)
      returns (r: BondOrder)
      requires Valid()
      ensures !BondedSpec(State(), a1, a2) ==> r == NotBonded
      ensures BondedSpec(State(), a1, a2) ==>
                r == match FirstOrder(topology(a1), a2)
                     case Some(o) => BondOrder(o, Covalent)
                     case None => NotBonded
    {
      r := NotBonded;
      var isBonded := IsBondedTo(a1, a2);
      if !isBonded {
        return r;
      }
      var bonded := topology(a1);
      var i := 0;
      while i < |bonded|
        invariant 0 <= i <= |bonded|
        invariant forall k :: 0 <= k < i ==> bonded[k].0 != a2
      {
        if bonded[i].0 == a2 {
          FirstOrderAt(bonded, a2, i);
          return BondOrder(bonded[i].1, Covalent);
        }
        i := i + 1;
      }
      FirstOrderAbsent(bonded, a2);
    }

    /**
     * getBondOrder(a1, a2, useProtDef): -1 when not bonded; else the order the model parsed
     * for (a1, a2) or for (a2, a1); else the topology order when useProtDef; else -1.
     */
    method GetBondOrder(a1: AtomRef, a2: AtomRef, useProtDef: bool,
                        covBondOrders: Option<map<AtomDuo, BondOrder>>,
                        topology: AtomRef -> seq<(AtomRef, real)>)
      returns (r: BondOrder)
      requires Valid()
      ensures !BondedSpec(State(), a1, a2) ==> r == NotBonded
      ensures BondedSpec(State(), a1, a2) && covBondOrders.Some? && AtomDuo(a1, a2) in covBondOrders.value ==>
                r == covBondOrders.value[AtomDuo(a1, a2)]
      ensures BondedSpec(State(), a1, a2) && covBondOrders.Some? && AtomDuo(a1, a2) !in covBondOrders.value &&
              AtomDuo(a2, a1) in covBondOrders.value ==>
                r == covBondOrders.value[AtomDuo(a2, a1)]
      ensures BondedSpec(State(), a1, a2) &&
              (covBondOrders.None? ||
               (AtomDuo(a1, a2) !in covBondOrders.value && AtomDuo(a2, a1) !in covBondOrders.value)) ==>
                r == if useProtDef then
                       match FirstOrder(topology(a1), a2)
                       case Some(o) => BondOrder(o, Covalent)
                       case None => NotBonded
                     else NotBonded
    {
      r := NotBonded;
      var isBonded := IsBondedTo(a1, a2);
      if !isBonded {
        return r;
      }
      var d := AtomDuo(a1, a2);
      var dinv := AtomDuo(a2, a1);
      if covBondOrders.Some? {
        if d in covBondOrders.value {
          return covBondOrders.value[d];
        } else if dinv in covBondOrders.value {
          return covBondOrders.value[dinv];
        }
      }
      if useProtDef {
        r := GetBondOrderProt(a1, a2, topology);
      }
    }

    /** ToList over the key enumeration order `keys`: every taken slot of every primary row. */
    method ToList(keys: seq<AtomRef>) returns (result: seq<AtomDuo>)
      requires Valid() && EnumeratesKeys(keys, State().bonds)
      ensures result == PairsOf(State().bonds, keys)
    {
      result := ListPairs(bonds, keys, false);
    }

    /** ToListDual over `keys`: each stored pair followed by its reverse. */
    method ToListDual(keys: seq<AtomRef>) returns (result: seq<AtomDuo>)
      requires Valid() && EnumeratesKeys(keys, State().bonds)
      ensures result == DualPairsOf(State().bonds, keys)
    {
      result := ListPairs(bonds, keys, true);
    }
  }

  /** The pairs ToList (`both` false) or ToListDual (`both` true) gives for `keys`. */
  function Listed(b: map<AtomRef, seq<AtomRef>>, keys: seq<AtomRef>, both: bool): seq<AtomDuo> {
    if both then DualPairsOf(b, keys) else PairsOf(b, keys)
  }

  /** The pairs of one row, as ToList or ToListDual gives them. */
  function RowListed(a: AtomRef, e: seq<AtomRef>, both: bool): seq<AtomDuo> {
    if both then RowDualPairs(a, e) else RowPairs(a, e)
  }

  /**
   * The nested loops of ToList and ToListDual: for each key, every slot of its row, skipping
   * nulls; `both` also adds the reversed pair.
   */
  method ListPairs(m: map<AtomRef, Row>, keys: seq<AtomRef>, both: bool) returns (result: seq<AtomDuo>)
    requires ValidRows(m) && forall i :: 0 <= i < |keys| ==> keys[i] in m
    ensures result == Listed(Abs(m), keys, both)
  {
    result := [];
    for n := 0 to |keys|
      invariant result == Listed(Abs(m), keys[..n], both)
    {
      var a := keys[n];
      var pairs := SlotPairs(a, m[a], both);
      ListedOneMore(m, keys, n, both);
      result := result + pairs;
    }
    assert keys[..|keys|] == keys;
  }

  /** One more key listed: its row's pairs follow those of the keys before it. */
  lemma ListedOneMore(m: map<AtomRef, Row>, keys: seq<AtomRef>, n: nat, both: bool)
    requires n < |keys| && keys[n] in m
    ensures Listed(Abs(m), keys[..n + 1], both) == Listed(Abs(m), keys[..n], both) + RowListed(keys[n], Entries(m[keys[n]]), both)
  {
    assert keys[..n + 1][..n] == keys[..n];
    assert RowOf(Abs(m), keys[n]) == Entries(m[keys[n]]);
  }

  /** The inner loop: the pairs of one row's taken slots. */
  method SlotPairs(a: AtomRef, row: Row, both: bool) returns (result: seq<AtomDuo>)
    requires ValidRow(row)
    ensures result == RowListed(a, Entries(row), both)
  {
    var e := Entries(row);
    result := [];
    var n := 0;
    for i := 0 to |row|
      invariant n == if i <= |e| then i else |e|
      invariant result == RowListed(a, e[..n], both)
    {
      if row[i].Some? {
        assert i < |e|;
        assert e[..i + 1] == e[..i] + [row[i].value];
        RowListedOneMore(a, e[..i], row[i].value, both);
        if both {
          result := result + [AtomDuo(a, row[i].value), AtomDuo(row[i].value, a)];
        } else {
          result := result + [AtomDuo(a, row[i].value)];
        }
        n := n + 1;
      }
    }
    assert e[..|e|] == e;
  }

  /** One more slot listed: its pair, and with `both` its reverse, follow the pairs before it. */
  lemma RowListedOneMore(a: AtomRef, e: seq<AtomRef>, x: AtomRef, both: bool)
    ensures RowListed(a, e + [x], both) ==
            RowListed(a, e, both) + if both then [AtomDuo(a, x), AtomDuo(x, a)] else [AtomDuo(a, x)]
  {
  }

  /** The order of the first pair for `a`, if any. */
  function FirstOrder(pairs: seq<(AtomRef, real)>, a: AtomRef): (r: Option<real>)
    ensures r.None? <==> forall i :: 0 <= i < |pairs| ==> pairs[i].0 != a
    ensures r.Some? ==> exists i :: 0 <= i < |pairs| && pairs[i] == (a, r.value) &&
                                    forall k :: 0 <= k < i ==> pairs[k].0 != a
  {
    if pairs == [] then None
    else if pairs[0].0 == a then Some(pairs[0].1)
    else
      var r := FirstOrder(pairs[1..], a);
      if r.Some? then ShiftWitness(pairs, a, r.value); r else r
  }

  lemma ShiftWitness(pairs: seq<(AtomRef, real)>, a: AtomRef, v: real)
    requires |pairs| > 0 && pairs[0].0 != a
    requires exists i :: 0 <= i < |pairs| - 1 && pairs[1..][i] == (a, v) &&
                         forall k :: 0 <= k < i ==> pairs[1..][k].0 != a
    ensures exists i :: 0 <= i < |pairs| && pairs[i] == (a, v) &&
                        forall k :: 0 <= k < i ==> pairs[k].0 != a
  {
    var i :| 0 <= i < |pairs| - 1 && pairs[1..][i] == (a, v) &&
             forall k :: 0 <= k < i ==> pairs[1..][k].0 != a;
    assert pairs[i + 1] == (a, v);
    assert forall k :: 0 < k < i + 1 ==> pairs[k] == pairs[1..][k - 1];
  }

  lemma FirstOrderAt(pairs: seq<(AtomRef, real)>, a: AtomRef, i: nat)
    requires i < |pairs| && pairs[i].0 == a && forall k :: 0 <= k < i ==> pairs[k].0 != a
    ensures FirstOrder(pairs, a) == Some(pairs[i].1)
  {
    var r := FirstOrder(pairs, a);
    var j :| 0 <= j < |pairs| && pairs[j] == (a, r.value) && forall k :: 0 <= k < j ==> pairs[k].0 != a;
    assert j == i;
  }

  lemma FirstOrderAbsent(pairs: seq<(AtomRef, real)>, a: AtomRef)
    requires forall k :: 0 <= k < |pairs| ==> pairs[k].0 != a
    ensures FirstOrder(pairs, a) == None
  {
  }
}
