/**
 * What the bond table promises, proved on its entry-list specification: rows stay
 * duplicate-free and within NBBONDS, Add bonds both ways and is idempotent, Remove takes
 * the named bonds out of both tables, and ToList/ToListDual list exactly the stored bonds.
 */
module BondLemmas {
  import opened Wrappers
  import opened Bonds

  // ---------------------------------------------------------------- single rows

  lemma InsertProps(e: seq<AtomRef>, b: AtomRef)
    requires |e| <= NBBONDS && Distinct(e)
    ensures |Insert(e, b)| <= NBBONDS && Distinct(Insert(e, b))
    ensures forall x :: x in Insert(e, b) <==> x in e || (x == b && |e| < NBBONDS)
    ensures b in e || |e| < NBBONDS ==> b in Insert(e, b)
  {
  }

  lemma SwapRemoveProps(e: seq<AtomRef>, b: AtomRef)
    requires Distinct(e)
    ensures Distinct(SwapRemove(e, b))
    ensures forall x :: x in SwapRemove(e, b) <==> x in e && x != b
    ensures |SwapRemove(e, b)| == if b in e then |e| - 1 else |e|
  {
    if b in e {
      var i := IndexOf(e, b);
      var r := SwapRemove(e, b);
      assert r == e[i := e[|e| - 1]][..|e| - 1];
      forall x
        ensures x in r <==> x in e && x != b
      {
        if x in e && x != b {
          var k :| 0 <= k < |e| && e[k] == x;
          if k == |e| - 1 {
            if i < |e| - 1 {
              assert r[i] == x;
            }
          } else {
            assert r[k] == x;
          }
        }
      }
    }
  }

  /** Removing the last-added entry undoes the append. */
  lemma SwapRemoveLast(e: seq<AtomRef>, b: AtomRef)
    requires b !in e
    ensures SwapRemove(e + [b], b) == e
  {
    var f := e + [b];
    var i := IndexOf(f, b);
    assert i == |e|;
  }

  // ---------------------------------------------------------------- consistency

  lemma AddDualSpecProps(d: map<AtomRef, seq<AtomRef>>, a: AtomRef, b: AtomRef)
    requires DistinctRows(d)
    ensures DistinctRows(AddDualSpec(d, a, b))
    ensures a in AddDualSpec(d, a, b)
    ensures forall x :: x in AddDualSpec(d, a, b)[a] <==> x in RowOf(d, a) || (x == b && |RowOf(d, a)| < NBBONDS)
    ensures forall k :: k != a ==> RowOf(AddDualSpec(d, a, b), k) == RowOf(d, k)
  {
    InsertProps(RowOf(d, a), b);
  }

  /** Add keeps every row within NBBONDS atoms and free of repeats. */
  lemma AddConsistent(t: Table, a: AtomRef, b: AtomRef)
    requires Consistent(t)
    ensures Consistent(AddSpec(t, a, b))
  {
    InsertProps(RowOf(t.bonds, a), b);
    AddDualSpecProps(t.dual, a, b);
    AddDualSpecProps(AddDualSpec(t.dual, a, b), b, a);
  }

  lemma DropFromProps(m: map<AtomRef, seq<AtomRef>>, k: AtomRef, b: AtomRef)
    requires DistinctRows(m)
    ensures DistinctRows(DropFrom(m, k, b))
    ensures forall j :: j != k ==> RowOf(DropFrom(m, k, b), j) == RowOf(m, j)
    ensures forall x :: x in RowOf(DropFrom(m, k, b), k) <==> x in RowOf(m, k) && x != b
    ensures DropFrom(m, k, b).Keys <= m.Keys
  {
    if k in m && b in m[k] {
      SwapRemoveProps(m[k], b);
      if |m[k]| == 1 {
        assert m[k] == [b];
      }
    }
  }

  lemma DropEverywhereProps(m: map<AtomRef, seq<AtomRef>>, a: AtomRef, bonded: Option<AtomRef>)
    requires DistinctRows(m)
    ensures DistinctRows(DropEverywhere(m, a, bonded))
    ensures forall k: AtomRef, x: AtomRef :: x in RowOf(DropEverywhere(m, a, bonded), k) <==>
              x in RowOf(m, k) && !(x == a && (bonded.None? || bonded == Some(k)))
  {
    var r := DropEverywhere(m, a, bonded);
    forall k | k in m
      ensures forall x :: x in RowOf(r, k) <==> x in RowOf(m, k) && !(x == a && (bonded.None? || bonded == Some(k)))
    {
      SwapRemoveProps(m[k], a);
      if Hit(m, k, a, bonded) && |m[k]| == 1 {
        assert m[k] == [a];
      }
    }
    forall k | k in r
      ensures |r[k]| <= NBBONDS && Distinct(r[k])
    {
      SwapRemoveProps(m[k], a);
    }
  }

  lemma RemoveDualSpecProps(d: map<AtomRef, seq<AtomRef>>, atom: Option<AtomRef>, bonded: Option<AtomRef>)
    requires DistinctRows(d)
    ensures DistinctRows(RemoveDualSpec(d, atom, bonded))
  {
    var d1 := if atom.Some? && atom.value in d then
                (if bonded.None? then d[atom.value := []] else DropFrom(d, atom.value, bonded.value))
              else d;
    if atom.Some? && atom.value in d && bonded.Some? {
      DropFromProps(d, atom.value, bonded.value);
    }
    assert DistinctRows(d1);
    if bonded.Some? && bonded.value in d1 && atom.Some? {
      DropFromProps(d1, bonded.value, atom.value);
    }
  }

  /** Remove keeps every row within NBBONDS atoms and free of repeats. */
  lemma RemoveConsistent(t: Table, a: AtomRef, bonded: Option<AtomRef>)
    requires Consistent(t)
    ensures Consistent(RemoveSpec(t, a, bonded))
  {
    var b1 := RemoveOwnRow(t.bonds, a, bonded);
    if a in t.bonds && bonded.Some? {
      DropFromProps(t.bonds, a, bonded.value);
    }
    assert DistinctRows(b1);
    DropEverywhereProps(b1, a, bonded);
    RemoveDualSpecProps(t.dual, Some(a), bonded);
    RemoveDualSpecProps(RemoveDualSpec(t.dual, Some(a), bonded), bonded, Some(a));
  }

  // ---------------------------------------------------------------- Add

  /**
   * After Add(a, b), each atom is in the other's dual row (isBondedTo both ways), unless a
   * dual row was already full; and b is in a's primary row unless that row was full.
   */
  lemma AddBondsBothWays(t: Table, a: AtomRef, b: AtomRef)
    requires Consistent(t)
    ensures var t' := AddSpec(t, a, b);
      (b in RowOf(t.dual, a) || |RowOf(t.dual, a)| < NBBONDS ==> BondedSpec(t', a, b)) &&
      (a in RowOf(t.dual, b) || |RowOf(t.dual, b)| < NBBONDS ==> BondedSpec(t', b, a)) &&
      (b in t'.bonds[a] <==> b in RowOf(t.bonds, a) || |RowOf(t.bonds, a)| < NBBONDS)
  {
    InsertProps(RowOf(t.bonds, a), b);
    var d1 := AddDualSpec(t.dual, a, b);
    AddDualSpecProps(t.dual, a, b);
    AddDualSpecProps(d1, b, a);
    if a == b {
      InsertProps(RowOf(d1, a), a);
    }
  }

  /** Add only touches the rows of a and b; bondsCount grows exactly when a's row gains b. */
  lemma AddFrame(t: Table, a: AtomRef, b: AtomRef)
    requires Consistent(t)
    ensures var t' := AddSpec(t, a, b);
      (forall k :: k != a ==> RowOf(t'.bonds, k) == RowOf(t.bonds, k)) &&
      (forall k :: k != a && k != b ==> RowOf(t'.dual, k) == RowOf(t.dual, k)) &&
      (t'.count == t.count + 1 <==> b !in RowOf(t.bonds, a) && b in t'.bonds[a]) &&
      (t'.count == t.count || t'.count == t.count + 1)
  {
    InsertProps(RowOf(t.bonds, a), b);
    AddDualSpecProps(t.dual, a, b);
    AddDualSpecProps(AddDualSpec(t.dual, a, b), b, a);
  }

  /** A second Add of the same pair changes nothing. */
  lemma {:induction false} AddIdempotent(t: Table, a: AtomRef, b: AtomRef)
    ensures AddSpec(AddSpec(t, a, b), a, b) == AddSpec(t, a, b)
  {
    var t1 := AddSpec(t, a, b);
    var d1 := AddDualSpec(t.dual, a, b);
    assert RowOf(t1.bonds, a) == Insert(RowOf(t.bonds, a), b);
    assert Insert(Insert(RowOf(t.bonds, a), b), b) == Insert(RowOf(t.bonds, a), b);
    assert !Stores(t1, a, b);
    assert t1.bonds[a := Insert(RowOf(t1.bonds, a), b)] == t1.bonds;
    AddDualTwice(t.dual, a, b);
  }

  lemma AddDualTwice(d: map<AtomRef, seq<AtomRef>>, a: AtomRef, b: AtomRef)
    ensures var d2 := AddDualSpec(AddDualSpec(d, a, b), b, a);
      AddDualSpec(AddDualSpec(d2, a, b), b, a) == d2
  {
    var d1 := AddDualSpec(d, a, b);
    var d2 := AddDualSpec(d1, b, a);
    assert Insert(Insert(RowOf(d, a), b), b) == Insert(RowOf(d, a), b);
    assert Insert(Insert(RowOf(d1, b), a), a) == Insert(RowOf(d1, b), a);
    if a != b {
      assert RowOf(d2, a) == Insert(RowOf(d, a), b);
      assert AddDualSpec(d2, a, b) == d2;
    } else {
      assert RowOf(d2, a) == Insert(Insert(RowOf(d, a), a), a);
      assert AddDualSpec(d2, a, b) == d2;
    }
  }

  /**
   * When a's primary row is full and lacks b, Add leaves the primary table and the counter
   * as they were (the source only logs an error) but still records the bond in the dual table.
   */
  lemma AddOverflow(t: Table, a: AtomRef, b: AtomRef)
    requires |RowOf(t.bonds, a)| >= NBBONDS && b !in RowOf(t.bonds, a)
    ensures AddSpec(t, a, b).bonds == t.bonds && AddSpec(t, a, b).count == t.count
    ensures |RowOf(t.dual, a)| < NBBONDS ==> BondedSpec(AddSpec(t, a, b), a, b)
  {
    assert a in t.bonds;
    var d1 := AddDualSpec(t.dual, a, b);
    if a == b {
      assert RowOf(d1, a) == Insert(RowOf(t.dual, a), b);
    }
  }

  /** Add(b, a) after Add(a, b) stores a second primary entry: ToList lists the bond twice. */
  lemma AddReverseStoresTwice(t: Table, a: AtomRef, b: AtomRef)
    requires a != b
    requires b !in RowOf(t.bonds, a) && |RowOf(t.bonds, a)| < NBBONDS
    requires a !in RowOf(t.bonds, b) && |RowOf(t.bonds, b)| < NBBONDS
    ensures var t2 := AddSpec(AddSpec(t, a, b), b, a);
      t2.bonds[a] == RowOf(t.bonds, a) + [b] && t2.bonds[b] == RowOf(t.bonds, b) + [a] &&
      t2.count == t.count + 2
  {
    var t1 := AddSpec(t, a, b);
    assert RowOf(t1.bonds, b) == RowOf(t.bonds, b);
    assert Stores(t1, b, a);
  }

  // ---------------------------------------------------------------- Remove

  /**
   * Remove(a, b) takes the bond out of both primary rows and both dual rows, and keeps every
   * other primary and dual entry.
   */
  lemma RemovePairUnbonds(t: Table, a: AtomRef, b: AtomRef)
    requires Consistent(t)
    ensures var t' := RemoveSpec(t, a, Some(b));
      b !in RowOf(t'.bonds, a) && a !in RowOf(t'.bonds, b) &&
      !BondedSpec(t', a, b) && !BondedSpec(t', b, a) &&
      (forall k: AtomRef, x: AtomRef :: !(k == a && x == b) && !(k == b && x == a) ==>
         (x in RowOf(t'.bonds, k) <==> x in RowOf(t.bonds, k))) &&
      (forall k: AtomRef, x: AtomRef :: !(k == a && x == b) && !(k == b && x == a) ==>
         (x in RowOf(t'.dual, k) <==> x in RowOf(t.dual, k)))
  {
    var b1 := RemoveOwnRow(t.bonds, a, Some(b));
    DropFromProps(t.bonds, a, b);
    DropEverywhereProps(b1, a, Some(b));
    var d1 := RemoveDualSpec(t.dual, Some(a), Some(b));
    RemoveDualPair(t.dual, a, b);
    RemoveDualPair(d1, b, a);
  }

  /**
   * The keys Remove(a, b) deletes: a row loses its key exactly when this removal took its only
   * entry, in the primary table and in the dual table. So countBondedAtoms(a) becomes -1 when
   * b was a's only dual partner, where Remove(a) leaves it at 0.
   */
  lemma RemovePairKeys(t: Table, a: AtomRef, b: AtomRef)
    requires Consistent(t)
    ensures var t' := RemoveSpec(t, a, Some(b));
      (forall k :: k in t'.bonds <==> k in t.bonds && !(k == a && t.bonds[a] == [b]) && !(k == b && t.bonds[b] == [a])) &&
      (forall k :: k in t'.dual <==> k in t.dual && !(k == a && t.dual[a] == [b]) && !(k == b && t.dual[b] == [a])) &&
      (RowOf(t.dual, a) == [b] ==> CountBondedSpec(t', a) == -1)
  {
    RemovePairPrimaryKeys(t.bonds, a, b);
    RemovePairDualKeys(t.dual, a, b);
  }

  lemma RemovePairPrimaryKeys(m: map<AtomRef, seq<AtomRef>>, a: AtomRef, b: AtomRef)
    requires DistinctRows(m)
    ensures var m' := DropEverywhere(RemoveOwnRow(m, a, Some(b)), a, Some(b));
      forall k :: k in m' <==> k in m && !(k == a && m[a] == [b]) && !(k == b && m[b] == [a])
  {
    var m1 := RemoveOwnRow(m, a, Some(b));
    assert m1 == DropFrom(m, a, b);
    DropFromKeys(m, a, b);
    DropFromProps(m, a, b);
    DropEverywhereKeys(m1, a, Some(b));
    if a == b && a in m1 {
      assert a !in m1[a];
    }
  }

  lemma RemovePairDualKeys(d: map<AtomRef, seq<AtomRef>>, a: AtomRef, b: AtomRef)
    requires DistinctRows(d)
    ensures var d' := RemoveDualSpec(RemoveDualSpec(d, Some(a), Some(b)), Some(b), Some(a));
      forall k :: k in d' <==> k in d && !(k == a && d[a] == [b]) && !(k == b && d[b] == [a])
  {
    var d2 := RemoveDualSpec(d, Some(a), Some(b));
    RemoveDualPair(d, a, b);
    DualOnceKeys(d, a, b);
    assert DropFrom(d2, b, a) == d2;
    assert DropFrom(d2, a, b) == d2;
    assert RemoveDualSpec(d2, Some(b), Some(a)) == d2;
  }

  /** The keys the first RemoveDual call of Remove(a, b) deletes. */
  lemma DualOnceKeys(d: map<AtomRef, seq<AtomRef>>, a: AtomRef, b: AtomRef)
    requires DistinctRows(d)
    ensures var d2 := RemoveDualSpec(d, Some(a), Some(b));
      forall k :: k in d2 <==> k in d && !(k == a && d[a] == [b]) && !(k == b && d[b] == [a])
  {
    var d1 := DropFrom(d, a, b);
    DropFromKeys(d, a, b);
    DropFromProps(d, a, b);
    DropFromKeys(d1, b, a);
    assert RemoveDualSpec(d, Some(a), Some(b)) == DropFrom(d1, b, a);
    if a == b && a in d1 {
      assert a !in d1[a];
    }
    if a != b && b in d {
      assert b in d1 && d1[b] == d[b];
    }
  }

  /** DropFrom deletes the key exactly when the row held only the atom. */
  lemma DropFromKeys(m: map<AtomRef, seq<AtomRef>>, k: AtomRef, b: AtomRef)
    ensures forall j :: j in DropFrom(m, k, b) <==> j in m && !(j == k && m[k] == [b])
  {
    if k in m && |m[k]| == 1 {
      assert b in m[k] <==> m[k] == [b];
    }
  }

  /** The key loop of Remove deletes exactly the keys whose row held only the atom and is hit. */
  lemma DropEverywhereKeys(m: map<AtomRef, seq<AtomRef>>, a: AtomRef, bonded: Option<AtomRef>)
    ensures forall k :: k in DropEverywhere(m, a, bonded) <==>
      k in m && !((bonded.None? || bonded == Some(k)) && m[k] == [a])
  {
    forall k | k in m
      ensures (Hit(m, k, a, bonded) && |m[k]| == 1) <==> ((bonded.None? || bonded == Some(k)) && m[k] == [a])
    {
      if |m[k]| == 1 {
        assert a in m[k] <==> m[k] == [a];
      }
    }
  }

  lemma RemoveDualPair(d: map<AtomRef, seq<AtomRef>>, a: AtomRef, b: AtomRef)
    requires DistinctRows(d)
    ensures var d' := RemoveDualSpec(d, Some(a), Some(b));
      DistinctRows(d') &&
      b !in RowOf(d', a) && a !in RowOf(d', b) &&
      (forall k: AtomRef, x: AtomRef :: !(k == a && x == b) && !(k == b && x == a) ==>
         (x in RowOf(d', k) <==> x in RowOf(d, k)))
  {
    DropFromProps(d, a, b);
    var d1 := DropFrom(d, a, b);
    DropFromProps(d1, b, a);
    RemoveDualSpecProps(d, Some(a), Some(b));
  }

  /**
   * Remove(a) with no partner empties a's rows but keeps their keys, so countBondedAtoms(a)
   * is then 0 rather than -1; it takes a out of every primary row, and keeps every primary
   * entry that does not involve a.
   */
  lemma RemoveAllPrimary(t: Table, a: AtomRef)
    requires Consistent(t)
    ensures var t' := RemoveSpec(t, a, None);
      RowOf(t'.bonds, a) == [] && RowOf(t'.dual, a) == [] &&
      (a in t.bonds ==> a in t'.bonds) &&
      (a in t.dual ==> a in t'.dual && CountBondedSpec(t', a) == 0) &&
      (forall k :: a !in RowOf(t'.bonds, k)) &&
      (forall k: AtomRef, x: AtomRef :: k != a && x != a ==> (x in RowOf(t'.bonds, k) <==> x in RowOf(t.bonds, k)))
  {
    var b1 := RemoveOwnRow(t.bonds, a, None);
    assert DistinctRows(b1);
    assert RowOf(b1, a) == [];
    DropEverywhereProps(b1, a, None);
  }

  // ---------------------------------------------------------------- listing

  /** ToList lists a pair exactly when its second atom is in the primary row of its first. */
  lemma {:induction false} PairsOfMembers(m: map<AtomRef, seq<AtomRef>>, keys: seq<AtomRef>, p: AtomDuo)
    ensures p in PairsOf(m, keys) <==> p.a1 in keys && p.a2 in RowOf(m, p.a1)
  {
    if keys != [] {
      var k := keys[|keys| - 1];
      var init := keys[..|keys| - 1];
      PairsOfMembers(m, init, p);
      assert keys == init + [k];
      if p in RowPairs(k, RowOf(m, k)) {
        var i :| 0 <= i < |RowOf(m, k)| && RowPairs(k, RowOf(m, k))[i] == p;
        assert p.a2 == RowOf(m, k)[i];
      }
      if p.a1 == k && p.a2 in RowOf(m, k) {
        var i :| 0 <= i < |RowOf(m, k)| && RowOf(m, k)[i] == p.a2;
        assert RowPairs(k, RowOf(m, k))[i] == p;
      }
    }
  }

  /** Over an enumeration of the keys, ToList is exactly the stored primary bonds. */
  lemma ToListExact(m: map<AtomRef, seq<AtomRef>>, keys: seq<AtomRef>)
    requires EnumeratesKeys(keys, m)
    ensures forall p :: p in PairsOf(m, keys) <==> p.a1 in m && p.a2 in m[p.a1]
  {
    forall p
      ensures p in PairsOf(m, keys) <==> p.a1 in m && p.a2 in m[p.a1]
    {
      PairsOfMembers(m, keys, p);
    }
  }

  /** ToList has one pair per stored entry. */
  lemma {:induction false} PairsOfLength(m: map<AtomRef, seq<AtomRef>>, keys: seq<AtomRef>)
    ensures |PairsOf(m, keys)| == TotalOf(m, keys)
    ensures |DualPairsOf(m, keys)| == 2 * TotalOf(m, keys)
  {
    if keys != [] {
      PairsOfLength(m, keys[..|keys| - 1]);
    }
  }

  /** ToListDual holds each pair of ToList and its reverse, and nothing else. */
  lemma {:induction false} DualPairsOfMembers(m: map<AtomRef, seq<AtomRef>>, keys: seq<AtomRef>, p: AtomDuo)
    ensures p in DualPairsOf(m, keys) <==>
            p in PairsOf(m, keys) || AtomDuo(p.a2, p.a1) in PairsOf(m, keys)
  {
    if keys != [] {
      var k := keys[|keys| - 1];
      var init := keys[..|keys| - 1];
      var e := RowOf(m, k);
      DualPairsOfMembers(m, init, p);
      var q := AtomDuo(p.a2, p.a1);
      if p in RowDualPairs(k, e) {
        var i :| 0 <= i < 2 * |e| && RowDualPairs(k, e)[i] == p;
        var j := i / 2;
        if i % 2 == 0 {
          assert i == 2 * j;
          assert RowPairs(k, e)[j] == p;
        } else {
          assert i == 2 * j + 1;
          assert RowPairs(k, e)[j] == q;
        }
      }
      if p in RowPairs(k, e) {
        var j :| 0 <= j < |e| && RowPairs(k, e)[j] == p;
        assert RowDualPairs(k, e)[2 * j] == p;
      }
      if q in RowPairs(k, e) {
        var j :| 0 <= j < |e| && RowPairs(k, e)[j] == q;
        assert RowDualPairs(k, e)[2 * j + 1] == p;
      }
    }
  }

  // ---------------------------------------------------------------- bondsCount and stale dual rows

  /** Taking back the entry just appended to a row restores the map. */
  lemma DropAppended(m: map<AtomRef, seq<AtomRef>>, k: AtomRef, b: AtomRef)
    requires b !in RowOf(m, k)
    requires k in m ==> m[k] != []
    ensures DropFrom(m[k := RowOf(m, k) + [b]], k, b) == m
  {
    SwapRemoveLast(RowOf(m, k), b);
  }

  /**
   * As written, Remove never decrements bondsCount: adding a fresh bond and removing it again
   * gives back both tables, yet Count has grown by one.
   */
  lemma AddThenRemoveKeepsCount(t: Table, a: AtomRef, b: AtomRef)
    requires a != b
    requires b !in RowOf(t.bonds, a) && a !in RowOf(t.bonds, b)
    requires b !in RowOf(t.dual, a) && a !in RowOf(t.dual, b)
    requires |RowOf(t.bonds, a)| < NBBONDS && |RowOf(t.dual, a)| < NBBONDS && |RowOf(t.dual, b)| < NBBONDS
    requires a in t.bonds ==> t.bonds[a] != []
    requires a in t.dual ==> t.dual[a] != []
    requires b in t.dual ==> t.dual[b] != []
    ensures var t' := RemoveSpec(AddSpec(t, a, b), a, Some(b));
      t'.bonds == t.bonds && t'.dual == t.dual && t'.count == t.count + 1
  {
    var t1 := AddSpec(t, a, b);
    DropAppended(t.bonds, a, b);
    assert RemoveOwnRow(t1.bonds, a, Some(b)) == t.bonds;
    assert DropEverywhere(t.bonds, a, Some(b)) == t.bonds;
    AddThenRemoveDual(t.dual, a, b);
  }

  /** Adding both dual entries of a fresh bond and dropping them again gives back the dual rows. */
  lemma DropBothAppended(d: map<AtomRef, seq<AtomRef>>, a: AtomRef, b: AtomRef)
    requires a != b
    requires b !in RowOf(d, a) && a !in RowOf(d, b)
    requires |RowOf(d, a)| < NBBONDS && |RowOf(d, b)| < NBBONDS
    requires a in d ==> d[a] != []
    requires b in d ==> d[b] != []
    ensures RemoveDualSpec(AddDualSpec(AddDualSpec(d, a, b), b, a), Some(a), Some(b)) == d
  {
    var d1 := AddDualSpec(d, a, b);
    var d2 := AddDualSpec(d1, b, a);
    var db := d[b := RowOf(d, b) + [a]];
    assert d2 == db[a := RowOf(db, a) + [b]];
    DropAppended(db, a, b);
    DropAppended(d, b, a);
  }

  /** Removing a pair that is in neither dual row changes nothing. */
  lemma RemoveDualAbsent(d: map<AtomRef, seq<AtomRef>>, x: AtomRef, y: AtomRef)
    requires y !in RowOf(d, x) && x !in RowOf(d, y)
    ensures RemoveDualSpec(d, Some(x), Some(y)) == d
  {
  }

  /** The dual part of AddThenRemoveKeepsCount: both directions leave the dual rows again. */
  lemma AddThenRemoveDual(d: map<AtomRef, seq<AtomRef>>, a: AtomRef, b: AtomRef)
    requires a != b
    requires b !in RowOf(d, a) && a !in RowOf(d, b)
    requires |RowOf(d, a)| < NBBONDS && |RowOf(d, b)| < NBBONDS
    requires a in d ==> d[a] != []
    requires b in d ==> d[b] != []
    ensures RemoveDualSpec(RemoveDualSpec(AddDualSpec(AddDualSpec(d, a, b), b, a), Some(a), Some(b)), Some(b), Some(a)) == d
  {
    DropBothAppended(d, a, b);
    RemoveDualAbsent(d, b, a);
  }

  /**
   * As written, Remove(a) with no partner clears a's own dual row only: an atom b that was
   * bonded to a still has a in its dual row, so isBondedTo(b, a) holds and
   * isBondedTo(a, b) does not.
   */
  lemma RemoveAllLeavesReverseDual(t: Table, a: AtomRef, b: AtomRef)
    requires a != b && a in RowOf(t.dual, b)
    ensures BondedSpec(RemoveSpec(t, a, None), b, a)
    ensures !BondedSpec(RemoveSpec(t, a, None), a, b)
  {
  }

  /** The number of primary entries Remove(a, bonded) takes out. */
  function RemovedCount(t: Table, a: AtomRef, bonded: Option<AtomRef>): nat {
    if bonded.None? then
      |RowOf(t.bonds, a)| + |set k | k in t.bonds && k != a && a in t.bonds[k]|
    else
      (if bonded.value in RowOf(t.bonds, a) then 1 else 0) +
      (if bonded.value != a && a in RowOf(t.bonds, bonded.value) then 1 else 0)
  }

  /**
   * Remove as evidently intended: bondsCount drops by the number of primary entries taken
   * out, and Remove(a) with no partner also takes a out of every other atom's dual row.
   */
  function RemoveFixedSpec(t: Table, a: AtomRef, bonded: Option<AtomRef>): Table {
    var r := RemoveSpec(t, a, bonded);
    Table(r.bonds,
          if bonded.None? then DropEverywhere(r.dual, a, None) else r.dual,
          t.count - RemovedCount(t, a, bonded))
  }

  /** With the correction, removing a freshly added bond gives back exactly the old table. */
  lemma AddThenRemoveFixed(t: Table, a: AtomRef, b: AtomRef)
    requires a != b
    requires b !in RowOf(t.bonds, a) && a !in RowOf(t.bonds, b)
    requires b !in RowOf(t.dual, a) && a !in RowOf(t.dual, b)
    requires |RowOf(t.bonds, a)| < NBBONDS && |RowOf(t.dual, a)| < NBBONDS && |RowOf(t.dual, b)| < NBBONDS
    requires a in t.bonds ==> t.bonds[a] != []
    requires a in t.dual ==> t.dual[a] != []
    requires b in t.dual ==> t.dual[b] != []
    ensures RemoveFixedSpec(AddSpec(t, a, b), a, Some(b)) == t
  {
    AddThenRemoveKeepsCount(t, a, b);
    var t1 := AddSpec(t, a, b);
    assert b in RowOf(t1.bonds, a);
    assert RowOf(t1.bonds, b) == RowOf(t.bonds, b);
  }

  /** With the correction, Remove(a) leaves a bonded to nothing in either direction. */
  lemma RemoveAllFixedUnbonds(t: Table, a: AtomRef)
    requires Consistent(t)
    ensures forall x :: !BondedSpec(RemoveFixedSpec(t, a, None), x, a)
    ensures forall x :: !BondedSpec(RemoveFixedSpec(t, a, None), a, x)
    ensures forall k :: a !in RowOf(RemoveFixedSpec(t, a, None).bonds, k)
  {
    RemoveAllPrimary(t, a);
    RemoveConsistent(t, a, None);
    var r := RemoveSpec(t, a, None);
    DropEverywhereProps(r.dual, a, None);
    forall x | x in RemoveFixedSpec(t, a, None).dual
      ensures a !in RemoveFixedSpec(t, a, None).dual[x]
    {
      assert a !in RowOf(RemoveFixedSpec(t, a, None).dual, x);
    }
  }

  // ---------------------------------------------------------------- countBondedAtoms

  lemma {:induction false} DistinctCard(e: seq<AtomRef>)
    requires Distinct(e)
    ensures |set x: AtomRef | x in e| == |e|
  {
    if e != [] {
      var init := e[..|e| - 1];
      var last := e[|e| - 1];
      DistinctCard(init);
      assert e == init + [last];
      assert (set x: AtomRef | x in e) == (set x: AtomRef | x in init) + {last};
      assert forall k :: 0 <= k < |init| ==> init[k] == e[k] && e[k] != last;
      assert last !in (set x: AtomRef | x in init);
    }
  }

  /** countBondedAtoms(a) is the number of distinct atoms isBondedTo reports for a. */
  lemma CountBondedIsNeighbours(t: Table, a: AtomRef)
    requires Consistent(t) && a in t.dual
    ensures CountBondedSpec(t, a) == |set x: AtomRef | x in t.dual[a]|
    ensures forall x :: x in t.dual[a] <==> BondedSpec(t, a, x)
  {
    DistinctCard(t.dual[a]);
  }
}
