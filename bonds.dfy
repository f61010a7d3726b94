/**
 * UnityMolBonds: the bond table of a model. Each atom that starts a bond owns a row of
 * NBBONDS slots in `bonds`; `bondsDual` holds the same bonds in both directions. Empty
 * slots are null. A row is filled from the front, so its bonded atoms are the slots before
 * the first null, and removal moves the row's last atom into the freed slot.
 */
module Bonds {
  import opened Wrappers

  /** An atom of the model, compared by identity as the C# atom objects are. */
  type AtomRef = nat

  /** Number of slots of a row (NBBONDS). */
  const NBBONDS: nat := 27

  /** One row of slots: None is a null slot. */
  type Row = seq<Option<AtomRef>>

  // ---------------------------------------------------------------- rows and entries

  /** Index of the first null slot, or the row's length when there is none. */
  function Len(row: Row): (n: nat)
    ensures n <= |row|
    ensures forall i :: 0 <= i < n ==> row[i].Some?
    ensures n < |row| ==> row[n].None?
  {
    if row == [] || row[0].None? then 0 else 1 + Len(row[1..])
  }

  /** The bonded atoms of a row: the slots before the first null. */
  function Entries(row: Row): (e: seq<AtomRef>)
    ensures |e| == Len(row)
    ensures forall i :: 0 <= i < |e| ==> row[i] == Some(e[i])
  {
    seq(Len(row), i requires 0 <= i < Len(row) => row[i].value)
  }

  predicate Distinct(e: seq<AtomRef>) {
    forall i, j :: 0 <= i < j < |e| ==> e[i] != e[j]
  }

  /** A row as the table keeps it: NBBONDS slots, filled from the front, no atom twice. */
  predicate ValidRow(row: Row) {
    |row| == NBBONDS &&
    (forall i :: Len(row) <= i < |row| ==> row[i].None?) &&
    Distinct(Entries(row))
  }

  /** The row holding exactly the atoms `e`, in order. */
  function Fill(e: seq<AtomRef>): (row: Row)
    requires |e| <= NBBONDS
    ensures |row| == NBBONDS
  {
    seq(NBBONDS, i requires 0 <= i < NBBONDS => if i < |e| then Some(e[i]) else None)
  }

  /** The first null slot is at `n` when the slots before it are all taken. */
  lemma {:induction false} LenIs(row: Row, n: nat)
    requires n <= |row| && (forall i :: 0 <= i < n ==> row[i].Some?) && (n < |row| ==> row[n].None?)
    ensures Len(row) == n
  {
    if n > 0 {
      LenIs(row[1..], n - 1);
    }
  }

  lemma LenOfFill(e: seq<AtomRef>)
    requires |e| <= NBBONDS
    ensures Len(Fill(e)) == |e|
  {
    LenIs(Fill(e), |e|);
  }

  /** A distinct sequence of at most NBBONDS atoms is the entry list of its row. */
  lemma EntriesOfFill(e: seq<AtomRef>)
    requires |e| <= NBBONDS && Distinct(e)
    ensures ValidRow(Fill(e)) && Entries(Fill(e)) == e
  {
    LenOfFill(e);
  }

  /** A valid row is determined by its entries. */
  lemma FillOfEntries(row: Row)
    requires ValidRow(row)
    ensures Fill(Entries(row)) == row
  {
  }

  // ---------------------------------------------------------------- spec on entry lists

  /** The entries of `m`'s row for `a`, or none when `a` has no row. */
  function RowOf(m: map<AtomRef, seq<AtomRef>>, a: AtomRef): seq<AtomRef> {
    if a in m then m[a] else []
  }

  /** The loop of Add/AddDual: keep a row that holds `b` or is full, else append `b`. */
  function Insert(e: seq<AtomRef>, b: AtomRef): seq<AtomRef> {
    if b in e || |e| >= NBBONDS then e else e + [b]
  }

  /** Index of the first occurrence of `b`. */
  function IndexOf(e: seq<AtomRef>, b: AtomRef): (i: nat)
    requires b in e
    ensures i < |e| && e[i] == b && forall k :: 0 <= k < i ==> e[k] != b
  {
    if e[0] == b then 0 else 1 + IndexOf(e[1..], b)
  }

  /** The removal loop: the last entry moves into the slot of `b`, the last slot is freed. */
  function SwapRemove(e: seq<AtomRef>, b: AtomRef): (r: seq<AtomRef>)
  {
    if b !in e then e else e[IndexOf(e, b) := e[|e| - 1]][..|e| - 1]
  }

  /** Removing `b` from the row of `k`; a row that held only `b` loses its key (the j == 0 case). */
  function DropFrom(m: map<AtomRef, seq<AtomRef>>, k: AtomRef, b: AtomRef): map<AtomRef, seq<AtomRef>> {
    if k in m && b in m[k] then
      if |m[k]| == 1 then m - {k} else m[k := SwapRemove(m[k], b)]
    else m
  }

  /** The table as entry lists, with the bonds counter. */
  datatype Table = Table(bonds: map<AtomRef, seq<AtomRef>>, dual: map<AtomRef, seq<AtomRef>>,
                         count: int)

  predicate DistinctRows(m: map<AtomRef, seq<AtomRef>>) {
    forall k :: k in m ==> |m[k]| <= NBBONDS && Distinct(m[k])
  }

  predicate Consistent(t: Table) {
    DistinctRows(t.bonds) && DistinctRows(t.dual)
  }

  /** Whether Add(a, b) stores a new bond in a's primary row (and so increments bondsCount). */
  predicate Stores(t: Table, a: AtomRef, b: AtomRef) {
    b !in RowOf(t.bonds, a) && |RowOf(t.bonds, a)| < NBBONDS
  }

  /** Add(atom, bonded): the primary row of `a`, then AddDual(a, b) and AddDual(b, a). */
  function AddSpec(t: Table, a: AtomRef, b: AtomRef): Table {
    Table(t.bonds[a := Insert(RowOf(t.bonds, a), b)],
          AddDualSpec(AddDualSpec(t.dual, a, b), b, a),
          if Stores(t, a, b) then t.count + 1 else t.count)
  }

  /** AddDual(atom, bonded). */
  function AddDualSpec(d: map<AtomRef, seq<AtomRef>>, a: AtomRef, b: AtomRef): map<AtomRef, seq<AtomRef>> {
    d[a := Insert(RowOf(d, a), b)]
  }

  /** Add(atom, bonded[]): Add for each element in order. */
  function AddAllSpec(t: Table, a: AtomRef, bs: seq<AtomRef>): Table
    decreases |bs|
  {
    if bs == [] then t else AddSpec(AddAllSpec(t, a, bs[..|bs| - 1]), a, bs[|bs| - 1])
  }

  /** Whether the key loop of Remove removes `a` from the primary row of `k`. */
  predicate Hit(m: map<AtomRef, seq<AtomRef>>, k: AtomRef, a: AtomRef, bonded: Option<AtomRef>)
    requires k in m
  {
    (bonded.None? || bonded == Some(k)) && a in m[k]
  }

  /** The key loop of Remove: `a` leaves every row it hits; emptied rows lose their key. */
  function DropEverywhere(m: map<AtomRef, seq<AtomRef>>, a: AtomRef, bonded: Option<AtomRef>):
    map<AtomRef, seq<AtomRef>>
  {
    map k | k in m && !(Hit(m, k, a, bonded) && |m[k]| == 1) ::
      if Hit(m, k, a, bonded) then SwapRemove(m[k], a) else m[k]
  }

  /** The first part of Remove: the primary row of `a` is emptied, or loses `b`. */
  function RemoveOwnRow(m: map<AtomRef, seq<AtomRef>>, a: AtomRef, bonded: Option<AtomRef>):
    map<AtomRef, seq<AtomRef>>
  {
    if a !in m then m
    else if bonded.None? then m[a := []]
    else DropFrom(m, a, bonded.value)
  }

  /** RemoveDual(atom, bonded), either argument possibly null. */
  function RemoveDualSpec(d: map<AtomRef, seq<AtomRef>>, atom: Option<AtomRef>, bonded: Option<AtomRef>):
    map<AtomRef, seq<AtomRef>>
  {
    var d1 := if atom.Some? && atom.value in d then
                (if bonded.None? then d[atom.value := []] else DropFrom(d, atom.value, bonded.value))
              else d;
    if bonded.Some? && bonded.value in d1 then
      (if atom.None? then d1[bonded.value := []] else DropFrom(d1, bonded.value, atom.value))
    else d1
  }

  /** Remove(atom, bonded); bondsCount is left as it was. */
  function RemoveSpec(t: Table, a: AtomRef, bonded: Option<AtomRef>): Table {
    Table(DropEverywhere(RemoveOwnRow(t.bonds, a, bonded), a, bonded),
          RemoveDualSpec(RemoveDualSpec(t.dual, Some(a), bonded), bonded, Some(a)),
          t.count)
  }

  /** isBondedTo(a1, a2): a2 is in a1's dual row. */
  predicate BondedSpec(t: Table, a1: AtomRef, a2: AtomRef) {
    a1 in t.dual && a2 in t.dual[a1]
  }

  /** countBondedAtoms(a): -1 without a dual row, else the number of atoms in it. */
  function CountBondedSpec(t: Table, a: AtomRef): int {
    if a in t.dual then |t.dual[a]| else -1
  }

  /** A bonded pair (AtomDuo). */
  datatype AtomDuo = AtomDuo(a1: AtomRef, a2: AtomRef)

  /** ToList: for each key in the enumeration order `keys`, its row's atoms in slot order. */
  function PairsOf(m: map<AtomRef, seq<AtomRef>>, keys: seq<AtomRef>): seq<AtomDuo>
  {
    if keys == [] then []
    else
      var k := keys[|keys| - 1];
      PairsOf(m, keys[..|keys| - 1]) + RowPairs(k, RowOf(m, k))
  }

  function RowPairs(k: AtomRef, e: seq<AtomRef>): (r: seq<AtomDuo>)
    ensures |r| == |e| && forall i :: 0 <= i < |e| ==> r[i] == AtomDuo(k, e[i])
  {
    seq(|e|, i requires 0 <= i < |e| => AtomDuo(k, e[i]))
  }

  /** ToListDual: each pair of ToList followed by its reverse. */
  function DualPairsOf(m: map<AtomRef, seq<AtomRef>>, keys: seq<AtomRef>): seq<AtomDuo>
  {
    if keys == [] then []
    else
      var k := keys[|keys| - 1];
      DualPairsOf(m, keys[..|keys| - 1]) + RowDualPairs(k, RowOf(m, k))
  }

  function RowDualPairs(k: AtomRef, e: seq<AtomRef>): (r: seq<AtomDuo>)
    ensures |r| == 2 * |e|
    ensures forall i :: 0 <= i < |e| ==> r[2 * i] == AtomDuo(k, e[i]) && r[2 * i + 1] == AtomDuo(e[i], k)
  {
    seq(2 * |e|, i requires 0 <= i < 2 * |e| => if i % 2 == 0 then AtomDuo(k, e[i / 2]) else AtomDuo(e[i / 2], k))
  }

  /** `keys` enumerates the keys of `m`, each once, as a Dictionary's key collection does. */
  predicate EnumeratesKeys(keys: seq<AtomRef>, m: map<AtomRef, seq<AtomRef>>) {
    Distinct(keys) && (forall i :: 0 <= i < |keys| ==> keys[i] in m) && (forall k :: k in m ==> k in keys)
  }

  /** Sum of the row lengths of the keys in `keys`. */
  function TotalOf(m: map<AtomRef, seq<AtomRef>>, keys: seq<AtomRef>): nat {
    if keys == [] then 0 else TotalOf(m, keys[..|keys| - 1]) + |RowOf(m, keys[|keys| - 1])|
  }

  /** The bond order record (bondOrderType): order -1 means "not bonded". */
  datatype BondType = Covalent | OtherBondType(code: int)
  datatype BondOrder = BondOrder(order: real, btype: BondType)

  const NotBonded: BondOrder := BondOrder(-1.0, Covalent)
}
