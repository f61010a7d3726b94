/**
 * PDBReader.Write: a selection as PDB text. An optional MODEL line; one ATOM or HETATM
 * record per atom, with a TER record wherever the chain changes; one CONECT record per
 * atom that starts bonds; then END, or ENDMDL when the text is one model of several; and
 * optionally the HELIX and SHEET records. The atom loop stops early once the record
 * count passes 99999 or a residue number reaches 9999.
 */
module PdbWrite {
  import opened Wrappers
  import opened Text
  import opened Molecule
  import opened PdbFields
  import opened Bonds
  import opened PdbWriteSS

  /** An atom of the selection with what the writer reads of its residue and its chain. */
  datatype Placed = Placed(atom: Atom, resName: string, resNum: int, chain: string)

  /**
   * The selection: its atoms in order, the bond rows of its bond table (Dbonds) listed in
   * the dictionary's key order, and what writeSecondaryStructure reads of its structures.
   */
  datatype Selection = Selection(atoms: seq<Placed>, keys: seq<AtomRef>, rows: map<AtomRef, Row>, ss: SSInput)

  /** Write's optional arguments; overridedPos is passed on its own. */
  datatype WriteOptions = WriteOptions(writeModel: bool, writeHET: bool, forceHetAsAtom: bool,
                                       writeSS: bool, writeCONECT: bool)

  /** Write's defaults. */
  const Defaults: WriteOptions := WriteOptions(false, true, false, false, true)

  /**
   * What the writer asks of code outside it:
   *   isWater   membership in WaterSelection.waterResidues, ignoring case;
   *   n3, n2    the "N3" and "N2" number formats of the invariant culture;
   *   numberOf  the serial number of a bonded atom.
   */
  datatype Formats = Formats(isWater: string -> bool, n3: real -> string, n2: real -> string,
                             numberOf: AtomRef -> int)

  /**
   * string.CenterString(width, ' '), an extension method that is not part of this model:
   * a string at least `width` long is unchanged; a shorter one gets half the padding on
   * each side, the extra blank on the right.
   */
  function CenterString(s: string, width: nat): (r: string)
    ensures |s| >= width ==> r == s
    ensures |r| == if |s| < width then width else |s|
  {
    if |s| >= width then s
    else
      var left := (width - |s|) / 2;
      Spaces(left) + s + Spaces(width - |s| - left)
  }

  /** The record name: HETATM for heteroatoms and waters, unless ATOM is forced. */
  function RecordName(p: Placed, opts: WriteOptions, fmt: Formats): string {
    if !opts.forceHetAsAtom && (p.atom.isHET || fmt.isWater(Take(p.resName, 3))) then "HETATM" else "ATOM  "
  }

  /** The atom name as written: its first four characters, formatted, then centred. */
  function NameField(p: Placed): string {
    CenterString(FormatAtomName(Take(p.atom.name, 4)), 4)
  }

  /**
   * The texts the number formats give an atom record: the coordinates with x negated back
   * to a right-handed frame ({8,8:N3} to {10,8:N3}), occupancy 1 and the B-factor ({11,6:N2},
   * {12,6:N2}).
   */
  datatype NumberTexts = NumberTexts(x: string, y: string, z: string, occ: string, bf: string)

  function AtomNumbers(p: Placed, pos: Vec3, fmt: Formats): NumberTexts {
    NumberTexts(fmt.n3(-pos.x), fmt.n3(pos.y), fmt.n3(pos.z), fmt.n2(1.0), fmt.n2(p.atom.bfactor))
  }

  /**
   * An ATOM/HETATM record, "{0,-6}{1, 5} {2, 4}{3, 1}{4, 3} {5, 1}{6, 4}{7, 1}   {8,8:N3}
   * {9,8:N3}{10,8:N3}{11,6:N2}{12,6:N2}          {13,2}{14,2}": the atom's own number, a
   * blank alternate location, the first three characters of the residue name, the first
   * character of the chain name, a blank insertion code, the number texts, the element, a
   * blank charge. When the field texts have the widths the format gives them, the fields
   * lie in the PDB columns.
   */
  function AtomText(p: Placed, chainId: char, nums: NumberTexts, opts: WriteOptions, fmt: Formats): (line: string)
    ensures AtomWidthsAre(RecordName(p, opts, fmt), Field(p.atom.number, 5), PadLeft(NameField(p), 4),
                          PadLeft(Take(p.resName, 3), 3), Field(p.resNum, 4),
                          PadLeft(nums.x, 8), PadLeft(nums.y, 8), PadLeft(nums.z, 8),
                          PadLeft(nums.occ, 6), PadLeft(nums.bf, 6), PadLeft(p.atom.element, 2)) ==>
            AtomColumnsAre(line, RecordName(p, opts, fmt), Field(p.atom.number, 5), PadLeft(NameField(p), 4),
                           PadLeft(Take(p.resName, 3), 3), chainId, Field(p.resNum, 4),
                           PadLeft(nums.x, 8), PadLeft(nums.y, 8), PadLeft(nums.z, 8),
                           PadLeft(nums.bf, 6), PadLeft(p.atom.element, 2))
  {
    AtomLayout(RecordName(p, opts, fmt), Field(p.atom.number, 5), PadLeft(NameField(p), 4),
               PadLeft(Take(p.resName, 3), 3), chainId, Field(p.resNum, 4),
               PadLeft(nums.x, 8), PadLeft(nums.y, 8), PadLeft(nums.z, 8),
               PadLeft(nums.occ, 6), PadLeft(nums.bf, 6), PadLeft(p.atom.element, 2));
    AtomFormat(RecordName(p, opts, fmt), Field(p.atom.number, 5), PadLeft(NameField(p), 4),
               PadLeft(Take(p.resName, 3), 3), chainId, Field(p.resNum, 4),
               PadLeft(nums.x, 8), PadLeft(nums.y, 8), PadLeft(nums.z, 8),
               PadLeft(nums.occ, 6), PadLeft(nums.bf, 6), PadLeft(p.atom.element, 2))
  }

  /** The ATOM/HETATM format string over the texts of its fields. */
  function AtomFormat(rec: string, serial: string, name: string, res: string, c: char, resNum: string,
                      x: string, y: string, z: string, occ: string, bf: string, elem: string): string {
    rec + serial + " " + name + " " + res + " " + [c] + resNum + " " + "   " +
    x + y + z + occ + bf + Spaces(10) + elem + "  "
  }

  /** The widths the atom record's format gives its field texts. */
  predicate AtomWidthsAre(rec: string, serial: string, name: string, res: string, resNum: string,
                          x: string, y: string, z: string, occ: string, bf: string, elem: string) {
    |rec| == 6 && |serial| == 5 && |name| == 4 && |res| == 3 && |resNum| == 4 &&
    |x| == 8 && |y| == 8 && |z| == 8 && |occ| == 6 && |bf| == 6 && |elem| == 2
  }

  /**
   * An 80-column atom record with its fields in the PDB columns: record name 1-6, serial
   * 7-11, name 13-16, residue name 18-20, chain 22, residue number 23-26, coordinates 31-54,
   * B-factor 61-66, element 77-78, blanks at 17, 21 and 27.
   */
  predicate AtomColumnsAre(line: string, rec: string, serial: string, name: string, res: string, c: char,
                           resNum: string, x: string, y: string, z: string, bf: string, elem: string) {
    |line| == 80 && line[..6] == rec && line[6..11] == serial && line[12..16] == name &&
    line[16] == ' ' && line[17..20] == res && line[20] == ' ' && line[21] == c &&
    line[22..26] == resNum && line[26] == ' ' && line[30..38] == x && line[38..46] == y &&
    line[46..54] == z && line[60..66] == bf && line[76..78] == elem
  }

  /**
   * The layout of the atom record's format string, over any field texts of the widths
   * the format gives them.
   */
  lemma AtomLayout(rec: string, serial: string, name: string, res: string, c: char, resNum: string,
                   x: string, y: string, z: string, occ: string, bf: string, elem: string)
    ensures AtomWidthsAre(rec, serial, name, res, resNum, x, y, z, occ, bf, elem) ==>
            AtomColumnsAre(AtomFormat(rec, serial, name, res, c, resNum, x, y, z, occ, bf, elem),
                           rec, serial, name, res, c, resNum, x, y, z, bf, elem)
  {
    if AtomWidthsAre(rec, serial, name, res, resNum, x, y, z, occ, bf, elem) {
      var l1 := rec + serial;
      var l2 := l1 + " ";
      var l3 := l2 + name;
      var l4 := l3 + " ";
      var l5 := l4 + res;
      var l6 := l5 + " ";
      var l7 := l6 + [c];
      var l8 := l7 + resNum;
      var l9 := l8 + " ";
      var l10 := l9 + "   ";
      var l11 := l10 + x;
      var l12 := l11 + y;
      var l13 := l12 + z;
      var l14 := l13 + occ;
      var l15 := l14 + bf;
      var l16 := l15 + Spaces(10);
      var l17 := l16 + elem;
      var line := l17 + "  ";
      assert line[..|line|] == line;
      ExtendPrefix(l17, "  ", line);
      AtHead(l16, elem, line);
      ExtendPrefix(l16, elem, line);
      ExtendPrefix(l15, Spaces(10), line);
      AtHead(l14, bf, line);
      ExtendPrefix(l14, bf, line);
      ExtendPrefix(l13, occ, line);
      AtHead(l12, z, line);
      ExtendPrefix(l12, z, line);
      AtHead(l11, y, line);
      ExtendPrefix(l11, y, line);
      AtHead(l10, x, line);
      ExtendPrefix(l10, x, line);
      ExtendPrefix(l9, "   ", line);
      AtHead(l8, " ", line);
      ExtendPrefix(l8, " ", line);
      AtHead(l7, resNum, line);
      ExtendPrefix(l7, resNum, line);
      AtHead(l6, [c], line);
      ExtendPrefix(l6, [c], line);
      AtHead(l5, " ", line);
      ExtendPrefix(l5, " ", line);
      AtHead(l4, res, line);
      ExtendPrefix(l4, res, line);
      AtHead(l3, " ", line);
      ExtendPrefix(l3, " ", line);
      AtHead(l2, name, line);
      ExtendPrefix(l2, name, line);
      ExtendPrefix(l1, " ", line);
      AtHead(rec, serial, line);
      ExtendPrefix(rec, serial, line);
    }
  }

  /**
   * A TER record, "TER   {0, 5}      {1,3} {2,1}{3,4}{4,1}": the number of the atom that
   * opens the new chain, then the residue name, chain and residue number of the atom
   * before it.
   */
  function TerText(number: int, prevResName: string, prevChain: string, prevResNum: int): string {
    "TER   " + Field(number, 5) + "      " + PadLeft(prevResName, 3) + " " + PadLeft(prevChain, 1) +
    Field(prevResNum, 4) + " "
  }

  /** A record of the atom loop: an atom at its position, or a TER record. */
  datatype Record =
    | AtomRec(p: Placed, chainId: char, pos: Vec3)
    | TerRec(number: int, prevResName: string, prevChain: string, prevResNum: int)

  /** The text of a record. */
  function RecordText(r: Record, opts: WriteOptions, fmt: Formats): string {
    match r
    case AtomRec(p, chainId, pos) => AtomText(p, chainId, AtomNumbers(p, pos, fmt), opts, fmt)
    case TerRec(n, name, chain, num) => TerText(n, name, chain, num)
  }

  /** The records' lines, each ended by "\n". */
  function RecordsText(recs: seq<Record>, opts: WriteOptions, fmt: Formats): string
    decreases |recs|
  {
    if recs == [] then "" else RecordsText(recs[..|recs| - 1], opts, fmt) + RecordText(recs[|recs| - 1], opts, fmt) + "\n"
  }

  /** The locals of the atom loop: the records written, prevChain, atomSerial, and whether it broke out. */
  datatype Progress = Progress(recs: seq<Record>, prevChain: Option<string>, serial: nat, stopped: bool)

  /**
   * One iteration of the atom loop. A skipped heteroatom changes nothing. An empty chain
   * name makes Substring(0, 1) throw (None). A change of chain letter writes a TER record
   * first; atomSerial counts both kinds of record.
   */
  function AtomStep(w: Progress, atoms: seq<Placed>, pos: seq<Vec3>, i: nat, opts: WriteOptions, fmt: Formats):
    (r: Option<Progress>)
    requires i < |atoms| == |pos| && (w.prevChain.Some? ==> i > 0)
  {
    var p := atoms[i];
    if w.stopped || (p.atom.isHET && !opts.writeHET) then Some(w)
    else if p.chain == "" then None
    else
      var chainId := [p.chain[0]];
      var t := if w.prevChain.Some? && w.prevChain != Some(chainId) then
                 w.(recs := w.recs + [TerRec(p.atom.number, atoms[i - 1].resName, w.prevChain.value, atoms[i - 1].resNum)],
                    serial := w.serial + 1)
               else w;
      var serial := t.serial + 1;
      Some(Progress(t.recs + [AtomRec(p, p.chain[0], pos[i])], Some(chainId), serial, serial > 99999 || p.resNum >= 9999))
  }

  /** The atom loop over the first n atoms. */
  function AtomRecords(atoms: seq<Placed>, pos: seq<Vec3>, n: nat, opts: WriteOptions, fmt: Formats):
    (r: Option<Progress>)
    requires n <= |atoms| == |pos|
    ensures r.Some? ==> (r.value.prevChain.Some? ==> n > 0)
  {
    if n == 0 then Some(Progress([], None, 0, false))
    else
      var w :- AtomRecords(atoms, pos, n - 1, opts, fmt);
      AtomStep(w, atoms, pos, n - 1, opts, fmt)
  }

  /** The lines of the atom loop's records, or None for an exception. */
  function AtomsText(atoms: seq<Placed>, pos: seq<Vec3>, opts: WriteOptions, fmt: Formats): Option<string>
    requires |atoms| == |pos|
  {
    var w :- AtomRecords(atoms, pos, |atoms|, opts, fmt);
    Some(RecordsText(w.recs, opts, fmt))
  }

  /** The positions written: overridedPos when given, else each atom's own. */
  function PositionsOf(atoms: seq<Placed>, overridedPos: Option<seq<Vec3>>): (r: seq<Vec3>)
    requires overridedPos.Some? ==> |overridedPos.value| == |atoms|
    ensures |r| == |atoms|
    ensures overridedPos.Some? ==> r == overridedPos.value
    ensures overridedPos.None? ==> forall i :: 0 <= i < |atoms| ==> r[i] == atoms[i].atom.position
  {
    if overridedPos.Some? then overridedPos.value else seq(|atoms|, i requires 0 <= i < |atoms| => atoms[i].atom.position)
  }

  /** The numbers the writer gives the atoms of a row, in order. */
  function NumbersOf(e: seq<AtomRef>, fmt: Formats): (r: seq<int>)
    ensures |r| == |e| && forall i :: 0 <= i < |e| ==> r[i] == fmt.numberOf(e[i])
  {
    seq(|e|, i requires 0 <= i < |e| => fmt.numberOf(e[i]))
  }

  /** What a CONECT record says: the key atom's number and its partners' numbers, in row order. */
  datatype ConectRow = ConectRow(root: int, partners: seq<int>)

  /** The CONECT row of a key of the bond table: itself and the atoms of its row up to the first null. */
  function ConectRowOf(k: AtomRef, row: Row, fmt: Formats): ConectRow {
    ConectRow(fmt.numberOf(k), NumbersOf(Entries(row), fmt))
  }

  /** The CONECT record of a row: " {0,4:D}" for the key, " {0,4:}" for each partner. */
  function ConectText(c: ConectRow): string {
    "CONECT" + " " + Field(c.root, 4) + PartnerFields(c.partners)
  }

  function PartnerFields(ps: seq<int>): string
    decreases |ps|
  {
    if ps == [] then "" else PartnerFields(ps[..|ps| - 1]) + " " + Field(ps[|ps| - 1], 4)
  }

  /** The CONECT rows of the keys, in key order. */
  function ConectRows(keys: seq<AtomRef>, rows: map<AtomRef, Row>, fmt: Formats): seq<ConectRow>
    requires forall i :: 0 <= i < |keys| ==> keys[i] in rows
  {
    seq(|keys|, i requires 0 <= i < |keys| && keys[i] in rows => ConectRowOf(keys[i], rows[keys[i]], fmt))
  }

  /** One CONECT line per row. */
  function ConectLines(cs: seq<ConectRow>): (r: seq<string>)
    ensures |r| == |cs|
    decreases |cs|
  {
    if cs == [] then [] else ConectLines(cs[..|cs| - 1]) + [ConectText(cs[|cs| - 1])]
  }

  /** Every key has a row of NBBONDS slots, as in the bond table. */
  predicate RowsOk(sel: Selection) {
    (forall i :: 0 <= i < |sel.keys| ==> sel.keys[i] in sel.rows) &&
    (forall k :: k in sel.rows ==> |sel.rows[k]| == NBBONDS)
  }

  /**
   * Write(select, ...): "" when overridedPos does not have one position per atom; None
   * when an atom to write has an empty chain name.
   */
  function WriteText(sel: Selection, overridedPos: Option<seq<Vec3>>, opts: WriteOptions, fmt: Formats):
    Option<string>
    requires RowsOk(sel)
  {
    if overridedPos.Some? && |sel.atoms| != |overridedPos.value| then Some("")
    else
      var atomLines :- AtomsText(sel.atoms, PositionsOf(sel.atoms, overridedPos), opts, fmt);
      Some(Framed(opts, atomLines, Lines(ConectLines(ConectRows(sel.keys, sel.rows, fmt))), SSText(sel.ss)))
  }

  /**
   * The sections of Write(select) in order: MODEL, the atom records, CONECT, then ENDMDL or
   * END, then HELIX and SHEET, each as the options ask.
   */
  function Framed(opts: WriteOptions, atomLines: string, conect: string, ss: string): (t: string)
    ensures opts.writeModel ==> |t| >= 13 && t[..6] == "MODEL\n"
    ensures var head := if opts.writeModel then "MODEL\n" else "";
      var body := atomLines + (if opts.writeCONECT then conect else "");
      var tail := (if opts.writeModel then "ENDMDL\n" else "END\n") + (if opts.writeSS then ss else "");
      |t| == |head| + |body| + |tail| && t[..|head|] == head &&
      t[|head|..|head| + |body|] == body && t[|head| + |body|..] == tail
  {
    var head := if opts.writeModel then "MODEL\n" else "";
    var body := atomLines + (if opts.writeCONECT then conect else "");
    var tail := (if opts.writeModel then "ENDMDL\n" else "END\n") + (if opts.writeSS then ss else "");
    ThreeParts(head, body, tail);
    head + body + tail
  }

  /** The pieces of a text made of three parts, each in its place. */
  lemma ThreeParts(a: string, b: string, c: string)
    ensures var t := a + b + c;
      |t| == |a| + |b| + |c| && t[..|a|] == a && t[|a|..|a| + |b|] == b && t[|a| + |b|..] == c
  {
  }

  /** The text of one model of Write(structure): its selection written with a MODEL line. */
  function ModelText(m: Selection, fmt: Formats): (r: Option<string>)
    requires RowsOk(m)
    ensures r.Some? ==> |r.value| >= 13 && r.value[..6] == "MODEL\n"
  {
    WriteText(m, None, Defaults.(writeModel := true), fmt)
  }

  /** The models' texts in order, then "END"; None from the first model that fails. */
  function JoinModels(texts: seq<Option<string>>): Option<string>
    decreases |texts|
  {
    if texts == [] then Some("END")
    else
      var first :- texts[0];
      var rest :- JoinModels(texts[1..]);
      Some(first + rest)
  }

  /** Write(structure): each model's selection written as a model, then "END". */
  function WriteModels(models: seq<Selection>, fmt: Formats): Option<string>
    requires forall i :: 0 <= i < |models| ==> RowsOk(models[i])
  {
    JoinModels(ModelTexts(models, fmt))
  }

  function ModelTexts(models: seq<Selection>, fmt: Formats): (r: seq<Option<string>>)
    requires forall i :: 0 <= i < |models| ==> RowsOk(models[i])
    ensures |r| == |models| && forall i :: 0 <= i < |models| ==> r[i] == ModelText(models[i], fmt)
  {
    seq(|models|, i requires 0 <= i < |models| && RowsOk(models[i]) => ModelText(models[i], fmt))
  }

  // ---------------------------------------------------------------- the methods

  /** Once the loop has broken out, later atoms change nothing. */
  lemma {:induction false} AtomRecordsStopped(atoms: seq<Placed>, pos: seq<Vec3>, n: nat, m: nat,
                                              opts: WriteOptions, fmt: Formats)
    requires n <= m <= |atoms| == |pos|
    requires AtomRecords(atoms, pos, n, opts, fmt).Some? && AtomRecords(atoms, pos, n, opts, fmt).value.stopped
    ensures AtomRecords(atoms, pos, m, opts, fmt) == AtomRecords(atoms, pos, n, opts, fmt)
    decreases m - n
  {
    if n < m {
      AtomRecordsStopped(atoms, pos, n, m - 1, opts, fmt);
    }
  }

  /** An exception ends the loop: later atoms do not undo it. */
  lemma {:induction false} AtomRecordsFailed(atoms: seq<Placed>, pos: seq<Vec3>, n: nat, m: nat,
                                             opts: WriteOptions, fmt: Formats)
    requires n <= m <= |atoms| == |pos|
    requires AtomRecords(atoms, pos, n, opts, fmt).None?
    ensures AtomRecords(atoms, pos, m, opts, fmt).None?
    decreases m - n
  {
    if n < m {
      AtomRecordsFailed(atoms, pos, n, m - 1, opts, fmt);
    }
  }

  /** The CONECT record of one key: the slots of its row up to the first null. */
  method WriteConectLine(k: AtomRef, row: Row, fmt: Formats) returns (line: string)
    requires |row| == NBBONDS
    ensures line == ConectText(ConectRowOf(k, row, fmt))
  {
    var partners := "";
    ghost var e := Entries(row);
    ghost var n := |e|;
    var i := 0;
    while i < NBBONDS
      invariant i <= n && partners == PartnerFields(NumbersOf(e[..i], fmt))
    {
      if row[i].None? {
        break;
      }
      assert i < n;
      PartnerFieldsAppend(e, i, fmt);
      partners := partners + " " + Field(fmt.numberOf(row[i].value), 4);
      i := i + 1;
    }
    assert i == n && e[..i] == e;
    line := "CONECT" + " " + Field(fmt.numberOf(k), 4) + partners;
  }

  lemma PartnerFieldsAppend(e: seq<AtomRef>, i: nat, fmt: Formats)
    requires i < |e|
    ensures PartnerFields(NumbersOf(e[..i + 1], fmt)) == PartnerFields(NumbersOf(e[..i], fmt)) + " " + Field(fmt.numberOf(e[i]), 4)
  {
    var ps := NumbersOf(e[..i + 1], fmt);
    assert ps[..i] == NumbersOf(e[..i], fmt);
  }

  lemma ConectRowsAppend(keys: seq<AtomRef>, rows: map<AtomRef, Row>, fmt: Formats, ki: nat)
    requires ki < |keys| && forall i :: 0 <= i < |keys| ==> keys[i] in rows
    ensures ConectRows(keys[..ki + 1], rows, fmt) ==
            ConectRows(keys[..ki], rows, fmt) + [ConectRowOf(keys[ki], rows[keys[ki]], fmt)]
  {
    var r := ConectRows(keys[..ki + 1], rows, fmt);
    var r0 := ConectRows(keys[..ki], rows, fmt);
    assert forall j :: 0 <= j < ki ==> r[j] == r0[j];
  }

  /** The text after one more key of the CONECT loop. */
  lemma ConectStep(keys: seq<AtomRef>, rows: map<AtomRef, Row>, fmt: Formats, ki: nat, text: string, line: string)
    requires ki < |keys| && forall i :: 0 <= i < |keys| ==> keys[i] in rows
    requires text == Lines(ConectLines(ConectRows(keys[..ki], rows, fmt)))
    requires line == ConectText(ConectRowOf(keys[ki], rows[keys[ki]], fmt))
    ensures text + line + "\n" == Lines(ConectLines(ConectRows(keys[..ki + 1], rows, fmt)))
  {
    ConectRowsAppend(keys, rows, fmt, ki);
    var cs := ConectRows(keys[..ki], rows, fmt);
    var c := ConectRowOf(keys[ki], rows[keys[ki]], fmt);
    assert (cs + [c])[..|cs|] == cs;
    LinesAppend(ConectLines(cs), line);
  }

  /** The CONECT loop: the keys in order. */
  method WriteConect(keys: seq<AtomRef>, rows: map<AtomRef, Row>, fmt: Formats) returns (text: string)
    requires forall i :: 0 <= i < |keys| ==> keys[i] in rows
    requires forall k :: k in rows ==> |rows[k]| == NBBONDS
    ensures text == Lines(ConectLines(ConectRows(keys, rows, fmt)))
  {
    text := "";
    for ki := 0 to |keys|
      invariant text == Lines(ConectLines(ConectRows(keys[..ki], rows, fmt)))
    {
      var line := WriteConectLine(keys[ki], rows[keys[ki]], fmt);
      ConectStep(keys, rows, fmt, ki, text, line);
      text := text + line + "\n";
    }
    assert keys[..|keys|] == keys;
  }

  /** Writing one more record appends its line. */
  lemma RecordAppend(recs: seq<Record>, r: Record, opts: WriteOptions, fmt: Formats)
    ensures RecordsText(recs + [r], opts, fmt) == RecordsText(recs, opts, fmt) + RecordText(r, opts, fmt) + "\n"
  {
    assert (recs + [r])[..|recs|] == recs;
  }

  /** One more atom of the loop is one more AtomStep. */
  lemma AtomRecordsNext(atoms: seq<Placed>, pos: seq<Vec3>, i: nat, w: Progress, opts: WriteOptions, fmt: Formats)
    requires i < |atoms| == |pos| && AtomRecords(atoms, pos, i, opts, fmt) == Some(w)
    ensures AtomRecords(atoms, pos, i + 1, opts, fmt) == AtomStep(w, atoms, pos, i, opts, fmt)
  {
  }

  /** sw.Append(line + "\n") for the line of one record. */
  method AppendRecord(sw: string, recs: seq<Record>, r: Record, opts: WriteOptions, fmt: Formats) returns (sw': string)
    requires sw == RecordsText(recs, opts, fmt)
    ensures sw' == RecordsText(recs + [r], opts, fmt)
  {
    RecordAppend(recs, r, opts, fmt);
    sw' := sw + RecordText(r, opts, fmt) + "\n";
  }

  /** What AtomStep yields for an atom it writes, given the locals after the TER record. */
  lemma AtomStepWrites(w: Progress, t: Progress, atoms: seq<Placed>, pos: seq<Vec3>, i: nat, opts: WriteOptions, fmt: Formats)
    requires i < |atoms| == |pos| && (w.prevChain.Some? ==> i > 0)
    requires !w.stopped && !(atoms[i].atom.isHET && !opts.writeHET) && atoms[i].chain != ""
    requires t == if w.prevChain.Some? && w.prevChain != Some([atoms[i].chain[0]]) then
                    w.(recs := w.recs + [TerRec(atoms[i].atom.number, atoms[i - 1].resName, w.prevChain.value, atoms[i - 1].resNum)],
                       serial := w.serial + 1)
                  else w
    ensures AtomStep(w, atoms, pos, i, opts, fmt) ==
            Some(Progress(t.recs + [AtomRec(atoms[i], atoms[i].chain[0], pos[i])], Some([atoms[i].chain[0]]), t.serial + 1,
                          t.serial + 1 > 99999 || atoms[i].resNum >= 9999))
  {
  }

  /**
   * One pass of the atom loop: the records it writes for atom i appended to the text
   * written so far, and the loop's locals afterwards.
   */
  method WriteAtom(w: Progress, sw: string, atoms: seq<Placed>, pos: seq<Vec3>, i: nat, opts: WriteOptions, fmt: Formats)
    returns (r: Option<Progress>, sw': string)
    requires i < |atoms| == |pos| && (w.prevChain.Some? ==> i > 0)
    requires sw == RecordsText(w.recs, opts, fmt)
    ensures r == AtomStep(w, atoms, pos, i, opts, fmt)
    ensures r.Some? ==> sw' == RecordsText(r.value.recs, opts, fmt)
  {
    var p := atoms[i];
    if w.stopped || (p.atom.isHET && !opts.writeHET) {
      return Some(w), sw;
    }
    if p.chain == "" {
      return None, sw;
    }
    var t := w;
    sw' := sw;
    var chainId := [p.chain[0]];
    if w.prevChain.Some? && w.prevChain != Some(chainId) {
      var ter := TerRec(p.atom.number, atoms[i - 1].resName, w.prevChain.value, atoms[i - 1].resNum);
      sw' := AppendRecord(sw', t.recs, ter, opts, fmt);
      t := t.(recs := t.recs + [ter], serial := t.serial + 1);
    }
    var rec := AtomRec(p, p.chain[0], pos[i]);
    sw' := AppendRecord(sw', t.recs, rec, opts, fmt);
    var atomSerial := t.serial + 1;
    AtomStepWrites(w, t, atoms, pos, i, opts, fmt);
    r := Some(Progress(t.recs + [rec], Some(chainId), atomSerial, atomSerial > 99999 || p.resNum >= 9999));
  }

  /** The atom loop of Write, until it breaks out. */
  method WriteAtoms(atoms: seq<Placed>, pos: seq<Vec3>, opts: WriteOptions, fmt: Formats) returns (r: Option<string>)
    requires |atoms| == |pos|
    ensures r == AtomsText(atoms, pos, opts, fmt)
  {
    var sw := "";
    var w := Progress([], None, 0, false);
    var i := 0;
    while i < |atoms| && !w.stopped
      invariant i <= |atoms| && AtomRecords(atoms, pos, i, opts, fmt) == Some(w)
      invariant sw == RecordsText(w.recs, opts, fmt)
    {
      AtomRecordsNext(atoms, pos, i, w, opts, fmt);
      var next, sw' := WriteAtom(w, sw, atoms, pos, i, opts, fmt);
      if next.None? {
        AtomRecordsFailed(atoms, pos, i + 1, |atoms|, opts, fmt);
        return None;
      }
      sw := sw';
      w := next.value;
      i := i + 1;
    }
    if i < |atoms| {
      AtomRecordsStopped(atoms, pos, i, |atoms|, opts, fmt);
    }
    return Some(sw);
  }

  /** Write(select, ...) as the source runs it. */
  method Write(sel: Selection, overridedPos: Option<seq<Vec3>>, opts: WriteOptions, fmt: Formats)
    returns (r: Option<string>)
    requires RowsOk(sel)
    ensures r == WriteText(sel, overridedPos, opts, fmt)
  {
    if overridedPos.Some? && |sel.atoms| != |overridedPos.value| {
      return Some("");
    }
    var model := if opts.writeModel then "MODEL\n" else "";
    var atomLines := WriteAtoms(sel.atoms, PositionsOf(sel.atoms, overridedPos), opts, fmt);
    if atomLines.None? {
      return None;
    }
    var conect := "";
    if opts.writeCONECT {
      conect := WriteConect(sel.keys, sel.rows, fmt);
    }
    var end := if opts.writeModel then "ENDMDL\n" else "END\n";
    var ss := "";
    if opts.writeSS {
      ss := WriteSecondaryStructure(sel.ss);
    }
    var sw := model + (atomLines.value + conect) + (end + ss);
    return Some(sw);
  }

  /** `s` followed by the text of `o`, or None when `o` is None. */
  function AppendTo(s: string, o: Option<string>): Option<string> {
    if o.None? then None else Some(s + o.value)
  }

  lemma AppendToNil(o: Option<string>)
    ensures AppendTo("", o) == o
  {
    if o.Some? {
      assert "" + o.value == o.value;
    }
  }

  /** One more model of the loop: its text is appended, or the write fails. */
  lemma JoinStep(texts: seq<Option<string>>, i: nat, sw: string)
    requires i < |texts|
    ensures AppendTo(sw, JoinModels(texts[i..])) ==
            if texts[i].None? then None else AppendTo(sw + texts[i].value, JoinModels(texts[i + 1..]))
  {
    assert texts[i..][0] == texts[i] && texts[i..][1..] == texts[i + 1..];
    var rest := JoinModels(texts[i + 1..]);
    if texts[i].Some? && rest.Some? {
      assert sw + (texts[i].value + rest.value) == sw + texts[i].value + rest.value;
    }
  }

  /** Write(structure): the loop over the models, each written with a MODEL line, then "END". */
  method WriteStructure(models: seq<Selection>, fmt: Formats) returns (r: Option<string>)
    requires forall i :: 0 <= i < |models| ==> RowsOk(models[i])
    ensures r == WriteModels(models, fmt)
  {
    ghost var texts := ModelTexts(models, fmt);
    var sw := "";
    var i := 0;
    assert texts[0..] == texts;
    AppendToNil(JoinModels(texts));
    while i < |models|
      invariant i <= |models|
      invariant WriteModels(models, fmt) == AppendTo(sw, JoinModels(texts[i..]))
    {
      JoinStep(texts, i, sw);
      var text := Write(models[i], None, Defaults.(writeModel := true), fmt);
      assert text == texts[i];
      if text.None? {
        return None;
      }
      sw := sw + text.value;
      i := i + 1;
    }
    assert texts[|models|..] == [];
    return Some(sw + "END");
  }
}
