/**
 * What the PDB text Write produces, proved about the functions of PdbWrite: where each
 * field of an atom record lies and that the reader's ReadData takes it back, which kind
 * of record the reader sees in it, and that a CONECT record reads back as the bonds it was
 * written from.
 */
module PdbWriteFacts {
  import opened Wrappers
  import opened Text
  import opened Molecule
  import opened PdbFields
  import opened PdbRead
  import opened Bonds
  import opened PdbWriteSS
  import opened PdbWrite

  // ---------------------------------------------------------------- fields

  /** A right-aligned integer field that fits its width reads back as the integer. */
  lemma FieldFits(n: int, w: nat)
    requires 1 <= w <= 9 && -(Pow10(w - 1) as int) < n < Pow10(w)
    ensures |Field(n, w)| == w
    ensures ParseInt(Field(n, w)) == Some(n)
  {
    var d := IntToString(n);
    DigitsFit(n, w);
    PowerBound(w);
    ParseIntOfPadded(n, w - |d|, 0);
    PadLeftExact(d, w);
  }

  /** A number inside the bounds has at most w characters, its sign included. */
  lemma DigitsFit(n: int, w: nat)
    requires 1 <= w && -(Pow10(w - 1) as int) < n < Pow10(w)
    ensures |IntToString(n)| <= w
  {
    if n >= 0 {
      NatToStringLength(n, w);
    } else if w == 1 {
      assert false;
    } else {
      NatToStringLength(-n, w - 1);
    }
  }

  lemma {:induction false} PowerBound(w: nat)
    requires w <= 9
    ensures Pow10(w) <= Pow10(9) == 1000000000
    decreases 9 - w
  {
    if w < 9 {
      PowerBound(w + 1);
    }
  }

  /** The atom name field is four columns wide, whatever the name. */
  lemma NameFieldWidth(p: Placed)
    ensures |NameField(p)| == 4
  {
  }

  /** The name a reader trims out of the atom name field. */
  lemma NameFieldTrim(p: Placed)
    requires var t := Take(p.atom.name, 4); t != [] && !IsWhite(t[0]) && !IsWhite(t[|t| - 1])
    ensures Trim(NameField(p)) == Take(p.atom.name, 4)
  {
    FormatAtomNameTrim(Take(p.atom.name, 4));
  }

  // ---------------------------------------------------------------- an atom record

  /**
   * The fields the writer can keep within their columns: a serial number of at most five
   * columns, a residue number of at most four, coordinate texts of at most eight, occupancy
   * and B-factor texts of at most six and an element of at most two.
   */
  predicate TextsFit(p: Placed, nums: NumberTexts) {
    -10000 < p.atom.number < 100000 && -1000 < p.resNum < 10000 &&
    |nums.x| <= 8 && |nums.y| <= 8 && |nums.z| <= 8 && |nums.occ| <= 6 && |nums.bf| <= 6 && |p.atom.element| <= 2
  }

  /** The fields of an atom at a position fit, with the texts the number formats give it. */
  predicate Fits(p: Placed, pos: Vec3, fmt: Formats) {
    TextsFit(p, AtomNumbers(p, pos, fmt))
  }

  /** Each field of an atom record that fits takes the width its format gives it. */
  lemma AtomWidths(p: Placed, nums: NumberTexts, opts: WriteOptions, fmt: Formats)
    requires TextsFit(p, nums)
    ensures AtomWidthsAre(RecordName(p, opts, fmt), Field(p.atom.number, 5), PadLeft(NameField(p), 4),
                          PadLeft(Take(p.resName, 3), 3), Field(p.resNum, 4),
                          PadLeft(nums.x, 8), PadLeft(nums.y, 8), PadLeft(nums.z, 8),
                          PadLeft(nums.occ, 6), PadLeft(nums.bf, 6), PadLeft(p.atom.element, 2))
  {
    assert Pow10(4) == 10000 && Pow10(5) == 100000 && Pow10(3) == 1000;
    FieldFits(p.atom.number, 5);
    FieldFits(p.resNum, 4);
    NameFieldWidth(p);
  }

  /** The columns of an atom record: eighty of them, each field where the PDB format puts it. */
  lemma AtomColumns(p: Placed, c: char, nums: NumberTexts, opts: WriteOptions, fmt: Formats)
    requires TextsFit(p, nums)
    ensures var line := AtomText(p, c, nums, opts, fmt);
            |line| == 80 && line[..6] == RecordName(p, opts, fmt) &&
            line[6..11] == Field(p.atom.number, 5) && line[12..16] == PadLeft(NameField(p), 4) && line[16] == ' ' &&
            line[17..20] == PadLeft(Take(p.resName, 3), 3) && line[20] == ' ' && line[21] == c &&
            line[22..26] == Field(p.resNum, 4) && line[26] == ' ' &&
            line[30..38] == PadLeft(nums.x, 8) && line[38..46] == PadLeft(nums.y, 8) &&
            line[46..54] == PadLeft(nums.z, 8) && line[60..66] == PadLeft(nums.bf, 6) &&
            line[76..78] == PadLeft(p.atom.element, 2)
  {
    AtomWidths(p, nums, opts, fmt);
    var line := AtomText(p, c, nums, opts, fmt);
  }

  /**
   * The reader's number parsers take back the number texts, in the columns the writer
   * puts them: the three coordinates (x negated) and the B-factor.
   */
  predicate TextsReadBack(pos: Vec3, bfactor: real, nums: NumberTexts, env: Env) {
    env.parseFloat(Trim(PadLeft(nums.x, 8))) == Some(-pos.x) &&
    env.parseFloat(Trim(PadLeft(nums.y, 8))) == Some(pos.y) &&
    env.parseFloat(Trim(PadLeft(nums.z, 8))) == Some(pos.z) &&
    env.tryParseFloat(PadLeft(nums.bf, 6)) == Some(bfactor)
  }

  /** The reader's number parsers take back what the writer's number formats wrote. */
  predicate ReadsBack(p: Placed, pos: Vec3, fmt: Formats, env: Env) {
    TextsReadBack(pos, p.atom.bfactor, AtomNumbers(p, pos, fmt), env)
  }

  /** No blank at either end (the empty string qualifies). */
  predicate Unpadded(s: string) {
    s == [] || (!IsWhite(s[0]) && !IsWhite(s[|s| - 1]))
  }

  /** The atom name column trims back to the first four characters of the name. */
  lemma NameColumnRead(p: Placed)
    requires Take(p.atom.name, 4) != [] && Unpadded(Take(p.atom.name, 4))
    ensures Trim(PadLeft(NameField(p), 4)) == Take(p.atom.name, 4)
  {
    NameFieldWidth(p);
    NameFieldTrim(p);
    assert PadLeft(NameField(p), 4) == Spaces(0) + NameField(p);
  }

  /** The residue name column, with the blank after it, trims back to the residue name written. */
  lemma ResNameColumnRead(r: string)
    requires |r| <= 3 && Unpadded(r)
    ensures Trim(PadLeft(r, 3) + " ") == r
  {
    TrimPadded(r, 3 - |r|, 1);
    assert PadLeft(r, 3) + " " == Spaces(3 - |r|) + r + Spaces(1);
  }

  /** The name and residue name columns trim back to the names written. */
  lemma NamesRead(p: Placed)
    requires Take(p.atom.name, 4) != [] && Unpadded(Take(p.atom.name, 4)) && Unpadded(Take(p.resName, 3))
    ensures Trim(PadLeft(NameField(p), 4)) == Take(p.atom.name, 4)
    ensures Trim(PadLeft(Take(p.resName, 3), 3) + " ") == Take(p.resName, 3)
  {
    NameColumnRead(p);
    ResNameColumnRead(Take(p.resName, 3));
  }

  /** The element column trims back to the element written. */
  lemma ElementRead(e: string)
    requires e != [] && |e| <= 2 && Unpadded(e)
    ensures Trim(PadLeft(e, 2)) == e
  {
    TrimPadded(e, 2 - |e|, 0);
    assert PadLeft(e, 2) == Spaces(2 - |e|) + e + Spaces(0);
  }

  /** The serial and residue number columns parse back to the numbers written. */
  lemma NumbersRead(p: Placed, nums: NumberTexts)
    requires TextsFit(p, nums)
    ensures ParseInt(Field(p.atom.number, 5)) == Some(p.atom.number)
    ensures ParseInt(Field(p.resNum, 4)) == Some(p.resNum)
  {
    assert Pow10(4) == 10000 && Pow10(5) == 100000 && Pow10(3) == 1000;
    FieldFits(p.atom.number, 5);
    FieldFits(p.resNum, 4);
  }

  /** A slice extended by the next character. */
  lemma SliceSnoc(s: string, i: nat, j: nat)
    requires i <= j < |s|
    ensures s[i..j + 1] == s[i..j] + [s[j]]
  {
  }

  /** A blank column trims to nothing. */
  lemma BlankColumn(s: string, i: nat)
    requires i < |s| && s[i] == ' '
    ensures Trim(s[i..i + 1]) == []
  {
    assert s[i..i + 1][0] == ' ';
  }

  /** ParseAtomFields over a line whose columns hold the given texts. */
  lemma ColumnsParsed(line: string, resName: string, isHet: bool, env: Env, serial: int, name: string,
                      resNum: int, pos: Vec3, bfactor: real, element: string)
    requires |line| >= 78 && IsWhite(line[26]) && line[21] != ' '
    requires ParseInt(line[6..11]) == Some(serial) && ParseInt(line[22..26]) == Some(resNum)
    requires Trim(line[12..16]) == name && Trim(line[16..17]) == ""
    requires env.parseFloat(Trim(line[30..38])) == Some(-pos.x)
    requires env.parseFloat(Trim(line[38..46])) == Some(pos.y)
    requires env.parseFloat(Trim(line[46..54])) == Some(pos.z)
    requires env.tryParseFloat(line[60..66]) == Some(bfactor)
    requires Trim(line[76..78]) == element && element != [] && env.isKnownAtom(element)
    ensures ParseAtomFields(line, resName, isHet, env) ==
              Some(AtomFields(serial, name, [line[21]], resNum, false, resName, resName, "", pos, bfactor, element))
  {
    assert Position(line, env) == Some(Vec3(-(-pos.x), pos.y, pos.z));
  }

  /** A line whose columns hold the pieces of an atom record, read back. */
  lemma AtomLineRead(line: string, p: Placed, c: char, pos: Vec3, nums: NumberTexts, isHet: bool, env: Env)
    requires TextsFit(p, nums) && TextsReadBack(pos, p.atom.bfactor, nums, env)
    requires Take(p.atom.name, 4) != [] && Unpadded(Take(p.atom.name, 4)) && Unpadded(Take(p.resName, 3))
    requires p.atom.element != [] && Unpadded(p.atom.element) && env.isKnownAtom(p.atom.element)
    requires c != ' '
    requires |line| == 80 && line[6..11] == Field(p.atom.number, 5) &&
             line[12..16] == PadLeft(NameField(p), 4) && line[16] == ' ' &&
             line[17..20] == PadLeft(Take(p.resName, 3), 3) && line[20] == ' ' && line[21] == c &&
             line[22..26] == Field(p.resNum, 4) && line[26] == ' ' &&
             line[30..38] == PadLeft(nums.x, 8) && line[38..46] == PadLeft(nums.y, 8) &&
             line[46..54] == PadLeft(nums.z, 8) && line[60..66] == PadLeft(nums.bf, 6) &&
             line[76..78] == PadLeft(p.atom.element, 2)
    ensures Trim(line[17..21]) == Take(p.resName, 3)
    ensures ParseAtomFields(line, Take(p.resName, 3), isHet, env) ==
              Some(AtomFields(p.atom.number, Take(p.atom.name, 4), [c], p.resNum, false, Take(p.resName, 3),
                              Take(p.resName, 3), "", pos, p.atom.bfactor, p.atom.element))
  {
    NumbersRead(p, nums);
    NamesRead(p);
    ElementRead(p.atom.element);
    SliceSnoc(line, 17, 20);
    BlankColumn(line, 16);
    ColumnsParsed(line, Take(p.resName, 3), isHet, env, p.atom.number, Take(p.atom.name, 4), p.resNum,
                  pos, p.atom.bfactor, p.atom.element);
  }

  /**
   * An atom record read back: the reader finds the atom's serial number, the first four
   * characters of its name, the first three of its residue name, the chain letter, the
   * residue number, no alternate location and no insertion code, the position, the
   * B-factor and the element the writer wrote.
   */
  lemma AtomRecordRead(p: Placed, c: char, pos: Vec3, opts: WriteOptions, fmt: Formats, isHet: bool, env: Env)
    requires Fits(p, pos, fmt) && ReadsBack(p, pos, fmt, env)
    requires Take(p.atom.name, 4) != [] && Unpadded(Take(p.atom.name, 4)) && Unpadded(Take(p.resName, 3))
    requires p.atom.element != [] && Unpadded(p.atom.element) && env.isKnownAtom(p.atom.element)
    requires c != ' '
    ensures var line := RecordText(AtomRec(p, c, pos), opts, fmt);
            Trim(line[17..21]) == Take(p.resName, 3) &&
            ParseAtomFields(line, Take(p.resName, 3), isHet, env) ==
              Some(AtomFields(p.atom.number, Take(p.atom.name, 4), [c], p.resNum, false, Take(p.resName, 3),
                              Take(p.resName, 3), "", pos, p.atom.bfactor, p.atom.element))
  {
    var nums := AtomNumbers(p, pos, fmt);
    AtomColumns(p, c, nums, opts, fmt);
    AtomLineRead(AtomText(p, c, nums, opts, fmt), p, c, pos, nums, isHet, env);
  }

  /** The kind of a line that starts with a record name of the writer. */
  lemma RecordNameKind(line: string, rec: string, ropts: Options)
    requires |line| >= 6 && line[..6] == rec && (rec == "ATOM  " || rec == "HETATM")
    ensures Classify(line, ropts) == if rec == "ATOM  " then AtomLine(false) else if ropts.readHET then AtomLine(true) else SkippedHet
  {
    assert line[0] == rec[0] && !AllWhite(line);
    assert line[..4] == line[..6][..4];
  }

  /** An atom record's kind: ATOM, or HETATM for a heteroatom or a water unless ATOM is forced. */
  lemma AtomRecordKind(p: Placed, c: char, pos: Vec3, opts: WriteOptions, fmt: Formats, ropts: Options)
    requires Fits(p, pos, fmt)
    ensures var line := RecordText(AtomRec(p, c, pos), opts, fmt);
            var het := !opts.forceHetAsAtom && (p.atom.isHET || fmt.isWater(Take(p.resName, 3)));
            Classify(line, ropts) == if !het then AtomLine(false) else if ropts.readHET then AtomLine(true) else SkippedHet
  {
    var nums := AtomNumbers(p, pos, fmt);
    AtomColumns(p, c, nums, opts, fmt);
    RecordNameKind(AtomText(p, c, nums, opts, fmt), RecordName(p, opts, fmt), ropts);
  }

  // ---------------------------------------------------------------- CONECT records read back

  /** A slice of the left part of a concatenation. */
  lemma SliceLeft(a: string, b: string, i: nat, j: nat)
    requires i <= j <= |a|
    ensures (a + b)[i..j] == a[i..j]
  {
  }

  /** A slice of the right part of a concatenation. */
  lemma SliceRight(a: string, b: string, i: nat, j: nat)
    requires |a| <= i <= j <= |a| + |b|
    ensures (a + b)[i..j] == b[i - |a|..j - |a|]
    ensures j - i == |b| ==> (a + b)[i..j] == b
  {
  }

  /** Five columns that do not end in a blank and that int.Parse reads as n. */
  predicate SlotText(s: string, n: int) {
    |s| == 5 && s[4] != ' ' && ParseInt(s) == Some(n)
  }

  /** A number written in four columns after a blank fills one five-column slot the reader parses. */
  lemma SlotFits(n: int)
    requires -1000 < n < 10000
    ensures SlotText(" " + Field(n, 4), n)
  {
    var d := IntToString(n);
    assert Pow10(5) == 100000 && Pow10(4) == 10000 && Pow10(3) == 1000;
    FieldFits(n, 4);
    FieldFits(n, 5);
    PadLeftWider(d, 4);
    PadLeftLast(d, 5);
  }

  /** The key atom's number in columns [6,11) of a CONECT record. */
  lemma ConectHead(line: string, root: int, pf: string)
    requires line == "CONECT" + " " + Field(root, 4) + pf && -1000 < root < 10000
    ensures |line| == 11 + |pf| && ParseInt(line[6..11]) == Some(root)
  {
    var head := " " + Field(root, 4);
    SlotFits(root);
    assert line == ("CONECT" + head) + pf;
    SliceLeft("CONECT" + head, pf, 6, 11);
    SliceRight("CONECT", head, 6, 11);
  }

  /** Every number of `ps` fits in four columns. */
  predicate FourColumns(ps: seq<int>) {
    forall i :: 0 <= i < |ps| ==> -1000 < ps[i] < 10000
  }

  /** Slots that each hold their number, followed by one more. */
  predicate SlotsHold(pf: string, ps: seq<int>) {
    |pf| == 5 * |ps| && forall i :: 0 <= i < |ps| ==> SlotText(pf[5 * i..5 * i + 5], ps[i])
  }

  lemma SlotsSnoc(pf: string, ps: seq<int>, last: string, whole: string)
    requires ps != [] && SlotsHold(pf, ps[..|ps| - 1]) && SlotText(last, ps[|ps| - 1]) && whole == pf + last
    ensures SlotsHold(whole, ps)
  {
    forall i | 0 <= i < |ps|
      ensures SlotText((pf + last)[5 * i..5 * i + 5], ps[i])
    {
      if i < |ps| - 1 {
        SliceLeft(pf, last, 5 * i, 5 * i + 5);
        assert ps[..|ps| - 1][i] == ps[i];
      } else {
        SliceRight(pf, last, 5 * i, 5 * i + 5);
      }
    }
  }

  /** The partner fields of all partners: those of the others, then the last one's slot. */
  lemma PartnerFieldsSnoc(ps: seq<int>)
    requires ps != []
    ensures PartnerFields(ps) == PartnerFields(ps[..|ps| - 1]) + (" " + Field(ps[|ps| - 1], 4))
  {
  }

  /** The partner fields are consecutive five-column slots, each holding its partner's number. */
  lemma {:induction false} PartnerSlots(ps: seq<int>)
    requires FourColumns(ps)
    ensures SlotsHold(PartnerFields(ps), ps)
    decreases |ps|
  {
    if ps != [] {
      var ps' := ps[..|ps| - 1];
      assert FourColumns(ps') by {
        forall i | 0 <= i < |ps'|
          ensures -1000 < ps'[i] < 10000
        {
          assert ps'[i] == ps[i];
        }
      }
      PartnerSlots(ps');
      PartnerSlotsStep(ps);
    }
  }

  /** The last partner's slot, after the slots of the others. */
  lemma PartnerSlotsStep(ps: seq<int>)
    requires ps != [] && -1000 < ps[|ps| - 1] < 10000
    requires SlotsHold(PartnerFields(ps[..|ps| - 1]), ps[..|ps| - 1])
    ensures SlotsHold(PartnerFields(ps), ps)
  {
    var pf' := PartnerFields(ps[..|ps| - 1]);
    var last := " " + Field(ps[|ps| - 1], 4);
    PartnerFieldsSnoc(ps);
    SlotFits(ps[|ps| - 1]);
    SlotsSnoc(pf', ps, last, PartnerFields(ps));
  }

  /** A slot of the partner fields, seen in the whole line. */
  lemma SlotAt(line: string, head: string, pf: string, j: nat, n: int)
    requires line == head + pf && j + 5 <= |pf| && SlotText(pf[j..j + 5], n)
    ensures SlotHolds(line, |head| + j, n)
  {
    SliceRight(head, pf, |head| + j, |head| + j + 5);
    assert Slot(line, |head| + j) == pf[j..j + 5];
    assert line[|head| + j + 4] == pf[j..j + 5][4];
  }

  /** After a head, slots that hold the partners' numbers read back as those numbers, and then the line ends. */
  lemma SlotsAfterHead(line: string, head: string, pf: string, ps: seq<int>)
    requires line == head + pf && SlotsHold(pf, ps)
    ensures SlotsRead(line, |head|, ps) && StopsAt(line, |head| + 5 * |ps|)
  {
    forall i | 0 <= i < |ps|
      ensures SlotHolds(line, |head| + 5 * i, ps[i])
    {
      SlotAt(line, head, pf, 5 * i, ps[i]);
    }
  }

  /** The slot loop stops after exactly n slots when n slots are filled and the next one is not. */
  lemma {:induction false} SlotCountOf(line: string, k: nat, n: nat)
    requires k + 5 * n <= |line| && StopsAt(line, k + 5 * n)
    requires forall i :: 0 <= i < n ==> line[k + 5 * i + 4] != ' '
    ensures SlotCount(line, k) == n
    decreases n
  {
    if n > 0 {
      assert line[k + 5 * 0 + 4] != ' ';
      forall i | 0 <= i < n - 1
        ensures line[(k + 5) + 5 * i + 4] != ' '
      {
        assert (k + 5) + 5 * i + 4 == k + 5 * (i + 1) + 4;
      }
      assert (k + 5) + 5 * (n - 1) == k + 5 * n;
      SlotCountOf(line, k + 5, n - 1);
    }
  }

  /** The partners the reader finds after column k: exactly the numbers of the slots, when they all read. */
  lemma ConectPartnersOf(line: string, k: nat, ps: seq<int>)
    requires SlotsRead(line, k, ps) && StopsAt(line, k + 5 * |ps|)
    ensures ConectPartners(line, k) == Some(ps)
  {
    forall i | 0 <= i < |ps|
      ensures line[k + 5 * i + 4] != ' ' && ParseInt(Slot(line, k + 5 * i)) == Some(ps[i])
    {
      assert SlotHolds(line, k + 5 * i, ps[i]);
    }
    SlotCountOf(line, k, |ps|);
    var vs := SlotNumbers(line, k, |ps|);
    AllReadValues(vs);
    assert AllRead(vs).value == ps;
  }

  /**
   * A CONECT record read back: when every atom number fits in four columns, the reader
   * adds one bond from the key atom to each partner, in the row's order.
   */
  lemma ConectRecordRead(st: State, c: ConectRow)
    requires -1000 < c.root < 10000 && FourColumns(c.partners)
    ensures ConectRecord(st, ConectText(c)) == Some(st.(bondedAtoms := st.bondedAtoms + PairsWith(c.root, c.partners)))
  {
    var line := ConectText(c);
    ConectHead(line, c.root, PartnerFields(c.partners));
    PartnerSlots(c.partners);
    SlotsAfterHead(line, "CONECT" + " " + Field(c.root, 4), PartnerFields(c.partners), c.partners);
    ConectPartnersOf(line, 11, c.partners);
  }
}
