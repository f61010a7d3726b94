/**
 * What writeSecondaryStructure produces, read back by ReadData: HELIX records return the
 * helices they were written from; SHEET records do only while residue numbers stay below
 * 1000, because the reader takes its SHEET fields from columns that differ from the ones
 * the writer (and the PDB format) uses.
 */
module PdbWriteSSFacts {
  import opened Wrappers
  import opened Text
  import opened Molecule
  import opened PdbRead
  import opened PdbWriteSS
  import opened PdbWriteFacts

  // ---------------------------------------------------------------- HELIX

  /**
   * The runs whose HELIX record keeps its columns: a run number of at most three columns,
   * three-letter residue names, a one-letter chain, residue numbers of at most four
   * columns and a helix class of at most two.
   */
  predicate HelixFits(h: Run) {
    h.serial < 1000 && |h.startName| == 3 && |h.endName| == 3 && |h.chain| == 1 && !IsWhite(h.chain[0]) &&
    -1000 < h.startId < 10000 && -1000 < h.endId < 10000 && -10 < h.ssType < 100
  }

  /** The columns of a HELIX record that fits. */
  lemma HelixColumns(h: Run)
    requires HelixFits(h)
    ensures var line := HelixText(h);
            |line| >= 40 && line[18..20] == PadLeft(h.chain, 2) && line[20] == ' ' &&
            line[21..25] == Field(h.startId, 4) && line[33..37] == Field(h.endId, 4) && line[38..40] == Field(h.ssType, 2)
  {
    HelixWidths(h);
    var line := HelixText(h);
  }

  /** The widths of the fields of a HELIX record that fits. */
  lemma HelixWidths(h: Run)
    requires HelixFits(h)
    ensures |Field(h.serial, 3)| == 3 && |PadLeft(h.startName, 2)| == 3 && |PadLeft(h.chain, 2)| == 2
    ensures |Field(h.startId, 4)| == 4 && |PadLeft(h.endName, 2)| == 3 && |PadLeft(h.chain, 1)| == 1
    ensures |Field(h.endId, 4)| == 4 && |Field(h.ssType, 2)| == 2
  {
    assert Pow10(4) == 10000 && Pow10(3) == 1000 && Pow10(2) == 100 && Pow10(1) == 10;
    FieldWidth(h.serial, 3);
    FieldWidth(h.startId, 4);
    FieldWidth(h.endId, 4);
    FieldWidth(h.ssType, 2);
  }

  /** The numbers of a HELIX record that fits parse back. */
  lemma HelixNumbersRead(h: Run)
    requires HelixFits(h)
    ensures ParseInt(Field(h.startId, 4)) == Some(h.startId) && ParseInt(Field(h.endId, 4)) == Some(h.endId)
    ensures ParseInt(Field(h.ssType, 2)) == Some(h.ssType)
  {
    assert Pow10(4) == 10000 && Pow10(3) == 1000 && Pow10(2) == 100 && Pow10(1) == 10;
    FieldFits(h.startId, 4);
    FieldFits(h.endId, 4);
    FieldFits(h.ssType, 2);
  }

  /** A field of a width that holds it. */
  lemma FieldWidth(n: int, w: nat)
    requires 1 <= w <= 9 && -(Pow10(w - 1) as int) < n < Pow10(w)
    ensures |Field(n, w)| == w
  {
    FieldFits(n, w);
  }

  /** The second character of a two-column slice. */
  lemma SecondOfPair(line: string, i: nat, a: string)
    requires i + 2 <= |line| && line[i..i + 2] == a
    ensures line[i + 1] == a[1]
  {
  }

  /** A one-letter chain followed by a blank trims back to the chain. */
  lemma ChainTrim(line: string, i: nat, chain: string)
    requires i + 2 <= |line| && |chain| == 1 && !IsWhite(chain[0]) && line[i] == chain[0] && IsWhite(line[i + 1])
    ensures Trim(line[i..i + 2]) == chain
  {
    assert line[i..i + 2] == Spaces(0) + chain + Spaces(1) || line[i + 1] != ' ';
    if line[i + 1] == ' ' {
      TrimPadded(chain, 0, 1);
    } else {
      var t := line[i..i + 2];
      assert Trim(t) == StripEnd(StripStart(t, IsWhite), IsWhite);
      assert StripStart(t, IsWhite) == t;
      assert StripEnd(t, IsWhite) == [t[0]];
    }
  }

  /** Columns holding a HELIX record's fields read back as its helix. */
  lemma HelixLineRead(st: State, line: string, h: Run)
    requires HelixFits(h)
    requires |line| >= 40 && line[18..20] == PadLeft(h.chain, 2) && line[20] == ' ' &&
             line[21..25] == Field(h.startId, 4) && line[33..37] == Field(h.endId, 4) && line[38..40] == Field(h.ssType, 2)
    ensures HelixRecord(st, line) == Some(st.(parsedSS := st.parsedSS + [SecStruct(h.startId, h.endId, h.chain, h.ssType)]))
  {
    HelixNumbersRead(h);
    HelixChainRead(line, h);
  }

  /** The chain columns of a HELIX record trim back to the helix's chain. */
  lemma HelixChainRead(line: string, h: Run)
    requires HelixFits(h)
    requires |line| >= 40 && line[18..20] == PadLeft(h.chain, 2) && line[20] == ' '
    ensures Trim(line[19..21]) == h.chain
  {
    assert PadLeft(h.chain, 2) == " " + h.chain;
    SecondOfPair(line, 18, PadLeft(h.chain, 2));
    ChainTrim(line, 19, h.chain);
  }

  /**
   * A HELIX record read back: the reader finds the helix's first and last residue
   * numbers, its chain and its helix class.
   */
  lemma HelixRecordRead(st: State, h: Run)
    requires HelixFits(h)
    ensures HelixRecord(st, HelixText(h)) ==
              Some(st.(parsedSS := st.parsedSS + [SecStruct(h.startId, h.endId, h.chain, h.ssType)]))
  {
    HelixColumns(h);
    HelixLineRead(st, HelixText(h), h);
  }

  // ---------------------------------------------------------------- SHEET

  /**
   * The runs whose SHEET record keeps its columns: a run number of at most three columns,
   * residue names of at most three letters, a one-letter chain and residue numbers of
   * at most four columns.
   */
  predicate SheetFits(r: Run) {
    r.serial < 1000 && |r.startName| <= 3 && |r.endName| <= 3 && |r.chain| == 1 && !IsWhite(r.chain[0]) &&
    -1000 < r.startId < 10000 && -1000 < r.endId < 10000
  }

  /** The widths of the fields of a SHEET record that fits. */
  lemma SheetWidths(r: Run)
    requires SheetFits(r)
    ensures |Field(r.serial, 3)| == 3 && |PadLeft(r.startName, 3)| == 3 && |PadLeft(r.chain, 1)| == 1
    ensures |Field(r.startId, 4)| == 4 && |PadLeft(r.endName, 3)| == 3 && |Field(r.endId, 4)| == 4
  {
    assert Pow10(4) == 10000 && Pow10(3) == 1000 && Pow10(2) == 100;
    FieldWidth(r.serial, 3);
    FieldWidth(r.startId, 4);
    FieldWidth(r.endId, 4);
  }

  /** The columns of a SHEET record that fits: its chain at 21, its residue numbers at [22,26) and [33,37). */
  lemma SheetColumns(r: Run)
    requires SheetFits(r)
    ensures var line := SheetText(r);
            |line| == 38 && line[21..22] == r.chain && line[22..26] == Field(r.startId, 4) &&
            line[33..37] == Field(r.endId, 4)
  {
    SheetWidths(r);
    var line := SheetText(r);
  }

  /** The residue numbers of a SHEET record that fits parse back. */
  lemma SheetNumbersRead(r: Run)
    requires SheetFits(r)
    ensures ParseInt(Field(r.startId, 4)) == Some(r.startId) && ParseInt(Field(r.endId, 4)) == Some(r.endId)
  {
    assert Pow10(4) == 10000 && Pow10(3) == 1000;
    FieldFits(r.startId, 4);
    FieldFits(r.endId, 4);
  }

  /** A one-letter chain trims to itself. */
  lemma LetterTrim(line: string, i: nat, chain: string)
    requires i + 1 <= |line| && line[i..i + 1] == chain && |chain| == 1 && !IsWhite(chain[0])
    ensures Trim(line[i..i + 1]) == chain
  {
    TrimPadded(chain, 0, 0);
    assert Spaces(0) + chain + Spaces(0) == chain;
  }

  /** Columns holding a SHEET record's fields, read by the corrected reader. */
  lemma SheetLineReadFixed(st: State, line: string, r: Run)
    requires SheetFits(r)
    requires |line| == 38 && line[21..22] == r.chain && line[22..26] == Field(r.startId, 4) &&
             line[33..37] == Field(r.endId, 4)
    ensures SheetRecordFixed(st, line) == Some(st.(parsedSS := st.parsedSS + [SecStruct(r.startId, r.endId, r.chain, Strand)]))
  {
    SheetNumbersRead(r);
    LetterTrim(line, 21, r.chain);
  }

  /**
   * A SHEET record read back by the reader on the record's own columns: the strand's
   * first and last residue numbers and its chain, for every residue number of at most
   * four columns.
   */
  lemma SheetRecordFixedRead(st: State, r: Run)
    requires SheetFits(r)
    ensures SheetRecordFixed(st, SheetText(r)) ==
              Some(st.(parsedSS := st.parsedSS + [SecStruct(r.startId, r.endId, r.chain, Strand)]))
  {
    SheetColumns(r);
    SheetLineReadFixed(st, SheetText(r), r);
  }

  /** A number of at most three columns, written in four, is a blank and the number in three. */
  lemma NarrowField(n: int)
    requires -100 < n < 1000
    ensures Field(n, 4) == " " + Field(n, 3) && ParseInt(Field(n, 3)) == Some(n)
  {
    assert Pow10(3) == 1000 && Pow10(2) == 100;
    FieldFits(n, 3);
    var d := IntToString(n);
    assert Spaces(4 - |d|) == " " + Spaces(3 - |d|);
  }

  /** A number of at most three columns parses back from its three-column field. */
  lemma NarrowRead(n: int)
    requires -100 < n < 1000
    ensures ParseInt(Field(n, 3)) == Some(n)
  {
    assert Pow10(3) == 1000 && Pow10(2) == 100;
    FieldFits(n, 3);
  }

  /** A one-letter chain and a blank trim to the chain. */
  lemma PairTrim(line: string, i: nat, chain: string)
    requires i + 2 <= |line| && line[i..i + 2] == chain + " " && |chain| == 1 && !IsWhite(chain[0])
    ensures Trim(line[i..i + 2]) == chain
  {
    TrimPadded(chain, 0, 1);
    assert Spaces(0) + chain + Spaces(1) == chain + " ";
  }

  /** The columns the reader as written takes a SHEET record's fields from, for residue numbers below 1000. */
  lemma SheetNarrowColumns(line: string, r: Run)
    requires SheetFits(r) && -100 < r.startId < 1000 && -100 < r.endId < 1000
    requires |line| == 38 && line[21..22] == r.chain && line[22..26] == Field(r.startId, 4) &&
             line[33..37] == Field(r.endId, 4)
    ensures line[21..23] == r.chain + " " && line[23..26] == Field(r.startId, 3) && line[34..37] == Field(r.endId, 3)
  {
    NarrowField(r.startId);
    NarrowField(r.endId);
    assert line[21..23] == line[21..22] + line[22..23];
    assert line[22..23] == line[22..26][..1];
    assert line[23..26] == line[22..26][1..];
    assert line[34..37] == line[33..37][1..];
  }

  /** Columns holding a SHEET record's fields, read by the reader as written, for residue numbers below 1000. */
  lemma SheetLineRead(st: State, line: string, r: Run)
    requires SheetFits(r) && -100 < r.startId < 1000 && -100 < r.endId < 1000
    requires |line| == 38 && line[21..22] == r.chain && line[22..26] == Field(r.startId, 4) &&
             line[33..37] == Field(r.endId, 4)
    ensures SheetRecord(st, line) == Some(st.(parsedSS := st.parsedSS + [SecStruct(r.startId, r.endId, r.chain, Strand)]))
  {
    SheetNarrowColumns(line, r);
    NarrowRead(r.startId);
    NarrowRead(r.endId);
    PairTrim(line, 21, r.chain);
  }

  /** A SHEET record read back by ReadData as written: right while residue numbers stay below 1000. */
  lemma SheetRecordRead(st: State, r: Run)
    requires SheetFits(r) && -100 < r.startId < 1000 && -100 < r.endId < 1000
    ensures SheetRecord(st, SheetText(r)) ==
              Some(st.(parsedSS := st.parsedSS + [SecStruct(r.startId, r.endId, r.chain, Strand)]))
  {
    SheetColumns(r);
    SheetLineRead(st, SheetText(r), r);
  }

  /**
   * A strand from residue 1000 to residue 1004 of chain A, written and read back by
   * ReadData as written: the reader finds chain "A1" and residues 0 to 4.
   */
  lemma SheetRecordMisread(st: State)
    ensures var r := Run(1, "A", "ALA", 1000, "GLY", 1004, Strand);
            SheetRecord(st, SheetText(r)) == Some(st.(parsedSS := st.parsedSS + [SecStruct(0, 4, "A1", Strand)])) &&
            SheetRecordFixed(st, SheetText(r)) == Some(st.(parsedSS := st.parsedSS + [SecStruct(1000, 1004, "A", Strand)]))
  {
    var r := Run(1, "A", "ALA", 1000, "GLY", 1004, Strand);
    SheetRecordFixedRead(st, r);
    SheetColumns(r);
    FourDigits();
    MisreadLine(st, SheetText(r));
  }

  lemma FourDigits()
    ensures Field(1000, 4) == "1000" && Field(1004, 4) == "1004"
    ensures ParseInt("000") == Some(0) && ParseInt("004") == Some(4) && Trim("A1") == "A1"
  {
    assert IntToString(1000) == "1000" && IntToString(1004) == "1004";
    ThreeDigits();
  }

  lemma ThreeDigits()
    ensures ParseInt("000") == Some(0) && ParseInt("004") == Some(4) && Trim("A1") == "A1"
  {
    assert !IsNumberWhite('0') && !IsNumberWhite('4');
    assert NumberStripStart("000") == "000" && NumberStripEnd("000") == "000";
    assert NumberStripStart("004") == "004" && NumberStripEnd("004") == "004";
    assert "000"[..2] == "00" && "00"[..1] == "0" && "0"[..0] == [] && "004"[..2] == "00";
    assert ParseDigits("0") == Some(0) && ParseDigits("00") == Some(0);
    assert ParseDigits("000") == Some(0) && ParseDigits("004") == Some(4);
    TrimPadded("A1", 0, 0);
    assert Spaces(0) + "A1" + Spaces(0) == "A1";
  }

  /** The reader as written on a SHEET line whose chain is A and whose residues are 1000 and 1004. */
  lemma MisreadLine(st: State, line: string)
    requires |line| == 38 && line[21..22] == "A" && line[22..26] == "1000" && line[33..37] == "1004"
    requires ParseInt("000") == Some(0) && ParseInt("004") == Some(4) && Trim("A1") == "A1"
    ensures SheetRecord(st, line) == Some(st.(parsedSS := st.parsedSS + [SecStruct(0, 4, "A1", Strand)]))
  {
    assert line[21..23] == "A1" by {
      assert line[21..23] == line[21..22] + line[22..26][..1];
    }
    assert line[23..26] == line[22..26][1..];
    assert line[34..37] == line[33..37][1..];
  }
}
