/**
 * The fixed-column helpers of the PDB reader and writer: element inference from an atom
 * name, the four-column atom-name layout, and the small classification helpers used when
 * CONECT records are rewritten.
 */
module PdbFields {
  import opened Wrappers
  import opened Text

  /**
   * GuessElementFromAtomName: the element of an atom whose element column is blank or
   * unknown. `known` is the element table's isKnownAtom. The checks run in a fixed order,
   * so a non-HET "CA" is carbon (alpha carbon) while a HET "CA" can be calcium.
   * The source indexes atomName[0], so an empty name throws; callers handle that.
   */
  function GuessElementFromAtomName(atomName: string, resName: string, isHET: bool,
                                    known: string -> bool): (r: string)
    requires |atomName| > 0
    ensures |atomName| == 1 ==> r == atomName
    ensures |atomName| > 1 && atomName[0] == 'C' && !isHET ==> r == "C"
    ensures r == atomName || r == [atomName[0]] || (|atomName| >= 2 && r == atomName[..2]) ||
            r == "H" || r == "X"
    ensures 1 <= |r| <= |atomName|
  {
    if |atomName| == 1 then atomName
    else if atomName[0] == 'C' && !isHET then "C"
    else if known(ToUpper(atomName)) then atomName
    else
      var first := [atomName[0]];
      if !isHET && known(ToUpper(first)) then first
      else if IsDigit(atomName[0]) && atomName[1] == 'H' then "H"
      else
        var firstTwo := atomName[..2];
        var endsWithDigits := |atomName| >= 3 && ParseInt(atomName[2..]).Some?;
        if resName == atomName || (!endsWithDigits && known(firstTwo)) then firstTwo
        else if known(ToUpper(first)) then first
        else "X"
  }

  /** A non-HET name starting with 'C' is carbon whatever the element table holds. */
  lemma AlphaCarbonIsCarbon(known: string -> bool, resName: string)
    ensures GuessElementFromAtomName("CA", resName, false, known) == "C"
  {
  }

  /** In a HET residue the full name is tried first, so "CA" is calcium when it is known. */
  lemma HetCalciumIsCalcium(known: string -> bool, resName: string)
    requires known("CA")
    ensures GuessElementFromAtomName("CA", resName, true, known) == "CA"
  {
    assert ToUpper("CA") == "CA";
  }

  /**
   * For a non-HET name of two or more characters not starting with 'C', an unknown full
   * name and a known first letter give that letter ("NA" gives "N" when "NA" is unknown).
   */
  lemma FirstLetterBeforeTwoLetter(atomName: string, resName: string, known: string -> bool)
    requires |atomName| >= 2 && atomName[0] != 'C'
    requires !known(ToUpper(atomName)) && known(ToUpper([atomName[0]]))
    ensures GuessElementFromAtomName(atomName, resName, false, known) == [atomName[0]]
  {
  }

  /** A digit followed by 'H' ("1HB", "2HG1") is hydrogen once the earlier checks fail. */
  lemma DigitHIsHydrogen(atomName: string, resName: string, isHET: bool, known: string -> bool)
    requires |atomName| >= 2 && IsDigit(atomName[0]) && atomName[1] == 'H'
    requires !known(ToUpper(atomName))
    requires isHET || !known(ToUpper([atomName[0]]))
    ensures GuessElementFromAtomName(atomName, resName, isHET, known) == "H"
  {
  }

  /**
   * formatAtomName: names of one to three characters get one leading space and are padded
   * to exactly four columns; any other name is unchanged.
   */
  function FormatAtomName(name: string): (r: string)
    ensures 1 <= |name| <= 3 ==> |r| == 4 && r[0] == ' ' && r[1..|name| + 1] == name &&
                                 forall i :: |name| + 1 <= i < 4 ==> r[i] == ' '
    ensures (|name| == 0 || |name| > 3) ==> r == name
  {
    if |name| == 1 then " " + name + "  "
    else if |name| == 2 then " " + name + " "
    else if |name| == 3 then " " + name
    else name
  }

  /**
   * The reader trims columns [12,16) of an atom record; that inverts FormatAtomName for any
   * name of one to four characters with no blank at either end.
   */
  lemma FormatAtomNameTrim(name: string)
    requires 1 <= |name| <= 4
    requires !IsWhite(name[0]) && !IsWhite(name[|name| - 1])
    ensures |FormatAtomName(name)| == 4
    ensures Trim(FormatAtomName(name)) == name
  {
    var r := FormatAtomName(name);
    if |name| == 4 {
      TrimPadded(name, 0, 0);
      assert Spaces(0) + name + Spaces(0) == name;
    } else {
      TrimPadded(name, 1, 3 - |name|);
      assert r == Spaces(1) + name + Spaces(3 - |name|);
    }
  }

  /** isLigand: the residue name is "LIG" in any letter case. */
  function IsLigand(resName: string): (r: bool)
    ensures r ==> |resName| == 3
    ensures r <==> (|resName| == 3 && ToUpperChar(resName[0]) == 'L' &&
                    ToUpperChar(resName[1]) == 'I' && ToUpperChar(resName[2]) == 'G')
  {
    ToUpper(resName) == "LIG"
  }

  /** Number of entries of `types` equal to `t`. */
  function CountType(types: seq<string>, t: string): nat {
    multiset(types)[t]
  }

  /**
   * isNH2: the first atom is a nitrogen whose next three neighbours hold exactly one carbon
   * and two hydrogens. A null slot of the C# array is any string that is not an element.
   */
  method IsNH2(types: seq<string>) returns (r: bool)
    requires |types| >= 4
    ensures r <==> types[0] == "N" && CountType(types[1..4], "C") == 1 && CountType(types[1..4], "H") == 2
  {
    if types[0] != "N" {
      return false;
    }
    var cNum := 0;
    var hNum := 0;
    for i := 1 to 4
      invariant cNum == CountType(types[1..i], "C")
      invariant hNum == CountType(types[1..i], "H")
    {
      assert types[1..i + 1] == types[1..i] + [types[i]];
      if types[i] == "C" {
        cNum := cNum + 1;
      }
      if types[i] == "H" {
        hNum := hNum + 1;
      }
    }
    r := cNum == 1 && hNum == 2;
  }

  /** isCOOH: a carbon followed by two oxygens. */
  method IsCOOH(types: seq<string>) returns (r: bool)
    requires |types| >= 3
    ensures r <==> types[0] == "C" && forall i :: 1 <= i < 3 ==> types[i] == "O"
  {
    if types[0] != "C" {
      return false;
    }
    for i := 1 to 3
      invariant forall k :: 1 <= k < i ==> types[k] == "O"
    {
      if types[i] != "O" {
        return false;
      }
    }
    return true;
  }

  /** C#'s unchecked 32-bit int arithmetic. */
  function Wrap32(n: int): (r: int)
    ensures Int32Min <= r <= Int32Max
    ensures Int32Min <= n <= Int32Max ==> r == n
    ensures (r - n) % 0x1_0000_0000 == 0
  {
    var q := (n - Int32Min) / 0x1_0000_0000;
    assert (n - Int32Min) % 0x1_0000_0000 + Int32Min - n == -0x1_0000_0000 * q;
    (n - Int32Min) % 0x1_0000_0000 + Int32Min
  }

  /**
   * StringToInt as written: it accumulates the digits into a local and then returns the
   * length of the string, not the accumulated number.
   */
  method StringToInt(s: string) returns (r: int)
    ensures r == |s|
  {
    var n := |s|;
    var number := 0;
    for i := 0 to n {
      number := Wrap32(number * 10 + (s[i] as int - '0' as int));
    }
    return n;
  }

  /** StringToInt returns 2 on "12": the length, where the number 12 was meant. */
  method StringToIntCounterexample() {
    var r := StringToInt("12");
    assert r == 2 && DigitsValue("12") == 12;
  }

  /** Prefixes of a digit string have no larger value. */
  lemma {:induction false} DigitsValuePrefix(s: string, i: nat)
    requires AllDigits(s) && i <= |s|
    ensures DigitsValue(s[..i]) <= DigitsValue(s)
  {
    if i < |s| {
      assert s[..|s| - 1][..i] == s[..i];
      DigitsValuePrefix(s[..|s| - 1], i);
    } else {
      assert s[..i] == s;
    }
  }

  /** StringToInt as evidently intended: it returns the number it accumulates. */
  method StringToIntFixed(s: string) returns (r: int)
    ensures AllDigits(s) && DigitsValue(s) <= Int32Max ==> r == DigitsValue(s)
    ensures |s| > 0 && AllDigits(s) && DigitsValue(s) <= Int32Max ==> ParseInt(s) == Some(r)
  {
    var n := |s|;
    var number := 0;
    for i := 0 to n
      invariant AllDigits(s) && DigitsValue(s) <= Int32Max ==> number == DigitsValue(s[..i])
    {
      if AllDigits(s) && DigitsValue(s) <= Int32Max {
        assert s[..i + 1][..i] == s[..i];
        DigitsValuePrefix(s, i + 1);
      }
      number := Wrap32(number * 10 + (s[i] as int - '0' as int));
    }
    if AllDigits(s) && DigitsValue(s) <= Int32Max {
      assert s[..n] == s;
    }
    if |s| > 0 && AllDigits(s) && DigitsValue(s) <= Int32Max {
      ParseIntOfDigits(s);
    }
    return number;
  }

  /** int.Parse reads a plain digit string as its value. */
  lemma ParseIntOfDigits(s: string)
    requires AllDigits(s) && |s| > 0 && DigitsValue(s) <= Int32Max
    ensures ParseInt(s) == Some(DigitsValue(s))
  {
    DigitNotWhite(s[0]);
    DigitNotWhite(s[|s| - 1]);
    assert NumberStripStart(s) == s;
    assert NumberStripEnd(s) == s;
    ParseDigitsValue(s);
  }

  /** The residue an atom of a selection belongs to, as getAnimoName reads it. */
  datatype ResidueTag = ResidueTag(id: int, name: string)

  /**
   * The residue names getAnimoName lists: the first atom's residue, then the residue of
   * every atom whose residue id differs from the previous atom's.
   */
  function RunNames(tags: seq<ResidueTag>): (r: seq<string>)
    requires |tags| > 0
    ensures |r| > 0 && r[0] == tags[0].name
    decreases |tags|
  {
    if |tags| == 1 then [tags[0].name]
    else
      var n := |tags|;
      RunNames(tags[..n - 1]) + (if tags[n - 1].id != tags[n - 2].id then [tags[n - 1].name] else [])
  }

  /** The parts joined with `sep` between consecutive parts. */
  function Joined(parts: seq<string>, sep: string): string
    requires |parts| > 0
  {
    if |parts| == 1 then parts[0] else Joined(parts[..|parts| - 1], sep) + sep + parts[|parts| - 1]
  }

  /**
   * getAnimoName: the residue names of a selection joined by " | ", one per run of atoms
   * of one residue id. The source reads atoms[0] first, so an empty selection throws (None).
   */
  method GetAnimoName(tags: seq<ResidueTag>) returns (r: Option<string>)
    ensures tags == [] ==> r.None?
    ensures tags != [] ==> r == Some(Joined(RunNames(tags), " | "))
  {
    if tags == [] {
      return None;
    }
    var sw := tags[0].name;
    assert tags[..1] == [tags[0]];
    for i := 1 to |tags|
      invariant sw == Joined(RunNames(tags[..i]), " | ")
    {
      RunNamesStep(tags, i);
      if tags[i].id != tags[i - 1].id {
        JoinedAppend(RunNames(tags[..i]), " | ", tags[i].name);
        sw := sw + " | " + tags[i].name;
      } else {
        assert RunNames(tags[..i]) + [] == RunNames(tags[..i]);
      }
    }
    assert tags[..|tags|] == tags;
    return Some(sw);
  }

  lemma RunNamesStep(tags: seq<ResidueTag>, i: nat)
    requires 0 < i < |tags|
    ensures RunNames(tags[..i + 1]) ==
            RunNames(tags[..i]) + (if tags[i].id != tags[i - 1].id then [tags[i].name] else [])
  {
    var next := tags[..i + 1];
    assert next[..i] == tags[..i] && next[i] == tags[i] && next[i - 1] == tags[i - 1];
  }

  lemma JoinedAppend(parts: seq<string>, sep: string, x: string)
    requires |parts| > 0
    ensures Joined(parts + [x], sep) == Joined(parts, sep) + sep + x
  {
    assert (parts + [x])[..|parts|] == parts;
  }

  /** The atoms of whole residues, residue after residue. */
  function Expand(groups: seq<seq<ResidueTag>>): seq<ResidueTag> {
    if groups == [] then [] else Expand(groups[..|groups| - 1]) + groups[|groups| - 1]
  }

  /** A residue given as the run of its atoms: at least one atom, all of them tagged `t`. */
  predicate RunOf(g: seq<ResidueTag>, t: ResidueTag) {
    |g| > 0 && forall i :: 0 <= i < |g| ==> g[i] == t
  }

  lemma {:induction false} RunNamesAppendRun(pre: seq<ResidueTag>, g: seq<ResidueTag>, t: ResidueTag)
    requires |pre| > 0 && RunOf(g, t) && pre[|pre| - 1].id != t.id
    ensures RunNames(pre + g) == RunNames(pre) + [t.name]
    decreases |g|
  {
    var n := |pre + g|;
    assert (pre + g)[..n - 1] == pre + g[..|g| - 1];
    if |g| > 1 {
      RunNamesAppendRun(pre, g[..|g| - 1], t);
    } else {
      assert pre + g[..|g| - 1] == pre;
    }
  }

  lemma {:induction false} RunNamesOfRun(g: seq<ResidueTag>, t: ResidueTag)
    requires RunOf(g, t)
    ensures RunNames(g) == [t.name]
    decreases |g|
  {
    if |g| > 1 {
      RunNamesOfRun(g[..|g| - 1], t);
    }
  }

  /**
   * A selection made of whole residues, where consecutive residues have different ids, is
   * named by its residues' names in order.
   */
  lemma {:induction false} RunNamesOfResidues(groups: seq<seq<ResidueTag>>, residues: seq<ResidueTag>)
    requires |groups| == |residues| > 0
    requires forall i :: 0 <= i < |groups| ==> RunOf(groups[i], residues[i])
    requires forall i :: 0 < i < |residues| ==> residues[i].id != residues[i - 1].id
    ensures |Expand(groups)| > 0
    ensures RunNames(Expand(groups)) == seq(|residues|, i requires 0 <= i < |residues| => residues[i].name)
    decreases |groups|
  {
    var n := |groups|;
    if n == 1 {
      assert Expand(groups) == groups[0];
      RunNamesOfRun(groups[0], residues[0]);
    } else {
      RunNamesOfResidues(groups[..n - 1], residues[..n - 1]);
      var pre := Expand(groups[..n - 1]);
      ExpandLast(groups[..n - 1], residues[..n - 1]);
      RunNamesAppendRun(pre, groups[n - 1], residues[n - 1]);
    }
  }

  /** The last atom of whole residues is tagged with the last residue. */
  lemma ExpandLast(groups: seq<seq<ResidueTag>>, residues: seq<ResidueTag>)
    requires |groups| == |residues| > 0
    requires forall i :: 0 <= i < |groups| ==> RunOf(groups[i], residues[i])
    ensures |Expand(groups)| > 0 && Expand(groups)[|Expand(groups)| - 1] == residues[|residues| - 1]
  {
    var g := groups[|groups| - 1];
    assert g[|g| - 1] == residues[|residues| - 1];
  }
}
