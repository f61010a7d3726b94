/**
 * ReadData as the source runs it: a while loop over the lines that updates the reader's
 * locals, with the slot loop of CONECT records and the copy loop of the first trajectory
 * frame. Each method is proved to compute what the functions of PdbRead state.
 */
module PdbReadLoop {
  import opened Wrappers
  import opened Text
  import opened Molecule
  import opened PdbRead

  /** The for loop over the 5-column slots of a CONECT record (k from 11, step 5). */
  method ReadConectPartners(line: string) returns (r: Option<seq<int>>)
    requires |line| >= 11
    ensures r == ConectPartners(line, 11)
  {
    ghost var count := SlotCount(line, 11);
    ghost var vs := SlotNumbers(line, 11, count);
    ghost var j := 0;
    var acc: seq<int> := [];
    var k := 11;
    PrefixedNil(AllRead(vs));
    while k + 5 < |line| + 1
      invariant k == 11 + 5 * j && j <= count
      invariant ConectPartners(line, 11) == Prefixed(acc, AllRead(vs[j..]))
      decreases |line| - k
    {
      if line[k + 4] == ' ' {
        break;
      }
      assert j < count;
      var n := ParseInt(Slot(line, k));
      assert vs[j..][0] == n && vs[j..][1..] == vs[j + 1..];
      if n.None? {
        return None;
      }
      PrefixedAssoc(acc, [n.value], AllRead(vs[j + 1..]));
      acc := acc + [n.value];
      k := k + 5;
      j := j + 1;
    }
    assert j == count && vs[j..] == [];
    assert acc + [] == acc;
    return Some(acc);
  }

  lemma PrefixedNil(o: Option<seq<int>>)
    ensures Prefixed([], o) == o
  {
    if o.Some? {
      assert [] + o.value == o.value;
    }
  }

  lemma PrefixedAssoc(a: seq<int>, b: seq<int>, o: Option<seq<int>>)
    ensures Prefixed(a, Prefixed(b, o)) == Prefixed(a + b, o)
  {
    if o.Some? {
      assert a + (b + o.value) == (a + b) + o.value;
    }
  }

  /** The first frame: the positions of all atoms read so far, copied into a new array. */
  method FirstFrame(atoms: seq<Atom>) returns (f: seq<Vec3>)
    ensures f == Positions(atoms)
  {
    var frame := new Vec3[|atoms|];
    for i := 0 to |atoms|
      invariant forall j :: 0 <= j < i ==> frame[j] == atoms[j].position
    {
      frame[i] := atoms[i].position;
    }
    f := frame[..];
  }

  /** The ENDMDL branch of the loop body. */
  method ReadEndModel(st: State, opts: Options) returns (r: State)
    requires Inv(st, opts)
    ensures r == EndModel(st, opts)
  {
    var t := st.traj;
    if opts.modelsAsTraj {
      if t.frames == [] {
        var first := FirstFrame(st.allAtoms);
        t := Traj(|st.allAtoms|, t.idA, Zeros(|st.allAtoms|), [first]);
      } else if t.idA == t.countAtomsInModels {
        t := t.(frames := t.frames + [t.curFrame], curFrame := Zeros(t.countAtomsInModels));
      } else {
        t := t.(curFrame := Zeros(t.countAtomsInModels));
      }
    }
    var s := FlushModel(FlushChain(FlushResidue(st.(traj := t.(idA := 0)))));
    r := s.(lastChain := None, lastResidue := None, lastResidueId := -1);
  }

  /** The CONECT branch of the loop body. */
  method ReadConectRecord(st: State, line: string) returns (r: Option<State>)
    ensures r == ConectRecord(st, line)
  {
    if |line| < 11 {
      return None;
    }
    var root := ParseInt(line[6..11]);
    if root.None? {
      return None;
    }
    var partners := ReadConectPartners(line);
    if partners.None? {
      return None;
    }
    r := Some(st.(bondedAtoms := st.bondedAtoms + PairsWith(root.value, partners.value)));
  }

  /** The body of the while loop for one line; None is an exception. */
  method ReadLine(st: State, line: string, opts: Options, env: Env) returns (r: Option<State>)
    requires Inv(st, opts)
    ensures r == Step(st, line, opts, env)
  {
    if AllWhite(line) {
      return Some(st);
    }
    if |line| > 3 {
      var isAtomLine := StartsWith(line, "ATOM");
      var isHetAtm := StartsWith(line, "HETATM");
      var isChemBond := StartsWith(line, "CHEMBOND");
      if !opts.readHET && isHetAtm {
        assert Classify(line, opts) == SkippedHet;
        return Some(st);
      }
      if isAtomLine || isHetAtm {
        assert Classify(line, opts) == AtomLine(isHetAtm);
        return AtomRecord(st, line, isHetAtm, opts, env);
      }
      if isChemBond {
        assert Classify(line, opts) == ChemBondLine;
        return ChemBondRecord(st, line);
      }
    }
    if |line| >= 6 && StartsWith(line, "ENDMDL") {
      assert Classify(line, opts) == EndModelLine;
      var s := ReadEndModel(st, opts);
      r := Some(s);
    } else if |line| >= 5 && StartsWith(line, "HELIX") {
      assert Classify(line, opts) == HelixLine;
      r := HelixRecord(st, line);
    } else if |line| >= 5 && StartsWith(line, "SHEET") {
      assert Classify(line, opts) == SheetLine;
      r := SheetRecord(st, line);
    } else if StartsWith(line, "CONECT") {
      assert Classify(line, opts) == ConectLine;
      r := ReadConectRecord(st, line);
    } else {
      assert Classify(line, opts) == OtherLine;
      r := Some(st);
    }
  }

  /**
   * ReadData: the while loop over the lines, then the code after it. The result is the
   * parse PdbRead.Read defines, an exception naming the 1-based number of the line that
   * raised it, or the "PDB parsing error" of a file without any model.
   */
  method ReadData(lines: seq<string>, opts: Options, env: Env) returns (r: Result<Parsed, ReadError>)
    ensures r == Read(lines, opts, env)
  {
    var st := Init;
    var lineNumber := 0;
    while lineNumber < |lines|
      invariant lineNumber <= |lines| && Inv(st, opts)
      invariant RunFrom(Init, lines, 0, opts, env) == RunFrom(st, lines, lineNumber, opts, env)
    {
      var next := ReadLine(st, lines[lineNumber], opts, env);
      if next.None? {
        return Failure(ParsingException(lineNumber + 1, lines[lineNumber]));
      }
      st := next.value;
      lineNumber := lineNumber + 1;
    }
    r := Finish(st, opts);
  }
}
