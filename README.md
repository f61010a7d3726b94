# PDB reader, PDB writer and bond table of UnityMol

A model of two parts of UnityMol.

**PDB text reader and writer.** This is `PDBReader`. It implements the fixed-column records of the PDB format: ATOM, HETATM, TER, MODEL, ENDMDL, END, HELIX, SHEET and CONECT, plus the project's own CHEMBOND record.

- `ReadData` makes one forward pass over the lines of a file. It keeps pending atoms, residues and chains, and decides for each atom record whether to keep, rename or drop the atom, or start a new residue or chain. It closes the pending groups at ENDMDL and at the end of the input. In trajectory mode it fills coordinate frames instead of building models. It also collects HELIX/SHEET ranges and CONECT/CHEMBOND pairs.
- The writer covers `Write`, which writes a selection or every model of a structure: record kinds, TER insertion, the 99999-atom / 9999-residue stop, CONECT from the primary bond table, and END/ENDMDL. It also covers `writeSecondaryStructure`, which turns per-residue secondary-structure types into HELIX and SHEET runs.
- The small helpers are `GuessElementFromAtomName`, `formatAtomName`, `isNH2`, `isCOOH`, `isLigand`, `getAnimoName` and `StringToInt`.

**Bond table `UnityMolBonds`.** It holds two dictionaries from an atom to a 27-slot array: `bonds` is keyed on the first atom of each `Add`, and `bondsDual` records both directions. There is also a `bondsCount` counter.

- The class keeps its fields and updates them in place.
- Every method is proved to compute an entry-list specification (`Bonds.AddSpec`, `Bonds.RemoveSpec`, …).
- What the table promises is proved about those specifications.

## Structure

| module | file | contents |
|---|---|---|
| `Wrappers` | wrappers.dfy | `Option`, `Result` |
| `Text` | text.dfy | the .NET string primitives the code relies on: `Substring` (None where it throws), `Trim`, `Split(' ')`, `int.Parse`, `int.ToString`, padding in `{i,w}` composite formats |
| `Molecule` | molecule.dfy | atoms, residues, chains and models as values; the secondary-structure codes |
| `PdbFields` | pdb_fields.dfy | element guessing, atom-name layout, the small helpers |
| `Bonds`, `BondTable`, `BondLemmas` | bonds.dfy, bond_table.dfy, bond_lemmas.dfy | the bond table: its specification, the class, and its properties |
| `PdbRead`, `PdbReadFacts`, `PdbReadLoop` | pdb_read.dfy, pdb_read_facts.dfy, pdb_read_loop.dfy | `ReadData` as a step function folded over the lines, what it builds, and the while loop proved equal to it |
| `PdbWrite`, `PdbWriteFacts`, `PdbWriteRecords` | pdb_write.dfy, pdb_write_facts.dfy, pdb_write_records.dfy | `Write` as methods over a `StringBuilder` string, the column layout it produces and its round trip through the reader, and the records of the atom loop |
| `PdbWriteSS`, `PdbWriteSSFacts`, `PdbWriteSSRuns` | pdb_write_ss.dfy, pdb_write_ss_facts.dfy, pdb_write_ss_runs.dfy | `writeSecondaryStructure`, its column layout and round trip, and the runs it writes |

## Modelling decisions

**Parameters instead of outside code.** Code outside these two files becomes a parameter:

- the element table's `isKnownAtom`;
- the water residue list;
- `findNewAtomName`;
- float parsing and formatting (`float.Parse`, `float.TryParse`, the `N3`/`N2` formats);
- the residue topology of `getBondOrderProt`;
- the selection's atom number lookup;
- the key order of `Dbonds.Keys`, an explicit sequence that enumerates the keys.

**Values, not floats.** Coordinates and B-factors are exact reals. Only the negation of x is modelled.

**Exceptions.** Where .NET throws (`Substring` out of range, `int.Parse` of a non-number or of a value outside the 32-bit range, `atomName[0]` of an empty name), the model returns `None`. At the level of `ReadData` this becomes the `ParsingException` with the 1-based line number.

**Diagnostics.** The messages of the reader's `debug` builder are structured `Diag` values instead of strings. The other `Debug.Log` calls are left out.

**Record tests.** `QuickStartWith` is modelled as a plain prefix test.

**Secondary-structure codes.** The `secondaryStructureType` enumeration is not part of this model. The reader casts the HELIX class column to it, so the nine helix kinds are taken to carry the PDB helix class numbers 1 to 9, and `Strand` a further, distinct code.

**Where the code and its documentation differ, the model follows the code:**

- `alternFirst` is set once per file, to the first non-blank alternate location, and never reset. It is not chosen per residue.
- A record line too short for the columns the reader takes throws, and so fails the parse. It is not skipped.
- `Write` emits a CONECT record for every key of the primary table, including a key whose row has been emptied. It does not emit one only for atoms that still have a neighbour.
- The HELIX/SHEET run end is the residue that interrupts the run, not the run's last residue (see Findings).

**Centring.** The `CenterString` extension method is not part of this model. `PdbWrite.CenterString` gives it a definite body: a name at least as wide as the field is unchanged, and a shorter one gets half the padding on each side, the extra blank on the right.

**Other notes on the behaviour modelled:**

- The TER record takes its residue from the atom before it in the selection, which may be a skipped HET atom.
- The code after the chain loop of each secondary-structure pass closes a run still open. That never happens, because every chain closes its own run, but it is modelled as written.
- The reader's `readConnect` is a local that is always true, so CONECT records are always read.
- A CONECT line is described by a `PdbWrite.ConectRow`: the key's atom number and its partners' numbers, in row order, looked up through the selection's number function. The read-back lemmas work on these numbers.
- Both secondary-structure passes are one generic loop, `PdbWriteSS.RunPass`. A `Pass` value tells the two apart.

## Model

| member | source | states |
|---|---|---|
| Text.Substring | Assets/Scripts/ParseData/PDBReader.cs:251-256 | `Substring(start, length)` succeeds exactly when the range lies within the line, and then holds those characters |
| Text.Trim | Assets/Scripts/ParseData/PDBReader.cs:245 | the trimmed field has no blank at either end, is no longer than the field, and is empty exactly when the field is all blanks |
| Text.TrimSpan | Assets/Scripts/ParseData/PDBReader.cs:245 | the trimmed field is a slice of the field with only white space before and after it, so Trim removes the white ends and nothing else |
| Text.TrimPadded | Assets/Scripts/ParseData/PDBReader.cs:252 | trimming a field padded with blanks gives back exactly the unpadded text |
| Text.Split | Assets/Scripts/ParseData/PDBReader.cs:391 | `Split(' ')` gives one more token than there are blanks, no token holds a blank, and joining the tokens with blanks gives back the line |
| Text.ParseInt | Assets/Scripts/ParseData/PDBReader.cs:251 | `int.Parse` only ever yields values within the 32-bit range |
| Text.ParseDigitsValue | Assets/Scripts/ParseData/PDBReader.cs:251 | the digit reader succeeds exactly on digit strings, with their decimal value |
| Text.IntToString | Assets/Scripts/ParseData/PDBReader.cs:708 | `int.ToString` writes the decimal digits of the number, with a minus sign when it is negative, and no blank at either end |
| Text.NatToStringLength | Assets/Scripts/ParseData/PDBReader.cs:708 | a number below 10^k takes at most k digits, so it fits a k-column field |
| Text.ParseIntOfPadded | Assets/Scripts/ParseData/PDBReader.cs:251-253 | `int.Parse` reads back any 32-bit number `int.ToString` wrote, whatever blanks pad it |
| Text.PadLeft | Assets/Scripts/ParseData/PDBReader.cs:708 | a `{i,w}` field is right-aligned in w columns with blanks and is never truncated |
| PdbFields.GuessElementFromAtomName | Assets/Scripts/ParseData/PDBReader.cs:1291-1329 | a one-letter name is its own element; a non-HET name starting with C is carbon; otherwise the element is the name, its first letter, its first two letters, H or X |
| PdbFields.AlphaCarbonIsCarbon | Assets/Scripts/ParseData/PDBReader.cs:1297-1299 | a non-HET CA is carbon whatever the element table holds |
| PdbFields.HetCalciumIsCalcium | Assets/Scripts/ParseData/PDBReader.cs:1301-1303 | a HET CA is calcium when the table knows CA: the full name is tried first |
| PdbFields.FirstLetterBeforeTwoLetter | Assets/Scripts/ParseData/PDBReader.cs:1305-1309 | for a non-HET name, a known first letter wins over the first two letters |
| PdbFields.DigitHIsHydrogen | Assets/Scripts/ParseData/PDBReader.cs:1311-1313 | a digit followed by H is hydrogen once the earlier checks fail |
| PdbFields.FormatAtomName | Assets/Scripts/ParseData/PDBReader.cs:1332-1340 | a name of one to three characters gets one leading blank and is padded to four columns; any other name is unchanged |
| PdbFields.FormatAtomNameTrim | Assets/Scripts/ParseData/PDBReader.cs:252 | the reader's trim of columns 12-16 gives back every name of one to four characters with no blank at either end |
| PdbFields.IsLigand | Assets/Scripts/ParseData/PDBReader.cs:1281-1284 | true exactly for the residue name LIG in any letter case |
| PdbFields.IsNH2 | Assets/Scripts/ParseData/PDBReader.cs:1258-1270 | true exactly when the first atom is N and the next three hold one C and two H |
| PdbFields.IsCOOH | Assets/Scripts/ParseData/PDBReader.cs:1273-1279 | true exactly when a C is followed by two O |
| PdbFields.Wrap32 | Assets/Scripts/ParseData/PDBReader.cs:1250-1251 | unchecked 32-bit int arithmetic stays in range, differs from the exact value by a multiple of 2^32, and leaves in-range values alone |
| PdbFields.StringToInt | Assets/Scripts/ParseData/PDBReader.cs:1245-1255 | as written, it returns the length of the string |
| PdbFields.StringToIntFixed | Assets/Scripts/ParseData/PDBReader.cs:1245-1255 | corrected, it returns the value of a digit string in range, which is what `int.Parse` reads |
| PdbFields.ParseIntOfDigits | Assets/Scripts/ParseData/PDBReader.cs:1245-1255 | `int.Parse` of an in-range digit string is its decimal value |
| PdbFields.RunNames | Assets/Scripts/ParseData/PDBReader.cs:854-862 | the listed names start with the first atom's residue name |
| PdbFields.GetAnimoName | Assets/Scripts/ParseData/PDBReader.cs:850-865 | an empty selection throws; otherwise the result is the run names joined by " \| " |
| PdbFields.RunNamesStep | Assets/Scripts/ParseData/PDBReader.cs:856-861 | an atom adds its residue name exactly when its residue id differs from the previous atom's |
| PdbFields.RunNamesOfResidues | Assets/Scripts/ParseData/PDBReader.cs:850-865 | a selection of whole residues, consecutive ones with different ids, is named by its residues' names in order |
| PdbRead.Position | Assets/Scripts/ParseData/PDBReader.cs:265-268 | the position succeeds exactly when the x, y and z columns 30-38, 38-46 and 46-54 all parse; it then holds those three values, with x negated, and the line reaches column 54 |
| PdbRead.Element | Assets/Scripts/ParseData/PDBReader.cs:282-293 | a trimmed element column 76-78 that names a known element is the element; otherwise the element is guessed from the atom name; this fails exactly for an empty atom name without such a column |
| PdbRead.ParseAtomFields | Assets/Scripts/ParseData/PDBReader.cs:251-298 | serial, name, alternate location, chain (a blank becomes "_"), residue number, insertion code (appended to the residue name after "_"), position, B-factor and element are each what their own column reader gives; it fails exactly when the line is shorter than 54 columns or the serial, residue number, position or element fails |
| PdbRead.FlushResidue | Assets/Scripts/ParseData/PDBReader.cs:422-430 | closing the pending residue empties the pending atoms and touches neither the chains nor the models |
| PdbRead.FlushChain | Assets/Scripts/ParseData/PDBReader.cs:431-437 | closing the pending chain empties the pending residues and touches nothing else that is built |
| PdbRead.FlushModel | Assets/Scripts/ParseData/PDBReader.cs:438-446 | a model is recorded, named by its number and holding allAtoms, only when it has chains |
| PdbRead.Accept | Assets/Scripts/ParseData/PDBReader.cs:379-388 | an accepted atom joins the pending residue and allAtoms and becomes the last-seen chain and residue |
| PdbRead.PlaceAtom | Assets/Scripts/ParseData/PDBReader.cs:305-377 | the decision for an atom record keeps the reader's invariant and never touches models or frames |
| PdbRead.SameResidueAtom | Assets/Scripts/ParseData/PDBReader.cs:306-334 | the same-residue branch keeps the invariant and leaves models and frames alone |
| PdbRead.NewResidueAtom | Assets/Scripts/ParseData/PDBReader.cs:335-353 | the new-residue branch keeps the invariant and leaves models and frames alone |
| PdbRead.NewChainAtom | Assets/Scripts/ParseData/PDBReader.cs:355-372 | the new-chain branch keeps the invariant and leaves models and frames alone |
| PdbRead.AtomRecord | Assets/Scripts/ParseData/PDBReader.cs:229-388 | an atom record keeps the reader's invariant |
| PdbRead.EndFrames | Assets/Scripts/ParseData/PDBReader.cs:402-419 | at ENDMDL idA is reset to 0 |
| PdbRead.EndModel | Assets/Scripts/ParseData/PDBReader.cs:400-451 | ENDMDL empties every pending group, forgets the last chain and residue, and updates the frames |
| PdbRead.HelixRecord | Assets/Scripts/ParseData/PDBReader.cs:455-465 | a HELIX record needs 40 columns, appends one range to those collected and changes nothing else |
| PdbRead.SheetRecord | Assets/Scripts/ParseData/PDBReader.cs:467-477 | a SHEET record needs 37 columns, appends one range of type Strand and changes nothing else |
| PdbRead.SheetRecordFixed | Assets/Scripts/ParseData/PDBReader.cs:467-477 | the corrected SHEET reader appends one Strand range in the same way |
| PdbRead.SlotCount | Assets/Scripts/ParseData/PDBReader.cs:481-492 | the CONECT slot loop stops at the end of the line or at the first slot whose last column is blank |
| PdbRead.AllReadValues | Assets/Scripts/ParseData/PDBReader.cs:481-492 | the slot values are read exactly when every slot parses, and they are the slots' values in order |
| PdbRead.ConectPartnersRead | Assets/Scripts/ParseData/PDBReader.cs:481-492 | the partners of a CONECT record are the slot values up to where the loop stops |
| PdbRead.PairsWith | Assets/Scripts/ParseData/PDBReader.cs:486-490 | every CONECT pair has the root atom as x |
| PdbRead.ConectRecord | Assets/Scripts/ParseData/PDBReader.cs:478-493 | a CONECT record changes only the collected CONECT pairs |
| PdbRead.ChemBondRecord | Assets/Scripts/ParseData/PDBReader.cs:390-398 | a CHEMBOND record changes only the collected CHEMBOND pairs, and a line that does not split into three tokens is skipped |
| PdbRead.Step | Assets/Scripts/ParseData/PDBReader.cs:216-499 | one line keeps the reader's invariant; a blank line changes nothing |
| PdbRead.RunFrom | Assets/Scripts/ParseData/PDBReader.cs:215-500 | the rest of the pass keeps the reader's invariant |
| PdbRead.Finish | Assets/Scripts/ParseData/PDBReader.cs:507-534 | the parse hands on the frames and the CONECT pairs collected |
| PdbReadFacts.PlaceAtomIgnored | Assets/Scripts/ParseData/PDBReader.cs:305-322 | a dropped atom (different residue name, or a taken name with a later alternate location) changes no group and no last-seen value |
| PdbReadFacts.PlaceAtomKept | Assets/Scripts/ParseData/PDBReader.cs:323-386 | a kept atom is appended to allAtoms under its possibly new name |
| PdbReadFacts.PlaceAtomLast | Assets/Scripts/ParseData/PDBReader.cs:381-386 | a kept atom becomes the last-seen chain, residue name and number |
| PdbReadFacts.PlaceAtomGroups | Assets/Scripts/ParseData/PDBReader.cs:305-377 | within the pending residue a kept atom joins it; otherwise the residue (and on a chain change the chain) is closed and the atom starts a new one |
| PdbReadFacts.PlaceAtomGap | Assets/Scripts/ParseData/PDBReader.cs:346-349 | a numbering gap within a chain adds a message and loses no atom |
| PdbReadFacts.PlaceAtomGrouped | Assets/Scripts/ParseData/PDBReader.cs:305-388 | every outcome of an atom record keeps the grouping: allAtoms is the closed chains, then the closed residues, then the pending atoms |
| PdbReadFacts.FlushAllGrouped | Assets/Scripts/ParseData/PDBReader.cs:422-446 | closing residue, chain and model keeps the grouping and leaves nothing pending |
| PdbReadFacts.StepGrouped | Assets/Scripts/ParseData/PDBReader.cs:216-499 | every line keeps the grouping |
| PdbReadFacts.RunFromGrouped | Assets/Scripts/ParseData/PDBReader.cs:215-500 | the whole pass keeps the grouping |
| PdbReadFacts.ReadModels | Assets/Scripts/ParseData/PDBReader.cs:422-534 | a successful parse has at least one model; every model has chains, every chain residues, every residue atoms; a model's atom list is its chains' atoms in order; models are named 0, 1, … |
| PdbReadFacts.TrajectoryAtomSlot | Assets/Scripts/ParseData/PDBReader.cs:231-243 | PdbRead.TrajectoryAtom, the atom record of a later model: it writes the next frame slot; past the atom count it only sets idA to -1 |
| PdbReadFacts.EndFramesSized | Assets/Scripts/ParseData/PDBReader.cs:402-419 | the first ENDMDL fixes the atom count and records frame 0 from allAtoms; a later one records the frame exactly when it was filled completely |
| PdbReadFacts.RunFromTraj | Assets/Scripts/ParseData/PDBReader.cs:215-500 | the whole pass keeps the trajectory invariant |
| PdbReadFacts.FinishFrames | Assets/Scripts/ParseData/PDBReader.cs:507-534 | from a grouped state keeping the trajectory invariant, the finished parse has the frames ReadFrames states |
| PdbReadFacts.ReadFrames | Assets/Scripts/ParseData/PDBReader.cs:231-243 | without trajectory mode there are no frames; with it there is one model, all frames have one size, and frame 0 holds the model's positions |
| PdbReadFacts.ClassifyKinds | Assets/Scripts/ParseData/PDBReader.cs:218-228 | PdbRead.Classify, the record tests of the loop: a non-blank line is handled as the record its name says (HETATM only when HET atoms are read) |
| PdbReadFacts.ConectRecordPairs | Assets/Scripts/ParseData/PDBReader.cs:478-493 | a CONECT record succeeds exactly when root and read slots are numbers; it appends one (root, partner) pair per slot, in column order, up to the stop |
| PdbReadFacts.ChemBondPair | Assets/Scripts/ParseData/PDBReader.cs:390-398 | CHEMBOND adds the pair of tokens 2 and 3 exactly when the line splits into three tokens; any other line is skipped |
| PdbReadFacts.PlaceAtomAlternFirst | Assets/Scripts/ParseData/PDBReader.cs:270-273 | alternFirst becomes the first non-blank alternate location, whether or not the atom is kept |
| PdbReadFacts.AtomRecordAlternFirst | Assets/Scripts/ParseData/PDBReader.cs:270-273 | an atom record never changes an alternFirst already chosen |
| PdbReadFacts.RunFromAlternFirst | Assets/Scripts/ParseData/PDBReader.cs:270-273 | once chosen, alternFirst never changes for the rest of the file |
| PdbReadFacts.ReadError | Assets/Scripts/ParseData/PDBReader.cs:496-499 | an exception names a non-blank line that fails, every line before it having been read |
| PdbReadLoop.ReadConectPartners | Assets/Scripts/ParseData/PDBReader.cs:481-492 | the slot loop of CONECT computes the partners the record specifies |
| PdbReadLoop.FirstFrame | Assets/Scripts/ParseData/PDBReader.cs:408-412 | the copy loop fills the first frame with the positions of all atoms |
| PdbReadLoop.ReadEndModel | Assets/Scripts/ParseData/PDBReader.cs:400-451 | the ENDMDL branch computes the ENDMDL step |
| PdbReadLoop.ReadConectRecord | Assets/Scripts/ParseData/PDBReader.cs:478-493 | the CONECT branch computes the CONECT step |
| PdbReadLoop.ReadLine | Assets/Scripts/ParseData/PDBReader.cs:216-499 | the loop body computes the step for one line |
| PdbReadLoop.ReadData | Assets/Scripts/ParseData/PDBReader.cs:172-593 | the while loop and the code after it produce the parse the reader's specification defines |
| PdbWrite.CenterString | Assets/Scripts/ParseData/PDBReader.cs:673-674 | a name at least as wide as the field is written unchanged; a shorter one fills exactly the field width |
| PdbWrite.PositionsOf | Assets/Scripts/ParseData/PDBReader.cs:683-691 | positions come from the override when one is given, else from each atom in order, one per atom |
| PdbWrite.Framed | Assets/Scripts/ParseData/PDBReader.cs:653-750 | the text is an optional MODEL line, then the atom lines followed by the CONECT lines when asked, then ENDMDL with writeModel or END without it, then the HELIX and SHEET lines when asked |
| PdbWrite.AtomRecordsStopped | Assets/Scripts/ParseData/PDBReader.cs:711-718 | once the loop has stopped, later atoms add nothing |
| PdbWrite.AtomRecordsFailed | Assets/Scripts/ParseData/PDBReader.cs:657-720 | once a format has failed, later atoms do not recover |
| PdbWrite.WriteConectLine | Assets/Scripts/ParseData/PDBReader.cs:727-736 | the slot loop writes the key's CONECT line, its partners taken up to the first null slot |
| PdbWrite.WriteConect | Assets/Scripts/ParseData/PDBReader.cs:722-740 | the key loop writes one CONECT line per key of the primary table, in key order, each the record of that key's row |
| PdbWrite.AtomStepWrites | Assets/Scripts/ParseData/PDBReader.cs:698-718 | a written atom adds a TER record when its chain letter differs from the previous one, then its own record; the loop stops once the record count passes 99999 or the residue number reaches 9999 |
| PdbWrite.WriteAtom | Assets/Scripts/ParseData/PDBReader.cs:660-718 | the loop body computes PdbWrite.AtomStep, the records of one atom |
| PdbWrite.WriteAtoms | Assets/Scripts/ParseData/PDBReader.cs:657-720 | the atom loop writes the text of the atom records |
| PdbWrite.Write | Assets/Scripts/ParseData/PDBReader.cs:631-754 | Write(select) produces PdbWrite.WriteText: the mismatch test, the atom loop, CONECT and the sections of PdbWrite.Framed |
| PdbWrite.ModelText | Assets/Scripts/ParseData/PDBReader.cs:615-624 | each model of a structure is written starting with a MODEL line |
| PdbWrite.WriteStructure | Assets/Scripts/ParseData/PDBReader.cs:615-624 | the model loop of Write(structure) computes the join of the models' texts followed by END |
| PdbWriteFacts.FieldFits | Assets/Scripts/ParseData/PDBReader.cs:708 | a number within a field's range fills exactly the field and reads back as itself |
| PdbWriteFacts.NameColumnRead | Assets/Scripts/ParseData/PDBReader.cs:252 | the reader's trim of the written name column gives back the first four characters of the atom name |
| PdbWriteFacts.ResNameColumnRead | Assets/Scripts/ParseData/PDBReader.cs:246 | the reader's trim of the written residue-name column gives back a residue name of up to three characters |
| PdbWriteFacts.NameFieldTrim | Assets/Scripts/ParseData/PDBReader.cs:673-674 | the atom-name field trims back to the first four characters of the name |
| PdbWriteFacts.AtomColumns | Assets/Scripts/ParseData/PDBReader.cs:640-710 | an atom record has 80 columns, each field in its PDB column, x negated |
| PdbWriteFacts.AtomLineRead | Assets/Scripts/ParseData/PDBReader.cs:251-298 | a line with the written columns parses back into the atom's fields |
| PdbWriteFacts.AtomRecordRead | Assets/Scripts/ParseData/PDBReader.cs:251-298 | the reader takes back the serial, name, residue name, chain, residue number, position, B-factor and element the writer wrote |
| PdbWriteFacts.AtomRecordKind | Assets/Scripts/ParseData/PDBReader.cs:666-670 | a written record is ATOM unless HET or water without forceHetAsAtom, in which case it is HETATM, and the reader classifies it so |
| PdbWriteFacts.ConectPartnersOf | Assets/Scripts/ParseData/PDBReader.cs:727-736 | the reader's CONECT slot loop reads back the partners of any line whose slots hold them |
| PdbWriteFacts.SlotFits | Assets/Scripts/ParseData/PDBReader.cs:734 | a number between -1000 and 9999 written as a blank and a 4-column field is a 5-column slot whose last column is not blank and that parses as the number |
| PdbWriteFacts.PartnerSlots | Assets/Scripts/ParseData/PDBReader.cs:727-736 | the partner fields of a CONECT line are consecutive 5-column slots, each reading back as its partner |
| PdbWriteFacts.ConectRecordRead | Assets/Scripts/ParseData/PDBReader.cs:478-493 | a written CONECT line reads back as one bond from the key to each partner, in row order |
| PdbWriteRecords.AtomRecordsShaped | Assets/Scripts/ParseData/PDBReader.cs:657-720 | after any prefix of the atoms the records are well shaped, and their atoms are the kept atoms up to the stop |
| PdbWriteRecords.StepKeptUpTo | Assets/Scripts/ParseData/PDBReader.cs:660-718 | one iteration adds the atom it writes to the written atoms, and adds none once stopped or for a skipped HET atom |
| PdbWriteRecords.WrittenRecords | Assets/Scripts/ParseData/PDBReader.cs:657-720 | a TER record stands exactly between two atom records of different chains, naming the previous chain and the next serial; atomSerial counts every record; only the last record can stop the loop; without a stop every kept atom is written in order |
| PdbWriteRecords.WriteMismatch | Assets/Scripts/ParseData/PDBReader.cs:634-637 | an override of the wrong length gives the empty text |
| PdbWriteRecords.JoinModelsText | Assets/Scripts/ParseData/PDBReader.cs:615-624 | joining model texts fails exactly when one of them fails; otherwise it ends with END and starts with the first model |
| PdbWriteRecords.WriteModelsText | Assets/Scripts/ParseData/PDBReader.cs:615-624 | Write(structure) fails exactly when some model fails to write, and otherwise ends with END |
| PdbWriteSS.Ended | Assets/Scripts/ParseData/PDBReader.cs:785-803 | a closed run carries the counter, the first residue and the type of the run, ended at the given residue |
| PdbWriteSS.RunPass | Assets/Scripts/ParseData/PDBReader.cs:771-845 | the chain and residue loops of a pass compute PdbWriteSS.PassOf, the runs the pass specifies |
| PdbWriteSS.WriteSecondaryStructure | Assets/Scripts/ParseData/PDBReader.cs:755-847 | computes PdbWriteSS.SSText: the helix pass, then the sheet pass, each run on its own line; nothing unless there is exactly one structure |
| PdbWriteSSFacts.HelixColumns | Assets/Scripts/ParseData/PDBReader.cs:765 | a HELIX record places serial, residues, chain, numbers, class and length in their columns |
| PdbWriteSSFacts.HelixRecordRead | Assets/Scripts/ParseData/PDBReader.cs:455-465 | a written HELIX line reads back as the range and class written |
| PdbWriteSSFacts.SheetColumns | Assets/Scripts/ParseData/PDBReader.cs:766 | a SHEET record places serial, residues, chain and 4-column numbers in their columns |
| PdbWriteSSFacts.SheetRecordFixedRead | Assets/Scripts/ParseData/PDBReader.cs:766 | with 4-column reads, a written SHEET line reads back as the strand written |
| PdbWriteSSFacts.SheetRecordRead | Assets/Scripts/ParseData/PDBReader.cs:467-477 | as written, a SHEET line reads back as the strand written when its residue numbers lie between -100 and 1000 |
| PdbWriteSSFacts.SheetRecordMisread | Assets/Scripts/ParseData/PDBReader.cs:467-477 | as written, the strand 1000-1004 of chain A reads back as chain "A1", residues 0 to 4 |
| PdbWriteSSRuns.SpansOf | Assets/Scripts/ParseData/PDBReader.cs:784-809 | each run of a chain lies within the chain |
| PdbWriteSSRuns.SpansAreRuns | Assets/Scripts/ParseData/PDBReader.cs:784-809 | the runs the scan finds are exactly the maximal runs of residues of the pass (of one helix kind for helices), in order, covering every such residue |
| PdbWriteSSRuns.ChainRuns | Assets/Scripts/ParseData/PDBReader.cs:785-809 | one record per run |
| PdbWriteSSRuns.WrittenChainRuns | Assets/Scripts/ParseData/PDBReader.cs:772-809 | as written, a chain yields one record per maximal run, numbered on from the counter, ending at the residue after the run or at the chain's last residue |
| PdbWriteSSRuns.FixedChainRuns | Assets/Scripts/ParseData/PDBReader.cs:772-809 | corrected, each record ends at the run's own last residue |
| PdbWriteSSRuns.ScanChainsCount | Assets/Scripts/ParseData/PDBReader.cs:772-810 | after the chain loop no run is open, and the counter has grown by the number of runs of all chains |
| PdbWriteSSRuns.ScanChainsRuns | Assets/Scripts/ParseData/PDBReader.cs:772-810 | the chain loop appends the records of each chain in turn, numbered on from the counter across chains |
| PdbWriteSSRuns.PassesRuns | Assets/Scripts/ParseData/PDBReader.cs:755-847 | the HELIX records and the SHEET records are each the runs of every chain in turn, numbered from 1 across chains; the code after the chain loop adds nothing |
| PdbWriteSSRuns.HelixEndMisnamed | Assets/Scripts/ParseData/PDBReader.cs:790-803 | a helix ALA 1, GLY 2 followed by coil SER 3 is written as ending at SER 3, where the corrected pass ends it at GLY 2 |
| Bonds.Entries | Assets/Scripts/UnityMolMolecule/UnityMolBonds.cs:125-136 | the atoms of a row are its non-null prefix |
| Bonds.LenOfFill | Assets/Scripts/UnityMolMolecule/UnityMolBonds.cs:144-148 | a row built from an entry list holds exactly that many atoms |
| Bonds.FillOfEntries | Assets/Scripts/UnityMolMolecule/UnityMolBonds.cs:131-136 | every valid row is its entries followed by nulls |
| Bonds.IndexOf | Assets/Scripts/UnityMolMolecule/UnityMolBonds.cs:161-179 | the first position at which a row holds the atom |
| BondTable.RowAdd | Assets/Scripts/UnityMolMolecule/UnityMolBonds.cs:125-137 | the slot scan of Add leaves a valid row whose entries are the old ones with the atom inserted; it writes a slot exactly when the atom is absent and the row is not full |
| BondTable.RowRemove | Assets/Scripts/UnityMolMolecule/UnityMolBonds.cs:169-181 | the swap-with-last loop leaves a valid row whose entries are the old ones without the atom; the row is reported emptied exactly when the atom was its only entry |
| BondTable.SwapRemoveRow | Assets/Scripts/UnityMolMolecule/UnityMolBonds.cs:170-179 | moving the last entry into the freed slot and nulling the last slot gives the row of the remaining entries |
| BondTable.DropFromAllRows | Assets/Scripts/UnityMolMolecule/UnityMolBonds.cs:186-215 | the key loop leaves valid rows from which the atom has left every row it hits; emptied rows lose their key only after the loop |
| BondTable.UnityMolBonds.constructor | Assets/Scripts/UnityMolMolecule/UnityMolBonds.cs:86-90 | a new table is empty with a zero counter |
| BondTable.UnityMolBonds.Add | Assets/Scripts/UnityMolMolecule/UnityMolBonds.cs:121-153 | Add computes Bonds.AddSpec: the primary row, both dual rows and the counter |
| BondTable.UnityMolBonds.AddAll | Assets/Scripts/UnityMolMolecule/UnityMolBonds.cs:112-116 | the array overload is one Add per element, in order |
| BondTable.UnityMolBonds.AddDual | Assets/Scripts/UnityMolMolecule/UnityMolBonds.cs:220-247 | AddDual changes only the dual table, as Bonds.AddDualSpec states |
| BondTable.UnityMolBonds.Remove | Assets/Scripts/UnityMolMolecule/UnityMolBonds.cs:155-218 | Remove computes Bonds.RemoveSpec on both tables and leaves the counter |
| BondTable.UnityMolBonds.RemoveDual | Assets/Scripts/UnityMolMolecule/UnityMolBonds.cs:249-304 | RemoveDual changes only the dual table, as Bonds.RemoveDualSpec states |
| BondTable.UnityMolBonds.CountBondedAtoms | Assets/Scripts/UnityMolMolecule/UnityMolBonds.cs:309-324 | -1 when the atom has no dual row, else its number of dual entries |
| BondTable.UnityMolBonds.IsBondedTo | Assets/Scripts/UnityMolMolecule/UnityMolBonds.cs:329-339 | true exactly when the second atom is in the first one's dual row |
| BondTable.UnityMolBonds.GetBondOrderProt | Assets/Scripts/UnityMolMolecule/UnityMolBonds.cs:377-397 | not bonded gives -1; else the order of the first topology entry for the second atom, or -1 when it is absent |
| BondTable.UnityMolBonds.GetBondOrder | Assets/Scripts/UnityMolMolecule/UnityMolBonds.cs:346-370 | not bonded gives -1; else the parsed order of (a1, a2), else of (a2, a1), else the topology order when asked, else -1 |
| BondTable.UnityMolBonds.ToList | Assets/Scripts/UnityMolMolecule/UnityMolBonds.cs:402-414 | the pairs of every primary row's entries, in key order |
| BondTable.UnityMolBonds.ToListDual | Assets/Scripts/UnityMolMolecule/UnityMolBonds.cs:485-498 | each primary pair followed by its reverse |
| BondTable.UnityMolBonds.FirstOrder | Assets/Scripts/UnityMolMolecule/UnityMolBonds.cs:388-395 | the order of the first topology entry for an atom, and none exactly when no entry names it |
| BondTable.UnityMolBonds.Count | Assets/Scripts/UnityMolMolecule/UnityMolBonds.cs:95-101 | the Count and Length properties both return the table's bond counter |
| BondTable.UnityMolBonds.Dbonds | Assets/Scripts/UnityMolMolecule/UnityMolBonds.cs:103-107 | the Dbonds property is the primary dictionary: its keys are the primary table's, each row valid and holding that key's entries |
| BondLemmas.InsertProps | Assets/Scripts/UnityMolMolecule/UnityMolBonds.cs:125-140 | adding to a row keeps it within 27 distinct atoms and adds the atom unless the row is full |
| BondLemmas.SwapRemoveProps | Assets/Scripts/UnityMolMolecule/UnityMolBonds.cs:169-181 | removal from a row keeps it distinct, takes out exactly that atom, and shortens it by one when it was there |
| BondLemmas.AddConsistent | Assets/Scripts/UnityMolMolecule/UnityMolBonds.cs:121-153 | Add keeps every row within 27 atoms and free of repeats |
| BondLemmas.RemoveConsistent | Assets/Scripts/UnityMolMolecule/UnityMolBonds.cs:155-218 | Remove keeps every row within 27 atoms and free of repeats |
| BondLemmas.AddBondsBothWays | Assets/Scripts/UnityMolMolecule/UnityMolBonds.cs:121-153 | after Add(a, b) both atoms are bonded to each other, unless a dual row was full; b is in a's primary row unless that row was full |
| BondLemmas.AddFrame | Assets/Scripts/UnityMolMolecule/UnityMolBonds.cs:121-153 | Add touches only the rows of a and b; the counter grows by one exactly when a new primary entry is stored |
| BondLemmas.AddIdempotent | Assets/Scripts/UnityMolMolecule/UnityMolBonds.cs:121-153 | repeating Add(a, b) changes nothing |
| BondLemmas.AddDualTwice | Assets/Scripts/UnityMolMolecule/UnityMolBonds.cs:220-247 | repeating both AddDual calls changes nothing |
| BondLemmas.AddOverflow | Assets/Scripts/UnityMolMolecule/UnityMolBonds.cs:138-140 | a full primary row without b leaves the primary table and counter unchanged, yet the bond still enters the dual table |
| BondLemmas.AddReverseStoresTwice | Assets/Scripts/UnityMolMolecule/UnityMolBonds.cs:121-153 | for two different atoms that are not yet in each other's primary rows, both rows having room, Add(a, b) then Add(b, a) appends b to a's primary row and a to b's and counts two bonds: ToList lists the bond twice |
| BondLemmas.RemovePairUnbonds | Assets/Scripts/UnityMolMolecule/UnityMolBonds.cs:155-218 | Remove(a, b) takes the bond out of both primary and both dual rows and keeps every other entry |
| BondLemmas.RemovePairKeys | Assets/Scripts/UnityMolMolecule/UnityMolBonds.cs:164-304 | Remove(a, b) deletes a key of either table exactly when it took that row's only entry, so countBondedAtoms(a) becomes -1 when b was a's only dual partner |
| BondLemmas.RemoveDualPair | Assets/Scripts/UnityMolMolecule/UnityMolBonds.cs:249-304 | RemoveDual(a, b) takes each atom out of the other's dual row and keeps every other entry |
| BondLemmas.RemoveAllPrimary | Assets/Scripts/UnityMolMolecule/UnityMolBonds.cs:164-215 | Remove(a) empties a's rows but keeps their keys (countBondedAtoms(a) is 0, not -1), takes a out of every primary row and keeps every other primary entry |
| BondLemmas.ToListExact | Assets/Scripts/UnityMolMolecule/UnityMolBonds.cs:402-414 | ToList lists exactly the stored primary bonds |
| BondLemmas.PairsOfLength | Assets/Scripts/UnityMolMolecule/UnityMolBonds.cs:402-414 | ToList has one pair per stored entry and ToListDual exactly twice as many |
| BondLemmas.DualPairsOfMembers | Assets/Scripts/UnityMolMolecule/UnityMolBonds.cs:485-498 | ToListDual holds each ToList pair and its reverse, and nothing else |
| BondLemmas.AddThenRemoveKeepsCount | Assets/Scripts/UnityMolMolecule/UnityMolBonds.cs:155-218 | as written, adding a fresh bond and removing it gives back both tables but a counter one higher |
| BondLemmas.RemoveAllLeavesReverseDual | Assets/Scripts/UnityMolMolecule/UnityMolBonds.cs:249-304 | as written, after Remove(a) a neighbour b is still bonded to a, while a is no longer bonded to b |
| BondLemmas.AddThenRemoveFixed | Assets/Scripts/UnityMolMolecule/UnityMolBonds.cs:155-218 | corrected, removing a fresh bond gives back exactly the old table, counter included |
| BondLemmas.RemoveAllFixedUnbonds | Assets/Scripts/UnityMolMolecule/UnityMolBonds.cs:249-304 | corrected, after Remove(a) a is bonded to nothing in either direction and in no primary row |
| BondLemmas.CountBondedIsNeighbours | Assets/Scripts/UnityMolMolecule/UnityMolBonds.cs:309-339 | countBondedAtoms is the number of distinct atoms isBondedTo reports |

## Left out

- Float parsing and the `N3`/`N2` formats are parameters; coordinates and B-factors are exact reals; only the sign of x is modelled.
- Logging (`Debug.Log*`) and time measurement are left out, except the reader's own messages, which are kept as `Diag` values.
- `Fetch` (both overloads) is left out: HTTP download, gzip and coroutines.
- `ParseFromString` is left out: it discards the parse result.
- `AddToStructure` is left out: it depends on structure, collider and manager code that is not part of this model.
- The post-build steps of `ReadData` (Assets/Scripts/ParseData/PDBReader.cs:544-587) are left out. These are molecular-type identification, bond computation, centre of gravity, colliders, the surface thread and the managers; all of it is foreign code or float arithmetic.
- `ConnectWrite` is left out: it is an optional variant of `Write` that renumbers atoms in place through shared residue objects.
- `PrintBonds` is left out: it is logging only.
- Assets/Scripts/Utilities/ReadSaveFilesWithBrowser.cs is left out: it is file-dialog and GUI glue.
- The `StreamReader` becomes a sequence of lines, and `StringBuilder` appends become string concatenation.
- The residue, chain and model objects are values. The reader never mutates them after they are built, so no aliasing is lost.
- Atoms in the bond table are integer handles. Dictionary key order is an explicit sequence.
- PdbWrite.PositionsOf: the model's atom has one position. It stands both for `position`, which the reader sets, and for `oriPosition`, which the writer reads. The two differ once a structure has been moved or a trajectory frame loaded, which this model does not cover.
- PdbWrite.CenterString: the centring of names shorter than the field is the model's own choice, since the extension method is not part of this model. The writer only centres names that `formatAtomName` has padded to four columns, so the choice matters only for an empty atom name.
- Text.IsWhite covers only the Latin-1 white space of `Char.IsWhiteSpace`. The Unicode space separators U+1680, U+2000 to U+200A, U+2028, U+2029, U+202F, U+205F and U+3000 are not treated as white by `Trim` and `IsNullOrWhiteSpace`.
- Text.IsDigit accepts only ASCII digits. `Char.IsDigit` in `GuessElementFromAtomName` also accepts other Unicode decimal digits.
- Text.ToUpperChar maps only ASCII letters. The culture-dependent full Unicode `ToUpper` of `isLigand` and `GuessElementFromAtomName` (for example a dotless i) is not modelled.
- PdbRead.EndFrames: its ensures gives only the reset of idA; what frames it records is stated by PdbReadFacts.EndFramesSized.
- PdbWriteRecords.WriteMismatch: states only the empty text of a mismatched override; it is a direct consequence of the writer's first test.
- PdbWrite.ModelText: states only that each model's text opens with a MODEL line; the rest of that text is what PdbWrite.Write states.

## Findings

| source | as written | input that shows it | evidently intended | confidence | as-written member | corrected member |
|---|---|---|---|---|---|---|
| Assets/Scripts/UnityMolMolecule/UnityMolBonds.cs:155-218 | `Remove` never decrements `bondsCount` | Add(1, 2) to an empty table, then Remove(1, 2): the tables are empty again but Count is 1 | the counter drops by the number of primary entries removed | not executed | BondLemmas.AddThenRemoveKeepsCount | BondLemmas.AddThenRemoveFixed |
| Assets/Scripts/UnityMolMolecule/UnityMolBonds.cs:249-304 | `Remove(a)` with no partner clears only a's own dual row | Add(1, 2), then Remove(1): isBondedTo(2, 1) still holds | a leaves every other atom's dual row too | not executed | BondLemmas.RemoveAllLeavesReverseDual | BondLemmas.RemoveAllFixedUnbonds |
| Assets/Scripts/ParseData/PDBReader.cs:1245-1255 | `StringToInt` returns the length of the string | "12" gives 2 | it returns the number it accumulates, 12 | not executed | PdbFields.StringToInt | PdbFields.StringToIntFixed |
| Assets/Scripts/ParseData/PDBReader.cs:467-477 | the SHEET reader takes 3-column residue numbers, although the writer (line 766) writes 4 columns | the strand 1000-1004 of chain A reads back as chain "A1", residues 0 to 4 | the 4-column fields the writer writes | not executed | PdbWriteSSFacts.SheetRecordMisread | PdbWriteSSFacts.SheetRecordFixedRead |
| Assets/Scripts/ParseData/PDBReader.cs:790-803 | a HELIX/SHEET run interrupted within a chain is recorded as ending at the interrupting residue | helix ALA 1, helix GLY 2, coil SER 3: the HELIX record ends at SER 3 | the run's own last residue, GLY 2, as it already is when the run reaches the chain's end | not executed | PdbWriteSSRuns.HelixEndMisnamed | PdbWriteSSRuns.FixedChainRuns |

The as-written members describe the code as it behaves. The corrected definitions (`BondLemmas.RemoveFixedSpec`, `PdbFields.StringToIntFixed`, `PdbRead.SheetRecordFixed`, the corrected scan of `PdbWriteSSRuns`) stand beside them with the intended properties proved. The reader and writer pipelines themselves keep the behaviour as written.
