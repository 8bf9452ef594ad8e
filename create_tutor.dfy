/**
 * The "Create AI Tutor" button of the tutor-building page: a new tutor is
 * added only when all three fields are filled in and its name is not taken;
 * the outcome is shown by a banner, and a created tutor becomes the
 * session's current tutor. The widgets are replaced by the three texts they
 * hold; the stored table is a field that a write replaces.
 */
module CreateTutor {
  import opened Wrappers
  import opened TutorData

  /** The banner values the button sets: 'success', 'missing info', 'name exists'. */
  datatype Banner = SuccessBanner | MissingInfo | NameExists

  /** The banner a press of the button leads to. */
  function CreateOutcome(table: seq<Tutor>, name: string, instructions: string, guidelines: string): (b: Banner)
    ensures b == MissingInfo <==> name == "" || instructions == "" || guidelines == ""
    ensures b == NameExists <==> name != "" && instructions != "" && guidelines != "" && HasName(table, name)
    ensures b == SuccessBanner <==> name != "" && instructions != "" && guidelines != "" && !HasName(table, name)
  {
    if name != "" && instructions != "" && guidelines != "" then
      if HasName(table, name) then NameExists else SuccessBanner
    else MissingInfo
  }

  /** The table after a press: one row more at the end on success, the same
      table otherwise. */
  function AfterCreate(table: seq<Tutor>, name: string, instructions: string, guidelines: string): (t: seq<Tutor>)
    ensures table <= t && |t| <= |table| + 1
    ensures |t| == |table| + 1 <==> CreateOutcome(table, name, instructions, guidelines) == SuccessBanner
    ensures CreateOutcome(table, name, instructions, guidelines) == SuccessBanner ==>
      t == table + [Tutor(name, instructions, guidelines)]
  {
    if CreateOutcome(table, name, instructions, guidelines) == SuccessBanner
    then table + [Tutor(name, instructions, guidelines)]
    else table
  }

  /** No two rows share a name. */
  predicate UniqueNames(table: seq<Tutor>) {
    forall i, j :: 0 <= i < j < |table| ==> table[i].name != table[j].name
  }

  /** Creating a tutor keeps the names unique. */
  lemma CreateKeepsNamesUnique(table: seq<Tutor>, name: string, instructions: string, guidelines: string)
    requires UniqueNames(table)
    ensures UniqueNames(AfterCreate(table, name, instructions, guidelines))
  {
  }

  /** After a successful create, the lookup by the new name finds the new row. */
  lemma CreatedTutorIsSelected(table: seq<Tutor>, name: string, instructions: string, guidelines: string)
    requires CreateOutcome(table, name, instructions, guidelines) == SuccessBanner
    ensures SelectInstructions(AfterCreate(table, name, instructions, guidelines), name)
      == Success((instructions, guidelines))
  {
    var t := AfterCreate(table, name, instructions, guidelines);
    var r := SelectInstructions(t, name);
    assert t[|table|].name == name;
    var i :| 0 <= i < |t| && t[i].name == name
      && (forall j :: 0 <= j < i ==> t[j].name != name)
      && r.value == (t[i].instructions, t[i].guidelines);
    assert i == |table|;
  }

  /** The page's state: the table it read, the table last written to
      storage, and the session's banner, instructions, guidelines and tool
      name. */
  class CreateTutorPage {
    var tutors: seq<Tutor>
    var stored: seq<Tutor>
    var banner: Option<Banner>
    var instructions: Option<string>
    var guidelines: Option<string>
    var toolName: Option<string>

    /** The first run of the page, with the stored table read in. */
    constructor (storedTable: seq<Tutor>)
      ensures tutors == storedTable && stored == storedTable && banner == None
      ensures instructions == None && guidelines == None && toolName == None
    {
      tutors := storedTable;
      stored := storedTable;
      banner := None;
      instructions := None;
      guidelines := None;
      toolName := None;
    }

    /** A press of "Create AI Tutor" with the three fields' contents. */
    method CreateAiTutor(newName: string, newInstr: string, newGuide: string)
      modifies this
      ensures banner == Some(CreateOutcome(old(tutors), newName, newInstr, newGuide))
      ensures tutors == AfterCreate(old(tutors), newName, newInstr, newGuide)
      ensures banner == Some(SuccessBanner) ==>
        stored == tutors && instructions == Some(newInstr) && guidelines == Some(newGuide) && toolName == Some(newName)
      ensures banner != Some(SuccessBanner) ==>
        stored == old(stored) && instructions == old(instructions)
        && guidelines == old(guidelines) && toolName == old(toolName)
    {
      if newName != "" && newInstr != "" && newGuide != "" {
        if HasName(tutors, newName) {
          banner := Some(NameExists);
        } else {
          var table := tutors;
          tutors := tutors + [Tutor(newName, newInstr, newGuide)];
          stored := tutors;
          CreatedTutorIsSelected(table, newName, newInstr, newGuide);
          var selected := SelectInstructions(tutors, newName);
          instructions, guidelines := Some(selected.value.0), Some(selected.value.1);
          toolName := Some(newName);
          banner := Some(SuccessBanner);
        }
      } else {
        banner := Some(MissingInfo);
      }
    }
  }
}
