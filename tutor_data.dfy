/**
 * The table of AI tutors, held in memory as a sequence of rows (the CSV
 * file it is read from and written to is not part of this model), and the
 * lookup of a tutor's instructions and guidelines by name.
 */
module TutorData {
  import opened Wrappers

  /** One row of the table: the columns Name, Instructions and Guidelines. */
  datatype Tutor = Tutor(name: string, instructions: string, guidelines: string)

  /** The exception the lookup raises when no row matches: its error path
      names a variable that is never defined. */
  datatype LookupError = NameError

  predicate HasName(table: seq<Tutor>, name: string) {
    exists i :: 0 <= i < |table| && table[i].name == name
  }

  /** `select_instructions`: the Instructions and Guidelines of the first row
      whose Name equals `toolName` exactly; a `NameError` when there is none. */
  function SelectInstructions(table: seq<Tutor>, toolName: string): (r: Result<(string, string), LookupError>)
    ensures r.Failure? <==> !HasName(table, toolName)
    ensures r.Success? ==>
      (exists i :: 0 <= i < |table| && table[i].name == toolName
        && (forall j :: 0 <= j < i ==> table[j].name != toolName)
        && r.value == (table[i].instructions, table[i].guidelines))
    decreases |table|
  {
    if table == [] then Failure(NameError)
    else if table[0].name == toolName then Success((table[0].instructions, table[0].guidelines))
    else
      assert forall i :: 1 <= i < |table| ==> table[i] == table[1..][i - 1];
      SelectInstructions(table[1..], toolName)
  }

  /** Rows appended after a matching row do not change what the lookup returns. */
  lemma SelectIgnoresLaterRows(table: seq<Tutor>, more: seq<Tutor>, toolName: string)
    requires HasName(table, toolName)
    ensures SelectInstructions(table + more, toolName) == SelectInstructions(table, toolName)
  {
    var r := SelectInstructions(table, toolName);
    var r' := SelectInstructions(table + more, toolName);
    var i :| 0 <= i < |table| && table[i].name == toolName
      && (forall j :: 0 <= j < i ==> table[j].name != toolName)
      && r.value == (table[i].instructions, table[i].guidelines);
    assert (table + more)[i] == table[i];
    var i' :| 0 <= i' < |table + more| && (table + more)[i'].name == toolName
      && (forall j :: 0 <= j < i' ==> (table + more)[j].name != toolName)
      && r'.value == ((table + more)[i'].instructions, (table + more)[i'].guidelines);
    assert i' <= i;
  }
}
