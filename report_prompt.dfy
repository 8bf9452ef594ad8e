/**
 * The report commenter's prompt: the six inputs, verbatim and in parameter
 * order, separated by blank lines. The same builder appears in two files of
 * the source with the same text; this one function stands for both.
 */
module ReportPrompt {
  import opened Text

  const Blank: string := "\n\n"

  /** `create_llm_prompt` */
  function CreateLlmPrompt(studentData: string, csvDescription: string, instructions: string,
                           warmth: string, constructiveness: string, usePronouns: string): (p: string)
    ensures |p| == |studentData| + |csvDescription| + |instructions| + |warmth|
                   + |constructiveness| + |usePronouns| + 10
    ensures studentData <= p && EndsWith(p, usePronouns)
  {
    Framed6(studentData, csvDescription, instructions, warmth, constructiveness, usePronouns);
    studentData + Blank + csvDescription + Blank + instructions + Blank + warmth + Blank
      + constructiveness + Blank + usePronouns
  }

  /** The offsets at which six texts separated by blank lines stand. */
  lemma Framed6(a: string, b: string, c: string, d: string, e: string, f: string)
    ensures var p := a + Blank + b + Blank + c + Blank + d + Blank + e + Blank + f;
      var ob := |a| + 2;
      var oc := ob + |b| + 2;
      var od := oc + |c| + 2;
      var oe := od + |d| + 2;
      var of := oe + |e| + 2;
      |p| == of + |f| &&
      p[..|a|] == a && p[ob..ob + |b|] == b && p[oc..oc + |c|] == c &&
      p[od..od + |d|] == d && p[oe..oe + |e|] == e && p[of..] == f
  {
  }

  /** Every field is inserted verbatim, at the offset given by the lengths of
      the fields before it and a blank line after each of them. */
  lemma FieldsVerbatim(studentData: string, csvDescription: string, instructions: string,
                       warmth: string, constructiveness: string, usePronouns: string)
    ensures var p := CreateLlmPrompt(studentData, csvDescription, instructions, warmth, constructiveness, usePronouns);
      var ob := |studentData| + 2;
      var oc := ob + |csvDescription| + 2;
      var od := oc + |instructions| + 2;
      var oe := od + |warmth| + 2;
      var of := oe + |constructiveness| + 2;
      p[..|studentData|] == studentData && p[ob..ob + |csvDescription|] == csvDescription &&
      p[oc..oc + |instructions|] == instructions && p[od..od + |warmth|] == warmth &&
      p[oe..oe + |constructiveness|] == constructiveness && p[of..] == usePronouns
  {
  }

  /** The prompt is the six fields joined by a blank line. */
  lemma PromptIsJoinOfFields(studentData: string, csvDescription: string, instructions: string,
                             warmth: string, constructiveness: string, usePronouns: string)
    ensures CreateLlmPrompt(studentData, csvDescription, instructions, warmth, constructiveness, usePronouns)
      == Join([studentData, csvDescription, instructions, warmth, constructiveness, usePronouns], Blank)
  {
    var f1 := [studentData];
    var f2 := f1 + [csvDescription];
    var f3 := f2 + [instructions];
    var f4 := f3 + [warmth];
    var f5 := f4 + [constructiveness];
    var f6 := f5 + [usePronouns];
    assert f2[..1] == f1 && f3[..2] == f2 && f4[..3] == f3 && f5[..4] == f4 && f6[..5] == f5;
    assert Join(f2, Blank) == studentData + Blank + csvDescription;
    assert Join(f3, Blank) == Join(f2, Blank) + Blank + instructions;
    assert Join(f4, Blank) == Join(f3, Blank) + Blank + warmth;
    assert Join(f5, Blank) == Join(f4, Blank) + Blank + constructiveness;
    assert Join(f6, Blank) == Join(f5, Blank) + Blank + usePronouns;
    assert f6 == [studentData, csvDescription, instructions, warmth, constructiveness, usePronouns];
  }
}
