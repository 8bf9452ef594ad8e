/**
 * The few Python `str` operations the core relies on, over `seq<char>`:
 * `split` on a one-character separator, `join`, `strip`, `lower`,
 * `capitalize`, `startswith` (Dafny's prefix `<=`) and `endswith`.
 * Case mapping and whitespace are those of the ASCII range.
 */
module Text {

  /** `c.isspace()` on ASCII: space, \t \n \v \f \r and the separators \x1c-\x1f. */
  predicate IsSpace(c: char) {
    c == ' ' || ('\t' <= c <= '\r') || ('\U{1C}' <= c <= '\U{1F}')
  }

  predicate IsUpper(c: char) { 'A' <= c <= 'Z' }

  predicate IsLower(c: char) { 'a' <= c <= 'z' }

  function LowerChar(c: char): char {
    if IsUpper(c) then (c as int + 32) as char else c
  }

  function UpperChar(c: char): char {
    if IsLower(c) then (c as int - 32) as char else c
  }

  /** `s.endswith(suffix)` */
  predicate EndsWith(s: string, suffix: string) {
    |suffix| <= |s| && s[|s| - |suffix|..] == suffix
  }

  /** `s.lower()`: every ASCII capital becomes its small letter, all else is kept. */
  function ToLower(s: string): (r: string)
    ensures |r| == |s|
    ensures forall i :: 0 <= i < |s| ==> r[i] == LowerChar(s[i]) && !IsUpper(r[i])
  {
    if s == [] then [] else [LowerChar(s[0])] + ToLower(s[1..])
  }

  /** `s.capitalize()`: the first character upper-cased, every later one lower-cased. */
  function Capitalize(s: string): (r: string)
    ensures |r| == |s|
    ensures |s| > 0 ==> !IsLower(r[0])
    ensures forall i :: 1 <= i < |s| ==> !IsUpper(r[i])
  {
    if s == [] then [] else [UpperChar(s[0])] + ToLower(s[1..])
  }

  function TrimStart(s: string): (r: string)
    ensures |r| <= |s|
  {
    if s != [] && IsSpace(s[0]) then TrimStart(s[1..]) else s
  }

  function TrimEnd(s: string): (r: string)
    ensures |r| <= |s|
  {
    if s != [] && IsSpace(s[|s| - 1]) then TrimEnd(s[..|s| - 1]) else s
  }

  /** `s.strip()` */
  function Strip(s: string): (r: string)
    ensures |r| <= |s|
  {
    TrimEnd(TrimStart(s))
  }

  /** `lstrip` removes a whitespace prefix and stops at the first other character. */
  lemma {:induction false} TrimStartSpec(s: string)
    ensures var r := TrimStart(s);
      r == s[|s| - |r|..] && (forall i :: 0 <= i < |s| - |r| ==> IsSpace(s[i])) && (r == [] || !IsSpace(r[0]))
    decreases |s|
  {
    if s != [] && IsSpace(s[0]) {
      TrimStartSpec(s[1..]);
    }
  }

  /** `rstrip` removes a whitespace suffix and stops at the last other character. */
  lemma {:induction false} TrimEndSpec(s: string)
    ensures var r := TrimEnd(s);
      r == s[..|r|] && (forall i :: |r| <= i < |s| ==> IsSpace(s[i])) && (r == [] || !IsSpace(r[|r| - 1]))
    decreases |s|
  {
    if s != [] && IsSpace(s[|s| - 1]) {
      TrimEndSpec(s[..|s| - 1]);
    }
  }

  /** `s.strip()` is a slice of `s` that neither starts nor ends with
      whitespace, and it is empty exactly when `s` is all whitespace. */
  lemma StripSpec(s: string)
    ensures var r := Strip(s);
      (r == [] || (!IsSpace(r[0]) && !IsSpace(r[|r| - 1]))) &&
      (r == [] <==> forall i :: 0 <= i < |s| ==> IsSpace(s[i])) &&
      r <= s[|s| - |TrimStart(s)|..]
  {
    TrimStartSpec(s);
    TrimEndSpec(TrimStart(s));
  }

  /** `s.split(sep)` for a one-character separator: never empty, and no part
      contains `sep` (so `"".split(sep) == [""]`). */
  function Split(s: string, sep: char): (parts: seq<string>)
    ensures |parts| >= 1
    ensures forall i :: 0 <= i < |parts| ==> sep !in parts[i]
    decreases |s|
  {
    if s == [] then [""]
    else
      var init := Split(s[..|s| - 1], sep);
      if s[|s| - 1] == sep then init + [""]
      else init[..|init| - 1] + [init[|init| - 1] + [s[|s| - 1]]]
  }

  /** `sep.join(parts)` */
  function Join(parts: seq<string>, sep: string): string {
    if |parts| == 0 then ""
    else if |parts| == 1 then parts[0]
    else Join(parts[..|parts| - 1], sep) + sep + parts[|parts| - 1]
  }

  /** Joining the parts of a split with the same separator gives back the text. */
  lemma {:induction false} JoinSplit(s: string, sep: char)
    ensures Join(Split(s, sep), [sep]) == s
    decreases |s|
  {
    if s != [] {
      var front := s[..|s| - 1];
      var init := Split(front, sep);
      JoinSplit(front, sep);
      if s[|s| - 1] != sep && |init| > 1 {
        var head := init[..|init| - 1];
        var parts := head + [init[|init| - 1] + [s[|s| - 1]]];
        assert parts[..|parts| - 1] == head;
      } else if s[|s| - 1] == sep {
        assert (init + [""])[..|init|] == init;
      }
      assert s == front + [s[|s| - 1]];
    }
  }

  lemma {:induction false} SplitWithoutSep(x: string, sep: char)
    requires sep !in x
    ensures Split(x, sep) == [x]
    decreases |x|
  {
    if x != [] {
      SplitWithoutSep(x[..|x| - 1], sep);
      assert x == x[..|x| - 1] + [x[|x| - 1]];
    }
  }

  lemma {:induction false} SplitAfterSep(pre: string, x: string, sep: char)
    requires sep !in x
    ensures Split(pre + [sep] + x, sep) == Split(pre, sep) + [x]
    decreases |x|
  {
    var s := pre + [sep] + x;
    if x == [] {
      assert s[..|s| - 1] == pre;
    } else {
      var x' := x[..|x| - 1];
      SplitAfterSep(pre, x', sep);
      assert s[..|s| - 1] == pre + [sep] + x';
      assert x == x' + [x[|x| - 1]];
    }
  }

  /** Splitting a join of separator-free parts gives back the parts. */
  lemma {:induction false} SplitJoin(parts: seq<string>, sep: char)
    requires |parts| >= 1
    requires forall i :: 0 <= i < |parts| ==> sep !in parts[i]
    ensures Split(Join(parts, [sep]), sep) == parts
    decreases |parts|
  {
    if |parts| == 1 {
      SplitWithoutSep(parts[0], sep);
    } else {
      var front := parts[..|parts| - 1];
      SplitJoin(front, sep);
      SplitAfterSep(Join(front, [sep]), parts[|parts| - 1], sep);
      assert parts == front + [parts[|parts| - 1]];
    }
  }

  /** The last part of a split is the text after the last separator, or the
      whole text when there is none (what Python's `s.split(sep)[-1]` gives). */
  lemma {:induction false} SplitLastPart(s: string, sep: char)
    ensures var p := Split(s, sep)[|Split(s, sep)| - 1];
      |p| <= |s| && p == s[|s| - |p|..] && (|p| == |s| || s[|s| - |p| - 1] == sep)
    decreases |s|
  {
    if s != [] {
      var front := s[..|s| - 1];
      SplitLastPart(front, sep);
      var init := Split(front, sep);
      if s[|s| - 1] != sep {
        var parts := Split(s, sep);
        assert parts[|parts| - 1] == init[|init| - 1] + [s[|s| - 1]];
        assert s == front + [s[|s| - 1]];
      }
    }
  }

  /** A text made only of separators splits into one more empty part than it
      has characters. */
  lemma {:induction false} SplitOnlySeps(s: string, sep: char)
    requires forall i :: 0 <= i < |s| ==> s[i] == sep
    ensures |Split(s, sep)| == |s| + 1
    ensures forall k :: 0 <= k < |Split(s, sep)| ==> Split(s, sep)[k] == ""
    decreases |s|
  {
    if s != [] {
      SplitOnlySeps(s[..|s| - 1], sep);
    }
  }
}
