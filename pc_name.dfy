/** The form schema of the SmartPC builder: the rules on the PC name, and the
    other fields, which accept any string. The schema runs every rule of a
    field and reports each one that fails, in the order they are declared. */
module PcName {

  /** The rules a PC name can fail. */
  datatype Issue = Required | TooLong | BadPattern

  function Message(issue: Issue): string {
    match issue
    case Required => "PC name is required"
    case TooLong => "PC name must be at most 50 characters"
    case BadPattern =>
      "PC name can only contain letters, numbers, dash (-), underscore (_), and no spaces or consecutive special characters"
  }

  /** `[A-Za-z0-9_-]`. */
  predicate NameChar(ch: char) {
    ('A' <= ch <= 'Z') || ('a' <= ch <= 'z') || ('0' <= ch <= '9') || ch == '_' || ch == '-'
  }

  /** `[_-]`. */
  predicate Separator(ch: char) {
    ch == '_' || ch == '-'
  }

  /** `/^(?![_-])(?!.*[_-]{2})[A-Za-z0-9_-]+(?<![_-])$/`, read rule by rule:
      at least one allowed character, no separator first (the first lookahead)
      or last (the lookbehind), and no two separators side by side (the second
      lookahead; `.` cannot cross a line break, but no allowed character is one). */
  predicate MatchesPattern(s: string) {
    && |s| >= 1
    && (forall i :: 0 <= i < |s| ==> NameChar(s[i]))
    && !Separator(s[0])
    && !Separator(s[|s| - 1])
    && (forall i :: 0 <= i < |s| - 1 ==> !(Separator(s[i]) && Separator(s[i + 1])))
  }

  /** The issues reported for a PC name: `min(1)`, `max(50)`, then the pattern. */
  function NameIssues(name: string): (issues: seq<Issue>)
    ensures Required in issues <==> |name| < 1
    ensures TooLong in issues <==> |name| > 50
    ensures BadPattern in issues <==> !MatchesPattern(name)
  {
    (if |name| < 1 then [Required] else [])
    + (if |name| > 50 then [TooLong] else [])
    + (if !MatchesPattern(name) then [BadPattern] else [])
  }

  /** The builder form's values. */
  datatype FormValues = FormValues(pcName: string, operatingSystem: string, cpu: string, storage: string, region: string)

  /** Every issue of the form: only the PC name has rules. */
  function FormIssues(v: FormValues): (issues: seq<Issue>)
    ensures issues == [] <==> NameIssues(v.pcName) == []
  {
    NameIssues(v.pcName)
  }

  /** The schema accepts the values. */
  predicate Accepted(v: FormValues) {
    FormIssues(v) == []
  }

  // ---------------------------------------------------------------------------
  // Properties

  /** An accepted PC name is 1 to 50 allowed characters, neither starts nor ends
      with `-` or `_`, and has no two of them side by side; and every such name
      is accepted. */
  lemma AcceptedNames(name: string)
    ensures NameIssues(name) == []
        <==> && 1 <= |name| <= 50
             && (forall i :: 0 <= i < |name| ==> NameChar(name[i]))
             && !Separator(name[0]) && !Separator(name[|name| - 1])
             && (forall i :: 0 <= i < |name| - 1 ==> !(Separator(name[i]) && Separator(name[i + 1])))
  {
    if NameIssues(name) != [] {
      var issue := NameIssues(name)[0];
      assert issue in NameIssues(name);
    }
  }

  /** An accepted name has no space and no character outside the class. */
  lemma AcceptedNameHasNoSpace(name: string)
    requires NameIssues(name) == []
    ensures ' ' !in name
  {
    assert MatchesPattern(name) by {
      assert BadPattern !in NameIssues(name);
    }
    forall i | 0 <= i < |name| ensures name[i] != ' ' {
      assert NameChar(name[i]);
    }
  }

  /** The empty name fails both the length minimum and the pattern; an overlong
      name fails the maximum whatever its characters. */
  lemma EmptyAndLongNames(name: string)
    ensures NameIssues("") == [Required, BadPattern]
    ensures |name| > 50 ==> TooLong in NameIssues(name) && Required !in NameIssues(name)
  {
  }

  /** The other fields take any string: changing them never changes acceptance. */
  lemma OtherFieldsAnyString(v: FormValues, os: string, cpu: string, storage: string, region: string)
    ensures Accepted(v) <==> Accepted(FormValues(v.pcName, os, cpu, storage, region))
  {
  }
}
