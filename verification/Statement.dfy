/** The statement a person signs for one claim: plain text with one encoding. */
module Statements {
  import opened Options
  import opened Lines
  import opened Patterns
  import opened Calendar
  import opened TimeText

  const HEADER := "NODETIDE CLAIM STATEMENT v1"
  const FOOTER_1 := "By signing I confirm that I control " + "the Nodetide identity above and that"
  const FOOTER_2 := "this claim's value is mine."
  const KEYS: seq<string> := ["Identity", "Claim", "Type", "Commitment", "Chain head", "Signed on", "Valid until"]
  const MAX_TEXT := 2048

  datatype Statement = Statement(identity: string, claimId: string, claimType: string, commitment: string,
                                 chainHead: string, signedOn: int, validUntil: int)

  function ClaimFields(s: Statement): seq<string> {
    [s.identity, s.claimId, s.claimType, s.commitment, s.chainHead]
  }

  /** The pattern of each of the five claim fields. */
  function Pattern(i: int): string -> bool {
    if i == 1 then IsClaimId else if i == 2 then IsClaimType else IsHash
  }

  predicate FieldsMatch(s: Statement) {
    forall i :: 0 <= i < 5 ==> Loosely(Pattern(i), ClaimFields(s)[i])
  }

  predicate FieldsMatchFully(s: Statement) {
    forall i :: 0 <= i < 5 ==> Pattern(i)(ClaimFields(s)[i])
  }

  function TextLines(s: Statement, signedOn: string, validUntil: string): (r: seq<string>)
    ensures |r| == 10
  {
    [HEADER] + Labelled(KEYS, ClaimFields(s) + [signedOn, validUntil]) + [FOOTER_1, FOOTER_2]
  }

  /** None where a field does not match its pattern or a time cannot be written. */
  function Build(p: Platform, s: Statement): Option<string> {
    if !FieldsMatch(s) || s.validUntil <= s.signedOn then None
    else
      var signedOn :- FormatTime(p, s.signedOn);
      var validUntil :- FormatTime(p, s.validUntil);
      Some(Join('\n', TextLines(s, signedOn, validUntil)))
  }

  /** What the lines say. */
  function ReadLines(p: Platform, lines: seq<string>): Option<Statement> {
    if |lines| != 10 || lines[0] != HEADER then None
    else
      var values :- ValuesOf(KEYS, lines[1..8]);
      var signedOn :- ParseTime(p, values[5]);
      var validUntil :- ParseTime(p, values[6]);
      Some(Statement(values[0], values[1], values[2], values[3], values[4], signedOn, validUntil))
  }

  /** None unless the text is what its fields are written as. */
  function Parse(p: Platform, text: string): Option<Statement> {
    if |text| > MAX_TEXT then None
    else
      var s :- ReadLines(p, Split('\n', text));
      if Build(p, s) == Some(text) then Some(s) else None
  }

  /** The year of a time is written with four digits. */
  predicate FourDigitYear(p: Platform, ts: int) {
    Representable(p.rule, ts) && (p.pads || MomentOf(p.rule, ts).date.year >= 1000)
  }

  predicate Clean(p: Platform, s: Statement) {
    FieldsMatchFully(s) && FourDigitYear(p, s.signedOn) && FourDigitYear(p, s.validUntil)
  }

  lemma PatternsAreOneLine(i: int, field: string)
    ensures Pattern(i)(field) ==> '\n' !in field && |field| <= 83
  {
    HashIsOneLine(field);
    ClaimIdIsOneLine(field);
    ClaimTypeIsOneLine(field);
  }

  lemma LooseFieldIsShort(i: int, field: string)
    requires Loosely(Pattern(i), field)
    ensures |field| <= 84
  {
    PatternsAreOneLine(i, field);
    if field != "" { PatternsAreOneLine(i, field[..|field| - 1]); }
  }

  lemma LinesAreShort(s: Statement, signedOn: string, validUntil: string)
    requires FieldsMatch(s) && |signedOn| <= 20 && |validUntil| <= 20
    ensures forall line <- TextLines(s, signedOn, validUntil) :: |line| <= 100
  {
    var values := ClaimFields(s) + [signedOn, validUntil];
    forall i | 0 <= i < 7 ensures |values[i]| <= 84 {
      if i < 5 { LooseFieldIsShort(i, ClaimFields(s)[i]); }
    }
    forall i | 0 <= i < 7 ensures |Labelled(KEYS, values)[i]| <= 100 {
      assert |KEYS[i]| <= 12;
    }
  }

  /** Every statement that is built fits the limit of what is parsed. */
  lemma BuiltFits(p: Platform, s: Statement)
    requires Build(p, s).Some?
    ensures |Build(p, s).value| <= 2048
  {
    var signedOn, validUntil := FormatTime(p, s.signedOn).value, FormatTime(p, s.validUntil).value;
    LinesAreShort(s, signedOn, validUntil);
    JoinLength('\n', TextLines(s, signedOn, validUntil), 10, 100);
  }

  lemma ConstantsAreOneLine()
    ensures '\n' !in HEADER && '\n' !in FOOTER_1 && '\n' !in FOOTER_2
  {
    assert '\n' !in "By signing I confirm that I control " && '\n' !in "the Nodetide identity above and that";
  }

  lemma LabelsAreOneLine()
    ensures forall i :: 0 <= i < 7 ==> '\n' !in Label(KEYS[i])
  {
  }

  lemma LabelledIsOneLine(keys: seq<string>, values: seq<string>)
    requires |keys| == |values|
    requires forall i :: 0 <= i < |keys| ==> '\n' !in Label(keys[i]) && '\n' !in values[i]
    ensures forall line <- Labelled(keys, values) :: '\n' !in line
  {
    forall i | 0 <= i < |keys| ensures '\n' !in Labelled(keys, values)[i] {
      assert '\n' !in Label(keys[i]) && '\n' !in values[i];
    }
  }

  lemma LinesAreLines(s: Statement, signedOn: string, validUntil: string)
    requires forall i :: 0 <= i < 5 ==> '\n' !in ClaimFields(s)[i]
    requires '\n' !in signedOn && '\n' !in validUntil
    ensures Split('\n', Join('\n', TextLines(s, signedOn, validUntil))) == TextLines(s, signedOn, validUntil)
  {
    var values := ClaimFields(s) + [signedOn, validUntil];
    forall i | 0 <= i < 7 ensures '\n' !in values[i] {
      assert values[i] == if i < 5 then ClaimFields(s)[i] else if i == 5 then signedOn else validUntil;
    }
    ConstantsAreOneLine();
    LabelsAreOneLine();
    LabelledIsOneLine(KEYS, values);
    SplitOfJoin('\n', TextLines(s, signedOn, validUntil));
  }

  /** The lines that are written are read back. */
  lemma LinesReadBack(p: Platform, s: Statement, signedOn: string, validUntil: string)
    ensures ReadLines(p, TextLines(s, signedOn, validUntil)) == Some(s)
       <==> ParseTime(p, signedOn) == Some(s.signedOn) && ParseTime(p, validUntil) == Some(s.validUntil)
  {
    var values, lines := ClaimFields(s) + [signedOn, validUntil], TextLines(s, signedOn, validUntil);
    assert lines[1..8] == Labelled(KEYS, values);
    ValuesOfIffLabelled(KEYS, lines[1..8], values);
  }

  lemma CleanFieldsAreOneLine(s: Statement)
    requires FieldsMatchFully(s)
    ensures forall i :: 0 <= i < 5 ==> '\n' !in ClaimFields(s)[i]
  {
    forall i | 0 <= i < 5 ensures '\n' !in ClaimFields(s)[i] { PatternsAreOneLine(i, ClaimFields(s)[i]); }
  }

  lemma CleanTimeReadsBack(p: Platform, ts: int)
    requires FourDigitYear(p, ts)
    ensures FormatTime(p, ts).Some? && '\n' !in FormatTime(p, ts).value
    ensures ParseTime(p, FormatTime(p, ts).value) == Some(ts)
  {
    TimeIsOneLine(p, ts);
    TimeReadsBack(p, ts);
  }

  lemma CleanLinesReadBack(p: Platform, s: Statement, signedOn: string, validUntil: string)
    requires FieldsMatchFully(s) && '\n' !in signedOn && '\n' !in validUntil
    requires ParseTime(p, signedOn) == Some(s.signedOn) && ParseTime(p, validUntil) == Some(s.validUntil)
    ensures ReadLines(p, Split('\n', Join('\n', TextLines(s, signedOn, validUntil)))) == Some(s)
  {
    CleanFieldsAreOneLine(s);
    LinesAreLines(s, signedOn, validUntil);
    LinesReadBack(p, s, signedOn, validUntil);
  }

  /** Fields that match fully and years of four digits are read back from what is built. */
  lemma CleanReadsBack(p: Platform, s: Statement)
    requires Build(p, s).Some? && Clean(p, s)
    ensures Parse(p, Build(p, s).value) == Some(s)
  {
    BuiltFits(p, s);
    CleanTimeReadsBack(p, s.signedOn);
    CleanTimeReadsBack(p, s.validUntil);
    CleanLinesReadBack(p, s, FormatTime(p, s.signedOn).value, FormatTime(p, s.validUntil).value);
  }

  /** What is read from lines has no line break in its fields. */
  lemma ReadFieldsAreOneLine(p: Platform, lines: seq<string>)
    requires ReadLines(p, lines).Some? && forall line <- lines :: '\n' !in line
    ensures forall i :: 0 <= i < 5 ==> '\n' !in ClaimFields(ReadLines(p, lines).value)[i]
  {
    var s := ReadLines(p, lines).value;
    var values := ValuesOf(KEYS, lines[1..8]).value;
    ValuesOfIffLabelled(KEYS, lines[1..8], values);
    forall i | 0 <= i < 5 ensures '\n' !in ClaimFields(s)[i] {
      var line := lines[1..8][i];
      assert line == lines[i + 1] && line in lines && line == Label(KEYS[i]) + values[i];
      assert ClaimFields(s)[i] == values[i];
    }
  }

  /** What is parsed is clean: its fields match fully, and its times are written with four-digit years. */
  lemma ParsedIsClean(p: Platform, text: string)
    requires Parse(p, text).Some?
    ensures Build(p, Parse(p, text).value) == Some(text) && Clean(p, Parse(p, text).value)
  {
    var s := Parse(p, text).value;
    SplitPieces('\n', text);
    ReadFieldsAreOneLine(p, Split('\n', text));
    OneLineFieldsMatchFully(s);
    var signedOn, validUntil := FormatTime(p, s.signedOn).value, FormatTime(p, s.validUntil).value;
    TimeIsOneLine(p, s.signedOn);
    TimeIsOneLine(p, s.validUntil);
    LinesAreLines(s, signedOn, validUntil);
    LinesReadBack(p, s, signedOn, validUntil);
    TimeReadsBack(p, s.signedOn);
    TimeReadsBack(p, s.validUntil);
  }

  lemma OneLineFieldsMatchFully(s: Statement)
    requires FieldsMatch(s) && forall i :: 0 <= i < 5 ==> '\n' !in ClaimFields(s)[i]
    ensures FieldsMatchFully(s)
  {
    forall i | 0 <= i < 5 ensures Pattern(i)(ClaimFields(s)[i]) {
      PatternsAreOneLine(i, ClaimFields(s)[i]);
      OneLineMatches(Pattern(i), ClaimFields(s)[i]);
    }
  }

  /**
   One encoding: a text parses to a statement exactly if it is what the statement is built as, the statement's fields
   match their patterns to the end, and its years have four digits.
   */
  lemma ParsesIffBuiltClean(p: Platform, text: string, s: Statement)
    ensures Parse(p, text) == Some(s) <==> Build(p, s) == Some(text) && Clean(p, s)
  {
    if Parse(p, text) == Some(s) { ParsedIsClean(p, text); }
    if Build(p, s) == Some(text) && Clean(p, s) { CleanReadsBack(p, s); }
  }

  lemma LinesAreFirm(s: Statement, signedOn: string, validUntil: string)
    requires forall i :: 0 <= i < 5 ==> '\n' !in ClaimFields(s)[i]
    requires '\n' !in signedOn && '\n' !in validUntil
    ensures !Gap(Join('\n', TextLines(s, signedOn, validUntil)))
  {
    var values := ClaimFields(s) + [signedOn, validUntil];
    forall i | 0 <= i < 7 ensures '\n' !in values[i] {
      assert values[i] == if i < 5 then ClaimFields(s)[i] else if i == 5 then signedOn else validUntil;
    }
    ConstantsAreOneLine();
    LabelsAreOneLine();
    LabelledIsOneLine(KEYS, values);
    forall i | 0 <= i < 7 ensures Firm(Labelled(KEYS, values)[i]) {
      assert Labelled(KEYS, values)[i] == Label(KEYS[i]) + values[i] && Labelled(KEYS, values)[i] in Labelled(KEYS, values);
      assert KEYS[i] != "" && KEYS[i][0] != ' ';
    }
    JoinOfFirm(TextLines(s, signedOn, validUntil));
  }

  /** A field that matches its pattern only loosely leaves a blank line in the text. */
  lemma LooseFieldLeavesGap(s: Statement, signedOn: string, validUntil: string, i: nat)
    requires i < 5 && Loosely(Pattern(i), ClaimFields(s)[i]) && !Pattern(i)(ClaimFields(s)[i])
    ensures Gap(Join('\n', TextLines(s, signedOn, validUntil)))
  {
    var lines := TextLines(s, signedOn, validUntil);
    assert lines[i + 1] == Label(KEYS[i]) + ClaimFields(s)[i];
    JoinHasGap(lines, i + 1);
  }

  lemma ParsedHasNoGap(p: Platform, text: string)
    requires Parse(p, text).Some?
    ensures !Gap(text)
  {
    ParsedIsClean(p, text);
    var s := Parse(p, text).value;
    CleanFieldsAreOneLine(s);
    TimeIsOneLine(p, s.signedOn);
    TimeIsOneLine(p, s.validUntil);
    LinesAreFirm(s, FormatTime(p, s.signedOn).value, FormatTime(p, s.validUntil).value);
  }

  lemma ParsedTimesAreRead(p: Platform, s: Statement, signedOn: string, validUntil: string)
    requires ReadLines(p, TextLines(s, signedOn, validUntil)).Some?
    ensures ParseTime(p, signedOn).Some? && ParseTime(p, validUntil).Some?
  {
    var values, lines := ClaimFields(s) + [signedOn, validUntil], TextLines(s, signedOn, validUntil);
    assert lines[1..8] == Labelled(KEYS, values);
    ValuesOfIffLabelled(KEYS, lines[1..8], values);
  }

  /** A statement that can be built can be read, as whatever statement, exactly if it is clean. */
  lemma BuiltParsesIffClean(p: Platform, s: Statement)
    requires Build(p, s).Some?
    ensures Parse(p, Build(p, s).value).Some? <==> Clean(p, s)
  {
    var text, signedOn, validUntil := Build(p, s).value, FormatTime(p, s.signedOn).value, FormatTime(p, s.validUntil).value;
    if Clean(p, s) {
      CleanReadsBack(p, s);
    } else if Parse(p, text).Some? {
      ParsedHasNoGap(p, text);
      forall i | 0 <= i < 5 ensures Pattern(i)(ClaimFields(s)[i]) {
        if !Pattern(i)(ClaimFields(s)[i]) { LooseFieldLeavesGap(s, signedOn, validUntil, i); }
      }
      CleanFieldsAreOneLine(s);
      TimeIsOneLine(p, s.signedOn);
      TimeIsOneLine(p, s.validUntil);
      LinesAreLines(s, signedOn, validUntil);
      ParsedTimesAreRead(p, s, signedOn, validUntil);
      TimeReadsBack(p, s.signedOn);
      TimeReadsBack(p, s.validUntil);
    }
  }

  /** So a statement that is read back is built with a line break behind its claim id too, and is then not read. */
  lemma BuiltButNotRead(p: Platform, s: Statement)
    requires Build(p, s).Some? && Clean(p, s)
    ensures var broken := s.(claimId := s.claimId + "\n");
      Build(p, broken).Some? && Parse(p, Build(p, broken).value).None?
  {
    var broken := s.(claimId := s.claimId + "\n");
    PatternsAreOneLine(1, broken.claimId);
    assert broken.claimId[..|broken.claimId| - 1] == s.claimId;
    forall i | 0 <= i < 5 ensures Loosely(Pattern(i), ClaimFields(broken)[i]) {
      if i != 1 { assert ClaimFields(broken)[i] == ClaimFields(s)[i]; }
    }
    assert !Pattern(1)(ClaimFields(broken)[1]);
    BuiltParsesIffClean(p, broken);
  }

  lemma CalendarOfStatement(pads: bool, s: Statement)
    requires FieldsMatchFully(s) && FROM_YEAR_1 <= s.signedOn < s.validUntil < TO_YEAR_9999
    ensures var p := Platform(Gregorian, pads); Build(p, s).Some? && (Clean(p, s) <==> pads || s.signedOn >= FROM_YEAR_1000)
  {
    RepresentableRange(s.signedOn);
    RepresentableRange(s.validUntil);
    forall i | 0 <= i < 5 ensures Loosely(Pattern(i), ClaimFields(s)[i]) {}
  }

  /** Statements with fields that match fully and writable times survive being written and read from year 1000 on, and
      before it exactly on platforms that pad years. */
  lemma OrdinaryStatementsReadBack(pads: bool, s: Statement)
    requires FieldsMatchFully(s) && FROM_YEAR_1 <= s.signedOn < s.validUntil < TO_YEAR_9999
    ensures var p := Platform(Gregorian, pads);
      && Build(p, s).Some?
      && Parse(p, Build(p, s).value) == if pads || s.signedOn >= FROM_YEAR_1000 then Some(s) else None
  {
    CalendarOfStatement(pads, s);
    BuiltParsesIffClean(Platform(Gregorian, pads), s);
    if pads || s.signedOn >= FROM_YEAR_1000 { CleanReadsBack(Platform(Gregorian, pads), s); }
  }

  // ---------------------------------------------------------------- the two procedures

  method BuildStatement(p: Platform, s: Statement) returns (r: Option<string>)
    ensures r == Build(p, s)
  {
    var values := [s.identity, s.claimId, s.claimType, s.commitment, s.chainHead];
    for i := 0 to 5
      invariant forall k :: 0 <= k < i ==> Loosely(Pattern(k), ClaimFields(s)[k])
    {
      if !Loosely(Pattern(i), values[i]) { return None; }
    }
    if s.validUntil <= s.signedOn { return None; }
    var signedOn, validUntil := FormatTime(p, s.signedOn), FormatTime(p, s.validUntil);
    if signedOn.None? || validUntil.None? { return None; }
    return Some(Join('\n', [HEADER] + Labelled(KEYS, values + [signedOn.value, validUntil.value]) + [FOOTER_1, FOOTER_2]));
  }

  /** Reads what stands behind the labels, line by line. */
  method ReadValues(keys: seq<string>, lines: seq<string>) returns (values: Option<seq<string>>)
    requires |keys| == |lines|
    ensures values == ValuesOf(keys, lines)
  {
    var fields := [];
    for i := 0 to |keys|
      invariant ValuesOf(keys[..i], lines[..i]) == Some(fields)
    {
      assert keys[..i + 1][..i] == keys[..i] && lines[..i + 1][..i] == lines[..i];
      if !(Label(keys[i]) <= lines[i]) {
        ValuesStop(keys, lines, i + 1);
        return None;
      }
      fields := fields + [lines[i][|Label(keys[i])|..]];
    }
    assert keys[..|keys|] == keys && lines[..|keys|] == lines;
    return Some(fields);
  }

  method ParseStatement(p: Platform, text: string) returns (r: Option<Statement>)
    ensures r == Parse(p, text)
  {
    if |text| > MAX_TEXT { return None; }
    var lines := Split('\n', text);
    if |lines| != 10 || lines[0] != HEADER { return None; }
    var fields := ReadValues(KEYS, lines[1..8]);
    if fields.None? { return None; }
    var values := fields.value;
    var signedOn, validUntil := ParseTime(p, values[5]), ParseTime(p, values[6]);
    if signedOn.None? || validUntil.None? { return None; }
    var s := Statement(values[0], values[1], values[2], values[3], values[4], signedOn.value, validUntil.value);
    var canonical := BuildStatement(p, s);
    if canonical != Some(text) { return None; }
    return Some(s);
  }
}
