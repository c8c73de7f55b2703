/** The statement that asks one notary to attest some claims: the claims are sorted, and the text has one encoding. */
module NotaryStatements {
  import opened Options
  import opened Sorting
  import opened Text
  import opened Lines
  import opened Patterns
  import opened Calendar
  import opened TimeText
  import opened Statements

  const NOTARY_HEADER := "NODETIDE NOTARY STATEMENT v1"
  const NOTARY_FOOTER_1 := "By signing I ask the notary above to " + ("attest ONLY the claims " + "listed here. It may read my")
  const NOTARY_FOOTER_2 := "certificate for that purpose only, " + "and must not keep it or pass it on."
  const NOTARY_KEYS: seq<string> := ["Identity", "Notary", "Chain head", "Signed on", "Valid until"]
  const NOTARIZABLE: seq<string> := ["legal_name", "birthdate", "age_over_18"]
  const MAX_CLAIMS := 5
  const MAX_NOTARY_TEXT := 4096

  datatype Claim = Claim(id: string, kind: string, commitment: string)

  datatype NotaryStatement = NotaryStatement(identity: string, notary: string, chainHead: string, signedOn: int,
                                             validUntil: int, claims: seq<Claim>)

  /** Triples compare by their first difference. */
  predicate FirstDifference(le: (string, string) -> bool, a: Claim, b: Claim) {
    if a.id != b.id then le(a.id, b.id)
    else if a.kind != b.kind then le(a.kind, b.kind)
    else le(a.commitment, b.commitment)
  }

  predicate ByTriple(a: Claim, b: Claim) {
    FirstDifference(ByCodePoint, a, b)
  }

  lemma ByTripleIsTotalOrder()
    ensures TotalOrder(ByTriple)
  {
    ByCodePointIsTotalOrder();
    forall a, b, c | ByTriple(a, b) && ByTriple(b, c) ensures ByTriple(a, c) {
      TripleTransitive(ByCodePoint, a, b, c);
    }
    forall a, b ensures ByTriple(a, b) || ByTriple(b, a) {}
    forall a, b | ByTriple(a, b) && ByTriple(b, a) ensures a == b {}
  }

  lemma TripleTransitive(le: (string, string) -> bool, a: Claim, b: Claim, c: Claim)
    requires TotalOrder(le) && FirstDifference(le, a, b) && FirstDifference(le, b, c)
    ensures FirstDifference(le, a, c)
  {
  }

  function HashFields(s: NotaryStatement): seq<string> {
    [s.identity, s.notary, s.chainHead]
  }

  predicate ClaimMatches(c: Claim) {
    Loosely(IsClaimId, c.id) && c.kind in NOTARIZABLE && Loosely(IsHash, c.commitment)
  }

  predicate ClaimMatchesFully(c: Claim) {
    IsClaimId(c.id) && c.kind in NOTARIZABLE && IsHash(c.commitment)
  }

  function ClaimLine(c: Claim): string {
    "Claim:" + ([' '] + (c.id + ([' '] + (c.kind + ([' '] + c.commitment)))))
  }

  function ClaimLines(claims: seq<Claim>): seq<string> {
    seq(|claims|, i requires 0 <= i < |claims| => ClaimLine(claims[i]))
  }

  function NotaryLines(fields: seq<string>, claims: seq<Claim>, signedOn: string, validUntil: string): (r: seq<string>)
    requires |fields| == 3
    ensures |r| == 8 + |claims|
  {
    [NOTARY_HEADER] + Labelled(NOTARY_KEYS, fields + [signedOn, validUntil])
    + (ClaimLines(claims) + [NOTARY_FOOTER_1, NOTARY_FOOTER_2])
  }

  predicate Acceptable(s: NotaryStatement) {
    && (forall field <- HashFields(s) :: Loosely(IsHash, field))
    && s.signedOn < s.validUntil
    && 1 <= |s.claims| <= MAX_CLAIMS
    && (forall c <- s.claims :: ClaimMatches(c))
  }

  predicate NoClaimTwice(ordered: seq<Claim>) {
    forall i, j :: 0 <= i < j < |ordered| ==> ordered[i].id != ordered[j].id
  }

  function BuildNotary(p: Platform, s: NotaryStatement): Option<string> {
    var ordered := Sort(ByTriple, s.claims);
    if !Acceptable(s) || !NoClaimTwice(ordered) then None
    else
      var signedOn :- FormatTime(p, s.signedOn);
      var validUntil :- FormatTime(p, s.validUntil);
      Some(Join('\n', NotaryLines(HashFields(s), ordered, signedOn, validUntil)))
  }

  function ReadClaim(line: string): Option<Claim> {
    var parts := Split(' ', line);
    if |parts| == 4 && parts[0] == "Claim:" then Some(Claim(parts[1], parts[2], parts[3])) else None
  }

  function ReadClaims(lines: seq<string>): (r: Option<seq<Claim>>)
    ensures r.Some? ==> |r.value| == |lines|
  {
    if lines == [] then Some([])
    else
      var before :- ReadClaims(lines[..|lines| - 1]);
      var c :- ReadClaim(lines[|lines| - 1]);
      Some(before + [c])
  }

  function ReadNotary(p: Platform, lines: seq<string>): Option<NotaryStatement> {
    if |lines| < 9 || lines[0] != NOTARY_HEADER then None
    else
      var values :- ValuesOf(NOTARY_KEYS, lines[1..6]);
      var claims :- ReadClaims(lines[6..|lines| - 2]);
      var signedOn :- ParseTime(p, values[3]);
      var validUntil :- ParseTime(p, values[4]);
      Some(NotaryStatement(values[0], values[1], values[2], signedOn, validUntil, claims))
  }

  function ParseNotary(p: Platform, text: string): Option<NotaryStatement> {
    if |text| > MAX_NOTARY_TEXT then None
    else
      var s :- ReadNotary(p, Split('\n', text));
      if BuildNotary(p, s) == Some(text) then Some(s) else None
  }

  // ---------------------------------------------------------------- the order of the claims does not matter

  /** The text does not depend on the order the claims are given in. */
  lemma ClaimOrderIsIgnored(p: Platform, s: NotaryStatement, claims: seq<Claim>)
    requires multiset(claims) == multiset(s.claims)
    ensures BuildNotary(p, s.(claims := claims)) == BuildNotary(p, s)
  {
    ByTripleIsTotalOrder();
    SortIgnoresArrivalOrder(ByTriple, claims, s.claims);
    AcceptableIgnoresOrder(s, claims);
    SameLines(p, s, claims);
  }

  lemma AcceptableIgnoresOrder(s: NotaryStatement, claims: seq<Claim>)
    requires multiset(claims) == multiset(s.claims)
    ensures Acceptable(s.(claims := claims)) <==> Acceptable(s)
  {
    SameElements(claims, s.claims);
    assert |claims| == |multiset(claims)| == |s.claims|;
  }

  lemma SameLines(p: Platform, s: NotaryStatement, claims: seq<Claim>)
    requires Sort(ByTriple, claims) == Sort(ByTriple, s.claims) && (Acceptable(s.(claims := claims)) <==> Acceptable(s))
    ensures BuildNotary(p, s.(claims := claims)) == BuildNotary(p, s)
  {
    assert HashFields(s.(claims := claims)) == HashFields(s);
  }

  // ---------------------------------------------------------------- reading claims back

  /** A claim's line is read back exactly if none of its parts holds a space. */
  lemma ClaimReadsBack(c: Claim)
    requires ' ' !in c.id && ' ' !in c.kind && ' ' !in c.commitment
    ensures ReadClaim(ClaimLine(c)) == Some(c)
  {
    ClaimLineIsJoin(c);
    SplitOfJoin(' ', ["Claim:", c.id, c.kind, c.commitment]);
  }

  lemma ClaimLineIsJoin(c: Claim)
    ensures ClaimLine(c) == Join(' ', ["Claim:", c.id, c.kind, c.commitment])
  {
    var one, two, three := [c.commitment], [c.kind, c.commitment], [c.id, c.kind, c.commitment];
    assert two[1..] == one && Join(' ', two) == c.kind + ([' '] + c.commitment);
    assert three[1..] == two && Join(' ', three) == c.id + ([' '] + Join(' ', two));
    assert ["Claim:", c.id, c.kind, c.commitment][1..] == three;
  }

  predicate Spaceless(c: Claim) {
    ' ' !in c.id && ' ' !in c.kind && ' ' !in c.commitment
  }

  lemma {:induction false} ClaimsReadBack(claims: seq<Claim>)
    requires forall c <- claims :: Spaceless(c)
    ensures ReadClaims(ClaimLines(claims)) == Some(claims)
  {
    if claims != [] {
      var n := |claims| - 1;
      ClaimsReadBack(claims[..n]);
      assert ClaimLines(claims)[..n] == ClaimLines(claims[..n]);
      assert claims[n] in claims;
      ClaimReadsBack(claims[n]);
      assert claims == claims[..n] + [claims[n]];
    }
  }

  /** The parts of a claim read from a line are parts of the line, and hold no space. */
  lemma ReadClaimParts(line: string)
    requires ReadClaim(line).Some?
    ensures ClaimLine(ReadClaim(line).value) == line && Spaceless(ReadClaim(line).value)
  {
    var parts := Split(' ', line);
    SplitPieces(' ', line);
    JoinOfSplit(' ', line);
    assert parts == ["Claim:", parts[1], parts[2], parts[3]];
    ClaimLineIsJoin(ReadClaim(line).value);
  }

  lemma {:induction false} ReadClaimsParts(lines: seq<string>)
    requires ReadClaims(lines).Some?
    ensures ClaimLines(ReadClaims(lines).value) == lines && forall c <- ReadClaims(lines).value :: Spaceless(c)
  {
    if lines != [] {
      var n := |lines| - 1;
      ReadClaimsParts(lines[..n]);
      ReadClaimParts(lines[n]);
      var before := ReadClaims(lines[..n]).value;
      assert ClaimLines(before + [ReadClaim(lines[n]).value])[..n] == ClaimLines(before);
      assert lines == lines[..n] + [lines[n]];
    }
  }

  // ---------------------------------------------------------------- one encoding

  predicate CleanNotary(p: Platform, s: NotaryStatement) {
    && (forall field <- HashFields(s) :: IsHash(field))
    && (forall c <- s.claims :: ClaimMatchesFully(c))
    && FourDigitYear(p, s.signedOn) && FourDigitYear(p, s.validUntil)
  }

  predicate OneLineClaim(c: Claim) {
    '\n' !in c.id && '\n' !in c.kind && '\n' !in c.commitment
  }

  lemma FullClaimIsOneLine(c: Claim)
    requires ClaimMatchesFully(c)
    ensures OneLineClaim(c) && Spaceless(c)
  {
    ClaimIdIsOneLine(c.id);
    HashIsOneLine(c.commitment);
    HashHasNoSpace(c.commitment);
  }

  lemma ClaimLineIsOneLine(c: Claim)
    ensures OneLineClaim(c) <==> '\n' !in ClaimLine(c)
  {
  }

  lemma ClaimLineIsShort(c: Claim)
    requires ClaimMatches(c)
    ensures |ClaimLine(c)| <= 151
  {
  }

  lemma NotaryHeaderIsOneLine()
    ensures '\n' !in NOTARY_HEADER
  {
  }

  lemma NotaryFooter1IsOneLine()
    ensures '\n' !in NOTARY_FOOTER_1
  {
    assert '\n' !in "By signing I ask the notary above to ";
    assert '\n' !in "attest ONLY the claims " && '\n' !in "listed here. It may read my";
  }

  lemma NotaryFooter2IsOneLine()
    ensures '\n' !in NOTARY_FOOTER_2
  {
    assert '\n' !in "certificate for that purpose only, " && '\n' !in "and must not keep it or pass it on.";
  }

  lemma NotaryLabelsAreOneLine()
    ensures forall i :: 0 <= i < 5 ==> '\n' !in Label(NOTARY_KEYS[i])
  {
  }

  lemma NotaryLinesAreLines(s: NotaryStatement, claims: seq<Claim>, signedOn: string, validUntil: string)
    requires (forall field <- HashFields(s) :: '\n' !in field) && '\n' !in signedOn && '\n' !in validUntil
    requires forall c <- claims :: OneLineClaim(c)
    ensures Split('\n', Join('\n', NotaryLines(HashFields(s), claims, signedOn, validUntil)))
         == NotaryLines(HashFields(s), claims, signedOn, validUntil)
  {
    var values := HashFields(s) + [signedOn, validUntil];
    forall i | 0 <= i < 5 ensures '\n' !in values[i] {
      assert values[i] == if i < 3 then HashFields(s)[i] else if i == 3 then signedOn else validUntil;
    }
    NotaryHeaderIsOneLine();
    NotaryFooter1IsOneLine();
    NotaryFooter2IsOneLine();
    NotaryLabelsAreOneLine();
    LabelledIsOneLine(NOTARY_KEYS, values);
    forall i | 0 <= i < |claims| ensures '\n' !in ClaimLines(claims)[i] {
      assert claims[i] in claims;
      ClaimLineIsOneLine(claims[i]);
    }
    SplitOfJoin('\n', NotaryLines(HashFields(s), claims, signedOn, validUntil));
  }

  lemma NotaryLinesReadBack(p: Platform, s: NotaryStatement, claims: seq<Claim>, signedOn: string, validUntil: string)
    requires claims != [] && forall c <- claims :: Spaceless(c)
    ensures ReadNotary(p, NotaryLines(HashFields(s), claims, signedOn, validUntil)) == Some(s.(claims := claims))
       <==> ParseTime(p, signedOn) == Some(s.signedOn) && ParseTime(p, validUntil) == Some(s.validUntil)
    ensures ReadNotary(p, NotaryLines(HashFields(s), claims, signedOn, validUntil)).Some?
       ==> ReadNotary(p, NotaryLines(HashFields(s), claims, signedOn, validUntil)).value.claims == claims
  {
    var values, lines := HashFields(s) + [signedOn, validUntil], NotaryLines(HashFields(s), claims, signedOn, validUntil);
    assert lines[1..6] == Labelled(NOTARY_KEYS, values);
    ValuesOfIffLabelled(NOTARY_KEYS, lines[1..6], values);
    assert lines[6..|lines| - 2] == ClaimLines(claims);
    ClaimsReadBack(claims);
  }

  lemma NotaryLinesAreShort(s: NotaryStatement, claims: seq<Claim>, signedOn: string, validUntil: string)
    requires (forall field <- HashFields(s) :: Loosely(IsHash, field)) && |signedOn| <= 20 && |validUntil| <= 20
    requires forall c <- claims :: ClaimMatches(c)
    ensures forall line <- NotaryLines(HashFields(s), claims, signedOn, validUntil) :: |line| <= 151
  {
    var values := HashFields(s) + [signedOn, validUntil];
    forall i | 0 <= i < 5 ensures |Labelled(NOTARY_KEYS, values)[i]| <= 151 {
      assert values[i] == if i < 3 then HashFields(s)[i] else if i == 3 then signedOn else validUntil;
      if i < 3 { assert HashFields(s)[i] in HashFields(s); }
      assert |values[i]| <= 65 && |NOTARY_KEYS[i]| <= 12;
    }
    forall i | 0 <= i < |claims| ensures |ClaimLines(claims)[i]| <= 151 {
      assert claims[i] in claims;
      ClaimLineIsShort(claims[i]);
    }
  }

  lemma SortedMembers(claims: seq<Claim>)
    ensures multiset(Sort(ByTriple, claims)) == multiset(claims) && |Sort(ByTriple, claims)| == |claims|
    ensures forall c :: c in Sort(ByTriple, claims) <==> c in claims
  {
    SameElements(Sort(ByTriple, claims), claims);
  }

  /** Every notary statement that is built fits the limit of what is parsed. */
  lemma NotaryFits(p: Platform, s: NotaryStatement)
    requires BuildNotary(p, s).Some?
    ensures |BuildNotary(p, s).value| <= 4096
  {
    SortedMembers(s.claims);
    NotaryLinesFit(s, Sort(ByTriple, s.claims), FormatTime(p, s.signedOn).value, FormatTime(p, s.validUntil).value);
  }

  lemma NotaryLinesFit(s: NotaryStatement, claims: seq<Claim>, signedOn: string, validUntil: string)
    requires (forall field <- HashFields(s) :: Loosely(IsHash, field)) && |signedOn| <= 20 && |validUntil| <= 20
    requires |claims| <= MAX_CLAIMS && forall c <- claims :: ClaimMatches(c)
    ensures |Join('\n', NotaryLines(HashFields(s), claims, signedOn, validUntil))| <= MAX_NOTARY_TEXT
  {
    NotaryLinesAreShort(s, claims, signedOn, validUntil);
    JoinLength('\n', NotaryLines(HashFields(s), claims, signedOn, validUntil), 13, 151);
  }

  lemma CleanNotaryLinesReadBack(p: Platform, s: NotaryStatement, claims: seq<Claim>, signedOn: string, validUntil: string)
    requires (forall field <- HashFields(s) :: IsHash(field)) && claims != [] && forall c <- claims :: ClaimMatchesFully(c)
    requires '\n' !in signedOn && '\n' !in validUntil
    requires ParseTime(p, signedOn) == Some(s.signedOn) && ParseTime(p, validUntil) == Some(s.validUntil)
    ensures ReadNotary(p, Split('\n', Join('\n', NotaryLines(HashFields(s), claims, signedOn, validUntil))))
         == Some(s.(claims := claims))
  {
    forall field | field in HashFields(s) ensures '\n' !in field { HashIsOneLine(field); }
    forall c | c in claims ensures OneLineClaim(c) && Spaceless(c) { FullClaimIsOneLine(c); }
    NotaryLinesAreLines(s, claims, signedOn, validUntil);
    NotaryLinesReadBack(p, s, claims, signedOn, validUntil);
  }

  /** What is built of clean fields is read back with the claims sorted. */
  lemma CleanNotaryReadsBack(p: Platform, s: NotaryStatement)
    requires BuildNotary(p, s).Some? && CleanNotary(p, s)
    ensures ParseNotary(p, BuildNotary(p, s).value) == Some(s.(claims := Sort(ByTriple, s.claims)))
  {
    var ordered := Sort(ByTriple, s.claims);
    SortedMembers(s.claims);
    CleanTimeReadsBack(p, s.signedOn);
    CleanTimeReadsBack(p, s.validUntil);
    CleanNotaryLinesReadBack(p, s, ordered, FormatTime(p, s.signedOn).value, FormatTime(p, s.validUntil).value);
    NotaryFits(p, s);
    ClaimOrderIsIgnored(p, s, ordered);
  }

  /** What is read from lines has no line break in its fields, and no space in its claims. */
  lemma ReadNotaryIsOneLine(p: Platform, lines: seq<string>)
    requires ReadNotary(p, lines).Some? && forall line <- lines :: '\n' !in line
    ensures forall field <- HashFields(ReadNotary(p, lines).value) :: '\n' !in field
    ensures forall c <- ReadNotary(p, lines).value.claims :: OneLineClaim(c) && Spaceless(c)
  {
    var s := ReadNotary(p, lines).value;
    var values := ValuesOf(NOTARY_KEYS, lines[1..6]).value;
    ValuesOfIffLabelled(NOTARY_KEYS, lines[1..6], values);
    forall i | 0 <= i < 3 ensures '\n' !in HashFields(s)[i] {
      var line := lines[1..6][i];
      assert line == lines[i + 1] && line in lines && line == Label(NOTARY_KEYS[i]) + values[i];
      assert HashFields(s)[i] == values[i];
    }
    var body := lines[6..|lines| - 2];
    ReadClaimsParts(body);
    forall i | 0 <= i < |body| ensures OneLineClaim(s.claims[i]) {
      assert body[i] == lines[i + 6] && body[i] in lines && ClaimLines(s.claims)[i] == body[i];
      ClaimLineIsOneLine(s.claims[i]);
    }
  }

  lemma OneLineNotaryMatchesFully(s: NotaryStatement)
    requires Acceptable(s) && (forall field <- HashFields(s) :: '\n' !in field) && forall c <- s.claims :: OneLineClaim(c)
    ensures (forall field <- HashFields(s) :: IsHash(field)) && forall c <- s.claims :: ClaimMatchesFully(c)
  {
    forall field | field in HashFields(s) ensures IsHash(field) {
      HashIsOneLine(field);
      OneLineMatches(IsHash, field);
    }
    forall c | c in s.claims ensures ClaimMatchesFully(c) {
      ClaimIdIsOneLine(c.id);
      HashIsOneLine(c.commitment);
      OneLineMatches(IsClaimId, c.id);
      OneLineMatches(IsHash, c.commitment);
    }
  }

  /** What is parsed is clean, and its claims are sorted. */
  lemma ParsedNotaryIsClean(p: Platform, text: string)
    requires ParseNotary(p, text).Some?
    ensures var s := ParseNotary(p, text).value;
      BuildNotary(p, s) == Some(text) && CleanNotary(p, s) && s.claims == Sort(ByTriple, s.claims)
  {
    var s := ParseNotary(p, text).value;
    SplitPieces('\n', text);
    ReadNotaryIsOneLine(p, Split('\n', text));
    OneLineNotaryMatchesFully(s);
    ParsedNotaryTimes(p, s, text);
  }

  lemma ParsedNotaryTimes(p: Platform, s: NotaryStatement, text: string)
    requires BuildNotary(p, s) == Some(text) && ReadNotary(p, Split('\n', text)) == Some(s)
    requires (forall field <- HashFields(s) :: '\n' !in field) && forall c <- s.claims :: OneLineClaim(c) && Spaceless(c)
    ensures FourDigitYear(p, s.signedOn) && FourDigitYear(p, s.validUntil) && s.claims == Sort(ByTriple, s.claims)
  {
    var ordered := Sort(ByTriple, s.claims);
    var signedOn, validUntil := FormatTime(p, s.signedOn).value, FormatTime(p, s.validUntil).value;
    SortedMembers(s.claims);
    TimeIsOneLine(p, s.signedOn);
    TimeIsOneLine(p, s.validUntil);
    NotaryLinesAreLines(s, ordered, signedOn, validUntil);
    NotaryLinesReadBack(p, s, ordered, signedOn, validUntil);
    TimeReadsBack(p, s.signedOn);
    TimeReadsBack(p, s.validUntil);
  }

  /**
   One encoding: a text parses to a notary statement exactly if the statement is built as that text, its fields match
   their patterns to the end, its years have four digits, and its claims stand in order.
   */
  lemma NotaryParsesIffBuiltClean(p: Platform, text: string, s: NotaryStatement)
    ensures ParseNotary(p, text) == Some(s)
       <==> BuildNotary(p, s) == Some(text) && CleanNotary(p, s) && s.claims == Sort(ByTriple, s.claims)
  {
    if ParseNotary(p, text) == Some(s) { ParsedNotaryIsClean(p, text); }
    if BuildNotary(p, s) == Some(text) && CleanNotary(p, s) && s.claims == Sort(ByTriple, s.claims) {
      CleanNotaryReadsBack(p, s);
    }
  }

  lemma NotaryLinesAreFirm(s: NotaryStatement, claims: seq<Claim>, signedOn: string, validUntil: string)
    requires (forall field <- HashFields(s) :: '\n' !in field) && '\n' !in signedOn && '\n' !in validUntil
    requires forall c <- claims :: OneLineClaim(c)
    ensures !Gap(Join('\n', NotaryLines(HashFields(s), claims, signedOn, validUntil)))
  {
    var values := HashFields(s) + [signedOn, validUntil];
    forall i | 0 <= i < 5 ensures '\n' !in values[i] {
      assert values[i] == if i < 3 then HashFields(s)[i] else if i == 3 then signedOn else validUntil;
    }
    LabelledAreFirm(values);
    forall i | 0 <= i < |claims| ensures Firm(ClaimLines(claims)[i]) {
      assert claims[i] in claims;
      ClaimLineIsOneLine(claims[i]);
    }
    NotaryHeaderIsOneLine();
    NotaryFooter1IsOneLine();
    NotaryFooter2IsOneLine();
    JoinOfFirm(NotaryLines(HashFields(s), claims, signedOn, validUntil));
  }

  lemma LabelledAreFirm(values: seq<string>)
    requires |values| == 5 && forall i :: 0 <= i < 5 ==> '\n' !in values[i]
    ensures forall line <- Labelled(NOTARY_KEYS, values) :: Firm(line)
  {
    NotaryLabelsAreOneLine();
    LabelledIsOneLine(NOTARY_KEYS, values);
    forall i | 0 <= i < 5 ensures Firm(Labelled(NOTARY_KEYS, values)[i]) {
      assert Labelled(NOTARY_KEYS, values)[i] in Labelled(NOTARY_KEYS, values);
      assert NOTARY_KEYS[i] != "" && NOTARY_KEYS[i][0] != ' ';
    }
  }

  /** A field or a claim that matches only loosely leaves a blank or an indented line in the text. */
  lemma LooseHashLeavesGap(s: NotaryStatement, claims: seq<Claim>, signedOn: string, validUntil: string, i: nat)
    requires i < 3 && Loosely(IsHash, HashFields(s)[i]) && !IsHash(HashFields(s)[i])
    ensures Gap(Join('\n', NotaryLines(HashFields(s), claims, signedOn, validUntil)))
  {
    var lines := NotaryLines(HashFields(s), claims, signedOn, validUntil);
    assert lines[i + 1] == Label(NOTARY_KEYS[i]) + HashFields(s)[i];
    JoinHasGap(lines, i + 1);
  }

  lemma LooseClaimLeavesGap(s: NotaryStatement, claims: seq<Claim>, signedOn: string, validUntil: string, k: nat)
    requires k < |claims| && ClaimMatches(claims[k]) && !ClaimMatchesFully(claims[k])
    ensures Gap(Join('\n', NotaryLines(HashFields(s), claims, signedOn, validUntil)))
  {
    var lines, c := NotaryLines(HashFields(s), claims, signedOn, validUntil), claims[k];
    assert lines[k + 6] == ClaimLine(c);
    if IsClaimId(c.id) { BrokenCommitment(c); } else { BrokenId(c); }
    JoinHasGap(lines, k + 6);
  }

  lemma BrokenId(c: Claim)
    requires c.id != "" && c.id[|c.id| - 1] == '\n'
    ensures Gap(ClaimLine(c))
  {
    var line, at := ClaimLine(c), 6 + |c.id|;
    assert line[at] == '\n' && line[at + 1] == ' ';
  }

  lemma BrokenCommitment(c: Claim)
    requires c.commitment != "" && c.commitment[|c.commitment| - 1] == '\n'
    ensures ClaimLine(c) != "" && ClaimLine(c)[|ClaimLine(c)| - 1] == '\n'
  {
  }

  lemma ParsedNotaryHasNoGap(p: Platform, text: string)
    requires ParseNotary(p, text).Some?
    ensures !Gap(text)
  {
    ParsedNotaryIsClean(p, text);
    var s := ParseNotary(p, text).value;
    forall field | field in HashFields(s) ensures '\n' !in field { HashIsOneLine(field); }
    forall c | c in s.claims ensures OneLineClaim(c) { FullClaimIsOneLine(c); }
    TimeIsOneLine(p, s.signedOn);
    TimeIsOneLine(p, s.validUntil);
    NotaryLinesAreFirm(s, s.claims, FormatTime(p, s.signedOn).value, FormatTime(p, s.validUntil).value);
  }

  lemma GaplessMatchesFully(p: Platform, s: NotaryStatement)
    requires BuildNotary(p, s).Some? && !Gap(BuildNotary(p, s).value)
    ensures (forall field <- HashFields(s) :: IsHash(field)) && forall c <- s.claims :: ClaimMatchesFully(c)
  {
    var ordered := Sort(ByTriple, s.claims);
    var signedOn, validUntil := FormatTime(p, s.signedOn).value, FormatTime(p, s.validUntil).value;
    SortedMembers(s.claims);
    forall i | 0 <= i < 3 ensures IsHash(HashFields(s)[i]) {
      if !IsHash(HashFields(s)[i]) { LooseHashLeavesGap(s, ordered, signedOn, validUntil, i); }
    }
    forall k | 0 <= k < |ordered| ensures ClaimMatchesFully(ordered[k]) {
      if !ClaimMatchesFully(ordered[k]) { LooseClaimLeavesGap(s, ordered, signedOn, validUntil, k); }
    }
  }

  lemma ParsedNotaryTimesAreRead(p: Platform, s: NotaryStatement, claims: seq<Claim>, signedOn: string, validUntil: string)
    requires ReadNotary(p, NotaryLines(HashFields(s), claims, signedOn, validUntil)).Some?
    ensures ParseTime(p, signedOn).Some? && ParseTime(p, validUntil).Some?
  {
    var values, lines := HashFields(s) + [signedOn, validUntil], NotaryLines(HashFields(s), claims, signedOn, validUntil);
    assert lines[1..6] == Labelled(NOTARY_KEYS, values);
    ValuesOfIffLabelled(NOTARY_KEYS, lines[1..6], values);
  }

  /** A notary statement that can be built can be read, as whatever statement, exactly if it is clean. */
  lemma BuiltNotaryParsesIffClean(p: Platform, s: NotaryStatement)
    requires BuildNotary(p, s).Some?
    ensures ParseNotary(p, BuildNotary(p, s).value).Some? <==> CleanNotary(p, s)
  {
    var text := BuildNotary(p, s).value;
    if CleanNotary(p, s) {
      CleanNotaryReadsBack(p, s);
    } else if ParseNotary(p, text).Some? {
      ParsedNotaryHasNoGap(p, text);
      GaplessMatchesFully(p, s);
      ReadTimesHaveFourDigits(p, s);
    }
  }

  lemma ReadTimesHaveFourDigits(p: Platform, s: NotaryStatement)
    requires BuildNotary(p, s).Some? && ParseNotary(p, BuildNotary(p, s).value).Some?
    requires (forall field <- HashFields(s) :: IsHash(field)) && forall c <- s.claims :: ClaimMatchesFully(c)
    ensures FourDigitYear(p, s.signedOn) && FourDigitYear(p, s.validUntil)
  {
    var ordered := Sort(ByTriple, s.claims);
    var signedOn, validUntil := FormatTime(p, s.signedOn).value, FormatTime(p, s.validUntil).value;
    SortedMembers(s.claims);
    forall field | field in HashFields(s) ensures '\n' !in field { HashIsOneLine(field); }
    forall c | c in ordered ensures OneLineClaim(c) { FullClaimIsOneLine(c); }
    TimeIsOneLine(p, s.signedOn);
    TimeIsOneLine(p, s.validUntil);
    NotaryLinesAreLines(s, ordered, signedOn, validUntil);
    ParsedNotaryTimesAreRead(p, s, ordered, signedOn, validUntil);
    TimeReadsBack(p, s.signedOn);
    TimeReadsBack(p, s.validUntil);
  }

  /** So a statement that is read back is built with a line break behind its chain head too, and is then not read. */
  lemma BuiltNotaryButNotRead(p: Platform, s: NotaryStatement)
    requires BuildNotary(p, s).Some? && CleanNotary(p, s)
    ensures var broken := s.(chainHead := s.chainHead + "\n");
      BuildNotary(p, broken).Some? && ParseNotary(p, BuildNotary(p, broken).value).None?
  {
    var broken := s.(chainHead := s.chainHead + "\n");
    assert s.chainHead in HashFields(s) && s.identity in HashFields(s) && s.notary in HashFields(s);
    assert broken.chainHead[..|broken.chainHead| - 1] == s.chainHead;
    assert broken.chainHead in HashFields(broken) && !IsHash(broken.chainHead);
    BuiltNotaryParsesIffClean(p, broken);
  }

  /** Statements with fields that match fully and writable times survive being written and read from year 1000 on, and
      before it exactly on platforms that pad years. */
  lemma OrdinaryNotaryReadsBack(pads: bool, s: NotaryStatement)
    requires (forall field <- HashFields(s) :: IsHash(field)) && (forall c <- s.claims :: ClaimMatchesFully(c))
    requires 1 <= |s.claims| <= MAX_CLAIMS && NoClaimTwice(Sort(ByTriple, s.claims))
    requires FROM_YEAR_1 <= s.signedOn < s.validUntil < TO_YEAR_9999
    ensures var p := Platform(Gregorian, pads);
      && BuildNotary(p, s).Some?
      && ParseNotary(p, BuildNotary(p, s).value)
         == if pads || s.signedOn >= FROM_YEAR_1000 then Some(s.(claims := Sort(ByTriple, s.claims))) else None
  {
    var p := Platform(Gregorian, pads);
    RepresentableRange(s.signedOn);
    RepresentableRange(s.validUntil);
    BuiltNotaryParsesIffClean(p, s);
    if CleanNotary(p, s) { CleanNotaryReadsBack(p, s); }
  }

  // ---------------------------------------------------------------- the two procedures

  method BuildNotaryStatement(p: Platform, s: NotaryStatement) returns (r: Option<string>)
    ensures r == BuildNotary(p, s)
  {
    var ordered := Sort(ByTriple, s.claims);
    var ok := CheckNotary(s, ordered);
    if !ok { return None; }
    var signedOn, validUntil := FormatTime(p, s.signedOn), FormatTime(p, s.validUntil);
    if signedOn.None? || validUntil.None? { return None; }
    var lines := WriteLines(HashFields(s), ordered, signedOn.value, validUntil.value);
    return Some(Join('\n', lines));
  }

  method CheckNotary(s: NotaryStatement, ordered: seq<Claim>) returns (ok: bool)
    requires ordered == Sort(ByTriple, s.claims)
    ensures ok <==> Acceptable(s) && NoClaimTwice(ordered)
  {
    if !Loosely(IsHash, s.identity) || !Loosely(IsHash, s.notary) || !Loosely(IsHash, s.chainHead) {
      assert s.identity in HashFields(s) && s.notary in HashFields(s) && s.chainHead in HashFields(s);
      return false;
    }
    if s.validUntil <= s.signedOn || !(1 <= |s.claims| <= MAX_CLAIMS) || !NoClaimTwice(ordered) { return false; }
    SortedMembers(s.claims);
    ok := CheckClaims(ordered);
  }

  method CheckClaims(claims: seq<Claim>) returns (ok: bool)
    ensures ok <==> forall c <- claims :: ClaimMatches(c)
  {
    for i := 0 to |claims|
      invariant forall k :: 0 <= k < i ==> ClaimMatches(claims[k])
    {
      if !ClaimMatches(claims[i]) {
        assert claims[i] in claims;
        return false;
      }
    }
    return true;
  }

  method WriteLines(fields: seq<string>, ordered: seq<Claim>, signedOn: string, validUntil: string)
    returns (lines: seq<string>)
    requires |fields| == 3
    ensures lines == NotaryLines(fields, ordered, signedOn, validUntil)
  {
    var claims: seq<string> := [];
    for i := 0 to |ordered|
      invariant claims == ClaimLines(ordered[..i])
    {
      claims := claims + [ClaimLine(ordered[i])];
      assert ClaimLines(ordered[..i + 1]) == claims;
    }
    assert ordered[..|ordered|] == ordered;
    lines := [NOTARY_HEADER] + Labelled(NOTARY_KEYS, fields + [signedOn, validUntil])
             + (claims + [NOTARY_FOOTER_1, NOTARY_FOOTER_2]);
  }

  method ReadClaimLines(lines: seq<string>) returns (r: Option<seq<Claim>>)
    ensures r == ReadClaims(lines)
  {
    var claims: seq<Claim> := [];
    for i := 0 to |lines|
      invariant ReadClaims(lines[..i]) == Some(claims)
    {
      assert lines[..i + 1][..i] == lines[..i];
      var c := ReadClaim(lines[i]);
      if c.None? {
        ReadClaimsStop(lines, i + 1);
        return None;
      }
      claims := claims + [c.value];
    }
    assert lines[..|lines|] == lines;
    return Some(claims);
  }

  lemma {:induction false} ReadClaimsStop(lines: seq<string>, n: nat)
    requires n <= |lines| && ReadClaims(lines[..n]).None?
    ensures ReadClaims(lines).None?
    decreases |lines|
  {
    if n == |lines| {
      assert lines[..n] == lines;
    } else {
      assert lines[..|lines| - 1][..n] == lines[..n];
      ReadClaimsStop(lines[..|lines| - 1], n);
    }
  }

  method ParseNotaryStatement(p: Platform, text: string) returns (r: Option<NotaryStatement>)
    ensures r == ParseNotary(p, text)
  {
    if |text| > MAX_NOTARY_TEXT { return None; }
    var lines := Split('\n', text);
    if |lines| < 9 || lines[0] != NOTARY_HEADER { return None; }
    var values := ValuesOf(NOTARY_KEYS, lines[1..6]);
    var claims := ReadClaimLines(lines[6..|lines| - 2]);
    if values.None? || claims.None? { return None; }
    var signedOn, validUntil := ParseTime(p, values.value[3]), ParseTime(p, values.value[4]);
    if signedOn.None? || validUntil.None? { return None; }
    var s := NotaryStatement(values.value[0], values.value[1], values.value[2], signedOn.value, validUntil.value, claims.value);
    var canonical := BuildNotaryStatement(p, s);
    if canonical != Some(text) { return None; }
    return Some(s);
  }
}
