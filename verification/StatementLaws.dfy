/** The text of both kinds of statements, line by line, and which statements have one. */
module StatementLaws {
  import opened Options
  import opened Sorting
  import opened Text
  import opened Lines
  import opened Patterns
  import opened Calendar
  import opened TimeText
  import opened Statements
  import opened NotaryStatements

  // ---------------------------------------------------------------- claim statements

  /** A statement is built exactly if every field fits its pattern, the times can be written, and it ends after it begins. */
  lemma BuildsExactly(p: Platform, s: Statement)
    ensures Build(p, s).Some?
       <==> Loosely(IsHash, s.identity) && Loosely(IsClaimId, s.claimId) && Loosely(IsClaimType, s.claimType)
            && Loosely(IsHash, s.commitment) && Loosely(IsHash, s.chainHead)
            && s.signedOn < s.validUntil && Representable(p.rule, s.signedOn) && Representable(p.rule, s.validUntil)
  {
    var fields := ClaimFields(s);
    assert Pattern(0) == IsHash && Pattern(1) == IsClaimId && Pattern(2) == IsClaimType && Pattern(3) == IsHash;
    assert Pattern(4) == IsHash && fields[0] == s.identity && fields[1] == s.claimId && fields[2] == s.claimType;
    assert fields[3] == s.commitment && fields[4] == s.chainHead;
  }

  /** A statement is written as its ten lines. */
  lemma TextIsItsLines(p: Platform, s: Statement)
    requires Build(p, s).Some?
    ensures Build(p, s) == Some(Join('\n', TextLines(s, FormatTime(p, s.signedOn).value, FormatTime(p, s.validUntil).value)))
  {
  }

  lemma FieldLine(s: Statement, signedOn: string, validUntil: string, k: nat)
    requires k < 7
    ensures TextLines(s, signedOn, validUntil)[k + 1] == Label(KEYS[k]) + (ClaimFields(s) + [signedOn, validUntil])[k]
  {
  }

  /** What stands on each line. */
  lemma LinesAreWritten(s: Statement, signedOn: string, validUntil: string)
    ensures var lines := TextLines(s, signedOn, validUntil);
      && lines[1] == "Identity: " + s.identity && lines[2] == "Claim: " + s.claimId && lines[3] == "Type: " + s.claimType
      && lines[4] == "Commitment: " + s.commitment && lines[5] == "Chain head: " + s.chainHead
      && lines[6] == "Signed on: " + signedOn && lines[7] == "Valid until: " + validUntil
  {
    LabelsAreWritten();
    forall k | 0 <= k < 7 { FieldLine(s, signedOn, validUntil, k); }
    var lines := TextLines(s, signedOn, validUntil);
    assert lines[1] == Label(KEYS[0]) + s.identity && lines[2] == Label(KEYS[1]) + s.claimId;
  }

  lemma LabelsAreWritten()
    ensures Label(KEYS[0]) == "Identity: " && Label(KEYS[1]) == "Claim: " && Label(KEYS[2]) == "Type: "
    ensures Label(KEYS[3]) == "Commitment: " && Label(KEYS[4]) == "Chain head: "
    ensures Label(KEYS[5]) == "Signed on: " && Label(KEYS[6]) == "Valid until: "
  {
  }

  lemma HeadAndFootAreWritten(s: Statement, signedOn: string, validUntil: string)
    ensures var lines := TextLines(s, signedOn, validUntil);
      && lines[0] == "NODETIDE CLAIM STATEMENT v1"
      && lines[8] == "By signing I confirm that I control " + "the Nodetide identity above and that"
      && lines[9] == "this claim's value is mine."
  {
  }

  // ---------------------------------------------------------------- notary statements

  /** Claims come by id, then type, then commitment, each by code points. */
  lemma OrderedByTriple(a: Claim, b: Claim)
    ensures ByTriple(a, b)
       <==> (a.id != b.id && ByCodePoint(a.id, b.id))
            || (a.id == b.id && a.kind != b.kind && ByCodePoint(a.kind, b.kind))
            || (a.id == b.id && a.kind == b.kind && ByCodePoint(a.commitment, b.commitment))
  {
  }

  /** A notary statement is built exactly if its hashes and one to five claims fit their patterns, no claim id is given
      twice, the times can be written, and it ends after it begins. */
  lemma BuildsNotaryExactly(p: Platform, s: NotaryStatement)
    ensures BuildNotary(p, s).Some?
       <==> Loosely(IsHash, s.identity) && Loosely(IsHash, s.notary) && Loosely(IsHash, s.chainHead)
            && s.signedOn < s.validUntil && Representable(p.rule, s.signedOn) && Representable(p.rule, s.validUntil)
            && 1 <= |s.claims| <= 5
            && (forall c <- s.claims :: Loosely(IsClaimId, c.id) && Loosely(IsHash, c.commitment)
                                        && (c.kind == "legal_name" || c.kind == "birthdate" || c.kind == "age_over_18"))
            && (forall i, j :: 0 <= i < j < |s.claims| ==> s.claims[i].id != s.claims[j].id)
  {
    IdsOnceEitherWay(s.claims, Sort(ByTriple, s.claims));
    BuildsIfAcceptable(p, s);
    AcceptableExactly(s);
  }

  lemma BuildsIfAcceptable(p: Platform, s: NotaryStatement)
    ensures BuildNotary(p, s).Some?
       <==> Acceptable(s) && NoClaimTwice(Sort(ByTriple, s.claims)) && Representable(p.rule, s.signedOn)
            && Representable(p.rule, s.validUntil)
  {
  }

  lemma AcceptableExactly(s: NotaryStatement)
    ensures Acceptable(s)
       <==> Loosely(IsHash, s.identity) && Loosely(IsHash, s.notary) && Loosely(IsHash, s.chainHead)
            && s.signedOn < s.validUntil && 1 <= |s.claims| <= 5
            && forall c <- s.claims :: Loosely(IsClaimId, c.id) && Loosely(IsHash, c.commitment)
                                       && (c.kind == "legal_name" || c.kind == "birthdate" || c.kind == "age_over_18")
  {
    FieldsOf(s);
    forall c <- s.claims { NotarizableKinds(c.kind); }
  }

  lemma NotarizableKinds(kind: string)
    ensures kind in NOTARIZABLE <==> kind == "legal_name" || kind == "birthdate" || kind == "age_over_18"
  {
  }

  lemma FieldsOf(s: NotaryStatement)
    ensures (forall field <- HashFields(s) :: Loosely(IsHash, field))
       <==> Loosely(IsHash, s.identity) && Loosely(IsHash, s.notary) && Loosely(IsHash, s.chainHead)
  {
    assert s.identity in HashFields(s) && s.notary in HashFields(s) && s.chainHead in HashFields(s);
  }

  /** Whether ids are distinct does not depend on the order. */
  lemma IdsOnce(a: seq<Claim>, b: seq<Claim>)
    requires multiset(a) == multiset(b) && NoClaimTwice(a)
    ensures NoClaimTwice(b)
  {
    SameElements(a, b);
    SameElementsOnce(b, a);
    forall i, j | 0 <= i < j < |b| ensures b[i].id != b[j].id {
      assert b[i] in a && b[j] in a;
    }
  }

  lemma IdsOnceEitherWay(a: seq<Claim>, b: seq<Claim>)
    requires multiset(a) == multiset(b)
    ensures NoClaimTwice(a) <==> NoClaimTwice(b)
  {
    if NoClaimTwice(a) { IdsOnce(a, b); }
    if NoClaimTwice(b) { IdsOnce(b, a); }
  }

  lemma NotaryTextIsItsLines(p: Platform, s: NotaryStatement)
    requires BuildNotary(p, s).Some?
    ensures BuildNotary(p, s) == Some(Join('\n', NotaryLines(HashFields(s), Sort(ByTriple, s.claims),
                                                            FormatTime(p, s.signedOn).value, FormatTime(p, s.validUntil).value)))
  {
  }

  lemma NotaryFieldLine(fields: seq<string>, claims: seq<Claim>, signedOn: string, validUntil: string, k: nat)
    requires |fields| == 3 && k < 5
    ensures NotaryLines(fields, claims, signedOn, validUntil)[k + 1]
         == Label(NOTARY_KEYS[k]) + (fields + [signedOn, validUntil])[k]
  {
  }

  lemma NotaryClaimLine(fields: seq<string>, claims: seq<Claim>, signedOn: string, validUntil: string, k: nat)
    requires |fields| == 3 && k < |claims|
    ensures NotaryLines(fields, claims, signedOn, validUntil)[k + 6] == ClaimLine(claims[k])
  {
  }

  /** What stands on each line: the fields, then the claims in order. */
  lemma NotaryLinesAreWritten(s: NotaryStatement, claims: seq<Claim>, signedOn: string, validUntil: string)
    ensures var lines := NotaryLines(HashFields(s), claims, signedOn, validUntil);
      && |lines| == 8 + |claims|
      && lines[1] == "Identity: " + s.identity && lines[2] == "Notary: " + s.notary && lines[3] == "Chain head: " + s.chainHead
      && lines[4] == "Signed on: " + signedOn && lines[5] == "Valid until: " + validUntil
      && forall k :: 0 <= k < |claims| ==> lines[k + 6] == ClaimLine(claims[k])
  {
    NotaryLabelsAreWritten();
    forall k | 0 <= k < 5 { NotaryFieldLine(HashFields(s), claims, signedOn, validUntil, k); }
    forall k | 0 <= k < |claims| { NotaryClaimLine(HashFields(s), claims, signedOn, validUntil, k); }
    var lines := NotaryLines(HashFields(s), claims, signedOn, validUntil);
    assert lines[1] == Label(NOTARY_KEYS[0]) + s.identity && lines[2] == Label(NOTARY_KEYS[1]) + s.notary;
  }

  lemma NotaryLabelsAreWritten()
    ensures Label(NOTARY_KEYS[0]) == "Identity: " && Label(NOTARY_KEYS[1]) == "Notary: "
    ensures Label(NOTARY_KEYS[2]) == "Chain head: " && Label(NOTARY_KEYS[3]) == "Signed on: "
    ensures Label(NOTARY_KEYS[4]) == "Valid until: "
  {
  }

  lemma ClaimLineIsWritten(c: Claim)
    ensures ClaimLine(c) == "Claim: " + c.id + " " + c.kind + " " + c.commitment
  {
  }

  lemma NotaryHeadAndFootAreWritten(s: NotaryStatement, claims: seq<Claim>, signedOn: string, validUntil: string)
    ensures var lines := NotaryLines(HashFields(s), claims, signedOn, validUntil); var n := |claims| + 6;
      && lines[0] == "NODETIDE NOTARY STATEMENT v1"
      && lines[n] == "By signing I ask the notary above to " + ("attest ONLY the claims " + "listed here. It may read my")
      && lines[n + 1] == "certificate for that purpose only, " + "and must not keep it or pass it on."
  {
  }
}
