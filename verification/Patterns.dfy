/** The field patterns of statements, and how a pattern that ends in `$` matches. */
module Patterns {

  predicate HexDigit(c: char) {
    '0' <= c <= '9' || 'a' <= c <= 'f'
  }

  predicate IsHash(s: string) {
    |s| == 64 && forall c <- s :: HexDigit(c)
  }

  predicate ClaimIdChar(c: char) {
    'A' <= c <= 'Z' || 'a' <= c <= 'z' || '0' <= c <= '9' || c == '_' || c == '-'
  }

  predicate IsClaimId(s: string) {
    16 <= |s| <= 64 && forall c <- s :: ClaimIdChar(c)
  }

  predicate Lower(c: char) {
    'a' <= c <= 'z'
  }

  predicate LowerDigit(c: char) {
    Lower(c) || '0' <= c <= '9'
  }

  /** A plain name, or a namespaced one: `x-`, a namespace, a colon and a name. */
  predicate IsClaimType(s: string) {
    || (1 <= |s| <= 32 && forall c <- s :: Lower(c) || c == '_')
    || (exists k :: 3 <= k <= 34 && IsNamespaced(s, k))
  }

  predicate IsNamespaced(s: string, colon: int) {
    && 3 <= colon < |s| && 1 <= |s| - colon - 1 <= 48
    && s[0] == 'x' && s[1] == '-' && s[colon] == ':'
    && (forall c <- s[2..colon] :: LowerDigit(c))
    && (forall c <- s[colon + 1..] :: LowerDigit(c) || c == '_')
  }

  /** `$` also matches before a newline that ends the text. */
  predicate Loosely(full: string -> bool, s: string) {
    full(s) || (s != "" && s[|s| - 1] == '\n' && full(s[..|s| - 1]))
  }

  /** A text without line breaks matches loosely exactly if it matches fully. */
  lemma OneLineMatches(full: string -> bool, s: string)
    requires full(s) ==> '\n' !in s
    ensures Loosely(full, s) && '\n' !in s <==> full(s)
  {
    if s != "" { assert s[|s| - 1] in s; }
  }

  lemma HashIsOneLine(s: string)
    ensures IsHash(s) ==> '\n' !in s
  {
    if '\n' in s { assert !HexDigit('\n'); }
  }

  lemma ClaimIdIsOneLine(s: string)
    ensures IsClaimId(s) ==> '\n' !in s && ' ' !in s
  {
    if '\n' in s { assert !ClaimIdChar('\n'); }
    if ' ' in s { assert !ClaimIdChar(' '); }
  }

  lemma HashHasNoSpace(s: string)
    ensures IsHash(s) ==> ' ' !in s
  {
    if ' ' in s { assert !HexDigit(' '); }
  }

  lemma ClaimTypeIsOneLine(s: string)
    ensures IsClaimType(s) ==> '\n' !in s && |s| <= 83
  {
    if k :| 3 <= k <= 34 && IsNamespaced(s, k) {
      forall i | 0 <= i < |s| ensures s[i] != '\n' {
        if 2 <= i < k { assert s[i] == s[2..k][i - 2] && s[i] in s[2..k] && LowerDigit(s[i]); }
        if k < i { assert s[i] == s[k + 1..][i - k - 1] && s[i] in s[k + 1..] && (LowerDigit(s[i]) || s[i] == '_'); }
        assert i == 0 || i == 1 || 2 <= i < k || i == k || k < i;
      }
    }
  }

  // ---------------------------------------------------------------- the patterns, position by position

  lemma HashExactly(s: string)
    ensures IsHash(s) <==> |s| == 64 && forall i :: 0 <= i < 64 && 0 <= i < |s| ==> s[i] in "0123456789abcdef"
  {
    if IsHash(s) { assert forall i | 0 <= i < |s| :: s[i] in s; }
    forall c: char ensures HexDigit(c) <==> c in "0123456789abcdef" { HexDigitListed(c); }
  }

  lemma HexDigitListed(c: char)
    ensures HexDigit(c) <==> c in "0123456789abcdef"
  {
    var hex := "0123456789abcdef";
    if '0' <= c <= '9' { assert hex[c as int - 48] == c; }
    if 'a' <= c <= 'f' { assert hex[c as int - 87] == c; }
  }

  lemma ClaimIdExactly(s: string)
    ensures IsClaimId(s) <==> 16 <= |s| <= 64 && forall i :: 0 <= i < |s| ==>
      65 <= s[i] as int <= 90 || 97 <= s[i] as int <= 122 || 48 <= s[i] as int <= 57 || s[i] == '_' || s[i] == '-'
  {
    if IsClaimId(s) { assert forall i | 0 <= i < |s| :: s[i] in s; }
    if forall i :: 0 <= i < |s| ==> ClaimIdChar(s[i]) {
      forall c | c in s ensures ClaimIdChar(c) { var i :| 0 <= i < |s| && s[i] == c; }
    }
  }

  /** A text of a length between the bounds, of characters of a class. */
  ghost predicate Repeats(s: string, allowed: char -> bool, least: nat, most: nat) {
    least <= |s| <= most && forall i :: 0 <= i < |s| ==> allowed(s[i])
  }

  predicate PlainChar(c: char) {
    97 <= c as int <= 122 || c == '_'
  }

  predicate SpaceChar(c: char) {
    97 <= c as int <= 122 || 48 <= c as int <= 57
  }

  predicate NameChar(c: char) {
    SpaceChar(c) || c == '_'
  }

  ghost predicate Namespaced(s: string, space: string, name: string) {
    Repeats(space, SpaceChar, 1, 32) && Repeats(name, NameChar, 1, 48) && s == "x-" + space + ":" + name
  }

  /** A plain name, or a namespace and a name. */
  lemma ClaimTypeExactly(s: string)
    ensures IsClaimType(s) == (Repeats(s, PlainChar, 1, 32) || exists space, name :: Namespaced(s, space, name))
  {
    PlainExactly(s);
    if k :| 3 <= k <= 34 && IsNamespaced(s, k) { SplitsAtColon(s, k); }
    if space, name :| Namespaced(s, space, name) { JoinsAtColon(s, space, name); }
  }

  lemma PlainExactly(s: string)
    ensures (1 <= |s| <= 32 && forall c <- s :: Lower(c) || c == '_') == Repeats(s, PlainChar, 1, 32)
  {
    if forall c <- s :: Lower(c) || c == '_' { assert forall i | 0 <= i < |s| :: s[i] in s; }
    if Repeats(s, PlainChar, 1, 32) { MembersRepeat(s, PlainChar); }
  }

  lemma SplitsAtColon(s: string, k: int)
    requires 3 <= k <= 34 && IsNamespaced(s, k)
    ensures Namespaced(s, s[2..k], s[k + 1..])
  {
    var space, name := s[2..k], s[k + 1..];
    forall i | 0 <= i < |space| ensures SpaceChar(space[i]) { assert space[i] in space && LowerDigit(space[i]); }
    forall i | 0 <= i < |name| ensures NameChar(name[i]) {
      assert name[i] in name && (LowerDigit(name[i]) || name[i] == '_');
    }
    assert s == "x-" + space + ":" + name;
  }

  lemma JoinsAtColon(s: string, space: string, name: string)
    requires Namespaced(s, space, name)
    ensures 3 <= |space| + 2 <= 34 && IsNamespaced(s, |space| + 2)
  {
    var k := |space| + 2;
    assert s[2..k] == space && s[k + 1..] == name && s[k] == ':' && s[0] == 'x' && s[1] == '-';
    MembersRepeat(space, SpaceChar);
    MembersRepeat(name, NameChar);
  }

  lemma MembersRepeat(s: string, allowed: char -> bool)
    requires forall i :: 0 <= i < |s| ==> allowed(s[i])
    ensures forall c <- s :: allowed(c)
  {
  }
}
