/**
 JSON values, the one text Python's `json.dumps(v, sort_keys=True, separators=(",", ":"))` and Go's `Canonical`
 give each of them, and a decoder that recovers the value.
 */
module Json {
  import opened Options
  import opened Sorting
  import opened Text

  /** Numbers keep their literal, as Go's `json.Number` does. */
  datatype Value =
    | Null
    | Bool(b: bool)
    | Num(lit: string)
    | Str(s: string)
    | List(items: seq<Value>)
    | Obj(fields: map<string, Value>)

  // ---------------------------------------------------------------- encoding

  function HexDigit(n: nat): char
    requires n < 16
  {
    if n < 10 then ('0' as int + n) as char else ('a' as int + (n - 10)) as char
  }

  function UnicodeEscape(r: nat): (s: string)
    requires r < 0x10000
  {
    ['\\', 'u', HexDigit(r / 4096), HexDigit(r / 256 % 16), HexDigit(r / 16 % 16), HexDigit(r % 16)]
  }

  function HighSurrogate(r: nat): nat {
    0xD800 + (r - 0x10000) / 1024 % 1024
  }

  function LowSurrogate(r: nat): nat {
    0xDC00 + (r - 0x10000) % 1024
  }

  function Escape(c: char): string {
    if c == '"' then "\\\""
    else if c == '\\' then "\\\\"
    else if c == '\n' then "\\n"
    else if c == '\r' then "\\r"
    else if c == '\t' then "\\t"
    else if c == '\U{8}' then "\\b"
    else if c == '\U{C}' then "\\f"
    else if ' ' <= c <= '~' then [c]
    else if c as int > 0xFFFF then UnicodeEscape(HighSurrogate(c as int)) + UnicodeEscape(LowSurrogate(c as int))
    else UnicodeEscape(c as int)
  }

  function EscapeAll(s: string): string {
    if s == [] then [] else Escape(s[0]) + EscapeAll(s[1..])
  }

  function Quote(s: string): string {
    "\"" + (EscapeAll(s) + "\"")
  }

  /** The keys in code point order. */
  ghost function SortedKeys(keys: set<string>): (r: seq<string>)
    ensures forall k :: k in r <==> k in keys
  {
    SortedKeysExist(keys);
    var r :| IsSortedKeys(keys, r);
    SameKeys(keys, r);
    r
  }

  ghost predicate IsSortedKeys(keys: set<string>, r: seq<string>) {
    multiset(r) == multiset(keys) && Sorted(ByCodePoint, r)
  }

  lemma SameKeys(keys: set<string>, r: seq<string>)
    requires multiset(r) == multiset(keys)
    ensures forall k :: k in r <==> k in keys
  {
    assert forall k :: k in r <==> k in multiset(r);
  }

  lemma {:induction false} SortedKeysExist(keys: set<string>)
    ensures exists r :: IsSortedKeys(keys, r)
  {
    if keys == {} {
      assert IsSortedKeys(keys, []);
    } else {
      var k :| k in keys;
      SortedKeysExist(keys - {k});
      var r :| IsSortedKeys(keys - {k}, r);
      ByCodePointIsTotalOrder();
      InsertSorted(ByCodePoint, k, r);
      assert multiset(keys) == multiset(keys - {k}) + multiset{k};
      assert IsSortedKeys(keys, Insert(ByCodePoint, k, r));
    }
  }

  /** The keys of an object, each at least once, and no others. */
  ghost predicate KeysOf(v: Value, keys: seq<string>)
    requires v.Obj?
  {
    forall k :: k in keys <==> k in v.fields
  }

  ghost function Encode(v: Value): string
    decreases v, 1, 0
  {
    match v
    case Null => "null"
    case Bool(b) => if b then "true" else "false"
    case Num(lit) => lit
    case Str(s) => Quote(s)
    case List(items) => "[" + (EncodeItems(v, 0) + "]")
    case Obj(fields) => "{" + (EncodeFields(v, SortedKeys(fields.Keys), 0) + "}")
  }

  /** The items of a list from index `i` on, separated by commas. */
  ghost function EncodeItems(v: Value, i: nat): string
    requires v.List? && i <= |v.items|
    decreases v, 0, |v.items| - i
  {
    if i == |v.items| then ""
    else Comma(i) + (Encode(v.items[i]) + EncodeItems(v, i + 1))
  }

  /** The members of an object under `keys[i..]`, separated by commas. */
  ghost function EncodeFields(v: Value, keys: seq<string>, i: nat): string
    requires v.Obj? && i <= |keys| && KeysOf(v, keys)
    decreases v, 0, |keys| - i
  {
    if i == |keys| then ""
    else Comma(i) + (Quote(keys[i]) + (":" + (Encode(v.fields[keys[i]]) + EncodeFields(v, keys, i + 1))))
  }

  function Comma(i: nat): string {
    if i > 0 then "," else ""
  }

  /** There is one way to write the keys in order: map iteration order plays no part. */
  lemma SortedKeysUnique(keys: set<string>, r: seq<string>)
    requires IsSortedKeys(keys, r)
    ensures r == SortedKeys(keys)
  {
    ByCodePointIsTotalOrder();
    SortedUnique(ByCodePoint, r, SortedKeys(keys));
  }

  // ---------------------------------------------------------------- decoding

  function HexValue(c: char): Option<nat> {
    if '0' <= c <= '9' then Some(c as int - '0' as int)
    else if 'a' <= c <= 'f' then Some(c as int - 'a' as int + 10)
    else if 'A' <= c <= 'F' then Some(c as int - 'A' as int + 10)
    else None
  }

  /** Four hexadecimal digits at the start of `s`. */
  function Hex4(s: string): (r: Option<nat>)
    ensures r.Some? ==> |s| >= 4 && r.value < 0x10000
  {
    if |s| < 4 then None
    else
      var a :- HexValue(s[0]);
      var b :- HexValue(s[1]);
      var c :- HexValue(s[2]);
      var d :- HexValue(s[3]);
      Some(4096 * a + 256 * b + 16 * c + d)
  }

  /** One character of a string literal, escapes and surrogate pairs included (section 7 of RFC 8259). */
  function DecodeChar(s: string): (r: Option<(char, string)>)
    ensures r.Some? ==> |r.value.1| < |s|
  {
    if s == [] || s[0] == '"' then None
    else if s[0] != '\\' then Some((s[0], s[1..]))
    else if |s| < 2 then None
    else
      match s[1]
      case '"' => Some(('"', s[2..]))
      case '\\' => Some(('\\', s[2..]))
      case '/' => Some(('/', s[2..]))
      case 'n' => Some(('\n', s[2..]))
      case 'r' => Some(('\r', s[2..]))
      case 't' => Some(('\t', s[2..]))
      case 'b' => Some(('\U{8}', s[2..]))
      case 'f' => Some(('\U{C}', s[2..]))
      case 'u' => DecodeUnicode(s)
      case _ => None
  }

  function DecodeUnicode(s: string): (r: Option<(char, string)>)
    requires |s| >= 2
    ensures r.Some? ==> |r.value.1| < |s|
  {
    match Hex4(s[2..])
    case None => None
    case Some(u) =>
      if u < 0xD800 || 0xE000 <= u then Some((u as char, s[6..]))
      else if 0xDC00 <= u || |s| < 12 || s[6..8] != "\\u" then None
      else
        match Hex4(s[8..])
        case None => None
        case Some(l) =>
          if 0xDC00 <= l < 0xE000 then Some(((0x10000 + (u - 0xD800) * 1024 + (l - 0xDC00)) as char, s[12..])) else None
  }

  /** The characters up to the closing quote, and what follows it. */
  function DecodeString(s: string): (r: Option<(string, string)>)
    ensures r.Some? ==> |r.value.1| < |s|
    decreases |s|
  {
    if s != [] && s[0] == '"' then Some(([], s[1..]))
    else
      match DecodeChar(s)
      case None => None
      case Some((c, rest)) =>
        match DecodeString(rest)
        case None => None
        case Some((t, rest')) => Some(([c] + t, rest'))
  }

  predicate NumberChar(c: char) {
    IsDigit(c) || c == '-'
  }

  /** The length of the integer literal at the start of `s`. */
  function NumberSpan(s: string): (n: nat)
    ensures n <= |s|
  {
    if s == [] || !NumberChar(s[0]) then 0 else 1 + NumberSpan(s[1..])
  }

  function Decode(s: string): (r: Option<(Value, string)>)
    ensures r.Some? ==> |r.value.1| < |s|
    decreases |s|, 1
  {
    if "null" <= s then Some((Null, s[4..]))
    else if "true" <= s then Some((Bool(true), s[4..]))
    else if "false" <= s then Some((Bool(false), s[5..]))
    else if s == [] then None
    else if s[0] == '"' then
      match DecodeString(s[1..])
      case None => None
      case Some((t, rest)) => Some((Str(t), rest))
    else if s[0] == '[' then
      if |s| > 1 && s[1] == ']' then Some((List([]), s[2..]))
      else
        match DecodeItems(s[1..])
        case None => None
        case Some((items, rest)) => Some((List(items), rest))
    else if s[0] == '{' then
      if |s| > 1 && s[1] == '}' then Some((Obj(map[]), s[2..]))
      else
        match DecodeFields(s[1..])
        case None => None
        case Some((fields, rest)) => Some((Obj(fields), rest))
    else
      var n := NumberSpan(s);
      if n == 0 then None else Some((Num(s[..n]), s[n..]))
  }

  /** One or more values up to a closing bracket. */
  function DecodeItems(s: string): (r: Option<(seq<Value>, string)>)
    ensures r.Some? ==> |r.value.1| < |s|
    decreases |s|, 2
  {
    match Decode(s)
    case None => None
    case Some((v, rest)) =>
      if rest != [] && rest[0] == ']' then Some(([v], rest[1..]))
      else if rest == [] || rest[0] != ',' then None
      else
        match DecodeItems(rest[1..])
        case None => None
        case Some((vs, rest')) => Some(([v] + vs, rest'))
  }

  /** One or more members up to a closing brace; the last of several members with one key counts. */
  function DecodeFields(s: string): (r: Option<(map<string, Value>, string)>)
    ensures r.Some? ==> |r.value.1| < |s|
    decreases |s|, 0
  {
    if s == [] || s[0] != '"' then None
    else
      match DecodeString(s[1..])
      case None => None
      case Some((k, afterKey)) =>
        if afterKey == [] || afterKey[0] != ':' then None
        else
          match Decode(afterKey[1..])
          case None => None
          case Some((v, rest)) =>
            if rest != [] && rest[0] == '}' then Some((map[k := v], rest[1..]))
            else if rest == [] || rest[0] != ',' then None
            else
              match DecodeFields(rest[1..])
              case None => None
              case Some((fields, rest')) => Some((map[k := v] + fields, rest'))
  }

  // ---------------------------------------------------------------- decoding inverts encoding
  //
  // The lemmas read the text as "this part, then the rest", so that concatenation never has to be regrouped while
  // decoding; `EncodeOnto...` says once that the two ways of writing the text agree.

  lemma Append(a: string, b: string, c: string)
    ensures (a + b) + c == a + (b + c)
  {
  }

  /** The characters of `t`, the closing quote, and then `rest`. */
  function EscapeOnto(t: string, rest: string): string {
    if t == [] then "\"" + rest else Escape(t[0]) + EscapeOnto(t[1..], rest)
  }

  /** The text of `v`, then `rest`. */
  ghost function EncodeOnto(v: Value, rest: string): string
    decreases v, 1, 0
  {
    match v
    case Str(t) => "\"" + EscapeOnto(t, rest)
    case List(items) => "[" + ItemsOnto(v, 0, rest)
    case Obj(fields) => "{" + FieldsOnto(v, SortedKeys(fields.Keys), 0, rest)
    case _ => Encode(v) + rest
  }

  ghost function ItemsOnto(v: Value, i: nat, rest: string): string
    requires v.List? && i <= |v.items|
    decreases v, 0, |v.items| - i
  {
    if i == |v.items| then "]" + rest else Comma(i) + EncodeOnto(v.items[i], ItemsOnto(v, i + 1, rest))
  }

  ghost function FieldsOnto(v: Value, keys: seq<string>, i: nat, rest: string): string
    requires v.Obj? && i <= |keys| && KeysOf(v, keys)
    decreases v, 0, |keys| - i
  {
    if i == |keys| then "}" + rest else Comma(i) + FieldOnto(v, keys[i], FieldsOnto(v, keys, i + 1, rest))
  }

  ghost function FieldOnto(v: Value, k: string, rest: string): string
    requires v.Obj? && k in v.fields
    decreases v, 0, 0
  {
    "\"" + EscapeOnto(k, ":" + EncodeOnto(v.fields[k], rest))
  }

  lemma {:induction false} EscapeOntoIsQuote(t: string, rest: string)
    ensures EscapeOnto(t, rest) == (EscapeAll(t) + "\"") + rest
  {
    if t == [] {
      assert EscapeAll(t) + "\"" == "\"";
    } else {
      EscapeOntoIsQuote(t[1..], rest);
      var a, b := Escape(t[0]), EscapeAll(t[1..]);
      Append(a, b, "\"");
      Append(a, b + "\"", rest);
    }
  }

  lemma QuoteOnto(t: string, rest: string)
    ensures "\"" + EscapeOnto(t, rest) == Quote(t) + rest
  {
    EscapeOntoIsQuote(t, rest);
    Append("\"", EscapeAll(t) + "\"", rest);
  }

  lemma {:induction false} EncodeOntoIsEncode(v: Value, rest: string)
    ensures EncodeOnto(v, rest) == Encode(v) + rest
    decreases v, 1, 0
  {
    match v {
      case Str(t) => QuoteOnto(t, rest);
      case List(items) =>
        ItemsOntoIsEncodeItems(v, 0, rest);
        Append("[", EncodeItems(v, 0) + "]", rest);
        Append(EncodeItems(v, 0), "]", rest);
      case Obj(fields) =>
        var t := EncodeFields(v, SortedKeys(fields.Keys), 0);
        FieldsOntoIsEncodeFields(v, SortedKeys(fields.Keys), 0, rest);
        Append("{", t + "}", rest);
        Append(t, "}", rest);
      case _ =>
    }
  }

  lemma {:induction false} ItemsOntoIsEncodeItems(v: Value, i: nat, rest: string)
    requires v.List? && i <= |v.items|
    ensures ItemsOnto(v, i, rest) == EncodeItems(v, i) + ("]" + rest)
    decreases v, 0, |v.items| - i
  {
    var close := "]" + rest;
    if i == |v.items| {
      assert "" + close == close;
    } else {
      EncodeOntoIsEncode(v.items[i], ItemsOnto(v, i + 1, rest));
      ItemsOntoIsEncodeItems(v, i + 1, rest);
      var a, b := Encode(v.items[i]), EncodeItems(v, i + 1);
      Append(a, b, close);
      Append(Comma(i), a + b, close);
    }
  }

  lemma {:induction false} FieldsOntoIsEncodeFields(v: Value, keys: seq<string>, i: nat, rest: string)
    requires v.Obj? && i <= |keys| && KeysOf(v, keys)
    ensures FieldsOnto(v, keys, i, rest) == EncodeFields(v, keys, i) + ("}" + rest)
    decreases v, 0, |keys| - i
  {
    var close := "}" + rest;
    if i == |keys| {
      assert "" + close == close;
    } else {
      var k := keys[i];
      var next := FieldsOnto(v, keys, i + 1, rest);
      var a, b := Encode(v.fields[k]), EncodeFields(v, keys, i + 1);
      EncodeOntoIsEncode(v.fields[k], next);
      FieldsOntoIsEncodeFields(v, keys, i + 1, rest);
      QuoteOnto(k, ":" + EncodeOnto(v.fields[k], next));
      Append(a, b, close);
      Append(":", a + b, close);
      Append(Quote(k), ":" + (a + b), close);
      Append(Comma(i), Quote(k) + (":" + (a + b)), close);
    }
  }

  lemma Hex4OfEscape(r: nat, rest: string)
    requires r < 0x10000
    ensures Hex4((UnicodeEscape(r) + rest)[2..]) == Some(r)
    ensures (UnicodeEscape(r) + rest)[6..] == rest
  {
    var t := (UnicodeEscape(r) + rest)[2..];
    HexDigits(r / 4096);
    HexDigits(r / 256 % 16);
    HexDigits(r / 16 % 16);
    HexDigits(r % 16);
    assert t[0] == HexDigit(r / 4096) && t[1] == HexDigit(r / 256 % 16) && t[2] == HexDigit(r / 16 % 16) && t[3] == HexDigit(r % 16);
    HexExpansion(r);
  }

  lemma HexDigits(n: nat)
    requires n < 16
    ensures HexValue(HexDigit(n)) == Some(n)
  {
  }

  lemma HexExpansion(r: nat)
    ensures 4096 * (r / 4096) + 256 * (r / 256 % 16) + 16 * (r / 16 % 16) + r % 16 == r
  {
    assert r / 256 == r / 16 / 16 && r / 4096 == r / 256 / 16;
  }

  lemma DecodeUnicodeEscape(r: nat, rest: string)
    requires r < 0xD800 || 0xE000 <= r < 0x10000
    ensures DecodeChar(UnicodeEscape(r) + rest) == Some((r as char, rest))
  {
    Hex4OfEscape(r, rest);
  }

  lemma SurrogatesCarryScalar(p: nat)
    requires 0x10000 <= p < 0x110000
    ensures 0xD800 <= HighSurrogate(p) < 0xDC00 <= LowSurrogate(p) < 0xE000
    ensures 0x10000 + (HighSurrogate(p) - 0xD800) * 1024 + (LowSurrogate(p) - 0xDC00) == p
  {
  }

  lemma DecodeSurrogates(hi: nat, lo: nat, rest: string)
    requires 0xD800 <= hi < 0xDC00 <= lo < 0xE000
    ensures DecodeChar(UnicodeEscape(hi) + (UnicodeEscape(lo) + rest))
         == Some(((0x10000 + (hi - 0xD800) * 1024 + (lo - 0xDC00)) as char, rest))
  {
    var tail := UnicodeEscape(lo) + rest;
    var s := UnicodeEscape(hi) + tail;
    Hex4OfEscape(hi, tail);
    Hex4OfEscape(lo, rest);
    assert s[6..8] == s[6..][..2] == tail[..2] == "\\u";
    assert s[8..] == s[6..][2..] == tail[2..] && s[12..] == s[6..][6..] == tail[6..];
    assert Hex4(s[2..]) == Some(hi) && Hex4(s[8..]) == Some(lo);
  }

  predicate HasShortEscape(c: char) {
    c == '"' || c == '\\' || c == '\n' || c == '\r' || c == '\t' || c == '\U{8}' || c == '\U{C}'
  }

  lemma DecodeShortEscape(c: char, rest: string)
    requires HasShortEscape(c)
    ensures DecodeChar(Escape(c) + rest) == Some((c, rest))
  {
    var s := Escape(c) + rest;
    assert s[0] == '\\' && s[1] == Escape(c)[1] && s[2..] == rest;
  }

  lemma DecodeEscape(c: char, rest: string)
    ensures DecodeChar(Escape(c) + rest) == Some((c, rest))
  {
    var p := c as int;
    if HasShortEscape(c) {
      DecodeShortEscape(c, rest);
    } else if ' ' <= c <= '~' {
      assert ([c] + rest)[1..] == rest;
    } else if p > 0xFFFF {
      SurrogatesCarryScalar(p);
      DecodeSurrogates(HighSurrogate(p), LowSurrogate(p), rest);
      Append(UnicodeEscape(HighSurrogate(p)), UnicodeEscape(LowSurrogate(p)), rest);
    } else {
      DecodeUnicodeEscape(p, rest);
    }
  }

  lemma {:induction false} DecodeOfEscaped(t: string, rest: string)
    ensures DecodeString(EscapeOnto(t, rest)) == Some((t, rest))
  {
    if t == [] {
      assert ("\"" + rest)[1..] == rest;
    } else {
      var tail := EscapeOnto(t[1..], rest);
      DecodeEscape(t[0], tail);
      assert (Escape(t[0]) + tail)[0] != '"';
      DecodeOfEscaped(t[1..], rest);
      assert t == [t[0]] + t[1..];
    }
  }

  predicate IntegerLiteral(lit: string) {
    lit != [] && forall c <- lit :: NumberChar(c)
  }

  /** Every number in `v` is an integer, as the serializers demand. */
  predicate Integers(v: Value) {
    match v
    case Num(lit) => IntegerLiteral(lit)
    case List(items) => forall x <- items :: Integers(x)
    case Obj(fields) => forall k <- fields :: Integers(fields[k])
    case _ => true
  }

  /** What may follow a value: anything that does not continue a number. */
  predicate Delimited(rest: string) {
    rest == [] || !NumberChar(rest[0])
  }

  lemma {:induction false} SpanOfLiteral(lit: string, rest: string)
    requires (forall c <- lit :: NumberChar(c)) && Delimited(rest)
    ensures NumberSpan(lit + rest) == |lit|
  {
    if lit == [] {
      assert lit + rest == rest;
    } else {
      assert (lit + rest)[1..] == lit[1..] + rest;
      SpanOfLiteral(lit[1..], rest);
    }
  }

  lemma DecodeOfNumber(lit: string, rest: string)
    requires IntegerLiteral(lit) && Delimited(rest)
    ensures Decode(lit + rest) == Some((Num(lit), rest))
  {
    var s := lit + rest;
    assert lit[0] in lit && s[0] == lit[0];
    SpanOfLiteral(lit, rest);
    assert s[..|lit|] == lit && s[|lit|..] == rest;
  }

  lemma DecodeOfWord(v: Value, rest: string)
    requires v.Null? || v.Bool?
    ensures Decode(Encode(v) + rest) == Some((v, rest))
  {
    var w := Encode(v);
    var s := w + rest;
    assert s[..|w|] == w && s[|w|..] == rest;
    assert s[0] == w[0];
  }

  lemma EncodeOntoFirstChar(v: Value, rest: string)
    requires Integers(v)
    ensures EncodeOnto(v, rest) != [] && EncodeOnto(v, rest)[0] != ']'
  {
    match v {
      case Num(lit) => assert lit[0] in lit;
      case _ =>
    }
  }

  /** The members of `v` under `keys[i..]`. */
  ghost function FieldsFrom(v: Value, keys: seq<string>, i: nat): map<string, Value>
    requires v.Obj? && i <= |keys| && KeysOf(v, keys)
  {
    map k | k in keys[i..] :: v.fields[k]
  }

  lemma FieldsFromStep(v: Value, keys: seq<string>, i: nat)
    requires v.Obj? && i < |keys| && KeysOf(v, keys)
    ensures FieldsFrom(v, keys, i) == map[keys[i] := v.fields[keys[i]]] + FieldsFrom(v, keys, i + 1)
  {
    assert keys[i..] == [keys[i]] + keys[i + 1..];
  }

  lemma DecodeBracket(t: string)
    requires t != []
    ensures t[0] == ']' ==> Decode("[" + t) == Some((List([]), t[1..]))
    ensures t[0] != ']' && DecodeItems(t).Some? ==>
      Decode("[" + t) == Some((List(DecodeItems(t).value.0), DecodeItems(t).value.1))
  {
    var s := "[" + t;
    assert s[1..] == t && s[2..] == t[1..];
  }

  lemma DecodeBrace(t: string)
    requires t != []
    ensures t[0] == '}' ==> Decode("{" + t) == Some((Obj(map[]), t[1..]))
    ensures t[0] != '}' && DecodeFields(t).Some? ==>
      Decode("{" + t) == Some((Obj(DecodeFields(t).value.0), DecodeFields(t).value.1))
  {
    var s := "{" + t;
    assert s[1..] == t && s[2..] == t[1..];
  }

  lemma DecodeQuote(t: string)
    requires DecodeString(t).Some?
    ensures Decode("\"" + t) == Some((Str(DecodeString(t).value.0), DecodeString(t).value.1))
  {
    assert ("\"" + t)[1..] == t;
  }

  lemma DecodeOfListOnto(v: Value, rest: string)
    requires v.List? && Integers(v)
    requires v.items != [] ==> DecodeItems(EncodeOnto(v.items[0], ItemsOnto(v, 1, rest))) == Some((v.items[0..], rest))
    ensures Decode(EncodeOnto(v, rest)) == Some((v, rest))
  {
    var t := ItemsOnto(v, 0, rest);
    if v.items == [] {
      assert t[1..] == rest;
    } else {
      EncodeOntoFirstChar(v.items[0], ItemsOnto(v, 1, rest));
      NoComma(t, EncodeOnto(v.items[0], ItemsOnto(v, 1, rest)));
      assert v.items[0..] == v.items;
    }
    DecodeBracket(t);
  }

  lemma DecodeOfObjectOnto(v: Value, keys: seq<string>, rest: string)
    requires v.Obj? && KeysOf(v, keys)
    requires keys != [] ==>
      DecodeFields(FieldOnto(v, keys[0], FieldsOnto(v, keys, 1, rest))) == Some((FieldsFrom(v, keys, 0), rest))
    requires FieldsFrom(v, keys, 0) == v.fields
    ensures Decode("{" + FieldsOnto(v, keys, 0, rest)) == Some((v, rest))
  {
    var t := FieldsOnto(v, keys, 0, rest);
    if keys == [] {
      assert v.fields == map[];
      assert t[1..] == rest;
    } else {
      NoComma(t, FieldOnto(v, keys[0], FieldsOnto(v, keys, 1, rest)));
    }
    DecodeBrace(t);
  }

  lemma DecodeOfStringOnto(t: string, rest: string)
    ensures Decode(EncodeOnto(Str(t), rest)) == Some((Str(t), rest))
  {
    DecodeOfEscaped(t, rest);
    DecodeQuote(EscapeOnto(t, rest));
  }

  lemma DecodeOfNumberOnto(lit: string, rest: string)
    requires Integers(Num(lit)) && Delimited(rest)
    ensures Decode(EncodeOnto(Num(lit), rest)) == Some((Num(lit), rest))
  {
    DecodeOfNumber(lit, rest);
  }

  lemma DecodeOfWordOnto(v: Value, rest: string)
    requires v.Null? || v.Bool?
    ensures Decode(EncodeOnto(v, rest)) == Some((v, rest))
  {
    DecodeOfWord(v, rest);
  }

  lemma AllFields(v: Value)
    requires v.Obj?
    ensures KeysOf(v, SortedKeys(v.fields.Keys)) && FieldsFrom(v, SortedKeys(v.fields.Keys), 0) == v.fields
  {
  }

  lemma EncodeOntoObject(v: Value, rest: string)
    requires v.Obj? && KeysOf(v, SortedKeys(v.fields.Keys))
    ensures EncodeOnto(v, rest) == "{" + FieldsOnto(v, SortedKeys(v.fields.Keys), 0, rest)
  {
  }

  /** The decoder recovers the value and stops exactly where its text ends. */
  lemma {:induction false} DecodeOfEncodeOnto(v: Value, rest: string)
    requires Integers(v) && Delimited(rest)
    ensures Decode(EncodeOnto(v, rest)) == Some((v, rest))
    decreases v, 1, 0
  {
    match v {
      case Num(lit) => DecodeOfNumberOnto(lit, rest);
      case Str(t) => DecodeOfStringOnto(t, rest);
      case List(items) =>
        if items != [] { DecodeOfItems(v, 0, rest); }
        DecodeOfListOnto(v, rest);
      case Obj(fields) =>
        var keys := SortedKeys(fields.Keys);
        AllFields(v);
        if keys != [] { DecodeOfFields(v, keys, 0, rest); }
        DecodeOfObjectOnto(v, keys, rest);
        EncodeOntoObject(v, rest);
      case _ => DecodeOfWordOnto(v, rest);
    }
  }

  lemma NoComma(s: string, t: string)
    requires s == Comma(0) + t
    ensures s == t
  {
  }

  /** How the decoder reads one item and then stops or goes on. */
  lemma DecodeItem(s: string, v: Value, rest: string)
    requires Decode(s) == Some((v, rest)) && rest != []
    ensures rest[0] == ']' ==> DecodeItems(s) == Some(([v], rest[1..]))
    ensures rest[0] == ',' && DecodeItems(rest[1..]).Some? ==>
      DecodeItems(s) == Some(([v] + DecodeItems(rest[1..]).value.0, DecodeItems(rest[1..]).value.1))
  {
  }

  lemma {:induction false} DecodeOfItems(v: Value, i: nat, rest: string)
    requires v.List? && Integers(v) && i < |v.items|
    ensures DecodeItems(EncodeOnto(v.items[i], ItemsOnto(v, i + 1, rest))) == Some((v.items[i..], rest))
    decreases v, 0, |v.items| - i
  {
    var tail := ItemsOnto(v, i + 1, rest);
    var s := EncodeOnto(v.items[i], tail);
    if i + 1 == |v.items| {
      assert tail[1..] == rest;
      assert v.items[i..] == [v.items[i]];
    } else {
      DecodeOfItems(v, i + 1, rest);
      assert tail[1..] == EncodeOnto(v.items[i + 1], ItemsOnto(v, i + 2, rest));
      assert v.items[i..] == [v.items[i]] + v.items[i + 1..];
    }
    DecodeOfEncodeOnto(v.items[i], tail);
    DecodeItem(s, v.items[i], tail);
  }

  /** How the decoder reads one member and then stops or goes on. */
  lemma DecodeField(t: string, k: string, s: string, v: Value, rest: string)
    requires DecodeString(t) == Some((k, ":" + s)) && Decode(s) == Some((v, rest)) && rest != []
    ensures rest[0] == '}' ==> DecodeFields("\"" + t) == Some((map[k := v], rest[1..]))
    ensures rest[0] == ',' && DecodeFields(rest[1..]).Some? ==>
      DecodeFields("\"" + t) == Some((map[k := v] + DecodeFields(rest[1..]).value.0, DecodeFields(rest[1..]).value.1))
  {
    assert ("\"" + t)[1..] == t && (":" + s)[1..] == s;
  }

  lemma {:induction false} DecodeOfFields(v: Value, keys: seq<string>, i: nat, rest: string)
    requires v.Obj? && Integers(v) && KeysOf(v, keys) && i < |keys|
    ensures DecodeFields(FieldOnto(v, keys[i], FieldsOnto(v, keys, i + 1, rest))) == Some((FieldsFrom(v, keys, i), rest))
    decreases v, 0, |keys| - i
  {
    var k := keys[i];
    var w := v.fields[k];
    var tail := FieldsOnto(v, keys, i + 1, rest);
    FieldsFromStep(v, keys, i);
    FieldsGoOn(v, keys, i + 1, rest);
    if i + 1 == |keys| {
      assert FieldsFrom(v, keys, i) == map[k := w];
    } else {
      DecodeOfFields(v, keys, i + 1, rest);
    }
    DecodeOfEncodeOnto(w, tail);
    DecodeMember(v, k, tail);
  }

  /** What follows a member. */
  lemma FieldsGoOn(v: Value, keys: seq<string>, i: nat, rest: string)
    requires v.Obj? && 0 < i <= |keys| && KeysOf(v, keys)
    ensures var tail := FieldsOnto(v, keys, i, rest);
      && tail != [] && tail[0] == (if i == |keys| then '}' else ',')
      && tail[1..] == if i == |keys| then rest else FieldOnto(v, keys[i], FieldsOnto(v, keys, i + 1, rest))
  {
  }

  lemma DecodeMember(v: Value, k: string, tail: string)
    requires v.Obj? && k in v.fields && tail != [] && Decode(EncodeOnto(v.fields[k], tail)) == Some((v.fields[k], tail))
    ensures tail[0] == '}' ==> DecodeFields(FieldOnto(v, k, tail)) == Some((map[k := v.fields[k]], tail[1..]))
    ensures tail[0] == ',' && DecodeFields(tail[1..]).Some? ==>
      DecodeFields(FieldOnto(v, k, tail))
        == Some((map[k := v.fields[k]] + DecodeFields(tail[1..]).value.0, DecodeFields(tail[1..]).value.1))
  {
    var s := EncodeOnto(v.fields[k], tail);
    DecodeOfEscaped(k, ":" + s);
    DecodeField(EscapeOnto(k, ":" + s), k, s, v.fields[k], tail);
  }

  lemma DecodeOfEncode(v: Value, rest: string)
    requires Integers(v) && Delimited(rest)
    ensures Decode(Encode(v) + rest) == Some((v, rest))
  {
    EncodeOntoIsEncode(v, rest);
    DecodeOfEncodeOnto(v, rest);
  }

  /** No two values share a text, whatever follows it. */
  lemma EncodeUnambiguous(v: Value, w: Value)
    requires Integers(v) && Integers(w) && Encode(v) == Encode(w)
    ensures v == w
  {
    DecodeOfEncode(v, "");
    DecodeOfEncode(w, "");
  }

  // ---------------------------------------------------------------- the text is printable ASCII

  lemma EscapePrintable(c: char)
    ensures PrintableAscii(Escape(c))
  {
    assert forall n: nat | n < 16 :: ' ' <= HexDigit(n) <= '~';
  }

  lemma {:induction false} EscapeAllPrintable(s: string)
    ensures PrintableAscii(EscapeAll(s))
  {
    if s != [] {
      EscapePrintable(s[0]);
      EscapeAllPrintable(s[1..]);
    }
  }

  lemma {:induction false} EncodePrintable(v: Value)
    requires Integers(v)
    ensures PrintableAscii(Encode(v))
    decreases v, 1, 0
  {
    match v {
      case Str(s) => EscapeAllPrintable(s);
      case List(items) => EncodeItemsPrintable(v, 0);
      case Obj(fields) => EncodeFieldsPrintable(v, SortedKeys(fields.Keys), 0);
      case _ =>
    }
  }

  lemma {:induction false} EncodeItemsPrintable(v: Value, i: nat)
    requires v.List? && Integers(v) && i <= |v.items|
    ensures PrintableAscii(EncodeItems(v, i))
    decreases v, 0, |v.items| - i
  {
    if i < |v.items| {
      EncodePrintable(v.items[i]);
      EncodeItemsPrintable(v, i + 1);
    }
  }

  lemma {:induction false} EncodeFieldsPrintable(v: Value, keys: seq<string>, i: nat)
    requires v.Obj? && Integers(v) && i <= |keys| && KeysOf(v, keys)
    ensures PrintableAscii(EncodeFields(v, keys, i))
    decreases v, 0, |keys| - i
  {
    if i < |keys| {
      EscapeAllPrintable(keys[i]);
      EncodePrintable(v.fields[keys[i]]);
      EncodeFieldsPrintable(v, keys, i + 1);
    }
  }

  // ---------------------------------------------------------------- which escape is used

  const HEX := "0123456789abcdef"

  /** The letter of the escape that a character has of its own. */
  function ShortLetter(c: char): Option<char> {
    match c
    case '"' => Some('"')
    case '\\' => Some('\\')
    case '\n' => Some('n')
    case '\r' => Some('r')
    case '\t' => Some('t')
    case '\U{8}' => Some('b')
    case '\U{C}' => Some('f')
    case _ => None
  }

  /** A UTF-16 unit as four lower-case hex digits. */
  ghost predicate WritesUnit(s: string, unit: nat) {
    && |s| == 6 && s[0] == '\\' && s[1] == 'u'
    && exists a, b, c, d :: 0 <= a < 16 && 0 <= b < 16 && 0 <= c < 16 && 0 <= d < 16
         && unit == ((a * 16 + b) * 16 + c) * 16 + d
         && s[2] == HEX[a] && s[3] == HEX[b] && s[4] == HEX[c] && s[5] == HEX[d]
  }

  lemma EscapeWritesUnit(unit: nat)
    requires unit < 0x10000
    ensures WritesUnit(UnicodeEscape(unit), unit)
  {
    var a, b, c, d := unit / 4096, unit / 256 % 16, unit / 16 % 16, unit % 16;
    HexDigitIs(a);
    HexDigitIs(b);
    HexDigitIs(c);
    HexDigitIs(d);
    HexExpansion(unit);
    assert unit == ((a * 16 + b) * 16 + c) * 16 + d;
    assert UnicodeEscape(unit)[2] == HEX[a] && UnicodeEscape(unit)[3] == HEX[b];
    assert UnicodeEscape(unit)[4] == HEX[c] && UnicodeEscape(unit)[5] == HEX[d];
  }

  lemma HexDigitIs(n: nat)
    requires n < 16
    ensures HexDigit(n) == HEX[n]
  {
  }

  /** The high and the low surrogate of a character beyond the basic plane. */
  ghost predicate WritesPair(s: string, c: char) {
    |s| == 12 && exists high, low ::
      && 0xD800 <= high < 0xDC00 <= low < 0xE000
      && c as int == 0x10000 + (high - 0xD800) * 1024 + (low - 0xDC00)
      && WritesUnit(s[..6], high) && WritesUnit(s[6..], low)
  }

  lemma UnitsWritePair(s: string, t: string, high: nat, low: nat, c: char)
    requires WritesUnit(s, high) && WritesUnit(t, low)
    requires 0xD800 <= high < 0xDC00 <= low < 0xE000 && c as int == 0x10000 + (high - 0xD800) * 1024 + (low - 0xDC00)
    ensures WritesPair(s + t, c)
  {
    assert (s + t)[..6] == s && (s + t)[6..] == t;
  }

  lemma EscapeOfPair(c: char)
    requires c as int >= 0x10000
    ensures Escape(c) == UnicodeEscape(HighSurrogate(c as int)) + UnicodeEscape(LowSurrogate(c as int))
  {
  }

  lemma EscapeWritesPair(c: char)
    requires c as int >= 0x10000
    ensures WritesPair(Escape(c), c)
  {
    var high, low := HighSurrogate(c as int), LowSurrogate(c as int);
    EscapeOfPair(c);
    SurrogatesCarryScalar(c as int);
    EscapeWritesUnit(high);
    EscapeWritesUnit(low);
    UnitsWritePair(UnicodeEscape(high), UnicodeEscape(low), high, low, c);
  }

  lemma EscapeOfShort(c: char)
    requires ShortLetter(c).Some?
    ensures Escape(c) == ['\\', ShortLetter(c).value]
  {
  }

  lemma EscapeOfOther(c: char)
    requires ShortLetter(c).None? && c as int < 0x10000
    ensures Escape(c) == if 32 <= c as int <= 126 then [c] else UnicodeEscape(c as int)
  {
  }

  /** A character with a short escape is written so, other printable ASCII as it is, and the rest as its UTF-16 units. */
  lemma EscapeExactly(c: char)
    ensures
      if ShortLetter(c).Some? then Escape(c) == ['\\', ShortLetter(c).value]
      else if 32 <= c as int <= 126 then Escape(c) == [c]
      else if c as int < 0x10000 then WritesUnit(Escape(c), c as int)
      else WritesPair(Escape(c), c)
  {
    if c as int >= 0x10000 {
      EscapeWritesPair(c);
    } else if ShortLetter(c).Some? {
      EscapeOfShort(c);
    } else {
      EscapeOfOther(c);
      EscapeWritesUnit(c as int);
    }
  }
}
