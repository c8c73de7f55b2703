/** The Go serializer: recursive writers that append to a buffer, and what they leave in it. */
module Canonical {
  import opened Json
  import opened Options
  import opened Sorting
  import opened Text

  class Buffer {
    var data: string

    constructor ()
      ensures data == ""
    {
      data := "";
    }

    method WriteString(s: string)
      modifies this
      ensures data == old(data) + s
    {
      data := data + s;
    }
  }

  /** Whether every number is free of a fraction and an exponent. */
  predicate Serializable(v: Value) {
    match v
    case Num(lit) => forall c <- lit :: c !in ".eE"
    case List(items) => forall x <- items :: Serializable(x)
    case Obj(fields) => forall k <- fields :: Serializable(fields[k])
    case _ => true
  }

  method WriteUnicodeEscape(buf: Buffer, r: nat)
    requires r < 0x10000
    modifies buf
    ensures buf.data == old(buf.data) + UnicodeEscape(r)
  {
    buf.WriteString("\\u");
    buf.WriteString([HexDigit(r / 4096 % 16)]);
    buf.WriteString([HexDigit(r / 256 % 16)]);
    buf.WriteString([HexDigit(r / 16 % 16)]);
    buf.WriteString([HexDigit(r % 16)]);
  }

  method WriteRune(buf: Buffer, c: char)
    modifies buf
    ensures buf.data == old(buf.data) + Escape(c)
  {
    if c == '"' { buf.WriteString("\\\""); }
    else if c == '\\' { buf.WriteString("\\\\"); }
    else if c == '\n' { buf.WriteString("\\n"); }
    else if c == '\r' { buf.WriteString("\\r"); }
    else if c == '\t' { buf.WriteString("\\t"); }
    else if c == '\U{8}' { buf.WriteString("\\b"); }
    else if c == '\U{C}' { buf.WriteString("\\f"); }
    else if ' ' <= c <= '~' { buf.WriteString([c]); }
    else if c as int > 0xFFFF {
      WriteUnicodeEscape(buf, HighSurrogate(c as int));
      WriteUnicodeEscape(buf, LowSurrogate(c as int));
    } else {
      WriteUnicodeEscape(buf, c as int);
    }
  }

  lemma EscapeAllNext(s: string, i: nat)
    requires i < |s|
    ensures EscapeAll(s[..i + 1]) == EscapeAll(s[..i]) + Escape(s[i])
  {
    EscapeAllSnoc(s[..i], s[i]);
    assert s[..i + 1] == s[..i] + [s[i]];
  }

  lemma EscapeAllSnoc(s: string, c: char)
    ensures EscapeAll(s + [c]) == EscapeAll(s) + Escape(c)
  {
    if s != [] {
      assert (s + [c])[1..] == s[1..] + [c];
      EscapeAllSnoc(s[1..], c);
    }
  }

  lemma RegroupItem(before: string, comma: string, item: string, rest: string)
    ensures before + comma + item + rest == before + (comma + (item + rest))
  {
    Append(before + comma, item, rest);
    Append(before, comma, item + rest);
  }

  lemma RegroupField(before: string, comma: string, key: string, item: string, rest: string)
    ensures before + comma + key + ":" + item + rest == before + (comma + (key + (":" + (item + rest))))
  {
    Append(before + comma + key + ":", item, rest);
    Append(before + comma + key, ":", item + rest);
    Append(before + comma, key, ":" + (item + rest));
    Append(before, comma, key + (":" + (item + rest)));
  }

  method WriteCanonicalString(buf: Buffer, s: string)
    modifies buf
    ensures buf.data == old(buf.data) + Quote(s)
  {
    buf.WriteString("\"");
    ghost var start := buf.data;
    for i := 0 to |s|
      invariant buf.data == start + EscapeAll(s[..i])
    {
      ghost var written := EscapeAll(s[..i]);
      WriteRune(buf, s[i]);
      EscapeAllNext(s, i);
      Append(start, written, Escape(s[i]));
    }
    assert s[..|s|] == s;
    buf.WriteString("\"");
    RegroupItem(old(buf.data), "\"", EscapeAll(s), "\"");
  }

  /** Whatever order the keys were collected in, sorting them by UTF-8 bytes gives Python's order. */
  lemma Utf8SortIsSortedKeys(keys: seq<string>, all: set<string>)
    requires multiset(keys) == multiset(all)
    ensures Sort(ByUtf8, keys) == SortedKeys(all)
  {
    ByCodePointIsTotalOrder();
    forall a, b ensures ByUtf8(a, b) <==> ByCodePoint(a, b) {
      Utf8OrderIsCodePointOrder(a, b);
    }
    assert TotalPreorder(ByUtf8) by {
      forall a, b, c | ByUtf8(a, b) && ByUtf8(b, c) ensures ByUtf8(a, c) {
        assert ByCodePoint(a, b) && ByCodePoint(b, c);
      }
    }
    SortSorted(ByUtf8, keys);
    SortedKeysUnique(all, Sort(ByUtf8, keys));
  }

  /** The keys of a Go map, in whatever order the runtime yields them. */
  method CollectKeys(all: set<string>) returns (keys: seq<string>)
    ensures multiset(keys) == multiset(all)
  {
    keys := [];
    var left := all;
    while left != {}
      invariant left <= all
      invariant multiset(keys) + multiset(left) == multiset(all)
    {
      var k :| k in left;
      assert multiset(left) == multiset(left - {k}) + multiset{k};
      keys, left := keys + [k], left - {k};
    }
  }

  method WriteCanonical(buf: Buffer, v: Value) returns (ok: bool)
    modifies buf
    ensures ok <==> Serializable(v)
    ensures ok ==> buf.data == old(buf.data) + Encode(v)
    decreases v, 1
  {
    ok := true;
    match v {
      case Null => buf.WriteString("null");
      case Bool(b) => buf.WriteString(if b then "true" else "false");
      case Num(lit) =>
        if exists c <- lit :: c in ".eE" { return false; }
        buf.WriteString(lit);
      case Str(s) => WriteCanonicalString(buf, s);
      case List(_) => ok := WriteList(buf, v);
      case Obj(_) => ok := WriteObject(buf, v);
    }
  }

  method WriteList(buf: Buffer, v: Value) returns (ok: bool)
    requires v.List?
    modifies buf
    ensures ok <==> Serializable(v)
    ensures ok ==> buf.data == old(buf.data) + Encode(v)
    decreases v, 0
  {
    ok := true;
    buf.WriteString("[");
    ghost var target := buf.data + EncodeItems(v, 0);
    for i := 0 to |v.items|
      invariant forall j :: 0 <= j < i ==> Serializable(v.items[j])
      invariant ok && buf.data + EncodeItems(v, i) == target
    {
      ghost var before := buf.data;
      buf.WriteString(Comma(i));
      ok := WriteCanonical(buf, v.items[i]);
      if !ok { return; }
      RegroupItem(before, Comma(i), Encode(v.items[i]), EncodeItems(v, i + 1));
    }
    assert buf.data + "" == buf.data;
    ghost var body := EncodeItems(v, 0);
    buf.WriteString("]");
    RegroupItem(old(buf.data), "[", body, "]");
  }

  method WriteObject(buf: Buffer, v: Value) returns (ok: bool)
    requires v.Obj?
    modifies buf
    ensures ok <==> Serializable(v)
    ensures ok ==> buf.data == old(buf.data) + Encode(v)
    decreases v, 0, 2
  {
    var keys := CollectKeys(v.fields.Keys);
    Utf8SortIsSortedKeys(keys, v.fields.Keys);
    keys := Sort(ByUtf8, keys);
    buf.WriteString("{");
    ok := WriteFields(buf, v, keys);
    buf.WriteString("}");
    if ok { RegroupItem(old(buf.data), "{", EncodeFields(v, keys, 0), "}"); }
  }

  method WriteFields(buf: Buffer, v: Value, keys: seq<string>) returns (ok: bool)
    requires v.Obj? && KeysOf(v, keys)
    modifies buf
    ensures ok <==> Serializable(v)
    ensures ok ==> buf.data == old(buf.data) + EncodeFields(v, keys, 0)
    decreases v, 0, 1
  {
    var i := 0;
    ok := true;
    ghost var start := buf.data;
    while ok && i < |keys|
      invariant i <= |keys|
      invariant ok ==> buf.data + EncodeFields(v, keys, i) == start + EncodeFields(v, keys, 0)
      invariant ok <==> SerializableUnder(v, keys, i)
    {
      UnderNext(v, keys, i);
      ok := WriteMember(buf, v, keys, i);
      i := i + 1;
    }
    SerializableObject(v, keys, i);
    NoFieldsLeft(v, keys, buf.data);
  }

  lemma UnderNext(v: Value, keys: seq<string>, i: nat)
    requires v.Obj? && KeysOf(v, keys) && i < |keys|
    ensures SerializableUnder(v, keys, i + 1) <==> SerializableUnder(v, keys, i) && Serializable(v.fields[keys[i]])
  {
  }

  lemma NoFieldsLeft(v: Value, keys: seq<string>, data: string)
    requires v.Obj? && KeysOf(v, keys)
    ensures data + EncodeFields(v, keys, |keys|) == data
  {
  }

  ghost predicate SerializableUnder(v: Value, keys: seq<string>, n: nat)
    requires v.Obj? && n <= |keys| && KeysOf(v, keys)
  {
    forall j :: 0 <= j < n ==> Serializable(v.fields[keys[j]])
  }

  lemma SerializableObject(v: Value, keys: seq<string>, n: nat)
    requires v.Obj? && KeysOf(v, keys) && n <= |keys|
    ensures Serializable(v) ==> SerializableUnder(v, keys, n)
    ensures n == |keys| && SerializableUnder(v, keys, n) ==> Serializable(v)
  {
    if n == |keys| && SerializableUnder(v, keys, n) {
      forall k | k in v.fields ensures Serializable(v.fields[k]) {
        var j :| 0 <= j < |keys| && keys[j] == k;
      }
    }
  }

  method WriteMember(buf: Buffer, v: Value, keys: seq<string>, i: nat) returns (ok: bool)
    requires v.Obj? && KeysOf(v, keys) && i < |keys|
    modifies buf
    ensures ok <==> Serializable(v.fields[keys[i]])
    ensures ok ==> buf.data + EncodeFields(v, keys, i + 1) == old(buf.data) + EncodeFields(v, keys, i)
    decreases v, 0, 0
  {
    var key := keys[i];
    buf.WriteString(Comma(i));
    WriteCanonicalString(buf, key);
    buf.WriteString(":");
    ok := WriteCanonical(buf, v.fields[key]);
    if ok {
      RegroupField(old(buf.data), Comma(i), Quote(key), Encode(v.fields[key]), EncodeFields(v, keys, i + 1));
    }
  }

  /** The canonical text of `v`, or None when it holds a number that is not an integer. */
  method Canonicalize(v: Value) returns (text: Option<string>)
    ensures text == if Serializable(v) then Some(Encode(v)) else None
  {
    var buf := new Buffer();
    var ok := WriteCanonical(buf, v);
    assert "" + Encode(v) == Encode(v);
    if ok { return Some(buf.data); }
    return None;
  }
}
