/** The compound ETag of the migration proxy and its string encoding.

    The proxy hands its callers one opaque tag string that packs the tag of the
    source backend and the tag of the destination backend. The encoding here has
    the shape of the JSON object the proxy produces,
      {"SourceETag":<field>,"DestinationETag":<field>}
    where a field is `null` or a string literal in which `"` and `\` are escaped
    with a backslash. Decode accepts exactly the strings Encode produces. */
module EtagCodec {
  import opened Wrappers

  /** Which tag each backend last reported; an absent side did not serve the record. */
  datatype MigrationEtag = MigrationEtag(sourceEtag: Option<string>, destinationEtag: Option<string>)

  /** Tags handed to callers name at most one backend. */
  predicate AtMostOneSide(t: MigrationEtag) {
    t.sourceEtag.None? || t.destinationEtag.None?
  }

  const SourceField: string := "{\"SourceETag\":"
  const DestinationField: string := ",\"DestinationETag\":"
  const ObjectEnd: string := "}"
  const Null: string := "null"

  predicate NeedsEscape(c: char) {
    c == '"' || c == '\\'
  }

  /** The body of a string literal holding `s`, without the surrounding quotes. */
  function Escape(s: string): string {
    if |s| == 0 then ""
    else (if NeedsEscape(s[0]) then ['\\', s[0]] else [s[0]]) + Escape(s[1..])
  }

  function EncodeField(v: Option<string>): string {
    match v
    case None => Null
    case Some(x) => "\"" + Escape(x) + "\""
  }

  function Encode(t: MigrationEtag): string {
    SourceField + EncodeField(t.sourceEtag) + DestinationField + EncodeField(t.destinationEtag) + ObjectEnd
  }

  /** Reads a string-literal body up to its closing quote; yields the unescaped
      text and what follows the quote. */
  function ReadStringBody(s: string): Option<(string, string)>
    decreases |s|
  {
    if |s| == 0 then None
    else if s[0] == '"' then Some(("", s[1..]))
    else if s[0] == '\\' then
      if 2 <= |s| && NeedsEscape(s[1]) then
        match ReadStringBody(s[2..])
        case None => None
        case Some(p) => Some(([s[1]] + p.0, p.1))
      else None
    else
      match ReadStringBody(s[1..])
      case None => None
      case Some(p) => Some(([s[0]] + p.0, p.1))
  }

  /** Reads one field (`null` or a string literal) from the front of `s`. */
  function ReadField(s: string): Option<(Option<string>, string)> {
    if Null <= s then Some((None, s[|Null|..]))
    else if 1 <= |s| && s[0] == '"' then
      match ReadStringBody(s[1..])
      case None => None
      case Some(p) => Some((Some(p.0), p.1))
    else None
  }

  function Decode(s: string): Option<MigrationEtag> {
    if !(SourceField <= s) then None
    else
      match ReadField(s[|SourceField|..])
      case None => None
      case Some(first) =>
        if !(DestinationField <= first.1) then None
        else
          match ReadField(first.1[|DestinationField|..])
          case None => None
          case Some(second) =>
            if second.1 == ObjectEnd then Some(MigrationEtag(first.0, second.0)) else None
  }

  lemma {:induction false} ReadStringBodyOfEscape(v: string, rest: string)
    ensures ReadStringBody(Escape(v) + "\"" + rest) == Some((v, rest))
    decreases |v|
  {
    var s := Escape(v) + "\"" + rest;
    if |v| == 0 {
      assert s == "\"" + rest;
      assert s[1..] == rest;
    } else {
      var tail := Escape(v[1..]) + "\"" + rest;
      ReadStringBodyOfEscape(v[1..], rest);
      assert [v[0]] + v[1..] == v;
      if NeedsEscape(v[0]) {
        assert s == ['\\', v[0]] + tail;
        assert s[2..] == tail;
      } else {
        assert s == [v[0]] + tail;
        assert s[1..] == tail;
      }
    }
  }

  lemma {:induction false} ReadStringBodySound(s: string, v: string, rest: string)
    requires ReadStringBody(s) == Some((v, rest))
    ensures s == Escape(v) + "\"" + rest
    decreases |s|
  {
    if s[0] == '"' {
      assert v == "" && rest == s[1..];
      assert s == [s[0]] + s[1..];
    } else if s[0] == '\\' {
      var p := ReadStringBody(s[2..]).value;
      ReadStringBodySound(s[2..], p.0, p.1);
      assert v == [s[1]] + p.0 && rest == p.1;
      assert v[0] == s[1] && v[1..] == p.0;
      assert Escape(v) == ['\\', s[1]] + Escape(p.0);
      assert s == ['\\', s[1]] + s[2..];
    } else {
      var p := ReadStringBody(s[1..]).value;
      ReadStringBodySound(s[1..], p.0, p.1);
      assert v == [s[0]] + p.0 && rest == p.1;
      assert v[0] == s[0] && v[1..] == p.0;
      assert Escape(v) == [s[0]] + Escape(p.0);
      assert s == [s[0]] + s[1..];
    }
  }

  lemma ReadFieldOfEncode(f: Option<string>, rest: string)
    ensures ReadField(EncodeField(f) + rest) == Some((f, rest))
  {
    var s := EncodeField(f) + rest;
    match f
    case None =>
      assert Null <= s;
      assert s[|Null|..] == rest;
    case Some(x) =>
      assert s[0] == '"';
      assert !(Null <= s) by { assert s[0] != Null[0]; }
      assert s[1..] == Escape(x) + "\"" + rest;
      ReadStringBodyOfEscape(x, rest);
  }

  lemma ReadFieldSound(s: string, f: Option<string>, rest: string)
    requires ReadField(s) == Some((f, rest))
    ensures s == EncodeField(f) + rest
  {
    if Null <= s {
      assert s == Null + s[|Null|..];
    } else {
      var p := ReadStringBody(s[1..]).value;
      ReadStringBodySound(s[1..], p.0, p.1);
      assert s == "\"" + s[1..];
    }
  }

  /** Round trip: every compound tag, both-absent included, decodes back to itself. */
  lemma DecodeEncode(t: MigrationEtag)
    ensures Decode(Encode(t)) == Some(t)
  {
    var s := Encode(t);
    var afterSource := EncodeField(t.destinationEtag) + ObjectEnd;
    var afterFirst := DestinationField + afterSource;
    assert s == SourceField + (EncodeField(t.sourceEtag) + afterFirst);
    assert s[|SourceField|..] == EncodeField(t.sourceEtag) + afterFirst;
    ReadFieldOfEncode(t.sourceEtag, afterFirst);
    assert afterFirst[|DestinationField|..] == afterSource;
    ReadFieldOfEncode(t.destinationEtag, ObjectEnd);
  }

  /** Canonicity: a string decodes only when it is the encoding of what it decodes to. */
  lemma DecodeSound(s: string, t: MigrationEtag)
    requires Decode(s) == Some(t)
    ensures s == Encode(t)
  {
    assert SourceField <= s;
    var afterSource := s[|SourceField|..];
    assert s == SourceField + afterSource;
    var first := ReadField(afterSource).value;
    ReadFieldSound(afterSource, first.0, first.1);
    assert DestinationField <= first.1;
    var afterDestination := first.1[|DestinationField|..];
    assert first.1 == DestinationField + afterDestination;
    var second := ReadField(afterDestination).value;
    ReadFieldSound(afterDestination, second.0, second.1);
    assert second.1 == ObjectEnd;
    assert t == MigrationEtag(first.0, second.0);
    calc {
      s;
      SourceField + (EncodeField(first.0) + (DestinationField + (EncodeField(second.0) + ObjectEnd)));
      { ConcatRegroup(SourceField, EncodeField(first.0), DestinationField, EncodeField(second.0), ObjectEnd); }
      Encode(t);
    }
  }

  lemma ConcatRegroup(a: string, b: string, c: string, d: string, e: string)
    ensures a + (b + (c + (d + e))) == a + b + c + d + e
  {
  }

  /** Decode and Encode are inverse to each other, in both directions. */
  lemma DecodeIffEncode(s: string, t: MigrationEtag)
    ensures Decode(s) == Some(t) <==> s == Encode(t)
  {
    if Decode(s) == Some(t) {
      DecodeSound(s, t);
    }
    if s == Encode(t) {
      DecodeEncode(t);
    }
  }

  /** Distinct compound tags have distinct encodings. */
  lemma EncodeInjective(a: MigrationEtag, b: MigrationEtag)
    ensures Encode(a) == Encode(b) ==> a == b
  {
    DecodeEncode(a);
    DecodeEncode(b);
  }
}
