/** Media type headers (service.go:31-44, service.go:247-259) and the encodings they select. */
module MediaType {
  import opened Prelude

  datatype Format = Json | Proto

  const JSON := "application/json"
  const PROTOBUF := "application/protobuf"
  const STREAM_JSON := "application/duh-stream+json"
  const STREAM_PROTOBUF := "application/duh-stream+protobuf"

  /** Everything before the first separator. */
  function TrimSuffix(s: string, seps: string): string {
    if s == "" || s[0] in seps then "" else [s[0]] + TrimSuffix(s[1..], seps)
  }

  function LowerChar(c: char): char {
    if 'A' <= c <= 'Z' then c - 'A' + 'a' else c
  }

  function Lower(s: string): string {
    seq(|s|, i requires 0 <= i < |s| => LowerChar(s[i]))
  }

  predicate IsSpace(c: char) {
    c == ' ' || '\t' <= c <= '\r' || c == '\U{85}' || c == '\U{A0}'
  }

  function TrimLeft(s: string): string {
    if s != "" && IsSpace(s[0]) then TrimLeft(s[1..]) else s
  }

  function TrimRight(s: string): string {
    if s != "" && IsSpace(s[|s| - 1]) then TrimRight(s[..|s| - 1]) else s
  }

  function Normalize(value: string): string {
    TrimRight(TrimLeft(Lower(TrimSuffix(value, ";,"))))
  }

  predicate Clean(s: string) {
    forall i :: 0 <= i < |s| ==> s[i] != ';' && s[i] != ',' && !('A' <= s[i] <= 'Z')
  }

  /** A media type as it is compared: lower case, without parameters or surrounding space. */
  predicate Canonical(s: string) {
    && Clean(s)
    && (s != "" ==> !IsSpace(s[0]) && !IsSpace(s[|s| - 1]))
  }

  lemma {:induction false} TrimSuffixCuts(a: string, b: string, seps: string)
    requires b == "" || b[0] in seps
    ensures TrimSuffix(a + b, seps) == TrimSuffix(a, seps)
  {
    if a != "" {
      assert (a + b)[1..] == a[1..] + b;
      TrimSuffixCuts(a[1..], b, seps);
    } else {
      assert a + b == b;
    }
  }

  lemma {:induction false} TrimSuffixKeeps(s: string, seps: string)
    ensures TrimSuffix(s, seps) <= s
    ensures forall i :: 0 <= i < |TrimSuffix(s, seps)| ==> TrimSuffix(s, seps)[i] !in seps
    ensures (forall i :: 0 <= i < |s| ==> s[i] !in seps) ==> TrimSuffix(s, seps) == s
  {
    if s != "" && s[0] !in seps {
      TrimSuffixKeeps(s[1..], seps);
    }
  }

  lemma {:induction false} TrimLeftEnds(s: string)
    ensures EndsWith(s, TrimLeft(s))
    ensures TrimLeft(s) != "" ==> !IsSpace(TrimLeft(s)[0])
  {
    if s != "" && IsSpace(s[0]) {
      var t := TrimLeft(s[1..]);
      TrimLeftEnds(s[1..]);
      assert s[|s| - |t|..] == s[1..][|s| - 1 - |t|..];
    }
  }

  lemma {:induction false} TrimRightEnds(s: string)
    ensures TrimRight(s) <= s
    ensures TrimRight(s) != "" ==> !IsSpace(TrimRight(s)[|TrimRight(s)| - 1])
  {
    if s != "" && IsSpace(s[|s| - 1]) {
      TrimRightEnds(s[..|s| - 1]);
    }
  }

  /** A canonical media type is its own normal form. */
  lemma CanonicalIsNormal(s: string)
    requires Canonical(s)
    ensures Normalize(s) == s
  {
    TrimSuffixKeeps(s, ";,");
    assert Lower(s) == s;
  }

  lemma LoweredIsClean(value: string)
    ensures Clean(Lower(TrimSuffix(value, ";,")))
  {
    var t := TrimSuffix(value, ";,");
    TrimSuffixKeeps(value, ";,");
    assert ";,"[0] == ';' && ";,"[1] == ',';
    forall i | 0 <= i < |t| ensures t[i] != ';' && t[i] != ',' {
      assert t[i] !in ";,";
    }
  }

  lemma TrimmedIsCanonical(s: string)
    requires Clean(s)
    ensures Canonical(TrimRight(TrimLeft(s)))
  {
    var l := TrimLeft(s);
    TrimLeftEnds(s);
    TrimRightEnds(l);
    assert Clean(l) by {
      forall i | 0 <= i < |l| ensures l[i] == s[i + |s| - |l|] {}
    }
  }

  /** Normalizing gives a canonical media type, so doing it twice changes nothing. */
  lemma NormalizeCanonical(value: string)
    ensures Canonical(Normalize(value))
    ensures Normalize(Normalize(value)) == Normalize(value)
  {
    LoweredIsClean(value);
    TrimmedIsCanonical(Lower(TrimSuffix(value, ";,")));
    CanonicalIsNormal(Normalize(value));
  }

  /** MIME parameters and further alternatives are ignored, and so is case. */
  lemma NormalizeIgnores(value: string, sep: char, rest: string)
    requires sep == ';' || sep == ','
    ensures Normalize(value + [sep] + rest) == Normalize(value)
    ensures Normalize(Lower(value)) == Normalize(value)
  {
    assert value + [sep] + rest == value + ([sep] + rest);
    assert ";,"[0] == ';' && ";,"[1] == ',';
    TrimSuffixCuts(value, [sep] + rest, ";,");
    LowerTrim(value);
    assert Lower(Lower(TrimSuffix(value, ";,"))) == Lower(TrimSuffix(value, ";,"));
  }

  lemma {:induction false} LowerTrim(s: string)
    ensures TrimSuffix(Lower(s), ";,") == Lower(TrimSuffix(s, ";,"))
  {
    if s != "" {
      assert ";,"[0] == ';' && ";,"[1] == ',';
      assert forall c: char :: c in ";," <==> c == ';' || c == ',';
      assert Lower(s)[1..] == Lower(s[1..]);
      LowerTrim(s[1..]);
      if s[0] !in ";," {
        var t := TrimSuffix(s[1..], ";,");
        assert Lower([s[0]] + t) == [LowerChar(s[0])] + Lower(t);
      }
    }
  }

  // ---- what a normalized media type selects ----

  /** The encoding Reply uses for an Accept header. */
  function ReplyFormat(mime: string): Option<Format> {
    if mime == "" || mime == "*/*" || mime == "application/*" || mime == JSON then Some(Json)
    else if mime == PROTOBUF then Some(Proto)
    else None
  }

  /** The encoding the client uses for the body of a response. */
  function BodyFormat(mime: string): Option<Format> {
    if mime == JSON then Some(Json) else if mime == PROTOBUF then Some(Proto) else None
  }

  /** The encoding of a stream, on both sides. */
  function StreamFormat(mime: string): Option<Format> {
    if mime == STREAM_JSON then Some(Json) else if mime == STREAM_PROTOBUF then Some(Proto) else None
  }

  function Media(f: Format): string {
    if f.Json? then JSON else PROTOBUF
  }

  /** `header` is `name` with some of its letters in upper case. */
  predicate CaseVariant(header: string, name: string) {
    && |header| == |name|
    && forall i :: 0 <= i < |name| ==>
         header[i] == name[i] || ('a' <= name[i] <= 'z' && header[i] == name[i] - 'a' + 'A')
  }

  /** A header in any case and with any parameters normalizes to the name it stands for. */
  lemma NormalizeVariant(header: string, name: string, params: string)
    requires Canonical(name) && CaseVariant(header, name)
    ensures Normalize(header) == name && Normalize(header + [';'] + params) == name
  {
    assert Lower(header) == name;
    NormalizeIgnores(header, ';', params);
    CanonicalIsNormal(name);
  }

  /** Which Accept headers Reply answers in which encoding; it supports no others. */
  lemma ReplyFormatIff(accept: string)
    ensures ReplyFormat(Normalize(accept)) == Some(Json) <==>
              Normalize(accept) in {"", "*/*", "application/*", "application/json"}
    ensures ReplyFormat(Normalize(accept)) == Some(Proto) <==> Normalize(accept) == "application/protobuf"
  {
    assert |"application/protobuf"| == 20 && |"application/json"| == 16 && |"application/*"| == 13 && |"*/*"| == 3;
  }

  /**
   No Accept header, a wildcard that covers JSON, or JSON itself: in any case, with or
   without parameters, Reply answers in JSON.
   */
  lemma JsonByDefault(header: string, name: string, params: string)
    requires name in {"", "*/*", "application/*", "application/json"} && CaseVariant(header, name)
    ensures ReplyFormat(Normalize(header)) == Some(Json)
    ensures ReplyFormat(Normalize(header + [';'] + params)) == Some(Json)
  {
    NormalizeVariant(header, name, params);
  }

  /** Which header selects which encoding of a stream, in any case and with any parameters, on both sides. */
  lemma StreamHeader(header: string, name: string, params: string)
    requires CaseVariant(header, name)
    ensures name == "application/duh-stream+json" ==> StreamFormat(Normalize(header + [';'] + params)) == Some(Json)
    ensures name == "application/duh-stream+protobuf" ==> StreamFormat(Normalize(header + [';'] + params)) == Some(Proto)
  {
    if name == "application/duh-stream+json" || name == "application/duh-stream+protobuf" {
      NormalizeVariant(header, name, params);
      StreamFormatIff(header + [';'] + params);
    }
  }

  lemma StreamFormatIff(header: string)
    ensures StreamFormat(Normalize(header)) == Some(Json) <==> Normalize(header) == "application/duh-stream+json"
    ensures StreamFormat(Normalize(header)) == Some(Proto) <==> Normalize(header) == "application/duh-stream+protobuf"
  {
    assert |"application/duh-stream+json"| == 27 && |"application/duh-stream+protobuf"| == 31;
  }

  /** What Reply declares, the client decodes with the same encoding. */
  lemma MediaAgrees(f: Format)
    ensures Media(f) == if f.Json? then "application/json" else "application/protobuf"
    ensures BodyFormat(Normalize(Media(f))) == Some(f)
    ensures ReplyFormat(Normalize(Media(f))) == Some(f)
  {
    MediaCanonical(f);
    CanonicalIsNormal(Media(f));
  }

  lemma MediaCanonical(f: Format)
    ensures Canonical(Media(f))
  {
    assert f.Json? ==> Canonical("application/json");
    assert f.Proto? ==> Canonical("application/protobuf");
  }
}
