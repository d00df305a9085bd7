/** Media types as the fragment model sees them: the `type` part of a
    Content-Type value (what `contentType.parse(value).type` yields) and the
    fixed table of supported fragment types with the formats each can be
    rendered as. */
module MediaType {

  const TextPlain: string := "text/plain"
  const TextMarkdown: string := "text/markdown"
  const TextHtml: string := "text/html"
  const ApplicationJson: string := "application/json"

  /** The supported fragment types, in the order the source lists them. */
  const ValidTypes: seq<string> := [TextMarkdown, TextHtml, TextPlain, ApplicationJson]

  /** The characters JavaScript's `String.prototype.trim` removes: white space
      (including every space separator) and line terminators. */
  predicate IsWhitespace(c: char) {
    || c == '\t' || c == '\n' || c == '\U{B}' || c == '\U{C}' || c == '\r' || c == ' '
    || c == '\U{A0}' || c == '\U{1680}' || ('\U{2000}' <= c <= '\U{200A}')
    || c == '\U{2028}' || c == '\U{2029}' || c == '\U{202F}' || c == '\U{205F}'
    || c == '\U{3000}' || c == '\U{FEFF}'
  }

  /** No white space at either end. */
  predicate IsTrimmed(s: string) {
    s == [] || (!IsWhitespace(s[0]) && !IsWhitespace(s[|s| - 1]))
  }

  function TrimStart(s: string): string {
    if s != [] && IsWhitespace(s[0]) then TrimStart(s[1..]) else s
  }

  function TrimEnd(s: string): string {
    if s != [] && IsWhitespace(s[|s| - 1]) then TrimEnd(s[..|s| - 1]) else s
  }

  /** `value.trim()`. */
  function Trim(s: string): string {
    TrimEnd(TrimStart(s))
  }

  /** `value.slice(0, value.indexOf(';'))`, or all of `value` when it holds no ';'. */
  function BeforeSemicolon(s: string): string {
    if s == [] || s[0] == ';' then [] else [s[0]] + BeforeSemicolon(s[1..])
  }

  /** The media type of a Content-Type value with its parameters dropped
      (`contentType.parse(value).type`): it holds no ';' and no surrounding
      white space, and a value already of that form is its own media type. */
  function ParseType(value: string): (r: string)
    ensures ';' !in r && IsTrimmed(r)
    ensures ';' !in value && IsTrimmed(value) ==> r == value
  {
    BeforeSemicolonSpec(value);
    TrimSpec(BeforeSemicolon(value));
    Trim(BeforeSemicolon(value))
  }

  /** Trimming the start drops a run of white space and keeps the rest. */
  lemma {:induction false} TrimStartSpec(s: string)
    ensures var r := TrimStart(s);
      && |r| <= |s| && r == s[|s| - |r|..]
      && (r == [] || !IsWhitespace(r[0]))
      && forall i :: 0 <= i < |s| - |r| ==> IsWhitespace(s[i])
  {
    if s != [] && IsWhitespace(s[0]) {
      var r := TrimStart(s[1..]);
      TrimStartSpec(s[1..]);
      assert s[1..][|s| - 1 - |r|..] == s[|s| - |r|..];
      assert forall i :: 1 <= i < |s| ==> s[i] == s[1..][i - 1];
    }
  }

  /** Trimming the end drops a run of white space and keeps the rest. */
  lemma {:induction false} TrimEndSpec(s: string)
    ensures var r := TrimEnd(s);
      && |r| <= |s| && r == s[..|r|]
      && (r == [] || !IsWhitespace(r[|r| - 1]))
      && forall i :: |r| <= i < |s| ==> IsWhitespace(s[i])
  {
    if s != [] && IsWhitespace(s[|s| - 1]) {
      var r := TrimEnd(s[..|s| - 1]);
      TrimEndSpec(s[..|s| - 1]);
      assert s[..|s| - 1][..|r|] == s[..|r|];
      assert forall i :: 0 <= i < |s| - 1 ==> s[i] == s[..|s| - 1][i];
    }
  }

  /** `trim()` leaves no white space at either end, adds no character, and
      leaves a trimmed string as it is. */
  lemma TrimSpec(s: string)
    ensures IsTrimmed(Trim(s))
    ensures forall c :: c in Trim(s) ==> c in s
    ensures IsTrimmed(s) ==> Trim(s) == s
  {
    TrimStartSpec(s);
    TrimEndSpec(TrimStart(s));
    var t := TrimStart(s);
    assert forall c :: c in Trim(s) ==> c in t;
  }

  /** The part before the first ';': a prefix holding no ';', followed in the
      value by a ';' or by nothing. */
  lemma {:induction false} BeforeSemicolonSpec(s: string)
    ensures var r := BeforeSemicolon(s);
      && |r| <= |s| && r == s[..|r|] && ';' !in r
      && (|r| < |s| ==> s[|r|] == ';')
      && (';' !in s ==> r == s)
  {
    if s != [] && s[0] != ';' {
      BeforeSemicolonSpec(s[1..]);
    }
  }

  /** The fixed conversion table: the formats a fragment of media type `mime`
      can be rendered as, most preferred first. */
  function FormatsOf(mime: string): (r: seq<string>)
    ensures r != [] <==> mime in ValidTypes
    ensures r != [] ==> r[0] == mime && r[|r| - 1] == TextPlain
    ensures forall f :: f in r ==> f in ValidTypes
    ensures forall i, j :: 0 <= i < j < |r| ==> r[i] != r[j]
  {
    if mime == TextPlain then [TextPlain]
    else if mime == TextMarkdown then [TextMarkdown, TextHtml, TextPlain]
    else if mime == TextHtml then [TextHtml, TextPlain]
    else if mime == ApplicationJson then [ApplicationJson, TextPlain]
    else []
  }

  /** `Fragment.isSupportedType`: the media type, parameters ignored, is one of
      the four supported types; so exactly the values whose media type has a
      row in the conversion table are supported. */
  predicate IsSupportedType(value: string): (b: bool)
    ensures b <==> FormatsOf(ParseType(value)) != []
  {
    ParseType(value) in ValidTypes
  }

  /** Each supported type is a bare media type, so it is supported as written. */
  lemma SupportedTypeIsBare(t: string)
    ensures t in ValidTypes ==> ParseType(t) == t && IsSupportedType(t)
  {
    if t == TextPlain {
      assert ';' !in TextPlain && IsTrimmed(TextPlain);
    } else if t == TextMarkdown {
      assert ';' !in TextMarkdown && IsTrimmed(TextMarkdown);
    } else if t == TextHtml {
      assert ';' !in TextHtml && IsTrimmed(TextHtml);
    } else if t == ApplicationJson {
      assert ';' !in ApplicationJson && IsTrimmed(ApplicationJson);
    }
  }

  /** No format in the table carries parameters. */
  lemma FormatsAreBare(mime: string)
    ensures forall f :: f in FormatsOf(mime) ==> ';' !in f
  {
    assert ';' !in TextPlain && ';' !in TextMarkdown && ';' !in TextHtml && ';' !in ApplicationJson;
  }

  /** Of the supported types, all but JSON start with "text/". */
  lemma TextTypes()
    ensures forall t :: t in ValidTypes ==> (|t| >= 5 && t[..5] == "text/" <==> t != ApplicationJson)
  {
    assert TextPlain[..5] == "text/";
    assert TextMarkdown[..5] == "text/";
    assert TextHtml[..5] == "text/";
    assert ApplicationJson[..5] != "text/" by {
      assert ApplicationJson[0] != 't';
    }
  }

  /** Parameters after the first ';' never reach the media type. */
  lemma {:induction false} BeforeSemicolonOfParameters(base: string, params: string)
    requires ';' !in base
    ensures BeforeSemicolon(base + ";" + params) == base
  {
    if base == [] {
      assert (base + ";" + params)[0] == ';';
    } else {
      assert (base + ";" + params)[1..] == base[1..] + ";" + params;
      BeforeSemicolonOfParameters(base[1..], params);
    }
  }

  /** A Content-Type value with parameters has the media type of its bare part. */
  lemma ParseTypeIgnoresParameters(base: string, params: string)
    requires ';' !in base
    ensures ParseType(base + ";" + params) == ParseType(base)
  {
    BeforeSemicolonOfParameters(base, params);
    BeforeSemicolonSpec(base);
  }

  /** So support does not depend on parameters: "text/html; charset=utf-8" is
      supported exactly when "text/html" is. */
  lemma SupportIgnoresParameters(base: string, params: string)
    requires ';' !in base
    ensures IsSupportedType(base + ";" + params) <==> IsSupportedType(base)
  {
    ParseTypeIgnoresParameters(base, params);
  }

  /** "text/html; charset=utf-8" is a supported type. */
  lemma CharsetIsIgnored()
    ensures IsSupportedType("text/html; charset=utf-8")
  {
    assert "text/html; charset=utf-8" == TextHtml + ";" + " charset=utf-8";
    assert ';' !in TextHtml;
    SupportIgnoresParameters(TextHtml, " charset=utf-8");
    SupportedTypeIsBare(TextHtml);
  }

  /** The media type is already a bare media type. */
  lemma ParseTypeIdempotent(value: string)
    ensures ParseType(ParseType(value)) == ParseType(value)
  {
  }
}
