/** The log format the reader is built with: the one configured or, when
    that is empty, a default template. A template is a sequence of literal
    separators and `$name` placeholders; its text is their concatenation. */
module Config {
  import opened Schema

  datatype Token = Literal(text: string) | Placeholder(name: string)

  function Show(tok: Token): string {
    match tok
    case Literal(s) => s
    case Placeholder(n) => "$" + n
  }

  /** The format string a template is written as. */
  function Render(t: seq<Token>): string {
    if t == [] then [] else Show(t[0]) + Render(t[1..])
  }

  /** The default template, token by token:
      `$http_x_forwarded_for $host - $remote_user [$time_local] "$request" $status
       $body_bytes_sent "$http_referer" "$http_user_agent" $remote_addr
       $request_time $upstream_response_time` (one line, single spaces). */
  const DefaultTemplate: seq<Token> := [
    Placeholder("http_x_forwarded_for"), Literal(" "),
    Placeholder("host"), Literal(" - "),
    Placeholder("remote_user"), Literal(" ["),
    Placeholder("time_local"), Literal("] \""),
    Placeholder("request"), Literal("\" "),
    Placeholder("status"), Literal(" "),
    Placeholder("body_bytes_sent"), Literal(" \""),
    Placeholder("http_referer"), Literal("\" \""),
    Placeholder("http_user_agent"), Literal("\" "),
    Placeholder("remote_addr"), Literal(" "),
    Placeholder("request_time"), Literal(" "),
    Placeholder("upstream_response_time")
  ]

  const DefaultFormat: string := Render(DefaultTemplate)

  /** The format handed to the reader: an empty one is replaced by the default. */
  function EffectiveFormat(logformat: string): (r: string)
    ensures r != []
    ensures logformat != [] ==> r == logformat
    ensures logformat == [] ==> r == DefaultFormat
  {
    assert Show(DefaultTemplate[0]) != [];
    if |logformat| == 0 then DefaultFormat else logformat
  }

  /** Characters that would continue a placeholder name. */
  predicate IsNameChar(c: char) {
    'a' <= c <= 'z' || 'A' <= c <= 'Z' || '0' <= c <= '9' || c == '_'
  }

  /** `$name` occurs at position p as a whole placeholder: it is not merely
      the front of a longer name, as `$request` is of `$request_time`. */
  predicate PlaceholderAt(f: string, p: nat, name: string) {
    p + 1 + |name| <= |f| && f[p] == '$' && f[p + 1 .. p + 1 + |name|] == name &&
    (p + 1 + |name| == |f| || !IsNameChar(f[p + 1 + |name|]))
  }

  predicate HasPlaceholder(f: string, name: string) {
    exists p: nat | p < |f| :: PlaceholderAt(f, p, name)
  }

  /** The token after position i, if any, is a separator that cannot extend a name. */
  predicate SeparatedAt(t: seq<Token>, i: nat)
    requires i < |t|
  {
    i + 1 == |t| ||
    (t[i + 1].Literal? && t[i + 1].text != [] && !IsNameChar(t[i + 1].text[0]))
  }

  lemma {:induction false} RenderAppend(a: seq<Token>, b: seq<Token>)
    ensures Render(a + b) == Render(a) + Render(b)
  {
    if a == [] {
      assert a + b == b;
    } else {
      assert (a + b)[0] == a[0];
      assert (a + b)[1..] == a[1..] + b;
      RenderAppend(a[1..], b);
      assert Render(a + b) == Show(a[0]) + (Render(a[1..]) + Render(b));
    }
  }

  /** `$name` placed between a prefix and a suffix that cannot extend it. */
  lemma WholePlaceholder(before: string, name: string, rest: string)
    requires rest == [] || !IsNameChar(rest[0])
    ensures PlaceholderAt(before + ("$" + name) + rest, |before|, name)
  {
    var f := before + ("$" + name) + rest;
    var p := |before|;
    assert f[p] == '$';
    assert f[p + 1 .. p + 1 + |name|] == name;
    if rest != [] {
      assert f[p + 1 + |name|] == rest[0];
    }
  }

  /** The text of the tokens after position i starts with the next token's text. */
  lemma RenderFrom(t: seq<Token>, i: nat)
    requires i < |t|
    ensures Render(t[i..]) == Show(t[i]) + Render(t[i + 1..])
  {
    assert t[i..][0] == t[i];
    assert t[i..][1..] == t[i + 1..];
  }

  /** A placeholder followed by a separator appears whole in the rendered
      format, right after the text of the tokens before it. */
  lemma PlaceholderRendered(t: seq<Token>, i: nat)
    requires i < |t| && t[i].Placeholder? && SeparatedAt(t, i)
    ensures PlaceholderAt(Render(t), |Render(t[..i])|, t[i].name)
  {
    var name := t[i].name;
    var before, rest := Render(t[..i]), Render(t[i + 1..]);
    assert t == t[..i] + t[i..];
    RenderAppend(t[..i], t[i..]);
    RenderFrom(t, i);
    assert Render(t) == before + ("$" + name) + rest;
    if i + 1 < |t| {
      RenderFrom(t, i + 1);
      assert rest == t[i + 1].text + Render(t[i + 2..]);
      assert rest[0] == t[i + 1].text[0];
    } else {
      assert t[i + 1..] == [];
    }
    WholePlaceholder(before, name, rest);
  }

  /** Every placeholder of a template whose placeholders are each followed
      by a separator appears whole in the template's text. */
  lemma PlaceholdersWhole(t: seq<Token>)
    requires forall i :: 0 <= i < |t| && t[i].Placeholder? ==> SeparatedAt(t, i)
    ensures forall i :: 0 <= i < |t| && t[i].Placeholder? ==> HasPlaceholder(Render(t), t[i].name)
  {
    forall i | 0 <= i < |t| && t[i].Placeholder?
      ensures HasPlaceholder(Render(t), t[i].name)
    {
      PlaceholderRendered(t, i);
    }
  }

  /** The default template follows each placeholder by a separator. */
  lemma DefaultTemplateSeparated()
    ensures forall i :: 0 <= i < |DefaultTemplate| && DefaultTemplate[i].Placeholder? ==>
              SeparatedAt(DefaultTemplate, i)
  {
    var t := DefaultTemplate;
    forall i | 0 <= i < |t| && t[i].Placeholder?
      ensures SeparatedAt(t, i)
    {
      assert i == 0 || i == 2 || i == 4 || i == 6 || i == 8 || i == 10 || i == 12 ||
             i == 14 || i == 16 || i == 18 || i == 20 || i == 22;
    }
  }

  /** Where in the default template each column after the line number is bound. */
  function DefaultPosition(k: nat): (i: nat)
    requires 1 <= k < |Table|
    ensures i < |DefaultTemplate| && DefaultTemplate[i] == Placeholder(Table[k].name)
  {
    match k
    case 1 => 8
    case 2 => 10
    case 3 => 12
    case 4 => 18
    case 5 => 22
    case 6 => 0
    case 7 => 2
    case 8 => 4
    case 9 => 6
    case 10 => 14
    case 11 => 16
    case 12 => 20
  }

  /** The default format binds, as whole placeholders, every field that
      validation reads: every column of the table except the line number. */
  lemma DefaultFormatNamesEveryColumn()
    ensures forall k :: 1 <= k < |Table| ==> HasPlaceholder(DefaultFormat, Table[k].name)
  {
    DefaultTemplateSeparated();
    PlaceholdersWhole(DefaultTemplate);
    forall k | 1 <= k < |Table|
      ensures HasPlaceholder(DefaultFormat, Table[k].name)
    {
      var i := DefaultPosition(k);
      assert DefaultTemplate[i].Placeholder?;
    }
  }

  /** The text of a stretch of tokens is the text of its two halves. */
  lemma RenderSplit(t: seq<Token>, i: nat, j: nat, k: nat)
    requires i <= j <= k <= |t|
    ensures Render(t[i..k]) == Render(t[i..j]) + Render(t[j..k])
  {
    assert t[i..k] == t[i..j] + t[j..k];
    RenderAppend(t[i..j], t[j..k]);
  }

  lemma RenderCons(tok: Token, rest: seq<Token>)
    ensures Render([tok] + rest) == Show(tok) + Render(rest)
  {
    assert ([tok] + rest)[1..] == rest;
  }

  lemma RenderFour(a: Token, b: Token, c: Token, d: Token)
    ensures Render([a, b, c, d]) == Show(a) + Show(b) + Show(c) + Show(d)
  {
    RenderCons(d, []);
    RenderCons(c, [d]);
    RenderCons(b, [c] + [d]);
    RenderCons(a, [b] + ([c] + [d]));
    assert [a, b, c, d] == [a] + ([b] + ([c] + [d]));
  }

  // Each placeholder of the default template with its `$name` text.

  lemma PlaceholderTextHttpXForwardedFor()
    ensures Show(Placeholder("http_x_forwarded_for")) == "$http_x_forwarded_for"
  {
    assert Show(Placeholder("http_x_forwarded_for")) == "$" + "http_x_forwarded_for";
  }

  lemma PlaceholderTextHost()
    ensures Show(Placeholder("host")) == "$host"
  {
    assert Show(Placeholder("host")) == "$" + "host";
  }

  lemma PlaceholderTextRemoteUser()
    ensures Show(Placeholder("remote_user")) == "$remote_user"
  {
    assert Show(Placeholder("remote_user")) == "$" + "remote_user";
  }

  lemma PlaceholderTextTimeLocal()
    ensures Show(Placeholder("time_local")) == "$time_local"
  {
    assert Show(Placeholder("time_local")) == "$" + "time_local";
  }

  lemma PlaceholderTextRequest()
    ensures Show(Placeholder("request")) == "$request"
  {
    assert Show(Placeholder("request")) == "$" + "request";
  }

  lemma PlaceholderTextStatus()
    ensures Show(Placeholder("status")) == "$status"
  {
    assert Show(Placeholder("status")) == "$" + "status";
  }

  lemma PlaceholderTextBodyBytesSent()
    ensures Show(Placeholder("body_bytes_sent")) == "$body_bytes_sent"
  {
    assert Show(Placeholder("body_bytes_sent")) == "$" + "body_bytes_sent";
  }

  lemma PlaceholderTextHttpReferer()
    ensures Show(Placeholder("http_referer")) == "$http_referer"
  {
    assert Show(Placeholder("http_referer")) == "$" + "http_referer";
  }

  lemma PlaceholderTextHttpUserAgent()
    ensures Show(Placeholder("http_user_agent")) == "$http_user_agent"
  {
    assert Show(Placeholder("http_user_agent")) == "$" + "http_user_agent";
  }

  lemma PlaceholderTextRemoteAddr()
    ensures Show(Placeholder("remote_addr")) == "$remote_addr"
  {
    assert Show(Placeholder("remote_addr")) == "$" + "remote_addr";
  }

  lemma PlaceholderTextRequestTime()
    ensures Show(Placeholder("request_time")) == "$request_time"
  {
    assert Show(Placeholder("request_time")) == "$" + "request_time";
  }

  lemma PlaceholderTextUpstreamResponseTime()
    ensures Show(Placeholder("upstream_response_time")) == "$upstream_response_time"
  {
    assert Show(Placeholder("upstream_response_time")) == "$" + "upstream_response_time";
  }

  // The default template's tokens, a few at a time, with their text: first
  // the tokens' own text, then their rendering, then their place in the
  // template.

  lemma TokenText0()
    ensures Show(Placeholder("http_x_forwarded_for")) + Show(Literal(" ")) + Show(Placeholder("host")) + Show(Literal(" - ")) == "$http_x_forwarded_for $host - "
  {
    PlaceholderTextHttpXForwardedFor();
    PlaceholderTextHost();
  }

  lemma PieceText0()
    ensures Render([Placeholder("http_x_forwarded_for"), Literal(" "), Placeholder("host"), Literal(" - ")]) == "$http_x_forwarded_for $host - "
  {
    RenderFour(Placeholder("http_x_forwarded_for"), Literal(" "), Placeholder("host"), Literal(" - "));
    TokenText0();
  }

  lemma DefaultPiece0()
    ensures Render(DefaultTemplate[..4]) == "$http_x_forwarded_for $host - "
  {
    assert DefaultTemplate[..4] == [Placeholder("http_x_forwarded_for"), Literal(" "), Placeholder("host"), Literal(" - ")];
    PieceText0();
  }

  lemma TokenText1()
    ensures Show(Placeholder("remote_user")) + Show(Literal(" [")) + Show(Placeholder("time_local")) + Show(Literal("] \"")) == "$remote_user [$time_local] \""
  {
    PlaceholderTextRemoteUser();
    PlaceholderTextTimeLocal();
  }

  lemma PieceText1()
    ensures Render([Placeholder("remote_user"), Literal(" ["), Placeholder("time_local"), Literal("] \"")]) == "$remote_user [$time_local] \""
  {
    RenderFour(Placeholder("remote_user"), Literal(" ["), Placeholder("time_local"), Literal("] \""));
    TokenText1();
  }

  lemma DefaultPiece1()
    ensures Render(DefaultTemplate[4..8]) == "$remote_user [$time_local] \""
  {
    assert DefaultTemplate[4..8] == [Placeholder("remote_user"), Literal(" ["), Placeholder("time_local"), Literal("] \"")];
    PieceText1();
  }

  lemma TokenText2()
    ensures Show(Placeholder("request")) + Show(Literal("\" ")) + Show(Placeholder("status")) + Show(Literal(" ")) == "$request\" $status "
  {
    PlaceholderTextRequest();
    PlaceholderTextStatus();
  }

  lemma PieceText2()
    ensures Render([Placeholder("request"), Literal("\" "), Placeholder("status"), Literal(" ")]) == "$request\" $status "
  {
    RenderFour(Placeholder("request"), Literal("\" "), Placeholder("status"), Literal(" "));
    TokenText2();
  }

  lemma DefaultPiece2()
    ensures Render(DefaultTemplate[8..12]) == "$request\" $status "
  {
    assert DefaultTemplate[8..12] == [Placeholder("request"), Literal("\" "), Placeholder("status"), Literal(" ")];
    PieceText2();
  }

  lemma TokenText3()
    ensures Show(Placeholder("body_bytes_sent")) + Show(Literal(" \"")) + Show(Placeholder("http_referer")) + Show(Literal("\" \"")) == "$body_bytes_sent \"$http_referer\" \""
  {
    PlaceholderTextBodyBytesSent();
    PlaceholderTextHttpReferer();
  }

  lemma PieceText3()
    ensures Render([Placeholder("body_bytes_sent"), Literal(" \""), Placeholder("http_referer"), Literal("\" \"")]) == "$body_bytes_sent \"$http_referer\" \""
  {
    RenderFour(Placeholder("body_bytes_sent"), Literal(" \""), Placeholder("http_referer"), Literal("\" \""));
    TokenText3();
  }

  lemma DefaultPiece3()
    ensures Render(DefaultTemplate[12..16]) == "$body_bytes_sent \"$http_referer\" \""
  {
    assert DefaultTemplate[12..16] == [Placeholder("body_bytes_sent"), Literal(" \""), Placeholder("http_referer"), Literal("\" \"")];
    PieceText3();
  }

  lemma TokenText4()
    ensures Show(Placeholder("http_user_agent")) + Show(Literal("\" ")) + Show(Placeholder("remote_addr")) + Show(Literal(" ")) == "$http_user_agent\" $remote_addr "
  {
    PlaceholderTextHttpUserAgent();
    PlaceholderTextRemoteAddr();
  }

  lemma PieceText4()
    ensures Render([Placeholder("http_user_agent"), Literal("\" "), Placeholder("remote_addr"), Literal(" ")]) == "$http_user_agent\" $remote_addr "
  {
    RenderFour(Placeholder("http_user_agent"), Literal("\" "), Placeholder("remote_addr"), Literal(" "));
    TokenText4();
  }

  lemma DefaultPiece4()
    ensures Render(DefaultTemplate[16..20]) == "$http_user_agent\" $remote_addr "
  {
    assert DefaultTemplate[16..20] == [Placeholder("http_user_agent"), Literal("\" "), Placeholder("remote_addr"), Literal(" ")];
    PieceText4();
  }

  lemma TokenText5()
    ensures Show(Placeholder("request_time")) + Show(Literal(" ")) == "$request_time "
  {
    PlaceholderTextRequestTime();
  }

  lemma PieceText5()
    ensures Render([Placeholder("request_time"), Literal(" ")]) == "$request_time "
  {
    RenderCons(Literal(" "), []);
    RenderCons(Placeholder("request_time"), [Literal(" ")]);
    assert [Placeholder("request_time"), Literal(" ")] == [Placeholder("request_time")] + [Literal(" ")];
    TokenText5();
  }

  lemma DefaultPiece5()
    ensures Render(DefaultTemplate[20..22]) == "$request_time "
  {
    assert DefaultTemplate[20..22] == [Placeholder("request_time"), Literal(" ")];
    PieceText5();
  }

  lemma TokenText6()
    ensures Show(Placeholder("upstream_response_time")) == "$upstream_response_time"
  {
    PlaceholderTextUpstreamResponseTime();
  }

  lemma PieceText6()
    ensures Render([Placeholder("upstream_response_time")]) == "$upstream_response_time"
  {
    RenderCons(Placeholder("upstream_response_time"), []);
    assert [Placeholder("upstream_response_time")] == [Placeholder("upstream_response_time")] + [];
    TokenText6();
  }

  lemma DefaultPiece6()
    ensures Render(DefaultTemplate[22..]) == "$upstream_response_time"
  {
    assert DefaultTemplate[22..] == [Placeholder("upstream_response_time")];
    PieceText6();
  }

  /** The default template's text is the default format of the source,
      written here in seven pieces that join into the one literal. */
  lemma DefaultFormatText()
    ensures DefaultFormat ==
      "$http_x_forwarded_for $host - " +
      ("$remote_user [$time_local] \"" +
      ("$request\" $status " +
      ("$body_bytes_sent \"$http_referer\" \"" +
      ("$http_user_agent\" $remote_addr " +
      ("$request_time " + "$upstream_response_time")))))
  {
    var t := DefaultTemplate;
    assert t[0..|t|] == t;
    RenderSplit(t, 0, 4, |t|);
    RenderSplit(t, 4, 8, |t|);
    RenderSplit(t, 8, 12, |t|);
    RenderSplit(t, 12, 16, |t|);
    RenderSplit(t, 16, 20, |t|);
    RenderSplit(t, 20, 22, |t|);
    assert t[0..4] == t[..4];
    DefaultPiece0(); DefaultPiece1(); DefaultPiece2();
    DefaultPiece3(); DefaultPiece4(); DefaultPiece5(); DefaultPiece6();
  }
}
