/** The text that issue_http_request sends. */
module Printer {
  import opened Bytes
  import opened Types
  import opened HeaderWords
  import opened Table
  import opened Runs
  import opened Invariants
  import opened HeaderText
  import opened HeaderLines
  import opened Connections
  import opened Heads
  import opened Messages
  import opened Requests
  import UrlFields

  /** A number as fmt prints it. */
  function DecimalText(n: nat): (r: Text)
    ensures r != [] && AllDigits(r) && Decimal(r) == n
  {
    var d := ((n % 10) + '0' as int) as char;
    if n < 10 then
      DecimalOne(d);
      [d]
    else
      var r := DecimalText(n / 10) + [d];
      assert r[..|r| - 1] == DecimalText(n / 10);
      r
  }

  /** The message: request line, headers, blank line and payload. `payload` is a C string, so its
      strlen is its length. */
  function Message(m: Method, url: Text, ip: Text, port: nat, payload: Text): Text {
    MethodText(m) + " " + url + " HTTP/1.1\n" +
    ("Host: " + ip + ":" + DecimalText(port) + "\n") +
    ("User-Agent: " + "curl/7.74.0" + "\n") +
    ("Accept: " + "*/*" + "\n") +
    ("Content-Length: " + DecimalText(|payload|) + "\n") +
    ("Content-Type: " + "application/x-www-form-urlencoded" + "\n") +
    "\n" +
    payload
  }

  const AGENT := HeaderLine("User-Agent", " " + "curl/7.74.0", Feed)
  const ACCEPT := HeaderLine("Accept", " " + "*/*", Feed)
  const CONTENT_TYPE := HeaderLine("Content-Type", " " + "application/x-www-form-urlencoded", Feed)

  function HostLine(ip: Text, port: nat): HeaderLine {
    HeaderLine("Host", " " + (ip + ":" + DecimalText(port)), Feed)
  }

  function LengthOf(payload: Text): HeaderLine {
    HeaderLine("Content-Length", " " + DecimalText(|payload|), Feed)
  }

  function BlockOf(ip: Text, port: nat, payload: Text): Block {
    Block([HostLine(ip, port), AGENT, ACCEPT], ByLength(LengthOf(payload)), [CONTENT_TYPE], Feed)
  }

  function RequestOf(m: Method, url: Text, ip: Text, port: nat, payload: Text): Request {
    Request.Request(m, url, '1', '1', Feed, BlockOf(ip, port, payload), if payload == [] then Nothing else Sized(payload))
  }

  /** Names that are told from the known ones by their length, or by their first letter. */
  lemma PlainNames(x: Text)
    requires |x| < 17 && |x| != 7 && |x| != 14 && |x| != 16 && (|x| == 10 ==> Fold(x[0]) != 'c')
    ensures NoCoding(x) && !IsName(x, ContentLength) && !IsName(x, Upgrade) && !IsConnection(x)
  {
    AreApart();
    hide NameText;
    if |x| == 10 { assert FoldAll(x)[0] != 'c'; }
  }

  predicate IsPrintable(v: Text) {
    forall i :: 0 <= i < |v| ==> ' ' <= v[i] <= '~'
  }

  lemma PrintableHeader(name: Text, v: Text)
    requires IsToken(name) && |name| < 17 && |name| != 7 && |name| != 14 && |name| != 16 && (|name| == 10 ==> Fold(name[0]) != 'c')
    requires IsPrintable(v)
    ensures IsPlain(HeaderLine(name, " " + v, Feed))
  {
    PlainNames(name);
    hide IsToken, NoCoding, IsName, IsConnection;
  }

  lemma FixedNames()
    ensures IsToken("User-Agent") && IsToken("Accept") && IsToken("Content-Type") && IsToken("Host")
  {
  }

  lemma FixedValues()
    ensures IsPrintable("curl/7.74.0") && IsPrintable("*/*") && IsPrintable("application/x-www-form-urlencoded")
  {
  }

  lemma FixedHeadersArePlain()
    ensures IsPlain(AGENT) && IsPlain(ACCEPT) && IsPlain(CONTENT_TYPE)
  {
    hide IsPlain, IsToken, IsPrintable;
    FixedNames();
    FixedValues();
    PrintableHeader("User-Agent", "curl/7.74.0");
    PrintableHeader("Accept", "*/*");
    PrintableHeader("Content-Type", "application/x-www-form-urlencoded");
  }

  lemma HostIsPlain(ip: Text, port: nat)
    requires IsValueText(ip)
    ensures IsPlain(HostLine(ip, port))
  {
    FixedNames();
    PlainNames("Host");
    HostValue(ip, DecimalText(port));
    hide IsToken, NoCoding, IsName, IsConnection, Decimal, IsValueText;
  }

  lemma HostValue(ip: Text, digits: Text)
    requires IsValueText(ip) && AllDigits(digits)
    ensures IsValueText(" " + (ip + ":" + digits))
  {
  }

  lemma LengthNameIs()
    ensures IsToken("Content-Length") && IsName("Content-Length", ContentLength)
  {
  }

  lemma BlankThenDigits(d: Text)
    requires d != [] && AllDigits(d)
    ensures Stripped(" " + d) == d && IsValueText(" " + d)
  {
    assert (" " + d)[1..] == d;
  }

  lemma LengthLineIs(payload: Text)
    requires |payload| <= MAX_LENGTH
    ensures IsLengthLine(LengthOf(payload)) && Decimal(Stripped(LengthOf(payload).value)) == |payload|
  {
    LengthNameIs();
    BlankThenDigits(DecimalText(|payload|));
    hide IsToken, IsName, Decimal, AllDigits, Stripped, IsValueText;
  }

  lemma BlockIsOk(ip: Text, port: nat, payload: Text)
    requires IsValueText(ip) && |payload| <= MAX_LENGTH
    ensures BlockOf(ip, port, payload).Ok() && BlockOf(ip, port, payload).Asks() == NO_ASKS
  {
    HostIsPlain(ip, port);
    FixedHeadersArePlain();
    LengthLineIs(payload);
    hide *;
    BlockOk(HostLine(ip, port), AGENT, ACCEPT, LengthOf(payload), CONTENT_TYPE);
    assert BlockOf(ip, port, payload) == Block([HostLine(ip, port), AGENT, ACCEPT], ByLength(LengthOf(payload)), [CONTENT_TYPE], Feed) by {
      BlockIs(ip, port, payload);
    }
  }

  lemma BlockIs(ip: Text, port: nat, payload: Text)
    ensures BlockOf(ip, port, payload) == Block([HostLine(ip, port), AGENT, ACCEPT], ByLength(LengthOf(payload)), [CONTENT_TYPE], Feed)
  {
  }

  lemma BlockOk(h: HeaderLine, a: HeaderLine, c: HeaderLine, l: HeaderLine, d: HeaderLine)
    requires IsPlain(h) && IsPlain(a) && IsPlain(c) && IsLengthLine(l) && IsPlain(d)
    ensures var b := Block([h, a, c], ByLength(l), [d], Feed); b.Ok() && b.Asks() == NO_ASKS
  {
    hide IsPlain, IsLengthLine;
    AsksNothing([h, a, c]);
    AsksNothing([d]);
  }

  lemma IsRequestOf(m: Method, url: Text, ip: Text, port: nat, payload: Text, config: Config)
    requires !m.CONNECT? && UrlFields.IsUrl(url, false) && IsValueText(ip) && |payload| <= MAX_LENGTH
    ensures IsRequest(RequestOf(m, url, ip, port, payload), config)
  {
    hide IsPlain, IsLengthLine, UrlFields.IsUrl, LengthOf, HostLine, Stripped, Decimal, IsValueText;
    BlockIsOk(ip, port, payload);
    LengthLineIs(payload);
  }

  lemma LineTextIs(name: Text, v: Text)
    ensures LineText(HeaderLine(name, " " + v, Feed)) == name + ": " + v + "\n"
  {
    assert [':'] + ((" " + v) + [LF]) == ": " + v + "\n";
  }

  lemma ShortNames()
    ensures "Host" + ": " == "Host: " && "Accept" + ": " == "Accept: "
    ensures "User-Agent" + ": " == "User-Agent: "
  {
  }

  lemma LongNames()
    ensures "Content-Length" + ": " == "Content-Length: " && "Content-Type" + ": " == "Content-Type: "
  {
  }

  lemma LineTexts(ip: Text, port: nat, n: Text)
    ensures LineText(HostLine(ip, port)) == "Host: " + ip + ":" + DecimalText(port) + "\n"
    ensures LineText(LengthOf(n)) == "Content-Length: " + DecimalText(|n|) + "\n"
  {
    ShortNames();
    LongNames();
    hide DecimalText, LineText;
    var v := ip + ":" + DecimalText(port);
    LineTextIs("Host", v);
    LineTextIs("Content-Length", DecimalText(|n|));
    assert "Host: " + v + "\n" == "Host: " + ip + ":" + DecimalText(port) + "\n";
  }

  lemma FixedLineTexts()
    ensures LineText(AGENT) == "User-Agent: " + "curl/7.74.0" + "\n" && LineText(ACCEPT) == "Accept: " + "*/*" + "\n"
    ensures LineText(CONTENT_TYPE) == "Content-Type: " + "application/x-www-form-urlencoded" + "\n"
  {
    ShortNames();
    LongNames();
    hide LineText;
    LineTextIs("User-Agent", "curl/7.74.0");
    LineTextIs("Accept", "*/*");
    LineTextIs("Content-Type", "application/x-www-form-urlencoded");
  }

  lemma FiveLines(h: HeaderLine, a: HeaderLine, c: HeaderLine, l: HeaderLine, d: HeaderLine, b: Block)
    requires b.before == [h, a, c] && b.framing == ByLength(l) && b.after == [d]
    ensures LinesText(b.Lines()) == LineText(h) + LineText(a) + LineText(c) + LineText(l) + LineText(d)
  {
    hide LineText;
    var ls := [h, a, c, l, d];
    assert b.Lines() == ls;
    assert ls[1..] == [a, c, l, d] && ls[2..] == [c, l, d] && ls[3..] == [l, d] && ls[4..] == [d] && ls[5..] == [];
    assert ls[1..][1..] == ls[2..] && ls[2..][1..] == ls[3..] && ls[3..][1..] == ls[4..] && ls[4..][1..] == ls[5..];
    assert LinesText(ls[4..]) == LineText(d) + [];
    assert LinesText(ls[3..]) == LineText(l) + LinesText(ls[4..]);
    assert LinesText(ls[2..]) == LineText(c) + LinesText(ls[3..]);
    assert LinesText(ls[1..]) == LineText(a) + LinesText(ls[2..]);
    assert LinesText(ls) == LineText(h) + LinesText(ls[1..]);
  }

  lemma Regroup(m: Text, u: Text, l: Text, p: Text)
    ensures m + ([' '] + (u + ([' '] + ("HTTP/" + (['1'] + (['.'] + (['1'] + ([LF] + (l + ([LF] + p))))))))))
         == m + " " + u + " HTTP/1.1\n" + l + "\n" + p
  {
    assert [' '] + ("HTTP/" + (['1'] + (['.'] + (['1'] + ([LF] + (l + ([LF] + p))))))) == " HTTP/1.1\n" + (l + ([LF] + p));
    assert m + ([' '] + (u + (" HTTP/1.1\n" + (l + ([LF] + p))))) == m + " " + u + " HTTP/1.1\n" + l + [LF] + p;
  }

  lemma Spread(x: Text, h: Text, a: Text, c: Text, l: Text, d: Text, p: Text)
    ensures x + (h + a + c + l + d) + "\n" + p == x + h + a + c + l + d + "\n" + p
  {
  }

  /** The message is a request as the parser reads it. */
  lemma MessageIsRequest(m: Method, url: Text, ip: Text, port: nat, payload: Text)
    ensures Message(m, url, ip, port, payload) == RequestText(RequestOf(m, url, ip, port, payload))
  {
    hide MethodText, LineText, DecimalText, HostLine, LengthOf, LinesText;
    var r := RequestOf(m, url, ip, port, payload);
    var h, l := HostLine(ip, port), LengthOf(payload);
    FiveLines(h, AGENT, ACCEPT, l, CONTENT_TYPE, r.block);
    LineTexts(ip, port, payload);
    FixedLineTexts();
    Regroup(MethodText(m), url, LinesText(r.block.Lines()), payload);
    Spread(MethodText(m) + " " + url + " HTTP/1.1\n", LineText(h), LineText(AGENT), LineText(ACCEPT), LineText(l), LineText(CONTENT_TYPE), payload);
  }

  /** What was printed keeps the connection open. */
  lemma StaysOpen(s: Parser, m: Method, url: Text, ip: Text, port: nat, payload: Text)
    requires IsRequest(RequestOf(m, url, ip, port, payload), s.config) && s.line.kind.Request?
    requires IsValueText(ip) && |payload| <= MAX_LENGTH
    ensures Served(s, RequestOf(m, url, ip, port, payload)).state == Idle(StartReq)
  {
    BlockIsOk(ip, port, payload);
    hide MethodText, UrlFields.IsUrl, IsSideLine, IsLine, IsName, Stripped, LinesText, BlockMatch, DecimalText, Decimal, HostLine, LengthOf, AsksAfter;
  }

  /** The printer and the parser agree: for every known method but CONNECT, every URL that
      http_parser_parse_url accepts, every ip text of header characters and every payload, however the
      message is cut into buffers, the parser reports that method, that URL, those headers, the
      payload as the body and one completed message, and waits for the next request. */
  lemma PrintedRequestIsReadBack(m: Method, url: Text, ip: Text, port: nat, payload: Text, config: Config, bufs: seq<Text>)
    requires !m.CONNECT? && UrlFields.IsUrl(url, false) && IsValueText(ip) && |payload| <= MAX_LENGTH
    requires Flatten(bufs) == Message(m, url, ip, port, payload)
    requires |Message(m, url, ip, port, payload)| - |payload| <= config.maxHeaderSize
    ensures var r := RequestOf(m, url, ip, port, payload);
            var s := Init(Kind.Request, config);
            && IsRequest(r, config) && RunAll(s, [], bufs) == Stop(Served(s, r), RequestEvents(r), [], Advance)
            && Served(s, r).state == Idle(StartReq) && Served(s, r).line.verb == m
  {
    hide *;
    var r := RequestOf(m, url, ip, port, payload);
    var s := Init(Kind.Request, config);
    InitIs(config);
    IsRequestOf(m, url, ip, port, payload, config);
    RunAnyCutting(s, [], bufs);
    MessageIsRequest(m, url, ip, port, payload);
    HeadLength(r, r.content.Text());
    ContentIs(m, url, ip, port, payload);
    RequestRoundTrip(s, [], r, []);
    assert r.content.Text() + [] == r.content.Text() && [] + RequestEvents(r) == RequestEvents(r);
    RunNothing(Served(s, r), RequestEvents(r));
    StaysOpen(s, m, url, ip, port, payload);
  }

  lemma InitIs(config: Config)
    ensures var s := Init(Kind.Request, config);
            Good(s) && s.state == Idle(StartReq) && s.line.kind.Request? && s.config == config && s.nread == 0
  {
    InitGood(Kind.Request, config);
    hide Good;
  }

  lemma ContentIs(m: Method, url: Text, ip: Text, port: nat, payload: Text)
    ensures var r := RequestOf(m, url, ip, port, payload);
            r.verb == m && r.content.Text() == payload && RequestText(r) == HeadThen(r, r.content.Text())
  {
    hide HeadThen;
  }
}
