/** The requests that issue_http_request writes, and how the parser reads them. */
module Requests {
  import opened Bytes
  import opened Types
  import opened Table
  import opened Runs
  import opened Invariants
  import opened HeaderText
  import opened Codings
  import opened HeaderLines
  import opened Heads
  import opened Messages
  import opened Verbs
  import Chunks
  import UrlFields
  import UrlAgreement

  lemma VersionByte(s: Parser, t: Trace, ch: char)
    requires s.state.InVersion? && VisitVersion(s, s.state.req, ch).next.Advance?
    ensures Byte(s, t, ch) == Point(VisitVersion(s, s.state.req, ch).s, t, Advance)
  {
    VersionIsSilent(s, ch);
    hide VisitVersion;
  }

  lemma VersionIsSilent(s: Parser, ch: char)
    requires s.state.InVersion?
    ensures var a := VisitVersion(s, s.state.req, ch); a.take.None? && a.close.None? && a.notice.None?
  {
  }

  /** One byte of the version. */
  lemma VersionStep(s: Parser, t: Trace, ch: char, y: Text, after: Parser)
    requires s.state.InVersion? && s.nread < s.config.maxHeaderSize
    requires var a := VisitVersion(Counted(s), s.state.req, ch); a.next.Advance? && a.s == after
    ensures Run(s, t, [ch] + y) == Run(after, t, y)
  {
    hide Visit, Byte, Run;
    VersionByte(Counted(s), t, ch);
    RunByte(s, t, ch, y);
  }

  /** The letters of the protocol, one step each. */
  lemma VersionLetters(s: Parser, t: Trace, y: Text)
    requires s.nread + 5 <= s.config.maxHeaderSize
    ensures Run(Ahead(s, InVersion(ReqHttpStart), 0), t, ['H'] + y) == Run(Ahead(s, InVersion(ReqHttpH), 1), t, y)
    ensures Run(Ahead(s, InVersion(ReqHttpH), 1), t, ['T'] + y) == Run(Ahead(s, InVersion(ReqHttpHT), 2), t, y)
    ensures Run(Ahead(s, InVersion(ReqHttpHT), 2), t, ['T'] + y) == Run(Ahead(s, InVersion(ReqHttpHTT), 3), t, y)
    ensures Run(Ahead(s, InVersion(ReqHttpHTT), 3), t, ['P'] + y) == Run(Ahead(s, InVersion(ReqHttpHTTP), 4), t, y)
    ensures Run(Ahead(s, InVersion(ReqHttpHTTP), 4), t, ['/'] + y) == Run(Ahead(s, InVersion(ReqHttpMajor), 5), t, y)
  {
    hide Run;
    VersionStep(Ahead(s, InVersion(ReqHttpStart), 0), t, 'H', y, Ahead(s, InVersion(ReqHttpH), 1));
    VersionStep(Ahead(s, InVersion(ReqHttpH), 1), t, 'T', y, Ahead(s, InVersion(ReqHttpHT), 2));
    VersionStep(Ahead(s, InVersion(ReqHttpHT), 2), t, 'T', y, Ahead(s, InVersion(ReqHttpHTT), 3));
    VersionStep(Ahead(s, InVersion(ReqHttpHTT), 3), t, 'P', y, Ahead(s, InVersion(ReqHttpHTTP), 4));
    VersionStep(Ahead(s, InVersion(ReqHttpHTTP), 4), t, '/', y, Ahead(s, InVersion(ReqHttpMajor), 5));
  }

  lemma AtStart(s: Parser)
    requires s.state == InVersion(ReqHttpStart)
    ensures Ahead(s, InVersion(ReqHttpStart), 0) == s
  {
  }

  lemma VersionStart(s: Parser, t: Trace, y: Text)
    requires s.state == InVersion(ReqHttpStart) && s.nread + 5 <= s.config.maxHeaderSize
    ensures Run(s, t, "HTTP/" + y) == Run(Ahead(s, InVersion(ReqHttpMajor), 5), t, y)
  {
    hide *;
    AtStart(s);
    HttpShape(y);
    var y4 := ['/'] + y;
    var y3 := ['P'] + y4;
    var y2 := ['T'] + y3;
    VersionLetters(s, t, ['T'] + y2);
    VersionLetters(s, t, y2);
    VersionLetters(s, t, y3);
    VersionLetters(s, t, y4);
    VersionLetters(s, t, y);
  }

  lemma NumbersRun(s: Parser, t: Trace, major: char, minor: char, y: Text)
    requires s.state == InVersion(ReqHttpMajor) && s.nread + 3 <= s.config.maxHeaderSize && IsNum(major) && IsNum(minor)
    ensures Run(s, t, [major] + (['.'] + ([minor] + y)))
         == Run(Ahead(s.(line := s.line.(major := Digit(major), minor := Digit(minor))), InVersion(ReqHttpEnd), 3), t, y)
  {
    hide Run;
    var one := s.(line := s.line.(major := Digit(major)));
    var both := s.(line := s.line.(major := Digit(major), minor := Digit(minor)));
    VersionStep(s, t, major, ['.'] + ([minor] + y), Ahead(one, InVersion(ReqHttpDot), 1));
    VersionStep(Ahead(one, InVersion(ReqHttpDot), 1), t, '.', [minor] + y, Ahead(one, InVersion(ReqHttpMinor), 2));
    VersionStep(Ahead(one, InVersion(ReqHttpMinor), 2), t, minor, y, Ahead(both, InVersion(ReqHttpEnd), 3));
  }

  lemma VersionEnd(s: Parser, t: Trace, e: Eol, y: Text)
    requires s.state == InVersion(ReqHttpEnd) && s.nread + |e.Text()| <= s.config.maxHeaderSize
    ensures Run(s, t, e.Text() + y) == Run(s.(state := HeaderFieldStart, nread := s.nread + |e.Text()|), t, y)
  {
    hide Run;
    if e.Feed? {
      VersionStep(s, t, LF, y, s.(state := HeaderFieldStart, nread := s.nread + 1));
    } else {
      ReturnFirst(y);
      VersionStep(s, t, CR, [LF] + y, Ahead(s, InVersion(ReqLineAlmostDone), 1));
      VersionStep(Ahead(s, InVersion(ReqLineAlmostDone), 1), t, LF, y, s.(state := HeaderFieldStart, nread := s.nread + 2));
    }
  }

  /** A request line, a header block and content. */
  datatype Request = Request(verb: Method, url: Text, major: char, minor: char, eol: Eol, block: Block, content: Content)

  predicate IsRequest(r: Request, config: Config) {
    && !r.verb.CONNECT? && UrlFields.IsUrl(r.url, false) && IsNum(r.major) && IsNum(r.minor)
    && r.block.Ok() && r.content.Fits(r.block.framing, config) && !r.content.UntilEnd?
  }

  function VersionText(r: Request, y: Text): Text {
    "HTTP/" + ([r.major] + (['.'] + ([r.minor] + (r.eol.Text() + y))))
  }

  /** Request line, header block and blank line, followed by `y`. */
  function HeadThen(r: Request, y: Text): Text {
    MethodText(r.verb) + ([' '] + (r.url + ([' '] + VersionText(r, LinesText(r.block.Lines()) + (r.block.end.Text() + y)))))
  }

  function RequestHead(r: Request): Text {
    HeadThen(r, [])
  }

  function RequestText(r: Request): Text {
    HeadThen(r, r.content.Text())
  }

  /** What the parser reports of a request: its URL, its headers, its content and one completed message. */
  function RequestEvents(r: Request): Trace {
    [Note(MessageBegin), Data(Part.Url, r.url)] + MessageEvents(r.block, r.content)
  }

  /** The struct after the request line. */
  function InHeaders(s: Parser, r: Request): Parser
    requires IsNum(r.major) && IsNum(r.minor)
  {
    s.(state := HeaderFieldStart, matcher := s.matcher.(index := |MethodText(r.verb)| + 1),
       nread := s.nread + |MethodText(r.verb)| + |r.url| + 10 + |r.eol.Text()|,
       framing := Framing(NO_FLAGS, false, U64_MAX),
       line := s.line.(major := Digit(r.major), minor := Digit(r.minor), verb := r.verb))
  }

  /** The struct after a request: it knows the method, and is between messages. */
  function Served(s: Parser, r: Request): (z: Parser)
    requires IsRequest(r, s.config)
  {
    Closed(Headed(InHeaders(s, r), r.block), r.content)
  }

  lemma VersionRun(s: Parser, t: Trace, r: Request, y: Text)
    requires s.state == InVersion(ReqHttpStart) && s.nread + 8 + |r.eol.Text()| <= s.config.maxHeaderSize
    requires IsNum(r.major) && IsNum(r.minor)
    ensures Run(s, t, VersionText(r, y))
         == Run(s.(state := HeaderFieldStart, nread := s.nread + 8 + |r.eol.Text()|,
                   line := s.line.(major := Digit(r.major), minor := Digit(r.minor))), t, y)
  {
    hide Run, IsNum, Digit;
    var y1 := r.eol.Text() + y;
    VersionStart(s, t, [r.major] + (['.'] + ([r.minor] + y1)));
    NumbersRun(Ahead(s, InVersion(ReqHttpMajor), 5), t, r.major, r.minor, y1);
    VersionEnd(Ahead(s.(line := s.line.(major := Digit(r.major), minor := Digit(r.minor))), InVersion(ReqHttpEnd), 8), t, r.eol, y);
  }

  lemma RequestLineRun(s: Parser, t: Trace, r: Request, y: Text)
    requires s.state == Idle(StartReq) && IsRequest(r, s.config)
    requires s.nread + |MethodText(r.verb)| + |r.url| + 10 + |r.eol.Text()| <= s.config.maxHeaderSize
    ensures Run(s, t, MethodText(r.verb) + ([' '] + (r.url + ([' '] + VersionText(r, y)))))
         == Run(InHeaders(s, r), t + [Note(MessageBegin), Data(Part.Url, r.url)], y)
  {
    hide *;
    var y2 := VersionText(r, y);
    LineParts(s, r);
    MethodRun(s, t, r.verb, r.url + ([' '] + y2));
    var s1, t1 := WithMethod(s, r.verb), t + [Note(MessageBegin)];
    UrlAgreement.UrlIsTaken(s1, t1, r.url, y2);
    NoteFirst(t, r.url);
    var s2 := s1.(state := InVersion(ReqHttpStart), nread := s1.nread + |r.url| + 1);
    VersionRun(s2, t + [Note(MessageBegin), Data(Part.Url, r.url)], r, y);
    LineDone(s, r);
  }

  lemma LineParts(s: Parser, r: Request)
    requires IsRequest(r, s.config)
    ensures UrlFields.IsUrl(r.url, false) && !r.verb.CONNECT? && IsNum(r.major) && IsNum(r.minor)
    ensures var z := WithMethod(s, r.verb);
            z.state == InUrl(ReqSpacesBeforeUrl) && z.line.verb == r.verb && z.config == s.config && z.nread == s.nread + |MethodText(r.verb)| + 1
  {
    hide UrlFields.IsUrl, MethodText, IsNum;
  }

  lemma LineDone(s: Parser, r: Request)
    requires IsNum(r.major) && IsNum(r.minor)
    ensures var z := WithMethod(s, r.verb);
            z.(state := HeaderFieldStart, nread := z.nread + |r.url| + 1 + 8 + |r.eol.Text()|,
               line := z.line.(major := Digit(r.major), minor := Digit(r.minor)))
              == InHeaders(s, r)
  {
    hide MethodText, IsNum, Digit;
  }

  lemma NoteFirst(t: Trace, url: Text)
    ensures Add(t + [Note(MessageBegin)], Data(Part.Url, url)) == t + [Note(MessageBegin), Data(Part.Url, url)]
    ensures !EndsIn(t + [Note(MessageBegin), Data(Part.Url, url)], Field)
  {
  }

  lemma HeadLength(r: Request, y: Text)
    ensures HeadThen(r, y) == RequestHead(r) + y
    ensures |RequestHead(r)| == |MethodText(r.verb)| + |r.url| + 10 + |r.eol.Text()| + |LinesText(r.block.Lines())| + |r.block.end.Text()|
  {
    hide MethodText, LinesText;
    var l, e := LinesText(r.block.Lines()), r.block.end.Text();
    assert l + (e + y) == (l + (e + [])) + y;
    VersionApart(r, l + (e + []), y);
  }

  lemma VersionApart(r: Request, x: Text, y: Text)
    ensures VersionText(r, x + y) == VersionText(r, x) + y && |VersionText(r, x)| == 8 + |r.eol.Text()| + |x|
  {
  }

  lemma InHeadersGood(s: Parser, t: Trace, r: Request)
    requires Good(s) && s.state == Idle(StartReq) && IsRequest(r, s.config)
    requires s.nread + |MethodText(r.verb)| + |r.url| + 10 + |r.eol.Text()| <= s.config.maxHeaderSize
    ensures Good(InHeaders(s, r))
  {
    hide Run, Good, MethodText, UrlFields.IsUrl, VersionText, IsSideLine, IsLengthLine, IsChunkedLine, InHeaders;
    RequestLineRun(s, t, r, []);
    RunKeeps(s, t, MethodText(r.verb) + ([' '] + (r.url + ([' '] + VersionText(r, [])))));
    RunNothing(InHeaders(s, r), t + [Note(MessageBegin), Data(Part.Url, r.url)]);
  }

  /** Requests never last until the end of the connection. */
  lemma NoEof(s: Parser, r: Request)
    requires s.line.kind.Request? && IsRequest(r, s.config)
    ensures !NeedsEof(AfterBlock(InHeaders(s, r), r.block))
  {
    hide MethodText, UrlFields.IsUrl, IsSideLine, IsLengthLine, IsChunkedLine, LinesText, BlockMatch;
  }

  /** Every such request is read back, whatever line ends it uses: its method, its URL, its headers, its content and
      exactly one completed message. */
  lemma RequestRoundTrip(s: Parser, t: Trace, r: Request, y: Text)
    requires Good(s) && s.state == Idle(StartReq) && s.line.kind.Request? && IsRequest(r, s.config)
    requires s.nread + |RequestHead(r)| <= s.config.maxHeaderSize
    ensures Run(s, t, HeadThen(r, r.content.Text() + y)) == Run(Served(s, r), t + RequestEvents(r), y)
    ensures Served(s, r).state.Idle? && Served(s, r).line.verb == r.verb
  {
    HeadLength(r, []);
    hide *;
    RequestParts(r, s.config);
    InHeadersGood(s, t, r);
    InHeadersIs(s, r);
    NoEof(s, r);
    var y1 := LinesText(r.block.Lines()) + (r.block.end.Text() + (r.content.Text() + y));
    RequestLineRun(s, t, r, y1);
    NoteFirst(t, r.url);
    var t1 := t + [Note(MessageBegin), Data(Part.Url, r.url)];
    MessageRun(InHeaders(s, r), t1, r.block, r.content, y);
    JoinEvents(t, r);
    HeadIs(r, r.content.Text() + y);
    ServedIs(s, r);
  }

  lemma RequestParts(r: Request, config: Config)
    requires IsRequest(r, config)
    ensures r.block.Ok() && r.content.Fits(r.block.framing, config) && !r.content.UntilEnd? && IsNum(r.major) && IsNum(r.minor)
  {
    hide UrlFields.IsUrl;
  }

  lemma InHeadersIs(s: Parser, r: Request)
    requires IsRequest(r, s.config)
    ensures var z := InHeaders(s, r);
            && z.state.HeaderFieldStart? && z.framing == Framing(NO_FLAGS, false, U64_MAX) && !z.line.verb.CONNECT? && z.config == s.config
            && z.nread == s.nread + |MethodText(r.verb)| + |r.url| + 10 + |r.eol.Text()|
  {
    hide UrlFields.IsUrl, MethodText;
  }

  lemma HeadIs(r: Request, y: Text)
    ensures HeadThen(r, y)
         == MethodText(r.verb) + ([' '] + (r.url + ([' '] + VersionText(r, LinesText(r.block.Lines()) + (r.block.end.Text() + y)))))
  {
    hide MethodText, VersionText, LinesText;
  }

  lemma JoinEvents(t: Trace, r: Request)
    ensures t + [Note(MessageBegin), Data(Part.Url, r.url)] + MessageEvents(r.block, r.content) == t + RequestEvents(r)
  {
    hide MessageEvents;
  }

  /** The request that was served is the one that was written, and the parser is between messages. */
  lemma ServedIs(s: Parser, r: Request)
    requires s.line.kind.Request? && IsRequest(r, s.config)
    ensures Served(s, r) == Closed(Headed(InHeaders(s, r), r.block), r.content)
    ensures var l := Served(s, r).line; l.verb == r.verb && l.major == Digit(r.major) && l.minor == Digit(r.minor) && l.kind == s.line.kind
    ensures Served(s, r).state.Idle? && Served(s, r).config == s.config
  {
    hide UrlFields.IsUrl, MethodText, LinesText, IsSideLine, IsLine, IsName, Decimal, Stripped;
    hide ListsChunked, BlockMatch, NeedsEof, Chunks.Ended, AsksAfter, NewMessage, Chunks.IsChunk, Chunks.IsSizeLine;
    NoEof(s, r);
    if r.content.Coded? { Chunks.EndedIs(Headed(InHeaders(s, r), r.block), r.content.last); }
  }
}
