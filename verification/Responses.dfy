/** Responses as a server writes them, and what the response reader makes of them. */
module Responses {
  import opened Bytes
  import opened Types
  import opened Table
  import opened Runs
  import opened Invariants
  import HeaderWords
  import opened HeaderText
  import opened Codings
  import opened HeaderLines
  import opened Heads
  import opened Chunks
  import opened Messages
  import opened Payload

  lemma StatusByte(s: Parser, t: Trace, ch: char)
    requires s.state.InStatusLine? && VisitStatusLine(s, s.state.res, ch).next.Advance?
    ensures var a := VisitStatusLine(s, s.state.res, ch); Byte(s, t, ch) == Point(a.s, Report(t, a, ch), Advance)
  {
    hide VisitStatusLine, Report;
  }

  /** One byte of the status line. */
  lemma StatusStep(s: Parser, t: Trace, ch: char, y: Text, after: Parser, t': Trace)
    requires s.state.InStatusLine? && s.nread < s.config.maxHeaderSize
    requires var a := VisitStatusLine(Counted(s), s.state.res, ch); a.next.Advance? && a.s == after && Report(t, a, ch) == t'
    ensures Run(s, t, [ch] + y) == Run(after, t', y)
  {
    hide Visit, Byte, Run, VisitStatusLine, Report;
    StatusByte(Counted(s), t, ch);
    RunByte(s, t, ch, y);
  }

  lemma FirstByte(s: Parser, t: Trace)
    requires s.state == Idle(StartRes)
    ensures Byte(s, t, 'H') == Point(Fresh(s).(state := InStatusLine(ResH)), t + [Note(MessageBegin)], Advance)
  {
  }

  /** The letters of the protocol, one step each. */
  lemma StatusLetters(s: Parser, t: Trace, y: Text)
    requires s.nread + 4 <= s.config.maxHeaderSize
    ensures Run(Ahead(s, InStatusLine(ResH), 0), t, ['T'] + y) == Run(Ahead(s, InStatusLine(ResHT), 1), t, y)
    ensures Run(Ahead(s, InStatusLine(ResHT), 1), t, ['T'] + y) == Run(Ahead(s, InStatusLine(ResHTT), 2), t, y)
    ensures Run(Ahead(s, InStatusLine(ResHTT), 2), t, ['P'] + y) == Run(Ahead(s, InStatusLine(ResHTTP), 3), t, y)
    ensures Run(Ahead(s, InStatusLine(ResHTTP), 3), t, ['/'] + y) == Run(Ahead(s, InStatusLine(ResHttpMajor), 4), t, y)
  {
    hide Run;
    StatusStep(Ahead(s, InStatusLine(ResH), 0), t, 'T', y, Ahead(s, InStatusLine(ResHT), 1), t);
    StatusStep(Ahead(s, InStatusLine(ResHT), 1), t, 'T', y, Ahead(s, InStatusLine(ResHTT), 2), t);
    StatusStep(Ahead(s, InStatusLine(ResHTT), 2), t, 'P', y, Ahead(s, InStatusLine(ResHTTP), 3), t);
    StatusStep(Ahead(s, InStatusLine(ResHTTP), 3), t, '/', y, Ahead(s, InStatusLine(ResHttpMajor), 4), t);
  }

  lemma FirstLetter(s: Parser, t: Trace, y: Text)
    requires s.state == Idle(StartRes) && s.nread < s.config.maxHeaderSize
    ensures Run(s, t, ['H'] + y) == Run(Ahead(Read(Fresh(s), 1), InStatusLine(ResH), 0), t + [Note(MessageBegin)], y)
  {
    hide Run, Byte, Visit;
    FirstByte(Counted(s), t);
    RunByte(s, t, 'H', y);
  }

  lemma StatusStart(s: Parser, t: Trace, y: Text)
    requires s.state == Idle(StartRes) && s.nread + 5 <= s.config.maxHeaderSize
    ensures Run(s, t, "HTTP/" + y) == Run(Ahead(Fresh(s), InStatusLine(ResHttpMajor), 5), t + [Note(MessageBegin)], y)
  {
    hide *;
    HttpShape(y);
    var y4 := ['/'] + y;
    var y3 := ['P'] + y4;
    var y2 := ['T'] + y3;
    FirstLetter(s, t, ['T'] + y2);
    var z, u := Read(Fresh(s), 1), t + [Note(MessageBegin)];
    FreshIs(s);
    StatusLetters(z, u, y2);
    StatusLetters(z, u, y3);
    StatusLetters(z, u, y4);
    StatusLetters(z, u, y);
  }

  lemma FreshIs(s: Parser)
    ensures var z := Read(Fresh(s), 1);
            z.nread == s.nread + 1 && z.config == s.config && Ahead(z, InStatusLine(ResHttpMajor), 4) == Ahead(Fresh(s), InStatusLine(ResHttpMajor), 5)
  {
  }

  lemma VersionRun(s: Parser, t: Trace, major: char, minor: char, y: Text)
    requires s.state == InStatusLine(ResHttpMajor) && s.nread + 4 <= s.config.maxHeaderSize && IsNum(major) && IsNum(minor)
    ensures Run(s, t, [major] + (['.'] + ([minor] + ([' '] + y))))
         == Run(Ahead(s.(line := s.line.(major := Digit(major), minor := Digit(minor))), InStatusLine(ResFirstStatusCode), 4), t, y)
  {
    hide Run;
    var one := s.(line := s.line.(major := Digit(major)));
    var both := s.(line := s.line.(major := Digit(major), minor := Digit(minor)));
    StatusStep(s, t, major, ['.'] + ([minor] + ([' '] + y)), Ahead(one, InStatusLine(ResHttpDot), 1), t);
    StatusStep(Ahead(one, InStatusLine(ResHttpDot), 1), t, '.', [minor] + ([' '] + y), Ahead(one, InStatusLine(ResHttpMinor), 2), t);
    StatusStep(Ahead(one, InStatusLine(ResHttpMinor), 2), t, minor, [' '] + y, Ahead(both, InStatusLine(ResHttpEnd), 3), t);
    StatusStep(Ahead(both, InStatusLine(ResHttpEnd), 3), t, ' ', y, Ahead(both, InStatusLine(ResFirstStatusCode), 4), t);
  }

  function WithCode(s: Parser, code: nat): Parser {
    s.(line := s.line.(statusCode := code))
  }

  /** A status code is any number of digits up to 999. */
  lemma {:induction false} CodeRun(s: Parser, t: Trace, x: Text, y: Text)
    requires s.state == InStatusLine(ResFirstStatusCode) && s.nread + |x| <= s.config.maxHeaderSize
    requires x != [] && AllDigits(x) && Decimal(x) <= 999
    ensures Run(s, t, x + y) == Run(Ahead(WithCode(s, Decimal(x)), InStatusLine(ResStatusCode), |x|), t, y)
    decreases |x|
  {
    hide *;
    var init, ch := x[..|x| - 1], x[|x| - 1];
    LastApart(x, y);
    DigitsSnoc(x);
    if |x| == 1 {
      FirstCode(s, t, ch, y);
    } else {
      CodeRun(s, t, init, [ch] + y);
      CodeStepAt(s, t, Decimal(init), |x| - 1, ch, y);
    }
  }

  lemma DigitsSnoc(x: Text)
    requires x != [] && AllDigits(x)
    ensures var init, ch := x[..|x| - 1], x[|x| - 1];
            && AllDigits(init) && IsNum(ch) && Decimal(x) == Decimal(init) * 10 + Digit(ch) && Decimal(init) <= Decimal(x)
            && (|x| == 1 ==> Decimal(x) == Digit(ch))
  {
    hide IsNum, Digit;
  }

  lemma FirstCode(s: Parser, t: Trace, ch: char, y: Text)
    requires s.state == InStatusLine(ResFirstStatusCode) && s.nread < s.config.maxHeaderSize && IsNum(ch)
    ensures Run(s, t, [ch] + y) == Run(Ahead(WithCode(s, Digit(ch)), InStatusLine(ResStatusCode), 1), t, y)
  {
    hide Run;
    StatusStep(s, t, ch, y, Ahead(WithCode(s, Digit(ch)), InStatusLine(ResStatusCode), 1), t);
  }

  lemma CodeStepAt(s: Parser, t: Trace, n: nat, k: nat, ch: char, y: Text)
    requires s.nread + k < s.config.maxHeaderSize && IsNum(ch) && n * 10 + Digit(ch) <= 999
    ensures Run(Ahead(WithCode(s, n), InStatusLine(ResStatusCode), k), t, [ch] + y)
         == Run(Ahead(WithCode(s, n * 10 + Digit(ch)), InStatusLine(ResStatusCode), k + 1), t, y)
  {
    hide Run, IsNum, Digit;
    CodeStep(Ahead(WithCode(s, n), InStatusLine(ResStatusCode), k), t, ch, y);
  }

  lemma CodeStep(s: Parser, t: Trace, ch: char, y: Text)
    requires s.state == InStatusLine(ResStatusCode) && s.nread < s.config.maxHeaderSize
    requires IsNum(ch) && s.line.statusCode * 10 + Digit(ch) <= 999
    ensures Run(s, t, [ch] + y) == Run(Ahead(WithCode(s, s.line.statusCode * 10 + Digit(ch)), InStatusLine(ResStatusCode), 1), t, y)
  {
    hide Run;
    StatusStep(s, t, ch, y, Ahead(WithCode(s, s.line.statusCode * 10 + Digit(ch)), InStatusLine(ResStatusCode), 1), t);
  }

  // The reason phrase.

  predicate IsReason(x: Text) {
    CR !in x && LF !in x
  }

  function Reset(s: Parser): Parser {
    s.(matcher := s.matcher.(index := 0))
  }

  lemma ReasonByte(s: Parser, t: Trace, ch: char, y: Text)
    requires s.state == InStatusLine(ResStatusStart) || s.state == InStatusLine(ResStatus)
    requires ch != CR && ch != LF && s.nread < s.config.maxHeaderSize
    ensures Run(s, t, [ch] + y)
         == Run(Ahead(if s.state.res.ResStatusStart? then Reset(s) else s, InStatusLine(ResStatus), 1), Add(t, Data(Status, [ch])), y)
  {
    hide Run, Add;
    StatusStep(s, t, ch, y, Ahead(if s.state.res.ResStatusStart? then Reset(s) else s, InStatusLine(ResStatus), 1), Add(t, Data(Status, [ch])));
  }

  lemma {:induction false} ReasonRun(s: Parser, t: Trace, x: Text, y: Text)
    requires s.state == InStatusLine(ResStatusStart) && s.nread + |x| <= s.config.maxHeaderSize && x != [] && IsReason(x)
    ensures Run(s, t, x + y) == Run(Ahead(Reset(s), InStatusLine(ResStatus), |x|), Add(t, Data(Status, x)), y)
    decreases |x|
  {
    hide Run, Add;
    var init, ch := x[..|x| - 1], x[|x| - 1];
    LastApart(x, y);
    if |x| == 1 {
      ReasonByte(s, t, ch, y);
    } else {
      ReasonRun(s, t, init, [ch] + y);
      ReasonByte(Ahead(Reset(s), InStatusLine(ResStatus), |x| - 1), Add(t, Data(Status, init)), ch, y);
      AddPieces(t, Status, init, [ch]);
    }
  }

  /** The states in which the status line may end. */
  predicate LineMayEnd(s: State) {
    s == InStatusLine(ResStatusCode) || s == InStatusLine(ResStatusStart) || s == InStatusLine(ResStatus)
  }

  function LastReset(s: Parser): Parser {
    if s.state == InStatusLine(ResStatus) then s else Reset(s)
  }

  lemma LineEndByte(s: Parser, t: Trace)
    requires LineMayEnd(s.state)
    ensures Byte(s, t, LF) == Point(LastReset(s).(state := HeaderFieldStart), Add(t, Data(Status, [])), Advance)
    ensures Byte(s, t, CR) == Point(LastReset(s).(state := InStatusLine(ResLineAlmostDone)), Add(t, Data(Status, [])), Advance)
  {
    hide Add;
    match s.state.res
    case ResStatusCode => StatusEnds(Reset(s), t); StartEnds(s.(state := InStatusLine(ResStatusStart)), t); CodeEnds(s, t);
    case ResStatusStart => StatusEnds(Reset(s), t); StartEnds(s, t);
    case _ => StatusEnds(s, t);
  }

  lemma StatusEnds(s: Parser, t: Trace)
    ensures var z := s.(state := InStatusLine(ResStatus));
            && Byte(z, t, LF) == Point(s.(state := HeaderFieldStart), Add(t, Data(Status, [])), Advance)
            && Byte(z, t, CR) == Point(s.(state := InStatusLine(ResLineAlmostDone)), Add(t, Data(Status, [])), Advance)
  {
    hide Add;
  }

  lemma StartEnds(s: Parser, t: Trace)
    requires s.state == InStatusLine(ResStatusStart)
    ensures var z := Reset(s).(state := InStatusLine(ResStatus)); Byte(s, t, LF) == Byte(z, t, LF) && Byte(s, t, CR) == Byte(z, t, CR)
  {
    hide Byte;
    SilentThenAgain(s, t, LF);
    SilentThenAgain(s, t, CR);
  }

  lemma CodeEnds(s: Parser, t: Trace)
    requires s.state == InStatusLine(ResStatusCode)
    ensures var z := s.(state := InStatusLine(ResStatusStart)); Byte(s, t, LF) == Byte(z, t, LF) && Byte(s, t, CR) == Byte(z, t, CR)
  {
    hide Byte;
    SilentThenAgain(s, t, LF);
    SilentThenAgain(s, t, CR);
  }

  lemma StatusLineEnd(s: Parser, t: Trace, e: Eol, y: Text)
    requires LineMayEnd(s.state) && s.nread + |e.Text()| <= s.config.maxHeaderSize
    ensures Run(s, t, e.Text() + y)
         == Run(LastReset(s).(state := HeaderFieldStart, nread := s.nread + |e.Text()|), Add(t, Data(Status, [])), y)
  {
    hide Run, Byte, Visit, Add;
    LineEndByte(Counted(s), t);
    if e.Feed? {
      RunByte(s, t, LF, y);
    } else {
      ReturnFirst(y);
      RunByte(s, t, CR, [LF] + y);
      var s1 := LastReset(s).(state := InStatusLine(ResLineAlmostDone), nread := s.nread + 1);
      StatusStep(s1, Add(t, Data(Status, [])), LF, y, s1.(state := HeaderFieldStart, nread := s.nread + 2), Add(t, Data(Status, [])));
    }
  }

  /** A status line, a header block and content. Without a reason there is no space after the code either. */
  datatype Response = Response(
    major: char, minor: char, code: Text, reason: Option<Text>, eol: Eol, block: Block, content: Content)

  /** The codes that never have a body. */
  predicate IsBodiless(code: nat) {
    100 <= code <= 199 || code == 204 || code == 304
  }

  predicate IsStatusLine(r: Response) {
    && IsNum(r.major) && IsNum(r.minor) && r.code != [] && AllDigits(r.code) && Decimal(r.code) <= 999
    && (r.reason.Some? ==> IsReason(r.reason.value))
  }

  /** A response that says how its content ends; without a framing line the content lasts until the end of the
      connection, unless the status code forbids it. */
  predicate IsResponse(r: Response, config: Config) {
    && IsStatusLine(r) && r.block.Ok() && r.content.Fits(r.block.framing, config)
    && (r.block.framing.NoLine? ==> (r.content.UntilEnd? <==> !IsBodiless(Decimal(r.code))))
  }

  function ReasonThen(r: Response, y: Text): Text {
    if r.reason.None? then r.eol.Text() + y else [' '] + (r.reason.value + (r.eol.Text() + y))
  }

  function StatusThen(r: Response, y: Text): Text {
    "HTTP/" + ([r.major] + (['.'] + ([r.minor] + ([' '] + (r.code + ReasonThen(r, y))))))
  }

  /** Status line, header block and blank line, followed by `y`. */
  function HeadThen(r: Response, y: Text): Text {
    StatusThen(r, LinesText(r.block.Lines()) + (r.block.end.Text() + y))
  }

  function ResponseText(r: Response): Text {
    HeadThen(r, r.content.Text())
  }

  function ReasonLength(r: Response): nat {
    if r.reason.None? then 0 else 1 + |r.reason.value|
  }

  function HeadLength(r: Response): nat {
    9 + |r.code| + ReasonLength(r) + |r.eol.Text()| + |LinesText(r.block.Lines())| + |r.block.end.Text()|
  }

  function ReasonText(r: Response): Text {
    if r.reason.None? then [] else r.reason.value
  }

  function ResponseEvents(r: Response): Trace {
    [Note(MessageBegin), Data(Status, ReasonText(r))] + MessageEvents(r.block, r.content)
  }

  /** The struct after the status line. */
  function InHeaders(s: Parser, r: Response): Parser
    requires IsStatusLine(r)
  {
    s.(state := HeaderFieldStart, matcher := s.matcher.(index := 0), framing := Framing(NO_FLAGS, false, U64_MAX),
       nread := s.nread + 9 + |r.code| + ReasonLength(r) + |r.eol.Text()|,
       line := s.line.(major := Digit(r.major), minor := Digit(r.minor), statusCode := Decimal(r.code)))
  }

  lemma SpaceByte(s: Parser, t: Trace, y: Text)
    requires s.state == InStatusLine(ResStatusCode) && s.nread < s.config.maxHeaderSize
    ensures Run(s, t, [' '] + y) == Run(Ahead(s, InStatusLine(ResStatusStart), 1), t, y)
  {
    hide Run;
    StatusStep(s, t, ' ', y, Ahead(s, InStatusLine(ResStatusStart), 1), t);
  }

  lemma ReasonThenRun(s: Parser, t: Trace, r: Response, y: Text)
    requires s.state == InStatusLine(ResStatusCode) && (r.reason.Some? ==> IsReason(r.reason.value)) && !EndsIn(t, Status)
    requires s.nread + ReasonLength(r) + |r.eol.Text()| <= s.config.maxHeaderSize
    ensures Run(s, t, ReasonThen(r, y))
         == Run(Reset(s).(state := HeaderFieldStart, nread := s.nread + ReasonLength(r) + |r.eol.Text()|), t + [Data(Status, ReasonText(r))], y)
  {
    hide Run, Add, EndsIn, IsReason;
    if r.reason.None? {
      AddEnds(t, Status, []);
      StatusLineEnd(s, t, r.eol, y);
    } else {
      SpaceByte(s, t, r.reason.value + (r.eol.Text() + y));
      ReasonAndEnd(Ahead(s, InStatusLine(ResStatusStart), 1), t, r.reason.value, r.eol, y);
    }
  }

  lemma ReasonAndEnd(s: Parser, t: Trace, x: Text, e: Eol, y: Text)
    requires s.state == InStatusLine(ResStatusStart) && IsReason(x) && !EndsIn(t, Status)
    requires s.nread + |x| + |e.Text()| <= s.config.maxHeaderSize
    ensures Run(s, t, x + (e.Text() + y)) == Run(Past(Reset(s), HeaderFieldStart, x + e.Text()), t + [Data(Status, x)], y)
  {
    hide *;
    AddEnds(t, Status, x);
    EndingIs(s, x, e);
    if x == [] {
      assert x + (e.Text() + y) == e.Text() + y;
      StatusLineEnd(s, t, e, y);
    } else {
      ReasonRun(s, t, x, e.Text() + y);
      StatusEnding(t, x);
      AddEnds(t + [Data(Status, x)], Status, []);
      StatusLineEnd(Ahead(Reset(s), InStatusLine(ResStatus), |x|), t + [Data(Status, x)], e, y);
    }
  }

  /** The struct at the end of the status line, with a reason and without one. */
  lemma EndingIs(s: Parser, x: Text, e: Eol)
    requires s.state == InStatusLine(ResStatusStart)
    ensures LineMayEnd(s.state)
    ensures var z := Ahead(Reset(s), InStatusLine(ResStatus), |x|);
            && LineMayEnd(z.state) && z.nread == s.nread + |x| && z.config == s.config
            && LastReset(z).(state := HeaderFieldStart, nread := z.nread + |e.Text()|) == Past(Reset(s), HeaderFieldStart, x + e.Text())
    ensures x == [] ==> LastReset(s).(state := HeaderFieldStart, nread := s.nread + |e.Text()|) == Past(Reset(s), HeaderFieldStart, x + e.Text())
  {
  }

  lemma StatusEnding(t: Trace, x: Text)
    ensures EndsIn(t + [Data(Status, x)], Status)
  {
  }

  lemma StatusLineRun(s: Parser, t: Trace, r: Response, y: Text)
    requires s.state == Idle(StartRes) && IsStatusLine(r)
    requires s.nread + 9 + |r.code| + ReasonLength(r) + |r.eol.Text()| <= s.config.maxHeaderSize
    ensures Run(s, t, StatusThen(r, y)) == Run(InHeaders(s, r), t + [Note(MessageBegin), Data(Status, ReasonText(r))], y)
  {
    hide Run, ReasonThen, ReasonLength, ReasonText, IsReason, IsNum, Digit, Decimal, AllDigits, EndsIn;
    var y1 := r.code + ReasonThen(r, y);
    StatusStart(s, t, [r.major] + (['.'] + ([r.minor] + ([' '] + y1))));
    var s1, t1 := Ahead(Fresh(s), InStatusLine(ResHttpMajor), 5), t + [Note(MessageBegin)];
    VersionRun(s1, t1, r.major, r.minor, y1);
    var s2 := Ahead(s1.(line := s1.line.(major := Digit(r.major), minor := Digit(r.minor))), InStatusLine(ResFirstStatusCode), 4);
    CodeRun(s2, t1, r.code, ReasonThen(r, y));
    var s3 := Ahead(WithCode(s2, Decimal(r.code)), InStatusLine(ResStatusCode), |r.code|);
    NoteEndsNothing(t);
    ReasonThenRun(s3, t1, r, y);
    assert t1 + [Data(Status, ReasonText(r))] == t + [Note(MessageBegin), Data(Status, ReasonText(r))];
  }

  lemma NoteEndsNothing(t: Trace)
    ensures !EndsIn(t + [Note(MessageBegin)], Status)
  {
  }

  lemma StatusEndsNothing(t: Trace, x: Text)
    ensures !EndsIn(t + [Note(MessageBegin), Data(Status, x)], Field)
  {
  }

  lemma InHeadersGood(s: Parser, t: Trace, r: Response)
    requires Good(s) && s.state == Idle(StartRes) && IsStatusLine(r)
    requires s.nread + 9 + |r.code| + ReasonLength(r) + |r.eol.Text()| <= s.config.maxHeaderSize
    ensures Good(InHeaders(s, r))
  {
    hide Run, Good, StatusThen, InHeaders, IsStatusLine, ReasonLength;
    StatusLineRun(s, t, r, []);
    RunKeeps(s, t, StatusThen(r, []));
    RunNothing(InHeaders(s, r), t + [Note(MessageBegin), Data(Status, ReasonText(r))]);
  }

  lemma InHeadersIs(s: Parser, r: Response)
    requires IsStatusLine(r) && s.line.kind.Response? && !s.line.verb.CONNECT?
    ensures var z := InHeaders(s, r);
            && z.state.HeaderFieldStart? && z.framing == Framing(NO_FLAGS, false, U64_MAX) && !z.line.verb.CONNECT? && z.config == s.config
            && z.nread == s.nread + 9 + |r.code| + ReasonLength(r) + |r.eol.Text()|
  {
    hide Decimal, AllDigits, IsReason;
  }

  /** Whether the content lasts until the end of the connection. */
  lemma EofByCode(s: Parser, r: Response)
    requires IsStatusLine(r) && s.line.kind.Response? && r.block.Ok() && r.block.framing.NoLine?
    ensures NeedsEof(AfterBlock(InHeaders(s, r), r.block)) <==> !IsBodiless(Decimal(r.code))
  {
    hide IsSideLine, LinesText, BlockMatch, AsksAfter, Decimal, AllDigits, IsReason;
  }

  /** Every such response is read back: its reason, its headers, its content, and one completed message unless the
      content lasts until the end of the connection. */
  lemma ResponseRun(s: Parser, t: Trace, r: Response)
    requires Good(s) && s.state == Idle(StartRes) && s.line.kind.Response? && !s.line.verb.CONNECT?
    requires IsResponse(r, s.config) && s.nread + HeadLength(r) <= s.config.maxHeaderSize
    ensures var z := Closed(Headed(InHeaders(s, r), r.block), r.content);
            Run(s, t, ResponseText(r)) == Stop(z, t + ResponseEvents(r), [], Advance)
  {
    hide *;
    ResponseParts(s, r);
    InHeadersGood(s, t, r);
    InHeadersIs(s, r);
    if r.block.framing.NoLine? { EofByCode(s, r); }
    var y1 := LinesText(r.block.Lines()) + (r.block.end.Text() + (r.content.Text() + []));
    StatusLineRun(s, t, r, y1);
    StatusEndsNothing(t, ReasonText(r));
    var t1 := t + [Note(MessageBegin), Data(Status, ReasonText(r))];
    MessageRun(InHeaders(s, r), t1, r.block, r.content, []);
    var z := Closed(Headed(InHeaders(s, r), r.block), r.content);
    RunNothing(z, t1 + MessageEvents(r.block, r.content));
    assert r.content.Text() + [] == r.content.Text();
    EventsAndText(t, r);
  }

  lemma ResponseParts(s: Parser, r: Response)
    requires IsResponse(r, s.config)
    ensures IsStatusLine(r) && r.block.Ok() && r.content.Fits(r.block.framing, s.config)
    ensures r.block.framing.NoLine? ==> (r.content.UntilEnd? <==> !IsBodiless(Decimal(r.code)))
    ensures HeadLength(r) == 9 + |r.code| + ReasonLength(r) + |r.eol.Text()| + |LinesText(r.block.Lines())| + |r.block.end.Text()|
  {
    hide IsStatusLine, IsBodiless, ReasonLength, LinesText;
  }

  lemma EventsAndText(t: Trace, r: Response)
    ensures t + [Note(MessageBegin), Data(Status, ReasonText(r))] + MessageEvents(r.block, r.content) == t + ResponseEvents(r)
    ensures ResponseText(r) == StatusThen(r, LinesText(r.block.Lines()) + (r.block.end.Text() + r.content.Text()))
  {
    hide MessageEvents, StatusThen, LinesText, ReasonText;
  }

  // What extract_payload makes of a response.

  /** The pieces in which the body is reported. */
  function Pieces(c: Content): seq<Text> {
    match c
    case Nothing => []
    case Sized(x) => [x]
    case Coded(cs, _) => ChunkTexts(cs)
    case UntilEnd(x) => if x == [] then [] else [x]
  }

  /** The body of a response. */
  function BodyOf(c: Content): Text {
    Flatten(Pieces(c))
  }

  /** The body comes in one piece. A caller can see that from the response. */
  predicate IsOnePiece(c: Content) {
    c.Sized? || (c.Coded? && |c.chunks| == 1) || (c.UntilEnd? && c.text != [])
  }

  lemma ContentBodies(c: Content)
    ensures BodyTexts(c.Events()) == Pieces(c)
  {
    match c
    case Nothing =>
    case Sized(x) => OneBody(x);
    case Coded(cs, last) =>
      BodyTextsConcat(ChunkEvents(cs), last.Events());
      ChunkBodies(cs);
      LastHasNoBody(last);
    case UntilEnd(x) =>
      if x != [] { assert [Data(Body, x)][..0] == [] && BodyTexts([Data(Body, x)][..0]) == []; }
  }

  lemma ResponseBodies(r: Response)
    ensures BodyTexts(ResponseEvents(r)) == Pieces(r.content)
  {
    hide BodyTexts, LinesEvents, Pieces, ReasonText;
    var n: Trace, c: Trace := [Note(HeadersComplete)], if r.content.Nothing? then [Note(MessageComplete)] else r.content.Events();
    var l := LinesEvents(r.block.Lines());
    BodyTextsConcat([Note(MessageBegin), Data(Status, ReasonText(r))], MessageEvents(r.block, r.content));
    NoneOf(Note(MessageBegin), Data(Status, ReasonText(r)));
    BodyTextsConcat(l + n, c);
    BodyTextsConcat(l, n);
    LinesHaveNoBody(r.block.Lines());
    NoneOf(Note(HeadersComplete), Note(HeadersComplete));
    NoneOf(Note(MessageComplete), Note(MessageComplete));
    ContentBodies(r.content);
    assert BodyTexts(r.content.Events()) == Pieces(r.content);
    if r.content.Nothing? { NothingHasNoPieces(); }
  }

  lemma NothingHasNoPieces()
    ensures Pieces(Nothing) == []
  {
  }

  lemma PiecesOk(r: Response, config: Config)
    requires IsResponse(r, config)
    ensures (forall x :: x in Pieces(r.content) ==> x != []) && (|Pieces(r.content)| == 1 <==> IsOnePiece(r.content))
  {
    hide IsStatusLine, IsSizeLine, LinesText, IsSideLine, IsLine, IsName, Decimal, Stripped, ListsChunked, IsBodiless;
  }

  lemma DefaultInit()
    ensures var s := Init(Kind.Response, DEFAULT_CONFIG);
            Good(s) && s.state == Idle(StartRes) && s.line.kind.Response? && !s.line.verb.CONNECT? && s.config == DEFAULT_CONFIG && s.nread == 0
  {
    InitGood(Kind.Response, DEFAULT_CONFIG);
    hide Good;
  }

  /** For every single response in one buffer, in each framing: extract_payload gives back the last piece of the body,
      or nothing defined if there is none, and it gives back the whole body if and only if the body comes in one piece. */
  lemma ExtractOfResponse(r: Response)
    requires IsResponse(r, DEFAULT_CONFIG) && HeadLength(r) <= DEFAULT_CONFIG.maxHeaderSize
    ensures var ps, x := Pieces(r.content), Extract(ResponseText(r));
            && x == (if ps == [] then Unset else Copy(ps[|ps| - 1] + [NUL]))
            && (x == Copy(BodyOf(r.content) + [NUL]) <==> IsOnePiece(r.content))
  {
    var s := Init(Kind.Response, DEFAULT_CONFIG);
    DefaultInit();
    hide Run, Good, IsResponse, HeadLength, ResponseText, ResponseEvents, Closed, Headed, BodyTexts, Pieces, IsOnePiece, Flatten, InHeaders;
    ResponseRun(s, [], r);
    assert [] + ResponseEvents(r) == ResponseEvents(r);
    ResponseBodies(r);
    PiecesOk(r, DEFAULT_CONFIG);
    var ps := Pieces(r.content);
    if ps != [] { LastIsWhole(ps); }
  }

  // The failing input: a body in two chunks.

  const CODING := HeaderLine("Transfer-Encoding", [' '] + HeaderWords.CHUNKED, ReturnFeed)
  const TWO_CHUNKS := Coded([Chunk("1", [], "A"), Chunk("1", [], "B")], Last("0", [], [], ReturnFeed))
  const SPLIT := SplitResponse(CODING, TWO_CHUNKS)

  function SplitResponse(l: HeaderLine, c: Content): Response {
    Response.Response('1', '1', "200", Some("OK"), ReturnFeed, Block([], ByCoding(l), [], ReturnFeed), c)
  }

  lemma CodingNameIs()
    ensures IsToken("Transfer-Encoding") && IsName("Transfer-Encoding", TransferEncoding)
  {
  }

  lemma BlankApart(v: Text)
    requires v != [] && !IsBlank(v[0])
    ensures Stripped([' '] + v) == v
  {
    assert ([' '] + v)[1..] == v;
  }

  lemma ChunkedIsLower()
    ensures IsValueText(HeaderWords.CHUNKED) && !IsBlank(HeaderWords.CHUNKED[0])
  {
  }

  lemma CodingValueIs()
    ensures var v := [' '] + HeaderWords.CHUNKED;
            ListsChunked(Stripped(v)) && IsValueText(v) && |v| == 8
  {
    ChunkedIsLower();
    ChunkedAlone();
    BlankApart(HeaderWords.CHUNKED);
    hide Stripped, ListsChunked;
  }

  lemma CodingIs()
    ensures IsChunkedLine(CODING) && |LineText(CODING)| == 28
  {
    CodingNameIs();
    CodingValueIs();
    hide IsToken, IsName, Stripped, ListsChunked, IsValueText;
  }

  lemma SizesAre()
    ensures IsSizeLine("0", [], 0, DEFAULT_CONFIG) && IsSizeLine("1", [], 1, DEFAULT_CONFIG)
  {
    assert "0"[1..] == [] && "1"[1..] == [];
    assert HexFrom(0, "0") == HexFrom(0, "0"[1..]) && HexFrom(0, "1") == HexFrom(1, "1"[1..]);
  }

  lemma CodeIs()
    ensures AllDigits("200") && Decimal("200") == 200
  {
    assert "200"[..2] == "20" && "20"[..1] == "2" && "2"[..0] == [];
    assert Decimal("2") == 2 && Decimal("20") == 20;
  }

  lemma ContentFits(l: HeaderLine)
    requires IsChunkedLine(l)
    ensures TWO_CHUNKS.Fits(ByCoding(l), DEFAULT_CONFIG)
  {
    SizesAre();
    hide IsChunkedLine, IsSizeLine, LineText;
    assert LinesText([]) == [];
  }

  lemma SplitLine(l: HeaderLine, c: Content)
    ensures IsStatusLine(SplitResponse(l, c)) && SplitResponse(l, c).block.Lines() == [l]
  {
    CodeIs();
    hide Decimal, AllDigits;
  }

  lemma SplitIsOk(l: HeaderLine, c: Content)
    requires IsChunkedLine(l) && c.Fits(ByCoding(l), DEFAULT_CONFIG) && |LineText(l)| <= 100
    ensures IsResponse(SplitResponse(l, c), DEFAULT_CONFIG) && HeadLength(SplitResponse(l, c)) <= DEFAULT_CONFIG.maxHeaderSize
  {
    SplitLine(l, c);
    SplitLength(l, c);
    hide IsChunkedLine, IsStatusLine, LineText, LinesText, IsBodiless, HeadLength;
  }

  lemma SplitLength(l: HeaderLine, c: Content)
    ensures HeadLength(SplitResponse(l, c)) == 19 + |LineText(l)|
  {
    SplitLine(l, c);
    OneLine(l);
    hide LineText, LinesText, IsStatusLine;
  }

  lemma SplitIsResponse()
    ensures IsResponse(SPLIT, DEFAULT_CONFIG) && HeadLength(SPLIT) <= DEFAULT_CONFIG.maxHeaderSize
  {
    CodingIs();
    hide IsChunkedLine, LineText, IsResponse, HeadLength;
    ContentFits(CODING);
    SplitIsOk(CODING, TWO_CHUNKS);
  }

  /** "A" and "B" in two chunks: the body is "AB", what is given back is "B". */
  lemma TwoChunksLoseOne()
    ensures IsResponse(SPLIT, DEFAULT_CONFIG) && BodyOf(SPLIT.content) == "AB"
    ensures Extract(ResponseText(SPLIT)) == Copy("B" + [NUL])
  {
    SplitIsResponse();
    TwoPieces();
    hide IsResponse, HeadLength, Extract, ResponseText, Flatten;
    ExtractOfResponse(SPLIT);
  }

  lemma TwoPieces()
    ensures Pieces(TWO_CHUNKS) == ["A", "B"] && BodyOf(TWO_CHUNKS) == "AB"
  {
    assert ChunkTexts(TWO_CHUNKS.chunks) == ["A", "B"];
    assert ["A", "B"][1..] == ["B"] && ["B"][1..] == [];
    assert Flatten(["B"]) == "B" + [] && Flatten(["A", "B"]) == "A" + Flatten(["B"]);
  }
}
