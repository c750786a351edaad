/** What holds of every struct and trace that calls from http_parser_init can lead to. */
module Guarantees {
  import opened Bytes
  import opened Types
  import opened UrlChars
  import opened HeaderWords
  import opened Table
  import opened Runs
  import opened Invariants
  import opened Grammar
  import opened HeaderText
  import opened Views
  import opened Ledgers
  import opened Traces

  /** No assert fires and no counter leaves its field, whatever comes next. */
  lemma NoAssertFires(at: Spot, data: Text)
    requires Reachable(at)
    ensures !Run(at.s, at.t, data).why.Crash?
    ensures at.s.nread <= at.s.config.maxHeaderSize
    ensures at.s.matcher.index < 32 && at.s.framing.contentLength <= U64_MAX && at.s.line.statusCode <= 999
  {
    hide Runs.Run;
    ReachableOk(at);
    RunKeeps(at.s, at.t, data);
  }

  /** Section 3.3.3 of RFC 7230, for the default configuration: a chunked body has no length,
      a body with a length has no transfer coding, and no request is delimited by the end
      of the connection. */
  lemma FramingExclusive(at: Spot)
    requires Reachable(at) && !at.s.config.lenient && !at.s.config.allowChunkedLength
    ensures at.s.state.InChunk? ==> at.s.framing.flags.chunked && !at.s.framing.flags.contentLength
    ensures at.s.state.BodyIdentity? ==>
              at.s.framing.flags.contentLength && !at.s.framing.usesTransferEncoding && !at.s.framing.flags.chunked
    ensures at.s.state.BodyIdentityEof? ==> !at.s.line.kind.Request?
  {
    ReachableOk(at);
    hide Runs.Run, Types.MethodText, HeadOk, HeaderOk, LengthMatchesFlag, PhaseFits, TextFits;
  }

  /** The trace is a prefix of well-formed messages, as far as the state says. */
  lemma TraceFollowsGrammar(at: Spot)
    requires Reachable(at)
    ensures Phases(at.t).Some? && PhaseFits(at.s, Phases(at.t).value)
  {
    ReachableOk(at);
    hide Runs.Run, PhaseFits, TextFits, Good;
  }

  /** A visit that neither ends a message nor sets the chunked flag nor ends a header line. */
  predicate Plain(s: Parser, a: Act) {
    && a.notice != Some(MessageComplete)
    && (a.s.framing.flags.chunked ==> s.framing.flags.chunked)
    && (a.next.Again? ==> a.s.state != InValue(HeaderValueLws))
  }

  lemma LineIsPlain(s: Parser, ch: char)
    ensures s.state.Idle? ==> Plain(s, VisitIdle(s, s.state.idle, ch))
    ensures s.state.ResOrRespH? ==> Plain(s, VisitResOrRespH(s, ch))
    ensures s.state.ReqMethod? ==> Plain(s, VisitMethod(s, ch))
    ensures s.state.InUrl? ==> Plain(s, VisitUrl(s, s.state.url, ch))
    ensures s.state.InVersion? ==> Plain(s, VisitVersion(s, s.state.req, ch))
  {
    hide Types.MethodText, UrlChars.ParseUrlChar;
  }

  lemma StatusLineIsPlain(s: Parser, ch: char)
    requires s.state.InStatusLine?
    ensures Plain(s, VisitStatusLine(s, s.state.res, ch))
  {
  }

  lemma FieldIsPlain(s: Parser, ch: char)
    ensures s.state.HeaderFieldStart? ==> Plain(s, VisitFieldStart(s, ch))
    ensures s.state == InName(HeaderField) ==> Plain(s, VisitField(s, ch))
  {
    hide Token, NameByte, FirstNameState;
  }

  lemma BlanksArePlain(s: Parser, ch: char)
    requires s.state.InName? && !s.state.name.HeaderField? && NameHeader(s.matcher.header)
    ensures Plain(s, VisitName(s, s.state.name, ch))
  {
    EmptyValueFlags(s.matcher.header, s.framing);
    ValueStartFlags(s.matcher.header, s.framing, ch);
    hide LineFlags, ValueStart, VisitField;
    match s.state.name
    case HeaderValueDiscardWs => {}
    case HeaderValueDiscardWsAlmostDone => {}
    case HeaderValueDiscardLws => {}
  }

  lemma NameIsPlain(s: Parser, ch: char)
    requires Mid(s)
    ensures s.state.HeaderFieldStart? ==> Plain(s, VisitFieldStart(s, ch))
    ensures s.state.InName? ==> Plain(s, VisitName(s, s.state.name, ch))
  {
    MidName(s);
    FieldIsPlain(s, ch);
    hide Plain, Mid, VisitField, VisitFieldStart;
    if s.state.InName? && !s.state.name.HeaderField? { BlanksArePlain(s, ch); }
  }

  lemma BodyIsPlain(s: Parser, ch: char)
    ensures s.state.HeadersAlmostDone? ==> Plain(s, VisitHeadersAlmostDone(s, ch))
    ensures s.state.InChunk? ==> Plain(s, VisitChunk(s, s.state.chunk, ch))
    ensures s.state.BodyIdentity? ==> Plain(s, VisitBody(s))
    ensures s.state.BodyIdentityEof? ==> Plain(s, Begin(s, Body))
  {
  }

  lemma LineChunked(h: HeaderState, flags: Flags)
    requires !h.CodingChunked?
    ensures LineFlags(h, flags).chunked == flags.chunked
  {
    match h
    case OptionMatched(o) => match o { case KeepAliveOption => case CloseOption => case UpgradeOption => }
    case _ =>
  }

  /** The exceptions. */
  lemma ValueIsPlain(s: Parser, ch: char)
    requires s.state.InValue?
    ensures var a := VisitValue(s, s.state.value, ch);
            if s.state.value.HeaderValueLws? && s.matcher.header.CodingChunked?
            then a.notice.None? && (a.next.Again? ==> a.s.state != InValue(HeaderValueLws))
            else Plain(s, a)
  {
    hide Table.ValueStart, Table.ValueByte, Table.LineFlags, Bytes.IsHeaderChar;
    ValueStartFlags(s.matcher.header, s.framing, ch);
    ValueByteFlags(s.matcher, s.framing, ch);
    if !s.matcher.header.CodingChunked? { LineChunked(s.matcher.header, s.framing.flags); }
    match s.state.value
    case HeaderValueStart => {}
    case HeaderValue => {}
    case HeaderAlmostDone => {}
    case HeaderValueLws => {}
  }

  lemma EndIsPlain(s: Parser, ch: char)
    ensures s.state.HeadersDone? ==>
              var a := VisitHeadersDone(s, ch);
              if a.notice.Some? then a.notice.value.MessageComplete? && a.s.state == NewMessage(s) && a.s.framing == s.framing && !a.next.Again?
              else Plain(s, a)
    ensures s.state.MessageDone? ==>
              var a := VisitMessageDone(s); a.s.state == NewMessage(s) && a.s.framing == s.framing && !a.next.Again?
  {
    hide NewMessage;
  }

  lemma VisitIsPlain(s: Parser, ch: char)
    requires Mid(s)
    ensures var a := Visit(s, ch);
            || Plain(s, a)
            || (s.state == InValue(HeaderValueLws) && s.matcher.header.CodingChunked? && a.notice.None? &&
                (a.next.Again? ==> a.s.state != InValue(HeaderValueLws)))
            || ((s.state.HeadersDone? || s.state.MessageDone?) && a.s.state == NewMessage(s) &&
                a.s.framing == s.framing && !a.next.Again?)
  {
    hide Plain, Mid, NewMessage;
    match s.state
    case InStatusLine(_) => StatusLineIsPlain(s, ch);
    case HeaderFieldStart => NameIsPlain(s, ch);
    case InName(_) => NameIsPlain(s, ch);
    case InValue(_) => ValueIsPlain(s, ch);
    case HeadersDone => EndIsPlain(s, ch);
    case MessageDone => EndIsPlain(s, ch);
    case _ => LineIsPlain(s, ch); BodyIsPlain(s, ch);
  }

  /** In the dead state nothing is ever reported. */
  lemma {:induction false} DeadIsSilent(s: Parser, t: Trace, data: Text)
    requires s.state == Idle(Dead)
    ensures var r := Run(s, t, data); r.t == t && !r.why.Exit? && (r.why.Advance? ==> r.s.state == Idle(Dead))
    decreases |data|
  {
    if data != [] && !Overflows(s) {
      DeadByte(Counted(s), t, data[0]);
      hide Table.Visit, Runs.Byte;
      if data[0] == CR || data[0] == LF { DeadIsSilent(Counted(s), t, data[1..]); }
    }
  }

  lemma DeadByte(s: Parser, t: Trace, ch: char)
    requires s.state == Idle(Dead)
    ensures Byte(s, t, ch) == Point(s, t, if ch == CR || ch == LF then Advance else Fail(CLOSED_CONNECTION))
  {
  }

  /** Between messages, on every run: the parser is dead exactly when the connection must not be kept alive
      after the message that ended last. */
  lemma DeadAfterMessage(at: Spot)
    requires Reachable(at) && at.t != [] && at.t[|at.t| - 1] == Note(MessageComplete)
    ensures at.s.state.Idle? && (at.s.state == Idle(Dead) <==> !ShouldKeepAlive(at.s))
  {
    ReachableOk(at);
    hide Run, Good, TextFits, LedgerFits, ShouldKeepAlive;
  }

  /** After a message that does not keep the connection alive no further message ever begins, and nothing else is
      reported, whatever is fed in any number of calls. */
  lemma {:induction false} NothingAfterClose(at: Spot, bufs: seq<Text>)
    requires Reachable(at) && at.t != [] && at.t[|at.t| - 1] == Note(MessageComplete) && !ShouldKeepAlive(at.s)
    ensures Calls(at, bufs).Some? ==> Calls(at, bufs).value.t == at.t
  {
    hide Run, ShouldKeepAlive, Reachable;
    DeadAfterMessage(at);
    DeadCalls(at, bufs);
  }

  lemma {:induction false} DeadCalls(at: Spot, bufs: seq<Text>)
    requires at.s.state == Idle(Dead)
    ensures Calls(at, bufs).Some? ==> Calls(at, bufs).value.t == at.t
    decreases |bufs|
  {
    hide Run;
    if bufs != [] {
      DeadIsSilent(at.s, at.t, bufs[0]);
      var r := Run(at.s, at.t, bufs[0]);
      if r.why.Advance? { DeadCalls(Spot(r.s, r.t), bufs[1..]); }
    }
  }

  /** In a body of known length, on every run: the header lines of the message announce one length, and it is
      what is still to come plus the body bytes reported so far. */
  lemma LengthAnnounced(at: Spot)
    requires Reachable(at) && at.s.state.BodyIdentity?
    ensures Announce(LedgerOf(at.t).lines, at.s.framing.contentLength + LedgerOf(at.t).body)
  {
    hide *;
    ReachableOk(at);
    TraceParts(at.s, at.t);
    BodyAnnounced(at.s, ViewOf(at.t), LedgerOf(at.t));
  }

  lemma BodyAnnounced(s: Parser, w: View, g: Ledger)
    requires LedgerFits(s, w, g) && s.state.BodyIdentity?
    ensures Announce(g.lines, s.framing.contentLength + g.body)
  {
    hide Announce;
  }

  /** Between a name and its value the parser knows the header exactly by its name, however
      the name was cut into buffers and whatever its case. */
  lemma NamesAreRecognised(at: Spot) returns (name: Text)
    requires Reachable(at) && at.s.state == InName(HeaderValueDiscardWs)
    ensures at.t != [] && at.t[|at.t| - 1] == Data(Field, name)
    ensures at.s.matcher.header == Matched(ContentLength) <==> IsName(name, ContentLength)
    ensures at.s.matcher.header == Matched(TransferEncoding) <==> IsName(name, TransferEncoding)
    ensures at.s.matcher.header == Matched(Upgrade) <==> IsName(name, Upgrade)
    ensures at.s.matcher.header == Matched(Connection) <==> IsConnection(name)
  {
    ReachableOk(at);
    hide Runs.Run, PhaseFits, Good, NameFits, IsName, IsConnection;
    name := at.t[|at.t| - 1].text;
    NameRecognised(at.s.matcher, name);
  }

  lemma {:induction false} ChunkedByte(s: Parser, t: Trace, ch: char)
    requires Mid(s) && !s.framing.flags.chunked
    ensures Byte(s, t, ch).s.framing.flags.chunked && !Byte(s, t, ch).next.Fail? ==>
              s.state == InValue(HeaderValueLws) && s.matcher.header.CodingChunked?
    decreases Rank(s.state)
  {
    hide Visit, Mid, Report;
    var a := Visit(s, ch);
    VisitIsPlain(s, ch);
    VisitKeeps(s, ch);
    if a.next.Again? && !a.s.framing.flags.chunked { ChunkedByte(a.s, Report(t, a, ch), ch); }
  }

  lemma OneByte(s: Parser, t: Trace, ch: char)
    requires !Run(s, t, [ch]).why.Fail?
    ensures !Overflows(s)
    ensures var p := Byte(Counted(s), t, ch); !p.next.Fail? && p.s == Run(s, t, [ch]).s
  {
    hide Visit, Byte;
    assert [ch][1..] == [];
    var p := Byte(Counted(s), t, ch);
    RunNothing(p.s, p.t);
  }

  /** The header line that a trace ends in while a value is read. */
  lemma LineInTrace(at: Spot) returns (name: Text, value: Text)
    requires TraceOk(at.s, at.t) && at.s.state.InValue?
    ensures |at.t| > 1 && at.t[|at.t| - 2..] == [Data(Field, name), Data(Value, value)]
    ensures ValueFits(at.s.matcher, at.s.framing.contentLength, name, value, at.s.config.lenient)
  {
    hide Good, PhaseFits, Phases, ValueFits;
    name, value := at.t[|at.t| - 2].text, at.t[|at.t| - 1].text;
  }

  /** A byte makes a message chunked only by ending a Transfer-Encoding line whose last
      element is "chunked". */
  lemma ChunkedOnlyIfLast(at: Spot, ch: char) returns (name: Text, value: Text)
    requires Reachable(at) && !at.s.framing.flags.chunked
    requires var r := Run(at.s, at.t, [ch]); !r.why.Fail? && r.s.framing.flags.chunked
    ensures |at.t| > 1 && at.t[|at.t| - 2..] == [Data(Field, name), Data(Value, value)]
    ensures IsName(name, TransferEncoding) && LastElementIs(value, CHUNKED, at.s.config.lenient)
  {
    hide *;
    ReachableOk(at);
    TraceParts(at.s, at.t);
    OneByte(at.s, at.t, ch);
    CountedGood(at.s);
    CountedIs(at.s);
    ChunkedByte(Counted(at.s), at.t, ch);
    name, value := LineInTrace(at);
    ChunkedSays(at.s, name, value);
  }

  lemma CountedIs(s: Parser)
    ensures var z := Counted(s); z.framing == s.framing && z.state == s.state && z.matcher == s.matcher
  {
  }

  lemma ChunkedSays(s: Parser, name: Text, value: Text)
    requires s.matcher.header.CodingChunked? && ValueFits(s.matcher, s.framing.contentLength, name, value, s.config.lenient)
    ensures IsName(name, TransferEncoding) && LastElementIs(value, CHUNKED, s.config.lenient)
  {
    hide IsName, LastElementIs;
  }

  /** At the end of a Content-Length line the length is the number the line says; it neither
      wrapped nor is it the value that stands for "no length". */
  lemma LengthIsExact(at: Spot) returns (name: Text, value: Text)
    requires Reachable(at) && at.s.state == InValue(HeaderValueLws)
    requires LengthHeader(at.s.matcher.header)
    ensures |at.t| > 1 && at.t[|at.t| - 2..] == [Data(Field, name), Data(Value, value)]
    ensures IsName(name, ContentLength) && IsLength(value, at.s.framing.contentLength)
    ensures at.s.framing.flags.contentLength && (!at.s.framing.flags.trailing ==> at.s.framing.contentLength < U64_MAX)
  {
    ReachableOk(at);
    hide Run, PhaseFits, TextFits, IsName, Decimal, AllDigits;
    name, value := LineInTrace(at);
  }
}
