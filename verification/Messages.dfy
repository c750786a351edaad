/** The content of a message after its head, in each of the framings. */
module Messages {
  import opened Bytes
  import opened Types
  import opened Table
  import opened Runs
  import opened Invariants
  import opened Bodies
  import opened HeaderText
  import opened Codings
  import opened HeaderLines
  import opened Heads
  import opened Chunks
  import opened Lengths

  datatype Content =
    | Nothing
    | Sized(text: Text)
    | Coded(chunks: seq<Chunk>, last: Last)
    | UntilEnd(text: Text)
  {
    /** The bytes after the head. */
    function Text(): Text {
      match this
      case Nothing => []
      case Sized(x) => x
      case Coded(cs, last) => EncodeChunks(cs) + last.Text()
      case UntilEnd(x) => x
    }

    /** What is reported after the head. */
    function Events(): Trace {
      match this
      case Nothing => []
      case Sized(x) => [Data(Body, x), Note(MessageComplete)]
      case Coded(cs, last) => ChunkEvents(cs) + last.Events()
      case UntilEnd(x) => if x == [] then [] else [Data(Body, x)]
    }

    /** The content is framed as the line says. */
    predicate Fits(f: FramingLine, config: Config)
      requires f.Ok()
    {
      match this
      case Nothing => f.NoLine? || (f.ByLength? && Decimal(Stripped(f.line.value)) == 0)
      case Sized(x) => f.ByLength? && 0 < |x| == Decimal(Stripped(f.line.value))
      case Coded(cs, last) => f.ByCoding? && last.Ok(config) && forall i :: 0 <= i < |cs| ==> IsChunk(cs[i], config)
      case UntilEnd(_) => f.NoLine?
    }
  }

  /** The state in which the parser waits for the content. */
  predicate Expects(s: Parser, c: Content) {
    match c
    case Nothing => true
    case Sized(x) => s.state.BodyIdentity? && s.framing.contentLength == |x|
    case Coded(cs, last) => s.state == InChunk(ChunkSizeStart) && last.Ok(s.config) && forall i :: 0 <= i < |cs| ==> IsChunk(cs[i], s.config)
    case UntilEnd(_) => s.state.BodyIdentityEof?
  }

  /** The struct after the content. */
  function Closed(s: Parser, c: Content): Parser {
    match c
    case Nothing => s
    case Sized(_) => Finished(s)
    case Coded(_, last) => Ended(s, last)
    case UntilEnd(_) => s
  }

  lemma SizedRun(s: Parser, t: Trace, x: Text, y: Text)
    requires Good(s) && s.state.BodyIdentity? && s.framing.contentLength == |x| && !s.upgrade
    requires t != [] && t[|t| - 1].Note?
    ensures Run(s, t, x + y) == Run(Finished(s), t + [Data(Body, x), Note(MessageComplete)], y)
  {
    hide Run, NewMessage;
    LengthBody(s, t, x, y);
    assert AddText(t, Body, x) + [Note(MessageComplete)] == t + [Data(Body, x), Note(MessageComplete)];
  }

  lemma CodedRun(s: Parser, t: Trace, cs: seq<Chunk>, last: Last, y: Text)
    requires Good(s) && !s.upgrade && Expects(s, Coded(cs, last))
    ensures Run(s, t, (EncodeChunks(cs) + last.Text()) + y) == Run(Ended(s, last), t + (ChunkEvents(cs) + last.Events()), y)
  {
    hide Run, Good, EncodeChunks, ChunkEvents, IsChunk, Ended, IsSizeLine, LinesText, LinesEvents, IsSideLine;
    var x := EncodeChunks(cs) + (last.Text() + y);
    assert (EncodeChunks(cs) + last.Text()) + y == x;
    assert Flatten([x]) == x by { assert [x][1..] == [] && x + [] == x; }
    ChunkedRoundTrip(s, t, cs, last, y, [x]);
    RunAnyCutting(s, t, [x]);
    assert t + ChunkEvents(cs) + last.Events() == t + (ChunkEvents(cs) + last.Events());
  }

  /** The content is reported as it is. Content that lasts until the end of the connection is followed by nothing. */
  lemma ContentRun(s: Parser, t: Trace, c: Content, y: Text)
    requires Good(s) && !s.upgrade && Expects(s, c) && t != [] && t[|t| - 1].Note? && (c.UntilEnd? ==> y == [])
    ensures Run(s, t, c.Text() + y) == Run(Closed(s, c), t + c.Events(), y)
  {
    hide Run, Good, EncodeChunks, ChunkEvents, IsChunk, Ended, Finished;
    match c
    case Nothing => assert [] + y == y && t + [] == t;
    case Sized(x) => SizedRun(s, t, x, y);
    case Coded(cs, last) => CodedRun(s, t, cs, last, y);
    case UntilEnd(x) =>
      assert x + y == x;
      EofBody(s, t, x);
      RunNothing(s, t + c.Events());
      assert AddText(t, Body, x) == t + c.Events();
  }

  /** A head whose framing line fits the content, and which has a body exactly when the content is not empty, leads
      to the state that expects it. */
  lemma HeadExpects(s: Parser, b: Block, c: Content)
    requires b.Ok() && c.Fits(b.framing, s.config)
    requires b.framing.NoLine? ==> (c.UntilEnd? <==> NeedsEof(AfterBlock(s, b)))
    ensures Expects(Headed(s, b), c) && !Headed(s, b).upgrade
    ensures IsOver(AfterBlock(s, b)) <==> c.Nothing?
  {
    hide LinesText, IsSideLine, BlockMatch, Stripped, IsLine, IsName, ListsChunked, IsChunk, IsSizeLine, NeedsEof, NewMessage, AsksAfter;
  }

  lemma HeadedGood(s: Parser, t: Trace, b: Block)
    requires Good(s) && s.state.HeaderFieldStart? && s.framing == Framing(NO_FLAGS, false, U64_MAX) && !s.line.verb.CONNECT? && b.Ok()
    requires s.nread + |LinesText(b.Lines())| + |b.end.Text()| <= s.config.maxHeaderSize && !EndsIn(t, Field)
    ensures Good(Headed(s, b))
  {
    hide Run, Good, Headed, HeadEvents, LinesText, EndsIn, IsSideLine, IsLengthLine, IsChunkedLine;
    HeadRun(s, t, b, []);
    RunKeeps(s, t, LinesText(b.Lines()) + (b.end.Text() + []));
    RunNothing(Headed(s, b), t + HeadEvents(s, b));
  }

  /** What is reported of a message after its first line: the header lines, the end of the head, the content and the
      end of the message, unless the content lasts until the end of the connection. */
  function MessageEvents(b: Block, c: Content): Trace {
    LinesEvents(b.Lines()) + [Note(HeadersComplete)] + (if c.Nothing? then [Note(MessageComplete)] else c.Events())
  }

  /** A whole message after its first line. */
  lemma MessageRun(s: Parser, t: Trace, b: Block, c: Content, y: Text)
    requires Good(s) && s.state.HeaderFieldStart? && s.framing == Framing(NO_FLAGS, false, U64_MAX) && !s.line.verb.CONNECT?
    requires b.Ok() && c.Fits(b.framing, s.config) && !EndsIn(t, Field) && (c.UntilEnd? ==> y == [])
    requires b.framing.NoLine? ==> (c.UntilEnd? <==> NeedsEof(AfterBlock(s, b)))
    requires s.nread + |LinesText(b.Lines())| + |b.end.Text()| <= s.config.maxHeaderSize
    ensures Run(s, t, LinesText(b.Lines()) + (b.end.Text() + (c.Text() + y))) == Run(Closed(Headed(s, b), c), t + MessageEvents(b, c), y)
  {
    hide *;
    HeadExpects(s, b, c);
    HeadedGood(s, t, b);
    HeadRun(s, t, b, c.Text() + y);
    HeadEndsInNote(s, t, b);
    ContentRun(Headed(s, b), t + HeadEvents(s, b), c, y);
    EventsJoin(s, t, b, c);
  }

  lemma HeadEndsInNote(s: Parser, t: Trace, b: Block)
    requires b.Ok()
    ensures var u := t + HeadEvents(s, b); u != [] && u[|u| - 1].Note?
  {
    hide LinesEvents, IsOver, AfterBlock, IsSideLine, IsLengthLine, IsChunkedLine;
  }

  lemma EventsJoin(s: Parser, t: Trace, b: Block, c: Content)
    requires b.Ok() && (IsOver(AfterBlock(s, b)) <==> c.Nothing?)
    ensures t + HeadEvents(s, b) + c.Events() == t + MessageEvents(b, c)
  {
    hide LinesEvents, IsOver, AfterBlock, IsSideLine, IsLengthLine, IsChunkedLine, ChunkEvents;
    var l, n: Trace := LinesEvents(b.Lines()), [Note(HeadersComplete)];
    if c.Nothing? {
      assert t + (l + (n + [Note(MessageComplete)])) + [] == t + (l + n + [Note(MessageComplete)]);
    } else {
      assert t + (l + (n + [])) + c.Events() == t + (l + n + c.Events());
    }
  }
}
