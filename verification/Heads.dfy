/** Runs over the header block of a message that a peer writes, and over the end of its head. */
module Heads {
  import opened Bytes
  import opened Types
  import opened Table
  import opened Runs
  import opened HeaderText
  import opened Codings
  import opened HeaderLines
  import opened Connections

  lemma HttpShape(y: Text)
    ensures "HTTP/" + y == ['H'] + (['T'] + (['T'] + (['P'] + (['/'] + y))))
  {
  }

  function LinesText(ls: seq<HeaderLine>): Text {
    if ls == [] then [] else LineText(ls[0]) + LinesText(ls[1..])
  }

  function LinesEvents(ls: seq<HeaderLine>): Trace {
    if ls == [] then [] else LineEvents(ls[0]) + LinesEvents(ls[1..])
  }

  /** A line that does not say how the message ends: one that means nothing to the parser, or a Connection line. */
  predicate IsSideLine(l: HeaderLine) {
    IsPlain(l) || IsConnectionLine(l)
  }

  predicate AreSideLines(ls: seq<HeaderLine>) {
    forall i :: 0 <= i < |ls| ==> IsSideLine(ls[i])
  }

  /** The matcher after such a line, and what the line asks for. */
  function SideMatch(l: HeaderLine): Matcher
    requires l.name != []
  {
    if IsConnection(l.name) then ConnectionMatch(l) else PlainMatch(l)
  }

  function SideAsks(l: HeaderLine): Asks {
    if IsConnection(l.name) then AsksOf(Stripped(l.value)) else NO_ASKS
  }

  lemma LineStarts(l: HeaderLine, y: Text)
    requires IsLine(l)
    ensures StartsLine(LineText(l) + y)
  {
    hide Stripped, IsValueText;
    TokenIsFold(l.name[0]);
    assert (LineText(l) + y)[0] == l.name[0];
  }

  lemma LinesStart(ls: seq<HeaderLine>, y: Text)
    requires AreSideLines(ls) && StartsLine(y)
    ensures StartsLine(LinesText(ls) + y)
  {
    hide IsLine, StartsLine, LineText, NoCoding, IsName, IsConnection;
    if ls == [] {
      assert LinesText(ls) + y == y;
    } else {
      assert IsSideLine(ls[0]);
      LineStarts(ls[0], LinesText(ls[1..]) + y);
      assert LinesText(ls) + y == LineText(ls[0]) + (LinesText(ls[1..]) + y);
    }
  }

  /** The matcher after side lines. */
  function MatchAfter(m: Matcher, ls: seq<HeaderLine>): Matcher
    decreases |ls|
  {
    if ls == [] then m
    else MatchAfter(if ls[0].name == [] then m else SideMatch(ls[0]), ls[1..])
  }

  /** What side lines ask for. */
  function AsksAfter(ls: seq<HeaderLine>): Asks {
    if ls == [] then NO_ASKS else Joint(SideAsks(ls[0]), AsksAfter(ls[1..]))
  }

  /** Plain lines ask for nothing. */
  lemma {:induction false} AsksNothing(ls: seq<HeaderLine>)
    requires forall i :: 0 <= i < |ls| ==> IsPlain(ls[i])
    ensures AsksAfter(ls) == NO_ASKS
    decreases |ls|
  {
    hide IsLine, NoCoding, IsName, IsConnection, AsksOf;
    if ls != [] {
      assert IsPlain(ls[0]);
      AsksNothing(ls[1..]);
    }
  }

  function Asked(s: Parser, a: Asks): Parser {
    s.(framing := s.framing.(flags := With(s.framing.flags, a)))
  }

  function AfterLines(s: Parser, ls: seq<HeaderLine>): Parser {
    Asked(s.(matcher := MatchAfter(s.matcher, ls), nread := s.nread + |LinesText(ls)|), AsksAfter(ls))
  }

  /** The struct after a side line. */
  function AfterLine(s: Parser, l: HeaderLine): Parser
    requires l.name != []
  {
    Asked(s.(matcher := SideMatch(l), nread := s.nread + |LineText(l)|), SideAsks(l))
  }

  lemma SideName(l: HeaderLine)
    requires IsSideLine(l)
    ensures l.name != []
  {
    hide IsValueText, NoCoding, IsName, IsConnection;
  }

  lemma AskedNothing(s: Parser)
    ensures Asked(s, NO_ASKS) == s
  {
  }

  lemma SideLine(s: Parser, t: Trace, l: HeaderLine, y: Text)
    requires s.state.HeaderFieldStart? && IsSideLine(l) && StartsLine(y) && !EndsIn(t, Field)
    requires s.nread + |LineText(l)| < s.config.maxHeaderSize
    ensures l.name != [] && Run(s, t, LineText(l) + y) == Run(AfterLine(s, l), t + LineEvents(l), y)
  {
    SideName(l);
    hide *;
    if IsConnection(l.name) {
      SideIsConnection(l);
      ConnectionLine(s, t, l, y);
      AfterConnection(s, l);
    } else {
      SideIsPlain(l);
      PlainLine(s, t, l, y);
      AfterPlain(s, l);
    }
  }

  lemma SideIsConnection(l: HeaderLine)
    requires IsSideLine(l) && IsConnection(l.name)
    ensures IsConnectionLine(l)
  {
    hide IsLine, NoCoding, IsName, IsConnection;
  }

  lemma SideIsPlain(l: HeaderLine)
    requires IsSideLine(l) && !IsConnection(l.name)
    ensures IsPlain(l)
  {
    hide IsLine, NoCoding, IsName, IsConnection;
  }

  lemma AfterConnection(s: Parser, l: HeaderLine)
    requires l.name != [] && IsConnection(l.name)
    ensures AfterLine(s, l) == WithConnectionLine(s, l)
  {
    hide IsConnection, ConnectionMatch, LineText, AsksOf, Stripped, With;
  }

  lemma AfterPlain(s: Parser, l: HeaderLine)
    requires l.name != [] && !IsConnection(l.name)
    ensures AfterLine(s, l) == s.(matcher := PlainMatch(l), nread := s.nread + |LineText(l)|)
  {
    hide IsConnection, PlainMatch, LineText, Asked;
    AskedNothing(s.(matcher := PlainMatch(l), nread := s.nread + |LineText(l)|));
  }

  lemma AfterFirst(s: Parser, ls: seq<HeaderLine>)
    requires ls != [] && ls[0].name != []
    ensures AfterLines(AfterLine(s, ls[0]), ls[1..]) == AfterLines(s, ls)
    ensures var z := AfterLine(s, ls[0]); z.state == s.state && z.config == s.config && z.nread == s.nread + |LineText(ls[0])|
  {
    hide SideMatch, SideAsks, LineText, With, Joint;
    WithJoint(s.framing.flags, SideAsks(ls[0]), AsksAfter(ls[1..]));
  }

  lemma AfterNone(s: Parser)
    ensures AfterLines(s, []) == s
  {
    AskedNothing(s);
  }

  lemma {:induction false} SideLines(s: Parser, t: Trace, ls: seq<HeaderLine>, y: Text)
    requires s.state.HeaderFieldStart? && AreSideLines(ls) && StartsLine(y) && !EndsIn(t, Field)
    requires s.nread + |LinesText(ls)| < s.config.maxHeaderSize
    ensures Run(s, t, LinesText(ls) + y) == Run(AfterLines(s, ls), t + LinesEvents(ls), y)
    ensures !EndsIn(t + LinesEvents(ls), Field)
    decreases |ls|
  {
    hide Run, IsSideLine, StartsLine, LineText, EndsIn, LineEvents, AfterLines, AfterLine;
    if ls == [] {
      assert LinesText(ls) + y == y && t + LinesEvents(ls) == t;
      AfterNone(s);
    } else {
      var rest := LinesText(ls[1..]) + y;
      assert LinesText(ls) + y == LineText(ls[0]) + rest;
      LinesStart(ls[1..], y);
      SideLine(s, t, ls[0], rest);
      AfterFirst(s, ls);
      EventsEnd(t, ls[0]);
      SideLines(AfterLine(s, ls[0]), t + LineEvents(ls[0]), ls[1..], y);
      assert t + LineEvents(ls[0]) + LinesEvents(ls[1..]) == t + LinesEvents(ls);
    }
  }

  lemma EventsEnd(t: Trace, l: HeaderLine)
    ensures !EndsIn(t + LineEvents(l), Field)
  {
    hide Stripped;
  }

  /** A line that makes a message chunked. */
  predicate IsChunkedLine(l: HeaderLine) {
    IsLine(l) && IsName(l.name, TransferEncoding) && ListsChunked(Stripped(l.value))
  }

  lemma ChunkedLineIs(l: HeaderLine, lenient: bool)
    requires IsChunkedLine(l)
    ensures IsCodingLine(l, lenient) && l.name != [] && ListsChunked(Stripped(l.value))
  {
    hide IsName, ListsChunked, Stripped, IsHeaderChar;
  }

  /** The line that says how a message ends, if there is one. */
  datatype FramingLine = NoLine | ByLength(line: HeaderLine) | ByCoding(line: HeaderLine) {
    predicate Ok() {
      match this
      case NoLine => true
      case ByLength(l) => IsLengthLine(l)
      case ByCoding(l) => IsChunkedLine(l)
    }

    function Lines(): seq<HeaderLine> {
      if NoLine? then [] else [line]
    }

    function Framing(): Framing
      requires Ok()
    {
      match this
      case NoLine => Types.Framing(NO_FLAGS, false, U64_MAX)
      case ByLength(l) => Types.Framing(NO_FLAGS.(contentLength := true), false, Decimal(Stripped(l.value)))
      case ByCoding(l) => Types.Framing(NO_FLAGS.(chunked := true), true, U64_MAX)
    }
  }

  /** A header block with at most one framing line among side lines, and the line end of the blank line after it. */
  datatype Block = Block(before: seq<HeaderLine>, framing: FramingLine, after: seq<HeaderLine>, end: Eol) {
    predicate Ok() {
      AreSideLines(before) && framing.Ok() && AreSideLines(after)
    }

    function Lines(): seq<HeaderLine> {
      before + framing.Lines() + after
    }

    function Asks(): Asks {
      Joint(AsksAfter(before), AsksAfter(after))
    }

    function Framing(): Framing
      requires framing.Ok()
    {
      var f := framing.Framing(); f.(flags := With(f.flags, Asks()))
    }
  }

  lemma {:induction false} LinesConcat(a: seq<HeaderLine>, b: seq<HeaderLine>)
    ensures LinesText(a + b) == LinesText(a) + LinesText(b) && LinesEvents(a + b) == LinesEvents(a) + LinesEvents(b)
    decreases |a|
  {
    hide LineText, LineEvents;
    if a == [] {
      assert a + b == b;
    } else {
      assert (a + b)[1..] == a[1..] + b;
      LinesConcat(a[1..], b);
    }
  }

  lemma OneLine(l: HeaderLine)
    ensures LinesText([l]) == LineText(l) && LinesEvents([l]) == LineEvents(l)
  {
    hide LineText, LineEvents;
    assert [l][1..] == [];
  }

  /** The struct after a framing line. */
  function Framed(s: Parser, f: FramingLine): Parser
    requires f.Ok()
  {
    match f
    case NoLine => s
    case ByLength(l) => WithLengthLine(s, l)
    case ByCoding(l) => ChunkedLineIs(l, false); WithCodingLine(s, l)
  }

  lemma FramingRun(s: Parser, t: Trace, f: FramingLine, y: Text)
    requires s.state.HeaderFieldStart? && f.Ok() && StartsLine(y) && !EndsIn(t, Field) && !s.framing.flags.contentLength
    requires s.nread + |LinesText(f.Lines())| < s.config.maxHeaderSize
    ensures Run(s, t, LinesText(f.Lines()) + y) == Run(Framed(s, f), t + LinesEvents(f.Lines()), y)
    ensures !EndsIn(t + LinesEvents(f.Lines()), Field)
  {
    hide Run, StartsLine, LineText, EndsIn, LineEvents, IsLengthLine, IsChunkedLine, IsCodingLine, WithLengthLine, WithCodingLine;
    match f
    case NoLine =>
      assert LinesText([]) + y == y && t + LinesEvents([]) == t;
    case ByLength(l) =>
      OneLine(l);
      LengthLine(s, t, l, y);
      EventsEnd(t, l);
    case ByCoding(l) =>
      OneLine(l);
      ChunkedLineIs(l, s.config.lenient);
      CodingLine(s, t, l, y);
      EventsEnd(t, l);
  }

  lemma FramingStarts(f: FramingLine, y: Text)
    requires f.Ok() && StartsLine(y)
    ensures StartsLine(LinesText(f.Lines()) + y)
  {
    hide StartsLine, LineText, IsName, Decimal, ListsChunked, Stripped, IsLine;
    if f.NoLine? {
      assert LinesText([]) + y == y;
    } else {
      OneLine(f.line);
      LineStarts(f.line, y);
    }
  }

  /** The matcher after a framing line. */
  function FramedMatch(m: Matcher, f: FramingLine): Matcher {
    match f
    case NoLine => m
    case ByLength(_) => Matcher(LengthNum, 0)
    case ByCoding(l) => if l.name == [] then m else CodingMatch(l)
  }

  function BlockMatch(m: Matcher, b: Block): Matcher {
    MatchAfter(FramedMatch(MatchAfter(m, b.before), b.framing), b.after)
  }

  function AfterBlock(s: Parser, b: Block): Parser
    requires b.Ok()
  {
    s.(matcher := BlockMatch(s.matcher, b), framing := b.Framing(), nread := s.nread + |LinesText(b.Lines())|)
  }

  lemma BlockShape(b: Block, z: Text)
    ensures LinesText(b.Lines()) + z == LinesText(b.before) + (LinesText(b.framing.Lines()) + (LinesText(b.after) + z))
    ensures |LinesText(b.Lines())| == |LinesText(b.before)| + |LinesText(b.framing.Lines())| + |LinesText(b.after)|
    ensures LinesEvents(b.Lines()) == LinesEvents(b.before) + LinesEvents(b.framing.Lines()) + LinesEvents(b.after)
  {
    hide LinesText, LinesEvents;
    LinesConcat(b.before + b.framing.Lines(), b.after);
    LinesConcat(b.before, b.framing.Lines());
  }

  /** A framing line after lines that asked for `a`. */
  lemma FramedIs(s: Parser, f: FramingLine, a: Asks)
    requires f.Ok() && s.framing == Framing(With(NO_FLAGS, a), false, U64_MAX)
    ensures Framed(s, f)
         == s.(matcher := FramedMatch(s.matcher, f), nread := s.nread + |LinesText(f.Lines())|,
               framing := f.Framing().(flags := With(f.Framing().flags, a)))
  {
    hide LineText, LinesText, IsLengthLine, IsChunkedLine, Decimal, ListsChunked, Stripped, CodingMatch, With, Framed;
    match f
    case NoLine => FramedByNothing(s);
    case ByLength(l) => FramedByLength(s, l, a);
    case ByCoding(l) => FramedByCoding(s, l, a);
  }

  lemma FramedByNothing(s: Parser)
    ensures Framed(s, NoLine) == s && LinesText([]) == []
  {
  }

  lemma FramedByLength(s: Parser, l: HeaderLine, a: Asks)
    requires IsLengthLine(l) && s.framing == Framing(With(NO_FLAGS, a), false, U64_MAX)
    ensures Framed(s, ByLength(l))
         == s.(matcher := Matcher(LengthNum, 0), nread := s.nread + |LinesText([l])|,
               framing := Framing(With(NO_FLAGS.(contentLength := true), a), false, Decimal(Stripped(l.value))))
  {
    OneLine(l);
    WithLater(a);
    hide LineText, LinesText, IsName, Decimal, AllDigits, Stripped, IsLine, With;
  }

  lemma FramedByCoding(s: Parser, l: HeaderLine, a: Asks)
    requires IsChunkedLine(l) && s.framing == Framing(With(NO_FLAGS, a), false, U64_MAX)
    ensures l.name != []
    ensures Framed(s, ByCoding(l))
         == s.(matcher := CodingMatch(l), nread := s.nread + |LinesText([l])|,
               framing := Framing(With(NO_FLAGS.(chunked := true), a), true, U64_MAX))
  {
    OneLine(l);
    WithLater(a);
    ChunkedLineIs(l, false);
    hide LineText, LinesText, IsChunkedLine, ListsChunked, Stripped, CodingMatch, With;
  }

  lemma WithLater(a: Asks)
    ensures With(NO_FLAGS, a).(contentLength := true) == With(NO_FLAGS.(contentLength := true), a)
    ensures With(NO_FLAGS, a).(chunked := With(NO_FLAGS, a).chunked || true) == With(NO_FLAGS.(chunked := true), a)
  {
  }

  /** A header block leaves its events and its framing. */
  lemma BlockRun(s: Parser, t: Trace, b: Block, y: Text)
    requires s.state.HeaderFieldStart? && s.framing == Framing(NO_FLAGS, false, U64_MAX) && b.Ok()
    requires s.nread + |LinesText(b.Lines())| < s.config.maxHeaderSize && !EndsIn(t, Field) && StartsLine(y)
    ensures Run(s, t, LinesText(b.Lines()) + y) == Run(AfterBlock(s, b), t + LinesEvents(b.Lines()), y)
  {
    hide *;
    BlockShape(b, y);
    BlockParts(b);
    var y1 := LinesText(b.after) + y;
    LinesStart(b.after, y);
    FramingStarts(b.framing, y1);
    LinesKeep(s, b.before);
    SideLines(s, t, b.before, LinesText(b.framing.Lines()) + y1);
    var s1, t1 := AfterLines(s, b.before), t + LinesEvents(b.before);
    FramedBlock(s, b);
    FramingRun(s1, t1, b.framing, y1);
    SideLines(Framed(s1, b.framing), t1 + LinesEvents(b.framing.Lines()), b.after, y);
    EventsOfBlock(t, b);
  }

  lemma BlockParts(b: Block)
    requires b.Ok()
    ensures AreSideLines(b.before) && b.framing.Ok() && AreSideLines(b.after)
  {
    hide IsSideLine, IsLengthLine, IsChunkedLine;
  }

  lemma LinesKeep(s: Parser, ls: seq<HeaderLine>)
    ensures var z := AfterLines(s, ls);
            && z.state == s.state && z.config == s.config && z.nread == s.nread + |LinesText(ls)| && z.line == s.line
            && z.matcher == MatchAfter(s.matcher, ls) && z.framing == s.framing.(flags := With(s.framing.flags, AsksAfter(ls)))
            && z.upgrade == s.upgrade && z.framing.flags.trailing == s.framing.flags.trailing
  {
    hide LinesText, MatchAfter, AsksAfter;
  }

  /** The three parts of a block, one after the other. */
  lemma FramedBlock(s: Parser, b: Block)
    requires b.Ok() && s.framing == Framing(NO_FLAGS, false, U64_MAX)
    ensures var z := Framed(AfterLines(s, b.before), b.framing);
            && z.state == s.state && z.config == s.config
            && z.nread == s.nread + |LinesText(b.before)| + |LinesText(b.framing.Lines())|
            && AfterLines(z, b.after) == AfterBlock(s, b)
    ensures !AfterLines(s, b.before).framing.flags.contentLength
  {
    hide LinesText, IsSideLine, IsLengthLine, IsChunkedLine, Framed, FramedMatch, MatchAfter, AsksAfter, Joint;
    LinesKeep(s, b.before);
    var s1 := AfterLines(s, b.before);
    FramedIs(s1, b.framing, AsksAfter(b.before));
    LinesKeep(Framed(s1, b.framing), b.after);
    WithJoint(b.framing.Framing().flags, AsksAfter(b.before), AsksAfter(b.after));
    BlockShape(b, []);
  }

  lemma EventsOfBlock(t: Trace, b: Block)
    ensures t + LinesEvents(b.before) + LinesEvents(b.framing.Lines()) + LinesEvents(b.after) == t + LinesEvents(b.Lines())
  {
    BlockShape(b, []);
    hide LinesEvents;
  }

  // The blank line.

  lemma BlankFeed(s: Parser, t: Trace)
    requires s.state.HeaderFieldStart?
    ensures Byte(s, t, LF) == Byte(s.(state := HeadersAlmostDone), t, LF)
  {
    hide VisitHeadersAlmostDone;
  }

  lemma BlankReturn(s: Parser, t: Trace)
    requires s.state.HeaderFieldStart?
    ensures Byte(s, t, CR) == Point(s.(state := HeadersAlmostDone), t, Advance)
  {
  }

  /** Both kinds of blank line come to the same byte. */
  lemma BlankLine(s: Parser, t: Trace, e: Eol, y: Text)
    requires s.state.HeaderFieldStart? && s.nread + |e.Text()| <= s.config.maxHeaderSize
    ensures Run(s, t, e.Text() + y) == Resume(Byte(s.(state := HeadersAlmostDone, nread := s.nread + |e.Text()|), t, LF), [LF] + y)
  {
    hide Visit, Byte;
    if e.Feed? {
      BlankFeed(Counted(s), t);
      FeedFirst(s, t, y);
    } else {
      ReturnFirst(y);
      BlankReturn(Counted(s), t);
      RunByte(s, t, CR, [LF] + y);
      FeedFirst(s.(state := HeadersAlmostDone, nread := s.nread + 1), t, y);
    }
  }

  lemma FeedFirst(s: Parser, t: Trace, y: Text)
    requires ParsingHeader(s.state) && s.nread < s.config.maxHeaderSize
    ensures Run(s, t, [LF] + y) == Resume(Byte(s.(nread := s.nread + 1), t, LF), [LF] + y)
  {
    hide Visit, Byte;
    assert ([LF] + y)[0] == LF;
  }

  /** What a head without an upgrade, and with one framing at most, has to be for this module. */
  predicate IsSimple(s: Parser) {
    && !s.line.verb.CONNECT? && !s.framing.flags.upgrade && !s.framing.flags.skipBody
    && !s.framing.flags.trailing && !(s.framing.usesTransferEncoding && s.framing.flags.contentLength)
    && (s.framing.usesTransferEncoding ==> s.framing.flags.chunked)
  }

  lemma AlmostDoneVisit(s: Parser)
    requires IsSimple(s)
    ensures VisitHeadersAlmostDone(s, LF)
         == Act(s.(state := HeadersDone, upgrade := false), None, None, None, Some(HeadersComplete), Again)
  {
  }

  /** The message has no body. */
  predicate IsOver(s: Parser) {
    !s.framing.flags.chunked && (s.framing.contentLength == 0 || (s.framing.contentLength == U64_MAX && !NeedsEof(s)))
  }

  /** The state in which the body is read. */
  function BodyState(s: Parser): State {
    if IsOver(s) then NewMessage(s)
    else if s.framing.flags.chunked then InChunk(ChunkSizeStart)
    else if s.framing.contentLength == U64_MAX then BodyIdentityEof
    else BodyIdentity
  }

  lemma DoneVisit(s: Parser)
    requires IsSimple(s) && !s.upgrade
    ensures VisitHeadersDone(s, LF)
         == Act(s.(state := BodyState(s), nread := 0), None, None, None, if IsOver(s) then Some(MessageComplete) else None, Advance)
  {
    hide NewMessage, NeedsEof;
  }

  lemma DoneByte(s: Parser, t: Trace)
    requires s.state.HeadersDone? && IsSimple(s) && !s.upgrade
    ensures Byte(s, t, LF)
         == Point(s.(state := BodyState(s), nread := 0), if IsOver(s) then t + [Note(MessageComplete)] else t, Advance)
  {
    DoneVisit(s);
    hide VisitHeadersDone, BodyState, IsOver, IsSimple;
  }

  lemma HeadByte(s: Parser, t: Trace)
    requires s.state.HeadersAlmostDone? && IsSimple(s)
    ensures var z := s.(upgrade := false);
            var t' := t + [Note(HeadersComplete)];
            Byte(s, t, LF)
              == Point(z.(state := BodyState(z), nread := 0), if IsOver(z) then t' + [Note(MessageComplete)] else t', Advance)
  {
    AlmostDoneVisit(s);
    hide VisitHeadersDone, VisitHeadersAlmostDone, Byte, NewMessage, NeedsEof;
    var z := s.(state := HeadersDone, upgrade := false);
    NoticeThenAgain(s, t, LF, z, HeadersComplete);
    DoneByte(z, t + [Note(HeadersComplete)]);
    SameBodyState(s.(upgrade := false), z);
  }

  lemma SameBodyState(s: Parser, z: Parser)
    requires s.line == z.line && s.framing == z.framing
    ensures BodyState(s) == BodyState(z) && IsOver(s) == IsOver(z)
  {
  }

  function EndEvents(s: Parser): Trace {
    [Note(HeadersComplete)] + if IsOver(s) then [Note(MessageComplete)] else []
  }

  /** The struct after the blank line. */
  function Opened(s: Parser): Parser {
    s.(state := BodyState(s), nread := 0, upgrade := false)
  }

  lemma EndRun(s: Parser, t: Trace, e: Eol, y: Text)
    requires s.state.HeaderFieldStart? && IsSimple(s) && s.nread + |e.Text()| <= s.config.maxHeaderSize
    ensures Run(s, t, e.Text() + y) == Run(Opened(s), t + EndEvents(s), y)
  {
    hide IsSimple, BodyState, IsOver, Run, Byte, Visit;
    BlankLine(s, t, e, y);
    var s1 := s.(state := HeadersAlmostDone, nread := s.nread + |e.Text()|);
    SameSimple(s, s1);
    HeadByte(s1, t);
    SameBodyState(s, s1.(upgrade := false));
    AdvanceFeed(Byte(s1, t, LF), y);
    var n: Trace, m: Trace := [Note(HeadersComplete)], [Note(MessageComplete)];
    assert t + n + m == t + (n + m) && n + [] == n;
  }

  /** The struct after a head. */
  function Headed(s: Parser, b: Block): Parser
    requires b.Ok()
  {
    Opened(AfterBlock(s, b))
  }

  function HeadEvents(s: Parser, b: Block): Trace
    requires b.Ok()
  {
    LinesEvents(b.Lines()) + EndEvents(AfterBlock(s, b))
  }

  lemma SimpleBlock(s: Parser, b: Block)
    requires b.Ok() && !s.line.verb.CONNECT?
    ensures IsSimple(AfterBlock(s, b))
  {
    hide LinesText, IsLengthLine, IsChunkedLine, IsSideLine, BlockMatch, AsksAfter, ListsChunked, Decimal, Stripped;
  }

  /** A header block and its blank line: the lines are reported, the head is complete, and the body is read as the
      framing line says. */
  lemma HeadRun(s: Parser, t: Trace, b: Block, y: Text)
    requires s.state.HeaderFieldStart? && s.framing == Framing(NO_FLAGS, false, U64_MAX) && !s.line.verb.CONNECT? && b.Ok()
    requires s.nread + |LinesText(b.Lines())| + |b.end.Text()| <= s.config.maxHeaderSize && !EndsIn(t, Field)
    ensures Run(s, t, LinesText(b.Lines()) + (b.end.Text() + y)) == Run(Headed(s, b), t + HeadEvents(s, b), y)
  {
    hide LinesText, LinesEvents, StartsLine, EndsIn, IsSideLine, IsLengthLine, IsChunkedLine, IsSimple, Opened, EndEvents, Run, BlockMatch;
    SimpleBlock(s, b);
    EndStarts(b.end, y);
    BlockRun(s, t, b, b.end.Text() + y);
    var t1 := t + LinesEvents(b.Lines());
    EndRun(AfterBlock(s, b), t1, b.end, y);
    assert t1 + EndEvents(AfterBlock(s, b)) == t + HeadEvents(s, b);
  }

  lemma AdvanceFeed(p: Point, y: Text)
    requires p.next.Advance?
    ensures Resume(p, [LF] + y) == Run(p.s, p.t, y)
  {
    hide Run;
    assert ([LF] + y)[1..] == y;
  }

  lemma SameSimple(s: Parser, z: Parser)
    requires IsSimple(s) && s.line == z.line && s.framing == z.framing
    ensures IsSimple(z)
  {
  }

  lemma EndStarts(e: Eol, y: Text)
    ensures StartsLine(e.Text() + y)
  {
  }
}
