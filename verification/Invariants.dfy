/** What every run keeps in the struct: no C assert fires, no matcher is read out of
    bounds, no counter wraps, and message framing is exclusive. */
module Invariants {
  import opened Bytes
  import opened Types
  import opened UrlChars
  import opened HeaderWords
  import opened Table
  import opened Runs

  /** The header states of s_header_field and of the blanks before a value. */
  predicate NameHeader(h: HeaderState) {
    h.General? || h.C? || h.CO? || h.CON? || h.Matching? || h.Matched?
  }

  predicate LengthHeader(h: HeaderState) {
    h.LengthNum? || h.LengthWs?
  }

  predicate CodingHeader(h: HeaderState) {
    h.CodingStart? || h.CodingMatching? || h.CodingToken? || h.CodingChunked?
  }

  predicate OptionHeader(h: HeaderState) {
    h.OptionStart? || h.OptionMatching? || h.OptionToken? || h.OptionMatched?
  }

  /** The header states of s_header_value and of the line end after it. */
  predicate ValueHeader(h: HeaderState) {
    h.General? || LengthHeader(h) || CodingHeader(h) || OptionHeader(h)
  }

  /** A bound on the 5-bit `index` that each matcher state keeps. */
  function IndexBound(h: HeaderState): nat {
    match h
    case C => 0
    case CO => 1
    case CON => 2
    case CodingStart => 0
    case OptionStart => 0
    case Matching(n) => |NameText(n)| - 2
    case CodingMatching => |CHUNKED| - 2
    case OptionMatching(o) => |OptionText(o)| - 2
    case _ => 20
  }

  /** Section 3.3.3 of RFC 7230: a length and a transfer coding together are refused,
      unless the embedder chose otherwise. */
  predicate FramingDecided(f: Framing, config: Config) {
    f.usesTransferEncoding && f.flags.contentLength ==>
      if f.flags.chunked then config.allowChunkedLength else config.lenient
  }

  /** What a start state set and no line has changed yet. */
  predicate IsFresh(f: Framing) {
    f == Framing(NO_FLAGS, false, U64_MAX)
  }

  /** The length field while a head is read: all ones until a Content-Length was seen;
      in trailers it is left from the last chunk or set by a trailer. */
  predicate LengthMatchesFlag(f: Framing) {
    if f.flags.trailing then f.contentLength < U64_MAX
    else f.flags.contentLength <==> f.contentLength < U64_MAX
  }

  predicate HeaderOk(m: Matcher, f: Framing) {
    && m.index <= IndexBound(m.header)
    && (LengthHeader(m.header) ==> f.flags.contentLength)
    && (CodingHeader(m.header) || m.header == Matched(TransferEncoding) ==> f.usesTransferEncoding)
  }

  predicate ChunkOk(f: Framing, c: ChunkState) {
    && f.flags.chunked && !f.flags.trailing
    && (!c.ChunkSizeStart? ==> f.contentLength < U64_MAX)
    && (c.ChunkData? ==> 0 < f.contentLength)
    && (c.ChunkDataAlmostDone? ==> f.contentLength == 0)
  }

  predicate BodyOk(f: Framing) {
    0 < f.contentLength < U64_MAX && f.flags.contentLength && !f.flags.chunked && !f.usesTransferEncoding
  }

  predicate FlagsOk(f: Framing) {
    && f.contentLength <= U64_MAX
    && (f.flags.chunked ==> f.usesTransferEncoding)
    && (f.flags.trailing ==> f.flags.chunked)
    && !f.flags.skipBody
  }

  /** The invariant of a matcher and a framing inside a value. */
  predicate HeadOk(m: Matcher, f: Framing) {
    FlagsOk(f) && LengthMatchesFlag(f) && HeaderOk(m, f) && ValueHeader(m.header) && m.index <= 20
  }

  /** The invariant of each main state. */
  predicate StateOk(s: Parser) {
    match s.state
    case Idle(_) => true
    case ReqMethod => IsFresh(s.framing) && 1 <= s.matcher.index <= |MethodText(s.line.verb)|
    case ResOrRespH => IsFresh(s.framing)
    case InStatusLine(_) => IsFresh(s.framing)
    case InUrl(_) => IsFresh(s.framing)
    case InVersion(_) => IsFresh(s.framing)
    case InName(_) => LengthMatchesFlag(s.framing) && NameHeader(s.matcher.header) && HeaderOk(s.matcher, s.framing)
    case InValue(_) => HeadOk(s.matcher, s.framing)
    case HeadersDone =>
      LengthMatchesFlag(s.framing) && FramingDecided(s.framing, s.config) && !s.framing.flags.trailing
    case InChunk(c) => ChunkOk(s.framing, c) && FramingDecided(s.framing, s.config)
    case BodyIdentity => BodyOk(s.framing)
    case BodyIdentityEof => !s.framing.flags.chunked && (s.line.kind.Request? ==> s.config.lenient)
    case MessageDone => true
    case _ => LengthMatchesFlag(s.framing)
  }

  predicate Core(s: Parser) {
    && s.nread <= s.config.maxHeaderSize
    && s.line.statusCode <= 999
    && s.matcher.index <= 20
    && FlagsOk(s.framing)
    && StateOk(s)
  }

  /** The invariant between bytes. */
  predicate Good(s: Parser) {
    Core(s) && (s.state == InChunk(ChunkSizeStart) ==> s.nread == 0)
  }

  /** The invariant between the visits of one byte, after it was counted. */
  predicate Mid(s: Parser) {
    Core(s) && (s.state == InChunk(ChunkSizeStart) ==> s.nread == 1)
  }

  predicate Keeps(a: Act) {
    && !a.next.Crash?
    && (a.next.Again? ==> Mid(a.s))
    && (a.next.Advance? || a.next.Exit? ==> Good(a.s))
  }

  lemma IdleKeeps(s: Parser, ch: char)
    requires Mid(s)
    ensures s.state.Idle? ==> Keeps(VisitIdle(s, s.state.idle, ch))
    ensures s.state.ResOrRespH? ==> Keeps(VisitResOrRespH(s, ch))
  {
    hide Types.MethodText;
  }

  lemma StatusLineKeeps(s: Parser, ch: char)
    requires Mid(s) && s.state.InStatusLine?
    ensures Keeps(VisitStatusLine(s, s.state.res, ch))
  {
    hide FlagsOk;
  }

  lemma VersionKeeps(s: Parser, ch: char)
    requires Mid(s) && s.state.InVersion?
    ensures Keeps(VisitVersion(s, s.state.req, ch))
  {
    hide FlagsOk;
  }

  lemma UrlKeeps(s: Parser, ch: char)
    requires Mid(s) && s.state.InUrl?
    ensures Keeps(VisitUrl(s, s.state.url, ch))
  {
    hide FlagsOk, UrlChars.ParseUrlChar;
  }

  lemma OtherVerbFits(m: Method, index: nat, ch: char)
    requires OtherVerb(m, index, ch).Some?
    ensures index + 1 <= |MethodText(OtherVerb(m, index, ch).value)|
  {
    match OtherVerb(m, index, ch).value
    case PROPPATCH =>
    case PROPFIND =>
    case _ =>
  }

  lemma MethodKeeps(s: Parser, ch: char)
    requires Mid(s) && s.state.ReqMethod?
    ensures Keeps(VisitMethod(s, ch))
  {
    hide Types.MethodText;
    if OtherVerb(s.line.verb, s.matcher.index, ch).Some? { OtherVerbFits(s.line.verb, s.matcher.index, ch); }
  }

  lemma ValueStartKeeps(h: HeaderState, f: Framing, ch: char)
    requires FlagsOk(f) && LengthMatchesFlag(f) && HeaderOk(Matcher(h, 0), f)
    ensures var r := ValueStart(h, f, ch); r.Head? ==> HeadOk(r.m, r.f)
    ensures !ValueStart(h, f, ch).Asserted?
  {
  }

  lemma NameByteKeeps(m: Matcher, c: char)
    requires NameHeader(m.header) && m.index <= IndexBound(m.header) && c != NUL
    ensures NameByte(m, c).Some?
    ensures var m' := NameByte(m, c).value;
            NameHeader(m'.header) && m'.index <= IndexBound(m'.header) && m'.index <= 20
  {
  }

  lemma FieldKeeps(s: Parser, ch: char)
    requires Mid(s) && s.state == InName(HeaderField)
    ensures Keeps(VisitField(s, ch))
  {
    hide Types.MethodText, Bytes.Token, HeaderWords.NameByte, IndexBound;
    if Token(ch) != NUL { NameByteKeeps(s.matcher, Token(ch)); }
  }

  lemma FieldStartKeeps(s: Parser, ch: char)
    requires Mid(s) && s.state.HeaderFieldStart?
    ensures Keeps(VisitFieldStart(s, ch))
  {
    hide Types.MethodText, FlagsOk, LengthMatchesFlag, Bytes.Token;
  }

  /** No flag is set by a line whose value is empty. */
  lemma EmptyValueFlags(h: HeaderState, f: Framing)
    requires NameHeader(h)
    ensures f.(flags := LineFlags(h, f.flags)) == f
  {
  }

  lemma NameKeeps(s: Parser, ch: char)
    requires Mid(s) && s.state.InName?
    ensures Keeps(VisitName(s, s.state.name, ch))
  {
    hide Types.MethodText, Table.ValueStart, Table.VisitField, Table.LineFlags, FlagsOk, LengthMatchesFlag, IndexBound;
    ValueStartKeeps(s.matcher.header, s.framing, ch);
    EmptyValueFlags(s.matcher.header, s.framing);
    if s.state == InName(HeaderField) { FieldKeeps(s, ch); }
  }

  lemma TokenByteKeeps(m: Matcher, ch: char)
    requires m.index <= IndexBound(m.header) && (CodingHeader(m.header) || OptionHeader(m.header))
    ensures var m' := TokenByte(m, ch);
            && m'.index <= IndexBound(m'.header) && m'.index <= 20
            && (m'.header.General? || (CodingHeader(m'.header) && CodingHeader(m.header))
                || (OptionHeader(m'.header) && OptionHeader(m.header)))
  {
    hide Bytes.Token;
  }

  lemma LengthByteKeeps(m: Matcher, f: Framing, ch: char)
    requires HeadOk(m, f) && LengthHeader(m.header)
    ensures var r := ValueByte(m, f, ch); !r.Asserted? && (r.Head? ==> HeadOk(r.m, r.f))
  {
    hide HeaderWords.TokenByte, LineFlags;
    match m.header
    case LengthNum => {}
    case LengthWs => {}
  }

  /** A finished option sets a flag that the invariant does not look at. */
  lemma OptionFlagKeeps(m: Matcher, f: Framing)
    requires FlagsOk(f) && LengthMatchesFlag(f) && m.header.OptionMatched?
    ensures var z := f.(flags := LineFlags(m.header, f.flags));
            && FlagsOk(z) && LengthMatchesFlag(z) && z.usesTransferEncoding == f.usesTransferEncoding
            && z.flags.contentLength == f.flags.contentLength
  {
    match m.header.option
    case KeepAliveOption => {}
    case CloseOption => {}
    case UpgradeOption => {}
  }

  lemma ListByteKeeps(m: Matcher, f: Framing, ch: char)
    requires HeadOk(m, f) && (CodingHeader(m.header) || OptionHeader(m.header))
    ensures var r := ValueByte(m, f, ch); !r.Asserted? && (r.Head? ==> HeadOk(r.m, r.f))
  {
    TokenByteKeeps(m, ch);
    if m.header.OptionMatched? { OptionFlagKeeps(m, f); }
    hide HeaderWords.TokenByte, LengthByte, LineFlags, FlagsOk, LengthMatchesFlag, IndexBound;
  }

  lemma ValueByteKeeps(m: Matcher, f: Framing, ch: char)
    requires HeadOk(m, f)
    ensures var r := ValueByte(m, f, ch); !r.Asserted? && (r.Head? ==> HeadOk(r.m, r.f))
  {
    if LengthHeader(m.header) {
      LengthByteKeeps(m, f, ch);
    } else if CodingHeader(m.header) || OptionHeader(m.header) {
      ListByteKeeps(m, f, ch);
    } else {
      hide HeaderWords.TokenByte, LengthByte, LineFlags, FlagsOk, LengthMatchesFlag, IndexBound;
      assert m.header.General?;
    }
  }

  lemma ContinuedValueKeeps(m: Matcher, f: Framing, ch: char)
    requires HeadOk(m, f)
    ensures var r := ValueStart(m.header, f, ch); !r.Asserted? && (r.Head? ==> HeadOk(r.m, r.f))
  {
    ValueStartKeeps(m.header, f, ch);
  }

  lemma EndLineKeeps(m: Matcher, f: Framing)
    requires HeadOk(m, f)
    ensures var f' := f.(flags := LineFlags(m.header, f.flags)); FlagsOk(f') && LengthMatchesFlag(f')
    ensures m.header.LengthNum? ==> HeadOk(m.(header := LengthWs), f)
  {
  }

  lemma ValueKeeps(s: Parser, ch: char)
    requires Mid(s) && s.state.InValue?
    ensures Keeps(VisitValue(s, s.state.value, ch))
  {
    hide Types.MethodText, Table.ValueStart, Table.ValueByte, Table.LineFlags, FlagsOk, LengthMatchesFlag, HeaderOk, ValueHeader;
    ContinuedValueKeeps(s.matcher, s.framing, ch);
    ValueByteKeeps(s.matcher, s.framing, ch);
    EndLineKeeps(s.matcher, s.framing);
    match s.state.value
    case HeaderValueStart => {}
    case HeaderValue => {}
    case HeaderAlmostDone => {}
    case HeaderValueLws => {}
  }

  lemma HeadersDoneKeeps(s: Parser, ch: char)
    requires Mid(s)
    ensures s.state.HeadersAlmostDone? ==> Keeps(VisitHeadersAlmostDone(s, ch))
    ensures s.state.HeadersDone? ==> Keeps(VisitHeadersDone(s, ch))
  {
    hide Types.MethodText, Table.NewMessage;
  }

  lemma BodyKeeps(s: Parser, ch: char)
    requires Mid(s)
    ensures s.state.MessageDone? ==> Keeps(VisitMessageDone(s))
    ensures s.state.BodyIdentity? ==> Keeps(VisitBody(s))
    ensures s.state.BodyIdentityEof? ==> Keeps(Begin(s, Body))
  {
    hide Types.MethodText, Table.NewMessage;
  }

  lemma ChunkSizeKeeps(s: Parser, ch: char)
    requires Mid(s) && s.state.InChunk? && ParsingHeader(s.state)
    ensures Keeps(VisitChunk(s, s.state.chunk, ch))
  {
    hide Types.MethodText, HeaderOk, BodyOk;
  }

  lemma ChunkDataKeeps(s: Parser, ch: char)
    requires Mid(s) && s.state.InChunk? && !ParsingHeader(s.state)
    ensures Keeps(VisitChunk(s, s.state.chunk, ch))
  {
    hide Types.MethodText, HeaderOk, BodyOk;
  }

  /** No visit crashes, and every visit keeps the invariant. */
  lemma VisitKeeps(s: Parser, ch: char)
    requires Mid(s)
    ensures Keeps(Visit(s, ch))
  {
    hide Keeps, Mid;
    match s.state
    case Idle(_) => IdleKeeps(s, ch);
    case ResOrRespH => IdleKeeps(s, ch);
    case InStatusLine(_) => StatusLineKeeps(s, ch);
    case ReqMethod => MethodKeeps(s, ch);
    case InUrl(_) => UrlKeeps(s, ch);
    case InVersion(_) => VersionKeeps(s, ch);
    case HeaderFieldStart => FieldStartKeeps(s, ch);
    case InName(_) => NameKeeps(s, ch);
    case InValue(_) => ValueKeeps(s, ch);
    case HeadersAlmostDone => HeadersDoneKeeps(s, ch);
    case HeadersDone => HeadersDoneKeeps(s, ch);
    case InChunk(_) => if ParsingHeader(s.state) { ChunkSizeKeeps(s, ch); } else { ChunkDataKeeps(s, ch); }
    case BodyIdentity => BodyKeeps(s, ch);
    case BodyIdentityEof => BodyKeeps(s, ch);
    case MessageDone => BodyKeeps(s, ch);
  }

  lemma {:induction false} ByteKeeps(s: Parser, t: Trace, ch: char)
    requires Mid(s)
    ensures var r := Byte(s, t, ch); !r.next.Crash? && (r.next.Advance? || r.next.Exit? ==> Good(r.s))
    decreases Rank(s.state)
  {
    hide Table.Visit, Good, Mid;
    VisitKeeps(s, ch);
    var a := Visit(s, ch);
    if a.next.Again? { ByteKeeps(a.s, Report(t, a, ch), ch); }
  }

  lemma CountedGood(s: Parser)
    requires Good(s) && !Overflows(s)
    ensures Mid(Counted(s))
  {
    hide Types.MethodText, LengthMatchesFlag, FlagsOk, HeadOk, HeaderOk, ChunkOk, BodyOk;
  }

  lemma InitGood(kind: Kind, config: Config)
    ensures Good(Init(kind, config))
  {
  }

  /** No assert fires on any run, and a run that ends without error leaves a good struct. */
  lemma {:induction false} RunKeeps(s: Parser, t: Trace, data: Text)
    requires Good(s)
    ensures var r := Run(s, t, data); !r.why.Crash? && (r.why.Advance? || r.why.Exit? ==> Good(r.s))
    decreases |data|
  {
    hide Table.Visit, Good, Mid;
    if data != [] && !Overflows(s) {
      CountedGood(s);
      ByteKeeps(Counted(s), t, data[0]);
      var p := Byte(Counted(s), t, data[0]);
      if p.next.Advance? { RunKeeps(p.s, p.t, data[1..]); }
    }
  }
}
