/** The order of callbacks: every trace is a prefix of well-formed messages. */
module Grammar {
  import opened Bytes
  import opened Types
  import opened UrlChars
  import opened HeaderWords
  import opened Table
  import opened Runs
  import opened Invariants
  import opened Shape

  /** How far a trace has come in the message it is in. */
  datatype Phase =
    | Between | Begun | UrlText | StatusText | FieldText | ValueText | HeadDone | PlainBody
    | ChunkStarted | ChunkText | ChunkEnded | TrailerField | TrailerValue | LastChunk

  /** The grammar, independent of the parser: a message is begin, url or status, (field value)*,
      headers complete, then a plain body or chunks, and message complete; a chunk is its header,
      data and completion, and the last one has trailers (field value)* instead of data. */
  function Next(p: Phase, e: Event): Option<Phase> {
    match e
    case Data(k, _) => NextData(p, k)
    case Note(n) => NextNote(p, n)
  }

  function NextData(p: Phase, k: Part): Option<Phase> {
    match k
    case Url => if p.Begun? || p.UrlText? then Some(UrlText) else None
    case Status => if p.Begun? || p.StatusText? then Some(StatusText) else None
    case Field =>
      if p.UrlText? || p.StatusText? || p.FieldText? || p.ValueText? then Some(FieldText)
      else if p.ChunkStarted? || p.TrailerField? || p.TrailerValue? then Some(TrailerField)
      else None
    case Value =>
      if p.FieldText? || p.ValueText? then Some(ValueText)
      else if p.TrailerField? || p.TrailerValue? then Some(TrailerValue)
      else None
    case Body =>
      if p.HeadDone? || p.PlainBody? then Some(PlainBody)
      else if p.ChunkStarted? || p.ChunkText? then Some(ChunkText)
      else None
  }

  function NextNote(p: Phase, n: Notice): Option<Phase> {
    match n
    case MessageBegin => if p.Between? then Some(Begun) else None
    case HeadersComplete => if p.UrlText? || p.StatusText? || p.ValueText? then Some(HeadDone) else None
    case ChunkHeader => if p.HeadDone? || p.ChunkEnded? then Some(ChunkStarted) else None
    case ChunkComplete =>
      if p.ChunkText? then Some(ChunkEnded)
      else if p.ChunkStarted? || p.TrailerValue? then Some(LastChunk)
      else None
    case MessageComplete => if p.HeadDone? || p.PlainBody? || p.LastChunk? then Some(Between) else None
  }

  function Then(p: Option<Phase>, e: Event): Option<Phase> {
    if p.Some? then Next(p.value, e) else None
  }

  /** The phase after a trace; None when it breaks the grammar. */
  function Phases(t: Trace): Option<Phase> {
    if t == [] then Some(Between) else Then(Phases(t[..|t| - 1]), t[|t| - 1])
  }

  /** Joining pieces does not change the phase. */
  lemma PhasesAdd(t: Trace, e: Event)
    ensures Phases(Add(t, e)) == Then(Phases(t), e)
  {
    var u := Add(t, e);
    if |u| == |t| {
      assert u[..|u| - 1] == t[..|t| - 1];
      var p := Phases(t[..|t| - 1]);
      if p.Some? { NextTwice(p.value, t[|t| - 1], e, u[|u| - 1]); }
    } else {
      assert u[..|u| - 1] == t;
    }
  }

  lemma NextTwice(p: Phase, a: Event, b: Event, c: Event)
    requires a.Data? && b.Data? && c.Data? && a.part == b.part == c.part
    ensures Then(Next(p, a), b) == Next(p, c)
  {
  }

  /** The phases after a visit. */
  function PhasesAfter(p: Phase, a: Act): Option<Phase> {
    var p1 := if a.take.Some? then Next(p, Data(a.take.value, [])) else Some(p);
    var p2 := if a.close.Some? && !a.close.value.Body? then Then(p1, Data(a.close.value, [])) else p1;
    if a.notice.Some? then Then(p2, Note(a.notice.value)) else p2
  }

  lemma PhasesReport(t: Trace, a: Act, ch: char)
    requires Phases(t).Some?
    ensures Phases(Report(t, a, ch)) == PhasesAfter(Phases(t).value, a)
  {
    hide Runs.Add, Phases;
    var t1 := if a.take.Some? then Add(t, Data(a.take.value, [ch])) else t;
    if a.take.Some? {
      PhasesAdd(t, Data(a.take.value, [ch]));
      NextSameKind(Phases(t).value, a.take.value, [ch]);
    }
    var t2 := if a.close.Some? && !a.close.value.Body? then Add(t1, Data(a.close.value, [])) else t1;
    if a.close.Some? && !a.close.value.Body? { PhasesAdd(t1, Data(a.close.value, [])); }
    if a.notice.Some? { PhasesAdd(t2, Note(a.notice.value)); }
  }

  lemma NextSameKind(p: Phase, k: Part, x: Text)
    ensures Next(p, Data(k, x)) == Next(p, Data(k, []))
  {
  }

  /** The phases a trace may be in when the parser is in a state. */
  predicate PhaseFits(s: Parser, p: Phase) {
    var trailing := s.framing.flags.trailing;
    match s.state
    case Idle(_) => p.Between?
    case ResOrRespH => p.Begun?
    case ReqMethod => p.Begun?
    case InStatusLine(r) =>
      if r.ResStatus? then p.Begun? || p.StatusText? else if r.ResLineAlmostDone? then p.StatusText? else p.Begun?
    case InUrl(u) => if u.ReqSpacesBeforeUrl? then p.Begun? else p.UrlText?
    case InVersion(_) => p.UrlText?
    case HeaderFieldStart => LineMayEnd(p, trailing)
    case InName(_) => if trailing then p.TrailerField? else p.FieldText?
    case InValue(_) => if trailing then p.TrailerValue? else p.ValueText?
    case HeadersAlmostDone => LineMayEnd(p, trailing)
    case HeadersDone => p.HeadDone?
    case InChunk(c) =>
      if c.ChunkData? then p.ChunkStarted? || p.ChunkText?
      else if c.ChunkDataAlmostDone? || c.ChunkDataDone? then p.ChunkText?
      else p.HeadDone? || p.ChunkEnded?
    case BodyIdentity => p.HeadDone? || p.PlainBody?
    case BodyIdentityEof => p.HeadDone? || p.PlainBody?
    case MessageDone => p.PlainBody? || p.LastChunk?
  }

  predicate LineMayEnd(p: Phase, trailing: bool) {
    if trailing then p.ChunkStarted? || p.TrailerValue? else p.UrlText? || p.StatusText? || p.ValueText?
  }

  predicate Advances(p: Phase, a: Act) {
    PhasesAfter(p, a).Some? && PhaseFits(a.s, PhasesAfter(p, a).value)
  }

  lemma IdlePhase(s: Parser, p: Phase, ch: char)
    requires Mid(s) && PhaseFits(s, p)
    ensures s.state.Idle? ==> var a := VisitIdle(s, s.state.idle, ch); Goes(a) ==> Advances(p, a)
    ensures s.state.ResOrRespH? ==> var a := VisitResOrRespH(s, ch); Goes(a) ==> Advances(p, a)
  {
    hide Types.MethodText, FlagsOk;
  }

  lemma RequestLinePhase(s: Parser, p: Phase, ch: char)
    requires Mid(s) && PhaseFits(s, p)
    ensures s.state.ReqMethod? ==> var a := VisitMethod(s, ch); Goes(a) ==> Advances(p, a)
    ensures s.state.InUrl? ==> var a := VisitUrl(s, s.state.url, ch); Goes(a) ==> Advances(p, a)
  {
    hide Types.MethodText, UrlChars.ParseUrlChar, FlagsOk;
  }

  lemma StatusLinePhase(s: Parser, p: Phase, ch: char)
    requires Mid(s) && PhaseFits(s, p) && s.state.InStatusLine?
    ensures var a := VisitStatusLine(s, s.state.res, ch); Goes(a) ==> Advances(p, a)
  {
    hide FlagsOk;
    match s.state.res
    case ResStatusStart => {}
    case ResStatus => {}
    case ResStatusCode => {}
    case ResFirstStatusCode => {}
    case _ => {}
  }

  lemma VersionPhase(s: Parser, p: Phase, ch: char)
    requires Mid(s) && PhaseFits(s, p) && s.state.InVersion?
    ensures var a := VisitVersion(s, s.state.req, ch); Goes(a) ==> Advances(p, a)
  {
    assert !s.framing.flags.trailing;
    hide Mid, IsNum, Digit;
  }

  /** Value bytes neither turn headers into trailers nor make a message chunked. */
  lemma ValueStartFlags(h: HeaderState, f: Framing, ch: char)
    ensures var r := ValueStart(h, f, ch);
            r.Head? ==> r.f.flags.trailing == f.flags.trailing && r.f.flags.chunked == f.flags.chunked
  {
    match h
    case Matched(n) => match n { case Upgrade => case ContentLength => case _ => }
    case _ =>
  }

  lemma ValueByteFlags(m: Matcher, f: Framing, ch: char)
    ensures var r := ValueByte(m, f, ch);
            r.Head? ==> r.f.flags.trailing == f.flags.trailing && r.f.flags.chunked == f.flags.chunked
  {
    hide HeaderWords.TokenByte;
    match m.header
    case OptionMatched(o) => match o { case KeepAliveOption => case CloseOption => case UpgradeOption => }
    case LengthNum =>
    case Matched(_) =>
    case _ =>
  }

  lemma LineTrailing(m: Matcher, f: Framing)
    ensures LineFlags(m.header, f.flags).trailing == f.flags.trailing
  {
    match m.header
    case OptionMatched(o) => match o { case KeepAliveOption => case CloseOption => case UpgradeOption => }
    case CodingChunked =>
    case _ =>
  }

  lemma FieldStartPhase(s: Parser, p: Phase, ch: char)
    requires PhaseFits(s, p) && s.state.HeaderFieldStart?
    ensures var a := VisitFieldStart(s, ch); Goes(a) ==> Advances(p, a)
  {
    hide Bytes.Token;
  }

  lemma NamePhase(s: Parser, p: Phase, ch: char)
    requires PhaseFits(s, p) && s.state.InName?
    ensures var a := VisitName(s, s.state.name, ch); Goes(a) ==> Advances(p, a)
  {
    hide Table.ValueStart, Table.LineFlags, HeaderWords.NameByte, Bytes.Token;
    ValueStartFlags(s.matcher.header, s.framing, ch);
    LineTrailing(s.matcher, s.framing);
  }

  lemma ValuePhase(s: Parser, p: Phase, ch: char)
    requires PhaseFits(s, p) && s.state.InValue?
    ensures var a := VisitValue(s, s.state.value, ch); Goes(a) ==> Advances(p, a)
  {
    hide Table.ValueStart, Table.ValueByte, Table.LineFlags;
    ValueStartFlags(s.matcher.header, s.framing, ch);
    ValueByteFlags(s.matcher, s.framing, ch);
    LineTrailing(s.matcher, s.framing);
    match s.state.value
    case HeaderValueStart => {}
    case HeaderValue => {}
    case HeaderAlmostDone => {}
    case HeaderValueLws => {}
  }

  lemma HeadEndPhase(s: Parser, p: Phase, ch: char)
    requires PhaseFits(s, p)
    ensures s.state.HeadersAlmostDone? ==> var a := VisitHeadersAlmostDone(s, ch); Goes(a) ==> Advances(p, a)
    ensures s.state.HeadersDone? ==> var a := VisitHeadersDone(s, ch); Goes(a) ==> Advances(p, a)
  {
    hide Table.NewMessage;
  }

  lemma BodyPhase(s: Parser, p: Phase, ch: char)
    requires PhaseFits(s, p)
    ensures s.state.BodyIdentity? ==> var a := VisitBody(s); Goes(a) ==> Advances(p, a)
    ensures s.state.BodyIdentityEof? ==> Advances(p, Begin(s, Body))
    ensures s.state.MessageDone? ==> Advances(p, VisitMessageDone(s))
  {
    hide Table.NewMessage;
  }

  lemma ChunkPhase(s: Parser, p: Phase, ch: char)
    requires Mid(s) && PhaseFits(s, p) && s.state.InChunk?
    ensures var a := VisitChunk(s, s.state.chunk, ch); Goes(a) ==> Advances(p, a)
  {
    hide Table.NewMessage, Types.MethodText, HeadOk, HeaderOk, FlagsOk, LengthMatchesFlag;
    match s.state.chunk
    case ChunkSizeAlmostDone => {}
    case ChunkData => {}
    case ChunkDataDone => {}
    case _ => {}
  }

  /** Every visit follows the grammar. */
  lemma VisitPhase(s: Parser, p: Phase, ch: char)
    requires Mid(s) && PhaseFits(s, p)
    ensures var a := Visit(s, ch); Goes(a) ==> Advances(p, a)
  {
    hide Advances, Mid;
    match s.state
    case Idle(_) => IdlePhase(s, p, ch);
    case ResOrRespH => IdlePhase(s, p, ch);
    case InStatusLine(_) => StatusLinePhase(s, p, ch);
    case ReqMethod => RequestLinePhase(s, p, ch);
    case InUrl(_) => RequestLinePhase(s, p, ch);
    case InVersion(_) => VersionPhase(s, p, ch);
    case HeaderFieldStart => FieldStartPhase(s, p, ch);
    case InName(_) => NamePhase(s, p, ch);
    case InValue(_) => ValuePhase(s, p, ch);
    case HeadersAlmostDone => HeadEndPhase(s, p, ch);
    case HeadersDone => HeadEndPhase(s, p, ch);
    case InChunk(_) => ChunkPhase(s, p, ch);
    case _ => BodyPhase(s, p, ch);
  }
}
