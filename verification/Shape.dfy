/** How the marks of http_parser_execute go with its states. */
module Shape {
  import opened Bytes
  import opened Types
  import opened UrlChars
  import opened HeaderWords
  import opened Table

  /** The data callback that is open in a state: the marks re-armed when a call starts. */
  function OpenPart(s: State): Option<Part> {
    match s
    case InUrl(u) => if u.ReqSpacesBeforeUrl? then None else Some(Url)
    case InStatusLine(r) => if r.ResStatus? then Some(Status) else None
    case InName(n) => if n.HeaderField? then Some(Field) else None
    case InValue(v) => if v.HeaderValue? then Some(Value) else None
    case _ => None
  }

  /** The states that may move `p` by more than one byte. */
  predicate Bulk(s: State) {
    s == InName(HeaderField) || s == InValue(HeaderValue) || InBody(s)
  }

  predicate InBody(s: State) {
    s == InChunk(ChunkData) || s.BodyIdentity? || s.BodyIdentityEof?
  }

  /** A span is open before a visit, or the visit opens it. */
  predicate SpanOpen(before: State, a: Act, k: Part) {
    if a.open.Some? then a.open.value == k && OpenPart(before).None? && before != InChunk(ChunkDataAlmostDone)
    else OpenPart(before) == Some(k)
  }

  /** The states from which the next callback may be a body callback. */
  predicate BodyMayCome(s: State) {
    s.HeadersDone? || s.BodyIdentity? || s.BodyIdentityEof? || s == InChunk(ChunkData) || s == InChunk(ChunkDataAlmostDone)
  }

  /** What a visit outside the bodies may do with the marks. */
  predicate Shaped(before: State, a: Act) {
    var after := OpenPart(a.s.state);
    && a.s.state != InChunk(ChunkDataAlmostDone)
    && (a.next.Again? ==> !Bulk(a.s.state))
    && (a.take.Some? ==>
          && a.next.Advance? && a.close.None? && a.notice.None?
          && !a.take.value.Body? && after == a.take && SpanOpen(before, a, a.take.value))
    && (a.close.Some? ==>
          && a.take.None? && a.notice.None? && after.None?
          && ((SpanOpen(before, a, a.close.value) && !a.close.value.Body?)
              || (before == InChunk(ChunkDataAlmostDone) && a.close == Some(Body) && a.open.None?)))
    && (a.take.None? && a.close.None? ==>
          && OpenPart(before).None? && before != InChunk(ChunkDataAlmostDone)
          && (if a.open.Some? then a.next.Again? && a.notice.None? && after == a.open && !a.open.value.Body?
              else after.None?))
    && (BodyMayCome(a.s.state) ==>
          a.notice.Some? || (BodyMayCome(before) && a.open.None? && a.take.None? && a.close.None?))
  }

  predicate Goes(a: Act) {
    a.next.Advance? || a.next.Again? || a.next.Exit?
  }

  lemma StartShaped(s: Parser, ch: char)
    ensures s.state.Idle? ==> var a := VisitIdle(s, s.state.idle, ch); Goes(a) ==> Shaped(s.state, a)
    ensures s.state.ResOrRespH? ==> var a := VisitResOrRespH(s, ch); Goes(a) ==> Shaped(s.state, a)
    ensures s.state.ReqMethod? ==> var a := VisitMethod(s, ch); Goes(a) ==> Shaped(s.state, a)
  {
    hide Types.MethodText, FirstVerb, OtherVerb, IsAlpha;
  }

  lemma UrlShaped(s: Parser, ch: char)
    requires s.state.InUrl?
    ensures var a := VisitUrl(s, s.state.url, ch); Goes(a) ==> Shaped(s.state, a)
  {
    hide UrlChars.ParseUrlChar;
    if s.state.url.ReqSpacesBeforeUrl? {
    } else if UrlMayEnd(s.state.url) {
    } else {
    }
  }

  lemma StatusTextShaped(s: Parser, ch: char)
    requires s.state == InStatusLine(ResStatusStart) || s.state == InStatusLine(ResStatus)
    ensures var a := VisitStatusLine(s, s.state.res, ch); Goes(a) ==> Shaped(s.state, a)
  {
  }

  lemma StatusLineShaped(s: Parser, ch: char)
    requires s.state.InStatusLine?
    ensures var a := VisitStatusLine(s, s.state.res, ch); Goes(a) ==> Shaped(s.state, a)
  {
    hide IsNum, Digit;
    if s.state.res.ResStatusStart? || s.state.res.ResStatus? { StatusTextShaped(s, ch); }
  }

  lemma VersionShaped(s: Parser, ch: char)
    requires s.state.InVersion?
    ensures var a := VisitVersion(s, s.state.req, ch); Goes(a) ==> Shaped(s.state, a)
  {
  }

  lemma NameShaped(s: Parser, ch: char)
    ensures s.state.HeaderFieldStart? ==> var a := VisitFieldStart(s, ch); Goes(a) ==> Shaped(s.state, a)
    ensures s.state.InName? ==> var a := VisitName(s, s.state.name, ch); Goes(a) ==> Shaped(s.state, a)
  {
    hide Table.ValueStart, Table.LineFlags, HeaderWords.NameByte, Bytes.Token, FirstNameState;
  }

  lemma ValueShaped(s: Parser, ch: char)
    requires s.state.InValue?
    ensures var a := VisitValue(s, s.state.value, ch); Goes(a) ==> Shaped(s.state, a)
  {
    hide Table.ValueStart, Table.LineFlags, Table.ValueByte, IsHeaderChar;
    match s.state.value
    case HeaderValueStart => {}
    case HeaderValue => {}
    case HeaderAlmostDone => {}
    case HeaderValueLws => {}
  }

  lemma HeadEndShaped(s: Parser, ch: char)
    ensures s.state.HeadersAlmostDone? ==> var a := VisitHeadersAlmostDone(s, ch); Goes(a) ==> Shaped(s.state, a)
    ensures s.state.HeadersDone? ==> var a := VisitHeadersDone(s, ch); Goes(a) ==> Shaped(s.state, a)
    ensures s.state.MessageDone? ==> var a := VisitMessageDone(s); Goes(a) ==> Shaped(s.state, a)
  {
    hide Table.NewMessage;
  }

  lemma ChunkShaped(s: Parser, ch: char)
    requires s.state.InChunk? && !s.state.chunk.ChunkData?
    ensures var a := VisitChunk(s, s.state.chunk, ch); Goes(a) ==> Shaped(s.state, a)
  {
    hide Unhex;
    match s.state.chunk
    case ChunkSizeStart => {}
    case ChunkSize => {}
    case ChunkParameters => {}
    case ChunkSizeAlmostDone => {}
    case _ => {}
  }

  lemma VisitShaped(s: Parser, ch: char)
    requires !InBody(s.state)
    ensures var a := Visit(s, ch); Goes(a) ==> Shaped(s.state, a)
  {
    hide Shaped;
    match s.state
    case InStatusLine(_) => StatusLineShaped(s, ch);
    case InVersion(_) => VersionShaped(s, ch);
    case HeaderFieldStart => NameShaped(s, ch);
    case InName(_) => NameShaped(s, ch);
    case InValue(_) => ValueShaped(s, ch);
    case HeadersAlmostDone => HeadEndShaped(s, ch);
    case HeadersDone => HeadEndShaped(s, ch);
    case InChunk(_) => ChunkShaped(s, ch);
    case MessageDone => HeadEndShaped(s, ch);
    case InUrl(_) => UrlShaped(s, ch);
    case _ => StartShaped(s, ch);
  }

  /** An error makes no callback, and it is not the one for the header size. */
  predicate FailsSilently(a: Act) {
    a.next.Fail? ==> a.take.None? && a.close.None? && a.notice.None? && !a.next.errno.HEADER_OVERFLOW?
  }

  lemma LineFails(s: Parser, ch: char)
    ensures s.state.Idle? ==> FailsSilently(VisitIdle(s, s.state.idle, ch))
    ensures s.state.ResOrRespH? ==> FailsSilently(VisitResOrRespH(s, ch))
    ensures s.state.ReqMethod? ==> FailsSilently(VisitMethod(s, ch))
    ensures s.state.InUrl? ==> FailsSilently(VisitUrl(s, s.state.url, ch))
    ensures s.state.InVersion? ==> FailsSilently(VisitVersion(s, s.state.req, ch))
  {
    hide Types.MethodText, UrlChars.ParseUrlChar, FirstVerb, OtherVerb;
  }

  lemma StatusLineFails(s: Parser, ch: char)
    requires s.state.InStatusLine?
    ensures FailsSilently(VisitStatusLine(s, s.state.res, ch))
  {
  }

  lemma ValueErrors(m: Matcher, f: Framing, ch: char)
    ensures ValueByte(m, f, ch) != Refused(HEADER_OVERFLOW) && ValueStart(m.header, f, ch) != Refused(HEADER_OVERFLOW)
  {
    hide TokenByte, LineFlags, Lower;
  }

  lemma HeaderFails(s: Parser, ch: char)
    ensures s.state.HeaderFieldStart? ==> FailsSilently(VisitFieldStart(s, ch))
    ensures s.state.InName? ==> FailsSilently(VisitName(s, s.state.name, ch))
    ensures s.state.InValue? ==> FailsSilently(VisitValue(s, s.state.value, ch))
  {
    hide ValueStart, LineFlags, ValueByte, NameByte, Token, IsHeaderChar;
    ValueErrors(s.matcher, s.framing, ch);
  }

  lemma BodyFails(s: Parser, ch: char)
    ensures s.state.HeadersAlmostDone? ==> FailsSilently(VisitHeadersAlmostDone(s, ch))
    ensures s.state.HeadersDone? ==> FailsSilently(VisitHeadersDone(s, ch))
    ensures s.state.InChunk? ==> FailsSilently(VisitChunk(s, s.state.chunk, ch))
    ensures s.state.MessageDone? ==> FailsSilently(VisitMessageDone(s))
    ensures s.state.BodyIdentity? ==> FailsSilently(VisitBody(s))
  {
    hide NewMessage, NeedsEof, Unhex;
  }

  lemma VisitFails(s: Parser, ch: char)
    ensures FailsSilently(Visit(s, ch))
  {
    hide FailsSilently;
    match s.state
    case InStatusLine(_) => StatusLineFails(s, ch);
    case HeaderFieldStart => HeaderFails(s, ch);
    case InName(_) => HeaderFails(s, ch);
    case InValue(_) => HeaderFails(s, ch);
    case BodyIdentityEof => EofFails(s);
    case Idle(_) => LineFails(s, ch);
    case ResOrRespH => LineFails(s, ch);
    case ReqMethod => LineFails(s, ch);
    case InUrl(_) => LineFails(s, ch);
    case InVersion(_) => LineFails(s, ch);
    case _ => BodyFails(s, ch);
  }

  lemma EofFails(s: Parser)
    ensures FailsSilently(Begin(s, Body))
  {
  }
}
