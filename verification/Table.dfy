/** The transition table of http_parser_execute: what one visit to its `switch`
    does for the current byte.

    A visit changes the struct, may set or use a mark (`open`, `close`), may make
    the current byte part of a data span (`take`), may notify, and says how control
    goes on. The five states that move `p` by more than one byte (header field,
    header value, the two identity bodies, chunk data) are given here for one byte;
    Execute.dfy has their loops. A failing C `assert` and a read past a matcher
    string are the outcome `Crash`. Every callback is taken to return 0. */
module Table {
  import opened Bytes
  import opened Types
  import opened UrlChars
  import opened HeaderWords

  datatype Control =
    | Advance  // break: on to the next byte
    | Again    // REEXECUTE()
    | Fail(errno: Errno)  // SET_ERRNO, then goto error or RETURN(p - data)
    | Exit     // RETURN((p - data) + 1): the rest is in a different protocol
    | Crash    // a failing assert

  datatype Act = Act(s: Parser, open: Option<Part>, take: Option<Part>, close: Option<Part>,
                     notice: Option<Notice>, next: Control)

  function Go(s: Parser): Act { Act(s, None, None, None, None, Advance) }
  function Redo(s: Parser): Act { Act(s, None, None, None, None, Again) }
  function Error(s: Parser, e: Errno): Act { Act(s, None, None, None, None, Fail(e)) }
  function Bug(s: Parser): Act { Act(s, None, None, None, None, Crash) }
  function Take(s: Parser, k: Part): Act { Act(s, None, Some(k), None, None, Advance) }
  function Begin(s: Parser, k: Part): Act { Act(s, Some(k), Some(k), None, None, Advance) }
  function Close(s: Parser, k: Part): Act { Act(s, None, None, Some(k), None, Advance) }
  function Notify(s: Parser, n: Notice): Act { Act(s, None, None, None, Some(n), Advance) }

  /** http_message_needs_eof */
  predicate NeedsEof(s: Parser) {
    var f := s.framing;
    if s.line.kind.Request? then false
    else if s.line.statusCode / 100 == 1 || s.line.statusCode == 204 || s.line.statusCode == 304 ||
            f.flags.skipBody then false
    else if f.usesTransferEncoding && !f.flags.chunked then true
    else if f.flags.chunked || f.contentLength != U64_MAX then false
    else true
  }

  /** http_should_keep_alive */
  predicate ShouldKeepAlive(s: Parser) {
    && (if s.line.major > 0 && s.line.minor > 0 then !s.framing.flags.close else s.framing.flags.keepAlive)
    && !NeedsEof(s)
  }

  /** NEW_MESSAGE() */
  function NewMessage(s: Parser): (r: State)
    ensures r.Idle?
  {
    Idle(if ShouldKeepAlive(s) then (if s.line.kind.Request? then StartReq else StartRes) else Dead)
  }

  /** A measure that every REEXECUTE() decreases. */
  function Rank(s: State): nat {
    match s
    case InValue(v) => if v.HeaderValueLws? then 4 else if v.HeaderValue? then 2 else 1
    case InName(n) => if n.HeaderValueDiscardLws? then 4 else 1
    case HeaderFieldStart => 3
    case InStatusLine(r) => if r.ResStatusCode? then 3 else if r.ResStatusStart? then 2 else 1
    case HeadersAlmostDone => 2
    case Idle(i) => if i.StartReqOrRes? then 2 else 1
    case BodyIdentity => 2
    case _ => 1
  }

  /** What the start states reset. */
  function Fresh(s: Parser): Parser {
    s.(framing := Framing(NO_FLAGS, false, U64_MAX))
  }

  function WithVerb(s: Parser, m: Method, index: nat): Parser {
    s.(line := s.line.(verb := m), matcher := s.matcher.(index := index))
  }

  /** Any byte but `want` is the error `e`. */
  function Expect(s: Parser, ch: char, want: char, after: State, e: Errno): Act {
    if ch != want then Error(s, e) else Go(s.(state := after))
  }

  function VisitIdle(s: Parser, i: IdleState, ch: char): (a: Act)
    ensures a.s.config == s.config && (a.next.Exit? ==> a.s.upgrade)
    ensures a.next.Again? ==> i.StartReqOrRes? && a.s.state == Idle(StartReq)
  {
    if ch == CR || ch == LF then Go(s)
    else match i
      case Dead => Error(s, CLOSED_CONNECTION)
      case StartReqOrRes =>
        if ch == 'H' then Notify(Fresh(s).(state := ResOrRespH), MessageBegin)
        else Redo(Fresh(s).(line := s.line.(kind := Request), state := Idle(StartReq)))
      case StartRes =>
        if ch == 'H' then Notify(Fresh(s).(state := InStatusLine(ResH)), MessageBegin)
        else Error(Fresh(s), INVALID_CONSTANT)
      case StartReq =>
        if !IsAlpha(ch) then Error(Fresh(s), INVALID_METHOD)
        else match FirstVerb(ch)
          case None => Error(WithVerb(Fresh(s), DELETE, 1), INVALID_METHOD)
          case Some(m) => Notify(WithVerb(Fresh(s), m, 1).(state := ReqMethod), MessageBegin)
  }

  function VisitResOrRespH(s: Parser, ch: char): (a: Act)
    ensures a.s.config == s.config && (a.next.Exit? ==> a.s.upgrade)
    ensures !a.next.Again?
  {
    if ch == 'T' then Go(s.(line := s.line.(kind := Response), state := InStatusLine(ResHT)))
    else if ch == 'E' then Go(WithVerb(s.(line := s.line.(kind := Request), state := ReqMethod), HEAD, 2))
    else Error(s, INVALID_CONSTANT)
  }

  function VisitStatusLine(s: Parser, r: ResState, ch: char): (a: Act)
    ensures a.s.config == s.config && (a.next.Exit? ==> a.s.upgrade)
    ensures a.next.Again? ==> a.s.state.InStatusLine? && Rank(a.s.state) < Rank(InStatusLine(r))
  {
    match r
    case ResH => Expect(s, ch, 'T', InStatusLine(ResHT), STRICT)
    case ResHT => Expect(s, ch, 'T', InStatusLine(ResHTT), STRICT)
    case ResHTT => Expect(s, ch, 'P', InStatusLine(ResHTTP), STRICT)
    case ResHTTP => Expect(s, ch, '/', InStatusLine(ResHttpMajor), STRICT)
    case ResHttpMajor =>
      if !IsNum(ch) then Error(s, INVALID_VERSION) else Go(s.(line := s.line.(major := Digit(ch)), state := InStatusLine(ResHttpDot)))
    case ResHttpDot => Expect(s, ch, '.', InStatusLine(ResHttpMinor), INVALID_VERSION)
    case ResHttpMinor =>
      if !IsNum(ch) then Error(s, INVALID_VERSION) else Go(s.(line := s.line.(minor := Digit(ch)), state := InStatusLine(ResHttpEnd)))
    case ResHttpEnd => Expect(s, ch, ' ', InStatusLine(ResFirstStatusCode), INVALID_VERSION)
    case ResFirstStatusCode =>
      if IsNum(ch) then Go(s.(line := s.line.(statusCode := Digit(ch)), state := InStatusLine(ResStatusCode)))
      else if ch == ' ' then Go(s)
      else Error(s, INVALID_STATUS)
    case ResStatusCode =>
      if IsNum(ch) then
        var code := (s.line.statusCode * 10 + Digit(ch)) % 0x1_0000;
        var s' := s.(line := s.line.(statusCode := code));
        if code > 999 then Error(s', INVALID_STATUS) else Go(s')
      else if ch == ' ' then Go(s.(state := InStatusLine(ResStatusStart)))
      else if ch == CR || ch == LF then Redo(s.(state := InStatusLine(ResStatusStart)))
      else Error(s, INVALID_STATUS)
    case ResStatusStart =>
      var s' := s.(state := InStatusLine(ResStatus), matcher := s.matcher.(index := 0));
      if ch == CR || ch == LF then Act(s', Some(Status), None, None, None, Again) else Begin(s', Status)
    case ResStatus =>
      if ch == CR then Close(s.(state := InStatusLine(ResLineAlmostDone)), Status)
      else if ch == LF then Close(s.(state := HeaderFieldStart), Status)
      else Take(s, Status)
    case ResLineAlmostDone => Expect(s, ch, LF, HeaderFieldStart, STRICT)
  }

  /** The method that a first byte stands for, until another byte decides otherwise. */
  function FirstVerb(ch: char): Option<Method> {
    match ch
    case 'A' => Some(ACL) case 'B' => Some(BIND) case 'C' => Some(CONNECT) case 'D' => Some(DELETE)
    case 'G' => Some(GET) case 'H' => Some(HEAD) case 'L' => Some(LOCK) case 'M' => Some(MKCOL)
    case 'N' => Some(NOTIFY) case 'O' => Some(OPTIONS) case 'P' => Some(POST) case 'R' => Some(REPORT)
    case 'S' => Some(SUBSCRIBE) case 'T' => Some(TRACE) case 'U' => Some(UNLOCK)
    case _ => None
  }

  /** The XX table of s_req_method: a byte that leaves one method's text for another's. */
  function OtherVerb(m: Method, index: nat, ch: char): Option<Method> {
    match (m, index, ch)
    case (POST, 1, 'U') => Some(PUT)
    case (POST, 1, 'A') => Some(PATCH)
    case (POST, 1, 'R') => Some(PROPFIND)
    case (PUT, 2, 'R') => Some(PURGE)
    case (CONNECT, 1, 'H') => Some(CHECKOUT)
    case (CONNECT, 2, 'P') => Some(COPY)
    case (MKCOL, 1, 'O') => Some(MOVE)
    case (MKCOL, 1, 'E') => Some(MERGE)
    case (MKCOL, 1, '-') => Some(MSEARCH)
    case (MKCOL, 2, 'A') => Some(MKACTIVITY)
    case (MKCOL, 3, 'A') => Some(MKCALENDAR)
    case (SUBSCRIBE, 1, 'E') => Some(SEARCH)
    case (SUBSCRIBE, 1, 'O') => Some(SOURCE)
    case (REPORT, 2, 'B') => Some(REBIND)
    case (PROPFIND, 4, 'P') => Some(PROPPATCH)
    case (LOCK, 1, 'I') => Some(LINK)
    case (UNLOCK, 2, 'S') => Some(UNSUBSCRIBE)
    case (UNLOCK, 2, 'B') => Some(UNBIND)
    case (UNLOCK, 3, 'I') => Some(UNLINK)
    case _ => None
  }

  function VisitMethod(s: Parser, ch: char): (a: Act)
    ensures a.s.config == s.config && (a.next.Exit? ==> a.s.upgrade)
    ensures !a.next.Again?
  {
    var text := MethodText(s.line.verb);
    var i := s.matcher.index;
    if ch == NUL then Error(s, INVALID_METHOD)
    else if i > |text| then Bug(s)
    else if ch == ' ' && At(text, i) == NUL then
      Go(WithVerb(s.(state := InUrl(ReqSpacesBeforeUrl)), s.line.verb, i + 1))
    else if ch == At(text, i) then Go(WithVerb(s, s.line.verb, i + 1))
    else if 'A' <= ch <= 'Z' || ch == '-' then
      (match OtherVerb(s.line.verb, i, ch)
       case None => Error(s, INVALID_METHOD)
       case Some(m) => Go(WithVerb(s, m, i + 1)))
    else Error(s, INVALID_METHOD)
  }

  /** UPDATE_STATE(parse_url_char(from, ch)), with s_dead an error. */
  function UrlByte(s: Parser, from: UrlState, ch: char, begin: bool): Act {
    match ParseUrlChar(from, ch)
    case None => Error(s.(state := Idle(Dead)), INVALID_URL)
    case Some(u) => if begin then Begin(s.(state := InUrl(u)), Url) else Take(s.(state := InUrl(u)), Url)
  }

  function VisitUrl(s: Parser, u: UrlState, ch: char): (a: Act)
    ensures a.s.config == s.config && (a.next.Exit? ==> a.s.upgrade)
    ensures !a.next.Again?
  {
    if u.ReqSpacesBeforeUrl? then
      if ch == ' ' then Go(s) else UrlByte(s, if s.line.verb.CONNECT? then ReqServerStart else u, ch, true)
    else if UrlMayEnd(u) then
      if ch == ' ' then Close(s.(state := InVersion(ReqHttpStart)), Url)
      else if ch == CR then Close(s.(line := s.line.(major := 0, minor := 9), state := InVersion(ReqLineAlmostDone)), Url)
      else if ch == LF then Close(s.(line := s.line.(major := 0, minor := 9), state := HeaderFieldStart), Url)
      else UrlByte(s, u, ch, false)
    else if ch == ' ' || ch == CR || ch == LF then Error(s, INVALID_URL)
    else UrlByte(s, u, ch, false)
  }

  function VisitVersion(s: Parser, q: ReqState, ch: char): (a: Act)
    ensures a.s.config == s.config && (a.next.Exit? ==> a.s.upgrade)
    ensures !a.next.Again?
  {
    match q
    case ReqHttpStart =>
      if ch == ' ' then Go(s)
      else if ch == 'H' then Go(s.(state := InVersion(ReqHttpH)))
      else if ch == 'I' && s.line.verb.SOURCE? then Go(s.(state := InVersion(ReqHttpI)))
      else Error(s, INVALID_CONSTANT)
    case ReqHttpH => Expect(s, ch, 'T', InVersion(ReqHttpHT), STRICT)
    case ReqHttpHT => Expect(s, ch, 'T', InVersion(ReqHttpHTT), STRICT)
    case ReqHttpHTT => Expect(s, ch, 'P', InVersion(ReqHttpHTTP), STRICT)
    case ReqHttpI => Expect(s, ch, 'C', InVersion(ReqHttpIC), STRICT)
    case ReqHttpIC => Expect(s, ch, 'E', InVersion(ReqHttpHTTP), STRICT)
    case ReqHttpHTTP => Expect(s, ch, '/', InVersion(ReqHttpMajor), STRICT)
    case ReqHttpMajor =>
      if !IsNum(ch) then Error(s, INVALID_VERSION) else Go(s.(line := s.line.(major := Digit(ch)), state := InVersion(ReqHttpDot)))
    case ReqHttpDot => Expect(s, ch, '.', InVersion(ReqHttpMinor), INVALID_VERSION)
    case ReqHttpMinor =>
      if !IsNum(ch) then Error(s, INVALID_VERSION) else Go(s.(line := s.line.(minor := Digit(ch)), state := InVersion(ReqHttpEnd)))
    case ReqHttpEnd =>
      if ch == CR then Go(s.(state := InVersion(ReqLineAlmostDone)))
      else if ch == LF then Go(s.(state := HeaderFieldStart))
      else Error(s, INVALID_VERSION)
    case ReqLineAlmostDone => Expect(s, ch, LF, HeaderFieldStart, LF_EXPECTED)
  }

  function VisitFieldStart(s: Parser, ch: char): (a: Act)
    ensures a.s.config == s.config && (a.next.Exit? ==> a.s.upgrade)
    ensures a.next.Again? ==> a.s.state.HeadersAlmostDone?
  {
    if ch == CR then Go(s.(state := HeadersAlmostDone))
    else if ch == LF then Redo(s.(state := HeadersAlmostDone))
    else if Token(ch) == NUL then Error(s, INVALID_HEADER_TOKEN)
    else Begin(s.(state := InName(HeaderField), matcher := Matcher(FirstNameState(Token(ch)), 0)), Field)
  }

  /** A name byte moves the matcher; a full match of transfer-encoding is remembered. */
  function Named(s: Parser, m: Matcher): Parser {
    if m.header == Matched(TransferEncoding)
    then s.(matcher := m, framing := s.framing.(usesTransferEncoding := true))
    else s.(matcher := m)
  }

  /** s_header_field for one byte. */
  function VisitField(s: Parser, ch: char): (a: Act)
    ensures a.s.config == s.config && (a.next.Exit? ==> a.s.upgrade)
    ensures !a.next.Again?
  {
    if Token(ch) == NUL then
      if ch == ':' then Close(s.(state := InName(HeaderValueDiscardWs)), Field) else Error(s, INVALID_HEADER_TOKEN)
    else
      match NameByte(s.matcher, Token(ch))
      case None => Bug(s)
      case Some(m) => Take(Named(s, m), Field)
  }

  /** A name and the blanks after its colon. */
  function VisitName(s: Parser, n: NameState, ch: char): (a: Act)
    ensures a.s.config == s.config && (a.next.Exit? ==> a.s.upgrade)
    ensures a.next.Again? ==> n.HeaderValueDiscardLws? && a.s.state.HeaderFieldStart?
  {
    match n
    case HeaderField => VisitField(s, ch)
    case HeaderValueDiscardWs =>
      if ch == ' ' || ch == TAB then Go(s)
      else if ch == CR then Go(s.(state := InName(HeaderValueDiscardWsAlmostDone)))
      else if ch == LF then Go(s.(state := InName(HeaderValueDiscardLws)))
      else VisitValueStart(s, ch)
    case HeaderValueDiscardWsAlmostDone => Expect(s, ch, LF, InName(HeaderValueDiscardLws), STRICT)
    case HeaderValueDiscardLws =>
      if ch == ' ' || ch == TAB then Go(s.(state := InName(HeaderValueDiscardWs)))
      else if s.matcher.header == Matched(ContentLength) then Error(s, INVALID_CONTENT_LENGTH)
      else Act(EndLine(s), Some(Value), None, Some(Value), None, Again)
  }

  /** What a value byte does to the matcher and the framing: a new pair, an error, or a failing assert. */
  datatype HeadStep = Head(m: Matcher, f: Framing) | Refused(errno: Errno) | Asserted

  /** Take a value byte, as the first one of a span or as a later one. */
  function TakeValue(s: Parser, step: HeadStep, first: bool): (a: Act)
    ensures a.s.config == s.config && (a.next.Exit? ==> a.s.upgrade)
    ensures !a.next.Again?
  {
    match step
    case Head(m, f) => Act(s.(matcher := m, framing := f), if first then Some(Value) else None, Some(Value), None, None, Advance)
    case Refused(e) => Error(s, e)
    case Asserted => Bug(s)
  }

  /** The switch of s_header_value_start. */
  function ValueStart(h: HeaderState, f: Framing, ch: char): HeadStep {
    var c := Lower(ch);
    match h
    case Matched(n) =>
      (match n
       case Upgrade => Head(Matcher(General, 0), f.(flags := f.flags.(upgrade := true)))
       case TransferEncoding => Head(Matcher(if c == 'c' then CodingMatching else CodingToken, 0), f)
       case ContentLength =>
         if !IsNum(ch) then Refused(INVALID_CONTENT_LENGTH)
         else if f.flags.contentLength then Refused(UNEXPECTED_CONTENT_LENGTH)
         else Head(Matcher(LengthNum, 0), f.(flags := f.flags.(contentLength := true), contentLength := Digit(ch)))
       case _ =>
         Head(Matcher(if c == 'k' then OptionMatching(KeepAliveOption)
                      else if c == 'c' then OptionMatching(CloseOption)
                      else if c == 'u' then OptionMatching(UpgradeOption)
                      else OptionToken, 0), f))
    case CodingStart | LengthWs | OptionStart => Head(Matcher(h, 0), f)
    case _ => Head(Matcher(General, 0), f)
  }

  function VisitValueStart(s: Parser, ch: char): (a: Act)
    ensures a.s.config == s.config && (a.next.Exit? ==> a.s.upgrade)
    ensures !a.next.Again?
  {
    TakeValue(s.(state := InValue(HeaderValue)), ValueStart(s.matcher.header, s.framing, ch), true)
  }

  /** One byte of a Content-Length number, in 64-bit arithmetic. */
  function LengthByte(m: Matcher, f: Framing, ch: char): HeadStep {
    if ch == ' ' then Head(m.(header := LengthWs), f)
    else if !IsNum(ch) then Refused(INVALID_CONTENT_LENGTH)
    else
      var t := (f.contentLength * 10 + Digit(ch)) % (U64_MAX + 1);
      if (U64_MAX - 10) / 10 < f.contentLength then Refused(INVALID_CONTENT_LENGTH)
      else Head(m.(header := LengthNum), f.(contentLength := t))
  }

  /** The switch of s_header_value for one byte. */
  function ValueByte(m: Matcher, f: Framing, ch: char): HeadStep {
    match m.header
    case General => Head(m, f)
    case Matched(n) =>
      if n.ContentLength? then (if ch == ' ' then Head(m, f) else LengthByte(m, f, ch))
      else if n.Upgrade? then Head(m.(header := General), f)
      else Asserted
    case LengthNum => LengthByte(m, f, ch)
    case LengthWs => if ch == ' ' then Head(m, f) else Refused(INVALID_CONTENT_LENGTH)
    case _ =>
      Head(TokenByte(m, ch), if ch == ',' && m.header.OptionMatched? then f.(flags := LineFlags(m.header, f.flags)) else f)
  }

  /** The flag that a finished header line, or a finished Connection option, sets. */
  function LineFlags(h: HeaderState, flags: Flags): Flags {
    match h
    case OptionMatched(o) =>
      (match o
       case KeepAliveOption => flags.(keepAlive := true)
       case CloseOption => flags.(close := true)
       case UpgradeOption => flags.(connectionUpgrade := true))
    case CodingChunked => flags.(chunked := true)
    case _ => flags
  }

  /** The end of a header line. */
  function EndLine(s: Parser): Parser {
    s.(state := HeaderFieldStart, framing := s.framing.(flags := LineFlags(s.matcher.header, s.framing.flags)))
  }

  /** A value and its line end. */
  function VisitValue(s: Parser, v: ValueState, ch: char): (a: Act)
    ensures a.s.config == s.config && (a.next.Exit? ==> a.s.upgrade)
    ensures a.next.Again? ==>
              || (v.HeaderValue? && a.s.state == InValue(HeaderAlmostDone))
              || (v.HeaderValueLws? && (a.s.state == InValue(HeaderValueStart) || a.s.state.HeaderFieldStart?))
  {
    match v
    case HeaderValueStart => VisitValueStart(s, ch)
    case HeaderValue =>
      if ch == CR then Close(s.(state := InValue(HeaderAlmostDone)), Value)
      else if ch == LF then Act(s.(state := InValue(HeaderAlmostDone)), None, None, Some(Value), None, Again)
      else if !s.config.lenient && !IsHeaderChar(ch) then Error(s, INVALID_HEADER_TOKEN)
      else TakeValue(s, ValueByte(s.matcher, s.framing, ch), false)
    case HeaderAlmostDone => Expect(s, ch, LF, InValue(HeaderValueLws), LF_EXPECTED)
    case HeaderValueLws =>
      if ch == ' ' || ch == TAB then
        Redo(s.(state := InValue(HeaderValueStart),
                matcher := if s.matcher.header.LengthNum? then s.matcher.(header := LengthWs) else s.matcher))
      else Redo(EndLine(s))
  }

  /** s_headers_almost_done: refuse conflicting framing, decide `upgrade`. */
  function VisitHeadersAlmostDone(s: Parser, ch: char): (a: Act)
    ensures a.s.config == s.config && (a.next.Exit? ==> a.s.upgrade)
    ensures a.next.Again? ==> a.s.state.MessageDone? || a.s.state.HeadersDone?
  {
    var f := s.framing;
    if ch != LF then Error(s, STRICT)
    else if f.flags.trailing then Act(s.(state := MessageDone), None, None, None, Some(ChunkComplete), Again)
    else if f.usesTransferEncoding && f.flags.contentLength &&
            (if f.flags.chunked then !s.config.allowChunkedLength else !s.config.lenient) then
      Error(s, UNEXPECTED_CONTENT_LENGTH)
    else
      var upgrade := if f.flags.upgrade && f.flags.connectionUpgrade
                     then s.line.kind.Request? || s.line.statusCode == 101
                     else s.line.verb.CONNECT?;
      Act(s.(state := HeadersDone, upgrade := upgrade), None, None, None, Some(HeadersComplete), Again)
  }

  /** s_headers_done: choose how the body is delimited. */
  function VisitHeadersDone(s: Parser, ch: char): (a: Act)
    ensures a.s.config == s.config && (a.next.Exit? ==> a.s.upgrade)
    ensures !a.next.Again?
  {
    if ch != LF then Error(s, STRICT)
    else
      var f := s.framing;
      var z := s.(nread := 0);
      var hasBody := f.flags.chunked || 0 < f.contentLength < U64_MAX;
      var complete := Notify(z.(state := NewMessage(s)), MessageComplete);
      if s.upgrade && (s.line.verb.CONNECT? || f.flags.skipBody || !hasBody) then complete.(next := Exit)
      else if f.flags.skipBody then complete
      else if f.flags.chunked then Go(z.(state := InChunk(ChunkSizeStart)))
      else if f.usesTransferEncoding then
        if s.line.kind.Request? && !s.config.lenient then Error(z, INVALID_TRANSFER_ENCODING)
        else Go(z.(state := BodyIdentityEof))
      else if f.contentLength == 0 then complete
      else if f.contentLength != U64_MAX then Go(z.(state := BodyIdentity))
      else if !NeedsEof(s) then complete
      else Go(z.(state := BodyIdentityEof))
  }

  function WithLength(s: Parser, n: nat): Parser {
    s.(framing := s.framing.(contentLength := n))
  }

  function VisitChunk(s: Parser, c: ChunkState, ch: char): (a: Act)
    ensures a.s.config == s.config && (a.next.Exit? ==> a.s.upgrade)
    ensures !a.next.Again?
  {
    var n := s.framing.contentLength;
    if !s.framing.flags.chunked then Bug(s)
    else
      match c
      case ChunkSizeStart =>
        if s.nread != 1 then Bug(s)
        else if Unhex(ch) == -1 then Error(s, INVALID_CHUNK_SIZE)
        else Go(WithLength(s, Unhex(ch)).(state := InChunk(ChunkSize)))
      case ChunkSize =>
        if ch == CR then Go(s.(state := InChunk(ChunkSizeAlmostDone)))
        else if Unhex(ch) == -1 then
          if ch == ';' || ch == ' ' then Go(s.(state := InChunk(ChunkParameters))) else Error(s, INVALID_CHUNK_SIZE)
        else
          var t := (n * 16 + Unhex(ch)) % (U64_MAX + 1);
          if (U64_MAX - 16) / 16 < n then Error(s, INVALID_CONTENT_LENGTH) else Go(WithLength(s, t))
      case ChunkParameters => if ch == CR then Go(s.(state := InChunk(ChunkSizeAlmostDone))) else Go(s)
      case ChunkSizeAlmostDone =>
        if ch != LF then Error(s, STRICT)
        else if n == 0 then
          Notify(s.(nread := 0, framing := s.framing.(flags := s.framing.flags.(trailing := true)),
                    state := HeaderFieldStart), ChunkHeader)
        else Notify(s.(nread := 0, state := InChunk(ChunkData)), ChunkHeader)
      case ChunkData =>
        if n == 0 || n == U64_MAX then Bug(s)
        else
          Begin(WithLength(s, n - 1).(state := InChunk(if n == 1 then ChunkDataAlmostDone else ChunkData)), Body)
      case ChunkDataAlmostDone =>
        if n != 0 then Bug(s)
        else if ch != CR then Error(s, STRICT)
        else Close(s.(state := InChunk(ChunkDataDone)), Body)
      case ChunkDataDone =>
        if ch != LF then Error(s, STRICT)
        else Notify(s.(nread := 0, state := InChunk(ChunkSizeStart)), ChunkComplete)
  }

  /** s_body_identity for one byte. */
  function VisitBody(s: Parser): (a: Act)
    ensures a.s.config == s.config && (a.next.Exit? ==> a.s.upgrade)
    ensures a.next.Again? ==> a.s.state.MessageDone?
  {
    var n := s.framing.contentLength;
    if n == 0 || n == U64_MAX then Bug(s)
    else if n == 1 then
      Act(WithLength(s, 0).(state := MessageDone), Some(Body), Some(Body), Some(Body), None, Again)
    else Begin(WithLength(s, n - 1), Body)
  }

  function VisitMessageDone(s: Parser): (a: Act)
    ensures a.s.config == s.config && (a.next.Exit? ==> a.s.upgrade)
    ensures !a.next.Again?
  {
    Notify(s.(state := NewMessage(s)), MessageComplete).(next := if s.upgrade then Exit else Advance)
  }

  /** One visit to the switch. */
  function Visit(s: Parser, ch: char): (a: Act)
    ensures a.s.config == s.config && (a.next.Exit? ==> a.s.upgrade)
    ensures a.next.Again? ==> Rank(a.s.state) < Rank(s.state)
  {
    match s.state
    case Idle(i) => VisitIdle(s, i, ch)
    case ResOrRespH => VisitResOrRespH(s, ch)
    case InStatusLine(r) => VisitStatusLine(s, r, ch)
    case ReqMethod => VisitMethod(s, ch)
    case InUrl(u) => VisitUrl(s, u, ch)
    case InVersion(q) => VisitVersion(s, q, ch)
    case HeaderFieldStart => VisitFieldStart(s, ch)
    case InName(n) => VisitName(s, n, ch)
    case InValue(v) => VisitValue(s, v, ch)
    case HeadersAlmostDone => VisitHeadersAlmostDone(s, ch)
    case HeadersDone => VisitHeadersDone(s, ch)
    case InChunk(c) => VisitChunk(s, c, ch)
    case BodyIdentity => VisitBody(s)
    case BodyIdentityEof => Begin(s, Body)
    case MessageDone => VisitMessageDone(s)
  }
}
