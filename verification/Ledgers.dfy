/** The header lines of the message a trace is in, and the length they announce. */
module Ledgers {
  import opened Bytes
  import opened Types
  import opened UrlChars
  import opened HeaderWords
  import opened Table
  import opened Runs
  import opened Invariants
  import opened Shape
  import opened HeaderText
  import opened Views

  /** A reported header line; None while only its name was reported. */
  datatype Entry = Entry(name: Text, value: Option<Text>)

  /** The lines of the current head, whether it is still open, and how many body bytes were reported since. */
  datatype Ledger = Ledger(lines: seq<Entry>, open: bool, body: nat)

  function AddName(ls: seq<Entry>, x: Text): seq<Entry> {
    if ls != [] && ls[|ls| - 1].value.None? then ls[..|ls| - 1] + [Entry(ls[|ls| - 1].name + x, None)] else ls + [Entry(x, None)]
  }

  function AddValue(ls: seq<Entry>, x: Text): seq<Entry> {
    if ls == [] then ls
    else
      var l := ls[|ls| - 1];
      ls[..|ls| - 1] + [Entry(l.name, Some(if l.value.None? then x else l.value.value + x))]
  }

  function LedgerNext(g: Ledger, e: Event): Ledger {
    match e
    case Note(n) => if n.MessageBegin? then Ledger([], true, 0) else if n.HeadersComplete? then g.(open := false) else g
    case Data(k, x) =>
      match k
      case Field => if g.open then g.(lines := AddName(g.lines, x)) else g
      case Value => if g.open then g.(lines := AddValue(g.lines, x)) else g
      case Body => g.(body := g.body + |x|)
      case _ => g
  }

  /** Read off the trace, event by event. */
  function LedgerOf(t: Trace): Ledger {
    if t == [] then Ledger([], false, 0) else LedgerNext(LedgerOf(t[..|t| - 1]), t[|t| - 1])
  }

  lemma NameTwice(ls: seq<Entry>, x: Text, y: Text)
    ensures AddName(AddName(ls, x), y) == AddName(ls, x + y)
  {
    var m := AddName(ls, x);
    if ls != [] && ls[|ls| - 1].value.None? {
      assert m[..|m| - 1] == ls[..|ls| - 1];
      assert ls[|ls| - 1].name + x + y == ls[|ls| - 1].name + (x + y);
    } else {
      assert m[..|m| - 1] == ls;
    }
  }

  lemma ValueTwice(ls: seq<Entry>, x: Text, y: Text)
    ensures AddValue(AddValue(ls, x), y) == AddValue(ls, x + y)
  {
    var m := AddValue(ls, x);
    if ls != [] {
      var l := ls[|ls| - 1];
      assert m[..|m| - 1] == ls[..|ls| - 1];
      if l.value.Some? { assert l.value.value + x + y == l.value.value + (x + y); }
    }
  }

  /** Joining pieces changes nothing. */
  lemma LedgerAdd(t: Trace, e: Event)
    ensures LedgerOf(Add(t, e)) == LedgerNext(LedgerOf(t), e)
  {
    hide AddName, AddValue;
    var u := Add(t, e);
    if |u| == |t| {
      assert u[..|u| - 1] == t[..|t| - 1];
      var g := LedgerOf(t[..|t| - 1]);
      NameTwice(g.lines, t[|t| - 1].text, e.text);
      ValueTwice(g.lines, t[|t| - 1].text, e.text);
    } else {
      assert u[..|u| - 1] == t;
    }
  }

  function LedgerAfter(g: Ledger, a: Act, ch: char): Ledger {
    var g1 := if a.take.Some? then LedgerNext(g, Data(a.take.value, [ch])) else g;
    var g2 := if a.close.Some? && !a.close.value.Body? then LedgerNext(g1, Data(a.close.value, [])) else g1;
    if a.notice.Some? then LedgerNext(g2, Note(a.notice.value)) else g2
  }

  lemma LedgerReport(t: Trace, a: Act, ch: char)
    ensures LedgerOf(Report(t, a, ch)) == LedgerAfter(LedgerOf(t), a, ch)
  {
    hide LedgerOf, Runs.Add, LedgerNext;
    var t1 := if a.take.Some? then Add(t, Data(a.take.value, [ch])) else t;
    if a.take.Some? { LedgerAdd(t, Data(a.take.value, [ch])); }
    var t2 := if a.close.Some? && !a.close.value.Body? then Add(t1, Data(a.close.value, [])) else t1;
    if a.close.Some? && !a.close.value.Body? { LedgerAdd(t1, Data(a.close.value, [])); }
    if a.notice.Some? { LedgerAdd(t2, Note(a.notice.value)); }
  }

  /** A complete Content-Length line that says `n`. */
  predicate Says(l: Entry, n: nat) {
    IsName(l.name, ContentLength) && l.value.Some? && IsLength(l.value.value, n)
  }

  /** The lines announce the length `n`: one of them says it, and no Content-Length line says anything else. */
  predicate Announce(ls: seq<Entry>, n: nat) {
    && (exists i :: 0 <= i < |ls| && Says(ls[i], n))
    && forall i :: 0 <= i < |ls| && IsName(ls[i].name, ContentLength) ==> Says(ls[i], n)
  }

  predicate NoLength(ls: seq<Entry>) {
    forall i :: 0 <= i < |ls| ==> !IsName(ls[i].name, ContentLength)
  }

  /** Flag and length field go with complete lines. */
  predicate Accounts(ls: seq<Entry>, flag: bool, n: nat) {
    if flag then Announce(ls, n) else NoLength(ls)
  }

  predicate Closed(ls: seq<Entry>) {
    ls == [] || ls[|ls| - 1].value.Some?
  }

  /** A name is being read: it is the last line, and the lines before it account for the length. */
  predicate NameOpen(g: Ledger, w: View, flag: bool, n: nat) {
    var ls := g.lines;
    && g.open && g.body == 0 && w.Naming? && ls != [] && ls[|ls| - 1] == Entry(w.name, None) && Accounts(ls[..|ls| - 1], flag, n)
  }

  /** A value is being read; the value of the first Content-Length line is what sets the length. */
  predicate ValueOpen(g: Ledger, w: View, isLength: bool, flag: bool, n: nat) {
    var ls := g.lines;
    && g.open && g.body == 0 && w.Valuing? && ls != [] && ls[|ls| - 1] == Entry(w.name, Some(w.value))
    && if isLength then NoLength(ls[..|ls| - 1]) else Accounts(ls[..|ls| - 1], flag, n)
  }

  /** Pieces of a name and of a value. */
  lemma NameOpenGrows(g: Ledger, w: View, x: Text, flag: bool, n: nat)
    requires NameOpen(g, w, flag, n)
    ensures NameOpen(LedgerNext(g, Data(Field, x)), ViewNext(w, Data(Field, x)), flag, n)
  {
    hide Accounts, AddName;
    NameGrows(g.lines, w.name, x);
  }

  lemma ValueBegins(g: Ledger, w: View, x: Text, isLength: bool, flag: bool, n: nat, m: nat)
    requires NameOpen(g, w, flag, n) && (isLength ==> !flag)
    ensures isLength ==> ValueOpen(LedgerNext(g, Data(Value, x)), ViewNext(w, Data(Value, x)), true, true, m)
    ensures !isLength ==> ValueOpen(LedgerNext(g, Data(Value, x)), ViewNext(w, Data(Value, x)), false, flag, n)
  {
    hide Announce, NoLength, AddValue;
    NameGrows(g.lines, w.name, x);
  }

  lemma ValueOpenGrows(g: Ledger, w: View, x: Text, isLength: bool, flag: bool, n: nat)
    requires ValueOpen(g, w, isLength, flag, n)
    ensures ValueOpen(LedgerNext(g, Data(Value, x)), ViewNext(w, Data(Value, x)), isLength, flag, n)
  {
    hide Accounts, NoLength, AddValue;
    ValueGrows(g.lines, w.name, w.value, x);
  }

  /** The length a Content-Length value sets may change while the value is read. */
  lemma ValueLengthFree(g: Ledger, w: View, flag: bool, n: nat, m: nat)
    requires ValueOpen(g, w, true, flag, n)
    ensures ValueOpen(g, w, true, flag, m)
  {
    hide NoLength;
  }

  /** While a head is read, and in a body of known length, the struct and the lines agree. */
  predicate LedgerFits(s: Parser, w: View, g: Ledger) {
    var ls := g.lines;
    match s.state
    case Idle(_) => true
    case InName(_) => s.framing.flags.trailing || NameOpen(g, w, s.framing.flags.contentLength, s.framing.contentLength)
    case InValue(_) =>
      s.framing.flags.trailing ||
      ValueOpen(g, w, LengthHeader(s.matcher.header), s.framing.flags.contentLength, s.framing.contentLength)
    case HeadersDone => !g.open && g.body == 0 && Accounts(ls, s.framing.flags.contentLength, s.framing.contentLength)
    case BodyIdentity => !g.open && s.framing.flags.contentLength && Announce(ls, s.framing.contentLength + g.body)
    case InChunk(_) => true
    case BodyIdentityEof => true
    case MessageDone => true
    case _ => s.framing.flags.trailing || (g.open && g.body == 0 && Closed(ls) && Accounts(ls, s.framing.flags.contentLength, s.framing.contentLength))
  }

  predicate Keeps(a: Act, w: View, g: Ledger, ch: char) {
    Goes(a) ==> LedgerFits(a.s, ViewAfter(w, a, ch), LedgerAfter(g, a, ch))
  }

  /** States before the first header line. */
  predicate Early(s: State) {
    s.ResOrRespH? || s.InStatusLine? || s.ReqMethod? || s.InUrl? || s.InVersion? || s.HeaderFieldStart?
  }

  /** A visit that reports at most a piece of the URL or the status, and leaves the framing. */
  predicate IsEarly(s: Parser, a: Act) {
    && Early(a.s.state) && a.s.framing == s.framing && a.notice.None?
    && (a.take.Some? ==> a.take.value.Url? || a.take.value.Status?)
    && (a.close.Some? ==> a.close.value.Url? || a.close.value.Status?)
  }

  lemma LineIsEarly(s: Parser, ch: char)
    ensures s.state.ResOrRespH? ==> var a := VisitResOrRespH(s, ch); Goes(a) ==> IsEarly(s, a)
    ensures s.state.ReqMethod? ==> var a := VisitMethod(s, ch); Goes(a) ==> IsEarly(s, a)
    ensures s.state.InUrl? ==> var a := VisitUrl(s, s.state.url, ch); Goes(a) ==> IsEarly(s, a)
    ensures s.state.InVersion? ==> var a := VisitVersion(s, s.state.req, ch); Goes(a) ==> IsEarly(s, a)
  {
    hide Types.MethodText, UrlChars.ParseUrlChar;
  }

  lemma StatusIsEarly(s: Parser, ch: char)
    requires s.state.InStatusLine?
    ensures var a := VisitStatusLine(s, s.state.res, ch); Goes(a) ==> IsEarly(s, a)
  {
    match s.state.res
    case ResStatusStart => {}
    case ResStatus => {}
    case ResStatusCode => {}
    case _ => {}
  }

  lemma EarlyKeeps(s: Parser, a: Act, w: View, g: Ledger, ch: char)
    requires Early(s.state) && LedgerFits(s, w, g) && (Goes(a) ==> IsEarly(s, a))
    ensures Keeps(a, w, g, ch)
  {
    hide Accounts;
  }

  lemma IdleKeeps(s: Parser, w: View, g: Ledger, ch: char)
    requires s.state.Idle?
    ensures Keeps(VisitIdle(s, s.state.idle, ch), w, g, ch)
  {
    hide FirstVerb;
  }

  lemma FieldStartKeeps(s: Parser, w: View, g: Ledger, ch: char)
    requires s.state.HeaderFieldStart? && LedgerFits(s, w, g) && TextFits(s, w)
    ensures Keeps(VisitFieldStart(s, ch), w, g, ch)
  {
    hide Token, FirstNameState, Accounts, AddName;
    if Closed(g.lines) { NewName(g.lines, [ch]); }
  }

  lemma NewName(ls: seq<Entry>, x: Text)
    requires Closed(ls)
    ensures var m := AddName(ls, x); m != [] && m[|m| - 1] == Entry(x, None) && m[..|m| - 1] == ls
  {
    assert (ls + [Entry(x, None)])[..|ls|] == ls;
  }

  lemma AlmostDoneKeeps(s: Parser, w: View, g: Ledger, ch: char)
    requires s.state.HeadersAlmostDone? && LedgerFits(s, w, g)
    ensures Keeps(VisitHeadersAlmostDone(s, ch), w, g, ch)
  {
    hide Accounts;
  }

  lemma HeadersDoneKeeps(s: Parser, w: View, g: Ledger, ch: char)
    requires s.state.HeadersDone? && LedgerFits(s, w, g) && LengthMatchesFlag(s.framing) && !s.framing.flags.trailing && s.framing.contentLength <= U64_MAX
    ensures Keeps(VisitHeadersDone(s, ch), w, g, ch)
  {
    hide NewMessage, Announce, NoLength, NeedsEof;
  }

  lemma IdentityKeeps(s: Parser, w: View, g: Ledger, ch: char)
    requires s.state.BodyIdentity? && LedgerFits(s, w, g)
    ensures Keeps(VisitBody(s), w, g, ch)
  {
    hide Announce;
  }

  lemma OtherBodyKeeps(s: Parser, w: View, g: Ledger, ch: char)
    ensures s.state.InChunk? ==> Keeps(VisitChunk(s, s.state.chunk, ch), w, g, ch)
    ensures s.state.MessageDone? ==> Keeps(VisitMessageDone(s), w, g, ch)
    ensures s.state.BodyIdentityEof? ==> Keeps(Begin(s, Body), w, g, ch)
  {
    hide NewMessage, Accounts, Unhex, LedgerAfter, ViewAfter;
  }

  lemma MidHeadersDone(s: Parser)
    requires Mid(s) && s.state.HeadersDone?
    ensures LengthMatchesFlag(s.framing) && !s.framing.flags.trailing && s.framing.contentLength <= U64_MAX
  {
    hide Types.MethodText;
  }

  // Names and values.

  lemma FieldKeeps(s: Parser, w: View, g: Ledger, ch: char)
    requires s.state == InName(HeaderField) && LedgerFits(s, w, g)
    ensures Keeps(VisitField(s, ch), w, g, ch)
  {
    var flag, n := s.framing.flags.contentLength, s.framing.contentLength;
    if !s.framing.flags.trailing {
      NameOpenGrows(g, w, [ch], flag, n);
      NameOpenGrows(g, w, [], flag, n);
    }
    hide Token, NameByte, NameOpen, LedgerNext, ViewNext;
    if Token(ch) == NUL {
    } else {
    }
  }

  lemma NameGrows(ls: seq<Entry>, name: Text, x: Text)
    requires ls != [] && ls[|ls| - 1] == Entry(name, None)
    ensures var m := AddName(ls, x); |m| == |ls| && m[|m| - 1] == Entry(name + x, None) && m[..|m| - 1] == ls[..|ls| - 1]
    ensures var m := AddValue(ls, x); |m| == |ls| && m[|m| - 1] == Entry(name, Some(x)) && m[..|m| - 1] == ls[..|ls| - 1]
  {
  }

  lemma ValueGrows(ls: seq<Entry>, name: Text, v: Text, x: Text)
    requires ls != [] && ls[|ls| - 1] == Entry(name, Some(v))
    ensures var m := AddValue(ls, x); |m| == |ls| && m[|m| - 1] == Entry(name, Some(v + x)) && m[..|m| - 1] == ls[..|ls| - 1]
  {
  }

  /** A complete line that is not a Content-Length line changes nothing. */
  lemma OtherLine(ls: seq<Entry>, flag: bool, n: nat)
    requires ls != [] && Accounts(ls[..|ls| - 1], flag, n) && !IsName(ls[|ls| - 1].name, ContentLength)
    ensures Accounts(ls, flag, n)
  {
    hide IsName, IsLength;
    var init := ls[..|ls| - 1];
    if flag {
      var i :| 0 <= i < |init| && Says(init[i], n);
      assert Says(ls[i], n);
      forall k | 0 <= k < |ls| && IsName(ls[k].name, ContentLength) ensures Says(ls[k], n) { assert k < |init| && ls[k] == init[k]; }
    } else {
      forall k | 0 <= k < |ls| ensures !IsName(ls[k].name, ContentLength) { if k < |init| { assert ls[k] == init[k]; } }
    }
  }

  /** The first Content-Length line announces its length. */
  lemma LengthLineSays(ls: seq<Entry>, n: nat)
    requires ls != [] && NoLength(ls[..|ls| - 1]) && Says(ls[|ls| - 1], n)
    ensures Announce(ls, n)
  {
    hide IsName, IsLength;
    var init := ls[..|ls| - 1];
    assert forall k :: 0 <= k < |init| ==> ls[k] == init[k];
  }

  /** What the first byte of a value does to flag and length. */
  lemma ValueStartLength(h: HeaderState, f: Framing, ch: char)
    ensures var r := ValueStart(h, f, ch);
            r.Head? ==>
              && r.f.flags.trailing == f.flags.trailing
              && (LengthHeader(r.m.header) ==> (h == Matched(ContentLength) && !f.flags.contentLength) || h.LengthWs?)
              && (h != Matched(ContentLength) ==> r.f.flags.contentLength == f.flags.contentLength && r.f.contentLength == f.contentLength)
              && (h == Matched(ContentLength) ==> LengthHeader(r.m.header)) && (h.LengthWs? ==> LengthHeader(r.m.header))
  {
    match h
    case Matched(n) => match n { case Upgrade => case ContentLength => case TransferEncoding => case _ => }
    case _ =>
  }

  /** The first byte of a value. */
  lemma FirstValueKeeps(s: Parser, w: View, g: Ledger, ch: char)
    requires s.state == InName(HeaderValueDiscardWs) && LedgerFits(s, w, g) && NameHeader(s.matcher.header)
    ensures Keeps(VisitValueStart(s, ch), w, g, ch)
  {
    ValueStartLength(s.matcher.header, s.framing, ch);
    var r := ValueStart(s.matcher.header, s.framing, ch);
    if !s.framing.flags.trailing && r.Head? {
      ValueStartSets(s.matcher.header, s.framing, ch);
      ValueBegins(g, w, [ch], LengthHeader(r.m.header), s.framing.flags.contentLength, s.framing.contentLength, r.f.contentLength);
    }
    hide ValueStart, NameOpen, ValueOpen, LedgerNext, ViewNext;
  }

  lemma ValueStartSets(h: HeaderState, f: Framing, ch: char)
    ensures var r := ValueStart(h, f, ch); r.Head? && h == Matched(ContentLength) ==> r.f.flags.contentLength
  {
    hide Lower;
  }

  lemma NameSetsNoFlag(h: HeaderState, flags: Flags)
    requires NameHeader(h)
    ensures LineFlags(h, flags) == flags
  {
  }

  /** A line without a value. */
  lemma EmptyValueKeeps(s: Parser, w: View, g: Ledger, ch: char)
    requires s.state == InName(HeaderValueDiscardLws) && LedgerFits(s, w, g) && TextFits(s, w)
    requires NameHeader(s.matcher.header)
    ensures Keeps(VisitName(s, s.state.name, ch), w, g, ch)
  {
    NameSetsNoFlag(s.matcher.header, s.framing.flags);
    if !s.framing.flags.trailing && s.matcher.header != Matched(ContentLength) { EmptyLine(s, w, g); }
    hide Accounts, NameOpen, NameFits, LineFlags, VisitField, VisitValueStart, AddValue, ViewNext;
  }

  lemma EmptyLine(s: Parser, w: View, g: Ledger)
    requires s.state == InName(HeaderValueDiscardLws) && TextFits(s, w) && s.matcher.header != Matched(ContentLength)
    requires NameOpen(g, w, s.framing.flags.contentLength, s.framing.contentLength)
    ensures var z := LedgerNext(g, Data(Value, []));
            z.open && z.body == 0 && Closed(z.lines) && Accounts(z.lines, s.framing.flags.contentLength, s.framing.contentLength)
  {
    NameRecognised(s.matcher, w.name);
    hide Announce, NoLength, NameFits, IsName, FoldAll, IsConnection;
    NameGrows(g.lines, w.name, []);
    OtherLine(AddValue(g.lines, []), s.framing.flags.contentLength, s.framing.contentLength);
  }

  lemma NameKeeps(s: Parser, w: View, g: Ledger, ch: char)
    requires s.state.InName? && LedgerFits(s, w, g) && TextFits(s, w) && NameHeader(s.matcher.header)
    ensures Keeps(VisitName(s, s.state.name, ch), w, g, ch)
  {
    hide Keeps, VisitField, VisitValueStart, NameFits;
    match s.state.name
    case HeaderField => FieldKeeps(s, w, g, ch);
    case HeaderValueDiscardWs => BlankKeeps(s, w, g, ch); FirstValueKeeps(s, w, g, ch);
    case HeaderValueDiscardWsAlmostDone => BlankKeeps(s, w, g, ch);
    case HeaderValueDiscardLws => EmptyValueKeeps(s, w, g, ch);
  }

  lemma BlankKeeps(s: Parser, w: View, g: Ledger, ch: char)
    requires s.state.InName? && LedgerFits(s, w, g)
    ensures s.state.name.HeaderValueDiscardWsAlmostDone? ==> Keeps(VisitName(s, s.state.name, ch), w, g, ch)
    ensures s.state.name.HeaderValueDiscardWs? && (ch == ' ' || ch == TAB || ch == CR || ch == LF) ==> Keeps(VisitName(s, s.state.name, ch), w, g, ch)
  {
    hide Accounts, VisitValueStart;
  }

  /** What a later byte of a value does to flag and length. */
  lemma ValueByteLength(m: Matcher, f: Framing, ch: char)
    requires ValueHeader(m.header)
    ensures var r := ValueByte(m, f, ch);
            r.Head? ==>
              && r.f.flags.trailing == f.flags.trailing && (LengthHeader(r.m.header) <==> LengthHeader(m.header))
              && (!LengthHeader(m.header) ==> r.f.flags.contentLength == f.flags.contentLength && r.f.contentLength == f.contentLength)
  {
    hide Token, Lower;
    match m.header
    case General => {}
    case LengthNum => {}
    case LengthWs => {}
    case OptionMatched(o) => match o { case KeepAliveOption => {} case CloseOption => {} case UpgradeOption => {} }
    case _ => {}
  }

  lemma ValueTakes(s: Parser, w: View, g: Ledger, ch: char)
    requires s.state == InValue(HeaderValue) && LedgerFits(s, w, g) && ValueHeader(s.matcher.header)
    ensures Keeps(TakeValue(s, ValueByte(s.matcher, s.framing, ch), false), w, g, ch)
  {
    ValueByteLength(s.matcher, s.framing, ch);
    if LengthHeader(s.matcher.header) { ValueByteFlag(s.matcher, s.framing, ch); }
    if !s.framing.flags.trailing { MoreValue(g, w, ch, LengthHeader(s.matcher.header), s.framing.flags.contentLength, s.framing.contentLength); }
    hide ValueByte, ValueOpen, LedgerNext, ViewNext, ValueHeader;
  }

  lemma ValueStops(s: Parser, a: Act, w: View, g: Ledger, ch: char)
    requires s.state.InValue? && LedgerFits(s, w, g)
    requires a.s == s.(state := InValue(HeaderAlmostDone)) && a.take.None? && a.close == Some(Value) && a.notice.None?
    ensures Keeps(a, w, g, ch)
  {
    if !s.framing.flags.trailing { ValueOpenGrows(g, w, [], LengthHeader(s.matcher.header), s.framing.flags.contentLength, s.framing.contentLength); }
    hide ValueOpen, LedgerNext, ViewNext;
  }

  /** One more byte, or the end, of a value. */
  lemma NextValueKeeps(s: Parser, w: View, g: Ledger, ch: char)
    requires s.state == InValue(HeaderValue) && LedgerFits(s, w, g) && ValueHeader(s.matcher.header)
    ensures Keeps(VisitValue(s, s.state.value, ch), w, g, ch)
  {
    var a := VisitValue(s, s.state.value, ch);
    if ch == CR || ch == LF {
      hide LedgerFits, Keeps;
      ValueStops(s, a, w, g, ch);
    } else {
      ValueTakes(s, w, g, ch);
      hide LedgerFits, TakeValue, IsHeaderChar, ValueByte, LedgerAfter, ViewAfter;
    }
  }

  lemma MoreValue(g: Ledger, w: View, ch: char, isLength: bool, flag: bool, n: nat)
    requires ValueOpen(g, w, isLength, flag, n)
    ensures ValueOpen(LedgerNext(g, Data(Value, [])), ViewNext(w, Data(Value, [])), isLength, flag, n)
    ensures forall m: nat :: (isLength || m == n) ==> ValueOpen(LedgerNext(g, Data(Value, [ch])), ViewNext(w, Data(Value, [ch])), isLength, flag, m)
  {
    ValueOpenGrows(g, w, [ch], isLength, flag, n);
    ValueOpenGrows(g, w, [], isLength, flag, n);
    hide LedgerNext, ViewNext;
    if isLength {
      forall m: nat ensures ValueOpen(LedgerNext(g, Data(Value, [ch])), ViewNext(w, Data(Value, [ch])), isLength, flag, m) {
        ValueLengthFree(LedgerNext(g, Data(Value, [ch])), ViewNext(w, Data(Value, [ch])), flag, n, m);
      }
    }
  }

  lemma ValueByteFlag(m: Matcher, f: Framing, ch: char)
    requires LengthHeader(m.header)
    ensures var r := ValueByte(m, f, ch); r.Head? ==> r.f.flags == f.flags
  {
  }

  lemma FoldedValueKeeps(s: Parser, w: View, g: Ledger, ch: char)
    requires s.state == InValue(HeaderValueStart) && LedgerFits(s, w, g) && TextFitsAt(s, w, ch) && ValueHeader(s.matcher.header)
    ensures Keeps(VisitValue(s, s.state.value, ch), w, g, ch)
  {
    ValueStartLength(s.matcher.header, s.framing, ch);
    if !s.framing.flags.trailing { ValueOpenGrows(g, w, [ch], LengthHeader(s.matcher.header), s.framing.flags.contentLength, s.framing.contentLength); }
    hide ValueStart, ValueOpen, LedgerNext, ViewNext;
  }

  /** A value that is complete says what its matcher stands for. */
  lemma ValueSays(m: Matcher, f: Framing, name: Text, v: Text, lenient: bool)
    requires ValueFits(m, f.contentLength, name, v, lenient)
    ensures if LengthHeader(m.header) then Says(Entry(name, Some(v)), f.contentLength) else !IsName(name, ContentLength)
  {
    LengthIsApart(name);
    hide Element, Decimal, LastElementIs, IsName, IsConnection, FoldAll;
  }

  lemma LineEndKeeps(s: Parser, w: View, g: Ledger, ch: char)
    requires s.state.InValue? && !s.state.value.HeaderValue? && !s.state.value.HeaderValueStart?
    requires LedgerFits(s, w, g) && TextFits(s, w) && (LengthHeader(s.matcher.header) ==> s.framing.flags.contentLength)
    ensures Keeps(VisitValue(s, s.state.value, ch), w, g, ch)
  {
    LineKeepsLength(s.matcher.header, s.framing.flags);
    if !s.framing.flags.trailing { LineCloses(s, w, g); }
    hide Accounts, LineFlags, ValueFits;
  }

  lemma LineCloses(s: Parser, w: View, g: Ledger)
    requires s.state.InValue? && TextFits(s, w) && (LengthHeader(s.matcher.header) ==> s.framing.flags.contentLength)
    requires ValueOpen(g, w, LengthHeader(s.matcher.header), s.framing.flags.contentLength, s.framing.contentLength)
    ensures Closed(g.lines) && Accounts(g.lines, s.framing.flags.contentLength, s.framing.contentLength)
  {
    ValueSays(s.matcher, s.framing, w.name, w.value, s.config.lenient);
    hide ValueFits, Says, IsName;
    if LengthHeader(s.matcher.header) {
      LengthLineSays(g.lines, s.framing.contentLength);
    } else {
      OtherLine(g.lines, s.framing.flags.contentLength, s.framing.contentLength);
    }
  }

  lemma LineKeepsLength(h: HeaderState, flags: Flags)
    ensures var f := LineFlags(h, flags); f.contentLength == flags.contentLength && f.trailing == flags.trailing
  {
    match h
    case OptionMatched(o) => OptionKeepsLength(o, flags);
    case CodingChunked => assert LineFlags(h, flags) == flags.(chunked := true);
    case _ => assert LineFlags(h, flags) == flags;
  }

  lemma OptionKeepsLength(o: ConnectionOption, flags: Flags)
    ensures var f := LineFlags(OptionMatched(o), flags); f.contentLength == flags.contentLength && f.trailing == flags.trailing
  {
    match o
    case KeepAliveOption => {}
    case CloseOption => {}
    case UpgradeOption => {}
  }

  lemma ValueKeeps(s: Parser, w: View, g: Ledger, ch: char)
    requires s.state.InValue? && LedgerFits(s, w, g) && TextFitsAt(s, w, ch) && HeadOk(s.matcher, s.framing)
    ensures Keeps(VisitValue(s, s.state.value, ch), w, g, ch)
  {
    hide Keeps, VisitValue, ValueFits, LedgerFits, FlagsOk, LengthMatchesFlag;
    match s.state.value
    case HeaderValueStart => FoldedValueKeeps(s, w, g, ch);
    case HeaderValue => NextValueKeeps(s, w, g, ch);
    case _ => LineEndKeeps(s, w, g, ch);
  }

  lemma MidName(s: Parser)
    requires Mid(s)
    ensures s.state.InName? ==> NameHeader(s.matcher.header)
    ensures s.state.InValue? ==> HeadOk(s.matcher, s.framing)
  {
    hide Types.MethodText, HeadOk, FlagsOk, LengthMatchesFlag, HeaderOk;
  }

  /** Every visit keeps the struct and the reported lines in agreement about the length. */
  lemma VisitLedger(s: Parser, w: View, g: Ledger, ch: char)
    requires Mid(s) && TextFitsAt(s, w, ch) && LedgerFits(s, w, g)
    ensures Keeps(Visit(s, ch), w, g, ch)
  {
    hide Keeps, Mid, TextFitsAt, TextFits, IsEarly, HeadOk;
    assert TextFits(s, w) by { TextIs(s, w, ch); }
    MidName(s);
    match s.state
    case Idle(_) => IdleKeeps(s, w, g, ch);
    case InStatusLine(_) => StatusIsEarly(s, ch); EarlyKeeps(s, Visit(s, ch), w, g, ch);
    case HeaderFieldStart => FieldStartKeeps(s, w, g, ch);
    case InName(_) => NameKeeps(s, w, g, ch);
    case InValue(_) => ValueKeeps(s, w, g, ch);
    case HeadersAlmostDone => AlmostDoneKeeps(s, w, g, ch);
    case HeadersDone => MidHeadersDone(s); HeadersDoneKeeps(s, w, g, ch);
    case BodyIdentity => IdentityKeeps(s, w, g, ch);
    case InChunk(_) => OtherBodyKeeps(s, w, g, ch);
    case MessageDone => OtherBodyKeeps(s, w, g, ch);
    case BodyIdentityEof => OtherBodyKeeps(s, w, g, ch);
    case _ => LineIsEarly(s, ch); EarlyKeeps(s, Visit(s, ch), w, g, ch);
  }

  lemma TextIs(s: Parser, w: View, ch: char)
    requires TextFitsAt(s, w, ch)
    ensures TextFits(s, w)
  {
  }
}
