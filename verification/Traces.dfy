/** Invariants that tie the struct to the trace, over every run: the order of callbacks,
    and what the parser knows about the header lines reported. */
module Traces {
  import opened Bytes
  import opened Types
  import opened HeaderWords
  import opened Table
  import opened Runs
  import opened Invariants
  import opened Shape
  import opened Grammar
  import opened HeaderText
  import opened Views
  import opened Ledgers

  /** Between messages the state is the one that the last message left. */
  predicate IdleFits(s: Parser, t: Trace) {
    s.state.Idle? && t != [] ==> s.state == NewMessage(s)
  }

  lemma HeaderIsBusy(s: Parser, ch: char)
    ensures s.state.HeaderFieldStart? ==> var a := VisitFieldStart(s, ch); Goes(a) ==> !a.s.state.Idle?
    ensures s.state.InName? ==> var a := VisitName(s, s.state.name, ch); Goes(a) ==> !a.s.state.Idle?
    ensures s.state.InValue? ==> var a := VisitValue(s, s.state.value, ch); Goes(a) ==> !a.s.state.Idle?
  {
    hide Token, NameByte, ValueStart, ValueByte, LineFlags, IsHeaderChar;
  }

  lemma BodyIsBusy(s: Parser, ch: char)
    ensures s.state.HeadersAlmostDone? ==> var a := VisitHeadersAlmostDone(s, ch); Goes(a) ==> !a.s.state.Idle?
    ensures s.state.InChunk? ==> var a := VisitChunk(s, s.state.chunk, ch); Goes(a) ==> !a.s.state.Idle?
    ensures s.state.BodyIdentity? ==> var a := VisitBody(s); Goes(a) ==> !a.s.state.Idle?
  {
    hide Unhex;
  }

  lemma IdleVisitFits(s: Parser, t: Trace, ch: char)
    requires s.state.Idle? && IdleFits(s, t)
    ensures var a := VisitIdle(s, s.state.idle, ch); Goes(a) ==> IdleFits(a.s, Report(t, a, ch))
  {
    hide FirstVerb, IsAlpha;
  }

  lemma EndVisitFits(s: Parser, t: Trace, ch: char)
    ensures s.state.HeadersDone? ==> var a := VisitHeadersDone(s, ch); Goes(a) ==> IdleFits(a.s, t)
    ensures s.state.MessageDone? ==> IdleFits(VisitMessageDone(s).s, t)
  {
    SameNext(s);
    hide NewMessage;
  }

  /** The next state depends on what the head said and on nothing else. */
  lemma SameNext(s: Parser)
    ensures forall z: Parser :: z.line == s.line && z.framing == s.framing ==> NewMessage(z) == NewMessage(s)
  {
  }

  lemma VisitIdleFits(s: Parser, t: Trace, ch: char)
    requires IdleFits(s, t)
    ensures var a := Visit(s, ch); Goes(a) ==> IdleFits(a.s, Report(t, a, ch))
  {
    hide NewMessage, Report, IsEarly, Early;
    match s.state
    case Idle(_) => IdleVisitFits(s, t, ch);
    case InStatusLine(_) => StatusIsEarly(s, ch); EarlyIsBusy(s, Visit(s, ch));
    case HeaderFieldStart => HeaderIsBusy(s, ch);
    case InName(_) => HeaderIsBusy(s, ch);
    case InValue(_) => HeaderIsBusy(s, ch);
    case HeadersDone => EndVisitFits(s, Report(t, Visit(s, ch), ch), ch);
    case MessageDone => EndVisitFits(s, Report(t, Visit(s, ch), ch), ch);
    case HeadersAlmostDone => BodyIsBusy(s, ch);
    case InChunk(_) => BodyIsBusy(s, ch);
    case BodyIdentity => BodyIsBusy(s, ch);
    case BodyIdentityEof =>
    case _ => LineIsEarly(s, ch); EarlyIsBusy(s, Visit(s, ch));
  }

  lemma EarlyIsBusy(s: Parser, a: Act)
    requires Goes(a) ==> IsEarly(s, a)
    ensures Goes(a) ==> !a.s.state.Idle?
  {
  }

  /** The invariant of struct and trace between bytes. */
  ghost predicate TraceOk(s: Parser, t: Trace) {
    && Good(s)
    && Phases(t).Some? && PhaseFits(s, Phases(t).value)
    && TextFits(s, ViewOf(t)) && s.state != InValue(HeaderValueStart)
    && LedgerFits(s, ViewOf(t), LedgerOf(t)) && IdleFits(s, t)
  }

  lemma TraceParts(s: Parser, t: Trace)
    requires TraceOk(s, t)
    ensures Good(s) && Phases(t).Some? && PhaseFits(s, Phases(t).value) && TextFits(s, ViewOf(t)) && s.state != InValue(HeaderValueStart)
    ensures LedgerFits(s, ViewOf(t), LedgerOf(t)) && IdleFits(s, t)
  {
    hide Good, Phases, PhaseFits, TextFits, LedgerFits, IdleFits, ViewOf, LedgerOf;
  }

  /** The same between the visits of a byte. */
  ghost predicate TraceOkAt(s: Parser, t: Trace, ch: char) {
    && Mid(s)
    && Phases(t).Some? && PhaseFits(s, Phases(t).value)
    && TextFitsAt(s, ViewOf(t), ch)
    && LedgerFits(s, ViewOf(t), LedgerOf(t)) && IdleFits(s, t)
  }

  lemma {:induction false} ByteTrace(s: Parser, t: Trace, ch: char)
    requires TraceOkAt(s, t, ch)
    ensures var r := Byte(s, t, ch); r.next.Advance? || r.next.Exit? ==> TraceOk(r.s, r.t)
    decreases Rank(s.state)
  {
    hide Table.Visit, Phases, PhaseFits, ViewOf, ViewAfter, PhasesAfter, TextFits, Mid, Good, Runs.Report, LedgerOf, LedgerAfter, LedgerFits, IdleFits;
    var a := Visit(s, ch);
    VisitKeeps(s, ch);
    VisitPhase(s, Phases(t).value, ch);
    PhasesReport(t, a, ch);
    VisitText(s, ViewOf(t), ch);
    ViewReport(t, a, ch);
    VisitLedger(s, ViewOf(t), LedgerOf(t), ch);
    LedgerReport(t, a, ch);
    VisitIdleFits(s, t, ch);
    if a.next.Again? { ByteTrace(a.s, Report(t, a, ch), ch); }
  }

  lemma CountedTrace(s: Parser, t: Trace, ch: char)
    requires TraceOk(s, t) && !Overflows(s)
    ensures TraceOkAt(Counted(s), t, ch)
  {
    CountedGood(s);
    hide Good, Mid, Phases, ViewOf, NameFits, ValueFits;
  }

  /** Every run keeps the invariant of struct and trace. */
  lemma {:induction false} RunTrace(s: Parser, t: Trace, data: Text)
    requires TraceOk(s, t)
    ensures var r := Run(s, t, data); r.why.Advance? || r.why.Exit? ==> TraceOk(r.s, r.t)
    decreases |data|
  {
    hide Table.Visit, Runs.Byte, TraceOk, TraceOkAt;
    if data != [] && !Overflows(s) {
      CountedTrace(s, t, data[0]);
      ByteTrace(Counted(s), t, data[0]);
      var p := Byte(Counted(s), t, data[0]);
      if p.next.Advance? { RunTrace(p.s, p.t, data[1..]); }
    }
  }

  /** A struct and the joined trace of everything reported since http_parser_init. */
  datatype Spot = Spot(s: Parser, t: Trace)

  /** Any number of calls, each from where the last one left the struct. A call may end
      early because of an upgrade; None is a call that failed. */
  function Calls(at: Spot, bufs: seq<Text>): Option<Spot>
    decreases |bufs|
  {
    if bufs == [] then Some(at)
    else
      var r := Run(at.s, at.t, bufs[0]);
      if r.why.Advance? || r.why.Exit? then Calls(Spot(r.s, r.t), bufs[1..]) else None
  }

  /** What calls from http_parser_init can lead to. */
  ghost predicate Reachable(at: Spot) {
    exists kind, config, bufs :: Calls(Spot(Init(kind, config), []), bufs) == Some(at)
  }

  lemma {:induction false} CallsTrace(at: Spot, bufs: seq<Text>)
    requires TraceOk(at.s, at.t)
    ensures var r := Calls(at, bufs); r.Some? ==> TraceOk(r.value.s, r.value.t)
    decreases |bufs|
  {
    hide Runs.Run, TraceOk;
    if bufs != [] {
      RunTrace(at.s, at.t, bufs[0]);
      var r := Run(at.s, at.t, bufs[0]);
      if r.why.Advance? || r.why.Exit? { CallsTrace(Spot(r.s, r.t), bufs[1..]); }
    }
  }

  lemma ReachableOk(at: Spot)
    requires Reachable(at)
    ensures TraceOk(at.s, at.t)
  {
    var kind, config, bufs :| Calls(Spot(Init(kind, config), []), bufs) == Some(at);
    InitTrace(kind, config);
    hide Runs.Run, TraceOk;
    CallsTrace(Spot(Init(kind, config), []), bufs);
  }

  lemma InitReachable(kind: Kind, config: Config)
    ensures Reachable(Spot(Init(kind, config), []))
  {
    hide Runs.Run;
    assert Calls(Spot(Init(kind, config), []), []) == Some(Spot(Init(kind, config), []));
  }

  lemma InitTrace(kind: Kind, config: Config)
    ensures TraceOk(Init(kind, config), [])
  {
    InitGood(kind, config);
  }
}
