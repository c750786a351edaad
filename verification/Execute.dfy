/** http_parser_execute as it is written: marks that are re-armed at entry and flushed
    at exit, REEXECUTE() jumps, and the states that consume many bytes at once.
    It is proved to do what Runs.Run does one byte at a time. */
module Execute {
  import opened Bytes
  import opened Types
  import opened HeaderWords
  import opened Table
  import opened Runs
  import opened Invariants
  import opened Shape
  import opened Scans
  import opened Bodies

  type Marks = map<Part, nat>

  /** The variables of the loop: the struct with the locals `p_state` and `nread`, the
      callbacks made, the marks that are set, and `p`. */
  datatype Loop = Loop(s: Parser, log: seq<Event>, marks: Marks, p: nat)

  /** The only mark that can be set in a state. */
  function MarkPart(s: State): Part {
    if OpenPart(s).Some? then OpenPart(s).value else Body
  }

  /** At most one mark is set, and it is the one of the state. */
  predicate MarksFit(x: Loop, atEnd: bool) {
    var k := MarkPart(x.s.state);
    && (forall j :: j in x.marks ==> j == k)
    && (OpenPart(x.s.state).Some? ==> k in x.marks)
    && (k in x.marks ==> x.marks[k] <= x.p && (atEnd ==> x.marks[k] < x.p))
    && (Body in x.marks ==> x.marks[Body] < x.p && BodyMayCome(x.s.state) && (atEnd || x.s.state == InChunk(ChunkDataAlmostDone)))
  }

  /** The trace is the callbacks made, and the span since the mark. */
  ghost predicate Owed(t: Trace, x: Loop, data: Text)
    requires x.p <= |data|
  {
    var k := MarkPart(x.s.state);
    t == if k in x.marks && x.marks[k] <= x.p then Span(Joined(x.log), k, data, x.marks[k], x.p) else Joined(x.log)
  }

  predicate IsBody(e: Event) {
    e.Data? && e.part.Body?
  }

  /** The body callbacks made since `lo` are not empty and no two are adjacent. */
  predicate Apart(log: seq<Event>, lo: nat) {
    && lo <= |log|
    && (forall i :: lo <= i < |log| && IsBody(log[i]) ==> log[i].text != [])
    && (forall i :: lo < i < |log| && IsBody(log[i]) ==> !IsBody(log[i - 1]))
  }

  predicate BodyFits(x: Loop, lo: nat) {
    && Apart(x.log, lo)
    && (BodyMayCome(x.s.state) && lo < |x.log| ==> !IsBody(x.log[|x.log| - 1]))
  }

  /** Between two bytes: what is left to do is to run over the rest. */
  ghost predicate AtHead(x: Loop, t: Trace, data: Text, lo: nat, goal: Fate) {
    && x.p <= |data| && Good(x.s) && MarksFit(x, x.p == |data|) && Owed(t, x, data) && BodyFits(x, lo)
    && goal == Fated(x.s, t, data[x.p..], NOT_BEGUN)
  }

  /** Between two visits for byte `p`, after it was counted. */
  ghost predicate AtByte(x: Loop, t: Trace, data: Text, lo: nat, goal: Fate) {
    && x.p < |data| && Mid(x.s) && MarksFit(x, false) && Owed(t, x, data) && BodyFits(x, lo)
    && (Bulk(x.s.state) && ParsingHeader(x.s.state) ==> 0 < x.s.nread)
    && goal == FatedOn(x.s, Byte(x.s, t, data[x.p]), data[x.p..], NOT_BEGUN)
  }

  /** The trace `t` is `u` with at most one more piece of a data callback: the one for which a mark is set. */
  ghost predicate IsBehind(u: Trace, t: Trace) {
    t == u || exists k, x :: t == Add(u, Data(k, x))
  }

  lemma OwedIsBehind(t: Trace, x: Loop, data: Text)
    requires x.p <= |data| && Owed(t, x, data)
    ensures IsBehind(Joined(x.log), t)
  {
    SpanIsBehind(Joined(x.log), MarkPart(x.s.state), data);
  }

  lemma SpanIsBehind(u: Trace, k: Part, data: Text)
    ensures forall m: nat, p: nat :: m <= p <= |data| ==> IsBehind(u, Span(u, k, data, m, p))
  {
  }

  /** How a call fails whose byte-wise run exceeds the header size. Where no scan holds the byte that is too much the
      call stops there. Otherwise it stops where the scan does, with the error met there. */
  ghost predicate Overran(goal: Fate, data: Text, log: seq<Event>, n: nat, why: Control) {
    var k := |data| - |goal.stop.rest|;
    && 0 <= k < |data|
    && if goal.scan.taken == 0 then why == Fail(HEADER_OVERFLOW) && n == k && IsBehind(Joined(log), goal.stop.t)
       else
         var h := HaltOf(goal.stop.s, data, k, goal.scan.lap);
         && IsScanned(goal.stop.s.state) && why == Fail(h.errno) && n == h.at
         && if h.reported then Joined(log) == Add(goal.stop.t, Data(Value, data[k..n])) else IsBehind(Joined(log), goal.stop.t)
  }

  /** How a call fails: exactly when the byte-wise run does, at the same byte and with the same error unless the header
      size is exceeded. */
  ghost predicate Fails(goal: Fate, data: Text, log: seq<Event>, n: nat, why: Control) {
    && goal.stop.why.Fail?
    && if goal.stop.why == Fail(HEADER_OVERFLOW) then Overran(goal, data, log, n, why)
       else goal.stop.why == why && |goal.stop.rest| == |data| - n && IsBehind(Joined(log), goal.stop.t)
  }

  /** How the visits for a byte may end. */
  ghost predicate Done(y: Loop, t: Trace, why: Control, data: Text, lo: nat, goal: Fate) {
    match why
    case Advance => AtHead(y.(p := y.p + 1), t, data, lo, goal)
    case Again => AtByte(y, t, data, lo, goal)
    case Exit =>
      && y.p < |data| && Good(y.s) && t == Joined(y.log) && Apart(y.log, lo)
      && goal.stop == Stop(y.s, t, data[y.p + 1..], Exit)
    case Fail(e) => y.p < |data| && Apart(y.log, lo) && Fails(goal, data, y.log, y.p, why)
    case Crash => false
  }

  /** MARK, CALLBACK_DATA and CALLBACK_NOTIFY as one visit uses them. */
  function Called(x: Loop, a: Act, data: Text): Loop
    requires x.p <= |data| && MarksFit(x, x.p == |data|)
  {
    var marks := if a.open.Some? && a.open.value !in x.marks then x.marks[a.open.value := x.p] else x.marks;
    var flush := a.close.Some? && a.close.value in marks;
    var log := if flush then x.log + [Data(a.close.value, data[marks[a.close.value]..x.p])] else x.log;
    Loop(a.s,
         if a.notice.Some? then log + [Note(a.notice.value)] else log,
         if flush then marks - {a.close.value} else marks,
         x.p)
  }

  lemma JoinedSnoc(log: seq<Event>, e: Event)
    ensures Joined(log + [e]) == Add(Joined(log), e)
  {
    assert (log + [e])[..|log|] == log;
  }

  /** What Called has to keep. */
  ghost predicate Fits(x: Loop, a: Act, t: Trace, data: Text, lo: nat)
    requires x.p < |data| && MarksFit(x, false)
  {
    var y := Called(x, a, data);
    var t' := Report(t, a, data[x.p]);
    && BodyFits(y, lo)
    && (a.next.Advance? ==> MarksFit(y.(p := x.p + 1), x.p + 1 == |data|) && Owed(t', y.(p := x.p + 1), data))
    && (a.next.Again? ==> MarksFit(y, false) && Owed(t', y, data))
    && (a.next.Exit? ==> t' == Joined(y.log))
  }

  /** A span of one callback, once it is not empty. */
  function Span(j: Trace, k: Part, data: Text, m: nat, p: nat): Trace
    requires m <= p <= |data|
  {
    if m < p then Add(j, Data(k, data[m..p])) else j
  }

  lemma SpanGrows(j: Trace, k: Part, data: Text, m: nat, p: nat)
    requires m <= p < |data|
    ensures Add(Span(j, k, data, m, p), Data(k, [data[p]])) == Span(j, k, data, m, p + 1)
  {
    assert data[m..p + 1] == data[m..p] + [data[p]];
    AddPieces(j, k, data[m..p], [data[p]]);
    if m == p { assert data[m..p + 1] == [data[p]]; }
  }

  lemma SpanCloses(j: Trace, k: Part, data: Text, m: nat, p: nat)
    requires m <= p <= |data|
    ensures Add(Span(j, k, data, m, p), Data(k, [])) == Add(j, Data(k, data[m..p]))
  {
    AddPieces(j, k, data[m..p], []);
    assert data[m..p] + [] == data[m..p];
    if m == p { assert data[m..p] == []; }
  }

  lemma TakeFits(x: Loop, a: Act, t: Trace, data: Text, lo: nat)
    requires x.p < |data| && MarksFit(x, false) && Owed(t, x, data) && BodyFits(x, lo)
    requires Shaped(x.s.state, a) && a.take.Some?
    ensures Fits(x, a, t, data, lo)
  {
    hide Apart, Runs.Add;
    var k := a.take.value;
    SpanGrows(Joined(x.log), k, data, if k in x.marks then x.marks[k] else x.p, x.p);
  }

  lemma ApartSnoc(log: seq<Event>, lo: nat, e: Event)
    requires Apart(log, lo)
    requires IsBody(e) ==> e.text != [] && (lo < |log| ==> !IsBody(log[|log| - 1]))
    ensures Apart(log + [e], lo)
  {
  }

  lemma CloseFits(x: Loop, a: Act, t: Trace, data: Text, lo: nat)
    requires x.p < |data| && MarksFit(x, false) && Owed(t, x, data) && BodyFits(x, lo)
    requires Shaped(x.s.state, a) && Goes(a) && a.close.Some?
    ensures Fits(x, a, t, data, lo)
  {
    hide Apart, Runs.Add, Runs.Joined;
    var k := a.close.value;
    var m := if k in x.marks then x.marks[k] else x.p;
    var e := Data(k, data[m..x.p]);
    JoinedSnoc(x.log, e);
    SpanCloses(Joined(x.log), k, data, m, x.p);
    if !IsBody(e) || k in x.marks { ApartSnoc(x.log, lo, e); }
  }

  lemma NoticeFits(x: Loop, a: Act, t: Trace, data: Text, lo: nat)
    requires x.p < |data| && MarksFit(x, false) && Owed(t, x, data) && BodyFits(x, lo)
    requires Shaped(x.s.state, a) && Goes(a) && a.take.None? && a.close.None?
    ensures Fits(x, a, t, data, lo)
  {
    if a.notice.Some? { JoinedSnoc(x.log, Note(a.notice.value)); }
  }

  /** A visit outside the bodies keeps marks, callbacks and trace together. */
  lemma CalledFits(x: Loop, a: Act, t: Trace, data: Text, lo: nat)
    requires x.p < |data| && MarksFit(x, false) && Owed(t, x, data) && BodyFits(x, lo)
    requires Shaped(x.s.state, a) && Goes(a)
    ensures Fits(x, a, t, data, lo)
  {
    hide Fits;
    if a.take.Some? { TakeFits(x, a, t, data, lo); }
    else if a.close.Some? { CloseFits(x, a, t, data, lo); }
    else { NoticeFits(x, a, t, data, lo); }
  }

  /** A byte that is read by a visit of its own: no scan goes on with it. */
  predicate Leaves(s: Parser, ch: char) {
    IsScanned(s.state) ==> if s.state.InName? then Token(ch) == NUL else ch == CR || ch == LF
  }

  lemma LeavesScan(s: Parser, t: Trace, ch: char)
    requires Leaves(s, ch)
    ensures Byte(s, t, ch).next.Advance? ==> Scanned(NOT_BEGUN, s, Byte(s, t, ch).s) == NOT_BEGUN
  {
    hide Token, NameByte, ValueByte, Report;
    if IsScanned(s.state) && ch == LF && s.state.InValue? { FeedLeaves(s, t); }
  }

  lemma FeedLeaves(s: Parser, t: Trace)
    requires s.state == InValue(HeaderValue)
    ensures Byte(s, t, LF).s.state == InValue(HeaderValueLws)
  {
    hide Report;
    var a := Visit(s, LF);
    assert a.s.state == InValue(HeaderAlmostDone);
  }

  lemma AgainLeaves(s: Parser, ch: char)
    ensures Visit(s, ch).next.Again? ==> !IsScanned(Visit(s, ch).s.state)
  {
    hide Token, NameByte, ValueByte, ValueStart, LineFlags;
  }

  /** Where one visit outside the bodies leaves the loop. */
  function Visited(x: Loop, data: Text): Loop
    requires x.p < |data| && MarksFit(x, false)
  {
    var a := Visit(x.s, data[x.p]);
    if Goes(a) then Called(x, a, data) else x.(s := a.s)
  }

  lemma VisitedDone(x: Loop, data: Text, t: Trace, lo: nat, goal: Fate)
    requires AtByte(x, t, data, lo, goal) && !InBody(x.s.state) && Leaves(x.s, data[x.p])
    ensures var a := Visit(x.s, data[x.p]);
            Done(Visited(x, data), Report(t, a, data[x.p]), a.next, data, lo, goal)
  {
    hide Table.Visit, Mid, Good, MarksFit, Owed, Apart;
    var a := Visit(x.s, data[x.p]);
    VisitKeeps(x.s, data[x.p]);
    VisitShaped(x.s, data[x.p]);
    LeavesScan(x.s, t, data[x.p]);
    AgainLeaves(x.s, data[x.p]);
    if Goes(a) {
      CalledFits(x, a, t, data, lo);
    } else {
      VisitFails(x.s, data[x.p]);
      OwedIsBehind(t, x, data);
    }
  }

  /** One visit outside the bodies. */
  method VisitOnce(x: Loop, data: Text, ghost t: Trace, ghost lo: nat, ghost goal: Fate)
    returns (y: Loop, why: Control, ghost t': Trace)
    requires AtByte(x, t, data, lo, goal) && !InBody(x.s.state) && Leaves(x.s, data[x.p])
    ensures x.p <= y.p && y.s.config == x.s.config
    ensures Done(y, t', why, data, lo, goal)
    ensures why.Again? ==> Rank(y.s.state) < Rank(x.s.state)
  {
    hide Table.Visit, Done, Mid, Good, Owed, BodyFits;
    var a := Visit(x.s, data[x.p]);
    y, why, t' := Visited(x, data), a.next, Report(t, a, data[x.p]);
    VisitedDone(x, data, t, lo, goal);
  }

  /** A body byte is not counted, so a run may start at its visits. */
  lemma RunInBody(s: Parser, t: Trace, data: Text)
    requires InBody(s.state) && data != []
    ensures Fated(s, t, data, NOT_BEGUN) == FatedOn(s, Byte(s, t, data[0]), data, NOT_BEGUN)
  {
    hide Runs.Byte;
  }

  /** What is left of a good struct when body bytes are counted off. */
  lemma LengthKeeps(s: Parser, n: nat)
    requires Mid(s) && InSizedBody(s) && n <= s.framing.contentLength
    ensures 0 < n ==> Good(WithLength(s, n))
    ensures n == 0 && s.state.BodyIdentity? ==> Mid(WithLength(s, 0).(state := MessageDone))
    ensures n == 0 && s.state.InChunk? ==> Good(WithLength(s, 0).(state := InChunk(ChunkDataAlmostDone)))
  {
    hide Types.MethodText, HeadOk, HeaderOk, LengthMatchesFlag;
  }

  lemma BodyFitsSnoc(x: Loop, y: Loop, e: Event, lo: nat)
    requires BodyFits(x, lo) && BodyMayCome(x.s.state) && e.Data? && e.text != []
    requires y.log == x.log + [e] && !BodyMayCome(y.s.state)
    ensures BodyFits(y, lo)
  {
    ApartSnoc(x.log, lo, e);
  }

  /** s_body_identity: jump over as much of the body as the buffer holds. */
  method TakeIdentity(x: Loop, data: Text, ghost t: Trace, ghost lo: nat, ghost goal: Fate)
    returns (y: Loop, why: Control, ghost t': Trace)
    requires AtByte(x, t, data, lo, goal) && x.s.state.BodyIdentity?
    ensures x.p <= y.p && y.s.config == x.s.config
    ensures Done(y, t', why, data, lo, goal)
    ensures why.Again? ==> Rank(y.s.state) < Rank(x.s.state)
  {
    hide Runs.Run, Runs.Resume, Runs.Byte, Runs.Add, Mid, Good, Apart, Owed, MarksFit, BodyFits;
    assert InSizedBody(x.s) by { MidBody(x.s); }
    var n := x.s.framing.contentLength;
    var toRead := if n < |data| - x.p then n else |data| - x.p;
    var s := WithLength(x.s, n - toRead);
    var p := x.p + toRead - 1;
    t' := AddText(t, Body, data[x.p..p + 1]);
    if s.framing.contentLength == 0 {
      y, why := Loop(s.(state := MessageDone), x.log + [Data(Body, data[x.p..p + 1])], x.marks, p), Again;
      IdentityEnds(x, data, t, lo, goal, p);
    } else {
      y, why := Loop(s, x.log, x.marks[Body := x.p], p), Advance;
      IdentityGoesOn(x, data, t, lo, goal);
    }
  }

  /** The buffer holds the rest of the body. */
  lemma IdentityEnds(x: Loop, data: Text, t: Trace, lo: nat, goal: Fate, p: nat)
    requires AtByte(x, t, data, lo, goal) && x.s.state.BodyIdentity? && InSizedBody(x.s)
    requires x.p <= p < |data| && p + 1 - x.p == x.s.framing.contentLength
    ensures var b := data[x.p..p + 1];
            AtByte(Loop(WithLength(x.s, 0).(state := MessageDone), x.log + [Data(Body, b)], x.marks, p), AddText(t, Body, b), data, lo, goal)
  {
    hide Runs.Run, Runs.Resume, Runs.Byte, Runs.Add, Mid, Good, Apart, BodyFits;
    var b, z := data[x.p..p + 1], data[p + 1..];
    var span := Data(Body, b);
    assert data[x.p..] == b + z;
    LengthKeeps(x.s, 0);
    RunInBody(x.s, t, data[x.p..]);
    SizedBodyEnd(x.s, t, b, z);
    SizedBodyEndCaught(x.s, t, b, z);
    assert b[|b| - 1] == data[p] && b[|b| - 1..] + z == data[p..] && [data[p]] + z == data[p..];
    JoinedSnoc(x.log, span);
    BodyFitsSnoc(x, Loop(WithLength(x.s, 0).(state := MessageDone), x.log + [span], x.marks, p), span, lo);
  }

  /** The buffer ends inside the body. */
  lemma IdentityGoesOn(x: Loop, data: Text, t: Trace, lo: nat, goal: Fate)
    requires AtByte(x, t, data, lo, goal) && x.s.state.BodyIdentity? && InSizedBody(x.s)
    requires |data| - x.p < x.s.framing.contentLength
    ensures var s := WithLength(x.s, x.s.framing.contentLength - (|data| - x.p));
            AtHead(Loop(s, x.log, x.marks[Body := x.p], |data|), AddText(t, Body, data[x.p..|data|]), data, lo, goal)
  {
    hide Runs.Run, Runs.Resume, Runs.Byte, Runs.Add, Mid, Good, Apart;
    var b := data[x.p..|data|];
    assert data[x.p..] == b + [] && data[|data|..] == [];
    LengthKeeps(x.s, x.s.framing.contentLength - |b|);
    RunInBody(x.s, t, data[x.p..]);
    SizedBodyPart(x.s, t, b, []);
    SizedBodyCaught(x.s, t, b, []);
  }

  lemma MidBody(s: Parser)
    requires Mid(s)
    ensures s.state.BodyIdentity? || s.state == InChunk(ChunkData) ==> InSizedBody(s)
  {
    hide Types.MethodText, HeadOk, HeaderOk, LengthMatchesFlag;
  }

  /** s_chunk_data: the same jump; the closing callback waits for the CR. */
  method TakeChunk(x: Loop, data: Text, ghost t: Trace, ghost lo: nat, ghost goal: Fate)
    returns (y: Loop, ghost t': Trace)
    requires AtByte(x, t, data, lo, goal) && x.s.state == InChunk(ChunkData)
    ensures x.p <= y.p && y.s.config == x.s.config
    ensures Done(y, t', Advance, data, lo, goal)
  {
    hide Runs.Run, Runs.Resume, Runs.Byte, Runs.Add, Mid, Good, Apart;
    assert InSizedBody(x.s) by { MidBody(x.s); }
    var n := x.s.framing.contentLength;
    var toRead := if n < |data| - x.p then n else |data| - x.p;
    var s := WithLength(x.s, n - toRead);
    var p := x.p + toRead - 1;
    ghost var b, z := data[x.p..p + 1], data[p + 1..];
    assert data[x.p..] == b + z;
    LengthKeeps(x.s, n - toRead);
    RunInBody(x.s, t, data[x.p..]);
    t' := AddText(t, Body, b);
    if s.framing.contentLength == 0 {
      ChunkDataEnd(x.s, t, b, z);
      ChunkDataEndCaught(x.s, t, b, z);
      s := s.(state := InChunk(ChunkDataAlmostDone));
    } else {
      SizedBodyPart(x.s, t, b, z);
      SizedBodyCaught(x.s, t, b, z);
    }
    y := Loop(s, x.log, x.marks[Body := x.p], p);
  }

  /** s_body_identity_eof: the whole rest of the buffer. */
  method TakeEof(x: Loop, data: Text, ghost t: Trace, ghost lo: nat, ghost goal: Fate)
    returns (y: Loop, ghost t': Trace)
    requires AtByte(x, t, data, lo, goal) && x.s.state.BodyIdentityEof?
    ensures x.p <= y.p && y.s.config == x.s.config
    ensures Done(y, t', Advance, data, lo, goal)
  {
    hide Table.Visit, Runs.Byte, Runs.Add, Apart;
    ghost var b := data[x.p..];
    RunInBody(x.s, t, b);
    EofBody(x.s, t, b);
    EofCaught(x.s, t, b);
    t' := AddText(t, Body, b);
    y := Loop(x.s, x.log, x.marks[Body := x.p], |data| - 1);
    assert data[x.p..|data|] == b && data[|data|..] == [];
  }

  /** COUNT_HEADER_SIZE(k): 32-bit addition. */
  function Count(s: Parser, k: nat): Parser {
    s.(nread := (s.nread + k) % 0x1_0000_0000)
  }

  /** A buffer and a limit for which the 32-bit byte counter cannot wrap. */
  predicate NoWrap(s: Parser, data: Text) {
    s.config.maxHeaderSize + |data| < 0x1_0000_0000
  }

  /** The byte-wise run has exceeded the header size at an earlier byte of the scan; both would halt at the same place. */
  ghost predicate PastLimit(goal: Fate, s: Parser, j: Trace, k: Part, m: nat, data: Text, start: nat, p: nat, lap: nat) {
    var o := |data| - |goal.stop.rest|;
    && goal.stop.why == Fail(HEADER_OVERFLOW) && 0 < goal.scan.taken && m <= start < o <= p <= |data| && o < |data|
    && goal.stop.s.state == s.state && goal.stop.t == Span(j, k, data, m, o)
    && HaltOf(goal.stop.s, data, o, goal.scan.lap) == HaltOf(s, data, p, lap)
  }

  /** A bulk scan from `start` has reached `p`: the bytes before `p` were taken, none of
      them counted yet. Unless the byte-wise run has overflowed, it is at `p` too. */
  ghost predicate Scan(goal: Fate, s: Parser, j: Trace, k: Part, m: nat, data: Text, start: nat, p: nat, lap: nat) {
    && m <= start <= p <= |data| && (p == |data| ==> start < p)
    && var counted := (if p < |data| then p else p - 1) - start;
       if s.nread + counted > s.config.maxHeaderSize then PastLimit(goal, s, j, k, m, data, start, p, lap)
       else if p < |data| then
         goal == FatedOn(Read(s, counted), Byte(Read(s, counted), Span(j, k, data, m, p), data[p]), data[p..], Progress(counted, lap))
       else goal == Fate(Stop(Read(s, counted), Span(j, k, data, m, p), [], Advance), NOT_BEGUN)
  }

  lemma HaltOfRead(s: Parser, k: nat, data: Text, p: nat, lap: nat)
    requires p <= |data| && data != []
    ensures HaltOf(Read(s, k), data, p, lap) == HaltOf(s, data, p, lap)
  {
    hide HaltFrom;
  }

  /** One byte of a scan. */
  lemma ScanStep(goal: Fate, s: Parser, s': Parser, j: Trace, k: Part, m: nat, data: Text, start: nat, p: nat, lap: nat)
    requires Scan(goal, s, j, k, m, data, start, p, lap) && p < |data|
    requires IsScanned(s.state) && s'.state == s.state && s'.nread == s.nread && s'.config == s.config
    requires Byte(Read(s, p - start), Span(j, k, data, m, p), data[p])
          == Point(Read(s', p - start), Add(Span(j, k, data, m, p), Data(k, [data[p]])), Advance)
    requires HaltOf(s, data, p, lap) == HaltOf(s', data, p + 1, NextLap(s.config, s.matcher.header, lap))
    ensures Scan(goal, s', j, k, m, data, start, p + 1, NextLap(s.config, s.matcher.header, lap))
  {
    hide Table.Visit, Runs.Byte, Runs.Add, HaltOf, NextLap;
    SpanGrows(j, k, data, m, p);
    var counted := p - start;
    var lap' := NextLap(s.config, s.matcher.header, lap);
    if s.nread + counted <= s.config.maxHeaderSize {
      assert data[p..][1..] == data[p + 1..];
      var t, d := Span(j, k, data, m, p + 1), Progress(counted + 1, lap');
      assert Scanned(Progress(counted, lap), Read(s, counted), Read(s', counted)) == d;
      assert goal == Fated(Read(s', counted), t, data[p + 1..], d);
      if p + 1 < |data| {
        assert Counted(Read(s', counted)) == Read(s', counted + 1);
        HaltOfRead(s', counted + 1, data, p + 1, lap');
      }
    }
  }

  /** The tight loop passes a byte unread, but only when the header size has been exceeded. */
  lemma ScanPass(goal: Fate, s: Parser, j: Trace, m: nat, data: Text, start: nat, p: nat)
    requires Scan(goal, s, j, Value, m, data, start, p, s.config.maxHeaderSize) && p < |data|
    requires s.state == InValue(HeaderValue) && s.matcher.header.General? && s.nread + (p - start) > s.config.maxHeaderSize
    ensures Scan(goal, s, j, Value, m, data, start, p + 1, 0)
  {
  }

  /** A scan past the limit that stops without a callback. */
  lemma PastFails(goal: Fate, s: Parser, k: Part, m: nat, data: Text, start: nat, p: nat, lap: nat, log: seq<Event>)
    requires PastLimit(goal, s, Joined(log), k, m, data, start, p, lap) && IsScanned(s.state)
    ensures var h := HaltOf(s, data, p, lap); !h.reported ==> Fails(goal, data, log, h.at, Fail(h.errno))
  {
    hide HaltOf, Joined, IsBehind;
    SpanIsBehind(Joined(log), k, data);
  }

  lemma ReadKeeps(s: Parser, k: nat)
    requires Mid(s) && !s.state.InChunk? && s.nread + k <= s.config.maxHeaderSize
    ensures Mid(Read(s, k)) && Good(Read(s, k))
  {
    hide Types.MethodText, HeadOk, HeaderOk, LengthMatchesFlag, FlagsOk, BodyOk;
  }

  /** The state of a scan between its bytes. */
  ghost predicate Scanning(x: Loop, s: Parser, k: Part, data: Text, lo: nat, goal: Fate, start: nat, p: nat, lap: nat) {
    && start == x.p < |data| && start <= p <= |data| && MarksFit(x, false) && BodyFits(x, lo) && NoWrap(x.s, data)
    && OpenPart(x.s.state) == Some(k) && 0 < x.s.nread && Mid(s) && x.marks[k] <= p
    && s.state == x.s.state && s.nread == x.s.nread && s.config == x.s.config
    && IsScanned(s.state) && Scan(goal, s, Joined(x.log), k, x.marks[k], data, start, p, lap)
  }

  /** COUNT_HEADER_SIZE(p - start) when a scan ran out of bytes. */
  method ScanEnds(x: Loop, s: Parser, ghost k: Part, data: Text, ghost lo: nat, ghost goal: Fate, ghost lap: nat)
    returns (y: Loop, why: Control, ghost t: Trace)
    requires Scanning(x, s, k, data, lo, goal, x.p, |data|, lap)
    ensures x.p <= y.p && y.s.config == x.s.config
    ensures Done(y, t, why, data, lo, goal) && !why.Again?
  {
    hide Runs.Resume, Runs.Byte, Runs.Add, StateOk, FlagsOk, Good, Apart, Fails, HaltOf, PastLimit;
    var p := |data| - 1;
    y, why, t := Loop(Count(s, p - x.p), x.log, x.marks, p), Advance, Span(Joined(x.log), k, data, x.marks[k], |data|);
    if y.s.nread > y.s.config.maxHeaderSize {
      why := Fail(HEADER_OVERFLOW);
      HaltAtEnd(s, data, lap);
      PastFails(goal, s, k, x.marks[k], data, x.p, |data|, lap, x.log);
    } else {
      ReadKeeps(s, p - x.p);
      assert data[|data|..] == [];
    }
  }

  lemma HaltAtEnd(s: Parser, data: Text, lap: nat)
    requires data != []
    ensures HaltOf(s, data, |data|, lap) == Halt(|data| - 1, HEADER_OVERFLOW, false)
  {
  }

  /** After COUNT_HEADER_SIZE(p - start) a scan stands at an ordinary visit. */
  lemma ScanStops(x: Loop, s: Parser, k: Part, data: Text, lo: nat, goal: Fate, p: nat, lap: nat)
    requires p < |data| && Scanning(x, s, k, data, lo, goal, x.p, p, lap) && Leaves(s, data[p])
    ensures var y := Loop(Count(s, p - x.p), x.log, x.marks, p);
            if y.s.nread > s.config.maxHeaderSize then PastLimit(goal, s, Joined(x.log), k, x.marks[k], data, x.p, p, lap)
            else AtByte(y, Span(Joined(x.log), k, data, x.marks[k], p), data, lo, goal)
  {
    hide Runs.Run, Runs.Resume, Runs.Byte, Runs.Add, StateOk, FlagsOk, Good, Apart, PastLimit, Caught, Token;
    if s.nread + (p - x.p) <= s.config.maxHeaderSize {
      ReadKeeps(s, p - x.p);
      LeavesScan(Read(s, p - x.p), Span(Joined(x.log), k, data, x.marks[k], p), data[p]);
    }
  }

  /** A token byte inside a name. */
  lemma FieldByte(s: Parser, ch: char)
    requires Mid(s) && s.state == InName(HeaderField) && Token(ch) != NUL
    ensures NameByte(s.matcher, Token(ch)).Some?
    ensures var s' := Named(s, NameByte(s.matcher, Token(ch)).value);
            Mid(s') && s'.state == s.state && s'.nread == s.nread && s'.config == s.config
  {
    hide HeaderWords.NameByte;
    NameByteKeeps(s.matcher, Token(ch));
    FieldKeeps(s, ch);
  }

  lemma GeneralName(s: Parser, c: char)
    requires s.matcher.header.General?
    ensures NameByte(s.matcher, c) == Some(s.matcher) && Named(s, s.matcher) == s
  {
  }

  lemma FieldByteRun(s: Parser, t: Trace, ch: char, k: nat)
    requires s.state == InName(HeaderField) && Token(ch) != NUL && NameByte(s.matcher, Token(ch)).Some?
    ensures Byte(Read(s, k), t, ch)
         == Point(Read(Named(s, NameByte(s.matcher, Token(ch)).value), k), Add(t, Data(Field, [ch])), Advance)
  {
    hide HeaderWords.NameByte, Bytes.Token, Runs.Add;
  }

  lemma NameHalts(s: Parser, s': Parser, data: Text, p: nat, lap: nat, lap': nat)
    requires s.state.InName? && s'.state.InName? && p < |data|
    ensures Token(data[p]) != NUL ==> HaltOf(s, data, p, lap) == HaltOf(s', data, p + 1, lap')
    ensures Token(data[p]) == NUL ==> HaltOf(s, data, p, lap) == Halt(p, HEADER_OVERFLOW, false)
  {
    hide Token;
  }

  /** The place in the lap after one more byte. */
  function LapAfter(s: Parser, lap: nat): nat {
    NextLap(s.config, s.matcher.header, lap)
  }

  /** A name byte in a scan. */
  lemma ScanField1(x: Loop, s: Parser, data: Text, lo: nat, goal: Fate, p: nat, lap: nat)
    requires p < |data| && Scanning(x, s, Field, data, lo, goal, x.p, p, lap)
    requires s.state == InName(HeaderField) && Token(data[p]) != NUL
    ensures NameByte(s.matcher, Token(data[p])).Some?
    ensures var s' := Named(s, NameByte(s.matcher, Token(data[p])).value);
            Scanning(x, s', Field, data, lo, goal, x.p, p + 1, LapAfter(s, lap)) && (s.matcher.header.General? ==> s' == s)
  {
    hide Runs.Run, Runs.Resume, Runs.Byte, Runs.Add, HeaderWords.NameByte, Bytes.Token, Mid, BodyFits, Scan, HaltOf, NextLap;
    var j, m := Joined(x.log), x.marks[Field];
    FieldByte(s, data[p]);
    if s.matcher.header.General? { GeneralName(s, Token(data[p])); }
    var s' := Named(s, NameByte(s.matcher, Token(data[p])).value);
    FieldByteRun(s, Span(j, Field, data, m, p), data[p], p - x.p);
    NameHalts(s, s', data, p, lap, LapAfter(s, lap));
    ScanStep(goal, s, s', j, Field, m, data, x.p, p, lap);
  }

  lemma ScanBegins(x: Loop, data: Text, t: Trace, lo: nat, goal: Fate, k: Part)
    requires AtByte(x, t, data, lo, goal) && IsScanned(x.s.state) && OpenPart(x.s.state) == Some(k) && NoWrap(x.s, data)
    ensures Scanning(x, x.s, k, data, lo, goal, x.p, x.p, 0)
    ensures 0 < x.s.nread <= x.s.config.maxHeaderSize
  {
    hide Runs.Run, Runs.Resume, Runs.Byte, Runs.Add, StateOk, FlagsOk, Good, Apart, Caught;
    assert Read(x.s, 0) == x.s;
  }

  /** The byte after a name that ends inside the buffer. */
  method FieldStops(x: Loop, s: Parser, data: Text, p: nat, ghost lo: nat, ghost goal: Fate, ghost lap: nat)
    returns (y: Loop, why: Control, ghost t': Trace)
    requires p < |data| && x.p <= p && Scanning(x, s, Field, data, lo, goal, x.p, p, lap) && x.s.state == InName(HeaderField)
    requires Token(data[p]) == NUL
    ensures x.p <= y.p && y.s.config == x.s.config
    ensures Done(y, t', why, data, lo, goal) && !why.Again?
  {
    hide Runs.Run, Runs.Resume, Runs.Byte, Runs.Add, StateOk, FlagsOk, Good, Apart, Fails, PastLimit, Token;
    y, why, t' := Loop(Count(s, p - x.p), x.log, x.marks, p), Fail(HEADER_OVERFLOW), Span(Joined(x.log), Field, data, x.marks[Field], p);
    ScanStops(x, s, Field, data, lo, goal, p, lap);
    if y.s.nread <= y.s.config.maxHeaderSize {
      y, why, t' := VisitOnce(y, data, t', lo, goal);
    } else {
      NameHalts(s, s, data, p, lap, lap);
      PastFails(goal, s, Field, x.marks[Field], data, x.p, p, lap, x.log);
    }
  }

  /** s_header_field: scan the rest of a name, count it at the end. */
  method ScanField(x: Loop, data: Text, ghost t: Trace, ghost lo: nat, ghost goal: Fate)
    returns (y: Loop, why: Control, ghost t': Trace)
    requires AtByte(x, t, data, lo, goal) && x.s.state == InName(HeaderField) && NoWrap(x.s, data)
    ensures x.p <= y.p && y.s.config == x.s.config
    ensures Done(y, t', why, data, lo, goal) && !why.Again?
  {
    hide Runs.Run, Runs.Resume, Runs.Byte, Runs.Add, HeaderWords.NameByte, Bytes.Token, Good, Apart, Mid, MarksFit, BodyFits, Owed, Scan, Done, LapAfter;
    ScanBegins(x, data, t, lo, goal, Field);
    var s, p := x.s, x.p;
    ghost var lap := 0;
    while p < |data| && Token(data[p]) != NUL
      invariant x.p <= p <= |data| && Scanning(x, s, Field, data, lo, goal, x.p, p, lap)
    {
      ScanField1(x, s, data, lo, goal, p, lap);
      var s' := Named(s, NameByte(s.matcher, Token(data[p])).value);
      if s.matcher.header.General? {
        var left := |data| - p;
        var pe := p + if left < s.config.maxHeaderSize then left else s.config.maxHeaderSize;
        while p + 1 < pe && Token(data[p + 1]) != NUL
          invariant x.p <= p < |data| && Token(data[p]) != NUL
          invariant Scanning(x, s, Field, data, lo, goal, x.p, p, lap)
        {
          ScanField1(x, s, data, lo, goal, p, lap);
          p, lap := p + 1, LapAfter(s, lap);
        }
        ScanField1(x, s, data, lo, goal, p, lap);
      }
      lap := LapAfter(s, lap);
      s, p := s', p + 1;
    }
    if p == |data| {
      y, why, t' := ScanEnds(x, s, Field, data, lo, goal, lap);
    } else {
      y, why, t' := FieldStops(x, s, data, p, lo, goal, lap);
    }
  }

  predicate PlainValueByte(s: Parser, ch: char) {
    s.state == InValue(HeaderValue) && ch != CR && ch != LF && (s.config.lenient || IsHeaderChar(ch))
  }

  /** The tight loop reads the byte at this place of its lap. */
  predicate IsRead(s: Parser, lap: nat) {
    s.matcher.header.General? ==> lap != s.config.maxHeaderSize
  }

  lemma ValueByteRun(s: Parser, t: Trace, ch: char, k: nat)
    requires PlainValueByte(s, ch)
    ensures var r := ValueByte(s.matcher, s.framing, ch);
            && (r.Head? ==>
                  Byte(Read(s, k), t, ch)
                    == Point(Read(s.(matcher := r.m, framing := r.f), k), Add(t, Data(Value, [ch])), Advance))
            && (r.Refused? ==> Byte(Read(s, k), t, ch).next == Fail(r.errno) && Byte(Read(s, k), t, ch).t == t)
  {
    hide Table.ValueByte, Runs.Add;
  }

  lemma BadValueByteRun(s: Parser, t: Trace, ch: char, k: nat)
    requires s.state == InValue(HeaderValue) && ch != CR && ch != LF && !s.config.lenient && !IsHeaderChar(ch)
    ensures Byte(Read(s, k), t, ch).next == Fail(INVALID_HEADER_TOKEN) && Byte(Read(s, k), t, ch).t == t
  {
    hide Table.ValueByte, Runs.Add;
  }

  /** A good struct inside a value stays good with another good matcher and framing. */
  lemma ValueHeadKeeps(s: Parser, m: Matcher, f: Framing)
    requires Mid(s) && s.state == InValue(HeaderValue) && HeadOk(m, f)
    ensures Mid(s.(matcher := m, framing := f))
  {
    hide FlagsOk, LengthMatchesFlag, HeaderOk, ValueHeader, Types.MethodText;
  }

  /** Where a scan past the limit halts, by the byte it stands at. */
  lemma ValueHalts(s: Parser, data: Text, p: nat, lap: nat)
    requires s.state == InValue(HeaderValue) && p < |data| && IsRead(s, lap)
    ensures var ch, h := data[p], HaltOf(s, data, p, lap);
            && (ch == CR ==> h == Halt(p, HEADER_OVERFLOW, true))
            && (ch == LF ==> h == Halt(p, HEADER_OVERFLOW, false))
            && (ch != CR && ch != LF && !s.config.lenient && !IsHeaderChar(ch) ==> h == Halt(p, INVALID_HEADER_TOKEN, false))
    ensures PlainValueByte(s, data[p]) ==>
              var r, h := ValueByte(s.matcher, s.framing, data[p]), HaltOf(s, data, p, lap);
              && (r.Head? ==> h == HaltOf(s.(matcher := r.m, framing := r.f), data, p + 1, LapAfter(s, lap)))
              && (r.Refused? ==> h == Halt(p, r.errno, false))
  {
    hide ValueByte, IsHeaderChar;
  }

  /** A value byte that is refused in a scan. */
  lemma ScanRefuses(x: Loop, s: Parser, data: Text, lo: nat, goal: Fate, p: nat, lap: nat, e: Errno)
    requires p < |data| && Scanning(x, s, Value, data, lo, goal, x.p, p, lap)
    requires HaltOf(s, data, p, lap) == Halt(p, e, false)
    requires var r := Byte(Read(s, p - x.p), Span(Joined(x.log), Value, data, x.marks[Value], p), data[p]);
             r.next == Fail(e) && r.t == Span(Joined(x.log), Value, data, x.marks[Value], p)
    ensures Fails(goal, data, x.log, p, Fail(e))
  {
    hide Runs.Run, Runs.Byte, Runs.Add, BodyFits, Mid, IsBehind, HaltOf, PastLimit, Joined;
    SpanIsBehind(Joined(x.log), Value, data);
    if s.nread + (p - x.p) > s.config.maxHeaderSize {
      PastFails(goal, s, Value, x.marks[Value], data, x.p, p, lap, x.log);
    }
  }

  /** A value byte in a scan. */
  lemma ScanValue1(x: Loop, s: Parser, data: Text, lo: nat, goal: Fate, p: nat, lap: nat)
    requires p < |data| && Scanning(x, s, Value, data, lo, goal, x.p, p, lap) && PlainValueByte(s, data[p]) && IsRead(s, lap)
    ensures var r := ValueByte(s.matcher, s.framing, data[p]);
            && !r.Asserted?
            && (r.Head? ==> Scanning(x, s.(matcher := r.m, framing := r.f), Value, data, lo, goal, x.p, p + 1, LapAfter(s, lap)))
            && (r.Refused? ==> Fails(goal, data, x.log, p, Fail(r.errno)))
            && (s.matcher.header.General? ==> r.Head? && s.(matcher := r.m, framing := r.f) == s)
  {
    hide Runs.Run, Runs.Byte, Runs.Add, BodyFits, HeadOk, Fails, Scan, HaltOf, Joined;
    hide LengthByte, TokenByte, LineFlags, FlagsOk, IsRead, NextLap;
    var j, m := Joined(x.log), x.marks[Value];
    var r := ValueByte(s.matcher, s.framing, data[p]);
    ValueByteRun(s, Span(j, Value, data, m, p), data[p], p - x.p);
    ValueByteKeeps(s.matcher, s.framing, data[p]);
    ValueHalts(s, data, p, lap);
    match r
    case Head(m', f') =>
      ValueHeadKeeps(s, m', f');
      ScanStep(goal, s, s.(matcher := m', framing := f'), j, Value, m, data, x.p, p, lap);
    case Refused(e) => ScanRefuses(x, s, data, lo, goal, p, lap, e);
    case Asserted =>
  }

  lemma ScanBadByte(x: Loop, s: Parser, data: Text, lo: nat, goal: Fate, p: nat, lap: nat)
    requires p < |data| && Scanning(x, s, Value, data, lo, goal, x.p, p, lap) && IsRead(s, lap)
    requires s.state == InValue(HeaderValue) && data[p] != CR && data[p] != LF && !s.config.lenient && !IsHeaderChar(data[p])
    ensures Fails(goal, data, x.log, p, Fail(INVALID_HEADER_TOKEN))
  {
    hide Runs.Run, Runs.Byte, Runs.Add, BodyFits, Mid, Fails, Scan, HaltOf, Joined, IsRead;
    BadValueByteRun(s, Span(Joined(x.log), Value, data, x.marks[Value], p), data[p], p - x.p);
    ValueHalts(s, data, p, lap);
    ScanRefuses(x, s, data, lo, goal, p, lap, INVALID_HEADER_TOKEN);
  }

  lemma VisitCR(s: Parser)
    requires s.state == InValue(HeaderValue)
    ensures Visit(s, CR) == Close(s.(state := InValue(HeaderAlmostDone)), Value)
  {
  }

  /** A scan past the limit reports a value before it counts the CR. */
  lemma PastReports(goal: Fate, s: Parser, m: nat, data: Text, start: nat, p: nat, lap: nat, log: seq<Event>)
    requires PastLimit(goal, s, Joined(log), Value, m, data, start, p, lap) && IsScanned(s.state)
    requires p < |data| && HaltOf(s, data, p, lap) == Halt(p, HEADER_OVERFLOW, true)
    ensures Fails(goal, data, log + [Data(Value, data[m..p])], p, Fail(HEADER_OVERFLOW))
  {
    hide HaltOf, Joined, Add;
    var o := |data| - |goal.stop.rest|;
    JoinedSnoc(log, Data(Value, data[m..p]));
    AddPieces(Joined(log), Value, data[m..o], data[o..p]);
    assert data[m..p] == data[m..o] + data[o..p];
  }

  /** CR ends a value: its callback is made before its bytes are counted. */
  method ScanMeetsCR(x: Loop, s: Parser, data: Text, p: nat, ghost lo: nat, ghost goal: Fate, ghost lap: nat)
    returns (y: Loop, why: Control, ghost t: Trace)
    requires p < |data| && Scanning(x, s, Value, data, lo, goal, x.p, p, lap) && IsRead(s, lap)
    requires s.state == InValue(HeaderValue) && data[p] == CR
    ensures x.p <= y.p && y.s.config == x.s.config
    ensures Done(y, t, why, data, lo, goal) && !why.Again?
  {
    hide Runs.Run, Runs.Resume, Runs.Byte, Runs.Add, Table.Visit, Visited, Runs.Report, Mid, Apart, Good, AtByte, AtHead, Fails, PastLimit, IsRead, HaltOf;
    var z := Loop(s, x.log, x.marks, p);
    y := Called(z, Close(s.(state := InValue(HeaderAlmostDone)), Value), data);
    y := y.(s := Count(y.s, p - x.p));
    ghost var counted := z.(s := Count(s, p - x.p));
    t := Span(Joined(x.log), Value, data, x.marks[Value], p);
    ScanStops(x, s, Value, data, lo, goal, p, lap);
    if y.s.nread > y.s.config.maxHeaderSize {
      why := Fail(HEADER_OVERFLOW);
      ApartSnoc(x.log, lo, Data(Value, data[x.marks[Value]..p]));
      ValueHalts(s, data, p, lap);
      PastReports(goal, s, x.marks[Value], data, x.p, p, lap, x.log);
    } else {
      why := Advance;
      ReturnVisited(z, data, p - x.p);
      VisitedDone(counted, data, t, lo, goal);
      t := Report(t, Visit(counted.s, CR), CR);
    }
  }

  /** Counting before the visit or after it makes no difference to the loop. */
  lemma ReturnVisited(z: Loop, data: Text, k: nat)
    requires z.p < |data| && data[z.p] == CR && z.s.state == InValue(HeaderValue) && MarksFit(z, false)
    ensures var c := z.(s := Count(z.s, k));
            var y := Called(z, Close(z.s.(state := InValue(HeaderAlmostDone)), Value), data);
            && MarksFit(c, false) && Visit(c.s, CR).next.Advance? && Visited(c, data) == y.(s := Count(y.s, k))
  {
    VisitCR(Count(z.s, k));
    hide Visit;
  }

  /** LF ends a value: its bytes are counted before its callback is made. */
  method ScanMeetsLF(x: Loop, s: Parser, data: Text, p: nat, ghost lo: nat, ghost goal: Fate, ghost lap: nat)
    returns (y: Loop, why: Control, ghost t: Trace)
    requires p < |data| && Scanning(x, s, Value, data, lo, goal, x.p, p, lap) && s.state == InValue(HeaderValue)
    requires data[p] == LF && IsRead(s, lap)
    ensures p <= y.p && y.s.config == x.s.config && Done(y, t, why, data, lo, goal)
    ensures why.Again? ==> Rank(y.s.state) < Rank(s.state)
  {
    hide Runs.Run, Runs.Resume, Runs.Byte, Mid, AtByte, Fails, PastLimit, IsRead, HaltOf;
    y, why := Loop(Count(s, p - x.p), x.log, x.marks, p), Fail(HEADER_OVERFLOW);
    ScanStops(x, s, Value, data, lo, goal, p, lap);
    t := Joined(x.log);
    if y.s.nread <= y.s.config.maxHeaderSize {
      y, why, t := VisitOnce(y, data, Span(Joined(x.log), Value, data, x.marks[Value], p), lo, goal);
    } else {
      ValueHalts(s, data, p, lap);
      PastFails(goal, s, Value, x.marks[Value], data, x.p, p, lap, x.log);
    }
  }

  /** Where the tight loop may leave off: it begins anew with its next lap, or it met the end of the line. */
  predicate LapFits(s: Parser, data: Text, p: nat, lap: nat) {
    p < |data| ==> lap == 0 || ((data[p] == CR || data[p] == LF) && lap < s.config.maxHeaderSize)
  }

  /** The tight loop for values nobody looks into. It stops before CR and LF, at the end
      of the buffer, or at its limit; there the next byte is passed unread, but then the
      header size has been exceeded. `q` is the next place to look at. */
  method SkipValue(x: Loop, s: Parser, data: Text, p: nat, ghost lo: nat, ghost goal: Fate)
    returns (q: nat, ok: bool, ghost lap: nat)
    requires p < |data| && Scanning(x, s, Value, data, lo, goal, x.p, p, 0) && 0 < s.config.maxHeaderSize
    requires s.matcher.header.General? && PlainValueByte(s, data[p])
    ensures ok ==> p < q <= |data| && Scanning(x, s, Value, data, lo, goal, x.p, q, lap) && LapFits(s, data, q, lap)
    ensures !ok ==> p <= q < |data| && Fails(goal, data, x.log, q, Fail(INVALID_HEADER_TOKEN))
  {
    hide Runs.Run, Runs.Resume, Runs.Byte, Runs.Add, Table.ValueByte, StateOk, FlagsOk, BodyFits, Bytes.IsHeaderChar, Fails, Scan, Mid;
    var left := |data| - p;
    var pe := p + if left < s.config.maxHeaderSize then left else s.config.maxHeaderSize;
    q, ok, lap := p, true, 0;
    while q != pe && data[q] != CR && data[q] != LF
      invariant p <= q <= pe && Scanning(x, s, Value, data, lo, goal, x.p, q, lap)
      invariant q == p ==> PlainValueByte(s, data[q])
      invariant lap == q - p
    {
      if !s.config.lenient && !IsHeaderChar(data[q]) {
        ScanBadByte(x, s, data, lo, goal, q, lap);
        return q, false, lap;
      }
      ScanValue1(x, s, data, lo, goal, q, lap);
      q, lap := q + 1, lap + 1;
    }
    if q == pe < |data| {
      ScanPass(goal, s, Joined(x.log), x.marks[Value], data, x.p, q);
      q, lap := q + 1, 0;
    }
  }

  /** s_header_value: scan a value. */
  method ScanValue(x: Loop, data: Text, ghost t: Trace, ghost lo: nat, ghost goal: Fate)
    returns (y: Loop, why: Control, ghost t': Trace)
    requires AtByte(x, t, data, lo, goal) && x.s.state == InValue(HeaderValue) && NoWrap(x.s, data)
    ensures x.p <= y.p && y.s.config == x.s.config && Done(y, t', why, data, lo, goal)
    ensures why.Again? ==> Rank(y.s.state) < Rank(x.s.state)
  {
    hide Runs.Run, Runs.Resume, Runs.Byte, Runs.Add, Table.ValueByte, StateOk, FlagsOk, Good, Apart, Bytes.IsHeaderChar, Fails, Scan, Mid;
    ScanBegins(x, data, t, lo, goal, Value);
    var s, p := x.s, x.p;
    ghost var lap := 0;
    t' := t;
    while p < |data|
      invariant x.p <= p <= |data| && Scanning(x, s, Value, data, lo, goal, x.p, p, lap) && LapFits(s, data, p, lap)
    {
      y := Loop(s, x.log, x.marks, p);
      if data[p] == CR {
        y, why, t' := ScanMeetsCR(x, s, data, p, lo, goal, lap);
        return;
      }
      if data[p] == LF {
        y, why, t' := ScanMeetsLF(x, s, data, p, lo, goal, lap);
        return;
      }
      if !s.config.lenient && !IsHeaderChar(data[p]) {
        ScanBadByte(x, s, data, lo, goal, p, lap);
        return y, Fail(INVALID_HEADER_TOKEN), t';
      }
      if s.matcher.header.General? {
        var ok;
        p, ok, lap := SkipValue(x, s, data, p, lo, goal);
        if !ok {
          return y.(p := p), Fail(INVALID_HEADER_TOKEN), t';
        }
      } else {
        ScanValue1(x, s, data, lo, goal, p, lap);
        match ValueByte(s.matcher, s.framing, data[p]) {
        case Head(m, f) => s := s.(matcher := m, framing := f);
        case Refused(e) => return y, Fail(e), t';
        case Asserted => assert false;
        }
        p := p + 1;
      }
    }
    y, why, t' := ScanEnds(x, s, Value, data, lo, goal, lap);
  }

  /** The visits for one byte: the switch and its REEXECUTE() jumps. */
  method AllVisits(x: Loop, data: Text, ghost t: Trace, ghost lo: nat, ghost goal: Fate)
    returns (y: Loop, why: Control, ghost t': Trace)
    requires AtByte(x, t, data, lo, goal) && NoWrap(x.s, data)
    ensures x.p <= y.p && y.s.config == x.s.config && (!why.Fail? ==> y.p < |data|)
    ensures Done(y, t', why, data, lo, goal) && !why.Again?
  {
    hide Runs.Run, Runs.Resume, Runs.Byte, Mid, Good, MarksFit, Owed, BodyFits, Apart;
    y, why, t' := x, Again, t;
    while why.Again?
      invariant Done(y, t', why, data, lo, goal)
      invariant x.p <= y.p && y.s.config == x.s.config
      decreases if why.Again? then 1 + Rank(y.s.state) else 0
    {
      match y.s.state
      case InName(HeaderField) => y, why, t' := ScanField(y, data, t', lo, goal);
      case InValue(HeaderValue) => y, why, t' := ScanValue(y, data, t', lo, goal);
      case BodyIdentity => y, why, t' := TakeIdentity(y, data, t', lo, goal);
      case BodyIdentityEof => y, t' := TakeEof(y, data, t', lo, goal); why := Advance;
      case InChunk(ChunkData) => y, t' := TakeChunk(y, data, t', lo, goal); why := Advance;
      case _ => y, why, t' := VisitOnce(y, data, t', lo, goal);
    }
  }

  /** The marks that are set when a call starts in the middle of a span. */
  function Rearmed(s: State): Marks {
    if OpenPart(s).Some? then map[OpenPart(s).value := 0] else map[]
  }

  lemma RearmedFits(s: Parser, log: seq<Event>, data: Text)
    requires Good(s) && data != []
    ensures AtHead(Loop(s, log, Rearmed(s.state), 0), Joined(log), data, |log|, Fated(s, Joined(log), data, NOT_BEGUN))
  {
    hide Runs.Run, Good, Fated, Runs.Joined;
    assert data[0..] == data;
  }

  /** COUNT_HEADER_SIZE(1) at the top of the loop. */
  lemma CountFits(x: Loop, t: Trace, data: Text, lo: nat, goal: Fate)
    requires AtHead(x, t, data, lo, goal) && x.p < |data| && NoWrap(x.s, data)
    ensures Overflows(x.s) ==> Apart(x.log, lo) && Fails(goal, data, x.log, x.p, Fail(HEADER_OVERFLOW))
    ensures !Overflows(x.s) ==> AtByte(x.(s := Counted(x.s)), t, data, lo, goal)
    ensures ParsingHeader(x.s.state) ==> Counted(x.s) == Count(x.s, 1)
  {
    hide Runs.Resume, Runs.Byte, StateOk, FlagsOk, Apart, Mid, IsBehind;
    if !Overflows(x.s) { CountedGood(x.s); } else { OwedIsBehind(t, x, data); }
  }

  /** CALLBACK_DATA_NOADVANCE: a mark that is not set makes no callback. */
  function Flush(log: seq<Event>, marks: Marks, k: Part, data: Text): seq<Event> {
    if k in marks && marks[k] <= |data| then log + [Data(k, data[marks[k]..])] else log
  }

  /** The marks that are left when a buffer ends, in the order of the source. */
  function FlushAll(log: seq<Event>, marks: Marks, data: Text): seq<Event> {
    Flush(Flush(Flush(Flush(Flush(log, marks, Field, data), marks, Value, data), marks, Part.Url, data), marks, Body, data), marks, Status, data)
  }

  lemma FlushOne(log: seq<Event>, marks: Marks, k: Part, data: Text)
    requires marks.Keys <= {k}
    ensures FlushAll(log, marks, data) == Flush(log, marks, k, data)
  {
    match k
    case Url => assert Field !in marks.Keys && Value !in marks.Keys && Body !in marks.Keys && Status !in marks.Keys;
    case Status => assert Field !in marks.Keys && Value !in marks.Keys && Body !in marks.Keys && Part.Url !in marks.Keys;
    case Field => assert Value !in marks.Keys && Part.Url !in marks.Keys && Body !in marks.Keys && Status !in marks.Keys;
    case Value => assert Field !in marks.Keys && Part.Url !in marks.Keys && Body !in marks.Keys && Status !in marks.Keys;
    case Body => assert Field !in marks.Keys && Value !in marks.Keys && Part.Url !in marks.Keys && Status !in marks.Keys;
  }

  /** At the end of a buffer at most one mark is set, and flushing it makes the callbacks the trace. */
  lemma FlushFits(x: Loop, t: Trace, data: Text, lo: nat, goal: Fate)
    requires AtHead(x, t, data, lo, goal) && x.p == |data|
    ensures goal.stop == Stop(x.s, t, [], Advance)
    ensures x.marks.Keys <= {MarkPart(x.s.state)} && |x.marks| <= 1
    ensures var log := FlushAll(x.log, x.marks, data); Joined(log) == t && Apart(log, lo)
  {
    hide Runs.Resume, Runs.Byte, Good, Apart, FlushAll, Joined, Add;
    assert data[|data|..] == [];
    var k := MarkPart(x.s.state);
    assert x.marks.Keys <= {k};
    AtMostOne(x.marks, k);
    FlushOne(x.log, x.marks, k, data);
    if k in x.marks {
      var e := Data(k, data[x.marks[k]..|data|]);
      assert data[x.marks[k]..] == data[x.marks[k]..|data|];
      JoinedSnoc(x.log, e);
      ApartSnoc(x.log, lo, e);
    }
  }

  lemma AtMostOne(marks: Marks, k: Part)
    requires marks.Keys <= {k}
    ensures |marks| <= 1
  {
    if marks.Keys != {} { assert marks.Keys == {k}; }
    assert |marks.Keys| <= 1;
    assert |marks| == |marks.Keys|;
  }

  /** The byte loop of http_parser_execute on a non-empty buffer. `n` is its result. */
  method Parse(s0: Parser, log0: seq<Event>, data: Text) returns (s: Parser, log: seq<Event>, n: nat, why: Control)
    requires Good(s0) && data != [] && NoWrap(s0, data)
    ensures var goal := Fated(s0, Joined(log0), data, NOT_BEGUN);
            var r := goal.stop;
            && (r.why.Fail? <==> why.Fail?)
            && (!why.Fail? ==> s == r.s && Joined(log) == r.t && n == |data| - |r.rest| && why == r.why)
            && (why.Fail? ==> Fails(goal, data, log, n, why))
    ensures why.Advance? || why.Exit? || why.Fail?
    ensures n <= |data| && (why.Advance? ==> n == |data|) && (why.Fail? ==> n < |data|) && s.config == s0.config
    ensures Apart(log, |log0|)
  {
    hide Runs.Run, Runs.Resume, Runs.Byte, Runs.Joined, Good, MarksFit, Owed, BodyFits, Apart, AtHead, AtByte;
    ghost var goal := Fated(s0, Joined(log0), data, NOT_BEGUN);
    ghost var t := Joined(log0);
    var x := Loop(s0, log0, Rearmed(s0.state), 0);
    RearmedFits(s0, log0, data);
    while x.p < |data|
      invariant x.p <= |data| && AtHead(x, t, data, |log0|, goal)
      invariant x.s.config == s0.config
    {
      CountFits(x, t, data, |log0|, goal);
      if ParsingHeader(x.s.state) {
        x := x.(s := Count(x.s, 1));
        if x.s.nread > x.s.config.maxHeaderSize {
          return x.s, x.log, x.p, Fail(HEADER_OVERFLOW);
        }
      }
      var y, w;
      y, w, t := AllVisits(x, data, t, |log0|, goal);
      if !w.Advance? {
        return y.s, y.log, if w.Exit? then y.p + 1 else y.p, w;
      }
      x := y.(p := y.p + 1);
    }
    FlushFits(x, t, data, |log0|, goal);
    assert |x.marks| <= 1;
    s, log, n, why := x.s, FlushAll(x.log, x.marks, data), |data|, Advance;
  }
}
