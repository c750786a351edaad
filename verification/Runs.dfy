/** The parser as one step per byte, and traces in which adjacent pieces of one
    data callback are joined. This is the reference that Execute.dfy refines. */
module Runs {
  import opened Bytes
  import opened Types
  import opened Table

  type Trace = seq<Event>

  /** Append an event, joining it with a last event of the same data callback. */
  function Add(t: Trace, e: Event): Trace {
    if e.Data? && t != [] && t[|t| - 1].Data? && t[|t| - 1].part == e.part
    then t[..|t| - 1] + [Data(e.part, t[|t| - 1].text + e.text)]
    else t + [e]
  }

  /** The callbacks `log` with adjacent data callbacks of one kind joined. */
  function Joined(log: seq<Event>): Trace {
    if log == [] then [] else Add(Joined(log[..|log| - 1]), log[|log| - 1])
  }

  /** What a visit adds to the trace. A text callback is an event even when it is
      empty (an empty status or header value); body spans are never empty. */
  function Report(t: Trace, a: Act, ch: char): Trace {
    var t1 := if a.take.Some? then Add(t, Data(a.take.value, [ch])) else t;
    var t2 := if a.close.Some? && !a.close.value.Body? then Add(t1, Data(a.close.value, [])) else t1;
    if a.notice.Some? then Add(t2, Note(a.notice.value)) else t2
  }

  datatype Point = Point(s: Parser, t: Trace, next: Control)

  /** All visits for one byte. */
  function Byte(s: Parser, t: Trace, ch: char): (r: Point)
    ensures !r.next.Again? && r.s.config == s.config && (r.next.Exit? ==> r.s.upgrade)
    decreases Rank(s.state)
  {
    var a := Visit(s, ch);
    var t' := Report(t, a, ch);
    if a.next.Again? then Byte(a.s, t', ch) else Point(a.s, t', a.next)
  }

  /** COUNT_HEADER_SIZE(1) at the top of the byte loop. */
  function Counted(s: Parser): Parser {
    if ParsingHeader(s.state) then s.(nread := s.nread + 1) else s
  }

  /** The struct after `k` more header bytes. */
  function Read(s: Parser, k: nat): Parser {
    s.(nread := s.nread + k)
  }

  /** The struct in state `st` after the header bytes `x`. */
  function Past(s: Parser, st: State, x: Text): Parser {
    s.(state := st, nread := s.nread + |x|)
  }

  /** The struct in state `st` after `k` more header bytes. */
  function Ahead(s: Parser, st: State, k: nat): Parser {
    s.(state := st, nread := s.nread + k)
  }

  predicate Overflows(s: Parser) {
    ParsingHeader(s.state) && s.nread + 1 > s.config.maxHeaderSize
  }

  /** Where a run stopped: the struct, the trace, the bytes not consumed and why
      (`Advance` means that it is waiting for more bytes). */
  datatype Stop = Stop(s: Parser, t: Trace, rest: Text, why: Control)

  /** One step per byte of `data`. */
  function Run(s: Parser, t: Trace, data: Text): (r: Stop)
    ensures !r.why.Again? && r.s.config == s.config && (r.why.Exit? ==> r.s.upgrade)
    decreases |data|, 1
  {
    if data == [] then Stop(s, t, data, Advance)
    else if Overflows(s) then Stop(Counted(s), t, data, Fail(HEADER_OVERFLOW))
    else Resume(Byte(Counted(s), t, data[0]), data)
  }

  /** Go on after the visits for `data[0]`. */
  function Resume(p: Point, data: Text): (r: Stop)
    requires data != [] && !p.next.Again? && (p.next.Exit? ==> p.s.upgrade)
    ensures !r.why.Again? && r.s.config == p.s.config && (r.why.Exit? ==> r.s.upgrade)
    decreases |data|, 0
  {
    match p.next
    case Advance => Run(p.s, p.t, data[1..])
    case Exit => Stop(p.s, p.t, data[1..], Exit)
    case _ => Stop(p.s, p.t, data, p.next)
  }

  lemma RunNothing(s: Parser, t: Trace)
    ensures Run(s, t, []) == Stop(s, t, [], Advance)
  {
    hide Byte;
  }

  /** A visit that only reports a notice and goes on with the same byte. */
  lemma NoticeThenAgain(s: Parser, t: Trace, ch: char, s': Parser, n: Notice)
    requires Visit(s, ch) == Act(s', None, None, None, Some(n), Again)
    ensures Byte(s, t, ch) == Byte(s', t + [Note(n)], ch)
  {
    hide Visit;
  }

  /** A visit that reports nothing and goes on with the same byte. */
  lemma SilentThenAgain(s: Parser, t: Trace, ch: char)
    requires var a := Visit(s, ch); a.next.Again? && a.take.None? && a.close.None? && a.notice.None?
    ensures Byte(s, t, ch) == Byte(Visit(s, ch).s, t, ch)
  {
    hide Visit;
  }

  /** One byte of a run. */
  lemma RunByte(s: Parser, t: Trace, ch: char, y: Text)
    requires !Overflows(s) && Byte(Counted(s), t, ch).next.Advance?
    ensures Run(s, t, [ch] + y) == Run(Byte(Counted(s), t, ch).s, Byte(Counted(s), t, ch).t, y)
  {
    hide Visit, Byte;
    assert ([ch] + y)[0] == ch && ([ch] + y)[1..] == y;
  }

  /** A text as all but its last byte, its last byte and what follows. */
  lemma LastApart(x: Text, y: Text)
    requires x != []
    ensures x + y == x[..|x| - 1] + ([x[|x| - 1]] + y) && x[..|x| - 1] + [x[|x| - 1]] == x
    ensures |x| == 1 ==> x == [x[0]] && x + y == [x[0]] + y
  {
  }

  /** Joining is associative where it joins. */
  lemma AddPieces(t: Trace, k: Part, a: Text, b: Text)
    ensures Add(Add(t, Data(k, a)), Data(k, b)) == Add(t, Data(k, a + b))
  {
    var u := Add(t, Data(k, a));
    if |t| > 0 && t[|t| - 1].Data? && t[|t| - 1].part == k {
      assert u[..|u| - 1] == t[..|t| - 1];
      assert t[|t| - 1].text + a + b == t[|t| - 1].text + (a + b);
    } else {
      assert u[..|u| - 1] == t;
    }
  }

  /** Cutting the input anywhere changes nothing: a run over `a + b` is a run over `a`
      followed by a run over `b` from where the first one waits. When the first one
      stops early it stops at the same byte and `b` is left over. */
  lemma {:induction false} RunSplit(s: Parser, t: Trace, a: Text, b: Text)
    ensures var r := Run(s, t, a);
            Run(s, t, a + b) == if r.why.Advance? then Run(r.s, r.t, b) else r.(rest := r.rest + b)
    decreases |a|
  {
    hide Table.Visit;
    if a == [] {
      assert a + b == b;
    } else {
      assert (a + b)[0] == a[0] && (a + b)[1..] == a[1..] + b;
      if !Overflows(s) {
        var p := Byte(Counted(s), t, a[0]);
        if p.next.Advance? { RunSplit(p.s, p.t, a[1..], b); }
      }
    }
  }

  /** A call with no bytes: the peer closed the connection. */
  function EndOfInput(s: Parser, t: Trace): (Trace, Option<Errno>) {
    match s.state
    case BodyIdentityEof => (Add(t, Note(MessageComplete)), None)
    case Idle(_) => (t, None)
    case _ => (t, Some(INVALID_EOF_STATE))
  }

  function Flatten(bufs: seq<Text>): Text {
    if bufs == [] then [] else bufs[0] + Flatten(bufs[1..])
  }

  /** Feeding buffers one after the other, stopping where a call stops. */
  function RunAll(s: Parser, t: Trace, bufs: seq<Text>): Stop
    decreases |bufs|
  {
    if bufs == [] then Stop(s, t, [], Advance)
    else
      var r := Run(s, t, bufs[0]);
      if r.why.Advance? then RunAll(r.s, r.t, bufs[1..]) else r.(rest := r.rest + Flatten(bufs[1..]))
  }

  /** Every cutting of an input gives the run over the whole input. */
  lemma {:induction false} RunAnyCutting(s: Parser, t: Trace, bufs: seq<Text>)
    ensures RunAll(s, t, bufs) == Run(s, t, Flatten(bufs))
    decreases |bufs|
  {
    hide Table.Visit;
    if bufs != [] {
      var r := Run(s, t, bufs[0]);
      RunSplit(s, t, bufs[0], Flatten(bufs[1..]));
      if r.why.Advance? { RunAnyCutting(r.s, r.t, bufs[1..]); }
    }
  }
}
