/** Where the code and the byte-wise run differ: headers that are too long. The code scans names and values in bulk and
    counts them afterwards, so it may stop later, after more callbacks, and with another error. */
module Overflow {
  import opened Bytes
  import opened Types
  import opened HeaderWords
  import opened Table
  import opened Runs
  import opened Scans
  import opened Invariants
  import opened Shape
  import opened Counting
  import opened HeaderText
  import opened HeaderLines
  import opened Execute
  import opened Responses

  // Enough for full agreement: the buffer fits into what is left of the header size.

  lemma {:induction false} ByteErrors(s: Parser, t: Trace, ch: char)
    ensures Byte(s, t, ch).next != Fail(HEADER_OVERFLOW)
    decreases Rank(s.state)
  {
    hide Visit, Report;
    VisitFails(s, ch);
    var a := Visit(s, ch);
    if a.next.Again? { ByteErrors(a.s, Report(t, a, ch), ch); }
  }

  /** A buffer that fits into what is left of the header size never exceeds it. */
  lemma {:induction false} FitsLimit(s: Parser, t: Trace, data: Text)
    requires s.nread + |data| <= s.config.maxHeaderSize
    ensures Run(s, t, data).why != Fail(HEADER_OVERFLOW)
    decreases |data|
  {
    hide Visit, Byte;
    if data != [] {
      var p := Byte(Counted(s), t, data[0]);
      ByteCounts(Counted(s), t, data[0]);
      ByteErrors(Counted(s), t, data[0]);
      if p.next.Advance? { FitsLimit(p.s, p.t, data[1..]); }
    }
  }

  /** A caller that keeps to this guard gets the byte-wise run in every respect. */
  method ParseWithinLimit(s0: Parser, log0: seq<Event>, data: Text) returns (s: Parser, log: seq<Event>, n: nat, why: Control)
    requires Good(s0) && data != [] && NoWrap(s0, data) && s0.nread + |data| <= s0.config.maxHeaderSize
    ensures var r := Run(s0, Joined(log0), data);
            && why == r.why && n == |data| - |r.rest|
            && (if why.Fail? then IsBehind(Joined(log), r.t) else s == r.s && Joined(log) == r.t)
  {
    FitsLimit(s0, Joined(log0), data);
    hide Run, Good, Joined, IsBehind, Overran, Caught;
    s, log, n, why := Parse(s0, log0, data);
  }

  // The exact condition under which the error differs, once the header size is exceeded.

  /** What a scan over a value knows at a byte: the matcher, the framing and the place in the lap of the tight loop. */
  datatype Look = Look(m: Matcher, f: Framing, lap: nat)

  /** The tight loop passes a byte unread at the end of each lap. */
  predicate IsPassed(c: Config, l: Look) {
    l.m.header.General? && l.lap == c.maxHeaderSize
  }

  function Looked(c: Config, l: Look, ch: char): Look {
    if IsPassed(c, l) then l.(lap := 0)
    else match ValueByte(l.m, l.f, ch)
      case Head(m, f) => Look(m, f, NextLap(c, l.m.header, l.lap))
      case _ => l
  }

  /** What is known at byte `i`, starting with `l` at byte `k`. */
  function LookAt(c: Config, l: Look, data: Text, k: nat, i: nat): Look
    requires k <= i <= |data|
  {
    if i == k then l else Looked(c, LookAt(c, l, data, k, i - 1), data[i - 1])
  }

  predicate EndsValue(c: Config, l: Look, ch: char) {
    !IsPassed(c, l) && (ch == CR || ch == LF)
  }

  /** The error for a byte that the value cannot hold. */
  function Refusal(c: Config, l: Look, ch: char): (r: Option<Errno>)
    ensures r != Some(HEADER_OVERFLOW)
  {
    if IsPassed(c, l) || ch == CR || ch == LF then None
    else if !c.lenient && !IsHeaderChar(ch) then Some(INVALID_HEADER_TOKEN)
    else match ValueByte(l.m, l.f, ch)
      case Refused(e) => Some(e)
      case _ => None
  }

  /** From `k` on, the first byte that the scan reads and the value cannot hold is at `q`, before the line ends. */
  predicate RefusedAt(c: Config, l: Look, data: Text, k: nat, q: nat) {
    && k <= q < |data| && Refusal(c, LookAt(c, l, data, k, q), data[q]).Some?
    && forall i :: k <= i < q ==>
         var at := LookAt(c, l, data, k, i); Refusal(c, at, data[i]).None? && !EndsValue(c, at, data[i])
  }

  lemma {:induction false} LookFromNext(c: Config, l: Look, data: Text, k: nat, i: nat)
    requires k < i <= |data|
    ensures LookAt(c, l, data, k, i) == LookAt(c, Looked(c, l, data[k]), data, k + 1, i)
    decreases i
  {
    hide Looked;
    if i > k + 1 { LookFromNext(c, l, data, k, i - 1); }
  }

  /** After a byte that is no end, the first refused byte is the first one behind it. */
  lemma RefusedNext(c: Config, l: Look, data: Text, k: nat, q: nat)
    requires k < |data| && Refusal(c, l, data[k]).None? && !EndsValue(c, l, data[k])
    ensures RefusedAt(c, l, data, k, q) <==> RefusedAt(c, Looked(c, l, data[k]), data, k + 1, q)
  {
    hide Looked, Refusal, EndsValue;
    var l1 := Looked(c, l, data[k]);
    forall i | k < i <= |data| ensures LookAt(c, l, data, k, i) == LookAt(c, l1, data, k + 1, i) { LookFromNext(c, l, data, k, i); }
    assert LookAt(c, l, data, k, k) == l;
  }

  lemma HaltIs(st: State, c: Config, l: Look, data: Text, p: nat)
    requires st == InValue(HeaderValue) && p < |data|
    ensures var h := HaltFrom(st, c, l.m, l.f, data, p, l.lap);
            && (EndsValue(c, l, data[p]) ==> h.errno == HEADER_OVERFLOW)
            && (Refusal(c, l, data[p]).Some? ==> h == Halt(p, Refusal(c, l, data[p]).value, false))
            && (!EndsValue(c, l, data[p]) && Refusal(c, l, data[p]).None? ==>
                  var n := Looked(c, l, data[p]); h == HaltFrom(st, c, n.m, n.f, data, p + 1, n.lap))
  {
    hide ValueByte, IsHeaderChar, NextLap;
  }

  /** A scan past the limit ends in a refusal exactly when there is a refused byte ahead, and there. */
  lemma {:induction false} HaltExactly(st: State, c: Config, l: Look, data: Text, p: nat)
    requires st == InValue(HeaderValue) && p <= |data| && data != []
    ensures var h := HaltFrom(st, c, l.m, l.f, data, p, l.lap);
            && (h.errno != HEADER_OVERFLOW <==> RefusedAt(c, l, data, p, h.at))
            && (forall q: nat :: RefusedAt(c, l, data, p, q) ==>
                  h == Halt(q, Refusal(c, LookAt(c, l, data, p, q), data[q]).value, false))
    decreases |data| - p
  {
    hide Refusal, EndsValue, Looked;
    if p < |data| {
      HaltIs(st, c, l, data, p);
      assert LookAt(c, l, data, p, p) == l;
      if !EndsValue(c, l, data[p]) && Refusal(c, l, data[p]).None? {
        var n := Looked(c, l, data[p]);
        HaltExactly(st, c, n, data, p + 1);
        forall q: nat ensures RefusedAt(c, l, data, p, q) <==> RefusedAt(c, n, data, p + 1, q) { RefusedNext(c, l, data, p, q); }
        forall q: nat | RefusedAt(c, l, data, p, q) ensures LookAt(c, l, data, p, q) == LookAt(c, n, data, p + 1, q) { LookFromNext(c, l, data, p, q); }
        hide HaltFrom, LookAt, RefusedAt;
      }
    }
  }

  /** What the scan knows at the byte at which the byte-wise run exceeds the header size. */
  function LookThere(goal: Fate): Look {
    Look(goal.stop.s.matcher, goal.stop.s.framing, goal.scan.lap)
  }

  /** That byte is in a value, and its scan began at an earlier byte of the call. */
  predicate InValueScan(goal: Fate) {
    goal.scan.taken > 0 && goal.stop.s.state == InValue(HeaderValue)
  }

  /** For every call that fails while its byte-wise run exceeds the header size, at byte `k`: the error is another one
      exactly when `k` is in a value whose scan began earlier in the call, and from `k` on a byte that the value cannot
      hold is read before the line or the buffer ends. The error is then the one for that byte, and the call stops
      there. In every other case the error is the same, and the call never stops before `k`. */
  lemma ErrorDiffersExactly(goal: Fate, data: Text, log: seq<Event>, n: nat, why: Control)
    requires goal.stop.why == Fail(HEADER_OVERFLOW) && Fails(goal, data, log, n, why)
    ensures var k, c, l := |data| - |goal.stop.rest|, goal.stop.s.config, LookThere(goal);
            && 0 <= k <= n < |data|
            && (why != Fail(HEADER_OVERFLOW) <==> InValueScan(goal) && exists q: nat :: RefusedAt(c, l, data, k, q))
            && (forall q: nat :: InValueScan(goal) && RefusedAt(c, l, data, k, q) ==>
                  n == q && why == Fail(Refusal(c, LookAt(c, l, data, k, q), data[q]).value))
  {
    hide *;
    var k := |data| - |goal.stop.rest|;
    OverranParts(goal, data, log, n, why);
    if InValueScan(goal) {
      LookIs(goal, data, k);
      HaltExactly(goal.stop.s.state, goal.stop.s.config, LookThere(goal), data, k);
    } else if goal.scan.taken > 0 {
      NotInValue(goal);
      NameHaltIs(goal.stop.s, data, k, goal.scan.lap);
    }
  }

  /** What Overran says, case by case. */
  lemma OverranParts(goal: Fate, data: Text, log: seq<Event>, n: nat, why: Control)
    requires goal.stop.why == Fail(HEADER_OVERFLOW) && Fails(goal, data, log, n, why)
    ensures var k := |data| - |goal.stop.rest|;
            && 0 <= k < |data|
            && (goal.scan.taken == 0 ==> why == Fail(HEADER_OVERFLOW) && n == k && !InValueScan(goal))
            && (goal.scan.taken > 0 ==>
                  var h := HaltOf(goal.stop.s, data, k, goal.scan.lap);
                  && IsScanned(goal.stop.s.state) && why == Fail(h.errno) && n == h.at && k <= n < |data|
                  && (h.reported ==> Joined(log) == Add(goal.stop.t, Data(Value, data[k..n]))))
  {
    hide HaltOf, IsBehind, Joined, Add;
  }

  lemma LookIs(goal: Fate, data: Text, k: nat)
    requires k < |data| && InValueScan(goal)
    ensures var s, l := goal.stop.s, LookThere(goal);
            && s.state == InValue(HeaderValue) && goal.scan.taken > 0
            && HaltOf(s, data, k, goal.scan.lap) == HaltFrom(s.state, s.config, l.m, l.f, data, k, l.lap)
  {
    hide HaltFrom;
  }

  lemma NotInValue(goal: Fate)
    requires !InValueScan(goal) && goal.scan.taken > 0 && IsScanned(goal.stop.s.state)
    ensures goal.stop.s.state == InName(HeaderField)
  {
  }

  lemma NameHaltIs(s: Parser, data: Text, p: nat, lap: nat)
    requires s.state == InName(HeaderField) && p <= |data| && data != []
    ensures HaltOf(s, data, p, lap) == Halt(NameEnd(data, p), HEADER_OVERFLOW, false)
  {
  }

  /** The condition in closed form for a value that nobody looks into: `k` is at place `lap` of a lap, and every lap
      passes the byte at its end. */
  predicate PassedAt(c: Config, lap: nat, k: nat, i: nat)
    requires k <= i
  {
    (lap + (i - k)) % (c.maxHeaderSize + 1) == c.maxHeaderSize
  }

  lemma {:induction false} PlainLook(c: Config, l: Look, data: Text, k: nat, i: nat)
    requires l.m.header.General? && l.lap <= c.maxHeaderSize && k <= i <= |data|
    ensures LookAt(c, l, data, k, i) == l.(lap := (l.lap + (i - k)) % (c.maxHeaderSize + 1))
    ensures IsPassed(c, LookAt(c, l, data, k, i)) <==> PassedAt(c, l.lap, k, i)
    decreases i
  {
    if i == k {
      Small(l.lap, c.maxHeaderSize + 1);
    } else {
      PlainLook(c, l, data, k, i - 1);
      NextRemainder(l.lap + (i - 1 - k), c.maxHeaderSize + 1);
    }
  }

  lemma Small(a: nat, n: nat)
    requires a < n
    ensures a % n == a
  {
  }

  lemma NextRemainder(a: nat, n: nat)
    requires n > 0
    ensures (a + 1) % n == if a % n == n - 1 then 0 else a % n + 1
  {
    var q, r := a / n, a % n;
    if r == n - 1 {
      assert a + 1 == (q + 1) * n + 0;
      Remainder(a + 1, q + 1, 0, n);
    } else {
      Remainder(a + 1, q, r + 1, n);
    }
  }

  lemma Remainder(a: nat, q: nat, r: nat, n: nat)
    requires r < n && a == q * n + r
    ensures a % n == r
  {
    var d := a / n - q;
    assert a == (a / n) * n + a % n;
    assert d * n == r - a % n;
    Multiple(d, n);
  }

  lemma Multiple(d: int, n: nat)
    ensures d >= 1 ==> d * n >= n
    ensures d <= -1 ==> d * n + n <= 0
  {
    if d >= 1 { assert (d - 1) * n >= 0; }
    if d <= -1 { assert (-1 - d) * n >= 0; }
  }

  /** For a value that nobody looks into, a refused byte is a control byte at a place that is read, with only header
      bytes and no line end at the places read before it. */
  lemma PlainRefusal(c: Config, l: Look, data: Text, k: nat, q: nat)
    requires l.m.header.General? && l.lap <= c.maxHeaderSize
    ensures RefusedAt(c, l, data, k, q) <==>
              && !c.lenient && k <= q < |data| && !PassedAt(c, l.lap, k, q) && !IsHeaderChar(data[q])
              && forall i :: k <= i < q ==> PassedAt(c, l.lap, k, i) || (data[i] != CR && data[i] != LF && IsHeaderChar(data[i]))
  {
    LineEndsAreHeaderChars();
    forall i | k <= i <= q && i < |data|
      ensures var at := LookAt(c, l, data, k, i);
              && (Refusal(c, at, data[i]).Some? <==> !c.lenient && !PassedAt(c, l.lap, k, i) && !IsHeaderChar(data[i]))
              && (EndsValue(c, at, data[i]) <==> !PassedAt(c, l.lap, k, i) && (data[i] == CR || data[i] == LF))
    {
      PlainLook(c, l, data, k, i);
    }
    hide LookAt, Refusal, EndsValue, PassedAt, IsHeaderChar;
  }

  lemma LineEndsAreHeaderChars()
    ensures IsHeaderChar(CR) && IsHeaderChar(LF)
  {
  }

  // Inputs that show it, from the first byte of a connection on.

  /** What is read up to a state that no scan is in does not matter. */
  lemma {:induction false} CaughtAfter(s: Parser, t: Trace, a: Text, b: Text, d: Progress)
    requires var r := Run(s, t, a); a != [] && r.why.Advance? && !IsScanned(r.s.state)
    ensures var r := Run(s, t, a); Caught(s, t, a + b, d) == Caught(r.s, r.t, b, NOT_BEGUN)
    decreases |a|
  {
    hide Visit, Byte;
    assert (a + b)[0] == a[0] && (a + b)[1..] == a[1..] + b;
    var p := Byte(Counted(s), t, a[0]);
    var d1 := Scanned(d, Counted(s), p.s);
    if |a| == 1 {
      assert a[1..] == [] && a[1..] + b == b;
      RunNothing(p.s, p.t);
    } else {
      CaughtAfter(p.s, p.t, a[1..], b, d1);
    }
  }

  /** The bytes of a status line. */
  function StatusLength(r: Response): nat {
    9 + |r.code| + ReasonLength(r) + |r.eol.Text()|
  }

  /** A parser for which four bytes are left after the status line. */
  function Tight(r: Response): Parser {
    Init(Kind.Response, Config(false, false, StatusLength(r) + 4))
  }

  lemma OneMore(s: Parser, t: Trace, ch: char, y: Text, d: Progress)
    requires !Overflows(s) && Byte(Counted(s), t, ch).next.Advance?
    ensures var p := Byte(Counted(s), t, ch);
            Fated(s, t, [ch] + y, d) == Fated(p.s, p.t, y, Scanned(d, Counted(s), p.s))
  {
    hide Visit, Byte, Run;
    RunByte(s, t, ch, y);
    var data := [ch] + y;
    assert data[0] == ch && data[1..] == y;
    var p := Byte(Counted(s), t, ch);
    assert Caught(s, t, data, d) == CaughtOn(Counted(s), p, data, d);
  }

  lemma TooMuch(s: Parser, t: Trace, ch: char, y: Text, d: Progress)
    requires Overflows(s)
    ensures Fated(s, t, [ch] + y, d) == Fate(Stop(Counted(s), t, [ch] + y, Fail(HEADER_OVERFLOW)), d)
  {
    hide Byte;
  }

  lemma LetterX()
    ensures Token('X') != NUL && FirstNameState(Token('X')) == General
  {
  }

  /** The header `X` up to the first byte of its value. */
  lemma ShortName(s: Parser, t: Trace, y: Text)
    requires s.state.HeaderFieldStart? && s.nread + 3 <= s.config.maxHeaderSize
    ensures Fated(s, t, ['X'] + ([':'] + (['a'] + y)), NOT_BEGUN)
         == Fated(s.(state := InValue(HeaderValue), matcher := Matcher(General, 0), nread := s.nread + 3),
                  Add(Add(Add(t, Data(Field, ['X'])), Data(Field, [])), Data(Value, ['a'])), y, NOT_BEGUN)
  {
    hide *;
    var y2, t1 := ['a'] + y, Add(t, Data(Field, ['X']));
    StepX(s, t, [':'] + y2);
    StepColon(s.(state := InName(HeaderField), matcher := Matcher(General, 0), nread := s.nread + 1), t1, y2);
    StepValue(s.(state := InName(HeaderValueDiscardWs), matcher := Matcher(General, 0), nread := s.nread + 2), Add(t1, Data(Field, [])), y);
  }

  lemma StepX(s: Parser, t: Trace, y: Text)
    requires s.state.HeaderFieldStart? && s.nread < s.config.maxHeaderSize
    ensures Fated(s, t, ['X'] + y, NOT_BEGUN)
         == Fated(s.(state := InName(HeaderField), matcher := Matcher(General, 0), nread := s.nread + 1), Add(t, Data(Field, ['X'])), y, NOT_BEGUN)
  {
    hide Run, Byte, Caught, Add, Token, FirstNameState, Fated;
    LetterX();
    FirstNameByte(Counted(s), t, 'X');
    OneMore(s, t, 'X', y, NOT_BEGUN);
  }

  lemma StepColon(s: Parser, t: Trace, y: Text)
    requires s.state == InName(HeaderField) && s.nread < s.config.maxHeaderSize
    ensures Fated(s, t, [':'] + y, NOT_BEGUN)
         == Fated(s.(state := InName(HeaderValueDiscardWs), nread := s.nread + 1), Add(t, Data(Field, [])), y, NOT_BEGUN)
  {
    hide Run, Byte, Caught, Add, Fated;
    ColonByte(Counted(s), t);
    OneMore(s, t, ':', y, NOT_BEGUN);
  }

  lemma StepValue(s: Parser, t: Trace, y: Text)
    requires s.state == InName(HeaderValueDiscardWs) && s.matcher.header.General? && s.nread < s.config.maxHeaderSize
    ensures Fated(s, t, ['a'] + y, NOT_BEGUN)
         == Fated(s.(state := InValue(HeaderValue), matcher := Matcher(General, 0), nread := s.nread + 1), Add(t, Data(Value, ['a'])), y, NOT_BEGUN)
  {
    hide Run, Byte, Caught, Add, Fated;
    FirstValueByte(Counted(s), t, 'a');
    OneMore(s, t, 'a', y, NOT_BEGUN);
  }

  /** One more byte of the value, and one that is too much. */
  lemma ShortValue(s: Parser, t: Trace, y: Text)
    requires s.state == InValue(HeaderValue) && s.matcher.header.General? && s.nread + 1 == s.config.maxHeaderSize
    ensures var goal := Fated(s, t, ['a'] + (['a'] + y), NOT_BEGUN);
            && goal.stop.why == Fail(HEADER_OVERFLOW) && goal.stop.rest == ['a'] + y && goal.scan == Progress(1, 1)
            && goal.stop.s == s.(nread := s.nread + 2)
  {
    hide Run, Byte, Caught, Add;
    NextValueByte(Counted(s), t, 'a');
    OneMore(s, t, 'a', ['a'] + y, NOT_BEGUN);
    TooMuch(s.(nread := s.nread + 1), Add(t, Data(Value, ['a'])), 'a', y, Progress(1, 1));
  }

  /** The header `X`, its value's first two bytes, and one byte too much. */
  lemma ShortHeader(s: Parser, t: Trace, y: Text)
    requires s.state.HeaderFieldStart? && s.nread + 4 == s.config.maxHeaderSize
    ensures var goal := Fated(s, t, ['X'] + ([':'] + (['a'] + (['a'] + (['a'] + y)))), NOT_BEGUN);
            && goal.stop.why == Fail(HEADER_OVERFLOW) && goal.stop.rest == ['a'] + y && goal.scan == Progress(1, 1)
            && goal.stop.s == s.(state := InValue(HeaderValue), matcher := Matcher(General, 0), nread := s.nread + 5)
  {
    hide *;
    var t3 := Add(Add(Add(t, Data(Field, ['X'])), Data(Field, [])), Data(Value, ['a']));
    ShortName(s, t, ['a'] + (['a'] + y));
    ShortValue(s.(state := InValue(HeaderValue), matcher := Matcher(General, 0), nread := s.nread + 3), t3, y);
  }

  function ShortText(y: Text): Text {
    ['X'] + ([':'] + (['a'] + (['a'] + (['a'] + y))))
  }

  /** A response with that header, of which the parser may read only two bytes of the value. */
  function LongText(r: Response, y: Text): Text {
    StatusThen(r, ShortText(y))
  }

  lemma StatusApart(r: Response, y: Text)
    ensures StatusThen(r, y) == StatusThen(r, []) + y
  {
    assert r.eol.Text() + y == r.eol.Text() + [] + y;
    assert ReasonThen(r, y) == ReasonThen(r, []) + y;
    hide ReasonThen;
    var a, b := r.code + ReasonThen(r, y), r.code + ReasonThen(r, []);
    assert a == b + y;
    assert [' '] + a == [' '] + b + y;
  }

  lemma LongGoal(r: Response, y: Text)
    requires IsStatusLine(r)
    ensures var goal, s := Fated(Tight(r), [], LongText(r, y), NOT_BEGUN), Tight(r);
            && goal.stop.why == Fail(HEADER_OVERFLOW) && goal.stop.rest == ['a'] + y && goal.scan == Progress(1, 1)
            && goal.stop.s.state == InValue(HeaderValue) && goal.stop.s.matcher.header.General? && goal.stop.s.config == s.config
  {
    hide *;
    var s, t, y1 := Tight(r), [Note(MessageBegin), Data(Status, ReasonText(r))], ShortText(y);
    var a := StatusThen(r, []);
    TightIs(s, r);
    StatusLineRun(s, [], r, []);
    RunNothing(InHeaders(s, r), t);
    assert [] + t == t;
    StatusApart(r, y1);
    RunSplit(s, [], a, y1);
    CaughtAfter(s, [], a, y1, NOT_BEGUN);
    FatedIs(s, [], a + y1);
    FatedIs(InHeaders(s, r), t, y1);
    LongIs(r, y);
    ShortHeader(InHeaders(s, r), t, y);
  }

  lemma FatedIs(s: Parser, t: Trace, data: Text)
    ensures Fated(s, t, data, NOT_BEGUN) == Fate(Run(s, t, data), Caught(s, t, data, NOT_BEGUN))
  {
    hide Run, Caught;
  }

  lemma LongIs(r: Response, y: Text)
    ensures LongText(r, y) == StatusThen(r, ShortText(y)) && ShortText(y) == ['X'] + ([':'] + (['a'] + (['a'] + (['a'] + y))))
  {
    hide StatusThen;
  }

  lemma TightIs(s: Parser, r: Response)
    requires s == Tight(r) && IsStatusLine(r)
    ensures Good(s) && s.state == Idle(StartRes) && s.nread == 0 && s.config.maxHeaderSize == StatusLength(r) + 4
    ensures StatusLength(r) == 9 + |r.code| + ReasonLength(r) + |r.eol.Text()| && StatusThen(r, []) != []
    ensures var z := InHeaders(s, r); z.state.HeaderFieldStart? && z.nread == StatusLength(r) && z.config == s.config
    ensures !IsScanned(HeaderFieldStart)
  {
    InitGood(Kind.Response, s.config);
    hide Good, Decimal, AllDigits, IsReason;
  }

  lemma LongEnd(r: Response, y: Text)
    ensures var data := LongText(r, y);
            |data| > |y| + 1 && data[|data| - |y| - 1] == 'a' && data[|data| - |y|..] == y
  {
    StatusApart(r, ShortText(y));
    hide StatusThen;
  }

  /** A parser inside a value that nobody looks into. */
  predicate InPlainValue(s: Parser) {
    s.state == InValue(HeaderValue) && s.matcher.header.General? && !s.config.lenient && s.config.maxHeaderSize > 3
  }

  lemma HaltsAtBad(s: Parser, data: Text, k: nat)
    requires InPlainValue(s) && k + 1 < |data| && data[k] == 'a' && data[k + 1] == 1 as char
    ensures HaltOf(s, data, k, 1) == Halt(k + 1, INVALID_HEADER_TOKEN, false)
  {
    assert ValueByte(s.matcher, s.framing, 'a') == Head(s.matcher, s.framing);
    assert HaltFrom(s.state, s.config, s.matcher, s.framing, data, k + 1, 2) == Halt(k + 1, INVALID_HEADER_TOKEN, false);
  }

  lemma HaltsAtReturn(s: Parser, data: Text, k: nat)
    requires InPlainValue(s) && k + 2 < |data| && data[k] == data[k + 1] == 'a' && data[k + 2] == CR
    ensures HaltOf(s, data, k, 1) == Halt(k + 2, HEADER_OVERFLOW, true)
  {
    assert ValueByte(s.matcher, s.framing, 'a') == Head(s.matcher, s.framing);
    assert HaltFrom(s.state, s.config, s.matcher, s.framing, data, k + 2, 3) == Halt(k + 2, HEADER_OVERFLOW, true);
    assert HaltFrom(s.state, s.config, s.matcher, s.framing, data, k + 1, 2) == Halt(k + 2, HEADER_OVERFLOW, true);
  }

  lemma MalformedGoal(r: Response)
    requires IsStatusLine(r)
    ensures var data := LongText(r, [1 as char]);
            var goal := Fated(Tight(r), [], data, NOT_BEGUN);
            && goal.stop.why == Fail(HEADER_OVERFLOW) && |goal.stop.rest| == 2 < |data| && goal.scan == Progress(1, 1)
            && HaltOf(goal.stop.s, data, |data| - 2, 1) == Halt(|data| - 1, INVALID_HEADER_TOKEN, false)
  {
    hide *;
    var y := [1 as char];
    var data := LongText(r, y);
    LongGoal(r, y);
    LongEnd(r, y);
    TightIs(Tight(r), r);
    assert data[|data| - 1] == data[|data| - 1..][0];
    var z := Fated(Tight(r), [], data, NOT_BEGUN).stop.s;
    PlainIs(z, r);
    HaltsAtBad(z, data, |data| - 2);
  }

  lemma PlainIs(s: Parser, r: Response)
    requires s.state == InValue(HeaderValue) && s.matcher.header.General? && s.config == Tight(r).config
    ensures InPlainValue(s)
  {
  }

  /** A value that is too long and holds a control byte: one-byte calls refuse its size, a call on the whole refuses the
      control byte. */
  method LongAndMalformed(r: Response) returns (n: nat, why: Control)
    requires IsStatusLine(r) && StatusLength(r) + |LongText(r, [1 as char])| < 0x4000_0000
    ensures var data := LongText(r, [1 as char]);
            && Run(Tight(r), [], data).why == Fail(HEADER_OVERFLOW) && |Run(Tight(r), [], data).rest| == 2
            && why == Fail(INVALID_HEADER_TOKEN) && n == |data| - 1
  {
    hide *;
    var data, s := LongText(r, [1 as char]), Tight(r);
    TightIs(s, r);
    Unwrapped(s, data);
    NothingJoined();
    MalformedGoal(r);
    var z, log;
    z, log, n, why := Parse(s, [], data);
    FatedIs(s, [], data);
    OverranParts(Fated(s, [], data, NOT_BEGUN), data, log, n, why);
  }

  lemma Unwrapped(s: Parser, data: Text)
    requires s.config.maxHeaderSize + |data| < 0x1_0000_0000
    ensures NoWrap(s, data)
  {
  }

  const REST: Text := ['a', CR, LF]

  lemma WellFormedGoal(r: Response)
    requires IsStatusLine(r)
    ensures var data := LongText(r, REST);
            var goal := Fated(Tight(r), [], data, NOT_BEGUN);
            && goal.stop.why == Fail(HEADER_OVERFLOW) && |goal.stop.rest| == 4 < |data| && goal.scan == Progress(1, 1)
            && HaltOf(goal.stop.s, data, |data| - 4, 1) == Halt(|data| - 2, HEADER_OVERFLOW, true)
            && data[|data| - 4..|data| - 2] == "aa"
  {
    hide *;
    var data := LongText(r, REST);
    LongGoal(r, REST);
    LongEnd(r, REST);
    TightIs(Tight(r), r);
    FourIs(data);
    var z := Fated(Tight(r), [], data, NOT_BEGUN).stop.s;
    PlainIs(z, r);
    HaltsAtReturn(z, data, |data| - 4);
  }

  lemma FourIs(data: Text)
    requires |data| > |REST| + 1 && data[|data| - |REST| - 1] == 'a' && data[|data| - |REST|..] == REST
    ensures |REST| == 3 && data[|data| - 4] == data[|data| - 3] == 'a' && data[|data| - 2] == CR
    ensures data[|data| - 4..|data| - 2] == "aa"
  {
    var e := data[|data| - 3..];
    assert data[|data| - 3] == e[0] && data[|data| - 2] == e[1];
  }

  /** A value that is only too long: the error is the same, but the call reads on to the end of the line and reports
      the whole value, of which one-byte calls report two bytes. */
  method LongButWellFormed(r: Response) returns (log: seq<Event>, n: nat, why: Control)
    requires IsStatusLine(r) && StatusLength(r) + |LongText(r, REST)| < 0x4000_0000
    ensures var data := LongText(r, REST);
            var goal := Run(Tight(r), [], data);
            && goal.why == Fail(HEADER_OVERFLOW) && |goal.rest| == 4
            && why == Fail(HEADER_OVERFLOW) && n == |data| - 2 && Joined(log) == Add(goal.t, Data(Value, "aa"))
  {
    hide *;
    var data, s := LongText(r, REST), Tight(r);
    TightIs(s, r);
    Unwrapped(s, data);
    NothingJoined();
    WellFormedGoal(r);
    var z;
    z, log, n, why := Parse(s, [], data);
    FatedIs(s, [], data);
    OverranParts(Fated(s, [], data, NOT_BEGUN), data, log, n, why);
  }

  lemma NothingJoined()
    ensures Joined([]) == []
  {
  }
}
