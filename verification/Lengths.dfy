/** A message framed by Content-Length: the body is exactly that many bytes. */
module Lengths {
  import opened Bytes
  import opened Types
  import opened Table
  import opened Runs
  import opened Invariants
  import opened Bodies
  import opened Grammar
  import opened HeaderText
  import opened Views
  import opened Ledgers
  import opened Traces

  /** The struct after a message whose last body byte was read. */
  function Finished(s: Parser): Parser {
    var z := WithLength(s, 0).(state := MessageDone);
    z.(state := NewMessage(z))
  }

  lemma EndByte(s: Parser, t: Trace, ch: char)
    requires s.state.MessageDone?
    ensures Byte(s, t, ch)
         == Point(s.(state := NewMessage(s)), t + [Note(MessageComplete)], if s.upgrade then Exit else Advance)
  {
    hide NewMessage;
  }

  lemma LengthBody(s: Parser, t: Trace, body: Text, y: Text)
    requires Good(s) && s.state.BodyIdentity? && |body| == s.framing.contentLength
    ensures var t' := AddText(t, Body, body) + [Note(MessageComplete)];
            Run(s, t, body + y) == if s.upgrade then Stop(Finished(s), t', y, Exit) else Run(Finished(s), t', y)
  {
    hide Visit, Byte, NewMessage, AddText;
    assert 0 < s.framing.contentLength < U64_MAX;
    var last := body[|body| - 1..];
    SizedBodyEnd(s, t, body, y);
    EndByte(WithLength(s, 0).(state := MessageDone), AddText(t, Body, body), body[|body| - 1]);
    assert (last + y)[1..] == y;
  }

  /** A value says one number at most. */
  lemma {:induction false} SaysOne(v: Text, n: nat, m: nat)
    requires IsLength(v, n) && IsLength(v, m)
    ensures n == m
    decreases |v|
  {
    if IsBlank(v[|v| - 1]) { SaysOne(v[..|v| - 1], n, m); }
  }

  /** No body byte was reported when a head has just been completed. */
  lemma {:induction false} HeadIsBodiless(t: Trace)
    requires Phases(t).Some?
    ensures var p, g := Phases(t).value, LedgerOf(t);
            && (p.Begun? || p.UrlText? || p.StatusText? || p.FieldText? || p.ValueText? ==> g.open && g.body == 0)
            && (p.HeadDone? ==> g.body == 0)
    decreases |t|
  {
    if t != [] { HeadIsBodiless(t[..|t| - 1]); }
  }

  /** After a head that has just been completed, a Content-Length line of it says how many bytes are to come. */
  lemma HeadSays(s: Parser, t: Trace, line: Entry, n: nat)
    requires TraceOk(s, t) && s.state.BodyIdentity? && t != [] && t[|t| - 1] == Note(HeadersComplete)
    requires line in LedgerOf(t).lines && Says(line, n)
    ensures s.framing.contentLength == n && Good(s)
  {
    hide *;
    TraceParts(s, t);
    HeadIsBodiless(t);
    HeadPhase(t);
    AnnouncedIs(s, ViewOf(t), LedgerOf(t), line, n);
  }

  lemma HeadPhase(t: Trace)
    requires Phases(t).Some? && t != [] && t[|t| - 1] == Note(HeadersComplete)
    ensures Phases(t).value.HeadDone?
  {
  }

  lemma AnnouncedIs(s: Parser, w: View, g: Ledger, line: Entry, n: nat)
    requires LedgerFits(s, w, g) && s.state.BodyIdentity? && g.body == 0 && line in g.lines && Says(line, n)
    ensures s.framing.contentLength == n
  {
    hide IsLength, IsName;
    var i :| 0 <= i < |g.lines| && g.lines[i] == line;
    assert Says(g.lines[i], s.framing.contentLength);
    SaysOne(line.value.value, n, s.framing.contentLength);
  }

  /** Conservation, on every run: when the head of a message has led to a body framed by Content-Length, and
      one of its header lines says n, the body callbacks are exactly the next n bytes, and then the message completes,
      however head and body are cut. */
  lemma LengthRoundTrip(at: Spot, head: Text, line: Entry, body: Text, y: Text, bufs: seq<Text>)
    requires Reachable(at)
    requires var r := Run(at.s, at.t, head);
             && r.why.Advance? && r.s.state.BodyIdentity? && r.t != [] && r.t[|r.t| - 1] == Note(HeadersComplete)
             && line in LedgerOf(r.t).lines && Says(line, |body|)
    requires Flatten(bufs) == head + (body + y)
    ensures var r := Run(at.s, at.t, head);
            var t' := r.t + [Data(Body, body), Note(MessageComplete)];
            && RunAll(at.s, at.t, bufs) == (if r.s.upgrade then Stop(Finished(r.s), t', y, Exit) else Run(Finished(r.s), t', y))
            && body != [] && Finished(r.s).state.Idle?
  {
    hide Run, RunAll, Flatten, NewMessage, TraceOk, Reachable, Says, LedgerOf;
    RunAnyCutting(at.s, at.t, bufs);
    RunSplit(at.s, at.t, head, body + y);
    ReachableOk(at);
    RunTrace(at.s, at.t, head);
    var r := Run(at.s, at.t, head);
    HeadSays(r.s, r.t, line, |body|);
    LengthBody(r.s, r.t, body, y);
    assert AddText(r.t, Body, body) + [Note(MessageComplete)] == r.t + [Data(Body, body), Note(MessageComplete)];
  }
}
