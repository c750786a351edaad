/** What `nread` counts. */
module Counting {
  import opened Bytes
  import opened Types
  import opened UrlChars
  import opened HeaderWords
  import opened Table
  import opened Runs

  /** A visit leaves the count or resets it. */
  predicate KeepsCount(s: Parser, a: Act) {
    a.s.nread == s.nread || a.s.nread == 0
  }

  lemma LineCounts(s: Parser, ch: char)
    ensures s.state.Idle? ==> KeepsCount(s, VisitIdle(s, s.state.idle, ch))
    ensures s.state.ResOrRespH? ==> KeepsCount(s, VisitResOrRespH(s, ch))
    ensures s.state.ReqMethod? ==> KeepsCount(s, VisitMethod(s, ch))
    ensures s.state.InUrl? ==> KeepsCount(s, VisitUrl(s, s.state.url, ch))
    ensures s.state.InVersion? ==> KeepsCount(s, VisitVersion(s, s.state.req, ch))
  {
    hide Types.MethodText, UrlChars.ParseUrlChar, FirstVerb, OtherVerb;
  }

  lemma StatusLineCounts(s: Parser, ch: char)
    requires s.state.InStatusLine?
    ensures KeepsCount(s, VisitStatusLine(s, s.state.res, ch))
  {
  }

  lemma HeaderCounts(s: Parser, ch: char)
    ensures s.state.HeaderFieldStart? ==> KeepsCount(s, VisitFieldStart(s, ch))
    ensures s.state.InName? ==> KeepsCount(s, VisitName(s, s.state.name, ch))
    ensures s.state.InValue? ==> KeepsCount(s, VisitValue(s, s.state.value, ch))
  {
    hide ValueStart, LineFlags, ValueByte, NameByte, Token, IsHeaderChar;
  }

  lemma BodyCounts(s: Parser, ch: char)
    ensures s.state.HeadersAlmostDone? ==> KeepsCount(s, VisitHeadersAlmostDone(s, ch))
    ensures s.state.HeadersDone? ==> KeepsCount(s, VisitHeadersDone(s, ch))
    ensures s.state.InChunk? ==> KeepsCount(s, VisitChunk(s, s.state.chunk, ch))
    ensures s.state.MessageDone? ==> KeepsCount(s, VisitMessageDone(s))
    ensures s.state.BodyIdentity? ==> KeepsCount(s, VisitBody(s))
    ensures s.state.BodyIdentityEof? ==> KeepsCount(s, Begin(s, Body))
  {
    hide NewMessage, NeedsEof, Unhex;
  }

  lemma VisitCounts(s: Parser, ch: char)
    ensures KeepsCount(s, Visit(s, ch))
  {
    hide KeepsCount;
    match s.state
    case InStatusLine(_) => StatusLineCounts(s, ch);
    case HeaderFieldStart => HeaderCounts(s, ch);
    case InName(_) => HeaderCounts(s, ch);
    case InValue(_) => HeaderCounts(s, ch);
    case Idle(_) => LineCounts(s, ch);
    case ResOrRespH => LineCounts(s, ch);
    case ReqMethod => LineCounts(s, ch);
    case InUrl(_) => LineCounts(s, ch);
    case InVersion(_) => LineCounts(s, ch);
    case _ => BodyCounts(s, ch);
  }

  lemma {:induction false} ByteCounts(s: Parser, t: Trace, ch: char)
    ensures Byte(s, t, ch).s.nread == s.nread || Byte(s, t, ch).s.nread == 0
    decreases Rank(s.state)
  {
    hide Visit, Report;
    VisitCounts(s, ch);
    var a := Visit(s, ch);
    if a.next.Again? { ByteCounts(a.s, Report(t, a, ch), ch); }
  }

  /** How many bytes of a run are read in a header state. */
  function HeaderBytes(s: Parser, t: Trace, data: Text): nat
    decreases |data|
  {
    if data == [] then 0
    else
      var p := Byte(Counted(s), t, data[0]);
      (if ParsingHeader(s.state) then 1 else 0) + HeaderBytes(p.s, p.t, data[1..])
  }

  /** On every run the count is that of the header bytes since it was last reset, or since the run began: `k` is where
      that was. */
  lemma {:induction false} CountIsExact(s: Parser, t: Trace, data: Text) returns (k: nat)
    requires Run(s, t, data).why.Advance?
    ensures k <= |data| && Run(s, t, data[..k]).why.Advance?
    ensures var r := Run(s, t, data[..k]);
            && (k == 0 || r.s.nread == 0)
            && Run(s, t, data).s.nread == r.s.nread + HeaderBytes(r.s, r.t, data[k..])
    decreases |data|
  {
    hide Visit, Byte;
    RunNothing(s, t);
    if data == [] {
      k := 0;
      assert data[..0] == [] && data[0..] == [];
    } else {
      var p := Byte(Counted(s), t, data[0]);
      ByteCounts(Counted(s), t, data[0]);
      k := CountIsExact(p.s, p.t, data[1..]);
      FirstOf(data, k);
      if k == 0 && p.s.nread == Counted(s).nread {
        RunNothing(p.s, p.t);
        assert data[..0] == [] && data[0..] == data && data[1..][..0] == [] && data[1..][0..] == data[1..];
      } else {
        RunByte(s, t, data[0], data[1..][..k]);
        RunNothing(p.s, p.t);
        assert data[1..][..0] == [];
        k := k + 1;
      }
    }
  }

  lemma FirstOf(data: Text, k: nat)
    requires data != [] && k < |data|
    ensures data[..k + 1] == [data[0]] + data[1..][..k] && data[1..][k..] == data[k + 1..]
  {
  }
}
