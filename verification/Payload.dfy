/** The response reader of utils.h: it keeps the last body callback of one execute call. */
module Payload {
  import opened Bytes
  import opened Types
  import opened Table
  import opened Runs
  import opened Invariants
  import opened HeaderLines
  import opened Heads
  import opened Ledgers
  import opened Traces
  import opened Lengths
  import opened Bodies
  import opened Chunks
  import opened Execute
  import HttpParser

  /** The arguments of the on_body calls, in order. */
  function BodyTexts(t: seq<Event>): seq<Text> {
    if t == [] then []
    else
      var e := t[|t| - 1];
      BodyTexts(t[..|t| - 1]) + if IsBody(e) then [e.text] else []
  }

  lemma {:induction false} BodyTextsConcat(a: seq<Event>, b: seq<Event>)
    ensures BodyTexts(a + b) == BodyTexts(a) + BodyTexts(b)
    decreases |b|
  {
    if b == [] {
      assert a + b == a;
    } else {
      assert (a + b)[..|a + b| - 1] == a + b[..|b| - 1];
      BodyTextsConcat(a, b[..|b| - 1]);
    }
  }

  /** Callbacks of one call that start from nothing: joining adjacent ones leaves the body
      calls as they are, since a call never makes two body calls in a row. */
  lemma {:induction false} JoinedKeepsBodies(log: seq<Event>)
    requires Apart(log, 0)
    ensures BodyTexts(Joined(log)) == BodyTexts(log)
    ensures log != [] ==> Joined(log) != [] && (IsBody(Joined(log)[|Joined(log)| - 1]) <==> IsBody(log[|log| - 1]))
    decreases |log|
  {
    if log != [] {
      var init, e := log[..|log| - 1], log[|log| - 1];
      JoinedKeepsBodies(init);
      assert |init| > 0 ==> init[|init| - 1] == log[|log| - 2];
      var t := Joined(init);
      var u := Add(t, e);
      if u != t + [e] {
        assert u[..|u| - 1] == t[..|t| - 1];
        assert !IsBody(e) && !IsBody(t[|t| - 1]);
      } else {
        assert u[..|u| - 1] == t;
      }
    }
  }

  lemma {:induction false} BodiesNotEmpty(log: seq<Event>)
    requires Apart(log, 0)
    ensures forall x :: x in BodyTexts(log) ==> x != []
    decreases |log|
  {
    if log != [] { BodiesNotEmpty(log[..|log| - 1]); }
  }

  lemma {:induction false} FlattenLonger(xs: seq<Text>)
    requires xs != []
    ensures |Flatten(xs)| >= |xs[|xs| - 1]|
    ensures |xs| > 1 && xs[0] != [] ==> |Flatten(xs)| > |xs[|xs| - 1]|
    decreases |xs|
  {
    if |xs| > 1 { FlattenLonger(xs[1..]); }
  }

  /** The last of some non-empty pieces is all of them exactly when it is the only one. */
  lemma LastIsWhole(xs: seq<Text>)
    requires xs != [] && forall x :: x in xs ==> x != []
    ensures Flatten(xs) + [NUL] == xs[|xs| - 1] + [NUL] <==> |xs| == 1
  {
    hide *;
    var last := xs[|xs| - 1];
    SameEnds(Flatten(xs), last);
    if |xs| == 1 {
      OnlyOne(xs);
      FlattenOne(last);
    } else {
      assert xs[0] in xs;
      FlattenLonger(xs);
      LongerDiffers(Flatten(xs), last);
    }
  }

  lemma OnlyOne(xs: seq<Text>)
    requires |xs| == 1
    ensures xs == [xs[0]]
  {
  }

  lemma LongerDiffers(x: Text, y: Text)
    requires |x| > |y|
    ensures x != y
  {
  }

  lemma FlattenOne(x: Text)
    ensures Flatten([x]) == x
  {
    assert [x][1..] == [] && x + [] == x;
  }

  lemma SameEnds(x: Text, y: Text)
    ensures x + [NUL] == y + [NUL] <==> x == y
  {
    assert (x + [NUL])[..|x|] == x && (y + [NUL])[..|y|] == y;
  }

  lemma {:induction false} FailsEarly(s: Parser, t: Trace, data: Text)
    ensures Run(s, t, data).why.Fail? ==> Run(s, t, data).rest != []
    decreases |data|
  {
    hide Visit, Byte;
    if data != [] && !Overflows(s) {
      var p := Byte(Counted(s), t, data[0]);
      if p.next.Advance? { FailsEarly(p.s, p.t, data[1..]); }
    }
  }

  /** What extract_payload gives back: a null pointer, a copy of the payload with a NUL after it,
      or, when there was no body call, a copy through a pointer that was never set. */
  datatype Extracted = Null | Copy(buf: Text) | Unset

  /** The last body call of the run over `data`, as far as the run takes all of `data`. */
  function Extract(data: Text): Extracted {
    var r := Run(Init(Response, DEFAULT_CONFIG), [], data);
    if r.why.Fail? || r.rest != [] then Null
    else if BodyTexts(r.t) == [] then Unset
    else Copy(BodyTexts(r.t)[|BodyTexts(r.t)| - 1] + [NUL])
  }

  class PayloadReader {
    const data: Text
    const parser: HttpParser.HttpParser
    var payload: Option<Text>   // payload_ and payload_length_; None until the first on_body call

    constructor (data: Text)
      ensures this.data == data && fresh(parser) && payload.None?
      ensures parser.Valid() && parser.errno.None? && parser.config == DEFAULT_CONFIG
      ensures parser.Snapshot() == Init(Response, DEFAULT_CONFIG) && parser.log == []
    {
      this.data, payload := data, None;
      parser := new HttpParser.HttpParser(Response, DEFAULT_CONFIG);
    }

    /** The first call: one http_parser_execute over the whole buffer. The copy is the whole body
        exactly when there was one body call. */
    method ExtractPayload() returns (r: Extracted)
      requires parser.Valid() && parser.errno.None? && parser.config == DEFAULT_CONFIG && payload.None?
      requires parser.Snapshot() == Init(Response, DEFAULT_CONFIG) && parser.log == []
      requires |data| < 0x8000_0000
      modifies this, parser
      ensures r == Extract(data)
      ensures r.Copy? ==>
                var bodies := BodyTexts(parser.Trace());
                r.buf == Flatten(bodies) + [NUL] <==> |bodies| == 1
    {
      assert Joined([]) == [] && BodyTexts([]) == [];
      RunNothing(Init(Response, DEFAULT_CONFIG), []);
      FailsEarly(Init(Response, DEFAULT_CONFIG), [], data);
      hide Run, Good, Apart, Joined, BodyTexts, Flatten;
      var n := parser.Execute(data);
      var bodies := BodyTexts(parser.log);
      if bodies != [] { payload := Some(bodies[|bodies| - 1]); }
      JoinedKeepsBodies(parser.log);
      BodiesNotEmpty(parser.log);
      if n != |data| { return Null; }
      if payload.None? { return Unset; }
      LastIsWhole(bodies);
      r := Copy(payload.value + [NUL]);
    }
  }

  /** The data of chunks. */
  function ChunkTexts(cs: seq<Chunk>): (r: seq<Text>)
    ensures |r| == |cs| && forall i :: 0 <= i < |cs| ==> r[i] == cs[i].data
  {
    seq(|cs|, i requires 0 <= i < |cs| => cs[i].data)
  }

  lemma {:induction false} ChunkBodies(cs: seq<Chunk>)
    ensures BodyTexts(ChunkEvents(cs)) == ChunkTexts(cs)
    decreases |cs|
  {
    if cs != [] {
      var first := [Note(ChunkHeader), Data(Body, cs[0].data), Note(ChunkComplete)];
      BodyTextsConcat(first, ChunkEvents(cs[1..]));
      assert first[..2] == [Note(ChunkHeader), Data(Body, cs[0].data)] && first[..2][..1] == [Note(ChunkHeader)];
      assert BodyTexts(first[..2][..1]) == [];
      assert BodyTexts(first) == [cs[0].data];
      ChunkBodies(cs[1..]);
      assert ChunkTexts(cs) == [cs[0].data] + ChunkTexts(cs[1..]);
    }
  }

  lemma {:induction false} LinesHaveNoBody(ls: seq<HeaderLine>)
    ensures BodyTexts(LinesEvents(ls)) == []
    decreases |ls|
  {
    if ls != [] {
      LinesHaveNoBody(ls[1..]);
      BodyTextsConcat(LineEvents(ls[0]), LinesEvents(ls[1..]));
      NoneOf(Data(Field, ls[0].name), Data(Value, Stripped(ls[0].value)));
    }
  }

  lemma NoneOf(d: Event, e: Event)
    requires !IsBody(d) && !IsBody(e)
    ensures BodyTexts([d, e]) == [] && BodyTexts([d]) == []
  {
    assert [d][..|[d]| - 1] == [];
    assert BodyTexts([d]) == [];
    assert [d, e][..|[d, e]| - 1] == [d];
  }

  lemma LastHasNoBody(last: Last)
    ensures BodyTexts(last.Events()) == []
  {
    hide LinesEvents, BodyTexts;
    var h, e: Trace := [Note(ChunkHeader)], [Note(ChunkComplete), Note(MessageComplete)];
    LinesHaveNoBody(last.trailers);
    NoneOf(Note(ChunkHeader), Note(ChunkHeader));
    NoneOf(Note(ChunkComplete), Note(MessageComplete));
    BodyTextsConcat(h + LinesEvents(last.trailers), e);
    BodyTextsConcat(h, LinesEvents(last.trailers));
  }

  /** A response framed by Content-Length that lies in one buffer gives back its whole body: as many bytes after the
      head as a header line of it says. */
  lemma LengthPayload(head: Text, line: Entry, body: Text)
    requires var r := Run(Init(Response, DEFAULT_CONFIG), [], head);
             && r.why.Advance? && r.s.state.BodyIdentity?
             && r.t != [] && r.t[|r.t| - 1] == Note(HeadersComplete) && BodyTexts(r.t) == []
             && line in LedgerOf(r.t).lines && Says(line, |body|)
    ensures Extract(head + body) == Copy(body + [NUL])
  {
    hide Run, NewMessage, BodyTexts, Reachable, LedgerOf, Says;
    var s := Init(Response, DEFAULT_CONFIG);
    InitReachable(Response, DEFAULT_CONFIG);
    var bufs := [head + body];
    assert Flatten(bufs) == head + (body + []) by { assert Flatten(bufs[1..]) == []; assert body + [] == body; }
    LengthRoundTrip(Spot(s, []), head, line, body, [], bufs);
    RunAnyCutting(s, [], bufs);
    assert head + (body + []) == head + body;
    var r := Run(s, [], head);
    var t' := r.t + [Data(Body, body), Note(MessageComplete)];
    RunNothing(Finished(r.s), t');
    BodyTextsConcat(r.t, [Data(Body, body), Note(MessageComplete)]);
    assert BodyTexts([Data(Body, body), Note(MessageComplete)]) == [body] by { OneBody(body); }
  }

  lemma OneBody(body: Text)
    ensures BodyTexts([Data(Body, body), Note(MessageComplete)]) == [body]
  {
    var t := [Data(Body, body), Note(MessageComplete)];
    assert t[..1] == [Data(Body, body)] && BodyTexts(t[..1]) == [body];
  }

  /** A response that lasts until the end of the connection, in one buffer: whatever follows the head is given back,
      and nothing defined if nothing follows. */
  lemma EofPayload(head: Text, body: Text)
    requires var r := Run(Init(Response, DEFAULT_CONFIG), [], head);
             r.why.Advance? && r.s.state.BodyIdentityEof? && BodyTexts(r.t) == []
    ensures Extract(head + body) == if body == [] then Unset else Copy(body + [NUL])
  {
    hide *;
    var s := Init(Response, DEFAULT_CONFIG);
    var r := Run(s, [], head);
    RunSplit(s, [], head, body);
    EofBody(r.s, r.t, body);
    OnlyBody(r.t, body);
    ExtractIs(head + body);
  }

  lemma OnlyBody(t: Trace, body: Text)
    requires BodyTexts(t) == []
    ensures BodyTexts(AddText(t, Body, body)) == if body == [] then [] else [body]
  {
    if body != [] {
      var e := Data(Body, body);
      if t != [] { assert t[..|t| - 1] + [t[|t| - 1]] == t; }
      assert (t + [e])[..|t|] == t;
    }
  }

  /** A chunked response in one buffer gives back its last chunk only: its whole body exactly
      when it has one chunk, and a copy through an unset pointer when it has none. */
  lemma ChunkedPayload(head: Text, cs: seq<Chunk>, last: Last)
    requires var r := Run(Init(Response, DEFAULT_CONFIG), [], head);
             r.why.Advance? && r.s.state == InChunk(ChunkSizeStart) && BodyTexts(r.t) == []
    requires last.Ok(DEFAULT_CONFIG) && forall i :: 0 <= i < |cs| ==> IsChunk(cs[i], DEFAULT_CONFIG)
    ensures var r := Extract(head + (EncodeChunks(cs) + last.Text()));
            && r == (if cs == [] then Unset else Copy(cs[|cs| - 1].data + [NUL]))
            && (r == Copy(Flatten(ChunkTexts(cs)) + [NUL]) <==> |cs| == 1)
  {
    hide *;
    var s := Init(Response, DEFAULT_CONFIG);
    InitGood(Response, DEFAULT_CONFIG);
    RunKeeps(s, [], head);
    var r := Run(s, [], head);
    var coded := EncodeChunks(cs) + last.Text();
    RunSplit(s, [], head, coded);
    ConfigIs();
    FlattenOne(coded);
    assert last.Text() + [] == last.Text();
    ChunkedRoundTrip(r.s, r.t, cs, last, [], [coded]);
    RunAnyCutting(r.s, r.t, [coded]);
    var t' := r.t + ChunkEvents(cs) + last.Events();
    RunNothing(Ended(r.s, last), t');
    ChunkedBodies(r.t, cs, last);
    ExtractIs(head + coded);
    if cs != [] {
      ChunkTextsIs(cs);
      LastIsWhole(ChunkTexts(cs));
    }
  }

  lemma ConfigIs()
    ensures Init(Response, DEFAULT_CONFIG).config == DEFAULT_CONFIG
  {
  }

  lemma ExtractIs(data: Text)
    ensures var r := Run(Init(Response, DEFAULT_CONFIG), [], data);
            !r.why.Fail? && r.rest == [] ==>
              var bs := BodyTexts(r.t); Extract(data) == if bs == [] then Unset else Copy(bs[|bs| - 1] + [NUL])
  {
    hide Run, BodyTexts;
  }

  lemma ChunkTextsIs(cs: seq<Chunk>)
    requires cs != [] && forall i :: 0 <= i < |cs| ==> IsChunk(cs[i], DEFAULT_CONFIG)
    ensures var xs := ChunkTexts(cs); |xs| == |cs| && xs[|xs| - 1] == cs[|cs| - 1].data && forall x :: x in xs ==> x != []
  {
    hide IsSizeLine;
  }

  lemma ChunkedBodies(t: Trace, cs: seq<Chunk>, last: Last)
    requires BodyTexts(t) == []
    ensures BodyTexts(t + ChunkEvents(cs) + last.Events()) == ChunkTexts(cs) && |ChunkTexts(cs)| == |cs|
  {
    ChunkBodies(cs);
    LastHasNoBody(last);
    hide BodyTexts, ChunkEvents;
    BodyTextsConcat(t + ChunkEvents(cs), last.Events());
    BodyTextsConcat(t, ChunkEvents(cs));
  }
}
