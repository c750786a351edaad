/** Runs through bodies: the bytes of a body are reported once, in order and complete. */
module Bodies {
  import opened Bytes
  import opened Types
  import opened Table
  import opened Runs
  import opened Scans

  /** Report `x` as part of a data callback, if there is anything to report. */
  function AddText(t: Trace, k: Part, x: Text): Trace {
    if x == [] then t else Add(t, Data(k, x))
  }

  lemma AddTextPieces(t: Trace, k: Part, x: Text, y: Text)
    ensures AddText(AddText(t, k, x), k, y) == AddText(t, k, x + y)
  {
    AddPieces(t, k, x, y);
    assert x + [] == x && [] + y == y;
  }

  predicate InSizedBody(s: Parser) {
    && (s.state.BodyIdentity? || (s.state == InChunk(ChunkData) && s.framing.flags.chunked))
    && 0 < s.framing.contentLength < U64_MAX
  }

  /** A body byte that is not the last one. */
  lemma SizedBodyByte(s: Parser, t: Trace, ch: char)
    requires InSizedBody(s) && 1 < s.framing.contentLength
    ensures Counted(s) == s
    ensures Byte(s, t, ch) == Point(WithLength(s, s.framing.contentLength - 1), AddText(t, Body, [ch]), Advance)
  {
    if s.state.InChunk? {
      assert WithLength(s, s.framing.contentLength - 1).(state := InChunk(ChunkData))
          == WithLength(s, s.framing.contentLength - 1);
    }
  }

  lemma EofByte(s: Parser, t: Trace, ch: char)
    requires s.state.BodyIdentityEof?
    ensures Counted(s) == s
    ensures Byte(s, t, ch) == Point(s, AddText(t, Body, [ch]), Advance)
  {
  }

  /** Bytes that do not exhaust the length are all body, and are counted off it. */
  lemma {:induction false} SizedBodyPart(s: Parser, t: Trace, x: Text, y: Text)
    requires InSizedBody(s) && |x| < s.framing.contentLength
    ensures Run(s, t, x + y) == Run(WithLength(s, s.framing.contentLength - |x|), AddText(t, Body, x), y)
    decreases |x|
  {
    hide Table.Visit, Byte, Run;
    if x == [] {
      assert x + y == y && WithLength(s, s.framing.contentLength) == s;
    } else {
      var x1 := x[1..];
      assert x == [x[0]] + x1 && x + y == [x[0]] + (x1 + y);
      SizedBodyByte(s, t, x[0]);
      RunByte(s, t, x[0], x1 + y);
      var s' := WithLength(s, s.framing.contentLength - 1);
      SizedBodyPart(s', AddText(t, Body, [x[0]]), x1, y);
      AddTextPieces(t, Body, [x[0]], x1);
      assert WithLength(s', s'.framing.contentLength - |x1|) == WithLength(s, s.framing.contentLength - |x|);
    }
  }

  /** The last byte of a Content-Length body: the body is complete before the visit that ends the message. */
  lemma SizedBodyEnd(s: Parser, t: Trace, x: Text, y: Text)
    requires s.state.BodyIdentity? && 0 < s.framing.contentLength < U64_MAX && |x| == s.framing.contentLength
    ensures var done := WithLength(s, 0).(state := MessageDone);
            Run(s, t, x + y) == Resume(Byte(done, AddText(t, Body, x), x[|x| - 1]), x[|x| - 1..] + y)
  {
    hide Table.Visit;
    var k := |x| - 1;
    var init, last := x[..k], x[k..];
    assert x == init + last && x + y == init + (last + y) && last == [x[k]];
    SizedBodyPart(s, t, init, last + y);
    var one := WithLength(s, 1);
    var t1 := AddText(t, Body, init);
    AddTextPieces(t, Body, init, last);
    LastBodyByte(one, t1, x[k]);
    assert WithLength(one, 0) == WithLength(s, 0);
    assert (last + y)[0] == x[k];
    assert Counted(one) == one;
  }

  lemma LastBodyByte(s: Parser, t: Trace, ch: char)
    requires s.state.BodyIdentity? && s.framing.contentLength == 1
    ensures Byte(s, t, ch) == Byte(WithLength(s, 0).(state := MessageDone), AddText(t, Body, [ch]), ch)
  {
  }

  /** The last byte of a chunk. */
  lemma ChunkDataEnd(s: Parser, t: Trace, x: Text, y: Text)
    requires s.state == InChunk(ChunkData) && InSizedBody(s) && |x| == s.framing.contentLength
    ensures Run(s, t, x + y)
         == Run(WithLength(s, 0).(state := InChunk(ChunkDataAlmostDone)), AddText(t, Body, x), y)
  {
    hide Table.Visit;
    var k := |x| - 1;
    var init, last := x[..k], x[k..];
    assert x == init + last && x + y == init + (last + y) && last == [x[k]];
    SizedBodyPart(s, t, init, last + y);
    AddTextPieces(t, Body, init, last);
    var one := WithLength(s, 1);
    LastChunkByte(one, AddText(t, Body, init), x[k]);
    assert WithLength(one, 0) == WithLength(s, 0);
    assert (last + y)[0] == x[k] && (last + y)[1..] == y;
    assert Counted(one) == one;
  }

  lemma LastChunkByte(s: Parser, t: Trace, ch: char)
    requires s.state == InChunk(ChunkData) && s.framing.flags.chunked && s.framing.contentLength == 1
    ensures Byte(s, t, ch)
         == Point(WithLength(s, 0).(state := InChunk(ChunkDataAlmostDone)), AddText(t, Body, [ch]), Advance)
  {
  }

  /** Until EOF every byte is body. */
  lemma {:induction false} EofBody(s: Parser, t: Trace, x: Text)
    requires s.state.BodyIdentityEof?
    ensures Run(s, t, x) == Stop(s, AddText(t, Body, x), [], Advance)
    decreases |x|
  {
    hide Table.Visit;
    if x != [] {
      EofByte(s, t, x[0]);
      assert x[..1] == [x[0]];
      EofBody(s, AddText(t, Body, x[..1]), x[1..]);
      AddTextPieces(t, Body, x[..1], x[1..]);
      assert x[..1] + x[1..] == x;
    }
  }

  // Body bytes are in no scan.

  lemma BodyByteCaught(s: Parser, t: Trace, ch: char, y: Text)
    requires !ParsingHeader(s.state)
    ensures Caught(s, t, [ch] + y, NOT_BEGUN) == CaughtOn(s, Byte(s, t, ch), [ch] + y, NOT_BEGUN)
    ensures var p := Byte(s, t, ch);
            CaughtOn(s, p, [ch] + y, NOT_BEGUN) == if p.next.Advance? then Caught(p.s, p.t, y, NOT_BEGUN) else NOT_BEGUN
  {
    hide Byte;
    assert ([ch] + y)[0] == ch && ([ch] + y)[1..] == y;
  }

  lemma {:induction false} SizedBodyCaught(s: Parser, t: Trace, x: Text, y: Text)
    requires InSizedBody(s) && |x| < s.framing.contentLength
    ensures Caught(s, t, x + y, NOT_BEGUN) == Caught(WithLength(s, s.framing.contentLength - |x|), AddText(t, Body, x), y, NOT_BEGUN)
    decreases |x|
  {
    hide Table.Visit, Byte, Caught;
    if x == [] {
      assert x + y == y && WithLength(s, s.framing.contentLength) == s;
    } else {
      var x1 := x[1..];
      assert x == [x[0]] + x1 && x + y == [x[0]] + (x1 + y);
      SizedBodyByte(s, t, x[0]);
      BodyByteCaught(s, t, x[0], x1 + y);
      var s' := WithLength(s, s.framing.contentLength - 1);
      SizedBodyCaught(s', AddText(t, Body, [x[0]]), x1, y);
      AddTextPieces(t, Body, [x[0]], x1);
      assert WithLength(s', s'.framing.contentLength - |x1|) == WithLength(s, s.framing.contentLength - |x|);
    }
  }

  lemma SizedBodyEndCaught(s: Parser, t: Trace, x: Text, y: Text)
    requires s.state.BodyIdentity? && 0 < s.framing.contentLength < U64_MAX && |x| == s.framing.contentLength
    ensures var done, last := WithLength(s, 0).(state := MessageDone), x[|x| - 1];
            Caught(s, t, x + y, NOT_BEGUN) == CaughtOn(done, Byte(done, AddText(t, Body, x), last), [last] + y, NOT_BEGUN)
  {
    hide Table.Visit, Byte, Caught;
    var k := |x| - 1;
    var init, ch := x[..k], x[k];
    assert x == init + [ch] && x + y == init + ([ch] + y);
    SizedBodyCaught(s, t, init, [ch] + y);
    AddTextPieces(t, Body, init, [ch]);
    var one, t1 := WithLength(s, 1), AddText(t, Body, init);
    LastBodyByte(one, t1, ch);
    BodyByteCaught(one, t1, ch, y);
    assert WithLength(one, 0) == WithLength(s, 0);
    BodyByteCaught(WithLength(s, 0).(state := MessageDone), AddText(t, Body, x), ch, y);
  }

  lemma ChunkDataEndCaught(s: Parser, t: Trace, x: Text, y: Text)
    requires s.state == InChunk(ChunkData) && InSizedBody(s) && |x| == s.framing.contentLength
    ensures Caught(s, t, x + y, NOT_BEGUN)
         == Caught(WithLength(s, 0).(state := InChunk(ChunkDataAlmostDone)), AddText(t, Body, x), y, NOT_BEGUN)
  {
    hide Table.Visit, Byte, Caught;
    var k := |x| - 1;
    var init, ch := x[..k], x[k];
    assert x == init + [ch] && x + y == init + ([ch] + y);
    SizedBodyCaught(s, t, init, [ch] + y);
    AddTextPieces(t, Body, init, [ch]);
    var one, t1 := WithLength(s, 1), AddText(t, Body, init);
    LastChunkByte(one, t1, ch);
    BodyByteCaught(one, t1, ch, y);
    assert WithLength(one, 0) == WithLength(s, 0);
  }

  lemma {:induction false} EofCaught(s: Parser, t: Trace, x: Text)
    requires s.state.BodyIdentityEof?
    ensures Caught(s, t, x, NOT_BEGUN) == NOT_BEGUN
    decreases |x|
  {
    hide Table.Visit, Byte;
    if x != [] {
      EofByte(s, t, x[0]);
      EofCaught(s, AddText(t, Body, [x[0]]), x[1..]);
    }
  }
}
