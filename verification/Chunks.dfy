/** The chunked transfer coding of section 4.1 of RFC 7230: what an encoder writes, the
    parser reports, chunk by chunk. */
module Chunks {
  import opened Bytes
  import opened Types
  import opened Table
  import opened Runs
  import opened Invariants
  import opened Bodies
  import opened HeaderLines
  import opened Heads

  predicate IsHexText(h: Text) {
    h != [] && forall i :: 0 <= i < |h| ==> IsHex(h[i])
  }

  /** The number that hexadecimal digits add to a number before them. */
  function HexFrom(n: nat, h: Text): nat
    requires forall i :: 0 <= i < |h| ==> IsHex(h[i])
    decreases |h|
  {
    if h == [] then n
    else
      IsHexUnhex(h[0]);
      HexFrom(n * 16 + Unhex(h[0]), h[1..])
  }

  /** A chunk extension, which the parser ignores. */
  predicate IsExtension(x: Text) {
    x != [] ==> (x[0] == ';' || x[0] == ' ') && CR !in x
  }

  datatype Chunk = Chunk(size: Text, extension: Text, data: Text)

  predicate IsSizeLine(size: Text, extension: Text, n: nat, config: Config) {
    && IsHexText(size) && HexFrom(0, size) == n <= U64_MAX - 16 && IsExtension(extension)
    && |size| + |extension| + 2 <= config.maxHeaderSize
  }

  predicate IsChunk(c: Chunk, config: Config) {
    IsSizeLine(c.size, c.extension, |c.data|, config) && c.data != []
  }

  const CRLF: Text := [CR, LF]

  function EncodeChunk(c: Chunk): Text {
    c.size + c.extension + CRLF + c.data + CRLF
  }

  function EncodeChunks(cs: seq<Chunk>): Text {
    if cs == [] then [] else EncodeChunk(cs[0]) + EncodeChunks(cs[1..])
  }

  function ChunkEvents(cs: seq<Chunk>): Trace {
    if cs == [] then []
    else [Note(ChunkHeader), Data(Body, cs[0].data), Note(ChunkComplete)] + ChunkEvents(cs[1..])
  }

  lemma IsHexUnhex(c: char)
    requires IsHex(c)
    ensures 0 <= Unhex(c) < 16 && c != CR
  {
  }

  lemma HexFromGrows(n: nat, h: Text)
    requires forall i :: 0 <= i < |h| ==> IsHex(h[i])
    ensures n <= HexFrom(n, h)
    decreases |h|
  {
    if h != [] {
      IsHexUnhex(h[0]);
      HexFromGrows(n * 16 + Unhex(h[0]), h[1..]);
    }
  }

  /** Any size state of a chunk header. */
  predicate InSize(s: Parser, c: ChunkState) {
    s.state == InChunk(c) && s.framing.flags.chunked
  }

  lemma SizeByte(s: Parser, t: Trace, ch: char)
    requires InSize(s, ChunkSize) && IsHex(ch) && s.framing.contentLength * 16 + Unhex(ch) <= U64_MAX - 16
    ensures Byte(s, t, ch) == Point(WithLength(s, s.framing.contentLength * 16 + Unhex(ch)), t, Advance)
  {
    IsHexUnhex(ch);
    hide Unhex, IsHex;
  }

  lemma {:induction false} SizeDigits(s: Parser, t: Trace, h: Text, y: Text)
    requires InSize(s, ChunkSize) && s.nread + |h| <= s.config.maxHeaderSize
    requires (forall i :: 0 <= i < |h| ==> IsHex(h[i])) && HexFrom(s.framing.contentLength, h) <= U64_MAX - 16
    ensures Run(s, t, h + y) == Run(Read(WithLength(s, HexFrom(s.framing.contentLength, h)), |h|), t, y)
    decreases |h|
  {
    hide Visit, Byte, Unhex, IsHex;
    if h == [] {
      assert h + y == y && Read(WithLength(s, s.framing.contentLength), 0) == s;
    } else {
      var n := s.framing.contentLength * 16 + Unhex(h[0]);
      IsHexUnhex(h[0]);
      HexFromGrows(n, h[1..]);
      SizeByte(Counted(s), t, h[0]);
      assert (h + y)[0] == h[0] && (h + y)[1..] == h[1..] + y;
      var s' := WithLength(Counted(s), n);
      SizeDigits(s', t, h[1..], y);
      assert Read(WithLength(s', HexFrom(n, h[1..])), |h[1..]|) == Read(WithLength(s, HexFrom(s.framing.contentLength, h)), |h|);
    }
  }

  lemma FirstSizeByte(s: Parser, t: Trace, ch: char)
    requires InSize(s, ChunkSizeStart) && s.nread == 1 && IsHex(ch)
    ensures Unhex(ch) >= 0
    ensures Byte(s, t, ch) == Point(WithLength(s, Unhex(ch)).(state := InChunk(ChunkSize)), t, Advance)
  {
    IsHexUnhex(ch);
    hide Unhex, IsHex;
  }

  lemma ParameterByte(s: Parser, t: Trace, ch: char)
    requires InSize(s, ChunkSize) && (ch == ';' || ch == ' ')
    ensures Byte(s, t, ch) == Point(s.(state := InChunk(ChunkParameters)), t, Advance)
  {
  }

  lemma LaterParameterByte(s: Parser, t: Trace, ch: char)
    requires InSize(s, ChunkParameters) && ch != CR
    ensures Byte(s, t, ch) == Point(s, t, Advance)
  {
  }

  lemma SizeCR(s: Parser, t: Trace)
    requires InSize(s, ChunkSize) || InSize(s, ChunkParameters)
    ensures Byte(s, t, CR) == Point(s.(state := InChunk(ChunkSizeAlmostDone)), t, Advance)
  {
  }

  /** Where the LF of a size line leads. */
  function Sized(s: Parser): Parser {
    if s.framing.contentLength == 0
    then s.(nread := 0, state := HeaderFieldStart, framing := s.framing.(flags := s.framing.flags.(trailing := true)))
    else s.(nread := 0, state := InChunk(ChunkData))
  }

  lemma SizeLF(s: Parser, t: Trace)
    requires InSize(s, ChunkSizeAlmostDone)
    ensures Byte(s, t, LF) == Point(Sized(s), t + [Note(ChunkHeader)], Advance)
  {
  }

  lemma {:induction false} Parameters(s: Parser, t: Trace, x: Text, y: Text)
    requires InSize(s, ChunkParameters) && CR !in x && s.nread + |x| <= s.config.maxHeaderSize
    ensures Run(s, t, x + y) == Run(Read(s, |x|), t, y)
    decreases |x|
  {
    hide Visit, Byte;
    if x == [] {
      assert x + y == y && Read(s, 0) == s;
    } else {
      LaterParameterByte(Counted(s), t, x[0]);
      assert (x + y)[0] == x[0] && (x + y)[1..] == x[1..] + y;
      Parameters(Counted(s), t, x[1..], y);
    }
  }

  /** An extension, if any, and the line end after it. */
  lemma SizeLineClose(s: Parser, t: Trace, y: Text)
    requires (InSize(s, ChunkSize) || InSize(s, ChunkParameters)) && s.nread + 2 <= s.config.maxHeaderSize
    ensures Run(s, t, CRLF + y) == Run(Sized(s), t + [Note(ChunkHeader)], y)
  {
    hide Run, Byte;
    assert CRLF + y == [CR] + ([LF] + y);
    SizeCR(Counted(s), t);
    RunByte(s, t, CR, [LF] + y);
    var s1 := Counted(s).(state := InChunk(ChunkSizeAlmostDone));
    SizeLF(Counted(s1), t);
    RunByte(s1, t, LF, y);
    assert Sized(Counted(s1)) == Sized(s);
  }

  lemma SizeLineEnd(s: Parser, t: Trace, x: Text, y: Text)
    requires InSize(s, ChunkSize) && IsExtension(x) && s.nread + |x| + 2 <= s.config.maxHeaderSize
    ensures Run(s, t, x + CRLF + y) == Run(Sized(s), t + [Note(ChunkHeader)], y)
  {
    hide Run, Byte;
    assert x + CRLF + y == x + (CRLF + y);
    if x == [] {
      assert x + (CRLF + y) == CRLF + y;
      SizeLineClose(s, t, y);
    } else {
      var z := x[1..] + (CRLF + y);
      assert x + (CRLF + y) == [x[0]] + z;
      ParameterByte(Counted(s), t, x[0]);
      RunByte(s, t, x[0], z);
      var s1 := Counted(s).(state := InChunk(ChunkParameters));
      Parameters(s1, t, x[1..], CRLF + y);
      SizeLineClose(Read(s1, |x| - 1), t, y);
    }
  }

  /** A whole size line. */
  lemma SizeLine(s: Parser, t: Trace, size: Text, x: Text, n: nat, y: Text)
    requires InSize(s, ChunkSizeStart) && s.nread == 0 && IsSizeLine(size, x, n, s.config)
    ensures Run(s, t, size + x + CRLF + y) == Run(Sized(WithLength(s, n)), t + [Note(ChunkHeader)], y)
  {
    hide Visit, Byte, Unhex, IsHex;
    var later := x + CRLF + y;
    assert size + x + CRLF + y == [size[0]] + (size[1..] + later);
    assert ([size[0]] + (size[1..] + later))[1..] == size[1..] + later;
    FirstSizeByte(Counted(s), t, size[0]);
    var s1 := WithLength(Counted(s), Unhex(size[0])).(state := InChunk(ChunkSize));
    SizeDigits(s1, t, size[1..], later);
    var s2 := Read(WithLength(s1, n), |size| - 1);
    SizeLineEnd(s2, t, x, y);
  }

  lemma DataEnd(s: Parser, t: Trace)
    requires s.framing.contentLength == 0
    ensures InSize(s, ChunkDataAlmostDone) ==> Byte(s, t, CR) == Point(s.(state := InChunk(ChunkDataDone)), t, Advance)
    ensures InSize(s, ChunkDataDone) ==>
              Byte(s, t, LF) == Point(s.(nread := 0, state := InChunk(ChunkSizeStart)), t + [Note(ChunkComplete)], Advance)
  {
  }

  /** One chunk is reported as its header, its data and its completion. */
  lemma OneChunk(s: Parser, t: Trace, c: Chunk, y: Text)
    requires InSize(s, ChunkSizeStart) && s.nread == 0 && IsChunk(c, s.config)
    ensures Run(s, t, EncodeChunk(c) + y) == Run(WithLength(s, 0), t + ChunkEvents([c]), y)
  {
    hide Run, Byte;
    var n := |c.data|;
    assert EncodeChunk(c) + y == c.size + c.extension + CRLF + (c.data + (CRLF + y));
    SizeLine(s, t, c.size, c.extension, n, c.data + (CRLF + y));
    var s1 := Sized(WithLength(s, n));
    var t1 := t + [Note(ChunkHeader)];
    ChunkDataEnd(s1, t1, c.data, CRLF + y);
    var s2 := WithLength(s1, 0).(state := InChunk(ChunkDataAlmostDone));
    var t2 := t1 + [Data(Body, c.data)];
    assert AddText(t1, Body, c.data) == t2;
    DataEndLine(s2, t2, y);
    assert t + ChunkEvents([c]) == t2 + [Note(ChunkComplete)];
    assert s2.(nread := 0, state := InChunk(ChunkSizeStart)) == WithLength(s, 0);
  }

  lemma DataEndLine(s: Parser, t: Trace, y: Text)
    requires InSize(s, ChunkDataAlmostDone) && s.framing.contentLength == 0
    ensures Run(s, t, CRLF + y) == Run(s.(nread := 0, state := InChunk(ChunkSizeStart)), t + [Note(ChunkComplete)], y)
  {
    hide Run, Byte;
    assert CRLF + y == [CR] + ([LF] + y);
    DataEnd(s, t);
    RunByte(s, t, CR, [LF] + y);
    var s1 := s.(state := InChunk(ChunkDataDone));
    DataEnd(s1, t);
    RunByte(s1, t, LF, y);
  }

  lemma {:induction false} AllChunks(s: Parser, t: Trace, cs: seq<Chunk>, y: Text)
    requires InSize(s, ChunkSizeStart) && s.nread == 0 && forall i :: 0 <= i < |cs| ==> IsChunk(cs[i], s.config)
    ensures Run(s, t, EncodeChunks(cs) + y)
         == Run(if cs == [] then s else WithLength(s, 0), t + ChunkEvents(cs), y)
    decreases |cs|
  {
    hide Run;
    if cs == [] {
      assert EncodeChunks(cs) + y == y && t + ChunkEvents(cs) == t;
    } else {
      assert EncodeChunks(cs) + y == EncodeChunk(cs[0]) + (EncodeChunks(cs[1..]) + y);
      OneChunk(s, t, cs[0], EncodeChunks(cs[1..]) + y);
      AllChunks(WithLength(s, 0), t + ChunkEvents([cs[0]]), cs[1..], y);
      assert t + ChunkEvents([cs[0]]) + ChunkEvents(cs[1..]) == t + ChunkEvents(cs);
      assert WithLength(WithLength(s, 0), 0) == WithLength(s, 0);
    }
  }

  lemma TrailerEnd(s: Parser, t: Trace)
    requires s.framing.flags.trailing && s.state.HeadersAlmostDone?
    ensures var z := s.(state := MessageDone);
            Byte(s, t, LF) == Point(z.(state := NewMessage(z)), t + [Note(ChunkComplete), Note(MessageComplete)],
                                    if s.upgrade then Exit else Advance)
  {
    assert t + [Note(ChunkComplete)] + [Note(MessageComplete)] == t + [Note(ChunkComplete), Note(MessageComplete)];
  }

  /** The last chunk, trailers that are side lines, and the blank line. */
  datatype Last = Last(zero: Text, extension: Text, trailers: seq<HeaderLine>, end: Eol) {
    predicate Ok(config: Config) {
      && IsSizeLine(zero, extension, 0, config) && AreSideLines(trailers)
      && |LinesText(trailers)| + |end.Text()| <= config.maxHeaderSize
    }

    function Text(): Text {
      zero + extension + CRLF + (LinesText(trailers) + end.Text())
    }

    function Events(): Trace {
      [Note(ChunkHeader)] + LinesEvents(trailers) + [Note(ChunkComplete), Note(MessageComplete)]
    }
  }

  /** The struct after the trailers. Their bytes, with the blank line, are still counted: they are taken off what the
      head of a next message may have. */
  function Ended(s: Parser, last: Last): (r: Parser)
    ensures r.nread == |LinesText(last.trailers)| + |last.end.Text()|
  {
    var z := Sized(WithLength(s, 0));
    var z1 := AfterLines(z, last.trailers).(nread := |LinesText(last.trailers)| + |last.end.Text()|, state := MessageDone);
    z1.(state := NewMessage(z1))
  }

  lemma EndedIs(s: Parser, last: Last)
    ensures var z := Ended(s, last); z.state.Idle? && z.line == s.line && z.config == s.config
  {
    LinesKeep(Sized(WithLength(s, 0)), last.trailers);
    hide AfterLines, LinesText, NewMessage;
  }

  lemma TrailersRun(s: Parser, t: Trace, ls: seq<HeaderLine>, e: Eol, y: Text)
    requires s.state.HeaderFieldStart? && s.framing.flags.trailing && AreSideLines(ls) && !EndsIn(t, Field)
    requires s.nread + |LinesText(ls)| + |e.Text()| <= s.config.maxHeaderSize
    ensures var z := AfterLines(s, ls).(state := MessageDone, nread := s.nread + |LinesText(ls)| + |e.Text()|);
            var t' := t + LinesEvents(ls) + [Note(ChunkComplete), Note(MessageComplete)];
            Run(s, t, LinesText(ls) + (e.Text() + y))
              == if s.upgrade then Stop(z.(state := NewMessage(z)), t', y, Exit) else Run(z.(state := NewMessage(z)), t', y)
  {
    hide Run, Byte, Visit, NewMessage, LinesText, LinesEvents, IsSideLine, StartsLine, EndsIn, AfterLines;
    EndStarts(e, y);
    SideLines(s, t, ls, e.Text() + y);
    LinesKeep(s, ls);
    var s1, t1 := AfterLines(s, ls), t + LinesEvents(ls);
    BlankLine(s1, t1, e, y);
    TrailerEnd(s1.(state := HeadersAlmostDone, nread := s1.nread + |e.Text()|), t1);
    assert ([LF] + y)[1..] == y;
  }

  lemma LastChunk(s: Parser, t: Trace, last: Last, y: Text)
    requires InSize(s, ChunkSizeStart) && s.nread == 0 && last.Ok(s.config)
    ensures var t' := t + last.Events();
            Run(s, t, last.Text() + y)
              == if s.upgrade then Stop(Ended(s, last), t', y, Exit) else Run(Ended(s, last), t', y)
  {
    hide Run, NewMessage, IsHexText, HexFrom, LinesText, LinesEvents, IsSideLine, AfterLines, EndsIn;
    LastShape(last, y);
    SizeLine(s, t, last.zero, last.extension, 0, LinesText(last.trailers) + (last.end.Text() + y));
    var s1, t1 := Sized(WithLength(s, 0)), t + [Note(ChunkHeader)];
    NoteEnds(t, ChunkHeader);
    TrailersRun(s1, t1, last.trailers, last.end, y);
    assert t1 + LinesEvents(last.trailers) + [Note(ChunkComplete), Note(MessageComplete)] == t + last.Events();
  }

  lemma NoteEnds(t: Trace, n: Notice)
    ensures !EndsIn(t + [Note(n)], Field)
  {
  }

  lemma LastShape(last: Last, y: Text)
    ensures last.Text() + y == last.zero + last.extension + CRLF + (LinesText(last.trailers) + (last.end.Text() + y))
  {
    hide LinesText;
  }

  /** A chunked body is reported exactly as it was encoded, however the bytes are cut into
      buffers: for every chunk its header, its data and its completion, then the last chunk, the
      trailers and the end of the message, once. `y` is what follows the message. */
  lemma ChunkedRoundTrip(s: Parser, t: Trace, cs: seq<Chunk>, last: Last, y: Text, bufs: seq<Text>)
    requires Good(s) && s.state == InChunk(ChunkSizeStart)
    requires last.Ok(s.config) && forall i :: 0 <= i < |cs| ==> IsChunk(cs[i], s.config)
    requires Flatten(bufs) == EncodeChunks(cs) + (last.Text() + y)
    ensures var t' := t + ChunkEvents(cs) + last.Events();
            RunAll(s, t, bufs) == if s.upgrade then Stop(Ended(s, last), t', y, Exit) else Run(Ended(s, last), t', y)
    ensures Ended(s, last).state.Idle?
  {
    hide Run, RunAll, Flatten, IsSizeLine, IsChunk, NewMessage, IsSideLine, LinesText, LinesEvents, AfterLines;
    RunAnyCutting(s, t, bufs);
    AllChunks(s, t, cs, last.Text() + y);
    var s1 := if cs == [] then s else WithLength(s, 0);
    LastChunk(s1, t + ChunkEvents(cs), last, y);
    assert Ended(s1, last) == Ended(s, last);
  }
}
