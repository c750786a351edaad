/** Runs over header lines that a client writes. */
module HeaderLines {
  import opened Bytes
  import opened Types
  import opened HeaderWords
  import opened Table
  import opened Runs
  import opened HeaderText
  import opened Codings

  predicate IsToken(x: Text) {
    x != [] && forall i :: 0 <= i < |x| ==> Token(x[i]) != NUL
  }

  lemma TokenIsFold(c: char)
    requires Token(c) != NUL
    ensures Token(c) == Fold(c) && Token(c) != ' ' && c != CR && c != LF && !IsBlank(c)
  {
  }

  /** The matcher after a piece of a name. */
  function MatcherAfter(x: Text): Matcher
    requires x != []
  {
    var c := Token(x[|x| - 1]);
    if |x| == 1 then Matcher(FirstNameState(c), 0)
    else match NameByte(MatcherAfter(x[..|x| - 1]), c)
      case Some(m) => m
      case None => Matcher(General, 0)
  }

  lemma {:induction false} AfterFits(x: Text)
    requires IsToken(x)
    ensures NameFits(MatcherAfter(x), FoldAll(x))
    ensures |x| > 1 ==> NameByte(MatcherAfter(x[..|x| - 1]), Token(x[|x| - 1])).Some?
    decreases |x|
  {
    hide NameFits, NameByte, Token, FirstNameState;
    var init, c := x[..|x| - 1], x[|x| - 1];
    TokenIsFold(c);
    if |x| == 1 {
      FirstByteFits(Token(c));
      assert FoldAll(x) == [Token(c)];
    } else {
      AfterFits(init);
      NextByteFits(MatcherAfter(init), FoldAll(init), Token(c));
      assert FoldAll(x) == FoldAll(init) + [Token(c)];
    }
  }

  /** Names whose beginning does not match "transfer-encoding". */
  predicate NoCoding(x: Text) {
    !(NameText(TransferEncoding) <= FoldAll(x))
  }

  lemma NoCodingAfter(x: Text)
    requires IsToken(x) && NoCoding(x)
    ensures MatcherAfter(x).header != Matched(TransferEncoding)
    ensures |x| > 1 ==> IsToken(x[..|x| - 1]) && NoCoding(x[..|x| - 1])
  {
    AfterFits(x);
    NameRecognised(MatcherAfter(x), x);
    hide MatcherAfter, NameText, NameFits;
    if |x| > 1 { assert FoldAll(x[..|x| - 1]) <= FoldAll(x); }
  }

  lemma FirstNameByte(s: Parser, t: Trace, ch: char)
    requires s.state.HeaderFieldStart? && Token(ch) != NUL
    ensures Byte(s, t, ch)
         == Point(s.(state := InName(HeaderField), matcher := Matcher(FirstNameState(Token(ch)), 0)), Add(t, Data(Field, [ch])), Advance)
  {
    TokenIsFold(ch);
    hide Token, FirstNameState;
  }

  lemma NextNameByte(s: Parser, t: Trace, ch: char)
    requires s.state == InName(HeaderField) && Token(ch) != NUL
    requires var m := NameByte(s.matcher, Token(ch)); m.Some? && m.value.header != Matched(TransferEncoding)
    ensures Byte(s, t, ch) == Point(s.(matcher := NameByte(s.matcher, Token(ch)).value), Add(t, Data(Field, [ch])), Advance)
  {
    hide Token, NameByte;
  }

  lemma ColonByte(s: Parser, t: Trace)
    requires s.state == InName(HeaderField)
    ensures Byte(s, t, ':') == Point(s.(state := InName(HeaderValueDiscardWs)), Add(t, Data(Field, [])), Advance)
  {
  }

  function InNameAfter(s: Parser, x: Text): Parser
    requires x != []
  {
    s.(state := InName(HeaderField), matcher := MatcherAfter(x), nread := s.nread + |x|)
  }

  lemma {:induction false} NameSoFar(s: Parser, t: Trace, x: Text, y: Text)
    requires s.state.HeaderFieldStart? && s.nread + |x| <= s.config.maxHeaderSize && IsToken(x) && NoCoding(x)
    ensures Run(s, t, x + y) == Run(InNameAfter(s, x), Add(t, Data(Field, x)), y)
    decreases |x|
  {
    hide *;
    TokenLast(x);
    var init, ch := x[..|x| - 1], x[|x| - 1];
    LastApart(x, y);
    NoCodingAfter(x);
    InNameAfterIs(s, x);
    AfterSnoc(x);
    if |x| == 1 {
      FirstName(s, t, ch, y);
    } else {
      NameSoFar(s, t, init, [ch] + y);
      InNameAfterIs(s, init);
      NextName(InNameAfter(s, init), Add(t, Data(Field, init)), ch, y);
      AddPieces(t, Field, init, [ch]);
    }
  }

  lemma TokenLast(x: Text)
    requires IsToken(x)
    ensures x != [] && Token(x[|x| - 1]) != NUL
  {
    hide Token;
  }

  lemma InNameAfterIs(s: Parser, x: Text)
    requires x != []
    ensures InNameAfter(s, x) == s.(state := InName(HeaderField), matcher := MatcherAfter(x), nread := s.nread + |x|)
  {
    hide MatcherAfter;
  }

  /** The matcher, one byte further. */
  lemma AfterSnoc(x: Text)
    requires IsToken(x)
    ensures |x| == 1 ==> MatcherAfter(x) == Matcher(FirstNameState(Token(x[0])), 0)
    ensures |x| > 1 ==> NameByte(MatcherAfter(x[..|x| - 1]), Token(x[|x| - 1])) == Some(MatcherAfter(x))
  {
    AfterFits(x);
    hide NameByte, Token, FirstNameState, NameFits, FoldAll;
  }

  lemma FirstName(s: Parser, t: Trace, ch: char, y: Text)
    requires s.state.HeaderFieldStart? && s.nread < s.config.maxHeaderSize && Token(ch) != NUL
    ensures Run(s, t, [ch] + y)
         == Run(s.(state := InName(HeaderField), matcher := Matcher(FirstNameState(Token(ch)), 0), nread := s.nread + 1), Add(t, Data(Field, [ch])), y)
  {
    hide Visit, Byte, Run, Add, Token, FirstNameState;
    FirstNameByte(Counted(s), t, ch);
    RunByte(s, t, ch, y);
  }

  lemma NextName(s: Parser, t: Trace, ch: char, y: Text)
    requires s.state == InName(HeaderField) && s.nread < s.config.maxHeaderSize && Token(ch) != NUL
    requires var m := NameByte(s.matcher, Token(ch)); m.Some? && m.value.header != Matched(TransferEncoding)
    ensures Run(s, t, [ch] + y)
         == Run(s.(matcher := NameByte(s.matcher, Token(ch)).value, nread := s.nread + 1), Add(t, Data(Field, [ch])), y)
  {
    hide Visit, Byte, Run, Add, Token, NameByte;
    NextNameByte(Counted(s), t, ch);
    RunByte(s, t, ch, y);
  }

  /** A name and its colon. */
  lemma NameRun(s: Parser, t: Trace, x: Text, y: Text)
    requires s.state.HeaderFieldStart? && s.nread + |x| + 1 <= s.config.maxHeaderSize && IsToken(x) && NoCoding(x)
    ensures Run(s, t, x + ([':'] + y))
         == Run(s.(state := InName(HeaderValueDiscardWs), matcher := MatcherAfter(x), nread := s.nread + |x| + 1), Add(t, Data(Field, x)), y)
  {
    hide *;
    TokenNotEmpty(x);
    NameSoFar(s, t, x, [':'] + y);
    AddEnds(t, Field, x);
    InNameAfterIs(s, x);
    ColonRun(InNameAfter(s, x), Add(t, Data(Field, x)), y);
  }

  lemma BlankByte(s: Parser, t: Trace, ch: char)
    requires s.state == InName(HeaderValueDiscardWs) && IsBlank(ch)
    ensures Byte(s, t, ch) == Point(s, t, Advance)
  {
  }

  /** Blanks before a value are skipped. */
  lemma {:induction false} BlanksRun(s: Parser, t: Trace, b: Text, y: Text)
    requires s.state == InName(HeaderValueDiscardWs) && s.nread + |b| <= s.config.maxHeaderSize
    requires forall i :: 0 <= i < |b| ==> IsBlank(b[i])
    ensures Run(s, t, b + y) == Run(Read(s, |b|), t, y)
    decreases |b|
  {
    hide Visit, Byte, Run, IsBlank;
    if b == [] {
      assert b + y == y;
    } else {
      BlankByte(Counted(s), t, b[0]);
      assert b + y == [b[0]] + (b[1..] + y);
      RunByte(s, t, b[0], b[1..] + y);
      BlanksRun(Counted(s), t, b[1..], y);
    }
  }

  /** Bytes of a value that do not end it. */
  predicate IsValueText(x: Text) {
    forall i :: 0 <= i < |x| ==> IsHeaderChar(x[i]) && x[i] != CR && x[i] != LF
  }

  predicate EndsIn(t: Trace, k: Part) {
    t != [] && t[|t| - 1].Data? && t[|t| - 1].part == k
  }

  lemma AddEnds(t: Trace, k: Part, x: Text)
    ensures EndsIn(Add(t, Data(k, x)), k)
    ensures !EndsIn(t, k) ==> Add(t, Data(k, x)) == t + [Data(k, x)]
    ensures EndsIn(t, k) ==> Add(t, Data(k, [])) == t
  {
    if EndsIn(t, k) { assert t[|t| - 1].text + [] == t[|t| - 1].text; }
  }

  /** The first byte of the value of a header that is not one of the known ones. */
  lemma FirstValueByte(s: Parser, t: Trace, ch: char)
    requires s.state == InName(HeaderValueDiscardWs) && !IsBlank(ch) && ch != CR && ch != LF
    requires var h := s.matcher.header; !h.Matched? && !h.CodingStart? && !h.LengthWs? && !h.OptionStart?
    ensures Byte(s, t, ch)
         == Point(s.(state := InValue(HeaderValue), matcher := Matcher(General, 0)), Add(t, Data(Value, [ch])), Advance)
  {
    hide Add, Lower, Digit;
  }

  lemma NextValueByte(s: Parser, t: Trace, ch: char)
    requires s.state == InValue(HeaderValue) && s.matcher.header.General? && IsHeaderChar(ch) && ch != CR && ch != LF
    ensures Byte(s, t, ch) == Point(s, Add(t, Data(Value, [ch])), Advance)
  {
    hide Add, Lower, Digit;
  }

  lemma {:induction false} ValueRun(s: Parser, t: Trace, x: Text, y: Text)
    requires s.state == InValue(HeaderValue) && s.matcher.header.General? && s.nread + |x| <= s.config.maxHeaderSize
    requires IsValueText(x) && EndsIn(t, Value)
    ensures Run(s, t, x + y) == Run(Read(s, |x|), Add(t, Data(Value, x)), y)
    decreases |x|
  {
    hide *;
    if x == [] {
      assert x + y == y;
      AddEnds(t, Value, []);
      ReadIs(s, 0);
    } else {
      ValueTail(x);
      var ch, rest := x[0], x[1..];
      HeadAndTail(x, y);
      OneValueByte(s, t, ch, rest + y);
      AddEnds(t, Value, [ch]);
      ValueRun(s.(nread := s.nread + 1), Add(t, Data(Value, [ch])), rest, y);
      AddPieces(t, Value, [ch], rest);
      ReadTwice(s, |rest|);
    }
  }

  lemma ValueTail(x: Text)
    requires x != [] && IsValueText(x)
    ensures IsValueText(x[1..]) && IsHeaderChar(x[0]) && x[0] != CR && x[0] != LF
  {
    hide IsHeaderChar;
  }

  lemma ReadTwice(s: Parser, k: nat)
    ensures Read(s.(nread := s.nread + 1), k) == Read(s, k + 1)
  {
  }

  lemma OneValueByte(s: Parser, t: Trace, ch: char, y: Text)
    requires s.state == InValue(HeaderValue) && s.matcher.header.General? && s.nread < s.config.maxHeaderSize
    requires IsHeaderChar(ch) && ch != CR && ch != LF
    ensures Run(s, t, [ch] + y) == Run(s.(nread := s.nread + 1), Add(t, Data(Value, [ch])), y)
  {
    hide Visit, Byte, Run, Add, IsHeaderChar;
    NextValueByte(Counted(s), t, ch);
    RunByte(s, t, ch, y);
  }

  /** A line feed ends a value; the line is only known to be complete at the next byte. */
  lemma LineFeed(s: Parser, t: Trace)
    requires s.state == InValue(HeaderValue)
    ensures Byte(s, t, LF) == Point(s.(state := InValue(HeaderValueLws)), Add(t, Data(Value, [])), Advance)
  {
    hide Add;
  }

  lemma NextLineByte(s: Parser, t: Trace, ch: char)
    requires s.state == InValue(HeaderValueLws) && !IsBlank(ch)
    ensures Byte(s, t, ch) == Byte(EndLine(s), t, ch)
  {
    hide LineFlags, VisitFieldStart;
  }

  /** What follows a header line: it does not begin with a blank, which would fold the line. */
  predicate StartsLine(y: Text) {
    y != [] && !IsBlank(y[0])
  }

  /** The next byte is not a blank: the line was complete. */
  lemma NextLine(s: Parser, t: Trace, y: Text)
    requires s.state == InValue(HeaderValueLws) && StartsLine(y) && s.nread < s.config.maxHeaderSize
    ensures Run(s, t, y) == Run(EndLine(s), t, y)
  {
    hide Visit, Byte, IsBlank;
    NextLineByte(Counted(s), t, y[0]);
    assert EndLine(Counted(s)) == Counted(EndLine(s));
  }

  /** Both line ends are accepted. */
  datatype Eol = Feed | ReturnFeed {
    function Text(): (r: Text)
      ensures |r| == if Feed? then 1 else 2
    {
      if Feed? then [LF] else [CR, LF]
    }
  }

  lemma CarriageReturn(s: Parser, t: Trace)
    ensures s.state == InValue(HeaderValue) ==>
              Byte(s, t, CR) == Point(s.(state := InValue(HeaderAlmostDone)), Add(t, Data(Value, [])), Advance)
    ensures s.state == InName(HeaderValueDiscardWs) ==>
              Byte(s, t, CR) == Point(s.(state := InName(HeaderValueDiscardWsAlmostDone)), t, Advance)
  {
    hide Add;
  }

  lemma FeedAfterReturn(s: Parser, t: Trace)
    ensures s.state == InValue(HeaderAlmostDone) ==> Byte(s, t, LF) == Point(s.(state := InValue(HeaderValueLws)), t, Advance)
    ensures s.state == InName(HeaderValueDiscardWsAlmostDone) || s.state == InName(HeaderValueDiscardWs) ==>
              Byte(s, t, LF) == Point(s.(state := InName(HeaderValueDiscardLws)), t, Advance)
  {
    hide Add;
  }

  lemma ReturnFirst(y: Text)
    ensures [CR, LF] + y == [CR] + ([LF] + y)
  {
  }

  lemma ValueFeed(s: Parser, t: Trace, z: Text)
    requires s.state == InValue(HeaderValue) && EndsIn(t, Value) && s.nread < s.config.maxHeaderSize
    ensures Run(s, t, [LF] + z) == Run(s.(state := InValue(HeaderValueLws), nread := s.nread + 1), t, z)
  {
    hide Visit, Byte, Run, Add, EndsIn;
    AddEnds(t, Value, []);
    LineFeed(Counted(s), t);
    RunByte(s, t, LF, z);
  }

  lemma ValueReturn(s: Parser, t: Trace, z: Text)
    requires s.state == InValue(HeaderValue) && EndsIn(t, Value) && s.nread + 1 < s.config.maxHeaderSize
    ensures Run(s, t, [CR, LF] + z) == Run(s.(state := InValue(HeaderValueLws), nread := s.nread + 2), t, z)
  {
    hide Visit, Byte, Run, Add, EndsIn;
    AddEnds(t, Value, []);
    CarriageReturn(Counted(s), t);
    RunByte(s, t, CR, [LF] + z);
    AfterReturn(s.(state := InValue(HeaderAlmostDone), nread := s.nread + 1), t, z);
    ReturnFirst(z);
  }

  lemma AfterReturn(s: Parser, t: Trace, z: Text)
    requires s.state == InValue(HeaderAlmostDone) && s.nread < s.config.maxHeaderSize
    ensures Run(s, t, [LF] + z) == Run(s.(state := InValue(HeaderValueLws), nread := s.nread + 1), t, z)
  {
    hide Visit, Byte, Run;
    FeedAfterReturn(Counted(s), t);
    RunByte(s, t, LF, z);
  }

  /** The end of a line with a value, and the byte that shows it. */
  lemma ValueEnds(s: Parser, t: Trace, e: Eol, y: Text)
    requires s.state == InValue(HeaderValue) && EndsIn(t, Value) && StartsLine(y)
    requires s.nread + |e.Text()| < s.config.maxHeaderSize
    ensures Run(s, t, e.Text() + y) == Run(EndLine(Read(s, |e.Text()|)), t, y)
  {
    hide Run, EndsIn, StartsLine, EndLine;
    var s1 := s.(state := InValue(HeaderValueLws), nread := s.nread + |e.Text()|);
    if e.Feed? { ValueFeed(s, t, y); } else { ValueReturn(s, t, y); }
    NextLine(s1, t, y);
    SameEndLine(Read(s, |e.Text()|));
  }

  lemma SameEndLine(s: Parser)
    ensures EndLine(s.(state := InValue(HeaderValueLws))) == EndLine(s)
  {
  }

  lemma EmptyNextByte(s: Parser, t: Trace, ch: char)
    requires s.state == InName(HeaderValueDiscardLws) && !IsBlank(ch) && s.matcher.header != Matched(ContentLength)
    requires LineFlags(s.matcher.header, s.framing.flags) == s.framing.flags
    ensures Byte(s, t, ch) == Byte(s.(state := HeaderFieldStart), Add(t, Data(Value, [])), ch)
  {
    hide LineFlags, VisitFieldStart, Add;
  }

  lemma EmptyFeed(s: Parser, t: Trace, z: Text)
    requires s.state == InName(HeaderValueDiscardWs) && s.nread < s.config.maxHeaderSize
    ensures Run(s, t, [LF] + z) == Run(s.(state := InName(HeaderValueDiscardLws), nread := s.nread + 1), t, z)
  {
    hide Visit, Byte, Run;
    FeedAfterReturn(Counted(s), t);
    RunByte(s, t, LF, z);
  }

  lemma EmptyReturn(s: Parser, t: Trace, z: Text)
    requires s.state == InName(HeaderValueDiscardWs) && s.nread + 1 < s.config.maxHeaderSize
    ensures Run(s, t, [CR, LF] + z) == Run(s.(state := InName(HeaderValueDiscardLws), nread := s.nread + 2), t, z)
  {
    hide Visit, Byte, Run;
    ReturnFirst(z);
    CarriageReturn(Counted(s), t);
    RunByte(s, t, CR, [LF] + z);
    var s1 := s.(state := InName(HeaderValueDiscardWsAlmostDone), nread := s.nread + 1);
    FeedAfterReturn(Counted(s1), t);
    RunByte(s1, t, LF, z);
  }

  /** The end of a line without a value; its empty value is reported with the next byte. */
  lemma EmptyEnds(s: Parser, t: Trace, e: Eol, y: Text)
    requires s.state == InName(HeaderValueDiscardWs) && EndsIn(t, Field) && StartsLine(y)
    requires s.nread + |e.Text()| < s.config.maxHeaderSize
    requires s.matcher.header != Matched(ContentLength) && LineFlags(s.matcher.header, s.framing.flags) == s.framing.flags
    ensures Run(s, t, e.Text() + y) == Run(s.(state := HeaderFieldStart, nread := s.nread + |e.Text()|), t + [Data(Value, [])], y)
  {
    hide Run, Add, StartsLine, LineFlags, EndsIn;
    if e.Feed? { EmptyFeed(s, t, y); } else { EmptyReturn(s, t, y); }
    FieldThenValue(t, []);
    EmptyNext(s.(state := InName(HeaderValueDiscardLws), nread := s.nread + |e.Text()|), t, y);
  }

  lemma EmptyNext(s: Parser, t: Trace, y: Text)
    requires s.state == InName(HeaderValueDiscardLws) && StartsLine(y) && s.nread < s.config.maxHeaderSize
    requires s.matcher.header != Matched(ContentLength) && LineFlags(s.matcher.header, s.framing.flags) == s.framing.flags
    ensures Run(s, t, y) == Run(s.(state := HeaderFieldStart), Add(t, Data(Value, [])), y)
  {
    hide Visit, Byte, Add, IsBlank, LineFlags;
    EmptyNextByte(Counted(s), t, y[0]);
  }

  /** A header line: the value with the blanks around it, and the line end. */
  datatype HeaderLine = HeaderLine(name: Text, value: Text, eol: Eol)

  function LineText(l: HeaderLine): Text {
    l.name + ([':'] + (l.value + l.eol.Text()))
  }

  /** A value without the blanks in front of it. */
  function Stripped(v: Text): (r: Text)
    ensures |r| <= |v| && r == v[|v| - |r|..] && (r != [] ==> !IsBlank(r[0]))
    ensures forall i :: 0 <= i < |v| - |r| ==> IsBlank(v[i])
  {
    if v != [] && IsBlank(v[0]) then Stripped(v[1..]) else v
  }

  lemma StrippedText(v: Text)
    requires IsValueText(v)
    ensures IsValueText(Stripped(v))
  {
  }

  predicate IsLine(l: HeaderLine) {
    IsToken(l.name) && IsValueText(l.value)
  }

  /** A header that means nothing to the parser. */
  predicate IsPlain(l: HeaderLine) {
    && IsLine(l) && NoCoding(l.name)
    && !IsName(l.name, ContentLength) && !IsName(l.name, Upgrade) && !IsConnection(l.name)
  }

  function LineEvents(l: HeaderLine): Trace {
    [Data(Field, l.name), Data(Value, Stripped(l.value))]
  }

  lemma PlainMatcher(l: HeaderLine)
    requires IsPlain(l)
    ensures var h := MatcherAfter(l.name).header; !h.Matched? && !h.CodingStart? && !h.LengthWs? && !h.OptionStart?
    ensures var h := MatcherAfter(l.name).header; !h.OptionMatched? && !h.CodingChunked?
  {
    AfterFits(l.name);
    NoCodingAfter(l.name);
    NameRecognised(MatcherAfter(l.name), l.name);
    hide MatcherAfter, IsName, IsConnection, NoCoding, IsToken;
  }

  lemma HeadAndTail(v: Text, z: Text)
    requires v != []
    ensures v + z == [v[0]] + (v[1..] + z) && [v[0]] + v[1..] == v
  {
  }

  /** The value and the line end of a plain header. */
  lemma PlainValue(s: Parser, t: Trace, v: Text, y: Text)
    requires s.state == InName(HeaderValueDiscardWs) && s.nread + |v| <= s.config.maxHeaderSize
    requires var h := s.matcher.header; !h.Matched? && !h.CodingStart? && !h.LengthWs? && !h.OptionStart?
    requires IsValueText(v) && v != [] && !IsBlank(v[0])
    ensures Run(s, t, v + y)
         == Run(s.(state := InValue(HeaderValue), matcher := Matcher(General, 0), nread := s.nread + |v|), Add(t, Data(Value, v)), y)
  {
    hide *;
    var ch, rest := v[0], v[1..];
    var s1, t1 := s.(state := InValue(HeaderValue), matcher := Matcher(General, 0), nread := s.nread + 1), Add(t, Data(Value, [ch]));
    ValueTail(v);
    HeadAndTail(v, y);
    FirstValueRun(s, t, ch, rest + y);
    AddEnds(t, Value, [ch]);
    ValueRun(s1, t1, rest, y);
    ReadIs(s1, |rest|);
    AddPieces(t, Value, [ch], rest);
  }

  lemma FirstValueRun(s: Parser, t: Trace, ch: char, y: Text)
    requires s.state == InName(HeaderValueDiscardWs) && s.nread < s.config.maxHeaderSize && !IsBlank(ch) && ch != CR && ch != LF
    requires var h := s.matcher.header; !h.Matched? && !h.CodingStart? && !h.LengthWs? && !h.OptionStart?
    ensures Run(s, t, [ch] + y)
         == Run(s.(state := InValue(HeaderValue), matcher := Matcher(General, 0), nread := s.nread + 1), Add(t, Data(Value, [ch])), y)
  {
    hide Visit, Byte, Run, IsBlank, Add;
    FirstValueByte(Counted(s), t, ch);
    RunByte(s, t, ch, y);
  }

  /** A line as its name, its colon, its blanks, its value and its end. */
  lemma LineShape(l: HeaderLine, rest: Text)
    ensures var v := Stripped(l.value);
            var b := l.value[..|l.value| - |v|];
            && LineText(l) + rest == l.name + ([':'] + (b + (v + (l.eol.Text() + rest))))
            && |LineText(l)| == |l.name| + 1 + |b| + |v| + |l.eol.Text()|
  {
    var v := Stripped(l.value);
    var b := l.value[..|l.value| - |v|];
    StrippedApart(l.value);
    var e := l.eol.Text();
    LineLength(l);
    assert LineText(l) == l.name + ([':'] + (l.value + e));
    hide *;
    Regroup(b, v, e, rest);
    LinePieces(l.name, l.value, e, rest);
  }

  lemma StrippedApart(x: Text)
    ensures var v := Stripped(x); |v| <= |x| && x[..|x| - |v|] + v == x
  {
    hide *;
    var v := Stripped(x);
    SplitAt(x, |x| - |v|);
  }

  lemma SplitAt(x: Text, k: nat)
    requires k <= |x|
    ensures x[..k] + x[k..] == x
  {
  }

  lemma LineLength(l: HeaderLine)
    ensures |LineText(l)| == |l.name| + 1 + |l.value| + |l.eol.Text()|
  {
  }

  lemma LinePieces(n: Text, v: Text, e: Text, rest: Text)
    ensures (n + ([':'] + (v + e))) + rest == n + ([':'] + ((v + e) + rest))
  {
  }

  lemma Regroup(b: Text, v: Text, e: Text, rest: Text)
    ensures ((b + v) + e) + rest == b + (v + (e + rest))
  {
  }

  lemma TokenNotEmpty(x: Text)
    requires IsToken(x)
    ensures x != []
  {
  }

  /** A header name, its colon and the blanks after it. */
  lemma NameAndBlanks(s: Parser, t: Trace, name: Text, b: Text, y: Text)
    requires s.state.HeaderFieldStart? && IsToken(name) && NoCoding(name) && !EndsIn(t, Field)
    requires forall i :: 0 <= i < |b| ==> IsBlank(b[i])
    requires s.nread + |name| + 1 + |b| <= s.config.maxHeaderSize
    ensures Run(s, t, name + ([':'] + (b + y)))
         == Run(s.(state := InName(HeaderValueDiscardWs), matcher := MatcherAfter(name), nread := s.nread + |name| + 1 + |b|),
                t + [Data(Field, name)], y)
  {
    hide *;
    TokenNotEmpty(name);
    NameRun(s, t, name, b + y);
    AddEnds(t, Field, name);
    var s1 := s.(state := InName(HeaderValueDiscardWs), matcher := MatcherAfter(name), nread := s.nread + |name| + 1);
    BlanksRun(s1, t + [Data(Field, name)], b, y);
    ReadIs(s1, |b|);
  }

  lemma ReadIs(s: Parser, k: nat)
    ensures Read(s, k) == s.(nread := s.nread + k)
  {
  }

  /** The matcher after a plain line. */
  function PlainMatch(l: HeaderLine): Matcher
    requires l.name != []
  {
    if Stripped(l.value) == [] then MatcherAfter(l.name) else Matcher(General, 0)
  }

  lemma SameFlags(h: HeaderState, flags: Flags)
    requires !h.OptionMatched? && !h.CodingChunked?
    ensures LineFlags(h, flags) == flags
  {
  }

  lemma SameLine(s: Parser)
    requires LineFlags(s.matcher.header, s.framing.flags) == s.framing.flags
    ensures EndLine(s) == s.(state := HeaderFieldStart)
  {
    hide LineFlags;
  }

  lemma GeneralEnds(s: Parser, t: Trace, e: Eol, y: Text)
    requires s.state == InValue(HeaderValue) && s.matcher.header.General? && EndsIn(t, Value) && StartsLine(y)
    requires s.nread + |e.Text()| < s.config.maxHeaderSize
    ensures Run(s, t, e.Text() + y) == Run(s.(state := HeaderFieldStart, nread := s.nread + |e.Text()|), t, y)
  {
    hide Run, EndsIn, StartsLine, EndLine, LineFlags;
    ValueEnds(s, t, e, y);
    SameFlags(General, s.framing.flags);
    SameLine(Read(s, |e.Text()|));
  }

  lemma PlainValueRest(s: Parser, t: Trace, v: Text, e: Eol, y: Text)
    requires s.state == InName(HeaderValueDiscardWs) && s.nread + |v| + |e.Text()| < s.config.maxHeaderSize
    requires var h := s.matcher.header; !h.Matched? && !h.CodingStart? && !h.LengthWs? && !h.OptionStart?
    requires IsValueText(v) && v != [] && !IsBlank(v[0]) && StartsLine(y) && EndsIn(t, Field)
    ensures Run(s, t, v + (e.Text() + y))
         == Run(Past(s, HeaderFieldStart, v + e.Text()).(matcher := Matcher(General, 0)), t + [Data(Value, v)], y)
  {
    hide *;
    PlainValue(s, t, v, e.Text() + y);
    FieldThenValue(t, v);
    var s1 := s.(state := InValue(HeaderValue), matcher := Matcher(General, 0), nread := s.nread + |v|);
    GeneralEnds(s1, t + [Data(Value, v)], e, y);
    PastTwice(s, v, e.Text());
  }

  lemma PastTwice(s: Parser, v: Text, e: Text)
    ensures Past(s, HeaderFieldStart, v + e) == s.(state := HeaderFieldStart, nread := s.nread + |v| + |e|)
  {
  }

  /** What follows the blanks of a plain line. */
  lemma PlainRest(s: Parser, t: Trace, l: HeaderLine, y: Text)
    requires IsPlain(l) && s.state == InName(HeaderValueDiscardWs) && s.matcher == MatcherAfter(l.name)
    requires EndsIn(t, Field) && StartsLine(y) && s.nread + |Stripped(l.value)| + |l.eol.Text()| < s.config.maxHeaderSize
    ensures Run(s, t, Stripped(l.value) + (l.eol.Text() + y))
         == Run(s.(state := HeaderFieldStart, matcher := PlainMatch(l), nread := s.nread + |Stripped(l.value)| + |l.eol.Text()|),
                t + [Data(Value, Stripped(l.value))], y)
  {
    hide *;
    PlainMatcher(l);
    PlainParts(l);
    var v, z := Stripped(l.value), l.eol.Text() + y;
    if v == [] {
      assert v + z == z;
      SameFlags(s.matcher.header, s.framing.flags);
      EmptyEnds(s, t, l.eol, y);
    } else {
      PlainValueRest(s, t, v, l.eol, y);
      PastTwice(s, v, l.eol.Text());
    }
  }

  lemma PlainParts(l: HeaderLine)
    requires IsPlain(l)
    ensures l.name != [] && IsToken(l.name) && NoCoding(l.name) && IsValueText(Stripped(l.value))
    ensures PlainMatch(l) == if Stripped(l.value) == [] then MatcherAfter(l.name) else Matcher(General, 0)
    ensures Stripped(l.value) != [] ==> !IsBlank(Stripped(l.value)[0])
  {
    StrippedText(l.value);
    hide Stripped, NoCoding, IsName, IsConnection, MatcherAfter, IsBlank, IsValueText;
  }

  lemma FieldThenValue(t: Trace, v: Text)
    requires EndsIn(t, Field)
    ensures Add(t, Data(Value, v)) == t + [Data(Value, v)] && EndsIn(t + [Data(Value, v)], Value)
  {
  }

  /** A plain header line leaves nothing but its events. */
  lemma PlainLine(s: Parser, t: Trace, l: HeaderLine, y: Text)
    requires s.state.HeaderFieldStart? && IsPlain(l) && StartsLine(y) && !EndsIn(t, Field)
    requires s.nread + |LineText(l)| < s.config.maxHeaderSize
    ensures Run(s, t, LineText(l) + y)
         == Run(s.(matcher := PlainMatch(l), nread := s.nread + |LineText(l)|), t + LineEvents(l), y)
  {
    hide *;
    PlainParts(l);
    BlanksOf(l.value);
    var v := Stripped(l.value);
    var b := l.value[..|l.value| - |v|];
    LineShape(l, y);
    NameAndBlanks(s, t, l.name, b, v + (l.eol.Text() + y));
    var s1 := s.(state := InName(HeaderValueDiscardWs), matcher := MatcherAfter(l.name), nread := s.nread + |l.name| + 1 + |b|);
    FieldEnds(t, l.name);
    PlainRest(s1, t + [Data(Field, l.name)], l, y);
    EventsOfLine(t, l);
  }

  /** The largest length that is accepted. */
  const MAX_LENGTH := (U64_MAX - 10) / 10 * 10 + 9

  lemma FirstLengthByte(s: Parser, t: Trace, ch: char)
    requires s.state == InName(HeaderValueDiscardWs) && s.matcher.header == Matched(ContentLength) && IsNum(ch)
    requires !s.framing.flags.contentLength
    ensures var f := s.framing.(flags := s.framing.flags.(contentLength := true), contentLength := Digit(ch));
            Byte(s, t, ch)
              == Point(s.(state := InValue(HeaderValue), matcher := Matcher(LengthNum, 0), framing := f), Add(t, Data(Value, [ch])), Advance)
  {
    hide Add, Lower, Digit;
  }

  lemma NextLengthByte(s: Parser, t: Trace, ch: char)
    requires s.state == InValue(HeaderValue) && s.matcher.header.LengthNum? && IsNum(ch)
    requires s.framing.contentLength * 10 + Digit(ch) <= MAX_LENGTH
    ensures Byte(s, t, ch)
         == Point(WithLength(s, s.framing.contentLength * 10 + Digit(ch)), Add(t, Data(Value, [ch])), Advance)
  {
    NoOverflow(s.matcher, s.framing, ch);
    hide Add, Lower, Digit, LengthByte;
    assert s.matcher.(header := LengthNum) == s.matcher;
  }

  lemma NoOverflow(m: Matcher, f: Framing, ch: char)
    requires IsNum(ch) && f.contentLength * 10 + Digit(ch) <= MAX_LENGTH
    ensures LengthByte(m, f, ch) == Head(m.(header := LengthNum), f.(contentLength := f.contentLength * 10 + Digit(ch)))
  {
  }

  /** The struct after the `k` digits of the number `n`. */
  function Measured(s: Parser, k: nat, n: nat): Parser {
    s.(state := InValue(HeaderValue), matcher := Matcher(LengthNum, 0), nread := s.nread + k,
       framing := s.framing.(flags := s.framing.flags.(contentLength := true), contentLength := n))
  }

  /** The struct after a number. */
  function LengthAfter(s: Parser, x: Text): Parser
    requires AllDigits(x)
  {
    Measured(s, |x|, Decimal(x))
  }

  lemma {:induction false} LengthSoFar(s: Parser, t: Trace, x: Text, y: Text)
    requires s.state == InName(HeaderValueDiscardWs) && s.matcher.header == Matched(ContentLength)
    requires !s.framing.flags.contentLength && s.nread + |x| <= s.config.maxHeaderSize
    requires x != [] && AllDigits(x) && Decimal(x) <= MAX_LENGTH
    ensures Run(s, t, x + y) == Run(LengthAfter(s, x), Add(t, Data(Value, x)), y)
    decreases |x|
  {
    hide *;
    var init, ch := x[..|x| - 1], x[|x| - 1];
    LastApart(x, y);
    LastDigit(x);
    LengthIs(s, x);
    if |x| == 1 {
      FirstLength(s, t, ch, y);
    } else {
      LengthSoFar(s, t, init, [ch] + y);
      LengthIs(s, init);
      NextLength(s, Add(t, Data(Value, init)), |x| - 1, Decimal(init), ch, y);
      AddPieces(t, Value, init, [ch]);
    }
  }

  lemma LengthIs(s: Parser, x: Text)
    requires AllDigits(x)
    ensures LengthAfter(s, x) == Measured(s, |x|, Decimal(x))
  {
    hide Decimal, Measured;
  }

  lemma LastDigit(x: Text)
    requires x != [] && AllDigits(x)
    ensures var init, ch := x[..|x| - 1], x[|x| - 1];
            && AllDigits(init) && IsNum(ch) && Decimal(x) == Decimal(init) * 10 + Digit(ch) && Decimal(init) <= Decimal(x)
            && (|x| == 1 ==> Decimal(x) == Digit(ch))
  {
    hide IsNum, Digit;
  }

  lemma FirstLength(s: Parser, t: Trace, ch: char, y: Text)
    requires s.state == InName(HeaderValueDiscardWs) && s.matcher.header == Matched(ContentLength) && IsNum(ch)
    requires !s.framing.flags.contentLength && s.nread < s.config.maxHeaderSize
    ensures Run(s, t, [ch] + y) == Run(Measured(s, 1, Digit(ch)), Add(t, Data(Value, [ch])), y)
  {
    hide Visit, Byte, Run, Add, IsNum, Digit;
    FirstLengthByte(Counted(s), t, ch);
    RunByte(s, t, ch, y);
  }

  lemma NextLength(s: Parser, t: Trace, k: nat, n: nat, ch: char, y: Text)
    requires IsNum(ch) && n * 10 + Digit(ch) <= MAX_LENGTH && s.nread + k < s.config.maxHeaderSize
    ensures Run(Measured(s, k, n), t, [ch] + y) == Run(Measured(s, k + 1, n * 10 + Digit(ch)), Add(t, Data(Value, [ch])), y)
  {
    hide Visit, Byte, Run, Add, IsNum, Digit;
    NextLengthByte(Counted(Measured(s, k, n)), t, ch);
    RunByte(Measured(s, k, n), t, ch, y);
  }

  /** A line that frames a message by a length. */
  predicate IsLengthLine(l: HeaderLine) {
    var v := Stripped(l.value);
    IsLine(l) && IsName(l.name, ContentLength) && v != [] && AllDigits(v) && Decimal(v) <= MAX_LENGTH
  }

  /** The struct after such a line. */
  function WithLengthLine(s: Parser, l: HeaderLine): Parser
    requires IsLengthLine(l)
  {
    s.(matcher := Matcher(LengthNum, 0), nread := s.nread + |LineText(l)|,
       framing := s.framing.(flags := s.framing.flags.(contentLength := true), contentLength := Decimal(Stripped(l.value))))
  }

  lemma LengthMatcher(l: HeaderLine)
    requires IsLengthLine(l)
    ensures MatcherAfter(l.name).header == Matched(ContentLength) && NoCoding(l.name)
  {
    AfterFits(l.name);
    NameRecognised(MatcherAfter(l.name), l.name);
    hide MatcherAfter, NameFits, Decimal, Stripped;
    Words();
  }

  lemma LengthEnds(s: Parser, t: Trace, e: Eol, y: Text)
    requires s.state == InValue(HeaderValue) && s.matcher.header.LengthNum? && EndsIn(t, Value) && StartsLine(y)
    requires s.nread + |e.Text()| < s.config.maxHeaderSize
    ensures Run(s, t, e.Text() + y) == Run(s.(state := HeaderFieldStart, nread := s.nread + |e.Text()|), t, y)
  {
    hide Run, EndsIn, StartsLine, EndLine, LineFlags;
    ValueEnds(s, t, e, y);
    SameFlags(LengthNum, s.framing.flags);
    SameLine(Read(s, |e.Text()|));
  }

  lemma LengthRest(s: Parser, t: Trace, v: Text, e: Eol, y: Text)
    requires s.state == InName(HeaderValueDiscardWs) && s.matcher.header == Matched(ContentLength) && !s.framing.flags.contentLength
    requires v != [] && AllDigits(v) && Decimal(v) <= MAX_LENGTH && EndsIn(t, Field) && StartsLine(y)
    requires s.nread + |v| + |e.Text()| < s.config.maxHeaderSize
    ensures Run(s, t, v + (e.Text() + y))
         == Run(LengthAfter(s, v).(state := HeaderFieldStart, nread := s.nread + |v| + |e.Text()|), t + [Data(Value, v)], y)
  {
    hide *;
    LengthSoFar(s, t, v, e.Text() + y);
    FieldThenValue(t, v);
    LengthIs(s, v);
    MeasuredIs(s, |v|, Decimal(v));
    LengthEnds(LengthAfter(s, v), t + [Data(Value, v)], e, y);
  }

  lemma MeasuredIs(s: Parser, k: nat, n: nat)
    ensures var z := Measured(s, k, n);
            z.state == InValue(HeaderValue) && z.matcher.header.LengthNum? && z.nread == s.nread + k && z.config == s.config
  {
  }

  lemma LengthLine(s: Parser, t: Trace, l: HeaderLine, y: Text)
    requires s.state.HeaderFieldStart? && IsLengthLine(l) && StartsLine(y) && !EndsIn(t, Field)
    requires !s.framing.flags.contentLength && s.nread + |LineText(l)| < s.config.maxHeaderSize
    ensures Run(s, t, LineText(l) + y) == Run(WithLengthLine(s, l), t + LineEvents(l), y)
  {
    hide *;
    LengthParts(l);
    LengthMatcher(l);
    BlanksOf(l.value);
    var v := Stripped(l.value);
    var b := l.value[..|l.value| - |v|];
    LineShape(l, y);
    NameAndBlanks(s, t, l.name, b, v + (l.eol.Text() + y));
    var s1 := s.(state := InName(HeaderValueDiscardWs), matcher := MatcherAfter(l.name), nread := s.nread + |l.name| + 1 + |b|);
    FieldEnds(t, l.name);
    LengthRest(s1, t + [Data(Field, l.name)], v, l.eol, y);
    EventsOfLine(t, l);
    LengthDone(s, s1, l, b);
  }

  lemma LengthParts(l: HeaderLine)
    requires IsLengthLine(l)
    ensures l.name != [] && IsToken(l.name)
    ensures var v := Stripped(l.value); v != [] && AllDigits(v) && Decimal(v) <= MAX_LENGTH
  {
    hide Stripped, IsName, Decimal, AllDigits;
  }

  lemma LengthDone(s: Parser, z: Parser, l: HeaderLine, b: Text)
    requires IsLengthLine(l) && s.state.HeaderFieldStart? && b == l.value[..|l.value| - |Stripped(l.value)|]
    requires z == s.(state := z.state, matcher := z.matcher, nread := s.nread + |l.name| + 1 + |b|)
    ensures AllDigits(Stripped(l.value))
    ensures WithLengthLine(s, l)
         == LengthAfter(z, Stripped(l.value)).(state := HeaderFieldStart, nread := z.nread + |Stripped(l.value)| + |l.eol.Text()|)
  {
    LineShape(l, []);
    hide Stripped, IsName, Decimal, LineText, IsLine;
  }

  // Transfer-Encoding

  /** The last byte of the name Transfer-Encoding. */
  lemma CodingNameByte(s: Parser, t: Trace, ch: char)
    requires s.state == InName(HeaderField) && Token(ch) != NUL
    requires var m := NameByte(s.matcher, Token(ch)); m.Some? && m.value.header == Matched(TransferEncoding)
    ensures Byte(s, t, ch)
         == Point(s.(matcher := NameByte(s.matcher, Token(ch)).value, framing := s.framing.(usesTransferEncoding := true)),
                  Add(t, Data(Field, [ch])), Advance)
  {
    hide Token, NameByte;
  }

  lemma CodingMatcher(x: Text)
    requires IsToken(x) && IsName(x, TransferEncoding)
    ensures |x| > 1 && IsToken(x[..|x| - 1]) && NoCoding(x[..|x| - 1]) && MatcherAfter(x).header == Matched(TransferEncoding)
    ensures NameByte(MatcherAfter(x[..|x| - 1]), Token(x[|x| - 1])) == Some(MatcherAfter(x))
  {
    AfterFits(x);
    NameRecognised(MatcherAfter(x), x);
    Words();
    hide NameFits, NameText, NameByte;
  }

  lemma CodingNameRun(s: Parser, t: Trace, x: Text, y: Text)
    requires s.state.HeaderFieldStart? && s.nread + |x| <= s.config.maxHeaderSize && IsToken(x) && IsName(x, TransferEncoding)
    ensures Run(s, t, x + y)
         == Run(InNameAfter(s, x).(framing := s.framing.(usesTransferEncoding := true)), Add(t, Data(Field, x)), y)
  {
    hide *;
    CodingMatcher(x);
    TokenLast(x);
    var init, ch := x[..|x| - 1], x[|x| - 1];
    LastApart(x, y);
    NameSoFar(s, t, init, [ch] + y);
    InNameAfterIs(s, init);
    InNameAfterIs(s, x);
    CodingNameEnd(InNameAfter(s, init), Add(t, Data(Field, init)), ch, y);
    AddPieces(t, Field, init, [ch]);
  }

  lemma CodingNameEnd(s: Parser, t: Trace, ch: char, y: Text)
    requires s.state == InName(HeaderField) && Token(ch) != NUL && s.nread < s.config.maxHeaderSize
    requires var m := NameByte(s.matcher, Token(ch)); m.Some? && m.value.header == Matched(TransferEncoding)
    ensures Run(s, t, [ch] + y)
         == Run(s.(matcher := NameByte(s.matcher, Token(ch)).value, framing := s.framing.(usesTransferEncoding := true), nread := s.nread + 1),
                Add(t, Data(Field, [ch])), y)
  {
    hide Run, Byte, Visit, Add, NameByte, Token;
    CodingNameByte(Counted(s), t, ch);
    RunByte(s, t, ch, y);
  }

  lemma ColonRun(s: Parser, t: Trace, y: Text)
    requires s.state == InName(HeaderField) && s.nread < s.config.maxHeaderSize && EndsIn(t, Field)
    ensures Run(s, t, [':'] + y) == Run(s.(state := InName(HeaderValueDiscardWs), nread := s.nread + 1), t, y)
  {
    hide Run, Byte, Visit, Add, EndsIn;
    ColonByte(Counted(s), t);
    RunByte(s, t, ':', y);
    AddEnds(t, Field, []);
  }

  /** Bytes of a value that do not end it, for a parser in this mode. */
  predicate IsTaken(x: Text, lenient: bool) {
    forall i :: 0 <= i < |x| ==> x[i] != CR && x[i] != LF && (lenient || IsHeaderChar(x[i]))
  }

  /** The states of the matcher in a Transfer-Encoding value. */
  predicate IsCoding(h: HeaderState) {
    h.CodingStart? || h.CodingMatching? || h.CodingToken? || h.CodingChunked? || h.General?
  }

  lemma CodingKeeps(m: Matcher, f: Framing, ch: char)
    requires IsCoding(m.header)
    ensures ValueByte(m, f, ch) == Head(TokenByte(m, ch), f) && IsCoding(TokenByte(m, ch).header)
  {
    hide Token, Lower, CHUNKED;
  }

  lemma FirstCodingByte(s: Parser, t: Trace, ch: char)
    requires s.state == InName(HeaderValueDiscardWs) && s.matcher.header == Matched(TransferEncoding)
    requires !IsBlank(ch) && ch != CR && ch != LF
    ensures Byte(s, t, ch) == Point(s.(state := InValue(HeaderValue), matcher := FirstOf(ch)), Add(t, Data(Value, [ch])), Advance)
  {
    hide Add, Lower;
  }

  lemma NextCodingByte(s: Parser, t: Trace, ch: char)
    requires s.state == InValue(HeaderValue) && IsCoding(s.matcher.header) && IsTaken([ch], s.config.lenient)
    ensures Byte(s, t, ch) == Point(s.(matcher := TokenByte(s.matcher, ch)), Add(t, Data(Value, [ch])), Advance)
  {
    assert [ch][0] == ch;
    CodingKeeps(s.matcher, s.framing, ch);
    hide Add, ValueByte, TokenByte, IsHeaderChar;
  }

  /** The struct in a Transfer-Encoding value after `k` bytes. */
  function InCodingValue(s: Parser, m: Matcher, k: nat): Parser {
    s.(state := InValue(HeaderValue), matcher := m, nread := s.nread + k)
  }

  lemma {:induction false} CodingSoFar(s: Parser, t: Trace, v: Text, y: Text)
    requires s.state == InName(HeaderValueDiscardWs) && s.matcher.header == Matched(TransferEncoding)
    requires v != [] && !IsBlank(v[0]) && IsTaken(v, s.config.lenient) && s.nread + |v| <= s.config.maxHeaderSize
    ensures Run(s, t, v + y) == Run(InCodingValue(s, CodingAfter(v), |v|), Add(t, Data(Value, v)), y)
    ensures IsCoding(CodingAfter(v).header)
    decreases |v|
  {
    hide *;
    var init, ch := v[..|v| - 1], v[|v| - 1];
    LastApart(v, y);
    TakenApart(v, s.config.lenient);
    if |v| == 1 {
      FirstCoding(s, t, ch, y);
      OneCoding(v);
    } else {
      CodingSoFar(s, t, init, [ch] + y);
      NextCoding(s, Add(t, Data(Value, init)), CodingAfter(init), |init|, ch, y);
      AfterConcat(init, [ch]);
      TokensOne(CodingAfter(init), ch, []);
      AddPieces(t, Value, init, [ch]);
    }
  }

  lemma OneCoding(v: Text)
    requires |v| == 1
    ensures CodingAfter(v) == FirstOf(v[0]) && IsCoding(FirstOf(v[0]).header)
  {
    assert v[1..] == [];
  }

  lemma TakenApart(v: Text, lenient: bool)
    requires v != [] && IsTaken(v, lenient)
    ensures IsTaken(v[..|v| - 1], lenient) && IsTaken([v[|v| - 1]], lenient) && v[0] != CR && v[0] != LF
    ensures |v| > 1 ==> v[..|v| - 1] != [] && v[..|v| - 1][0] == v[0]
  {
    hide IsHeaderChar;
  }

  lemma FirstCoding(s: Parser, t: Trace, ch: char, y: Text)
    requires s.state == InName(HeaderValueDiscardWs) && s.matcher.header == Matched(TransferEncoding) && s.nread < s.config.maxHeaderSize
    requires !IsBlank(ch) && ch != CR && ch != LF
    ensures Run(s, t, [ch] + y) == Run(InCodingValue(s, FirstOf(ch), 1), Add(t, Data(Value, [ch])), y)
  {
    hide Run, Byte, Visit, Add, FirstOf;
    FirstCodingByte(Counted(s), t, ch);
    RunByte(s, t, ch, y);
  }

  lemma NextCoding(s: Parser, t: Trace, m: Matcher, k: nat, ch: char, y: Text)
    requires IsCoding(m.header) && IsTaken([ch], s.config.lenient) && s.nread + k < s.config.maxHeaderSize
    ensures Run(InCodingValue(s, m, k), t, [ch] + y) == Run(InCodingValue(s, TokenByte(m, ch), k + 1), Add(t, Data(Value, [ch])), y)
    ensures IsCoding(TokenByte(m, ch).header)
  {
    CodingKeeps(m, s.framing, ch);
    hide Run, Byte, Visit, Add, TokenByte, IsTaken, IsCoding;
    var z := InCodingValue(s, m, k);
    NextCodingByte(Counted(z), t, ch);
    RunByte(z, t, ch, y);
  }

  /** A Transfer-Encoding line. */
  predicate IsCodingLine(l: HeaderLine, lenient: bool) {
    IsToken(l.name) && IsTaken(l.value, lenient) && IsName(l.name, TransferEncoding)
  }

  /** The matcher after such a line. */
  function CodingMatch(l: HeaderLine): Matcher
    requires l.name != []
  {
    var v := Stripped(l.value); if v == [] then MatcherAfter(l.name) else CodingAfter(v)
  }

  /** The struct after such a line: the message is chunked if it was or if the value lists "chunked". */
  function WithCodingLine(s: Parser, l: HeaderLine): Parser
    requires l.name != []
  {
    s.(matcher := CodingMatch(l), nread := s.nread + |LineText(l)|, framing := Chunked(s.framing, ListsChunked(Stripped(l.value))))
  }

  function Chunked(f: Framing, on: bool): Framing {
    f.(flags := f.flags.(chunked := f.flags.chunked || on), usesTransferEncoding := true)
  }

  lemma CodingFlags(h: HeaderState, flags: Flags)
    requires IsCoding(h)
    ensures LineFlags(h, flags) == flags.(chunked := flags.chunked || h.CodingChunked?)
  {
  }

  lemma CodingEnds(s: Parser, t: Trace, e: Eol, y: Text)
    requires s.state == InValue(HeaderValue) && IsCoding(s.matcher.header) && EndsIn(t, Value) && StartsLine(y)
    requires s.nread + |e.Text()| < s.config.maxHeaderSize && s.framing.usesTransferEncoding
    ensures Run(s, t, e.Text() + y)
         == Run(s.(state := HeaderFieldStart, nread := s.nread + |e.Text()|, framing := Chunked(s.framing, s.matcher.header.CodingChunked?)), t, y)
  {
    hide *;
    ValueEnds(s, t, e, y);
    CodingEndLine(s, |e.Text()|);
  }

  lemma CodingEndLine(s: Parser, k: nat)
    requires IsCoding(s.matcher.header) && s.framing.usesTransferEncoding
    ensures EndLine(Read(s, k))
         == s.(state := HeaderFieldStart, nread := s.nread + k, framing := Chunked(s.framing, s.matcher.header.CodingChunked?))
  {
    CodingFlags(s.matcher.header, s.framing.flags);
    hide LineFlags, IsCoding;
  }

  /** The struct after the value of such a line and its line end, `k` bytes in all. */
  function PastCoding(s: Parser, v: Text, k: nat): Parser
    requires v != []
  {
    s.(state := HeaderFieldStart, matcher := CodingAfter(v), nread := s.nread + k, framing := Chunked(s.framing, ListsChunked(v)))
  }

  lemma CodingRest(s: Parser, t: Trace, v: Text, e: Eol, y: Text)
    requires s.state == InName(HeaderValueDiscardWs) && s.matcher.header == Matched(TransferEncoding) && s.framing.usesTransferEncoding
    requires v != [] && !IsBlank(v[0]) && IsTaken(v, s.config.lenient) && EndsIn(t, Field) && StartsLine(y)
    requires s.nread + |v| + |e.Text()| < s.config.maxHeaderSize
    ensures Run(s, t, v + (e.Text() + y)) == Run(PastCoding(s, v, |v| + |e.Text()|), t + [Data(Value, v)], y)
  {
    hide *;
    CodingSoFar(s, t, v, e.Text() + y);
    FieldThenValue(t, v);
    InCodingIsPast(s, v, |e.Text()|);
    CodingEnds(InCodingValue(s, CodingAfter(v), |v|), t + [Data(Value, v)], e, y);
  }

  lemma InCodingIsPast(s: Parser, v: Text, n: nat)
    requires v != []
    ensures var z := InCodingValue(s, CodingAfter(v), |v|);
            && z.state == InValue(HeaderValue) && z.matcher == CodingAfter(v) && z.nread == s.nread + |v| && z.config == s.config
            && z.framing == s.framing
            && z.(state := HeaderFieldStart, nread := z.nread + n, framing := Chunked(z.framing, z.matcher.header.CodingChunked?))
                 == PastCoding(s, v, |v| + n)
  {
    CodingExactly(v);
    hide Chunked, ListsChunked, CodingAfter;
  }

  lemma NoCodingRest(s: Parser, t: Trace, e: Eol, y: Text)
    requires s.state == InName(HeaderValueDiscardWs) && s.matcher.header == Matched(TransferEncoding) && s.framing.usesTransferEncoding
    requires EndsIn(t, Field) && StartsLine(y) && s.nread + |e.Text()| < s.config.maxHeaderSize
    ensures Run(s, t, e.Text() + y)
         == Run(s.(state := HeaderFieldStart, nread := s.nread + |e.Text()|, framing := Chunked(s.framing, ListsChunked([]))), t + [Data(Value, [])], y)
  {
    hide Run, EndsIn, StartsLine;
    EmptyEnds(s, t, e, y);
  }

  /** Every Transfer-Encoding line, whatever it lists, is reported; it makes the message chunked exactly when the last
      element is "chunked" and the parser begins to match there. */
  lemma CodingLine(s: Parser, t: Trace, l: HeaderLine, y: Text)
    requires s.state.HeaderFieldStart? && IsCodingLine(l, s.config.lenient) && StartsLine(y) && !EndsIn(t, Field)
    requires s.nread + |LineText(l)| < s.config.maxHeaderSize
    ensures l.name != [] && Run(s, t, LineText(l) + y) == Run(WithCodingLine(s, l), t + LineEvents(l), y)
  {
    hide *;
    CodingParts(l, s.config.lenient);
    var v := Stripped(l.value);
    var b := l.value[..|l.value| - |v|];
    LineShape(l, y);
    BlanksOf(l.value);
    CodingNameAndBlanks(s, t, l.name, b, v + (l.eol.Text() + y));
    var s1 := InCoding(s, l.name, b);
    InCodingIs(s, l.name, b);
    var t1 := t + [Data(Field, l.name)];
    FieldEnds(t, l.name);
    CodingDone(s, l, b);
    EventsOfLine(t, l);
    if v == [] {
      assert v + (l.eol.Text() + y) == l.eol.Text() + y;
      NoCodingRest(s1, t1, l.eol, y);
    } else {
      CodingRest(s1, t1, v, l.eol, y);
    }
  }

  lemma CodingParts(l: HeaderLine, lenient: bool)
    requires IsCodingLine(l, lenient)
    ensures IsToken(l.name) && l.name != [] && IsName(l.name, TransferEncoding) && IsTaken(Stripped(l.value), lenient)
    ensures Stripped(l.value) != [] ==> !IsBlank(Stripped(l.value)[0])
  {
    hide IsName, Stripped, IsBlank, IsHeaderChar;
    var v := Stripped(l.value);
    forall i | 0 <= i < |v| ensures v[i] == l.value[|l.value| - |v| + i] { }
  }

  lemma BlanksOf(v: Text)
    ensures |Stripped(v)| <= |v| && forall i :: 0 <= i < |v| - |Stripped(v)| ==> IsBlank(v[i])
  {
    hide IsBlank;
  }

  lemma FieldEnds(t: Trace, name: Text)
    ensures EndsIn(t + [Data(Field, name)], Field)
  {
  }

  lemma EventsOfLine(t: Trace, l: HeaderLine)
    ensures t + [Data(Field, l.name)] + [Data(Value, Stripped(l.value))] == t + LineEvents(l)
  {
    hide Stripped;
  }

  /** The struct after the name Transfer-Encoding, its colon and the blanks. */
  function InCoding(s: Parser, name: Text, b: Text): Parser
    requires name != []
  {
    Past(s, InName(HeaderValueDiscardWs), name + ([':'] + b)).(
      matcher := MatcherAfter(name), framing := s.framing.(usesTransferEncoding := true))
  }

  lemma InCodingIs(s: Parser, name: Text, b: Text)
    requires IsToken(name) && IsName(name, TransferEncoding)
    ensures name != []
    ensures var z := InCoding(s, name, b);
            && z.state == InName(HeaderValueDiscardWs) && z.matcher.header == Matched(TransferEncoding)
            && z.config == s.config && z.nread == s.nread + |name| + 1 + |b|
  {
    CodingMatcher(name);
    hide MatcherAfter, IsName, NameByte, NoCoding;
  }

  lemma CodingDone(s: Parser, l: HeaderLine, b: Text)
    requires l.name != [] && s.state.HeaderFieldStart? && b == l.value[..|l.value| - |Stripped(l.value)|]
    ensures var z, v := InCoding(s, l.name, b), Stripped(l.value);
            && z.nread + |v| + |l.eol.Text()| == s.nread + |LineText(l)| && z.framing.usesTransferEncoding
            && WithCodingLine(s, l)
                 == if v == [] then z.(state := HeaderFieldStart, nread := z.nread + |l.eol.Text()|, framing := Chunked(z.framing, ListsChunked(v)))
                    else PastCoding(z, v, |v| + |l.eol.Text()|)
  {
    LineShape(l, []);
    hide MatcherAfter, Stripped, LineText, ListsChunked, CodingAfter;
  }

  lemma CodingNameAndBlanks(s: Parser, t: Trace, name: Text, b: Text, y: Text)
    requires s.state.HeaderFieldStart? && IsToken(name) && name != [] && IsName(name, TransferEncoding) && !EndsIn(t, Field)
    requires forall i :: 0 <= i < |b| ==> IsBlank(b[i])
    requires s.nread + |name| + 1 + |b| <= s.config.maxHeaderSize
    ensures Run(s, t, name + ([':'] + (b + y))) == Run(InCoding(s, name, b), t + [Data(Field, name)], y)
  {
    hide *;
    CodingNameRun(s, t, name, [':'] + (b + y));
    AddEnds(t, Field, name);
    FieldEnds(t, name);
    var t1 := t + [Data(Field, name)];
    var s1 := InNameAfter(s, name).(framing := s.framing.(usesTransferEncoding := true));
    var s2 := s1.(state := InName(HeaderValueDiscardWs), nread := s.nread + |name| + 1);
    InNameIs(s, name, b);
    ColonRun(s1, t1, b + y);
    BlanksRun(s2, t1, b, y);
  }

  lemma InNameIs(s: Parser, name: Text, b: Text)
    requires name != []
    ensures var z := InNameAfter(s, name);
            && z.state == InName(HeaderField) && z.nread == s.nread + |name| && z.config == s.config
            && Read(z.(framing := s.framing.(usesTransferEncoding := true), state := InName(HeaderValueDiscardWs), nread := s.nread + |name| + 1), |b|)
                 == InCoding(s, name, b)
  {
    hide MatcherAfter;
  }
}
