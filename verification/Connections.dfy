/** Runs over Connection and Proxy-Connection lines. */
module Connections {
  import opened Bytes
  import opened Types
  import opened HeaderWords
  import opened Table
  import opened Runs
  import opened HeaderText
  import opened HeaderLines

  /** What a Connection value asks for. */
  datatype Asks = Asks(keepAlive: bool, close: bool, upgrade: bool)

  const NO_ASKS := Asks(false, false, false)

  function Joint(a: Asks, b: Asks): Asks {
    Asks(a.keepAlive || b.keepAlive, a.close || b.close, a.upgrade || b.upgrade)
  }

  /** The flags with those that are asked for. */
  function With(flags: Flags, a: Asks): Flags {
    flags.(keepAlive := flags.keepAlive || a.keepAlive, close := flags.close || a.close,
           connectionUpgrade := flags.connectionUpgrade || a.upgrade)
  }

  function OptionAsks(o: ConnectionOption): Asks {
    match o
    case KeepAliveOption => Asks(true, false, false)
    case CloseOption => Asks(false, true, false)
    case UpgradeOption => Asks(false, false, true)
  }

  /** What a matcher state has found. */
  function Found(h: HeaderState): Asks {
    if h.OptionMatched? then OptionAsks(h.option) else NO_ASKS
  }

  /** The states of the matcher in a Connection value. */
  predicate IsOption(h: HeaderState) {
    h.OptionStart? || h.OptionMatching? || h.OptionToken? || h.OptionMatched? || h.General?
  }

  /** The matcher, and what was asked for before the last comma. */
  datatype Reading = Reading(m: Matcher, asks: Asks)

  /** The matcher after the first byte of a value. */
  function FirstOption(ch: char): Matcher {
    var c := Lower(ch);
    Matcher(if c == 'k' then OptionMatching(KeepAliveOption)
            else if c == 'c' then OptionMatching(CloseOption)
            else if c == 'u' then OptionMatching(UpgradeOption)
            else OptionToken, 0)
  }

  function ReadByte(r: Reading, ch: char): Reading {
    Reading(TokenByte(r.m, ch), if ch == ',' then Joint(r.asks, Found(r.m.header)) else r.asks)
  }

  function Readings(r: Reading, v: Text): Reading
    decreases |v|
  {
    if v == [] then r else Readings(ReadByte(r, v[0]), v[1..])
  }

  lemma {:induction false} ReadingsConcat(r: Reading, a: Text, b: Text)
    ensures Readings(r, a + b) == Readings(Readings(r, a), b)
    decreases |a|
  {
    hide ReadByte;
    if a == [] {
      assert a + b == b;
    } else {
      assert (a + b)[0] == a[0] && (a + b)[1..] == a[1..] + b;
      ReadingsConcat(ReadByte(r, a[0]), a[1..], b);
    }
  }

  /** The reading after a value. */
  function ReadingOf(v: Text): Reading
    requires v != []
  {
    Readings(Reading(FirstOption(v[0]), NO_ASKS), v[1..])
  }

  /** What a value asks for. */
  function AsksOf(v: Text): Asks {
    if v == [] then NO_ASKS else Joint(ReadingOf(v).asks, Found(ReadingOf(v).m.header))
  }

  lemma ReadingSnoc(v: Text, ch: char)
    requires v != []
    ensures ReadingOf(v + [ch]) == ReadByte(ReadingOf(v), ch)
  {
    hide ReadByte;
    assert (v + [ch])[0] == v[0] && (v + [ch])[1..] == v[1..] + [ch];
    var r := Reading(FirstOption(v[0]), NO_ASKS);
    ReadingsConcat(r, v[1..], [ch]);
    assert [ch][1..] == [];
  }

  lemma ReadingOne(v: Text)
    requires |v| == 1
    ensures ReadingOf(v) == Reading(FirstOption(v[0]), NO_ASKS) && IsOption(FirstOption(v[0]).header)
  {
    assert v[1..] == [];
  }

  lemma WithFound(h: HeaderState, flags: Flags, a: Asks)
    requires IsOption(h)
    ensures LineFlags(h, With(flags, a)) == With(flags, Joint(a, Found(h)))
  {
    hide LineFlags, With, Joint;
    if h.OptionMatched? {
      MatchedFlags(h.option, With(flags, a));
      WithJoint(flags, a, OptionAsks(h.option));
    } else {
      SameFlags(h, With(flags, a));
      assert Joint(a, NO_ASKS) == a by { NothingAsked(a); }
    }
  }

  lemma NothingAsked(a: Asks)
    ensures Joint(a, NO_ASKS) == a
  {
  }

  lemma WithJoint(flags: Flags, a: Asks, b: Asks)
    ensures With(With(flags, a), b) == With(flags, Joint(a, b))
  {
  }

  lemma MatchedFlags(o: ConnectionOption, flags: Flags)
    ensures LineFlags(OptionMatched(o), flags) == With(flags, OptionAsks(o))
  {
  }

  lemma OptionKeeps(r: Reading, f: Framing, flags: Flags, ch: char)
    requires IsOption(r.m.header) && f.flags == With(flags, r.asks)
    ensures var n := ReadByte(r, ch);
            ValueByte(r.m, f, ch) == Head(n.m, f.(flags := With(flags, n.asks))) && IsOption(n.m.header)
  {
    hide *;
    OptionStays(r.m, ch);
    ReadByteIs(r, ch);
    SameFraming(f);
    if r.m.header.General? {
      GeneralToken(r.m, ch);
      GeneralByte(r.m, f, ch);
    } else {
      OptionByte(r.m, f, ch);
      WithFound(r.m.header, flags, r.asks);
    }
  }

  lemma SameFraming(f: Framing)
    ensures f.(flags := f.flags) == f
  {
  }

  lemma ReadByteIs(r: Reading, ch: char)
    ensures ReadByte(r, ch) == Reading(TokenByte(r.m, ch), if ch == ',' then Joint(r.asks, Found(r.m.header)) else r.asks)
    ensures !r.m.header.OptionMatched? ==> Joint(r.asks, Found(r.m.header)) == r.asks
  {
    NothingAsked(r.asks);
    hide TokenByte, Joint;
  }

  lemma GeneralByte(m: Matcher, f: Framing, ch: char)
    requires m.header.General?
    ensures ValueByte(m, f, ch) == Head(m, f)
  {
  }

  lemma OptionByte(m: Matcher, f: Framing, ch: char)
    requires IsOption(m.header) && !m.header.General?
    ensures ValueByte(m, f, ch)
         == Head(TokenByte(m, ch), if ch == ',' && m.header.OptionMatched? then f.(flags := LineFlags(m.header, f.flags)) else f)
  {
    hide TokenByte, LineFlags;
  }

  lemma GeneralToken(m: Matcher, ch: char)
    requires m.header.General?
    ensures TokenByte(m, ch) == m
  {
  }

  lemma OptionStays(m: Matcher, ch: char)
    requires IsOption(m.header)
    ensures IsOption(TokenByte(m, ch).header)
  {
    hide Token, Lower, OptionText;
  }

  lemma FirstOptionByte(s: Parser, t: Trace, ch: char)
    requires s.state == InName(HeaderValueDiscardWs) && s.matcher.header == Matched(Connection)
    requires !IsBlank(ch) && ch != CR && ch != LF
    ensures Byte(s, t, ch) == Point(s.(state := InValue(HeaderValue), matcher := FirstOption(ch)), Add(t, Data(Value, [ch])), Advance)
  {
    hide Add, Lower;
  }

  /** The struct in a Connection value after `k` bytes. */
  function InOptions(s: Parser, r: Reading, k: nat): Parser {
    s.(state := InValue(HeaderValue), matcher := r.m, nread := s.nread + k,
       framing := s.framing.(flags := With(s.framing.flags, r.asks)))
  }

  lemma NextOptionByte(s: Parser, t: Trace, r: Reading, k: nat, ch: char)
    requires IsOption(r.m.header) && IsTaken([ch], s.config.lenient)
    ensures Byte(InOptions(s, r, k), t, ch) == Point(InOptions(s, ReadByte(r, ch), k), Add(t, Data(Value, [ch])), Advance)
  {
    assert [ch][0] == ch;
    var z := InOptions(s, r, k);
    OptionKeeps(r, z.framing, s.framing.flags, ch);
    hide Add, ValueByte, ReadByte, With, IsHeaderChar;
  }

  lemma FirstOptionRun(s: Parser, t: Trace, ch: char, y: Text)
    requires s.state == InName(HeaderValueDiscardWs) && s.matcher.header == Matched(Connection) && s.nread < s.config.maxHeaderSize
    requires !IsBlank(ch) && ch != CR && ch != LF
    ensures Run(s, t, [ch] + y) == Run(InOptions(s, Reading(FirstOption(ch), NO_ASKS), 1), Add(t, Data(Value, [ch])), y)
  {
    hide Run, Byte, Visit, Add, FirstOption;
    FirstOptionByte(Counted(s), t, ch);
    RunByte(s, t, ch, y);
  }

  lemma NextOptionRun(s: Parser, t: Trace, r: Reading, k: nat, ch: char, y: Text)
    requires IsOption(r.m.header) && IsTaken([ch], s.config.lenient) && s.nread + k < s.config.maxHeaderSize
    ensures Run(InOptions(s, r, k), t, [ch] + y) == Run(InOptions(s, ReadByte(r, ch), k + 1), Add(t, Data(Value, [ch])), y)
    ensures IsOption(ReadByte(r, ch).m.header)
  {
    OptionStays(r.m, ch);
    hide Run, Byte, Visit, Add, TokenByte, IsTaken, IsOption, InOptions;
    CountedOptions(s, r, k);
    NextOptionByte(s, t, r, k + 1, ch);
    RunByte(InOptions(s, r, k), t, ch, y);
  }

  lemma CountedOptions(s: Parser, r: Reading, k: nat)
    ensures var z := InOptions(s, r, k);
            Counted(z) == InOptions(s, r, k + 1) && (Overflows(z) <==> s.nread + k + 1 > s.config.maxHeaderSize)
  {
    hide With;
  }

  lemma {:induction false} OptionsSoFar(s: Parser, t: Trace, v: Text, y: Text)
    requires s.state == InName(HeaderValueDiscardWs) && s.matcher.header == Matched(Connection)
    requires v != [] && !IsBlank(v[0]) && IsTaken(v, s.config.lenient) && s.nread + |v| <= s.config.maxHeaderSize
    ensures Run(s, t, v + y) == Run(InOptions(s, ReadingOf(v), |v|), Add(t, Data(Value, v)), y)
    ensures IsOption(ReadingOf(v).m.header)
    decreases |v|
  {
    hide *;
    var init, ch := v[..|v| - 1], v[|v| - 1];
    LastApart(v, y);
    TakenApart(v, s.config.lenient);
    if |v| == 1 {
      FirstOptionRun(s, t, ch, y);
      ReadingOne(v);
    } else {
      OptionsSoFar(s, t, init, [ch] + y);
      NextOptionRun(s, Add(t, Data(Value, init)), ReadingOf(init), |init|, ch, y);
      ReadingSnoc(init, ch);
      AddPieces(t, Value, init, [ch]);
    }
  }

  predicate IsConnectionLine(l: HeaderLine) {
    IsLine(l) && IsConnection(l.name)
  }

  /** The matcher after such a line. */
  function ConnectionMatch(l: HeaderLine): Matcher
    requires l.name != []
  {
    var v := Stripped(l.value); if v == [] then MatcherAfter(l.name) else ReadingOf(v).m
  }

  /** The struct after such a line: it has the flags that the value asks for. */
  function WithConnectionLine(s: Parser, l: HeaderLine): Parser
    requires l.name != []
  {
    s.(matcher := ConnectionMatch(l), nread := s.nread + |LineText(l)|,
       framing := s.framing.(flags := With(s.framing.flags, AsksOf(Stripped(l.value)))))
  }

  lemma OptionsEnd(s: Parser, t: Trace, r: Reading, k: nat, e: Eol, y: Text)
    requires IsOption(r.m.header) && EndsIn(t, Value) && StartsLine(y) && s.nread + k + |e.Text()| < s.config.maxHeaderSize
    ensures Run(InOptions(s, r, k), t, e.Text() + y)
         == Run(s.(state := HeaderFieldStart, matcher := r.m, nread := s.nread + k + |e.Text()|,
                   framing := s.framing.(flags := With(s.framing.flags, Joint(r.asks, Found(r.m.header))))), t, y)
  {
    hide *;
    InOptionsIs(s, r, k);
    ValueEnds(InOptions(s, r, k), t, e, y);
    OptionsEndLine(s, r, k, |e.Text()|);
  }

  lemma InOptionsIs(s: Parser, r: Reading, k: nat)
    ensures var z := InOptions(s, r, k); z.state == InValue(HeaderValue) && z.nread == s.nread + k && z.config == s.config
  {
    hide With;
  }

  lemma OptionsEndLine(s: Parser, r: Reading, k: nat, n: nat)
    requires IsOption(r.m.header)
    ensures EndLine(Read(InOptions(s, r, k), n))
         == s.(state := HeaderFieldStart, matcher := r.m, nread := s.nread + k + n,
               framing := s.framing.(flags := With(s.framing.flags, Joint(r.asks, Found(r.m.header)))))
  {
    WithFound(r.m.header, s.framing.flags, r.asks);
    hide LineFlags, IsOption, With, Joint, Found;
  }

  lemma AsksAre(v: Text)
    requires v != []
    ensures AsksOf(v) == Joint(ReadingOf(v).asks, Found(ReadingOf(v).m.header))
  {
    hide Joint, ReadingOf, Found;
  }

  lemma OptionsRest(s: Parser, t: Trace, v: Text, e: Eol, y: Text)
    requires s.state == InName(HeaderValueDiscardWs) && s.matcher.header == Matched(Connection)
    requires v != [] && !IsBlank(v[0]) && IsTaken(v, s.config.lenient) && EndsIn(t, Field) && StartsLine(y)
    requires s.nread + |v| + |e.Text()| < s.config.maxHeaderSize
    ensures Run(s, t, v + (e.Text() + y))
         == Run(s.(state := HeaderFieldStart, matcher := ReadingOf(v).m, nread := s.nread + |v| + |e.Text()|,
                   framing := s.framing.(flags := With(s.framing.flags, AsksOf(v)))), t + [Data(Value, v)], y)
  {
    hide *;
    OptionsSoFar(s, t, v, e.Text() + y);
    FieldThenValue(t, v);
    OptionsEnd(s, t + [Data(Value, v)], ReadingOf(v), |v|, e, y);
    AsksAre(v);
  }

  lemma NoOptionsRest(s: Parser, t: Trace, e: Eol, y: Text)
    requires s.state == InName(HeaderValueDiscardWs) && s.matcher.header == Matched(Connection)
    requires EndsIn(t, Field) && StartsLine(y) && s.nread + |e.Text()| < s.config.maxHeaderSize
    ensures Run(s, t, e.Text() + y)
         == Run(s.(state := HeaderFieldStart, nread := s.nread + |e.Text()|,
                   framing := s.framing.(flags := With(s.framing.flags, AsksOf([])))), t + [Data(Value, [])], y)
  {
    hide Run, EndsIn, StartsLine;
    EmptyEnds(s, t, e, y);
  }

  lemma ConnectionMatcher(l: HeaderLine)
    requires IsConnectionLine(l)
    ensures l.name != [] && IsToken(l.name) && NoCoding(l.name) && MatcherAfter(l.name).header == Matched(Connection)
    ensures IsValueText(l.value)
  {
    AfterFits(l.name);
    NameRecognised(MatcherAfter(l.name), l.name);
    hide MatcherAfter, NameFits, IsValueText;
    AreApart();
    hide NameText;
  }

  lemma TextIsTaken(v: Text, lenient: bool)
    requires IsValueText(v)
    ensures IsTaken(Stripped(v), lenient)
  {
    StrippedText(v);
    hide Stripped;
  }

  /** Every Connection line is reported, and leaves nothing but the flags it asks for. */
  lemma ConnectionLine(s: Parser, t: Trace, l: HeaderLine, y: Text)
    requires s.state.HeaderFieldStart? && IsConnectionLine(l) && StartsLine(y) && !EndsIn(t, Field)
    requires s.nread + |LineText(l)| < s.config.maxHeaderSize
    ensures l.name != [] && Run(s, t, LineText(l) + y) == Run(WithConnectionLine(s, l), t + LineEvents(l), y)
  {
    hide *;
    ConnectionMatcher(l);
    TextIsTaken(l.value, s.config.lenient);
    BlanksOf(l.value);
    var v := Stripped(l.value);
    var b := l.value[..|l.value| - |v|];
    LineShape(l, y);
    NameAndBlanks(s, t, l.name, b, v + (l.eol.Text() + y));
    var s1 := s.(state := InName(HeaderValueDiscardWs), matcher := MatcherAfter(l.name), nread := s.nread + |l.name| + 1 + |b|);
    var t1 := t + [Data(Field, l.name)];
    FieldEnds(t, l.name);
    EventsOfLine(t, l);
    ConnectionDone(s, s1, l, b);
    if v == [] {
      assert v + (l.eol.Text() + y) == l.eol.Text() + y;
      NoOptionsRest(s1, t1, l.eol, y);
    } else {
      FirstNotBlank(l.value);
      OptionsRest(s1, t1, v, l.eol, y);
    }
  }

  lemma FirstNotBlank(v: Text)
    ensures Stripped(v) != [] ==> !IsBlank(Stripped(v)[0])
  {
    hide IsBlank;
  }

  lemma ConnectionDone(s: Parser, z: Parser, l: HeaderLine, b: Text)
    requires l.name != [] && s.state.HeaderFieldStart? && b == l.value[..|l.value| - |Stripped(l.value)|]
    requires z == s.(state := InName(HeaderValueDiscardWs), matcher := MatcherAfter(l.name), nread := s.nread + |l.name| + 1 + |b|)
    ensures var v := Stripped(l.value);
            WithConnectionLine(s, l)
              == z.(state := HeaderFieldStart, matcher := if v == [] then z.matcher else ReadingOf(v).m,
                    nread := z.nread + |v| + |l.eol.Text()|, framing := z.framing.(flags := With(z.framing.flags, AsksOf(v))))
  {
    LineShape(l, []);
    hide MatcherAfter, Stripped, LineText, AsksOf, ReadingOf;
  }
}
