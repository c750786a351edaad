/** Which options a Connection value asks for, said about the comma-separated elements of the value. The comma behind a
    beginning of an option is not seen, and an element that begins with a byte that is not expected is the last one read. */
module Options {
  import opened Bytes
  import opened Types
  import opened HeaderWords
  import opened HeaderText
  import opened Codings
  import opened Connections

  /** The option that an element may be, by its first letter. */
  function WordFor(ch: char): Option<ConnectionOption> {
    if Fold(ch) == 'k' then Some(KeepAliveOption)
    else if Fold(ch) == 'c' then Some(CloseOption)
    else if Fold(ch) == 'u' then Some(UpgradeOption)
    else None
  }

  /** An element that ends before the option does. */
  predicate Begins(e: Text)
    requires e != []
  {
    WordFor(e[0]).Some? && FoldAll(e) < OptionText(WordFor(e[0]).value)
  }

  /** An element that is the option, with any spaces behind it. */
  predicate IsWord(e: Text)
    requires e != []
  {
    WordFor(e[0]).Some? && FoldAll(Trimmed(e)) == OptionText(WordFor(e[0]).value)
  }

  function ElementAsks(e: Text): Asks
    requires e != []
  {
    if IsWord(e) then OptionAsks(WordFor(e[0]).value) else NO_ASKS
  }

  /** What is asked for by a text that begins with a byte of an element. */
  function AsksIn(v: Text): Asks
    requires v != []
    decreases |v|, 0
  {
    var c := CommaFrom(v, 1);
    if c == |v| then ElementAsks(v)
    else if !Begins(v[..c]) then Joint(ElementAsks(v[..c]), AsksFrom(v[c + 1..]))
    else
      var d := CommaFrom(v, c + 1);
      if d == |v| then NO_ASKS else AsksFrom(v[d + 1..])
  }

  /** The same for a text that follows a comma. */
  function AsksFrom(v: Text): Asks
    decreases |v|, 1
  {
    var u := Unspaced(v);
    if u == [] || !Opens(u[0]) then NO_ASKS else AsksIn(u)
  }

  // The matcher does that.

  /** Where the matcher stands after an element. */
  predicate OptionFits(m: Matcher, e: Text)
    requires e != []
  {
    if Begins(e) then m.header == OptionMatching(WordFor(e[0]).value) && m.index == |e| - 1
    else if IsWord(e) then m.header == OptionMatched(WordFor(e[0]).value)
    else m.header.OptionToken?
  }

  lemma OptionLetters(o: ConnectionOption)
    ensures WordLike(OptionText(o)) && |OptionText(o)| > 1
    ensures WordFor(OptionText(o)[0]) == Some(o)
  {
    ListWords();
    hide WordLike;
  }

  /** A letter or a hyphen is matched without regard to case. */
  lemma LetterMatches(ch: char, w: char)
    requires ch != CR && ('a' <= w <= 'z' || w == '-')
    ensures Lower(ch) == w <==> Fold(ch) == w
  {
  }

  lemma FirstFitsOption(ch: char)
    ensures OptionFits(FirstOption(ch), [ch])
  {
    LetterFolds(ch, 'k');
    LetterFolds(ch, 'c');
    LetterFolds(ch, 'u');
    hide Lower, Fold, OptionText;
    TrimmedShorter([ch]);
    if WordFor(ch).Some? {
      var w := OptionText(WordFor(ch).value);
      OptionLetters(WordFor(ch).value);
      assert FoldAll([ch]) == [Fold(ch)];
      FirstLetter(ch);
      assert FoldAll([ch]) < w;
    }
  }

  lemma FirstLetter(ch: char)
    requires WordFor(ch).Some?
    ensures var w := OptionText(WordFor(ch).value); w != [] && w[0] == Fold(ch)
  {
  }

  /** One more byte of an element that may be the word `w`. */
  lemma WordSnoc(e: Text, ch: char, w: string)
    requires e != [] && WordLike(w)
    ensures FoldAll(e + [ch]) <= w <==> FoldAll(e) <= w && |e| < |w| && Fold(ch) == w[|e|]
    ensures FoldAll(Trimmed(e + [ch])) == w <==>
              if ch == ' ' then FoldAll(Trimmed(e)) == w else FoldAll(e) <= w && |e| + 1 == |w| && Fold(ch) == w[|e|]
    ensures FoldAll(e) <= w ==> Trimmed(e) == e
  {
    hide Fold;
    FoldSnoc(e, ch);
    PrefixSnoc(FoldAll(e), Fold(ch), w);
    TrimmedSnoc(e, ch);
    if FoldAll(e) <= w { NothingToTrim(e, w); }
  }

  lemma NothingToTrim(e: Text, w: string)
    requires e != [] && WordLike(w) && FoldAll(e) <= w
    ensures Trimmed(e) == e
  {
    assert FoldAll(e)[|e| - 1] == w[|e| - 1] == Fold(e[|e| - 1]);
  }

  lemma OptionStep(m: Matcher, e: Text, ch: char)
    requires e != [] && OptionFits(m, e) && ch != ',' && ch != CR
    ensures OptionFits(TokenByte(m, ch), e + [ch])
  {
    var f := e + [ch];
    assert f[0] == e[0];
    if WordFor(e[0]).Some? {
      StepWords(e, ch);
      StepMatches(m, e, ch, WordFor(e[0]).value);
    } else {
      hide Lower, Fold, OptionText, Trimmed, FoldAll, WordFor, Token;
    }
  }

  lemma StepMatches(m: Matcher, e: Text, ch: char, o: ConnectionOption)
    requires e != [] && OptionFits(m, e) && ch != ',' && WordFor(e[0]) == Some(o) == WordFor((e + [ch])[0])
    requires !(Begins(e) && IsWord(e)) && (Begins(e) ==> |e| < |OptionText(o)|)
    requires var goesOn := Begins(e) && Lower(ch) == At(OptionText(o), |e|);
             && (Begins(e + [ch]) <==> goesOn && |e| + 1 < |OptionText(o)|)
             && (IsWord(e + [ch]) <==> (ch == ' ' && IsWord(e)) || (goesOn && |e| + 1 == |OptionText(o)|))
    ensures OptionFits(TokenByte(m, ch), e + [ch])
  {
    hide Lower, OptionText, WordFor, Token, Begins, IsWord;
    if Begins(e) {
    } else if IsWord(e) {
    } else {
    }
  }

  /** How one more byte changes what an element is. */
  lemma StepWords(e: Text, ch: char)
    requires e != [] && WordFor(e[0]).Some? && ch != CR
    ensures var f, o := e + [ch], WordFor(e[0]).value;
            var goesOn := Begins(e) && Lower(ch) == At(OptionText(o), |e|);
            && WordFor(f[0]) == Some(o) && !(Begins(e) && IsWord(e)) && (Begins(e) ==> |e| < |OptionText(o)|)
            && (Begins(f) <==> goesOn && |e| + 1 < |OptionText(o)|)
            && (IsWord(f) <==> (ch == ' ' && IsWord(e)) || (goesOn && |e| + 1 == |OptionText(o)|))
  {
    var o, f := WordFor(e[0]).value, e + [ch];
    assert f[0] == e[0];
    OptionLetters(o);
    var w := OptionText(o);
    WordSnoc(e, ch, w);
    if |e| < |w| { LetterMatches(ch, w[|e|]); }
    hide Lower, Fold, OptionText, Trimmed, FoldAll, WordFor;
  }

  predicate NoReturn(x: Text) {
    forall i :: 0 <= i < |x| ==> x[i] != CR
  }

  lemma {:induction false} OptionElement(e: Text)
    requires e != [] && NoComma(e[1..]) && NoReturn(e)
    ensures OptionFits(Tokens(FirstOption(e[0]), e[1..]), e)
    decreases |e|
  {
    hide *;
    var init, ch := e[..|e| - 1], e[|e| - 1];
    ElementApart(e);
    if |e| == 1 {
      FirstFitsOption(ch);
      NoTokens(FirstOption(ch));
    } else {
      OptionElement(init);
      var m := Tokens(FirstOption(e[0]), init[1..]);
      TokensConcat(FirstOption(e[0]), init[1..], [ch]);
      TokensOne(m, ch, []);
      OptionStep(m, init, ch);
    }
  }

  lemma ElementApart(e: Text)
    requires e != [] && NoComma(e[1..]) && NoReturn(e)
    ensures var init, ch := e[..|e| - 1], e[|e| - 1];
            && NoReturn(init) && ch != CR && e == init + [ch] && (|e| == 1 ==> e == [ch] && e[1..] == [])
            && (|e| > 1 ==> init[0] == e[0] && NoComma(init[1..]) && ch != ',' && e[1..] == init[1..] + [ch])
  {
    if |e| > 1 { assert e[1..][|e| - 2] == e[|e| - 1] && e[..|e| - 1][1..] == e[1..][..|e| - 2]; }
  }

  /** The comma behind an element. */
  lemma OptionComma(m: Matcher, e: Text)
    requires e != [] && OptionFits(m, e)
    ensures Found(m.header) == ElementAsks(e) || Begins(e)
    ensures if Begins(e) then TokenByte(m, ',').header.OptionToken? && Found(m.header) == NO_ASKS
            else TokenByte(m, ',') == Matcher(OptionStart, 0)
  {
    if WordFor(e[0]).Some? { OptionLetters(WordFor(e[0]).value); }
    hide OptionText, Trimmed, Token, FoldAll, WordFor;
  }

  lemma OptionLast(m: Matcher, e: Text)
    requires e != [] && OptionFits(m, e)
    ensures Found(m.header) == ElementAsks(e)
  {
    if Begins(e) {
      OptionLetters(WordFor(e[0]).value);
      NothingToTrim(e, OptionText(WordFor(e[0]).value));
    }
    hide OptionText, Trimmed, FoldAll, WordFor;
  }

  lemma {:induction false} ReadingsPlain(r: Reading, x: Text)
    requires NoComma(x)
    ensures Readings(r, x) == Reading(Tokens(r.m, x), r.asks)
    decreases |x|
  {
    hide TokenByte;
    if x != [] { ReadingsPlain(ReadByte(r, x[0]), x[1..]); }
  }

  lemma ReadingsOne(r: Reading, ch: char, v: Text)
    ensures Readings(r, [ch] + v) == Readings(ReadByte(r, ch), v)
  {
    hide ReadByte;
    assert ([ch] + v)[0] == ch && ([ch] + v)[1..] == v;
  }

  /** What a reading comes to. */
  function Total(r: Reading): Asks {
    Joint(r.asks, Found(r.m.header))
  }

  lemma AsksInIs(v: Text)
    requires v != []
    ensures var c := CommaFrom(v, 1);
            if c == |v| then AsksIn(v) == ElementAsks(v)
            else if !Begins(v[..c]) then AsksIn(v) == Joint(ElementAsks(v[..c]), AsksFrom(v[c + 1..]))
            else var d := CommaFrom(v, c + 1); AsksIn(v) == if d == |v| then NO_ASKS else AsksFrom(v[d + 1..])
  {
    hide Begins, ElementAsks, AsksFrom, Joint;
  }

  lemma JointTwice(a: Asks, b: Asks, c: Asks)
    ensures Joint(Joint(a, b), c) == Joint(a, Joint(b, c)) && Joint(a, NO_ASKS) == a
  {
  }

  lemma NoReturnParts(v: Text, i: nat)
    requires NoReturn(v) && i <= |v|
    ensures NoReturn(v[..i]) && NoReturn(v[i..])
  {
  }

  lemma {:induction false} InAsks(v: Text, a: Asks)
    requires v != [] && NoReturn(v)
    ensures Total(Readings(Reading(FirstOption(v[0]), a), v[1..])) == Joint(a, AsksIn(v))
    decreases |v|, 0
  {
    hide *;
    AsksInIs(v);
    var c := CommaFrom(v, 1);
    var m := ElementReads(v, a);
    if c == |v| {
      assert v[..c] == v;
      OptionLast(m, v);
      TotalIs(Reading(m, a));
    } else if Begins(v[..c]) {
      HiddenOption(v, c, m, a);
    } else {
      SeenOption(v, c, m, a);
    }
  }

  /** The reading up to the first comma. */
  lemma ElementReads(v: Text, a: Asks) returns (m: Matcher)
    requires v != [] && NoReturn(v)
    ensures var c := CommaFrom(v, 1);
            && OptionFits(m, v[..c])
            && Readings(Reading(FirstOption(v[0]), a), v[1..])
                 == if c == |v| then Reading(m, a) else Readings(Reading(m, a), [','] + v[c + 1..])
  {
    hide *;
    var c := CommaFrom(v, 1);
    var e, r := v[..c], Reading(FirstOption(v[0]), a);
    UpTo(v, 1);
    FirstApart(v, c);
    NoReturnParts(v, c);
    OptionElement(e);
    assert e[0] == v[0];
    ReadingsPlain(r, e[1..]);
    m := Tokens(FirstOption(v[0]), e[1..]);
    if c == |v| {
      assert e == v;
    } else {
      ReadingsConcat(r, e[1..], [','] + v[c + 1..]);
    }
  }

  /** A comma that is seen. */
  lemma {:induction false} SeenOption(v: Text, c: nat, m: Matcher, a: Asks)
    requires 0 < c < |v| && NoReturn(v) && OptionFits(m, v[..c]) && !Begins(v[..c])
    ensures Total(Readings(Reading(m, a), [','] + v[c + 1..])) == Joint(a, Joint(ElementAsks(v[..c]), AsksFrom(v[c + 1..])))
    decreases |v|, 0, 0
  {
    hide *;
    var e, y := v[..c], v[c + 1..];
    OptionComma(m, e);
    ReadingsOne(Reading(m, a), ',', y);
    CommaReads(m, a);
    NoReturnParts(v, c + 1);
    FromAsks(y, Joint(a, ElementAsks(e)));
    JointTwice(a, ElementAsks(e), AsksFrom(y));
  }

  /** A comma that is not seen. */
  lemma {:induction false} HiddenOption(v: Text, c: nat, m: Matcher, a: Asks)
    requires 0 < c < |v| && NoReturn(v) && OptionFits(m, v[..c]) && Begins(v[..c])
    ensures var d := CommaFrom(v, c + 1);
            Total(Readings(Reading(m, a), [','] + v[c + 1..])) == Joint(a, if d == |v| then NO_ASKS else AsksFrom(v[d + 1..]))
    decreases |v|, 0, 1
  {
    hide *;
    OptionComma(m, v[..c]);
    ReadingsOne(Reading(m, a), ',', v[c + 1..]);
    CommaReads(m, a);
    JointTwice(a, NO_ASKS, NO_ASKS);
    HiddenAsks(v, c + 1, TokenByte(m, ','), a);
  }

  lemma CommaReads(m: Matcher, a: Asks)
    ensures ReadByte(Reading(m, a), ',') == Reading(TokenByte(m, ','), Joint(a, Found(m.header)))
  {
    hide TokenByte, Joint, Found;
  }

  lemma TotalIs(r: Reading)
    ensures Total(r) == Joint(r.asks, Found(r.m.header))
  {
    hide Joint, Found;
  }

  /** After a comma that was not seen the parser waits for the next one. */
  lemma {:induction false} HiddenAsks(v: Text, i: nat, m: Matcher, a: Asks)
    requires 0 < i <= |v| && m.header.OptionToken? && NoReturn(v)
    ensures var d := CommaFrom(v, i);
            Total(Readings(Reading(m, a), v[i..])) == Joint(a, if d == |v| then NO_ASKS else AsksFrom(v[d + 1..]))
    decreases |v|, 0, 0
  {
    hide *;
    var d := CommaFrom(v, i);
    var x := v[i..d];
    UpTo(v, i);
    OptionTokenStays(m, x);
    ReadingsPlain(Reading(m, a), x);
    TokenFinds(m);
    JointTwice(a, NO_ASKS, NO_ASKS);
    if d == |v| {
      assert v[i..] == x;
      TotalIs(Reading(m, a));
    } else {
      var y := v[d + 1..];
      ReadingsConcat(Reading(m, a), x, [','] + y);
      ReadingsOne(Reading(m, a), ',', y);
      CommaReads(m, a);
      NoReturnParts(v, d + 1);
      FromAsks(y, a);
    }
  }

  lemma {:induction false} OptionTokenStays(m: Matcher, x: Text)
    requires m.header.OptionToken? && NoComma(x)
    ensures Tokens(m, x) == m
    decreases |x|
  {
    if x != [] { OptionTokenStays(m, x[1..]); }
  }

  lemma TokenFinds(m: Matcher)
    requires m.header.OptionToken?
    ensures Found(m.header) == NO_ASKS && TokenByte(m, ',') == Matcher(OptionStart, 0)
  {
  }

  /** The byte after a comma. */
  lemma OptionStartByte(ch: char)
    ensures var m := TokenByte(Matcher(OptionStart, 0), ch);
            if IsSpace(ch) then m == Matcher(OptionStart, 0) else if Opens(ch) then m == FirstOption(ch) else m.header.General?
    ensures IsSpace(ch) || !Opens(ch) ==> ch == ',' || ReadByte(Reading(Matcher(OptionStart, 0), NO_ASKS), ch).asks == NO_ASKS
  {
  }

  lemma StartReads(ch: char, a: Asks)
    ensures ReadByte(Reading(Matcher(OptionStart, 0), a), ch) == Reading(TokenByte(Matcher(OptionStart, 0), ch), a)
  {
    hide TokenByte;
    JointTwice(a, NO_ASKS, NO_ASKS);
  }

  lemma {:induction false} OptionSpaces(v: Text, a: Asks)
    ensures var r := Reading(Matcher(OptionStart, 0), a); Readings(r, v) == Readings(r, Unspaced(v))
    decreases |v|
  {
    hide TokenByte, IsSpace, ReadByte, Opens;
    if v != [] && IsSpace(v[0]) {
      OptionStartByte(v[0]);
      StartReads(v[0], a);
      OptionSpaces(v[1..], a);
    }
  }

  lemma {:induction false} GeneralReads(r: Reading, x: Text)
    requires r.m.header.General?
    ensures Total(Readings(r, x)) == r.asks
    decreases |x|
  {
    JointTwice(r.asks, NO_ASKS, NO_ASKS);
    if x != [] { GeneralReads(ReadByte(r, x[0]), x[1..]); }
  }

  lemma AsksFromIs(v: Text)
    ensures var u := Unspaced(v); AsksFrom(v) == if u == [] || !Opens(u[0]) then NO_ASKS else AsksIn(u)
    ensures Unspaced(v) != [] ==> !IsSpace(Unspaced(v)[0])
  {
    hide Opens, AsksIn;
  }

  lemma {:induction false} UnspacedReturns(v: Text)
    requires NoReturn(v)
    ensures NoReturn(Unspaced(v))
    decreases |v|
  {
    if v != [] && IsSpace(v[0]) { UnspacedReturns(v[1..]); }
  }

  lemma {:induction false} FromAsks(v: Text, a: Asks)
    requires NoReturn(v)
    ensures Total(Readings(Reading(Matcher(OptionStart, 0), a), v)) == Joint(a, AsksFrom(v))
    decreases |v|, 1
  {
    hide *;
    OptionSpaces(v, a);
    AsksFromIs(v);
    UnspacedReturns(v);
    JointTwice(a, NO_ASKS, NO_ASKS);
    var u, r := Unspaced(v), Reading(Matcher(OptionStart, 0), a);
    if u == [] {
      NothingReads(r);
    } else {
      HeadApart(u);
      ReadingsOne(r, u[0], u[1..]);
      OptionStartByte(u[0]);
      StartReads(u[0], a);
      if Opens(u[0]) {
        InAsks(u, a);
      } else {
        GeneralReads(ReadByte(r, u[0]), u[1..]);
      }
    }
  }

  lemma HeadApart(u: Text)
    requires u != []
    ensures u == [u[0]] + u[1..]
  {
  }

  lemma NothingReads(r: Reading)
    requires r.m.header.OptionStart?
    ensures Total(Readings(r, [])) == r.asks
  {
    JointTwice(r.asks, NO_ASKS, NO_ASKS);
  }

  /** A Connection value asks exactly for the options among the elements that the parser reads. */
  lemma OptionsExactly(v: Text)
    requires v != [] && NoReturn(v)
    ensures AsksOf(v) == AsksIn(v)
  {
    hide *;
    InAsks(v, NO_ASKS);
    AsksAre(v);
    ReadingIs(v);
    TotalIs(ReadingOf(v));
    NothingJoint(AsksIn(v));
  }

  lemma ReadingIs(v: Text)
    requires v != []
    ensures ReadingOf(v) == Readings(Reading(FirstOption(v[0]), NO_ASKS), v[1..])
  {
    hide Readings;
  }

  lemma NothingJoint(a: Asks)
    ensures Joint(NO_ASKS, a) == a
  {
  }
}
