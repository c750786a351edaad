/** Which Transfer-Encoding values make a message chunked, said about the comma-separated elements of the value. The
    parser does not see every comma: the one behind a beginning of "chunked" (or behind "chunked" itself) is taken for
    a byte of the element, and an element that is empty, or begins with a byte it does not expect, is the last it reads. */
module Codings {
  import opened Bytes
  import opened Types
  import opened HeaderWords
  import opened HeaderText

  /** The place of the first comma from `i` on; the end of the text if there is none. */
  function CommaFrom(v: Text, i: nat): (r: nat)
    requires i <= |v|
    ensures i <= r <= |v| && (r < |v| ==> v[r] == ',') && forall j :: i <= j < r ==> v[j] != ','
    decreases |v| - i
  {
    if i == |v| || v[i] == ',' then i else CommaFrom(v, i + 1)
  }

  /** The bytes that are skipped before an element. A tab is none of them. */
  predicate IsSpace(ch: char) {
    ch == ' ' || ch == NUL
  }

  function Unspaced(v: Text): (r: Text)
    ensures |r| <= |v| && (r != [] ==> !IsSpace(r[0]))
  {
    if v != [] && IsSpace(v[0]) then Unspaced(v[1..]) else v
  }

  /** A byte with which an element after a comma may begin: its lower case is a token character. */
  predicate Opens(ch: char) {
    Token(Lower(ch)) != NUL
  }

  predicate IsChunked(e: Text) {
    FoldAll(Trimmed(e)) == CHUNKED
  }

  /** The comma behind such an element is not seen. */
  predicate Hides(e: Text) {
    FoldAll(e) <= CHUNKED || IsChunked(e)
  }

  /** The last element of a text that begins with a byte of an element; None if the parser never begins it. */
  function LastIn(v: Text): Option<Text>
    requires v != []
    decreases |v|, 0
  {
    var c := CommaFrom(v, 1);
    if c == |v| then Some(v)
    else if !Hides(v[..c]) then LastAfter(v[c + 1..])
    else
      var d := CommaFrom(v, c + 1);
      if d == |v| then None else LastAfter(v[d + 1..])
  }

  /** The same for a text that follows a comma; Some([]) if no element has begun yet. */
  function LastAfter(v: Text): Option<Text>
    decreases |v|, 1
  {
    var u := Unspaced(v);
    if u == [] then Some([]) else if Opens(u[0]) then LastIn(u) else None
  }

  /** The last element of a value, if the parser begins to match there. */
  function LastElement(v: Text): Option<Text> {
    if v == [] then None else LastIn(v)
  }

  /** The value makes a message chunked. */
  predicate ListsChunked(v: Text) {
    LastElement(v).Some? && IsChunked(LastElement(v).value)
  }

  // The matcher does that.

  function Tokens(m: Matcher, v: Text): Matcher
    decreases |v|
  {
    if v == [] then m else Tokens(TokenByte(m, v[0]), v[1..])
  }

  lemma {:induction false} TokensConcat(m: Matcher, a: Text, b: Text)
    ensures Tokens(m, a + b) == Tokens(Tokens(m, a), b)
    decreases |a|
  {
    hide TokenByte;
    if a == [] {
      assert a + b == b;
    } else {
      assert (a + b)[0] == a[0] && (a + b)[1..] == a[1..] + b;
      TokensConcat(TokenByte(m, a[0]), a[1..], b);
    }
  }

  lemma TokensOne(m: Matcher, ch: char, v: Text)
    ensures Tokens(m, [ch] + v) == Tokens(TokenByte(m, ch), v) && Tokens(m, [ch]) == TokenByte(m, ch)
  {
    hide TokenByte;
    assert ([ch] + v)[0] == ch && ([ch] + v)[1..] == v && [ch][1..] == [];
  }

  lemma NoTokens(m: Matcher)
    ensures Tokens(m, []) == m
  {
  }

  /** The matcher after the first byte of an element. */
  function FirstOf(ch: char): Matcher {
    Matcher(if Lower(ch) == 'c' then CodingMatching else CodingToken, 0)
  }

  /** The matcher after a value. */
  function CodingAfter(v: Text): Matcher
    requires v != []
  {
    Tokens(FirstOf(v[0]), v[1..])
  }

  lemma AfterConcat(a: Text, b: Text)
    requires a != []
    ensures CodingAfter(a + b) == Tokens(CodingAfter(a), b)
  {
    assert (a + b)[0] == a[0] && (a + b)[1..] == a[1..] + b;
    TokensConcat(FirstOf(a[0]), a[1..], b);
  }

  /** An element that ends before the word "chunked" does. */
  predicate IsBeginning(e: Text) {
    FoldAll(e) < CHUNKED
  }

  /** Where the matcher stands after an element. */
  predicate ElementFits(m: Matcher, e: Text) {
    if IsBeginning(e) then m.header.CodingMatching? && m.index == |e| - 1
    else if IsChunked(e) then m.header.CodingChunked?
    else m.header.CodingToken?
  }

  predicate NoComma(x: Text) {
    forall i :: 0 <= i < |x| ==> x[i] != ','
  }

  lemma ChunkedLetters()
    ensures |CHUNKED| == 7 && WordLike(CHUNKED) && CHUNKED[0] == 'c'
  {
    ListWords();
  }

  /** A letter is matched without regard to case. */
  lemma LetterFolds(ch: char, w: char)
    requires 'a' <= w <= 'z'
    ensures Lower(ch) == w <==> Fold(ch) == w
  {
  }

  lemma FirstFits(ch: char)
    ensures ElementFits(FirstOf(ch), [ch])
  {
    ChunkedLetters();
    LetterFolds(ch, 'c');
    hide CHUNKED, Lower, Fold;
    assert FoldAll([ch]) <= CHUNKED <==> Fold(ch) == 'c';
    assert [ch][..0] == [] && Trimmed([]) == [];
    assert |Trimmed([ch])| <= 1;
  }

  lemma TrimmedShorter(e: Text)
    ensures |Trimmed(e)| <= |e| && Trimmed(e) == e[..|Trimmed(e)|]
  {
  }

  lemma PieceSnoc(e: Text, ch: char)
    ensures FoldAll(e + [ch]) <= CHUNKED <==> FoldAll(e) <= CHUNKED && |e| < |CHUNKED| && Fold(ch) == CHUNKED[|e|]
    ensures IsChunked(e + [ch]) <==>
              if ch == ' ' then IsChunked(e) else FoldAll(e) <= CHUNKED && |e| + 1 == |CHUNKED| && Fold(ch) == CHUNKED[|e|]
  {
    hide CHUNKED, Fold;
    FoldSnoc(e, ch);
    PrefixSnoc(FoldAll(e), Fold(ch), CHUNKED);
    TrimmedSnoc(e, ch);
  }

  /** An element that is a beginning of the word has nothing behind it to trim. */
  lemma PieceIsTrimmed(e: Text)
    requires e != [] && FoldAll(e) <= CHUNKED
    ensures Trimmed(e) == e
  {
    ChunkedLetters();
    hide CHUNKED;
    var ch := e[|e| - 1];
    assert FoldAll(e)[|e| - 1] == CHUNKED[|e| - 1] == Fold(ch);
  }

  lemma StepFits(m: Matcher, e: Text, ch: char)
    requires e != [] && ElementFits(m, e) && ch != ','
    ensures ElementFits(TokenByte(m, ch), e + [ch])
  {
    WordStep(e, ch);
    ChunkedLetters();
    hide CHUNKED, Lower, IsBeginning, IsChunked, Token;
  }

  /** How one more byte changes what an element is. */
  lemma WordStep(e: Text, ch: char)
    requires e != []
    ensures var goesOn := IsBeginning(e) && Lower(ch) == At(CHUNKED, |e|);
            && !(IsBeginning(e) && IsChunked(e)) && (IsBeginning(e) ==> |e| < |CHUNKED|)
            && (IsBeginning(e + [ch]) <==> goesOn && |e| + 1 < |CHUNKED|)
            && (IsChunked(e + [ch]) <==> (ch == ' ' && IsChunked(e)) || (goesOn && |e| + 1 == |CHUNKED|))
  {
    ChunkedLetters();
    PieceSnoc(e, ch);
    if FoldAll(e) <= CHUNKED { PieceIsTrimmed(e); }
    if |e| < |CHUNKED| { LetterFolds(ch, CHUNKED[|e|]); }
    hide CHUNKED, Lower, Fold, Trimmed, FoldAll;
  }

  lemma {:induction false} ElementAfter(e: Text)
    requires e != [] && NoComma(e[1..])
    ensures ElementFits(CodingAfter(e), e)
    decreases |e|
  {
    var init, ch := e[..|e| - 1], e[|e| - 1];
    hide ElementFits, TokenByte;
    if |e| == 1 {
      FirstFits(ch);
      assert e == [ch] && e[1..] == [];
    } else {
      assert init[1..] == e[1..|e| - 1];
      ElementAfter(init);
      assert e == init + [ch] && e[1..][|e| - 2] == ch;
      AfterConcat(init, [ch]);
      TokensOne(CodingAfter(init), ch, []);
      StepFits(CodingAfter(init), init, ch);
    }
  }

  /** The comma behind an element. */
  lemma CommaFits(m: Matcher, e: Text)
    requires e != [] && ElementFits(m, e)
    ensures if Hides(e) then TokenByte(m, ',').header.CodingToken? else TokenByte(m, ',') == Matcher(CodingStart, 0)
  {
    ChunkedLetters();
    if FoldAll(e) <= CHUNKED { PieceIsTrimmed(e); }
    hide CHUNKED, Trimmed, Token, FoldAll;
  }

  lemma {:induction false} TokenStays(m: Matcher, x: Text)
    requires m.header.CodingToken? && NoComma(x)
    ensures Tokens(m, x) == m
    decreases |x|
  {
    if x != [] { TokenStays(m, x[1..]); }
  }

  lemma {:induction false} GeneralStays(m: Matcher, x: Text)
    requires m.header.General?
    ensures Tokens(m, x).header.General?
    decreases |x|
  {
    if x != [] { GeneralStays(TokenByte(m, x[0]), x[1..]); }
  }

  /** The byte after a comma. */
  lemma StartByte(ch: char)
    ensures var m := TokenByte(Matcher(CodingStart, 0), ch);
            if IsSpace(ch) then m == Matcher(CodingStart, 0) else if Opens(ch) then m == FirstOf(ch) else m.header.General?
  {
  }

  lemma {:induction false} SpacesSkipped(v: Text)
    ensures Tokens(Matcher(CodingStart, 0), v) == Tokens(Matcher(CodingStart, 0), Unspaced(v))
    decreases |v|
  {
    hide TokenByte, IsSpace;
    if v != [] && IsSpace(v[0]) {
      StartByte(v[0]);
      SpacesSkipped(v[1..]);
    }
  }

  /** What the matcher knows about the last element. */
  predicate Knows(h: HeaderState, last: Option<Text>) {
    && (h.CodingChunked? <==> last.Some? && IsChunked(last.value))
    && (h.CodingStart? <==> last == Some([]))
  }

  lemma ElementKnows(m: Matcher, e: Text)
    requires e != [] && ElementFits(m, e)
    ensures Knows(m.header, Some(e))
  {
    TrimmedShorter(e);
    hide FoldAll, Trimmed;
  }

  lemma LastInIs(v: Text)
    requires v != []
    ensures var c := CommaFrom(v, 1);
            if c == |v| then LastIn(v) == Some(v)
            else if !Hides(v[..c]) then LastIn(v) == LastAfter(v[c + 1..])
            else var d := CommaFrom(v, c + 1); LastIn(v) == if d == |v| then None else LastAfter(v[d + 1..])
  {
    hide Hides, LastAfter;
  }

  /** A text up to a comma. */
  lemma UpTo(v: Text, i: nat)
    requires i <= |v|
    ensures var c := CommaFrom(v, i);
            NoComma(v[i..c]) && v[i..] == v[i..c] + (if c == |v| then [] else [','] + v[c + 1..])
  {
    hide CommaFrom;
  }

  lemma FirstApart(v: Text, c: nat)
    requires 1 <= c <= |v|
    ensures v[..c] != [] && v[..c][1..] == v[1..c] && v == v[..c] + v[c..] && (c < |v| ==> v[c..] == [v[c]] + v[c + 1..])
  {
  }

  lemma {:induction false} InExactly(v: Text)
    requires v != []
    ensures Knows(CodingAfter(v).header, LastIn(v))
    decreases |v|, 0
  {
    hide *;
    LastInIs(v);
    var c := CommaFrom(v, 1);
    var e := v[..c];
    UpTo(v, 1);
    FirstApart(v, c);
    ElementAfter(e);
    if c == |v| {
      assert e == v;
      ElementKnows(CodingAfter(v), v);
    } else {
      AfterConcat(e, [','] + v[c + 1..]);
      CommaExactly(v, c, CodingAfter(e));
    }
  }

  /** After an element and its comma. */
  lemma {:induction false} CommaExactly(v: Text, c: nat, m: Matcher)
    requires 0 < c < |v| && ElementFits(m, v[..c])
    ensures var d := CommaFrom(v, c + 1);
            Knows(Tokens(m, [','] + v[c + 1..]).header,
                  if !Hides(v[..c]) then LastAfter(v[c + 1..]) else if d == |v| then None else LastAfter(v[d + 1..]))
    decreases |v|, 0, 1
  {
    hide *;
    CommaFits(m, v[..c]);
    TokensOne(m, ',', v[c + 1..]);
    if !Hides(v[..c]) {
      AfterExactly(v[c + 1..]);
    } else {
      HiddenExactly(v, c + 1, TokenByte(m, ','));
    }
  }

  /** After a comma that was not seen the parser waits for the next one. */
  lemma {:induction false} HiddenExactly(v: Text, i: nat, m: Matcher)
    requires 0 < i <= |v| && m.header.CodingToken?
    ensures var d := CommaFrom(v, i);
            Knows(Tokens(m, v[i..]).header, if d == |v| then None else LastAfter(v[d + 1..]))
    decreases |v|, 0, 0
  {
    hide *;
    var d := CommaFrom(v, i);
    var x := v[i..d];
    UpTo(v, i);
    TokenStays(m, x);
    if d == |v| {
      assert v[i..] == x;
      NobodyKnows(m.header);
    } else {
      var y := v[d + 1..];
      TokensConcat(m, x, [','] + y);
      TokensOne(m, ',', y);
      CommaOfToken(m);
      AfterExactly(y);
    }
  }

  lemma CommaOfToken(m: Matcher)
    requires m.header.CodingToken?
    ensures TokenByte(m, ',') == Matcher(CodingStart, 0)
  {
  }

  lemma {:induction false} AfterExactly(v: Text)
    ensures Knows(Tokens(Matcher(CodingStart, 0), v).header, LastAfter(v))
    decreases |v|, 1
  {
    hide TokenByte, Knows, Opens, IsChunked;
    SpacesSkipped(v);
    var u := Unspaced(v);
    if u == [] {
      StartKnows();
    } else {
      StartByte(u[0]);
      if Opens(u[0]) {
        InExactly(u);
      } else {
        GeneralStays(TokenByte(Matcher(CodingStart, 0), u[0]), u[1..]);
        NobodyKnows(Tokens(Matcher(CodingStart, 0), u).header);
      }
    }
  }

  lemma StartKnows()
    ensures Knows(CodingStart, Some([]))
  {
    ChunkedLetters();
  }

  lemma NobodyKnows(h: HeaderState)
    requires h.General? || h.CodingToken?
    ensures Knows(h, None)
  {
  }

  /** The matcher has found "chunked" exactly when the value lists it where the parser looks, and waits for an element
      exactly when the value ends there. */
  lemma CodingExactly(v: Text)
    requires v != []
    ensures CodingAfter(v).header.CodingChunked? <==> ListsChunked(v)
    ensures CodingAfter(v).header.CodingStart? <==> LastElement(v) == Some([])
  {
    hide IsChunked;
    InExactly(v);
  }

  // When every comma is seen.

  /** The elements of a value, with the spaces around them. */
  function Elements(v: Text): (r: seq<Text>)
    ensures r != []
    decreases |v|
  {
    var c := CommaFrom(v, 0);
    if c == |v| then [v] else [v[..c]] + Elements(v[c + 1..])
  }

  function LastOf(v: Text): Text {
    var es := Elements(v); Unspaced(es[|es| - 1])
  }

  /** An element that begins as it should and is no beginning of "chunked". */
  predicate IsOrdinary(e: Text) {
    var u := Unspaced(e); u != [] && Opens(u[0]) && !Hides(u)
  }

  predicate AreOrdinary(es: seq<Text>) {
    forall i :: 0 <= i < |es| - 1 ==> IsOrdinary(es[i])
  }

  lemma ElementsIs(v: Text)
    ensures var c := CommaFrom(v, 0); Elements(v) == if c == |v| then [v] else [v[..c]] + Elements(v[c + 1..])
  {
    hide CommaFrom;
  }

  /** A space before the first element changes nothing but this element. */
  lemma SpaceBefore(v: Text)
    requires v != [] && IsSpace(v[0])
    ensures var es, fs := Elements(v), Elements(v[1..]);
            |es| == |fs| && es[1..] == fs[1..] && es[0] == [v[0]] + fs[0] && Unspaced(es[0]) == Unspaced(fs[0])
  {
    CommaShifts(v);
    ElementsIs(v);
    ElementsIs(v[1..]);
    var es, fs := Elements(v), Elements(v[1..]);
    hide Elements, CommaFrom;
    var c := CommaFrom(v[1..], 0);
    assert v[1..][..c] == v[1..c + 1] && v[..c + 1] == [v[0]] + v[1..c + 1];
    if c < |v| - 1 { assert v[1..][c + 1..] == v[c + 2..]; }
    assert es[0] == [v[0]] + fs[0];
    assert es[0][1..] == fs[0];
  }

  lemma {:induction false} CommaShiftsAt(v: Text, i: nat)
    requires v != [] && i < |v|
    ensures CommaFrom(v, i + 1) == CommaFrom(v[1..], i) + 1
    decreases |v| - i
  {
    if i + 1 < |v| && v[i + 1] != ',' { CommaShiftsAt(v, i + 1); }
  }

  lemma CommaShifts(v: Text)
    requires v != [] && v[0] != ','
    ensures CommaFrom(v, 0) == CommaFrom(v, 1) == CommaFrom(v[1..], 0) + 1
  {
    CommaShiftsAt(v, 0);
  }

  lemma {:induction false} UnspacedElements(v: Text)
    ensures var es, fs := Elements(v), Elements(Unspaced(v));
            |es| == |fs| && es[1..] == fs[1..] && Unspaced(es[0]) == Unspaced(fs[0])
    decreases |v|
  {
    hide Elements, IsSpace;
    if v != [] && IsSpace(v[0]) {
      SpaceBefore(v);
      UnspacedElements(v[1..]);
    }
  }

  /** So the elements of both are ordinary, and their last ones agree. */
  lemma UnspacedAgrees(v: Text)
    ensures AreOrdinary(Elements(v)) <==> AreOrdinary(Elements(Unspaced(v)))
    ensures LastOf(v) == LastOf(Unspaced(v))
  {
    hide *;
    UnspacedElements(v);
    SameElements(Elements(v), Elements(Unspaced(v)));
    LastOfIs(v);
    LastOfIs(Unspaced(v));
  }

  lemma LastOfIs(v: Text)
    ensures LastOf(v) == Unspaced(Elements(v)[|Elements(v)| - 1])
  {
    hide Elements, Unspaced;
  }

  lemma SameElements(es: seq<Text>, fs: seq<Text>)
    requires |es| == |fs| > 0 && es[1..] == fs[1..] && Unspaced(es[0]) == Unspaced(fs[0])
    ensures AreOrdinary(es) <==> AreOrdinary(fs)
    ensures Unspaced(es[|es| - 1]) == Unspaced(fs[|fs| - 1])
  {
    hide Unspaced, Opens, Hides;
    forall i | 0 < i < |es| ensures es[i] == fs[i] { assert es[i] == es[1..][i - 1] && fs[i] == fs[1..][i - 1]; }
    forall i | 0 <= i < |es| ensures IsOrdinary(es[i]) <==> IsOrdinary(fs[i]) { if i > 0 { assert es[i] == fs[i]; } }
    hide IsOrdinary;
  }

  /** What is left after the first comma. */
  lemma ElementsTail(v: Text)
    requires AreOrdinary(Elements(v))
    ensures var c := CommaFrom(v, 0);
            if c == |v| then LastOf(v) == Unspaced(v)
            else IsOrdinary(v[..c]) && AreOrdinary(Elements(v[c + 1..])) && LastOf(v) == LastOf(v[c + 1..])
  {
    ElementsIs(v);
    hide Elements, IsOrdinary, AreOrdinary, Unspaced, CommaFrom;
    var c := CommaFrom(v, 0);
    if c < |v| { TailOrdinary(v[..c], Elements(v[c + 1..])); }
  }

  lemma TailOrdinary(e: Text, fs: seq<Text>)
    requires fs != [] && AreOrdinary([e] + fs)
    ensures IsOrdinary(e) && AreOrdinary(fs) && ([e] + fs)[|fs|] == fs[|fs| - 1]
  {
    hide IsOrdinary;
    var es := [e] + fs;
    assert es[0] == e;
    forall i | 0 <= i < |fs| - 1 ensures IsOrdinary(fs[i]) { assert fs[i] == es[i + 1]; }
  }

  lemma ChunkedOpens(u: Text)
    requires IsChunked(u)
    ensures u != [] && Opens(u[0]) && u[0] != ',' && !IsSpace(u[0])
  {
    ChunkedLetters();
    TrimmedShorter(u);
    assert FoldAll(Trimmed(u))[0] == Fold(u[0]) == 'c';
    LetterFolds(u[0], 'c');
  }

  lemma UnspacedTwice(v: Text)
    requires v == [] || !IsSpace(v[0])
    ensures Unspaced(v) == v
  {
  }

  lemma OrdinaryIs(e: Text)
    requires IsOrdinary(e)
    ensures e != [] && (!IsSpace(e[0]) ==> Opens(e[0]) && !Hides(e))
  {
    hide Opens, Hides;
  }

  lemma {:induction false} InPlainly(v: Text)
    requires v != [] && !IsSpace(v[0]) && AreOrdinary(Elements(v))
    ensures var last := LastIn(v); (last.Some? && IsChunked(last.value)) <==> IsChunked(LastOf(v))
    decreases |v|, 0
  {
    hide *;
    ElementsTail(v);
    LastInIs(v);
    UnspacedTwice(v);
    if v[0] != ',' {
      CommaShifts(v);
    } else {
      CommaFirst(v);
    }
    var c := CommaFrom(v, 0);
    if c < |v| {
      OrdinaryIs(v[..c]);
      AfterPlainly(v[c + 1..]);
    }
  }

  lemma CommaFirst(v: Text)
    requires v != [] && v[0] == ','
    ensures !AreOrdinary(Elements(v))
  {
    if AreOrdinary(Elements(v)) {
      ElementsTail(v);
      OrdinaryIs(v[..0]);
    }
  }

  lemma {:induction false} AfterPlainly(v: Text)
    requires AreOrdinary(Elements(v))
    ensures var last := LastAfter(v); (last.Some? && IsChunked(last.value)) <==> IsChunked(LastOf(v))
    decreases |v|, 1
  {
    hide *;
    var u := Unspaced(v);
    UnspacedAgrees(v);
    LastAfterIs(v);
    if u == [] {
      EmptyLast();
    } else if Opens(u[0]) {
      InPlainly(u);
    } else {
      ElementsTail(u);
      UnspacedTwice(u);
      if CommaFrom(u, 0) < |u| {
        FirstNotOpen(u);
      } else if IsChunked(u) {
        ChunkedOpens(u);
      }
    }
  }

  lemma LastAfterIs(v: Text)
    ensures var u := Unspaced(v); LastAfter(v) == if u == [] then Some([]) else if Opens(u[0]) then LastIn(u) else None
    ensures Unspaced(v) != [] ==> !IsSpace(Unspaced(v)[0])
  {
    hide Opens, LastIn;
  }

  lemma EmptyLast()
    ensures LastOf([]) == [] && !IsChunked([])
  {
    ChunkedLetters();
  }

  /** A text that begins with no opening byte has no ordinary first element. */
  lemma FirstNotOpen(u: Text)
    requires u != [] && !IsSpace(u[0]) && !Opens(u[0])
    ensures !IsOrdinary(u[..CommaFrom(u, 0)])
  {
    hide Opens, Hides;
    if IsOrdinary(u[..CommaFrom(u, 0)]) { OrdinaryIs(u[..CommaFrom(u, 0)]); }
  }

  /** If every element before the last one is ordinary, a value makes a message chunked exactly when its last element
      is "chunked". */
  lemma PlainListExactly(v: Text)
    requires v != [] && !IsSpace(v[0]) && AreOrdinary(Elements(v))
    ensures ListsChunked(v) <==> IsChunked(LastOf(v))
  {
    hide Elements, IsOrdinary, IsSpace, LastIn, IsChunked, LastOf;
    InPlainly(v);
  }

  // Values whose last element is "chunked" and that are not chunked for the parser.

  /** A comma behind a beginning of "chunked" is not seen. */
  lemma HiddenComma(a: Text, b: Text)
    requires a != [] && NoComma(a) && Hides(a) && NoComma(b)
    ensures !ListsChunked(a + ([','] + b)) && LastOf(a + ([','] + b)) == Unspaced(b)
  {
    var v := a + ([','] + b);
    TwoElements(a, b);
    LastInIs(v);
    hide *;
    NotListed(v);
  }

  lemma NotListed(v: Text)
    requires v != [] && LastIn(v).None?
    ensures !ListsChunked(v)
  {
    hide LastIn;
  }

  lemma {:induction false} NextComma(v: Text, i: nat, c: nat)
    requires i <= c <= |v| && (c < |v| ==> v[c] == ',') && forall j :: i <= j < c ==> v[j] != ','
    ensures CommaFrom(v, i) == c
    decreases c - i
  {
    if i < c { NextComma(v, i + 1, c); }
  }

  lemma TwoElements(a: Text, b: Text)
    requires NoComma(a) && NoComma(b)
    ensures var v := a + ([','] + b);
            && CommaFrom(v, 0) == |a| && (a != [] ==> CommaFrom(v, 1) == |a|) && CommaFrom(v, |a| + 1) == |v|
            && v[..|a|] == a && v[|a| + 1..] == b && Elements(v) == [a, b]
  {
    var v := a + ([','] + b);
    assert v[|a| + 1..] == b;
    NextComma(v, 0, |a|);
    if a != [] { NextComma(v, 1, |a|); }
    NextComma(v, |a| + 1, |v|);
    NextComma(b, 0, |b|);
    ElementsIs(v);
    ElementsIs(b);
  }

  /** An element that begins with a byte that is not expected is the last one read, and so is an empty one. */
  lemma DeadElement(a: Text, b: Text)
    requires a != [] && NoComma(a) && !Hides(a) && b != [] && !IsSpace(b[0]) && !Opens(b[0])
    ensures !ListsChunked(a + ([','] + b))
  {
    var v := a + ([','] + b);
    NextComma(v, 1, |a|);
    assert v[..|a|] == a && v[|a| + 1..] == b;
    LastInIs(v);
    LastAfterIs(b);
    UnspacedTwice(b);
    hide *;
    NotListed(v);
  }

  /** A comma that comes first is taken for a byte of the first element. */
  lemma EmptyFirst(b: Text)
    requires NoComma(b)
    ensures !ListsChunked([','] + b) && LastOf([','] + b) == Unspaced(b)
  {
    var v := [','] + b;
    assert [] + v == v;
    TwoElements([], b);
    NextComma(v, 1, |v|);
    LastInIs(v);
    if IsChunked(v) { ChunkedOpens(v); }
  }

  lemma ChunkedValue()
    ensures IsChunked(CHUNKED) && NoComma(CHUNKED) && Unspaced(CHUNKED) == CHUNKED && Hides(CHUNKED) && CHUNKED != []
  {
    ChunkedLetters();
    assert FoldAll(CHUNKED) == CHUNKED;
    PieceIsTrimmed(CHUNKED);
  }

  lemma ChunkedAlone()
    ensures ListsChunked(CHUNKED)
  {
    ChunkedValue();
    NextComma(CHUNKED, 1, |CHUNKED|);
    LastInIs(CHUNKED);
    hide LastIn, CHUNKED;
  }

  /** Inputs: "c,chunked", "chunked,chunked", ",chunked", "gzip,,chunked" and "gzip", a comma, a tab and "chunked". */
  lemma MissedLists()
    ensures !ListsChunked("c" + ([','] + CHUNKED)) && !ListsChunked(CHUNKED + ([','] + CHUNKED)) && !ListsChunked([','] + CHUNKED)
    ensures !ListsChunked("gzip" + ([','] + ([','] + CHUNKED))) && !ListsChunked("gzip" + ([','] + ([TAB] + CHUNKED)))
    ensures LastOf("c" + ([','] + CHUNKED)) == LastOf(CHUNKED + ([','] + CHUNKED)) == LastOf([','] + CHUNKED) == CHUNKED && IsChunked(CHUNKED)
  {
    ChunkedValue();
    LetterHides();
    hide *;
    HiddenComma("c", CHUNKED);
    HiddenComma(CHUNKED, CHUNKED);
    EmptyFirst(CHUNKED);
    DeadElement("gzip", [','] + CHUNKED);
    DeadElement("gzip", [TAB] + CHUNKED);
  }

  lemma LetterHides()
    ensures Hides("c") && NoComma("c") && NoComma("gzip") && !Hides("gzip")
    ensures !Opens(',') && !Opens(TAB) && !IsSpace(',') && !IsSpace(TAB)
  {
    ChunkedLetters();
    TrimmedShorter("gzip");
    assert FoldAll("c") == ['c'] && FoldAll("gzip")[0] == 'g';
  }

  /** An input that is found: "gzip", a comma, a space and "chunked". */
  lemma FoundList()
    ensures ListsChunked("gzip" + ([','] + ([' '] + CHUNKED)))
  {
    ChunkedValue();
    LetterHides();
    var b := [' '] + CHUNKED;
    var v := "gzip" + ([','] + b);
    assert b[1..] == CHUNKED && Unspaced(b) == CHUNKED;
    TwoElements("gzip", b);
    GzipIsOrdinary();
    hide *;
    OrdinaryPair("gzip", b);
    PlainListExactly(v);
    LastOfPair(v, "gzip", b);
  }

  lemma OrdinaryPair(a: Text, b: Text)
    requires IsOrdinary(a)
    ensures AreOrdinary([a, b])
  {
    hide IsOrdinary;
  }

  lemma LastOfPair(v: Text, a: Text, b: Text)
    requires Elements(v) == [a, b]
    ensures LastOf(v) == Unspaced(b)
  {
    hide Elements, Unspaced;
  }

  lemma GzipIsOrdinary()
    ensures IsOrdinary("gzip") && forall y: Text :: ("gzip" + y)[0] == 'g' && !IsSpace('g')
  {
    LetterHides();
    hide Hides;
  }
}
