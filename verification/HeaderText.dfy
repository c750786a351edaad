/** What the header matcher recognises, said about the text of names and values
    instead of about bytes, matcher states and indices. */
module HeaderText {
  import opened Bytes
  import opened Types
  import opened HeaderWords
  import opened Table

  /** Header names are compared without regard to case. */
  predicate IsName(f: Text, n: HeaderName) {
    FoldAll(f) == NameText(n)
  }

  /** The header state that a (lower case) piece of a name stands for. */
  function HeaderOf(n: Text): HeaderState {
    if n == NameText(Connection) || n == NameText(ProxyConnection) then Matched(Connection)
    else if n == NameText(ContentLength) then Matched(ContentLength)
    else if n == NameText(TransferEncoding) then Matched(TransferEncoding)
    else if n == NameText(Upgrade) then Matched(Upgrade)
    else if n <= NameText(Connection) then
      if |n| <= 1 then C else if |n| == 2 then CO else if |n| == 3 then CON else Matching(Connection)
    else if n <= NameText(ContentLength) then Matching(ContentLength)
    else if n <= NameText(ProxyConnection) then Matching(ProxyConnection)
    else if n <= NameText(TransferEncoding) then Matching(TransferEncoding)
    else if n <= NameText(Upgrade) then Matching(Upgrade)
    else General
  }

  /** The matcher stands where a name's text says. */
  predicate NameFits(m: Matcher, n: Text) {
    m.header == HeaderOf(n) && (m.header.General? || m.index == |n| - 1)
  }

  lemma Words()
    ensures |NameText(Connection)| == 10 && |NameText(ProxyConnection)| == 16 && |NameText(ContentLength)| == 14
    ensures |NameText(TransferEncoding)| == 17 && |NameText(Upgrade)| == 7
    ensures NameText(Connection)[..4] == "conn" && NameText(ContentLength)[..4] == "cont"
    ensures NameText(ProxyConnection)[0] == 'p' && NameText(TransferEncoding)[0] == 't' && NameText(Upgrade)[0] == 'u'
  {
  }

  lemma FirstByteFits(c: char)
    ensures NameFits(Matcher(FirstNameState(c), 0), [c])
  {
    Words();
    hide HeaderWords.NameText;
    assert NameText(Connection)[..4][0] == 'c' && NameText(ContentLength)[..4][0] == 'c';
  }

  /** The letters that tell the words apart. */
  predicate WordsApart() {
    && |NameText(Connection)| == 10 && |NameText(ProxyConnection)| == 16 && |NameText(ContentLength)| == 14
    && |NameText(TransferEncoding)| == 17 && |NameText(Upgrade)| == 7
    && (forall i :: 0 <= i < 3 ==> NameText(Connection)[i] == NameText(ContentLength)[i] == "con"[i])
    && NameText(Connection)[3] == 'n' && NameText(ContentLength)[3] == 't'
    && NameText(ProxyConnection)[0] == 'p' && NameText(TransferEncoding)[0] == 't' && NameText(Upgrade)[0] == 'u'
  }

  lemma AreApart()
    ensures WordsApart()
  {
    Words();
    hide HeaderWords.NameText;
    forall i | 0 <= i < 4 ensures NameText(Connection)[i] == "conn"[i] && NameText(ContentLength)[i] == "cont"[i] {
      assert NameText(Connection)[..4][i] == "conn"[i] && NameText(ContentLength)[..4][i] == "cont"[i];
    }
  }

  lemma PrefixSnoc(n: Text, c: char, w: Text)
    ensures n + [c] <= w <==> n <= w && |n| < |w| && w[|n|] == c
    ensures n + [c] == w <==> n <= w && |n| + 1 == |w| && w[|n|] == c
  {
    var n' := n + [c];
    assert n'[..|n|] == n && n'[|n|] == c;
    if n <= w && |n| < |w| && w[|n|] == c {
      assert n' == w[..|n| + 1];
    }
  }

  /** No name begins two words, but for the common beginning of two of them. */
  lemma OnlyOneWord(n: Text, v: HeaderName, w: HeaderName)
    requires n != [] && v != w && n <= NameText(v) && n <= NameText(w)
    ensures |n| <= 3 && {v, w} == {Connection, ContentLength}
  {
    AreApart();
    hide HeaderWords.NameText;
    assert n[0] == NameText(v)[0] == NameText(w)[0];
  }

  lemma AllPrefixSnoc(n: Text, c: char)
    ensures forall w: HeaderName ::
              && (n + [c] <= NameText(w) <==> n <= NameText(w) && |n| < |NameText(w)| && NameText(w)[|n|] == c)
              && (n + [c] == NameText(w) <==> n <= NameText(w) && |n| + 1 == |NameText(w)| && NameText(w)[|n|] == c)
  {
    forall w: HeaderName { PrefixSnoc(n, c, NameText(w)); }
  }

  /** One more byte of a name. */
  lemma NextByteFits(m: Matcher, n: Text, c: char)
    requires n != [] && NameFits(m, n) && c != NUL && c != ' '
    ensures NameByte(m, c).Some? && NameFits(NameByte(m, c).value, n + [c])
  {
    AreApart();
    hide HeaderWords.NameText;
    AllPrefixSnoc(n, c);
    if n <= NameText(Connection) && n <= NameText(ContentLength) { OnlyOneWord(n, Connection, ContentLength); }
  }

  /** At the colon the matcher knows a header exactly when its name is that word. */
  lemma NameRecognised(m: Matcher, f: Text)
    requires f != [] && NameFits(m, FoldAll(f))
    ensures m.header == Matched(ContentLength) <==> IsName(f, ContentLength)
    ensures m.header == Matched(TransferEncoding) <==> IsName(f, TransferEncoding)
    ensures m.header == Matched(Upgrade) <==> IsName(f, Upgrade)
    ensures m.header == Matched(Connection) <==> IsConnection(f)
    ensures m.header != Matched(ProxyConnection) && !m.header.CodingStart? && !m.header.LengthWs? && !m.header.OptionStart?
  {
    AreApart();
    hide HeaderWords.NameText;
  }

  predicate IsBlank(c: char) {
    c == ' ' || c == TAB
  }

  /** What may stand before an element: blanks, and NUL bytes where a lenient parser lets them through. */
  predicate IsGap(c: char, lenient: bool) {
    IsBlank(c) || (lenient && c == NUL)
  }

  /** The last comma-separated element of a value, without what may stand before it. */
  function Element(v: Text, lenient: bool): Text {
    if v == [] then []
    else
      var e, c := Element(v[..|v| - 1], lenient), v[|v| - 1];
      if c == ',' then [] else if e == [] && IsGap(c, lenient) then [] else e + [c]
  }

  /** A text without the spaces behind it. */
  function Trimmed(e: Text): Text {
    if e != [] && e[|e| - 1] == ' ' then Trimmed(e[..|e| - 1]) else e
  }

  /** The last element of a value is a word. */
  predicate LastElementIs(v: Text, word: string, lenient: bool) {
    FoldAll(Trimmed(Element(v, lenient))) == word
  }

  predicate AllDigits(v: Text) {
    forall i :: 0 <= i < |v| ==> IsNum(v[i])
  }

  function Decimal(v: Text): nat
    requires AllDigits(v)
  {
    if v == [] then 0 else Decimal(v[..|v| - 1]) * 10 + Digit(v[|v| - 1])
  }

  /** A number with blanks behind it. */
  predicate IsLength(v: Text, n: nat) {
    if v != [] && IsBlank(v[|v| - 1]) then IsLength(v[..|v| - 1], n) else v != [] && AllDigits(v) && n == Decimal(v)
  }

  /** What a matcher state says about the header line read so far. */
  predicate ValueFits(m: Matcher, length: nat, f: Text, v: Text, lenient: bool) {
    match m.header
    case General => !IsName(f, ContentLength)
    case LengthNum => IsName(f, ContentLength) && v != [] && AllDigits(v) && length == Decimal(v)
    case LengthWs => IsName(f, ContentLength) && IsLength(v, length)
    case CodingStart => IsName(f, TransferEncoding) && Element(v, lenient) == []
    case CodingMatching =>
      IsName(f, TransferEncoding) && m.index < |CHUNKED| && FoldAll(Element(v, lenient)) == CHUNKED[..m.index + 1]
    case CodingToken => IsName(f, TransferEncoding)
    case CodingChunked => IsName(f, TransferEncoding) && LastElementIs(v, CHUNKED, lenient)
    case OptionStart => IsConnection(f) && Element(v, lenient) == []
    case OptionMatching(o) =>
      IsConnection(f) && m.index < |OptionText(o)| && FoldAll(Element(v, lenient)) == OptionText(o)[..m.index + 1]
    case OptionToken => IsConnection(f)
    case OptionMatched(o) => IsConnection(f) && LastElementIs(v, OptionText(o), lenient)
    case _ => false
  }

  predicate IsConnection(f: Text) {
    IsName(f, Connection) || IsName(f, ProxyConnection)
  }

  lemma ElementSnoc(v: Text, c: char, lenient: bool)
    ensures Element(v + [c], lenient) ==
            if c == ',' then [] else if Element(v, lenient) == [] && IsGap(c, lenient) then [] else Element(v, lenient) + [c]
  {
    assert (v + [c])[..|v|] == v;
  }

  lemma TrimmedSnoc(e: Text, c: char)
    ensures Trimmed(e + [c]) == if c == ' ' then Trimmed(e) else e + [c]
  {
    assert (e + [c])[..|e|] == e;
  }

  lemma FoldSnoc(s: Text, c: char)
    ensures FoldAll(s + [c]) == FoldAll(s) + [Fold(c)]
  {
  }

  /** Bytes that the matcher takes for a letter or a hyphen are that letter or the hyphen. */
  lemma LowerIsFold(ch: char)
    requires ch != CR && ('a' <= Lower(ch) <= 'z' || Lower(ch) == '-')
    ensures Fold(ch) == Lower(ch) && ch != ',' && !IsBlank(ch) && ch != NUL
  {
  }

  /** The words of the list-valued headers are made of letters and hyphens. */
  predicate WordLike(w: string) {
    forall i :: 0 <= i < |w| ==> 'a' <= w[i] <= 'z' || w[i] == '-'
  }

  /** One more byte of a word that an element may be. */
  lemma WordByteFits(w: string, index: nat, v: Text, ch: char, lenient: bool)
    requires WordLike(w) && index + 1 < |w| && FoldAll(Element(v, lenient)) == w[..index + 1] && ch != CR
    requires Lower(ch) == At(w, index + 1)
    ensures FoldAll(Element(v + [ch], lenient)) == w[..index + 2]
    ensures index + 2 == |w| ==> LastElementIs(v + [ch], w, lenient)
  {
    LowerIsFold(ch);
    ElementSnoc(v, ch, lenient);
    var e := Element(v, lenient);
    assert Element(v + [ch], lenient) == e + [ch];
    hide *;
    FoldSnoc(e, ch);
    TrimmedSnoc(e, ch);
    PrefixGrows(w, index + 1);
    LastIs(v + [ch], e + [ch], w, lenient);
  }

  lemma PrefixGrows(w: string, k: nat)
    requires k < |w|
    ensures w[..k] + [w[k]] == w[..k + 1] && (k + 1 == |w| ==> w[..k + 1] == w)
  {
  }

  lemma LastIs(v: Text, e: Text, w: string, lenient: bool)
    requires Element(v, lenient) == e && Trimmed(e) == e
    ensures LastElementIs(v, w, lenient) <==> FoldAll(e) == w
  {
    hide Element, Trimmed, FoldAll;
  }

  /** The first byte of such a word. */
  lemma FirstWordByteFits(w: string, v: Text, ch: char, lenient: bool)
    requires WordLike(w) && |w| > 1 && Element(v, lenient) == [] && ch != CR && Lower(ch) == w[0]
    ensures FoldAll(Element(v + [ch], lenient)) == w[..1]
  {
    LowerIsFold(ch);
    ElementSnoc(v, ch, lenient);
  }

  /** A space behind a finished word. */
  lemma SpaceAfterWord(w: string, v: Text, lenient: bool)
    requires LastElementIs(v, w, lenient) && w != []
    ensures LastElementIs(v + [' '], w, lenient)
  {
    ElementSnoc(v, ' ', lenient);
    TrimmedSnoc(Element(v, lenient), ' ');
  }

  lemma ListWords()
    ensures WordLike(CHUNKED) && |CHUNKED| == 7 && CHUNKED[0] == 'c'
    ensures forall o: ConnectionOption :: WordLike(OptionText(o)) && |OptionText(o)| > 1
    ensures OptionText(KeepAliveOption)[0] == 'k' && OptionText(CloseOption)[0] == 'c' && OptionText(UpgradeOption)[0] == 'u'
  {
    assert WordLike(OptionText(KeepAliveOption)) && WordLike(OptionText(CloseOption)) && WordLike(OptionText(UpgradeOption));
  }

  /** A Content-Length header is none of the list-valued ones. */
  lemma LengthIsApart(f: Text)
    ensures IsName(f, TransferEncoding) || IsName(f, Upgrade) || IsConnection(f) ==> !IsName(f, ContentLength)
  {
    AreApart();
    hide NameText;
  }

  /** What the start states take for a blank stands before an element. */
  lemma GapByte(ch: char, lenient: bool)
    requires (lenient || IsHeaderChar(ch)) && ch != CR
    ensures Lower(ch) == ' ' || Lower(ch) == TAB ==> IsGap(ch, lenient)
  {
  }

  /** Before an element of a Transfer-Encoding value. */
  lemma CodingStartFits(m: Matcher, length: nat, f: Text, v: Text, ch: char, lenient: bool)
    requires ValueFits(m, length, f, v, lenient) && ch != CR && (lenient || IsHeaderChar(ch))
    requires m.header.CodingStart? && m.index == 0
    ensures ValueFits(TokenByte(m, ch), length, f, v + [ch], lenient)
  {
    hide Element, FoldAll, IsName, IsConnection, CHUNKED, OptionText, Lower, Token, IsGap, IsHeaderChar;
    GapByte(ch, lenient);
    LengthIsApart(f);
    ListWords();
    ElementSnoc(v, ch, lenient);
    if Lower(ch) == 'c' { FirstWordByteFits(CHUNKED, v, ch, lenient); }
  }

  /** Inside a word that may be "chunked". */
  lemma CodingWordFits(m: Matcher, length: nat, f: Text, v: Text, ch: char, lenient: bool)
    requires ValueFits(m, length, f, v, lenient) && ch != CR && m.header.CodingMatching? && m.index + 1 < |CHUNKED|
    ensures ValueFits(TokenByte(m, ch), length, f, v + [ch], lenient)
  {
    ListWords();
    hide Element, FoldAll, IsName, CHUNKED, Lower, Trimmed;
    if Lower(ch) == At(CHUNKED, m.index + 1) { WordByteFits(CHUNKED, m.index, v, ch, lenient); }
  }

  /** After a token, and after "chunked". */
  lemma CodingEndFits(m: Matcher, length: nat, f: Text, v: Text, ch: char, lenient: bool)
    requires ValueFits(m, length, f, v, lenient) && (m.header.CodingToken? || m.header.CodingChunked?)
    ensures ValueFits(TokenByte(m, ch), length, f, v + [ch], lenient)
  {
    ListWords();
    ElementSnoc(v, ch, lenient);
    if m.header.CodingChunked? && ch == ' ' { SpaceAfterWord(CHUNKED, v, lenient); }
    hide Element, FoldAll, IsName, CHUNKED, Lower, LastElementIs, Token;
  }

  lemma OptionStartFits(m: Matcher, length: nat, f: Text, v: Text, ch: char, lenient: bool)
    requires ValueFits(m, length, f, v, lenient) && ch != CR && (lenient || IsHeaderChar(ch))
    requires m.header.OptionStart? && m.index == 0
    ensures ValueFits(TokenByte(m, ch), length, f, v + [ch], lenient)
  {
    hide Element, FoldAll, IsName, IsConnection, CHUNKED, OptionText, Lower, Token, IsGap, IsHeaderChar;
    GapByte(ch, lenient);
    LengthIsApart(f);
    ElementSnoc(v, ch, lenient);
    FirstOfOption(v, ch, lenient);
  }

  lemma FirstOfOption(v: Text, ch: char, lenient: bool)
    requires Element(v, lenient) == [] && ch != CR
    ensures forall o :: |OptionText(o)| > 1 && (Lower(ch) == OptionText(o)[0] ==> FoldAll(Element(v + [ch], lenient)) == OptionText(o)[..1])
    ensures OptionText(KeepAliveOption)[0] == 'k' && OptionText(CloseOption)[0] == 'c' && OptionText(UpgradeOption)[0] == 'u'
  {
    ListWords();
    hide OptionText, FoldAll, Lower, Element;
    forall o | Lower(ch) == OptionText(o)[0] ensures FoldAll(Element(v + [ch], lenient)) == OptionText(o)[..1] {
      FirstWordByteFits(OptionText(o), v, ch, lenient);
    }
  }

  lemma OptionWordFits(m: Matcher, length: nat, f: Text, v: Text, ch: char, lenient: bool)
    requires ValueFits(m, length, f, v, lenient) && ch != CR
    requires m.header.OptionMatching? && m.index + 1 < |OptionText(m.header.option)|
    ensures ValueFits(TokenByte(m, ch), length, f, v + [ch], lenient)
  {
    ListWords();
    hide Element, FoldAll, IsConnection, OptionText, Lower, Trimmed;
    var w := OptionText(m.header.option);
    if Lower(ch) == At(w, m.index + 1) { WordByteFits(w, m.index, v, ch, lenient); }
  }

  lemma OptionEndFits(m: Matcher, length: nat, f: Text, v: Text, ch: char, lenient: bool)
    requires ValueFits(m, length, f, v, lenient) && (m.header.OptionToken? || m.header.OptionMatched?)
    ensures ValueFits(TokenByte(m, ch), length, f, v + [ch], lenient)
  {
    ListWords();
    ElementSnoc(v, ch, lenient);
    if m.header.OptionMatched? && ch == ' ' { SpaceAfterWord(OptionText(m.header.option), v, lenient); }
    hide Element, FoldAll, IsConnection, OptionText, Lower, LastElementIs, Token;
  }

  lemma IsLengthSnoc(v: Text, n: nat, c: char)
    requires IsLength(v, n) && IsBlank(c)
    ensures IsLength(v + [c], n)
  {
    assert (v + [c])[..|v|] == v;
  }

  lemma LengthByteFits(m: Matcher, f: Framing, name: Text, v: Text, ch: char, lenient: bool)
    requires m.header.LengthNum? && ValueFits(m, f.contentLength, name, v, lenient)
    ensures var r := LengthByte(m, f, ch); r.Head? ==> ValueFits(r.m, r.f.contentLength, name, v + [ch], lenient)
  {
    assert (v + [ch])[..|v|] == v;
    if ch == ' ' { IsLengthSnoc(v, f.contentLength, ch); }
  }

  /** What a matcher says stays true when the value grows by a byte. */
  lemma ValueByteFits(m: Matcher, f: Framing, name: Text, v: Text, ch: char, lenient: bool)
    requires ValueFits(m, f.contentLength, name, v, lenient) && ch != CR && (lenient || IsHeaderChar(ch))
    requires m.header.CodingStart? || m.header.OptionStart? ==> m.index == 0
    requires m.header.CodingMatching? ==> m.index + 1 < |CHUNKED|
    requires m.header.OptionMatching? ==> m.index + 1 < |OptionText(m.header.option)|
    ensures var r := ValueByte(m, f, ch); r.Head? ==> ValueFits(r.m, r.f.contentLength, name, v + [ch], lenient)
  {
    hide LengthByte, HeaderWords.TokenByte;
    match m.header
    case General =>
    case LengthNum => LengthByteFits(m, f, name, v, ch, lenient);
    case LengthWs => if ch == ' ' { IsLengthSnoc(v, f.contentLength, ch); }
    case CodingStart => CodingStartFits(m, f.contentLength, name, v, ch, lenient);
    case CodingMatching => CodingWordFits(m, f.contentLength, name, v, ch, lenient);
    case CodingToken => CodingEndFits(m, f.contentLength, name, v, ch, lenient);
    case CodingChunked => CodingEndFits(m, f.contentLength, name, v, ch, lenient);
    case OptionStart => OptionStartFits(m, f.contentLength, name, v, ch, lenient);
    case OptionMatching(_) => OptionWordFits(m, f.contentLength, name, v, ch, lenient);
    case OptionToken => OptionEndFits(m, f.contentLength, name, v, ch, lenient);
    case OptionMatched(_) => OptionEndFits(m, f.contentLength, name, v, ch, lenient);
  }

  lemma DecimalOne(ch: char)
    requires IsNum(ch)
    ensures AllDigits([ch]) && Decimal([ch]) == Digit(ch)
  {
    assert [ch][..|[ch]| - 1] == [];
  }

  /** What the matcher says after the first byte of a value. */
  lemma FirstValueByteFits(m: Matcher, f: Framing, name: Text, ch: char, lenient: bool)
    requires name != [] && NameFits(m, FoldAll(name)) && ch != CR
    ensures var r := ValueStart(m.header, f, ch); r.Head? ==> ValueFits(r.m, r.f.contentLength, name, [ch], lenient)
  {
    NameRecognised(m, name);
    LengthIsApart(name);
    hide NameFits, HeaderOf, FoldAll, IsName, IsConnection, Element, Decimal, AllDigits, IsLength, LastElementIs, CHUNKED, OptionText, Lower;
    if IsNum(ch) { DecimalOne(ch); }
    match m.header
    case Matched(n) =>
      match n {
      case TransferEncoding => FirstCodingByte(ch, lenient);
      case Connection => FirstOptionByte(ch, lenient);
      case _ =>
      }
    case _ =>
  }

  lemma FirstCodingByte(ch: char, lenient: bool)
    requires ch != CR
    ensures Lower(ch) == 'c' ==> 0 < |CHUNKED| && FoldAll(Element([ch], lenient)) == CHUNKED[..1]
  {
    ListWords();
    hide CHUNKED, FoldAll, Lower;
    assert [] + [ch] == [ch];
    if Lower(ch) == 'c' { FirstWordByteFits(CHUNKED, [], ch, lenient); }
  }

  lemma FirstOptionByte(ch: char, lenient: bool)
    requires ch != CR
    ensures forall o :: |OptionText(o)| > 1 && (Lower(ch) == OptionText(o)[0] ==> FoldAll(Element([ch], lenient)) == OptionText(o)[..1])
    ensures OptionText(KeepAliveOption)[0] == 'k' && OptionText(CloseOption)[0] == 'c' && OptionText(UpgradeOption)[0] == 'u'
  {
    FirstOfOption([], ch, lenient);
    assert [] + [ch] == [ch];
  }

  /** A folded line goes on with a blank. */
  lemma FoldedLineFits(m: Matcher, f: Framing, name: Text, v: Text, ch: char, lenient: bool)
    requires ValueFits(m, f.contentLength, name, v, lenient) && IsBlank(ch) && !m.header.LengthNum?
    ensures var r := ValueStart(m.header, f, ch); r.Head? ==> ValueFits(r.m, r.f.contentLength, name, v + [ch], lenient)
  {
    LengthIsApart(name);
    ElementSnoc(v, ch, lenient);
    if m.header.LengthWs? { IsLengthSnoc(v, f.contentLength, ch); }
  }
}
