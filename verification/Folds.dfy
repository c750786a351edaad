/** Transfer-Encoding lines that are folded: the value goes on in lines that begin with a blank. */
module Folds {
  import opened Bytes
  import opened Types
  import opened HeaderWords
  import opened Table
  import opened Runs
  import opened HeaderText
  import opened Codings
  import opened HeaderLines

  /** A line end inside a value, the blank after it and the text of the line. */
  datatype Fold = Fold(eol: Eol, blank: char, text: Text)

  predicate AreFolds(fs: seq<Fold>, lenient: bool) {
    forall i :: 0 <= i < |fs| ==> IsBlank(fs[i].blank) && IsTaken(fs[i].text, lenient)
  }

  function FoldsText(fs: seq<Fold>): Text {
    if fs == [] then [] else fs[0].eol.Text() + ([fs[0].blank] + (fs[0].text + FoldsText(fs[1..])))
  }

  /** What is reported of the folds: their blanks and texts, without the line ends. */
  function FoldsValue(fs: seq<Fold>): Text {
    if fs == [] then [] else [fs[0].blank] + fs[0].text + FoldsValue(fs[1..])
  }

  /** The last element of a folded value. Only behind a comma may a value be folded: anywhere else the parser stops
      to look. The blank of a fold is skipped, whatever it is. */
  function LastFolded(last: Option<Text>, fs: seq<Fold>): Option<Text>
    decreases |fs|
  {
    if fs == [] then last else LastFolded(if last == Some([]) then LastAfter(fs[0].text) else None, fs[1..])
  }

  predicate FoldedListsChunked(v: Text, fs: seq<Fold>) {
    var last := LastFolded(LastElement(v), fs); last.Some? && IsChunked(last.value)
  }

  /** The matcher after the blank of a fold, and after folds. */
  function Folded(m: Matcher): Matcher {
    Matcher(if m.header.CodingStart? then CodingStart else General, 0)
  }

  function FoldsMatch(m: Matcher, fs: seq<Fold>): Matcher
    decreases |fs|
  {
    if fs == [] then m else FoldsMatch(Tokens(Folded(m), fs[0].text), fs[1..])
  }

  lemma {:induction false} FoldsKnow(m: Matcher, last: Option<Text>, fs: seq<Fold>)
    requires Knows(m.header, last)
    ensures Knows(FoldsMatch(m, fs).header, LastFolded(last, fs))
    decreases |fs|
  {
    if fs != [] {
      var x := fs[0].text;
      if m.header.CodingStart? {
        AfterExactly(x);
        FoldsKnow(Tokens(Folded(m), x), LastAfter(x), fs[1..]);
      } else {
        GeneralStays(Folded(m), x);
        NobodyKnows(Tokens(Folded(m), x).header);
        FoldsKnow(Tokens(Folded(m), x), None, fs[1..]);
      }
    }
  }

  /** A folded value is found to be chunked exactly when its last element is "chunked", the parser begins to match
      there, and the value is folded only behind commas. */
  lemma FoldedExactly(v: Text, fs: seq<Fold>)
    requires v != []
    ensures FoldsMatch(CodingAfter(v), fs).header.CodingChunked? <==> FoldedListsChunked(v, fs)
  {
    hide CodingAfter, LastElement, FoldsMatch, IsChunked;
    CodingExactly(v);
    assert Knows(CodingAfter(v).header, LastElement(v));
    FoldsKnow(CodingAfter(v), LastElement(v), fs);
  }

  lemma FoldByte(s: Parser, t: Trace, ch: char)
    requires s.state == InValue(HeaderValueLws) && IsCoding(s.matcher.header) && IsBlank(ch)
    ensures Byte(s, t, ch) == Point(s.(state := InValue(HeaderValue), matcher := Folded(s.matcher)), Add(t, Data(Value, [ch])), Advance)
  {
    hide Add, Lower, LineFlags;
    var a := Visit(s, ch);
    assert a == Redo(s.(state := InValue(HeaderValueStart)));
    SilentThenAgain(s, t, ch);
  }

  lemma FoldRun(s: Parser, t: Trace, ch: char, y: Text)
    requires s.state == InValue(HeaderValueLws) && IsCoding(s.matcher.header) && IsBlank(ch) && s.nread < s.config.maxHeaderSize
    ensures Run(s, t, [ch] + y)
         == Run(s.(state := InValue(HeaderValue), matcher := Folded(s.matcher), nread := s.nread + 1), Add(t, Data(Value, [ch])), y)
  {
    hide Run, Byte, Visit, Add, Folded, IsCoding, IsBlank;
    FoldByte(Counted(s), t, ch);
    RunByte(s, t, ch, y);
  }

  lemma {:induction false} CodingOn(s: Parser, t: Trace, m: Matcher, k: nat, x: Text, y: Text)
    requires IsCoding(m.header) && IsTaken(x, s.config.lenient) && s.nread + k + |x| <= s.config.maxHeaderSize && EndsIn(t, Value)
    ensures Run(InCodingValue(s, m, k), t, x + y) == Run(InCodingValue(s, Tokens(m, x), k + |x|), Add(t, Data(Value, x)), y)
    ensures IsCoding(Tokens(m, x).header)
    decreases |x|
  {
    hide *;
    if x == [] {
      assert x + y == y;
      AddEnds(t, Value, []);
      NoTokens(m);
    } else {
      var ch, rest := x[0], x[1..];
      HeadAndTail(x, y);
      TakenHead(x, s.config.lenient);
      NextCoding(s, t, m, k, ch, rest + y);
      AddEnds(t, Value, [ch]);
      CodingOn(s, Add(t, Data(Value, [ch])), TokenByte(m, ch), k + 1, rest, y);
      TokensOne(m, ch, rest);
      AddPieces(t, Value, [ch], rest);
    }
  }

  lemma TakenHead(x: Text, lenient: bool)
    requires x != [] && IsTaken(x, lenient)
    ensures IsTaken([x[0]], lenient) && IsTaken(x[1..], lenient)
  {
    hide IsHeaderChar;
  }

  lemma LineEndInValue(s: Parser, t: Trace, e: Eol, z: Text)
    requires s.state == InValue(HeaderValue) && EndsIn(t, Value) && s.nread + |e.Text()| <= s.config.maxHeaderSize
    ensures Run(s, t, e.Text() + z) == Run(s.(state := InValue(HeaderValueLws), nread := s.nread + |e.Text()|), t, z)
  {
    hide Run, EndsIn;
    if e.Feed? { ValueFeed(s, t, z); } else { ValueReturn(s, t, z); }
  }

  lemma OneFold(s: Parser, t: Trace, m: Matcher, k: nat, f: Fold, y: Text)
    requires IsCoding(m.header) && EndsIn(t, Value) && IsBlank(f.blank) && IsTaken(f.text, s.config.lenient)
    requires s.nread + k + |f.eol.Text()| + 1 + |f.text| <= s.config.maxHeaderSize
    ensures Run(InCodingValue(s, m, k), t, f.eol.Text() + ([f.blank] + (f.text + y)))
         == Run(InCodingValue(s, Tokens(Folded(m), f.text), k + |f.eol.Text()| + 1 + |f.text|), Add(t, Data(Value, [f.blank] + f.text)), y)
    ensures IsCoding(Tokens(Folded(m), f.text).header)
  {
    hide *;
    var e, y1 := |f.eol.Text()|, f.text + y;
    var z := InCodingValue(s, m, k);
    FoldSteps(s, m, k, e);
    LineEndInValue(z, t, f.eol, [f.blank] + y1);
    FoldRun(z.(state := InValue(HeaderValueLws), nread := z.nread + e), t, f.blank, y1);
    AddEnds(t, Value, [f.blank]);
    CodingOn(s, Add(t, Data(Value, [f.blank])), Folded(m), k + e + 1, f.text, y);
    AddPieces(t, Value, [f.blank], f.text);
  }

  lemma FoldSteps(s: Parser, m: Matcher, k: nat, e: nat)
    ensures var z := InCodingValue(s, m, k);
            && z.state == InValue(HeaderValue) && z.nread == s.nread + k && z.config == s.config && z.matcher == m
            && z.(state := InValue(HeaderValueLws), nread := z.nread + e)
                 .(state := InValue(HeaderValue), matcher := Folded(m), nread := z.nread + e + 1) == InCodingValue(s, Folded(m), k + e + 1)
            && IsCoding(Folded(m).header)
  {
  }

  lemma {:induction false} FoldsRun(s: Parser, t: Trace, m: Matcher, k: nat, fs: seq<Fold>, y: Text)
    requires IsCoding(m.header) && EndsIn(t, Value) && AreFolds(fs, s.config.lenient) && s.nread + k + |FoldsText(fs)| <= s.config.maxHeaderSize
    ensures Run(InCodingValue(s, m, k), t, FoldsText(fs) + y)
         == Run(InCodingValue(s, FoldsMatch(m, fs), k + |FoldsText(fs)|), Add(t, Data(Value, FoldsValue(fs))), y)
    ensures IsCoding(FoldsMatch(m, fs).header)
    decreases |fs|
  {
    hide *;
    if fs == [] {
      NoFolds(m, y);
      AddEnds(t, Value, []);
    } else {
      var f, rest := fs[0], fs[1..];
      FoldsApart(m, fs, y, s.config.lenient);
      OneFold(s, t, m, k, f, FoldsText(rest) + y);
      var t1 := Add(t, Data(Value, [f.blank] + f.text));
      AddEnds(t, Value, [f.blank] + f.text);
      FoldsRun(s, t1, Tokens(Folded(m), f.text), k + |f.eol.Text()| + 1 + |f.text|, rest, y);
      AddPieces(t, Value, [f.blank] + f.text, FoldsValue(rest));
    }
  }

  lemma NoFolds(m: Matcher, y: Text)
    ensures FoldsText([]) == [] == FoldsValue([]) && FoldsText([]) + y == y && FoldsMatch(m, []) == m
  {
  }

  lemma FoldsApart(m: Matcher, fs: seq<Fold>, y: Text, lenient: bool)
    requires fs != [] && AreFolds(fs, lenient)
    ensures var f, rest := fs[0], fs[1..];
            && IsBlank(f.blank) && IsTaken(f.text, lenient) && AreFolds(rest, lenient)
            && FoldsText(fs) + y == f.eol.Text() + ([f.blank] + (f.text + (FoldsText(rest) + y)))
            && |FoldsText(fs)| == |f.eol.Text()| + 1 + |f.text| + |FoldsText(rest)|
            && FoldsValue(fs) == [f.blank] + f.text + FoldsValue(rest)
            && FoldsMatch(m, fs) == FoldsMatch(Tokens(Folded(m), f.text), rest)
  {
    hide IsBlank, IsTaken, Folded, Tokens;
    FoldPieces(fs[0].eol.Text(), fs[0].blank, fs[0].text, FoldsText(fs[1..]), y);
  }

  lemma FoldPieces(e: Text, b: char, x: Text, r: Text, y: Text)
    ensures (e + ([b] + (x + r))) + y == e + ([b] + (x + (r + y))) && |e + ([b] + (x + r))| == |e| + 1 + |x| + |r|
  {
    assert (x + r) + y == x + (r + y);
    assert ([b] + (x + r)) + y == [b] + ((x + r) + y);
  }

  /** The struct inside a folded value, after all of it. */
  function InFolds(s: Parser, v: Text, fs: seq<Fold>): Parser
    requires v != []
  {
    InCodingValue(s, FoldsMatch(CodingAfter(v), fs), |v| + |FoldsText(fs)|)
  }

  lemma FoldedSoFar(s: Parser, t: Trace, v: Text, fs: seq<Fold>, y: Text)
    requires s.state == InName(HeaderValueDiscardWs) && s.matcher.header == Matched(TransferEncoding)
    requires v != [] && !IsBlank(v[0]) && IsTaken(v, s.config.lenient) && AreFolds(fs, s.config.lenient) && EndsIn(t, Field)
    requires s.nread + |v| + |FoldsText(fs)| <= s.config.maxHeaderSize
    ensures Run(s, t, v + (FoldsText(fs) + y)) == Run(InFolds(s, v, fs), t + [Data(Value, v + FoldsValue(fs))], y)
    ensures IsCoding(FoldsMatch(CodingAfter(v), fs).header)
  {
    hide *;
    CodingSoFar(s, t, v, FoldsText(fs) + y);
    AddEnds(t, Value, v);
    FoldsRun(s, Add(t, Data(Value, v)), CodingAfter(v), |v|, fs, y);
    AddPieces(t, Value, v, FoldsValue(fs));
    FieldThenValue(t, v + FoldsValue(fs));
    FoldedEnd(s, v, fs, 0);
  }

  /** The struct after a folded value and a line end of `n` bytes. */
  function PastFolds(s: Parser, v: Text, fs: seq<Fold>, n: nat): Parser
    requires v != []
  {
    s.(state := HeaderFieldStart, matcher := FoldsMatch(CodingAfter(v), fs), nread := s.nread + |v| + |FoldsText(fs)| + n,
       framing := Chunked(s.framing, FoldedListsChunked(v, fs)))
  }

  /** The value, its folds and its last line end: the message is chunked if it was, or if the folded value lists
      "chunked" where the parser looks. */
  lemma FoldedCodingLine(s: Parser, t: Trace, v: Text, fs: seq<Fold>, e: Eol, y: Text)
    requires s.state == InName(HeaderValueDiscardWs) && s.matcher.header == Matched(TransferEncoding) && s.framing.usesTransferEncoding
    requires v != [] && !IsBlank(v[0]) && IsTaken(v, s.config.lenient) && AreFolds(fs, s.config.lenient) && EndsIn(t, Field) && StartsLine(y)
    requires s.nread + |v| + |FoldsText(fs)| + |e.Text()| < s.config.maxHeaderSize
    ensures Run(s, t, v + (FoldsText(fs) + (e.Text() + y)))
         == Run(PastFolds(s, v, fs, |e.Text()|), t + [Data(Value, v + FoldsValue(fs))], y)
  {
    hide *;
    FoldedSoFar(s, t, v, fs, e.Text() + y);
    FieldThenValue(t, v + FoldsValue(fs));
    FoldedEnds(s, t + [Data(Value, v + FoldsValue(fs))], v, fs, e, y);
  }

  lemma FoldedEnds(s: Parser, t: Trace, v: Text, fs: seq<Fold>, e: Eol, y: Text)
    requires v != [] && IsCoding(FoldsMatch(CodingAfter(v), fs).header) && EndsIn(t, Value) && StartsLine(y)
    requires s.nread + |v| + |FoldsText(fs)| + |e.Text()| < s.config.maxHeaderSize && s.framing.usesTransferEncoding
    ensures Run(InFolds(s, v, fs), t, e.Text() + y) == Run(PastFolds(s, v, fs, |e.Text()|), t, y)
  {
    hide *;
    FoldedEnd(s, v, fs, |e.Text()|);
    CodingEnds(InFolds(s, v, fs), t, e, y);
  }

  lemma FoldedEnd(s: Parser, v: Text, fs: seq<Fold>, n: nat)
    requires v != []
    ensures var z := InFolds(s, v, fs);
            && z == InCodingValue(s, FoldsMatch(CodingAfter(v), fs), |v| + |FoldsText(fs)|)
            && z.state == InValue(HeaderValue) && z.nread == s.nread + |v| + |FoldsText(fs)| && z.config == s.config && z.framing == s.framing
            && z.matcher == FoldsMatch(CodingAfter(v), fs)
            && z.(state := HeaderFieldStart, nread := z.nread + n, framing := Chunked(z.framing, z.matcher.header.CodingChunked?))
                 == PastFolds(s, v, fs, n)
  {
    FoldedExactly(v, fs);
    hide Chunked, FoldsMatch, CodingAfter, FoldedListsChunked, FoldsText;
  }
}
