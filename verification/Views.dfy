/** What the header matcher knows about the names and values reported, over every visit. */
module Views {
  import opened Bytes
  import opened Types
  import opened UrlChars
  import opened HeaderWords
  import opened Table
  import opened Runs
  import opened Invariants
  import opened Shape
  import opened HeaderText

  /** The header line a trace ends in. */
  datatype View = Naming(name: Text) | Valuing(name: Text, value: Text) | Elsewhere

  function ViewOf(t: Trace): View {
    if t != [] && t[|t| - 1].Data? && t[|t| - 1].part.Field? then Naming(t[|t| - 1].text)
    else if |t| > 1 && t[|t| - 1].Data? && t[|t| - 1].part.Value? && t[|t| - 2].Data? && t[|t| - 2].part.Field?
    then Valuing(t[|t| - 2].text, t[|t| - 1].text)
    else Elsewhere
  }

  function ViewNext(w: View, e: Event): View {
    match e
    case Note(_) => Elsewhere
    case Data(k, x) =>
      if k.Field? then Naming(if w.Naming? then w.name + x else x)
      else if k.Value? then
        (match w
         case Naming(f) => Valuing(f, x)
         case Valuing(f, v) => Valuing(f, v + x)
         case Elsewhere => Elsewhere)
      else Elsewhere
  }

  lemma ViewAdd(t: Trace, e: Event)
    ensures ViewOf(Add(t, e)) == ViewNext(ViewOf(t), e)
  {
    var u := Add(t, e);
    if |u| == |t| { assert u[..|u| - 1] == t[..|t| - 1]; } else { assert u[..|u| - 1] == t; }
  }

  function ViewAfter(w: View, a: Act, ch: char): View {
    var w1 := if a.take.Some? then ViewNext(w, Data(a.take.value, [ch])) else w;
    var w2 := if a.close.Some? && !a.close.value.Body? then ViewNext(w1, Data(a.close.value, [])) else w1;
    if a.notice.Some? then ViewNext(w2, Note(a.notice.value)) else w2
  }

  lemma ViewReport(t: Trace, a: Act, ch: char)
    ensures ViewOf(Report(t, a, ch)) == ViewAfter(ViewOf(t), a, ch)
  {
    hide ViewOf, Runs.Add;
    var t1 := if a.take.Some? then Add(t, Data(a.take.value, [ch])) else t;
    if a.take.Some? { ViewAdd(t, Data(a.take.value, [ch])); }
    var t2 := if a.close.Some? && !a.close.value.Body? then Add(t1, Data(a.close.value, [])) else t1;
    if a.close.Some? && !a.close.value.Body? { ViewAdd(t1, Data(a.close.value, [])); }
    if a.notice.Some? { ViewAdd(t2, Note(a.notice.value)); }
  }

  /** The matcher and the header line agree. */
  predicate TextFits(s: Parser, w: View) {
    match s.state
    case InName(_) => w.Naming? && w.name != [] && NameFits(s.matcher, FoldAll(w.name))
    case InValue(_) => w.Valuing? && ValueFits(s.matcher, s.framing.contentLength, w.name, w.value, s.config.lenient)
    case _ => !w.Naming?
  }

  /** The same between the visits of a byte. */
  predicate TextFitsAt(s: Parser, w: View, ch: char) {
    TextFits(s, w) && (s.state == InValue(HeaderValueStart) ==> IsBlank(ch) && !s.matcher.header.LengthNum?)
  }

  predicate Keeps(a: Act, w: View, ch: char) {
    var w' := ViewAfter(w, a, ch);
    && (a.next.Again? ==> TextFitsAt(a.s, w', ch))
    && (a.next.Advance? || a.next.Exit? ==> TextFits(a.s, w') && a.s.state != InValue(HeaderValueStart))
  }

  lemma FieldStartViews(s: Parser, w: View, ch: char)
    requires s.state.HeaderFieldStart? && TextFits(s, w)
    ensures Keeps(VisitFieldStart(s, ch), w, ch)
  {
    hide NameFits;
    if Token(ch) != NUL {
      FirstByteFits(Token(ch));
      assert FoldAll([ch]) == [Token(ch)];
    }
  }

  lemma FieldViews(s: Parser, w: View, ch: char)
    requires s.state == InName(HeaderField) && TextFits(s, w)
    ensures Keeps(VisitField(s, ch), w, ch)
  {
    hide NameFits, HeaderWords.NameByte;
    if Token(ch) != NUL {
      NextByteFits(s.matcher, FoldAll(w.name), Token(ch));
      FoldSnoc(w.name, ch);
    }
    assert w.name + [] == w.name;
  }

  lemma NameViews(s: Parser, w: View, ch: char)
    requires s.state.InName? && TextFits(s, w)
    ensures Keeps(VisitName(s, s.state.name, ch), w, ch)
  {
    hide NameFits, Table.VisitField, Table.ValueStart, Table.LineFlags, ValueFits;
    if s.state.name.HeaderField? { FieldViews(s, w, ch); }
    if ch != CR { FirstValueByteFits(s.matcher, s.framing, w.name, ch, s.config.lenient); }
  }

  lemma ValueViews(s: Parser, w: View, ch: char)
    requires s.state.InValue? && Mid(s) && TextFitsAt(s, w, ch)
    ensures Keeps(VisitValue(s, s.state.value, ch), w, ch)
  {
    hide NameFits, Table.ValueStart, Table.ValueByte, Table.LineFlags, ValueFits, Types.MethodText, FlagsOk, LengthMatchesFlag;
    if s.state.value.HeaderValueStart? { FoldedLineFits(s.matcher, s.framing, w.name, w.value, ch, s.config.lenient); }
    if s.state.value.HeaderValue? {
      if ch != CR && ch != LF && (s.config.lenient || IsHeaderChar(ch)) {
        MatcherBounds(s.matcher, s.framing);
        ValueByteFits(s.matcher, s.framing, w.name, w.value, ch, s.config.lenient);
      }
      assert w.value + [] == w.value;
    }
    if s.state.value.HeaderValueLws? && s.matcher.header.LengthNum? { LengthFolds(s.matcher, s.framing, w, s.config.lenient); }
  }

  lemma MatcherBounds(m: Matcher, f: Framing)
    requires HeadOk(m, f)
    ensures m.header.CodingStart? || m.header.OptionStart? ==> m.index == 0
    ensures m.header.CodingMatching? ==> m.index + 1 < |CHUNKED|
    ensures m.header.OptionMatching? ==> m.index + 1 < |OptionText(m.header.option)|
  {
    hide FlagsOk, LengthMatchesFlag;
    ListWords();
  }

  lemma LengthFolds(m: Matcher, f: Framing, w: View, lenient: bool)
    requires w.Valuing? && m.header.LengthNum? && ValueFits(m, f.contentLength, w.name, w.value, lenient)
    ensures ValueFits(m.(header := LengthWs), f.contentLength, w.name, w.value, lenient)
  {
  }

  predicate OutsideHeader(a: Act) {
    Goes(a) ==> !a.s.state.InName? && !a.s.state.InValue? && a.take != Some(Field) && a.close != Some(Field)
  }

  lemma OutsideLine(s: Parser, ch: char)
    ensures s.state.Idle? ==> OutsideHeader(VisitIdle(s, s.state.idle, ch))
    ensures s.state.ResOrRespH? ==> OutsideHeader(VisitResOrRespH(s, ch))
    ensures s.state.ReqMethod? ==> OutsideHeader(VisitMethod(s, ch))
    ensures s.state.InUrl? ==> OutsideHeader(VisitUrl(s, s.state.url, ch))
    ensures s.state.InVersion? ==> OutsideHeader(VisitVersion(s, s.state.req, ch))
  {
    hide Types.MethodText, UrlChars.ParseUrlChar, Bytes.IsNum, Bytes.IsAlpha;
  }

  lemma OutsideStatusLine(s: Parser, ch: char)
    requires s.state.InStatusLine?
    ensures OutsideHeader(VisitStatusLine(s, s.state.res, ch))
  {
    hide Bytes.IsNum;
  }

  lemma OutsideBody(s: Parser, ch: char)
    ensures s.state.HeadersAlmostDone? ==> OutsideHeader(VisitHeadersAlmostDone(s, ch))
    ensures s.state.HeadersDone? ==> OutsideHeader(VisitHeadersDone(s, ch))
    ensures s.state.InChunk? ==> OutsideHeader(VisitChunk(s, s.state.chunk, ch))
    ensures s.state.BodyIdentity? ==> OutsideHeader(VisitBody(s))
    ensures s.state.MessageDone? ==> OutsideHeader(VisitMessageDone(s))
  {
    hide Table.NewMessage;
  }

  lemma OutsideKeeps(a: Act, w: View, ch: char)
    requires OutsideHeader(a) && !w.Naming? && !a.next.Crash?
    ensures Keeps(a, w, ch)
  {
  }

  /** Every visit keeps the matcher and the reported header line in agreement. */
  lemma VisitText(s: Parser, w: View, ch: char)
    requires Mid(s) && TextFitsAt(s, w, ch)
    ensures Keeps(Visit(s, ch), w, ch)
  {
    hide Keeps, OutsideHeader, Mid;
    VisitKeeps(s, ch);
    match s.state
    case HeaderFieldStart => FieldStartViews(s, w, ch);
    case InName(_) => NameViews(s, w, ch);
    case InValue(_) => ValueViews(s, w, ch);
    case BodyIdentityEof => OutsideBody(s, ch); EofText(s, w, ch);
    case InStatusLine(_) => OutsideStatusLine(s, ch); OutsideKeeps(Visit(s, ch), w, ch);
    case _ => OutsideLine(s, ch); OutsideBody(s, ch); OutsideKeeps(Visit(s, ch), w, ch);
  }

  lemma EofText(s: Parser, w: View, ch: char)
    requires s.state.BodyIdentityEof?
    ensures Keeps(Begin(s, Body), w, ch)
  {
  }
}
