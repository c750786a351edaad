/** The message parser takes every URL that the URL parser takes. */
module UrlAgreement {
  import opened Bytes
  import opened Types
  import opened UrlChars
  import opened Table
  import opened Runs
  import opened UrlFields
  import opened UrlParser

  lemma FirstByte(s: Parser, t: Trace, ch: char)
    requires s.state == InUrl(ReqSpacesBeforeUrl) && ParseUrlChar(Start(s.line.verb.CONNECT?), ch).Some?
    ensures Byte(s, t, ch)
         == Point(s.(state := InUrl(ParseUrlChar(Start(s.line.verb.CONNECT?), ch).value)), Add(t, Data(Part.Url, [ch])), Advance)
  {
    hide ParseUrlChar;
  }

  lemma NextByte(s: Parser, t: Trace, ch: char)
    requires s.state.InUrl? && !s.state.url.ReqSpacesBeforeUrl? && ParseUrlChar(s.state.url, ch).Some?
    ensures Byte(s, t, ch) == Point(s.(state := InUrl(ParseUrlChar(s.state.url, ch).value)), Add(t, Data(Part.Url, [ch])), Advance)
  {
    hide ParseUrlChar;
  }

  lemma SpaceAfter(s: Parser, t: Trace)
    requires s.state.InUrl? && UrlMayEnd(s.state.url)
    ensures Byte(s, t, ' ') == Point(s.(state := InVersion(ReqHttpStart)), Add(t, Data(Part.Url, [])), Advance)
  {
    hide ParseUrlChar;
  }

  /** The struct after the text `x` of a URL. */
  function InUrlAfter(s: Parser, x: Text): Parser
    requires x != [] && StateAfter(Start(s.line.verb.CONNECT?), x).Some?
  {
    s.(state := InUrl(StateAfter(Start(s.line.verb.CONNECT?), x).value), nread := s.nread + |x|)
  }

  lemma UrlMore(s: Parser, t: Trace, x: Text, y: Text)
    requires s.state == InUrl(ReqSpacesBeforeUrl) && s.nread + |x| <= s.config.maxHeaderSize
    requires |x| > 1 && StateAfter(Start(s.line.verb.CONNECT?), x).Some?
    ensures StateAfter(Start(s.line.verb.CONNECT?), x[..|x| - 1]).Some?
    ensures Run(InUrlAfter(s, x[..|x| - 1]), t, [x[|x| - 1]] + y)
         == Run(InUrlAfter(s, x), Add(t, Data(Part.Url, [x[|x| - 1]])), y)
  {
    hide Visit, Byte, Run, ParseUrlChar, Add;
    var init, ch := x[..|x| - 1], x[|x| - 1];
    NotSpaces(s, init);
    var s1 := InUrlAfter(s, init);
    NextByte(Counted(s1), t, ch);
    RunByte(s1, t, ch, y);
  }

  lemma {:induction false} UrlSoFar(s: Parser, t: Trace, x: Text, y: Text)
    requires s.state == InUrl(ReqSpacesBeforeUrl) && s.nread + |x| <= s.config.maxHeaderSize
    requires x != [] && StateAfter(Start(s.line.verb.CONNECT?), x).Some?
    ensures Run(s, t, x + y) == Run(InUrlAfter(s, x), Add(t, Data(Part.Url, x)), y)
    decreases |x|
  {
    hide Visit, Byte, Run, ParseUrlChar, Add;
    var n := |x| - 1;
    var init, ch := x[..n], x[n];
    LastApart(x, y);
    if n == 0 {
      FirstByte(Counted(s), t, ch);
      RunByte(s, t, ch, y);
    } else {
      UrlSoFar(s, t, init, [ch] + y);
      UrlMore(s, Add(t, Data(Part.Url, init)), x, y);
      AddPieces(t, Part.Url, init, [ch]);
    }
  }

  lemma NotSpaces(s: Parser, x: Text)
    requires x != [] && StateAfter(Start(s.line.verb.CONNECT?), x).Some?
    ensures !InUrlAfter(s, x).state.url.ReqSpacesBeforeUrl?
  {
    hide ParseUrlChar;
  }

  /** A byte of the host is followed only by states in which a URL may end. */
  lemma EndsAfterHost(start: UrlState, x: Text, i: nat)
    requires i < |x| && StateAfter(start, x).Some? && FieldOf(StateAfter(start, x[..i + 1])) == Some(UF_HOST)
    ensures UrlMayEnd(StateAfter(start, x).value)
  {
    hide StateAfter;
    ProgressGrows(start, x, i + 1);
  }

  lemma EndsForConnect(start: UrlState, h: HostState, x: Text)
    requires StateAfter(start, x).Some? && Some(UF_HOST) in Fine(start, h, x)
    ensures UrlMayEnd(StateAfter(start, x).value)
  {
    hide StateAfter, HostAfter, Authority, UrlMayEnd, Fine;
    var i :| 0 <= i < |x| && Fine(start, h, x)[i] == Some(UF_HOST);
    FineAt(start, h, x, i);
    EndsAfterHost(start, x, i);
  }

  lemma EndsWithoutConnect(x: Text)
    requires x != [] && StateAfter(ReqSpacesBeforeUrl, x).Some?
    requires var ls := Coarse(ReqSpacesBeforeUrl, x); Some(UF_SCHEMA) in ls ==> Some(UF_HOST) in ls
    ensures UrlMayEnd(StateAfter(ReqSpacesBeforeUrl, x).value)
  {
    var start, ls := ReqSpacesBeforeUrl, Coarse(ReqSpacesBeforeUrl, x);
    CoarseAt(start, x, 0);
    ProgressGrows(start, x, 1);
    FirstState(x);
    hide StateAfter, Coarse;
    if ls[0] == Some(UF_SCHEMA) {
      var i :| 0 <= i < |x| && ls[i] == Some(UF_HOST);
      CoarseAt(start, x, i);
      EndsAfterHost(start, x, i);
    }
  }

  lemma FirstState(x: Text)
    requires x != []
    ensures StateAfter(ReqSpacesBeforeUrl, x[..1]) in {None, Some(ReqPath), Some(ReqSchema)}
  {
    assert x[..1][..0] == [];
  }

  /** An accepted URL does not stop before its host or path. */
  lemma MayEnd(x: Text, isConnect: bool)
    requires IsUrl(x, isConnect)
    ensures UrlMayEnd(StateAfter(Start(isConnect), x).value)
  {
    hide HostAfter, Pick, Fine, HeaderText.Decimal, StateAfter, Coarse, SeenAt, UrlMayEnd;
    if isConnect {
      EndsForConnect(Start(isConnect), StartHost(SeenAt(Start(isConnect), x)), x);
    } else {
      EndsWithoutConnect(x);
    }
  }

  /** Every URL that http_parser_parse_url accepts, followed by a space, takes http_parser_execute from
      before the URL to before the version, and is reported as it is. */
  lemma UrlIsTaken(s: Parser, t: Trace, x: Text, y: Text)
    requires s.state == InUrl(ReqSpacesBeforeUrl) && IsUrl(x, s.line.verb.CONNECT?)
    requires s.nread + |x| + 1 <= s.config.maxHeaderSize
    ensures Run(s, t, x + ([' '] + y))
         == Run(s.(state := InVersion(ReqHttpStart), nread := s.nread + |x| + 1), Add(t, Data(Part.Url, x)), y)
  {
    hide *;
    UrlIsText(x, s.line.verb.CONNECT?);
    MayEnd(x, s.line.verb.CONNECT?);
    UrlSoFar(s, t, x, [' '] + y);
    UrlDone(s, Add(t, Data(Part.Url, x)), x, y);
    AddPieces(t, Part.Url, x, []);
    assert x + [] == x;
  }

  lemma UrlIsText(x: Text, isConnect: bool)
    requires IsUrl(x, isConnect)
    ensures x != [] && StateAfter(Start(isConnect), x).Some?
  {
    hide IsHostAndPort, Fine, Coarse, HostAfter, Pick, HeaderText.Decimal, StateAfter;
  }

  lemma UrlDone(s: Parser, t: Trace, x: Text, y: Text)
    requires x != [] && StateAfter(Start(s.line.verb.CONNECT?), x).Some? && UrlMayEnd(StateAfter(Start(s.line.verb.CONNECT?), x).value)
    requires s.nread + |x| + 1 <= s.config.maxHeaderSize
    ensures Run(InUrlAfter(s, x), t, [' '] + y)
         == Run(s.(state := InVersion(ReqHttpStart), nread := s.nread + |x| + 1), Add(t, Data(Part.Url, [])), y)
  {
    hide Visit, Byte, Run, StateAfter, Add, UrlMayEnd;
    SpaceAfter(Counted(InUrlAfter(s, x)), t);
    RunByte(InUrlAfter(s, x), t, ' ', y);
  }
}
