/** The request methods: every known method is recognised by its text. */
module Verbs {
  import opened Bytes
  import opened Types
  import opened Table
  import opened Runs

  predicate IsVerbChar(c: char) {
    'A' <= c <= 'Z' || c == '-'
  }

  /** The method after one more byte. */
  function VerbByte(v: Method, i: nat, ch: char): Option<Method> {
    if i > |MethodText(v)| then None
    else if ch == At(MethodText(v), i) then Some(v)
    else OtherVerb(v, i, ch)
  }

  /** The method after some bytes. */
  function Verb(x: Text): Option<Method> {
    if x == [] then None
    else if |x| == 1 then FirstVerb(x[0])
    else match Verb(x[..|x| - 1])
      case None => None
      case Some(v) => VerbByte(v, |x| - 1, x[|x| - 1])
  }

  /** The method whose text a method's text leaves, and where; itself and 0 when its first byte decides. */
  function Branch(m: Method): (Method, nat) {
    match m
    case PUT => (POST, 1)
    case PATCH => (POST, 1)
    case PROPFIND => (POST, 1)
    case PURGE => (PUT, 2)
    case CHECKOUT => (CONNECT, 1)
    case COPY => (CONNECT, 2)
    case MOVE => (MKCOL, 1)
    case MERGE => (MKCOL, 1)
    case MSEARCH => (MKCOL, 1)
    case MKACTIVITY => (MKCOL, 2)
    case MKCALENDAR => (MKCOL, 3)
    case SEARCH => (SUBSCRIBE, 1)
    case SOURCE => (SUBSCRIBE, 1)
    case REBIND => (REPORT, 2)
    case PROPPATCH => (PROPFIND, 4)
    case LINK => (LOCK, 1)
    case UNSUBSCRIBE => (UNLOCK, 2)
    case UNBIND => (UNLOCK, 2)
    case UNLINK => (UNLOCK, 3)
    case _ => (m, 0)
  }

  ghost predicate Fits(m: Method) {
    var (p, i) := Branch(m);
    && i < |MethodText(m)| && i <= |MethodText(p)|
    && (i == 0 ==> FirstVerb(MethodText(m)[0]) == Some(m))
    && (i > 0 ==>
          && Branch(p).1 < i && MethodText(m)[..i] == MethodText(p)[..i]
          && OtherVerb(p, i, MethodText(m)[i]) == Some(m) && MethodText(m)[i] != At(MethodText(p), i))
  }

  lemma FitsP()
    ensures Fits(PUT) && Fits(PATCH)
  {
  }

  lemma FitsPr()
    ensures Fits(PROPFIND) && Fits(PURGE)
  {
  }

  lemma FitsC()
    ensures Fits(CHECKOUT) && Fits(COPY)
  {
  }

  lemma FitsPp()
    ensures Fits(PROPPATCH)
  {
    assert "PROPPATCH"[..4] == "PROPFIND"[..4];
  }

  lemma FitsM()
    ensures Fits(MOVE) && Fits(MERGE) && Fits(MSEARCH)
  {
  }

  lemma FitsMk()
    ensures Fits(MKACTIVITY) && Fits(MKCALENDAR)
  {
  }

  lemma FitsS()
    ensures Fits(SEARCH) && Fits(SOURCE)
  {
  }

  lemma FitsRL()
    ensures Fits(REBIND) && Fits(LINK)
  {
  }

  lemma FitsU()
    ensures Fits(UNSUBSCRIBE) && Fits(UNBIND) && Fits(UNLINK)
  {
  }

  /** The methods that their first byte decides for. */
  lemma FitsEarly(m: Method)
    requires m.ACL? || m.BIND? || m.CONNECT? || m.DELETE? || m.GET? || m.HEAD? || m.LOCK? || m.MKCOL?
    ensures Fits(m)
  {
  }

  lemma FitsLate(m: Method)
    requires m.NOTIFY? || m.OPTIONS? || m.POST? || m.REPORT? || m.SUBSCRIBE? || m.TRACE? || m.UNLOCK?
    ensures Fits(m)
  {
  }

  lemma FitsFirst(m: Method)
    requires Branch(m).1 == 0
    ensures Fits(m)
  {
    hide Fits;
    if m.ACL? || m.BIND? || m.CONNECT? || m.DELETE? || m.GET? || m.HEAD? || m.LOCK? || m.MKCOL? {
      FitsEarly(m);
    } else {
      FitsLate(m);
    }
  }

  lemma BranchFits(m: Method)
    ensures Fits(m)
  {
    hide Fits;
    if Branch(m).1 == 0 {
      FitsFirst(m);
    } else {
      FitsP();
      FitsPr();
      FitsC();
      FitsPp();
      FitsM();
      FitsMk();
      FitsS();
      FitsRL();
      FitsU();
    }
  }

  /** Every beginning of a method's text, from the byte that decides for it on, leads to that method. */
  lemma {:induction false} VerbOfPrefix(m: Method, k: nat)
    requires Branch(m).1 < k <= |MethodText(m)|
    ensures Verb(MethodText(m)[..k]) == Some(m)
    decreases k
  {
    BranchFits(m);
    hide MethodText, FirstVerb, OtherVerb, Verb, Branch;
    var text := MethodText(m);
    var (p, i) := Branch(m);
    VerbSnoc(text, k);
    if k - 1 > i {
      VerbOfPrefix(m, k - 1);
      assert VerbByte(m, k - 1, text[k - 1]) == Some(m);
    } else if i > 0 {
      VerbOfPrefix(p, i);
      assert VerbByte(p, i, text[i]) == Some(m);
    }
  }

  lemma VerbSnoc(x: Text, k: nat)
    requires 0 < k <= |x|
    ensures k == 1 ==> Verb(x[..k]) == FirstVerb(x[0])
    ensures k > 1 && Verb(x[..k - 1]).Some? ==> Verb(x[..k]) == VerbByte(Verb(x[..k - 1]).value, k - 1, x[k - 1])
  {
    hide FirstVerb, VerbByte;
    assert x[..k][..k - 1] == x[..k - 1];
  }

  predicate AreVerbChars(x: Text) {
    forall i :: 0 <= i < |x| ==> IsVerbChar(x[i])
  }

  /** The methods by the lengths of their texts. */
  lemma ShortVerbChars(m: Method)
    requires |MethodText(m)| <= 4
    ensures AreVerbChars(MethodText(m))
  {
  }

  lemma MiddleVerbChars(m: Method)
    requires 4 < |MethodText(m)| <= 6
    ensures AreVerbChars(MethodText(m))
  {
  }

  lemma LongVerbChars(m: Method)
    requires 6 < |MethodText(m)| <= 9
    ensures AreVerbChars(MethodText(m))
  {
  }

  lemma LongestVerbChars(m: Method)
    requires |MethodText(m)| > 9
    ensures AreVerbChars(MethodText(m))
  {
  }

  lemma VerbChars(m: Method)
    ensures AreVerbChars(MethodText(m))
  {
    hide MethodText, AreVerbChars;
    var n := |MethodText(m)|;
    if n <= 4 {
      ShortVerbChars(m);
    } else if n <= 6 {
      MiddleVerbChars(m);
    } else if n <= 9 {
      LongVerbChars(m);
    } else {
      LongestVerbChars(m);
    }
  }

  lemma FirstVerbByte(s: Parser, t: Trace, ch: char)
    requires s.state == Idle(StartReq) && IsVerbChar(ch) && FirstVerb(ch).Some?
    ensures Byte(s, t, ch)
         == Point(WithVerb(Fresh(s), FirstVerb(ch).value, 1).(state := ReqMethod), t + [Note(MessageBegin)], Advance)
  {
    assert ch != '-';
    hide FirstVerb;
  }

  lemma NextVerbByte(s: Parser, t: Trace, ch: char)
    requires s.state.ReqMethod? && IsVerbChar(ch) && VerbByte(s.line.verb, s.matcher.index, ch).Some?
    ensures Byte(s, t, ch)
         == Point(WithVerb(s, VerbByte(s.line.verb, s.matcher.index, ch).value, s.matcher.index + 1), t, Advance)
  {
    hide MethodText, OtherVerb;
  }

  lemma VerbEnd(s: Parser, t: Trace)
    requires s.state.ReqMethod? && s.matcher.index == |MethodText(s.line.verb)|
    ensures Byte(s, t, ' ')
         == Point(WithVerb(s.(state := InUrl(ReqSpacesBeforeUrl)), s.line.verb, s.matcher.index + 1), t, Advance)
  {
    hide MethodText, OtherVerb;
  }

  function InVerbAfter(s: Parser, x: Text): Parser
    requires Verb(x).Some?
  {
    WithVerb(Fresh(s), Verb(x).value, |x|).(state := ReqMethod, nread := s.nread + |x|)
  }

  lemma {:induction false} VerbSoFar(s: Parser, t: Trace, x: Text, y: Text)
    requires s.state == Idle(StartReq) && s.nread + |x| <= s.config.maxHeaderSize
    requires Verb(x).Some? && AreVerbChars(x)
    ensures Run(s, t, x + y) == Run(InVerbAfter(s, x), t + [Note(MessageBegin)], y)
    decreases |x|
  {
    hide Visit, Byte, Run, VerbByte, FirstVerb, IsVerbChar;
    var init, ch := x[..|x| - 1], x[|x| - 1];
    LastApart(x, y);
    if |x| == 1 {
      FirstVerbByte(Counted(s), t, ch);
      RunByte(s, t, ch, y);
    } else {
      VerbSoFar(s, t, init, [ch] + y);
      NextVerbByte(Counted(InVerbAfter(s, init)), t + [Note(MessageBegin)], ch);
      RunByte(InVerbAfter(s, init), t + [Note(MessageBegin)], ch, y);
    }
  }

  /** The struct after the method `m` and a space. */
  function WithMethod(s: Parser, m: Method): Parser {
    var n := |MethodText(m)| + 1;
    WithVerb(Fresh(s), m, n).(state := InUrl(ReqSpacesBeforeUrl), nread := s.nread + n)
  }

  /** Every known method is recognised by its text. */
  lemma MethodRun(s: Parser, t: Trace, m: Method, y: Text)
    requires s.state == Idle(StartReq) && s.nread + |MethodText(m)| + 1 <= s.config.maxHeaderSize
    ensures Run(s, t, MethodText(m) + ([' '] + y)) == Run(WithMethod(s, m), t + [Note(MessageBegin)], y)
  {
    hide *;
    var text := MethodText(m);
    VerbChars(m);
    VerbOfText(m);
    VerbSoFar(s, t, text, [' '] + y);
    VerbDone(s, t + [Note(MessageBegin)], m, y);
  }

  lemma VerbOfText(m: Method)
    ensures Verb(MethodText(m)) == Some(m)
  {
    BranchFits(m);
    hide MethodText, Verb, FirstVerb, OtherVerb;
    var text := MethodText(m);
    VerbOfPrefix(m, |text|);
    assert text[..|text|] == text;
  }

  lemma VerbDone(s: Parser, t: Trace, m: Method, y: Text)
    requires Verb(MethodText(m)) == Some(m) && s.nread + |MethodText(m)| + 1 <= s.config.maxHeaderSize
    ensures Run(InVerbAfter(s, MethodText(m)), t, [' '] + y) == Run(WithMethod(s, m), t, y)
  {
    hide MethodText, Visit, Byte, Run, Verb;
    var s1 := InVerbAfter(s, MethodText(m));
    VerbEnd(Counted(s1), t);
    RunByte(s1, t, ' ', y);
  }
}
