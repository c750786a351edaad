/** http_parser_parse_url and http_parse_host. */
module UrlParser {
  import opened Bytes
  import opened Types
  import opened UrlChars
  import opened HeaderText
  import opened UrlFields

  datatype Span = Span(off: nat, len: nat) {
    function End(): nat { off + len }
    predicate Has(i: nat) { off <= i < off + len }
  }

  /** field_set and field_data: the keys are the fields that are set. */
  type Fields = map<UrlField, Span>

  /** `m` holds exactly the labelled bytes. */
  ghost predicate Covers(m: Fields, ls: Labels) {
    && (forall f :: f in m ==> m[f].End() <= |ls|)
    && (forall i, f :: 0 <= i < |ls| ==> (ls[i] == Some(f) <==> f in m && m[f].Has(i)))
  }

  lemma CoversNone(m: Fields, ls: Labels)
    requires Covers(m, ls)
    ensures Covers(m, ls + [None])
  {
  }

  lemma CoversOneMore(m: Fields, ls: Labels, f: UrlField)
    requires Covers(m, ls) && (f in m ==> m[f].End() == |ls|)
    ensures Covers(m[f := if f in m then Span(m[f].off, m[f].len + 1) else Span(|ls|, 1)], ls + [Some(f)])
  {
  }

  /** The field last worked on, and how far it goes. */
  ghost predicate AtField(m: Fields, old_uf: Option<UrlField>, u: UrlState, p: nat) {
    && (old_uf.None? ==> m == map[])
    && (old_uf.Some? ==>
          && old_uf.value in m && Reach(old_uf.value) <= Progress(u)
          && (Reach(old_uf.value) == Progress(u) ==> m[old_uf.value].End() == p)
          && forall f :: f in m ==> f == old_uf.value || Reach(f) < Reach(old_uf.value))
    && UF_USERINFO !in m && UF_PORT !in m && forall f :: f in m ==> m[f].len > 0
  }

  /** A field is never taken up again once another one or a delimiter came. */
  lemma AtFieldStep(m: Fields, old_uf: Option<UrlField>, u: UrlState, ch: char, p: nat)
    requires AtField(m, old_uf, u, p) && ParseUrlChar(u, ch).Some?
    ensures var v := ParseUrlChar(u, ch).value;
            var uf := FieldOf(Some(v));
            && (uf.None? ==> AtField(m, old_uf, v, p + 1))
            && (uf.Some? ==>
                  && (uf.value in m <==> uf == old_uf) && (uf == old_uf ==> m[uf.value].End() == p)
                  && AtField(m[uf.value := if uf.value in m then Span(m[uf.value].off, m[uf.value].len + 1) else Span(p, 1)],
                             uf, v, p + 1))
  {
    hide ParseUrlChar;
    UrlStep(u, ch);
  }

  lemma SliceSnoc(x: Text, lo: nat, n: nat)
    requires lo <= n < |x|
    ensures x[lo..n + 1] == x[..n][lo..n] + [x[n]]
  {
  }

  lemma SliceInside(x: Text, lo: nat, hi: nat, n: nat)
    requires lo <= hi <= n <= |x|
    ensures x[..n][lo..hi] == x[lo..hi]
  {
  }

  lemma {:induction false} PickSpan(x: Text, ls: Labels, f: UrlField, lo: nat, hi: nat)
    requires |ls| == |x| && lo <= hi <= |x|
    requires forall i :: 0 <= i < |ls| ==> (ls[i] == Some(f) <==> lo <= i < hi)
    ensures Pick(x, ls, f) == x[lo..hi]
    decreases |x|
  {
    if x != [] {
      var n := |x| - 1;
      if lo < hi == |x| {
        PickSpan(x[..n], ls[..n], f, lo, n);
        assert ls[n] == Some(f);
        SliceSnoc(x, lo, n);
      } else if lo < hi {
        PickSpan(x[..n], ls[..n], f, lo, hi);
        assert ls[n] != Some(f);
        SliceInside(x, lo, hi, n);
      } else {
        assert ls[n] != Some(f);
        PickSpan(x[..n], ls[..n], f, 0, 0);
      }
    }
  }

  /** The text of a field is the bytes labelled with it. */
  lemma FieldText(m: Fields, ls: Labels, x: Text, f: UrlField)
    requires Covers(m, ls) && |ls| == |x|
    ensures f in m ==> Pick(x, ls, f) == x[m[f].off..m[f].End()]
    ensures f !in m ==> Pick(x, ls, f) == []
  {
    if f in m {
      PickSpan(x, ls, f, m[f].off, m[f].End());
    } else {
      PickSpan(x, ls, f, 0, 0);
    }
  }

  lemma {:induction false} DeadStays(start: UrlState, x: Text, k: nat)
    requires k <= |x| && StateAfter(start, x[..k]).None?
    ensures StateAfter(start, x).None?
    decreases |x|
  {
    if k < |x| {
      assert x[..|x| - 1][..k] == x[..k];
      DeadStays(start, x[..|x| - 1], k);
    } else {
      assert x[..k] == x;
    }
  }

  /** The loop of http_parser_parse_url; on success `m` holds the fields with the host in one piece. */
  method ScanUrl(buf: Text, isConnect: bool) returns (ok: bool, m: Fields, foundAt: bool)
    ensures ok <==> StateAfter(Start(isConnect), buf).Some?
    ensures ok ==>
              && Covers(m, Coarse(Start(isConnect), buf)) && (forall f :: f in m ==> m[f].len > 0)
              && UF_USERINFO !in m && UF_PORT !in m && foundAt == SeenAt(Start(isConnect), buf)
  {
    hide ParseUrlChar, Covers, AtField;
    var s: UrlState := Start(isConnect);
    var old_uf: Option<UrlField> := None;
    var p := 0;
    m, foundAt := map[], false;
    StartCovers(s);
    while p < |buf|
      invariant p <= |buf| && StateAfter(Start(isConnect), buf[..p]) == Some(s)
      invariant Covers(m, Coarse(Start(isConnect), buf[..p])) && AtField(m, old_uf, s, p)
      invariant foundAt == SeenAt(Start(isConnect), buf[..p])
    {
      assert buf[..p + 1][..p] == buf[..p];
      var next := ParseUrlChar(s, buf[p]);
      if next.None? {
        DeadStays(Start(isConnect), buf, p + 1);
        return false, m, foundAt;
      }
      AtFieldStep(m, old_uf, s, buf[p], p);
      s, p := next.value, p + 1;
      ghost var done := Coarse(Start(isConnect), buf[..p - 1]);
      if s.ReqServerWithAt? { foundAt := true; }
      var uf := FieldOf(Some(s));
      if uf.None? {
        CoversNone(m, done);
      } else {
        CoversOneMore(m, done, uf.value);
        if uf == old_uf {
          m := m[uf.value := Span(m[uf.value].off, m[uf.value].len + 1)];
        } else {
          m := m[uf.value := Span(p - 1, 1)];
          old_uf := uf;
        }
      }
    }
    assert buf[..p] == buf;
    AtFieldEnds(m, old_uf, s, p);
    ok := true;
  }

  lemma AtFieldEnds(m: Fields, old_uf: Option<UrlField>, u: UrlState, p: nat)
    requires AtField(m, old_uf, u, p)
    ensures UF_USERINFO !in m && UF_PORT !in m && forall f :: f in m ==> m[f].len > 0
  {
  }

  lemma StartCovers(u: UrlState)
    ensures Covers(map[], []) && AtField(map[], None, u, 0)
  {
  }

  predicate InHost(f: UrlField) {
    f == UF_USERINFO || f == UF_HOST || f == UF_PORT
  }

  /** The bytes from `a` on, as far as `ls` labels them, by the three fields of the host. */
  ghost predicate HostCovers(m: Fields, a: nat, ls: Labels) {
    && (forall f :: f in m && InHost(f) ==> m[f].len == 0 || (a <= m[f].off && m[f].End() <= a + |ls|))
    && (forall i, f :: 0 <= i < |ls| && InHost(f) ==> (ls[i] == Some(f) <==> f in m && m[f].Has(a + i)))
  }

  ghost predicate AtHost(m: Fields, h: HostState, p: nat) {
    && UF_HOST in m
    && (HostProgress(h) < 4 <==> m[UF_HOST].len == 0)
    && (4 <= HostProgress(h) <= 6 ==> m[UF_HOST].End() == p)
    && (h.UserinfoStart? ==> UF_USERINFO !in m)
    && (UF_USERINFO in m ==> m[UF_USERINFO].len > 0 && (h.Userinfo? ==> m[UF_USERINFO].End() == p))
    && (h.Userinfo? ==> UF_USERINFO in m)
    && (UF_PORT in m <==> h.HostPort?)
    && (UF_PORT in m ==> m[UF_PORT].len > 0 && m[UF_PORT].End() == p)
  }

  /** The switch of http_parse_host on the new state. */
  function HostUpdate(m: Fields, s: HostState, new_s: HostState, p: nat): Fields
    requires UF_HOST in m && (s.Userinfo? ==> UF_USERINFO in m) && (s.HostPort? ==> UF_PORT in m)
  {
    var host := m[UF_HOST];
    match new_s
    case HostName => m[UF_HOST := Span(if s != new_s then p else host.off, host.len + 1)]
    case HostV6 => m[UF_HOST := Span(if s != new_s then p else host.off, host.len + 1)]
    case HostV6ZoneStart => m[UF_HOST := Span(host.off, host.len + 1)]
    case HostV6Zone => m[UF_HOST := Span(host.off, host.len + 1)]
    case HostPort => m[UF_PORT := if s != new_s then Span(p, 1) else Span(m[UF_PORT].off, m[UF_PORT].len + 1)]
    case Userinfo => m[UF_USERINFO := if s != new_s then Span(p, 1) else Span(m[UF_USERINFO].off, m[UF_USERINFO].len + 1)]
    case _ => m
  }

  lemma HostCoversNone(m: Fields, a: nat, ls: Labels)
    requires HostCovers(m, a, ls)
    ensures HostCovers(m, a, ls + [None])
  {
  }

  lemma HostCoversOneMore(m: Fields, a: nat, ls: Labels, f: UrlField)
    requires HostCovers(m, a, ls) && InHost(f) && (f in m && m[f].len > 0 ==> m[f].End() == a + |ls|)
    ensures HostCovers(m[f := if f in m && m[f].len > 0 then Span(m[f].off, m[f].len + 1) else Span(a + |ls|, 1)], a, ls + [Some(f)])
  {
  }

  lemma AtHostStep(m: Fields, h: HostState, ch: char, a: nat, ls: Labels)
    requires AtHost(m, h, a + |ls|) && HostCovers(m, a, ls) && ParseHostChar(h, ch).Some?
    ensures var v := ParseHostChar(h, ch).value;
            var m' := HostUpdate(m, h, v, a + |ls|);
            && AtHost(m', v, a + |ls| + 1) && HostCovers(m', a, ls + [HostFieldOf(Some(v))])
            && forall f :: !InHost(f) ==> (f in m' <==> f in m) && (f in m ==> m'[f] == m[f])
  {
    hide HostCovers, IsUserinfoChar, IsHostChar, IsZoneChar, IsHex, IsNum;
    var v := ParseHostChar(h, ch).value;
    if HostFieldOf(Some(v)).None? {
      HostCoversNone(m, a, ls);
    } else {
      HostCoversOneMore(m, a, ls, HostFieldOf(Some(v)).value);
      match v
      case HostName => {}
      case HostV6 => {}
      case HostV6ZoneStart => {}
      case HostV6Zone => {}
      case HostPort => {}
      case Userinfo => {}
    }
  }

  lemma {:induction false} DeadHostStays(start: HostState, x: Text, k: nat)
    requires k <= |x| && HostAfter(start, x[..k]).None?
    ensures HostAfter(start, x).None?
    decreases |x|
  {
    if k < |x| {
      assert x[..|x| - 1][..k] == x[..k];
      DeadHostStays(start, x[..|x| - 1], k);
    } else {
      assert x[..k] == x;
    }
  }

  lemma SliceGrows(x: Text, a: nat, p: nat)
    requires a <= p < |x|
    ensures |x[a..p + 1]| == p + 1 - a && x[a..p + 1][..p - a] == x[a..p] && x[a..p + 1][p - a] == x[p]
  {
  }

  lemma SliceBegins(x: Text, a: nat, p: nat, b: nat)
    requires a <= p <= b <= |x|
    ensures x[a..b][..p - a] == x[a..p]
  {
  }

  /** http_parse_host: takes the host field apart. */
  method ParseHost(buf: Text, m0: Fields, foundAt: bool) returns (ok: bool, m: Fields)
    requires UF_HOST in m0 && m0[UF_HOST].End() <= |buf| && UF_USERINFO !in m0 && UF_PORT !in m0
    ensures var h := HostAfter(StartHost(foundAt), buf[m0[UF_HOST].off..m0[UF_HOST].End()]);
            ok <==> h.Some? && HostMayEnd(h.value)
    ensures ok ==>
              && HostCovers(m, m0[UF_HOST].off, HostLabels(StartHost(foundAt), buf[m0[UF_HOST].off..m0[UF_HOST].End()]))
              && UF_HOST in m && (forall f :: f in m && InHost(f) ==> m[f].len > 0)
              && forall f :: !InHost(f) ==> (f in m <==> f in m0) && (f in m ==> m[f] == m0[f])
  {
    hide ParseHostChar, HostCovers, AtHost, HostUpdate;
    var a, b := m0[UF_HOST].off, m0[UF_HOST].End();
    m := m0[UF_HOST := Span(a, 0)];
    var s := StartHost(foundAt);
    var p := a;
    assert AtHost(m, s, p) && HostCovers(m, a, []) by { HostStarts(m, a, s); }
    while p < b
      invariant a <= p <= b && HostAfter(StartHost(foundAt), buf[a..p]) == Some(s)
      invariant AtHost(m, s, p) && HostCovers(m, a, HostLabels(StartHost(foundAt), buf[a..p]))
      invariant forall f :: !InHost(f) ==> (f in m <==> f in m0) && (f in m ==> m[f] == m0[f])
    {
      SliceGrows(buf, a, p);
      var next := ParseHostChar(s, buf[p]);
      if next.None? {
        SliceBegins(buf, a, p + 1, b);
        DeadHostStays(StartHost(foundAt), buf[a..b], p + 1 - a);
        return false, m;
      }
      AtHostStep(m, s, buf[p], a, HostLabels(StartHost(foundAt), buf[a..p]));
      AtHostSets(m, s, p);
      m := HostUpdate(m, s, next.value, p);
      s, p := next.value, p + 1;
    }
    AtHostSets(m, s, p);
    ok := HostMayEnd(s);
  }

  lemma HostStarts(m: Fields, a: nat, h: HostState)
    requires m.Keys !! {UF_USERINFO, UF_PORT} && UF_HOST in m && m[UF_HOST] == Span(a, 0)
    requires h.UserinfoStart? || h.HostStart?
    ensures AtHost(m, h, a) && HostCovers(m, a, [])
  {
  }

  lemma AtHostSets(m: Fields, h: HostState, p: nat)
    requires AtHost(m, h, p)
    ensures UF_HOST in m && (h.Userinfo? ==> UF_USERINFO in m) && (h.HostPort? ==> UF_PORT in m)
    ensures HostMayEnd(h) ==> forall f :: f in m && InHost(f) ==> m[f].len > 0
  {
  }

  /** The bytes of the host up to byte `i` of it. */
  lemma AuthoritySoFar(start: UrlState, x: Text, m: Fields, i: nat)
    requires Covers(m, Coarse(start, x)) && UF_HOST in m && m[UF_HOST].Has(i)
    ensures i < |x| && Authority(start, x[..i + 1]) == x[m[UF_HOST].off..i + 1]
  {
    CoarseAt(start, x, i);
    var ls := Coarse(start, x[..i + 1]);
    forall k | 0 <= k < |ls|
      ensures ls[k] == Some(UF_HOST) <==> m[UF_HOST].off <= k < i + 1
    {
      assert ls[k] == Coarse(start, x)[k];
    }
    PickSpan(x[..i + 1], ls, UF_HOST, m[UF_HOST].off, i + 1);
    assert x[..i + 1][m[UF_HOST].off..i + 1] == x[m[UF_HOST].off..i + 1];
  }

  lemma FineOfHost(start: UrlState, h: HostState, x: Text, m: Fields, i: nat)
    requires Covers(m, Coarse(start, x)) && UF_HOST in m && m[UF_HOST].Has(i)
    ensures i < |x| && Fine(start, h, x)[i] == HostLabels(h, x[m[UF_HOST].off..m[UF_HOST].End()])[i - m[UF_HOST].off]
  {
    var a, b := m[UF_HOST].off, m[UF_HOST].End();
    AuthoritySoFar(start, x, m, i);
    FineAt(start, h, x, i);
    CoarseAt(start, x, i);
    HostLabelAt(h, x[a..b], i - a);
    assert x[a..b][..i - a + 1] == x[a..i + 1];
  }

  lemma FineElsewhere(start: UrlState, h: HostState, x: Text, i: nat)
    requires i < |x| && Coarse(start, x)[i] != Some(UF_HOST)
    ensures Fine(start, h, x)[i] == Coarse(start, x)[i]
  {
    FineAt(start, h, x, i);
    CoarseAt(start, x, i);
  }

  /** Taking the host apart refines the labels of its bytes and leaves the others. */
  lemma FineCovers(start: UrlState, h: HostState, x: Text, m0: Fields, m: Fields)
    requires Covers(m0, Coarse(start, x)) && UF_HOST in m0 && UF_USERINFO !in m0 && UF_PORT !in m0
    requires HostCovers(m, m0[UF_HOST].off, HostLabels(h, x[m0[UF_HOST].off..m0[UF_HOST].End()]))
    requires forall f :: f in m && InHost(f) ==> m[f].len > 0
    requires forall f :: !InHost(f) ==> (f in m <==> f in m0) && (f in m ==> m[f] == m0[f])
    ensures Covers(m, Fine(start, h, x))
  {
    hide Fine, Coarse, HostLabels;
    var fine, coarse := Fine(start, h, x), Coarse(start, x);
    var a, b := m0[UF_HOST].off, m0[UF_HOST].End();
    forall i, f | 0 <= i < |x|
      ensures fine[i] == Some(f) <==> f in m && m[f].Has(i)
    {
      if a <= i < b {
        FineOfHost(start, h, x, m0, i);
        HostLabelsInHost(h, x[a..b], i - a);
        assert coarse[i] == Some(UF_HOST);
      } else {
        FineElsewhere(start, h, x, i);
      }
    }
  }

  lemma HostLabelsInHost(h: HostState, x: Text, i: nat)
    requires i < |x|
    ensures HostLabels(h, x)[i].Some? ==> InHost(HostLabels(h, x)[i].value)
  {
    HostLabelAt(h, x, i);
  }

  lemma NoHostCovers(start: UrlState, h: HostState, x: Text, m: Fields)
    requires Covers(m, Coarse(start, x)) && UF_HOST !in m
    ensures Covers(m, Fine(start, h, x))
  {
    forall i | 0 <= i < |x|
      ensures Fine(start, h, x)[i] == Coarse(start, x)[i]
    {
      FineElsewhere(start, h, x, i);
    }
    assert Fine(start, h, x) == Coarse(start, x);
  }

  lemma InLabels(m: Fields, ls: Labels, f: UrlField)
    requires Covers(m, ls) && forall g :: g in m ==> m[g].len > 0
    ensures f in m <==> Some(f) in ls
  {
    if f in m { assert ls[m[f].off] == Some(f); }
  }

  lemma HostAndPort(m: Fields, ls: Labels)
    requires Covers(m, ls) && forall g :: g in m ==> m[g].len > 0
    ensures m.Keys == {UF_HOST, UF_PORT} <==> IsHostAndPort(ls)
  {
    hide Covers;
    forall f ensures f in m <==> Some(f) in ls { InLabels(m, ls, f); }
    if IsHostAndPort(ls) {
      forall f | f in m ensures f in {UF_HOST, UF_PORT} { assert Some(f) in ls; }
    }
    if m.Keys == {UF_HOST, UF_PORT} {
      forall l | l in ls && l.Some? ensures l.value in m.Keys { assert Some(l.value) in ls; }
    }
  }

  lemma AuthoritySnoc(start: UrlState, y: Text)
    requires y != []
    ensures var init := y[..|y| - 1];
            Authority(start, y)
              == if FieldOf(StateAfter(start, y)) == Some(UF_HOST) then Authority(start, init) + [y[|y| - 1]] else Authority(start, init)
  {
    assert Coarse(start, y)[..|y| - 1] == Coarse(start, y[..|y| - 1]);
  }

  /** The bytes that a field, or no field, can hold. */
  predicate Class(f: Option<UrlField>, ch: char) {
    match f
    case None => ch == ':' || ch == '/' || ch == '@' || ch == '[' || ch == ']' || ch == '?' || ch == '#'
    case Some(UF_SCHEMA) => IsAlpha(ch)
    case Some(UF_USERINFO) => IsUserinfoChar(ch)
    case Some(UF_HOST) => IsHostChar(ch) || IsZoneChar(ch) || ch == ':'
    case Some(UF_PORT) => IsNum(ch)
    case Some(UF_PATH) => IsUrlChar(ch)
    case Some(UF_QUERY) => IsUrlChar(ch) || ch == '?'
    case Some(UF_FRAGMENT) => IsUrlChar(ch) || ch == '?' || ch == '#'
  }

  lemma UrlCharClass(u: UrlState, ch: char)
    requires var v := ParseUrlChar(u, ch); v.Some? && FieldOf(v) != Some(UF_HOST)
    ensures Class(FieldOf(ParseUrlChar(u, ch)), ch)
  {
  }

  lemma HostCharClass(h: HostState, ch: char)
    requires ParseHostChar(h, ch).Some?
    ensures Class(HostFieldOf(ParseHostChar(h, ch)), ch)
  {
  }

  lemma {:induction false} AuthorityPrefix(start: UrlState, x: Text, k: nat)
    requires k <= |x|
    ensures Authority(start, x[..k]) <= Authority(start, x)
    decreases |x|
  {
    if k < |x| {
      assert x[..|x| - 1][..k] == x[..k];
      AuthorityPrefix(start, x[..|x| - 1], k);
      AuthoritySnoc(start, x);
    } else {
      assert x[..k] == x;
    }
  }

  /** Every byte is of the kind its label says; bytes without a label are delimiters. */
  lemma LabelClass(start: UrlState, h: HostState, x: Text, i: nat)
    requires i < |x| && StateAfter(start, x).Some?
    requires Some(UF_HOST) in Coarse(start, x) ==> HostAfter(h, Authority(start, x)).Some?
    ensures Class(Fine(start, h, x)[i], x[i])
  {
    hide ParseUrlChar, ParseHostChar, Class, Fine, Authority;
    var y := x[..i + 1];
    FineAt(start, h, x, i);
    CoarseAt(start, x, i);
    if StateAfter(start, y).None? { DeadStays(start, x, i + 1); }
    assert y[..i] == x[..i];
    if FieldOf(StateAfter(start, y)) == Some(UF_HOST) {
      assert Some(UF_HOST) in Coarse(start, x);
      var a := Authority(start, y);
      AuthoritySnoc(start, y);
      AuthorityPrefix(start, x, i + 1);
      if HostAfter(h, a).None? {
        assert Authority(start, x)[..|a|] == a;
        DeadHostStays(h, Authority(start, x), |a|);
      }
      assert a[|a| - 1] == x[i];
      HostCharClass(HostAfter(h, a[..|a| - 1]).value, x[i]);
    } else {
      UrlCharClass(StateAfter(start, x[..i]).value, x[i]);
    }
  }

  lemma {:induction false} DecimalGrows(v: Text, k: nat)
    requires AllDigits(v) && k <= |v|
    ensures Decimal(v[..k]) <= Decimal(v)
    decreases |v|
  {
    if k < |v| {
      assert v[..|v| - 1][..k] == v[..k];
      DecimalGrows(v[..|v| - 1], k);
    } else {
      assert v[..k] == v;
    }
  }

  /** The number that the first `k` digits of a text stand for. */
  lemma DigitsSoFar(v: Text, k: nat)
    requires AllDigits(v) && k <= |v|
    ensures AllDigits(v[..k]) && (k == 0 ==> Decimal(v[..k]) == 0)
    ensures k > 0 ==> IsNum(v[k - 1]) && AllDigits(v[..k - 1]) && Decimal(v[..k]) == Decimal(v[..k - 1]) * 10 + Digit(v[k - 1])
  {
    if k > 0 { assert v[..k][..k - 1] == v[..k - 1]; }
  }

  /** The loop that reads the port. */
  method ReadPort(buf: Text, off: nat, end: nat) returns (ok: bool, v: nat)
    requires off <= end <= |buf| && AllDigits(buf[off..end])
    ensures ok <==> Decimal(buf[off..end]) <= 0xffff
    ensures ok ==> v == Decimal(buf[off..end])
  {
    hide Decimal, AllDigits, Digit;
    ghost var text := buf[off..end];
    var p := off;
    v := 0;
    DigitsSoFar(text, 0);
    while p < end
      invariant off <= p <= end && AllDigits(text[..p - off]) && v == Decimal(text[..p - off])
    {
      DigitsSoFar(text, p + 1 - off);
      assert text[p - off] == buf[p];
      v := v * 10 + Digit(buf[p]);
      p := p + 1;
      if v > 0xffff {
        DecimalGrows(text, p - off);
        return false, v;
      }
    }
    assert text[..p - off] == text;
    ok := v <= 0xffff;
  }

  lemma {:induction false} ProgressGrows(start: UrlState, x: Text, k: nat)
    requires k <= |x| && StateAfter(start, x).Some?
    ensures var u := StateAfter(start, x[..k]); u.Some? && Progress(u.value) <= Progress(StateAfter(start, x).value)
    decreases |x|
  {
    hide ParseUrlChar, Progress;
    if k < |x| {
      var init := x[..|x| - 1];
      assert init[..k] == x[..k];
      ProgressGrows(start, init, k);
      UrlStep(StateAfter(start, init).value, x[|x| - 1]);
    } else {
      assert x[..k] == x;
    }
  }

  lemma {:induction false} HostProgressGrows(start: HostState, x: Text, k: nat)
    requires k <= |x| && HostAfter(start, x).Some?
    ensures var h := HostAfter(start, x[..k]); h.Some? && HostProgress(h.value) <= HostProgress(HostAfter(start, x).value)
    decreases |x|
  {
    hide ParseHostChar, HostProgress;
    if k < |x| {
      var init := x[..|x| - 1];
      assert init[..k] == x[..k];
      HostProgressGrows(start, init, k);
      HostStep(HostAfter(start, init).value, x[|x| - 1]);
    } else {
      assert x[..k] == x;
    }
  }

  /** Labels come in the order of the fields. */
  lemma LabelsOrdered(start: UrlState, h: HostState, x: Text, i: nat, j: nat)
    requires i <= j < |x| && StateAfter(start, x).Some?
    requires Fine(start, h, x)[i].Some? && Fine(start, h, x)[j].Some?
    ensures Order(Fine(start, h, x)[i].value) <= Order(Fine(start, h, x)[j].value)
  {
    hide Fine, StateAfter, HostAfter, Authority;
    FineAt(start, h, x, i);
    FineAt(start, h, x, j);
    var y := x[..j + 1];
    assert y[..i + 1] == x[..i + 1];
    ProgressGrows(start, x, j + 1);
    ProgressGrows(start, y, i + 1);
    if FieldOf(StateAfter(start, y)) == Some(UF_HOST) && FieldOf(StateAfter(start, x[..i + 1])) == Some(UF_HOST) {
      AuthorityPrefix(start, y, i + 1);
      var a := Authority(start, x[..i + 1]);
      assert Authority(start, y)[..|a|] == a;
      HostProgressGrows(h, Authority(start, y), |a|);
    }
  }

  /** The fields are inside the buffer, not empty, apart and in order; what is in none of them is
      a delimiter, and what is in one is of its kind. */
  ghost predicate IsPartition(x: Text, m: Fields) {
    && (forall f :: f in m ==> m[f].len > 0 && m[f].End() <= |x|)
    && (forall f, g :: f in m && g in m && Order(f) < Order(g) ==> m[f].End() <= m[g].off)
    && (forall i :: 0 <= i < |x| && (forall f :: f in m ==> !m[f].Has(i)) ==> Class(None, x[i]))
    && (forall i, f :: 0 <= i < |x| && f in m && m[f].Has(i) ==> Class(Some(f), x[i]))
  }

  lemma Partition(start: UrlState, h: HostState, x: Text, m: Fields)
    requires Covers(m, Fine(start, h, x)) && (forall f :: f in m ==> m[f].len > 0)
    requires StateAfter(start, x).Some?
    requires Some(UF_HOST) in Coarse(start, x) ==> HostAfter(h, Authority(start, x)).Some?
    ensures IsPartition(x, m)
  {
    hide Fine, StateAfter, HostAfter, Authority, Coarse, Class;
    var ls := Fine(start, h, x);
    forall i | 0 <= i < |x| ensures Class(ls[i], x[i]) { LabelClass(start, h, x, i); }
    forall f, g | f in m && g in m && Order(f) < Order(g)
      ensures m[f].End() <= m[g].off
    {
      var i, j := m[f].End() - 1, m[g].off;
      assert ls[i] == Some(f) && ls[j] == Some(g);
      if j <= i { LabelsOrdered(start, h, x, j, i); }
    }
    forall i | 0 <= i < |x| && forall f :: f in m ==> !m[f].Has(i)
      ensures Class(None, x[i])
    {
      assert ls[i].None?;
    }
  }

  datatype ParsedUrl = ParsedUrl(fields: Fields, port: nat)

  /** http_parser_parse_url. Offsets and lengths are 16 bits wide, which is enough for the buffers
      admitted here. */
  method ParseUrl(buf: Text, isConnect: bool) returns (ok: bool, u: ParsedUrl)
    requires |buf| <= 0xffff
    ensures ok <==> IsUrl(buf, isConnect)
    ensures ok ==> Covers(u.fields, UrlLabels(buf, isConnect)) && IsPartition(buf, u.fields)
    ensures ok && UF_PORT in u.fields ==>
              var text := buf[u.fields[UF_PORT].off..u.fields[UF_PORT].End()];
              AllDigits(text) && u.port == Decimal(text) <= 0xffff
    ensures ok && UF_PORT !in u.fields ==> u.port == 0
  {
    hide ParseUrlChar, Covers, HostCovers, Fine, Coarse, StateAfter, HostAfter, SeenAt, Pick, HostLabels, IsPartition, IsHostAndPort, Decimal;
    u := ParsedUrl(map[], 0);
    if buf == [] { return false, u; }
    ghost var start := Start(isConnect);
    ghost var h := StartHost(SeenAt(start, buf));
    var m0, foundAt;
    ok, m0, foundAt := ScanUrl(buf, isConnect);
    if !ok { return; }
    InLabels(m0, Coarse(start, buf), UF_SCHEMA);
    InLabels(m0, Coarse(start, buf), UF_HOST);
    if UF_SCHEMA in m0 && UF_HOST !in m0 { return false, u; }
    FieldText(m0, Coarse(start, buf), buf, UF_HOST);
    var m := m0;
    if UF_HOST in m0 {
      CoversInside(m0, Coarse(start, buf));
      ok, m := ParseHost(buf, m0, foundAt);
      if !ok { return; }
      FineCovers(start, h, buf, m0, m);
    } else {
      NoHostCovers(start, h, buf, m0);
    }
    u := u.(fields := m);
    ghost var ls := UrlLabels(buf, isConnect);
    Partition(start, h, buf, m);
    CoversInside(m, ls);
    HostAndPort(m, ls);
    if isConnect && m.Keys != {UF_HOST, UF_PORT} { return false, u; }
    FieldText(m, ls, buf, UF_PORT);
    if UF_PORT in m {
      PortDigits(m, buf);
      var port;
      ok, port := ReadPort(buf, m[UF_PORT].off, m[UF_PORT].End());
      u := u.(port := port);
    } else {
      assert Decimal([]) == 0 by { NoDigits(); }
    }
  }

  lemma CoversInside(m: Fields, ls: Labels)
    requires Covers(m, ls)
    ensures forall f :: f in m ==> m[f].End() <= |ls|
  {
  }

  lemma NoDigits()
    ensures Decimal([]) == 0
  {
  }

  lemma PortDigits(m: Fields, x: Text)
    requires IsPartition(x, m) && UF_PORT in m
    ensures m[UF_PORT].End() <= |x| && AllDigits(x[m[UF_PORT].off..m[UF_PORT].End()])
  {
    forall i: nat | m[UF_PORT].Has(i) ensures IsNum(x[i]) { assert Class(Some(UF_PORT), x[i]); }
  }
}
