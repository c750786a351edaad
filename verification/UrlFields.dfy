/** http_parse_host_char, and what every byte of a URL means. */
module UrlFields {
  import opened Bytes
  import opened Types
  import opened UrlChars
  import opened HeaderText

  /** The fields, in the order in which they stand in a URL. */
  datatype UrlField = UF_SCHEMA | UF_USERINFO | UF_HOST | UF_PORT | UF_PATH | UF_QUERY | UF_FRAGMENT

  function Order(f: UrlField): nat {
    match f
    case UF_SCHEMA => 0
    case UF_USERINFO => 1
    case UF_HOST => 2
    case UF_PORT => 3
    case UF_PATH => 4
    case UF_QUERY => 5
    case UF_FRAGMENT => 6
  }

  datatype HostState =
    | UserinfoStart | Userinfo | HostStart | HostV6Start | HostName | HostV6 | HostV6End | HostV6ZoneStart | HostV6Zone
    | HostPortStart | HostPort

  /** The next host state; None is s_http_host_dead. */
  function ParseHostChar(h: HostState, ch: char): Option<HostState> {
    match h
    case UserinfoStart | Userinfo => if ch == '@' then Some(HostStart) else if IsUserinfoChar(ch) then Some(Userinfo) else None
    case HostStart => if ch == '[' then Some(HostV6Start) else if IsHostChar(ch) then Some(HostName) else None
    case HostName => if IsHostChar(ch) then Some(HostName) else if ch == ':' then Some(HostPortStart) else None
    case HostV6End => if ch == ':' then Some(HostPortStart) else None
    case HostV6 =>
      if ch == ']' then Some(HostV6End)
      else if IsHex(ch) || ch == ':' || ch == '.' then Some(HostV6)
      else if ch == '%' then Some(HostV6ZoneStart)
      else None
    case HostV6Start => if IsHex(ch) || ch == ':' || ch == '.' then Some(HostV6) else None
    case HostV6Zone => if ch == ']' then Some(HostV6End) else if IsZoneChar(ch) then Some(HostV6Zone) else None
    case HostV6ZoneStart => if IsZoneChar(ch) then Some(HostV6Zone) else None
    case HostPort | HostPortStart => if IsNum(ch) then Some(HostPort) else None
  }

  predicate IsZoneChar(ch: char) {
    IsAlphaNum(ch) || ch == '%' || ch == '.' || ch == '-' || ch == '_' || ch == '~'
  }

  /** A host may not end in the middle of something. */
  predicate HostMayEnd(h: HostState) {
    h.HostName? || h.HostV6End? || h.HostPort?
  }

  /** The URL state after the text `x`; None once a byte was refused. */
  function StateAfter(start: UrlState, x: Text): Option<UrlState> {
    if x == [] then Some(start)
    else
      var u := StateAfter(start, x[..|x| - 1]);
      if u.None? then None else ParseUrlChar(u.value, x[|x| - 1])
  }

  function HostAfter(start: HostState, x: Text): Option<HostState> {
    if x == [] then Some(start)
    else
      var h := HostAfter(start, x[..|x| - 1]);
      if h.None? then None else ParseHostChar(h.value, x[|x| - 1])
  }

  /** The field of a byte that leads to `u`, the host not yet taken apart; None for a delimiter. */
  function FieldOf(u: Option<UrlState>): Option<UrlField> {
    match u
    case Some(ReqSchema) => Some(UF_SCHEMA)
    case Some(ReqServer) => Some(UF_HOST)
    case Some(ReqServerWithAt) => Some(UF_HOST)
    case Some(ReqPath) => Some(UF_PATH)
    case Some(ReqQueryString) => Some(UF_QUERY)
    case Some(ReqFragment) => Some(UF_FRAGMENT)
    case _ => None
  }

  /** The field of a byte of the host that leads to `h`. */
  function HostFieldOf(h: Option<HostState>): Option<UrlField> {
    match h
    case Some(Userinfo) => Some(UF_USERINFO)
    case Some(HostName) => Some(UF_HOST)
    case Some(HostV6) => Some(UF_HOST)
    case Some(HostV6ZoneStart) => Some(UF_HOST)
    case Some(HostV6Zone) => Some(UF_HOST)
    case Some(HostPort) => Some(UF_PORT)
    case _ => None
  }

  type Labels = seq<Option<UrlField>>

  function Coarse(start: UrlState, x: Text): (r: Labels)
    ensures |r| == |x|
  {
    if x == [] then [] else Coarse(start, x[..|x| - 1]) + [FieldOf(StateAfter(start, x))]
  }

  /** The bytes of `x` that are labelled `f`. */
  function Pick(x: Text, ls: Labels, f: UrlField): Text
    requires |ls| == |x|
  {
    if x == [] then []
    else
      var n := |x| - 1;
      Pick(x[..n], ls[..n], f) + if ls[n] == Some(f) then [x[n]] else []
  }

  /** Is the '@' that ends a userinfo among the bytes? */
  predicate SeenAt(start: UrlState, x: Text) {
    x != [] && (SeenAt(start, x[..|x| - 1]) || StateAfter(start, x) == Some(ReqServerWithAt))
  }

  function Start(isConnect: bool): UrlState {
    if isConnect then ReqServerStart else ReqSpacesBeforeUrl
  }

  function StartHost(foundAt: bool): HostState {
    if foundAt then UserinfoStart else HostStart
  }

  function Authority(start: UrlState, x: Text): Text {
    Pick(x, Coarse(start, x), UF_HOST)
  }

  /** The field of every byte, the bytes of the host by what they mean there. */
  function Fine(start: UrlState, h: HostState, x: Text): (r: Labels)
    ensures |r| == |x|
  {
    if x == [] then []
    else
      var f := FieldOf(StateAfter(start, x));
      Fine(start, h, x[..|x| - 1]) + [if f == Some(UF_HOST) then HostFieldOf(HostAfter(h, Authority(start, x))) else f]
  }

  function HostLabels(start: HostState, x: Text): (r: Labels)
    ensures |r| == |x|
  {
    if x == [] then [] else HostLabels(start, x[..|x| - 1]) + [HostFieldOf(HostAfter(start, x))]
  }

  function UrlLabels(x: Text, isConnect: bool): (r: Labels)
    ensures |r| == |x|
  {
    Fine(Start(isConnect), StartHost(SeenAt(Start(isConnect), x)), x)
  }

  function PortText(x: Text, isConnect: bool): Text {
    Pick(x, UrlLabels(x, isConnect), UF_PORT)
  }

  /** The URLs that are accepted. */
  predicate IsUrl(x: Text, isConnect: bool) {
    var start := Start(isConnect);
    var coarse := Coarse(start, x);
    && x != [] && StateAfter(start, x).Some?
    && (Some(UF_SCHEMA) in coarse ==> Some(UF_HOST) in coarse)
    && (Some(UF_HOST) in coarse ==>
          var h := HostAfter(StartHost(SeenAt(start, x)), Authority(start, x));
          h.Some? && HostMayEnd(h.value))
    && (isConnect ==> IsHostAndPort(UrlLabels(x, isConnect)))
    && AllDigits(PortText(x, isConnect)) && Decimal(PortText(x, isConnect)) <= 0xffff
  }

  /** CONNECT requests name a host and a port and nothing else. */
  predicate IsHostAndPort(ls: Labels) {
    && Some(UF_HOST) in ls && Some(UF_PORT) in ls
    && forall l :: l in ls ==> l == None || l == Some(UF_HOST) || l == Some(UF_PORT)
  }

  lemma {:induction false} CoarseAt(start: UrlState, x: Text, i: nat)
    requires i < |x|
    ensures Coarse(start, x)[i] == FieldOf(StateAfter(start, x[..i + 1]))
    ensures Coarse(start, x)[..i + 1] == Coarse(start, x[..i + 1])
    decreases |x|
  {
    if i < |x| - 1 {
      CoarseAt(start, x[..|x| - 1], i);
      assert x[..|x| - 1][..i + 1] == x[..i + 1];
    } else {
      assert x[..i + 1] == x;
    }
  }

  lemma {:induction false} HostLabelAt(start: HostState, x: Text, i: nat)
    requires i < |x|
    ensures HostLabels(start, x)[i] == HostFieldOf(HostAfter(start, x[..i + 1]))
    decreases |x|
  {
    if i < |x| - 1 {
      HostLabelAt(start, x[..|x| - 1], i);
      assert x[..|x| - 1][..i + 1] == x[..i + 1];
    } else {
      assert x[..i + 1] == x;
    }
  }

  lemma {:induction false} FineAt(start: UrlState, h: HostState, x: Text, i: nat)
    requires i < |x|
    ensures var f := FieldOf(StateAfter(start, x[..i + 1]));
            Fine(start, h, x)[i] == if f == Some(UF_HOST) then HostFieldOf(HostAfter(h, Authority(start, x[..i + 1]))) else f
    decreases |x|
  {
    if i < |x| - 1 {
      FineAt(start, h, x[..|x| - 1], i);
      assert x[..|x| - 1][..i + 1] == x[..i + 1];
    } else {
      assert x[..i + 1] == x;
    }
  }

  // Progress through a URL.

  function Progress(u: UrlState): nat {
    match u
    case ReqSpacesBeforeUrl => 0
    case ReqSchema => 1
    case ReqSchemaSlash => 2
    case ReqSchemaSlashSlash => 3
    case ReqServerStart => 4
    case ReqServer | ReqServerWithAt => 5
    case ReqPath => 6
    case ReqQueryStringStart => 7
    case ReqQueryString => 8
    case ReqFragmentStart => 9
    case ReqFragment => 10
  }

  function HostProgress(h: HostState): nat {
    match h
    case UserinfoStart => 0
    case Userinfo => 1
    case HostStart => 2
    case HostV6Start => 3
    case HostName => 4
    case HostV6 => 4
    case HostV6ZoneStart => 5
    case HostV6Zone => 6
    case HostV6End => 7
    case HostPortStart => 8
    case HostPort => 9
  }

  /** Progress of the states that belong to a field. */
  function Reach(f: UrlField): nat {
    match f
    case UF_SCHEMA => 1
    case UF_PATH => 6
    case UF_QUERY => 8
    case UF_FRAGMENT => 10
    case _ => 5
  }

  lemma UrlStep(u: UrlState, ch: char)
    requires ParseUrlChar(u, ch).Some?
    ensures var v := ParseUrlChar(u, ch);
            && Progress(u) <= Progress(v.value)
            && (FieldOf(v).Some? ==> Reach(FieldOf(v).value) == Progress(v.value))
            && (FieldOf(v).None? ==>
                  (Progress(u) < Progress(v.value) || v.value.ReqFragmentStart?) && Progress(v.value) in {2, 3, 4, 7, 9} &&
                  (ch == ':' || ch == '/' || ch == '?' || ch == '#'))
            && FieldOf(v) != Some(UF_USERINFO) && FieldOf(v) != Some(UF_PORT)
  {
  }

  lemma HostStep(h: HostState, ch: char)
    requires ParseHostChar(h, ch).Some?
    ensures var v := ParseHostChar(h, ch);
            && HostProgress(h) <= HostProgress(v.value)
            && (HostFieldOf(v).None? ==> ch == '@' || ch == '[' || ch == ']' || ch == ':')
  {
  }
}
