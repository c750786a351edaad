/** parse_url_char: the URL state machine shared by the message parser and the URL parser. */
module UrlChars {
  import opened Bytes
  import opened Types

  /** The next URL state; None is s_dead. */
  function ParseUrlChar(u: UrlState, ch: char): (r: Option<UrlState>)
    ensures r.Some? ==> ch != ' ' && ch != CR && ch != LF && !r.value.ReqSpacesBeforeUrl?
  {
    if ch == ' ' || ch == CR || ch == LF || ch == TAB || ch == FF then None
    else match u
      case ReqSpacesBeforeUrl =>
        if ch == '/' || ch == '*' then Some(ReqPath) else if IsAlpha(ch) then Some(ReqSchema) else None
      case ReqSchema => if IsAlpha(ch) then Some(u) else if ch == ':' then Some(ReqSchemaSlash) else None
      case ReqSchemaSlash => if ch == '/' then Some(ReqSchemaSlashSlash) else None
      case ReqSchemaSlashSlash => if ch == '/' then Some(ReqServerStart) else None
      case ReqServerWithAt => if ch == '@' then None else ServerChar(ch)
      case ReqServerStart | ReqServer => ServerChar(ch)
      case ReqPath =>
        if IsUrlChar(ch) then Some(u)
        else if ch == '?' then Some(ReqQueryStringStart)
        else if ch == '#' then Some(ReqFragmentStart)
        else None
      case ReqQueryStringStart | ReqQueryString =>
        if IsUrlChar(ch) || ch == '?' then Some(ReqQueryString)
        else if ch == '#' then Some(ReqFragmentStart)
        else None
      case ReqFragmentStart =>
        if IsUrlChar(ch) || ch == '?' then Some(ReqFragment) else if ch == '#' then Some(u) else None
      case ReqFragment => if IsUrlChar(ch) || ch == '?' || ch == '#' then Some(u) else None
  }

  function ServerChar(ch: char): Option<UrlState> {
    if ch == '/' then Some(ReqPath)
    else if ch == '?' then Some(ReqQueryStringStart)
    else if ch == '@' then Some(ReqServerWithAt)
    else if IsUserinfoChar(ch) || ch == '[' || ch == ']' then Some(ReqServer)
    else None
  }
}
