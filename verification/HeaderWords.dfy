/** The nested matcher of header names and of Connection and Transfer-Encoding values
    (`parser->header_state` with `parser->index`), one byte at a time. */
module HeaderWords {
  import opened Bytes
  import opened Types

  function NameText(n: HeaderName): string {
    match n
    case Connection => "connection"
    case ProxyConnection => "proxy-connection"
    case ContentLength => "content-length"
    case TransferEncoding => "transfer-encoding"
    case Upgrade => "upgrade"
  }

  function OptionText(o: ConnectionOption): string {
    match o
    case KeepAliveOption => "keep-alive"
    case CloseOption => "close"
    case UpgradeOption => "upgrade"
  }

  const CHUNKED := "chunked"

  /** Both connection headers are h_connection once matched. */
  function KnownAs(n: HeaderName): HeaderName {
    if n.ProxyConnection? then Connection else n
  }

  /** header_state after the first byte of a name. */
  function FirstNameState(c: char): HeaderState {
    match c
    case 'c' => C
    case 'p' => Matching(ProxyConnection)
    case 't' => Matching(TransferEncoding)
    case 'u' => Matching(Upgrade)
    case _ => General
  }

  /** One more byte of a word being matched: `index` was the last matched place. */
  function WordByte(word: string, index: nat, c: char, on: HeaderState, done: HeaderState, off: HeaderState): Matcher {
    var i := index + 1;
    if i > |word| || c != At(word, i) then Matcher(off, i)
    else if i == |word| - 1 then Matcher(done, i)
    else Matcher(on, i)
  }

  /** The switch of s_header_field for a token byte `c` (lower case); None is its failing assert. */
  function NameByte(m: Matcher, c: char): Option<Matcher> {
    var Matcher(h, index) := m;
    match h
    case General => Some(Matcher(General, index))
    case C => Some(Matcher(if c == 'o' then CO else General, index + 1))
    case CO => Some(Matcher(if c == 'n' then CON else General, index + 1))
    case CON =>
      Some(Matcher(if c == 'n' then Matching(Connection) else if c == 't' then Matching(ContentLength) else General,
                   index + 1))
    case Matching(n) => Some(WordByte(NameText(n), index, c, h, Matched(KnownAs(n)), General))
    case Matched(_) => Some(Matcher(if c != ' ' then General else h, index))
    case _ => None
  }

  /** The switch of s_header_value for the list-valued headers. */
  function TokenByte(m: Matcher, ch: char): Matcher {
    var Matcher(h, index) := m;
    var c := Lower(ch);
    match h
    case CodingStart =>
      Matcher(if c == 'c' then CodingMatching
              else if Token(c) != NUL then CodingToken
              else if c == ' ' || c == TAB then h
              else General, index)
    case CodingMatching => WordByte(CHUNKED, index, c, h, CodingChunked, CodingToken)
    case CodingToken => if ch == ',' then Matcher(CodingStart, 0) else Matcher(h, index)
    case CodingChunked => Matcher(if ch != ' ' then CodingToken else h, index)
    case OptionStart =>
      Matcher(if c == 'k' then OptionMatching(KeepAliveOption)
              else if c == 'c' then OptionMatching(CloseOption)
              else if c == 'u' then OptionMatching(UpgradeOption)
              else if Token(c) != NUL then OptionToken
              else if c == ' ' || c == TAB then h
              else General, index)
    case OptionMatching(o) => WordByte(OptionText(o), index, c, h, OptionMatched(o), OptionToken)
    case OptionToken => if ch == ',' then Matcher(OptionStart, 0) else Matcher(h, index)
    case OptionMatched(_) =>
      if ch == ',' then Matcher(OptionStart, 0) else Matcher(if ch != ' ' then OptionToken else h, index)
    case _ => Matcher(General, index)
  }
}
