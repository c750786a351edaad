/** The parser's struct, its enumerations and the events its callbacks report
    (http_parser.h and the head of http_parser.c). */
module Types {
  import opened Bytes

  datatype Option<+T> = None | Some(value: T)

  const U64_MAX: nat := 0xFFFF_FFFF_FFFF_FFFF

  datatype Kind = Request | Response | Both

  /** enum state, grouped by the part of a message that is being read. */
  datatype State =
    | Idle(idle: IdleState)
    | ResOrRespH
    | InStatusLine(res: ResState)
    | ReqMethod
    | InUrl(url: UrlState)
    | InVersion(req: ReqState)
    | HeaderFieldStart
    | InName(name: NameState)
    | InValue(value: ValueState)
    | HeadersAlmostDone
    | HeadersDone
    | InChunk(chunk: ChunkState)
    | BodyIdentity
    | BodyIdentityEof
    | MessageDone

  datatype IdleState = Dead | StartReqOrRes | StartRes | StartReq
  datatype ResState =
    | ResH | ResHT | ResHTT | ResHTTP | ResHttpMajor | ResHttpDot | ResHttpMinor | ResHttpEnd
    | ResFirstStatusCode | ResStatusCode | ResStatusStart | ResStatus | ResLineAlmostDone
  datatype UrlState =
    | ReqSpacesBeforeUrl
    | ReqSchema | ReqSchemaSlash | ReqSchemaSlashSlash | ReqServerStart | ReqServer | ReqServerWithAt
    | ReqPath | ReqQueryStringStart | ReqQueryString | ReqFragmentStart | ReqFragment
  datatype ReqState =
    | ReqHttpStart | ReqHttpH | ReqHttpHT | ReqHttpHTT | ReqHttpHTTP | ReqHttpI | ReqHttpIC
    | ReqHttpMajor | ReqHttpDot | ReqHttpMinor | ReqHttpEnd | ReqLineAlmostDone
  datatype NameState =
    HeaderField | HeaderValueDiscardWs | HeaderValueDiscardWsAlmostDone | HeaderValueDiscardLws
  datatype ValueState = HeaderValueStart | HeaderValue | HeaderValueLws | HeaderAlmostDone
  datatype ChunkState =
    | ChunkSizeStart | ChunkSize | ChunkParameters | ChunkSizeAlmostDone
    | ChunkData | ChunkDataAlmostDone | ChunkDataDone

  /** The header names the parser knows, and the options it knows in a Connection value. */
  datatype HeaderName = Connection | ProxyConnection | ContentLength | TransferEncoding | Upgrade
  datatype ConnectionOption = KeepAliveOption | CloseOption | UpgradeOption

  /** enum header_states. `Matching(n)` and `Matched(n)` are h_matching_* and h_connection,
      h_content_length, h_transfer_encoding, h_upgrade; `Coding*` are the states of a
      Transfer-Encoding value and `Option*` those of a Connection value. */
  datatype HeaderState =
    | General
    | C | CO | CON
    | Matching(name: HeaderName)
    | Matched(name: HeaderName)
    | LengthNum | LengthWs
    | CodingStart | CodingMatching | CodingToken | CodingChunked
    | OptionStart | OptionMatching(option: ConnectionOption) | OptionToken | OptionMatched(option: ConnectionOption)

  datatype Method =
    | DELETE | GET | HEAD | POST | PUT | CONNECT | OPTIONS | TRACE | COPY | LOCK | MKCOL | MOVE
    | PROPFIND | PROPPATCH | SEARCH | UNLOCK | BIND | REBIND | UNBIND | ACL | REPORT | MKACTIVITY
    | CHECKOUT | MERGE | MSEARCH | NOTIFY | SUBSCRIBE | UNSUBSCRIBE | PATCH | PURGE | MKCALENDAR
    | LINK | UNLINK | SOURCE

  function MethodText(m: Method): (r: string)
    ensures 3 <= |r| <= 11
  {
    match m
    case DELETE => "DELETE" case GET => "GET" case HEAD => "HEAD" case POST => "POST" case PUT => "PUT"
    case CONNECT => "CONNECT" case OPTIONS => "OPTIONS" case TRACE => "TRACE" case COPY => "COPY"
    case LOCK => "LOCK" case MKCOL => "MKCOL" case MOVE => "MOVE" case PROPFIND => "PROPFIND"
    case PROPPATCH => "PROPPATCH" case SEARCH => "SEARCH" case UNLOCK => "UNLOCK" case BIND => "BIND"
    case REBIND => "REBIND" case UNBIND => "UNBIND" case ACL => "ACL" case REPORT => "REPORT"
    case MKACTIVITY => "MKACTIVITY" case CHECKOUT => "CHECKOUT" case MERGE => "MERGE"
    case MSEARCH => "M-SEARCH" case NOTIFY => "NOTIFY" case SUBSCRIBE => "SUBSCRIBE"
    case UNSUBSCRIBE => "UNSUBSCRIBE" case PATCH => "PATCH" case PURGE => "PURGE"
    case MKCALENDAR => "MKCALENDAR" case LINK => "LINK" case UNLINK => "UNLINK" case SOURCE => "SOURCE"
  }

  datatype Errno =
    | INVALID_EOF_STATE | HEADER_OVERFLOW | CLOSED_CONNECTION | INVALID_VERSION | INVALID_STATUS
    | INVALID_METHOD | INVALID_URL | LF_EXPECTED | INVALID_HEADER_TOKEN | INVALID_CONTENT_LENGTH
    | UNEXPECTED_CONTENT_LENGTH | INVALID_CHUNK_SIZE | INVALID_CONSTANT | INVALID_INTERNAL_STATE | STRICT
    | INVALID_TRANSFER_ENCODING

  /** The F_* bits of `parser->flags`. */
  datatype Flags = Flags(
    chunked: bool, keepAlive: bool, close: bool, connectionUpgrade: bool,
    trailing: bool, upgrade: bool, skipBody: bool, contentLength: bool)

  const NO_FLAGS := Flags(false, false, false, false, false, false, false, false)

  /** What the embedder chose before parsing: two struct bits and the static `max_header_size`. */
  datatype Config = Config(lenient: bool, allowChunkedLength: bool, maxHeaderSize: nat)

  const DEFAULT_CONFIG := Config(false, false, 80 * 1024)

  /** `header_state` and `index`: how much of which word has been matched. */
  datatype Matcher = Matcher(header: HeaderState, index: nat)

  /** What decides where a body ends and whether another message may follow. */
  datatype Framing = Framing(flags: Flags, usesTransferEncoding: bool, contentLength: nat)

  /** What the request or status line said. */
  datatype Line = Line(kind: Kind, major: nat, minor: nat, statusCode: nat, verb: Method)

  /** struct http_parser without `http_errno`, which is carried by the outcome of a run. */
  datatype Parser = Parser(
    state: State, matcher: Matcher, framing: Framing, line: Line, nread: nat, upgrade: bool, config: Config)

  /** http_parser_init: everything zero but the type and the start state. */
  function Init(kind: Kind, config: Config): Parser {
    var start := match kind case Request => StartReq case Response => StartRes case Both => StartReqOrRes;
    Parser(Idle(start), Matcher(General, 0), Framing(NO_FLAGS, false, 0), Line(kind, 0, 0, 0, DELETE), 0, false, config)
  }

  /** PARSING_HEADER(state): the states whose bytes count against `max_header_size`. */
  predicate ParsingHeader(s: State) {
    match s
    case InChunk(c) => !(c.ChunkData? || c.ChunkDataAlmostDone? || c.ChunkDataDone?)
    case BodyIdentity | BodyIdentityEof | MessageDone => false
    case _ => true
  }

  /** The states in which a URL may end with a space, CR or LF. */
  predicate UrlMayEnd(u: UrlState) {
    u.ReqServer? || u.ReqServerWithAt? || u.ReqPath? || u.ReqQueryStringStart? || u.ReqQueryString? ||
    u.ReqFragmentStart? || u.ReqFragment?
  }

  /** The data callbacks and the notify callbacks of struct http_parser_settings. */
  datatype Part = Url | Status | Field | Value | Body
  datatype Notice = MessageBegin | HeadersComplete | MessageComplete | ChunkHeader | ChunkComplete
  datatype Event = Data(part: Part, text: Text) | Note(notice: Notice)
}
