/** Character classes, methods and URL states of the request parser (non-strict mode). */
module HttpSyntax {
  import opened Bytes
  import opened Options

  const CR: Byte := 13
  const LF: Byte := 10
  const SP: Byte := 32
  const TAB: Byte := 9

  function Code(c: char): (b: Byte)
  {
    (c as int) % 256
  }

  /** The character at i, or the terminating NUL. */
  function CharAt(s: string, i: nat): Byte
  {
    if i < |s| then Code(s[i]) else 0
  }

  /** Bitwise or with 0x20. */
  function Lower(ch: Byte): (c: Byte)
    ensures c > 0
  {
    if ch / 32 % 2 == 0 then ch + 32 else ch
  }

  predicate IsUpper(ch: Byte) { Code('A') <= ch <= Code('Z') }

  predicate IsAlpha(ch: Byte) { Code('a') <= Lower(ch) <= Code('z') }

  predicate IsNum(ch: Byte) { Code('0') <= ch <= Code('9') }

  predicate OneOf(ch: Byte, s: string)
  {
    exists i :: 0 <= i < |s| && Code(s[i]) == ch
  }

  predicate IsUserinfoChar(ch: Byte)
  {
    IsAlpha(ch) || IsNum(ch) || OneOf(ch, "-_.!~*'()%;:&=+$,")
  }

  predicate IsUrlChar(ch: Byte)
  {
    ch == TAB || ch == 12 || (33 <= ch <= 126 && ch != Code('#') && ch != Code('?')) || ch >= 128
  }

  predicate IsHeaderChar(ch: Byte)
  {
    ch == CR || ch == LF || ch == TAB || (ch > 31 && ch != 127)
  }

  /** The lower-case form of a token character, 0 for other characters. */
  function StrictToken(ch: Byte): Byte
  {
    if IsUpper(ch) then ch + 32
    else if Code('a') <= ch <= Code('z') || IsNum(ch) || OneOf(ch, "!#$%&'*+-.^_`|~") then ch
    else 0
  }

  function Token(ch: Byte): Byte
  {
    if ch == SP then SP else StrictToken(ch)
  }

  /** The table has 128 entries of its own; the other half is zeros, so that these bytes are read as 0. */
  function Unhex(ch: Byte): Option<nat>
  {
    if ch >= 128 then Some(0)
    else if IsNum(ch) then Some(ch - Code('0'))
    else if Code('A') <= ch <= Code('F') then Some(ch - Code('A') + 10)
    else if Code('a') <= ch <= Code('f') then Some(ch - Code('a') + 10)
    else None
  }

  // ----- methods

  datatype Method =
    | DELETE | GET | HEAD | POST | PUT | CONNECT | OPTIONS | TRACE | COPY | LOCK | MKCOL | MOVE
    | PROPFIND | PROPPATCH | SEARCH | UNLOCK | BIND | REBIND | UNBIND | ACL | REPORT | MKACTIVITY
    | CHECKOUT | MERGE | MSEARCH | NOTIFY | SUBSCRIBE | UNSUBSCRIBE | PATCH | PURGE | MKCALENDAR
    | LINK | UNLINK | SOURCE | DESCRIBE | ANNOUNCE | SETUP | PLAY | PAUSE | TEARDOWN
    | GET_PARAMETER | SET_PARAMETER | REDIRECT | RECORD | FLUSH

  function MethodString(m: Method): string
  {
    match m
    case DELETE => "DELETE" case GET => "GET" case HEAD => "HEAD" case POST => "POST" case PUT => "PUT"
    case CONNECT => "CONNECT" case OPTIONS => "OPTIONS" case TRACE => "TRACE" case COPY => "COPY"
    case LOCK => "LOCK" case MKCOL => "MKCOL" case MOVE => "MOVE" case PROPFIND => "PROPFIND"
    case PROPPATCH => "PROPPATCH" case SEARCH => "SEARCH" case UNLOCK => "UNLOCK" case BIND => "BIND"
    case REBIND => "REBIND" case UNBIND => "UNBIND" case ACL => "ACL" case REPORT => "REPORT"
    case MKACTIVITY => "MKACTIVITY" case CHECKOUT => "CHECKOUT" case MERGE => "MERGE"
    case MSEARCH => "M-SEARCH" case NOTIFY => "NOTIFY" case SUBSCRIBE => "SUBSCRIBE"
    case UNSUBSCRIBE => "UNSUBSCRIBE" case PATCH => "PATCH" case PURGE => "PURGE"
    case MKCALENDAR => "MKCALENDAR" case LINK => "LINK" case UNLINK => "UNLINK" case SOURCE => "SOURCE"
    case DESCRIBE => "DESCRIBE" case ANNOUNCE => "ANNOUNCE" case SETUP => "SETUP" case PLAY => "PLAY"
    case PAUSE => "PAUSE" case TEARDOWN => "TEARDOWN" case GET_PARAMETER => "GET_PARAMETER"
    case SET_PARAMETER => "SET_PARAMETER" case REDIRECT => "REDIRECT" case RECORD => "RECORD"
    case FLUSH => "FLUSH"
  }

  /** The method assumed after its first letter. */
  function FirstMethod(ch: Byte): Option<Method>
  {
    if ch == Code('A') then Some(ACL) else if ch == Code('B') then Some(BIND)
    else if ch == Code('C') then Some(CONNECT) else if ch == Code('D') then Some(DELETE)
    else if ch == Code('F') then Some(FLUSH) else if ch == Code('G') then Some(GET)
    else if ch == Code('H') then Some(HEAD) else if ch == Code('L') then Some(LOCK)
    else if ch == Code('M') then Some(MKCOL) else if ch == Code('N') then Some(NOTIFY)
    else if ch == Code('O') then Some(OPTIONS) else if ch == Code('P') then Some(POST)
    else if ch == Code('R') then Some(REPORT) else if ch == Code('S') then Some(SUBSCRIBE)
    else if ch == Code('T') then Some(TRACE) else if ch == Code('U') then Some(UNLOCK)
    else None
  }

  /** Where a letter that does not fit the assumed method leads. */
  function OtherMethod(m: Method, index: nat, ch: Byte): Option<Method>
  {
    match (m, index)
    case (ACL, 1) => Switched(ch, 'N', ANNOUNCE)
    case (DELETE, 2) => Switched(ch, 'S', DESCRIBE)
    case (GET, 3) => Switched(ch, '_', GET_PARAMETER)
    case (POST, 1) =>
      if ch == Code('U') then Some(PUT) else if ch == Code('A') then Some(PATCH)
      else if ch == Code('R') then Some(PROPFIND) else Switched(ch, 'L', PLAY)
    case (PUT, 2) => Switched(ch, 'R', PURGE)
    case (PATCH, 2) => Switched(ch, 'U', PAUSE)
    case (CONNECT, 1) => Switched(ch, 'H', CHECKOUT)
    case (CONNECT, 2) => Switched(ch, 'P', COPY)
    case (MKCOL, 1) =>
      if ch == Code('O') then Some(MOVE) else if ch == Code('E') then Some(MERGE) else Switched(ch, '-', MSEARCH)
    case (MKCOL, 2) => Switched(ch, 'A', MKACTIVITY)
    case (MKCOL, 3) => Switched(ch, 'A', MKCALENDAR)
    case (SUBSCRIBE, 1) => if ch == Code('E') then Some(SEARCH) else Switched(ch, 'O', SOURCE)
    case (SEARCH, 2) => Switched(ch, 'T', SETUP)
    case (SETUP, 3) => Switched(ch, '_', SET_PARAMETER)
    case (TRACE, 1) => Switched(ch, 'E', TEARDOWN)
    case (REPORT, 2) =>
      if ch == Code('B') then Some(REBIND) else if ch == Code('C') then Some(RECORD) else Switched(ch, 'D', REDIRECT)
    case (PROPFIND, 4) => Switched(ch, 'P', PROPPATCH)
    case (LOCK, 1) => Switched(ch, 'I', LINK)
    case (UNLOCK, 2) => if ch == Code('S') then Some(UNSUBSCRIBE) else Switched(ch, 'B', UNBIND)
    case (UNLOCK, 3) => Switched(ch, 'I', UNLINK)
    case _ => None
  }

  function Switched(ch: Byte, c: char, m: Method): Option<Method>
  {
    if ch == Code(c) then Some(m) else None
  }

  // ----- states

  datatype State =
    | Dead | StartReq | ReqMethod | SpacesBeforeUrl
    | Schema | SchemaSlash | SchemaSlashSlash | ServerStart | Server | ServerWithAt
    | Path | QueryStart | Query | FragmentStart | Fragment
    | HttpStart | HttpH | HttpHT | HttpHTT | HttpHTTP | HttpMajor | HttpDot | HttpMinor | HttpEnd
    | LineAlmostDone
    | FieldStart | Field | DiscardWs | DiscardWsAlmostDone | DiscardLws | ValueStart | Value | ValueLws
    | HeaderAlmostDone
    | ChunkSizeStart | ChunkSize | ChunkParameters | ChunkSizeAlmostDone
    | HeadersAlmostDone | HeadersDone
    | ChunkData | ChunkDataAlmostDone | ChunkDataDone | BodyIdentity | MessageDone

  /** `PARSING_HEADER`. */
  predicate ParsingHeader(s: State)
  {
    !(s.ChunkData? || s.ChunkDataAlmostDone? || s.ChunkDataDone? || s.BodyIdentity? || s.MessageDone?)
  }

  predicate UrlState(s: State)
  {
    (s.Schema? || s.SchemaSlash? || s.SchemaSlashSlash? || s.ServerStart? || s.Server?
    || s.ServerWithAt? || s.Path? || s.QueryStart? || s.Query? || s.FragmentStart? || s.Fragment?)
  }

  function AfterServer(ch: Byte): State
  {
    if ch == Code('/') then Path
    else if ch == Code('?') then QueryStart
    else if ch == Code('@') then ServerWithAt
    else if IsUserinfoChar(ch) || ch == Code('[') || ch == Code(']') then Server
    else Dead
  }

  /** `parse_url_char`. */
  function ParseUrlChar(s: State, ch: Byte): (t: State)
    ensures UrlState(t) || t == Dead
  {
    if (ch == SP || ch == CR || ch == LF) then Dead else
    match s
    case SpacesBeforeUrl => if ch == Code('/') || ch == Code('*') then Path else if IsAlpha(ch) then Schema else Dead
    case Schema => if IsAlpha(ch) then Schema else if ch == Code(':') then SchemaSlash else Dead
    case SchemaSlash => if ch == Code('/') then SchemaSlashSlash else Dead
    case SchemaSlashSlash => if ch == Code('/') then ServerStart else Dead
    case ServerWithAt => if ch == Code('@') then Dead else AfterServer(ch)
    case ServerStart => AfterServer(ch)
    case Server => AfterServer(ch)
    case Path =>
      if IsUrlChar(ch) then Path else if ch == Code('?') then QueryStart else if ch == Code('#') then FragmentStart else Dead
    case QueryStart =>
      if IsUrlChar(ch) || ch == Code('?') then Query else if ch == Code('#') then FragmentStart else Dead
    case Query =>
      if IsUrlChar(ch) || ch == Code('?') then Query else if ch == Code('#') then FragmentStart else Dead
    case FragmentStart =>
      if IsUrlChar(ch) || ch == Code('?') then Fragment else if ch == Code('#') then FragmentStart else Dead
    case Fragment => if IsUrlChar(ch) || ch == Code('?') || ch == Code('#') then Fragment else Dead
    case _ => Dead
  }
}
