/** The request parser, one byte at a time. */
module HttpFold {
  import opened Bytes
  import opened Options
  import opened HttpSyntax

  const ULLONG_MAX: nat := 0xFFFF_FFFF_FFFF_FFFF

  datatype HeaderState =
    | General | C | CO | CON
    | MatchingConnection | MatchingProxyConnection | MatchingContentLength | MatchingTransferEncoding | MatchingUpgrade
    | Connection | ContentLength | ContentLengthNum | ContentLengthWs | TransferEncoding | Upgrade
    | MatchingChunked | TokenStart | MatchingKeepAlive | MatchingClose | MatchingConnectionUpgrade | ConnectionToken
    | Chunked | KeepAlive | Close | ConnectionUpgrade

  datatype Errno =
    | OK | INVALID_EOF_STATE | HEADER_OVERFLOW | CLOSED_CONNECTION | INVALID_VERSION | INVALID_METHOD | INVALID_URL
    | LF_EXPECTED | INVALID_HEADER_TOKEN | INVALID_CONTENT_LENGTH | UNEXPECTED_CONTENT_LENGTH
    | INVALID_CHUNK_SIZE | INVALID_CONSTANT | INVALID_INTERNAL_STATE

  datatype Flag =
    | F_CHUNKED | F_CONNECTION_KEEP_ALIVE | F_CONNECTION_CLOSE | F_CONNECTION_UPGRADE | F_TRAILING
    | F_UPGRADE | F_CONTENTLENGTH

  /** `struct http_parser` of a request parser, without `nread` and `data`. */
  datatype Parser = Parser(
    state: State, headerState: HeaderState, index: nat, flags: set<Flag>, contentLength: nat,
    major: nat, minor: nat, verb: Method, upgrade: bool, errno: Errno)

  // ----- what the callbacks are told

  datatype Kind = Url | HeaderField | HeaderValue | Body

  datatype Notice = MessageBegin | HeadersComplete | ChunkHeader | ChunkComplete | MessageComplete

  datatype Call = Data(kind: Kind, bytes: seq<Byte>) | Notify(n: Notice)

  /** Data callbacks of one kind in a row are one piece of data. */
  type Log = seq<Call>

  predicate Ends(log: Log, kind: Kind)
  {
    log != [] && log[|log| - 1].Data? && log[|log| - 1].kind == kind
  }

  function Append(log: Log, kind: Kind, bytes: seq<Byte>): Log
  {
    if Ends(log, kind) then log[|log| - 1 := Data(kind, log[|log| - 1].bytes + bytes)]
    else log + [Data(kind, bytes)]
  }

  lemma {:induction false} AppendTwice(log: Log, kind: Kind, a: seq<Byte>, b: seq<Byte>)
    ensures Append(Append(log, kind, a), kind, b) == Append(log, kind, a + b)
  {
    if Ends(log, kind) {
      var k, c := |log| - 1, log[|log| - 1].bytes;
      AppendEnded(log[k := Data(kind, c + a)], kind, b);
      assert (c + a) + b == c + (a + b);
      assert log[k := Data(kind, c + a)][k := Data(kind, c + (a + b))] == log[k := Data(kind, c + (a + b))];
    } else {
      AppendEnded(log + [Data(kind, a)], kind, b);
      assert (log + [Data(kind, a)])[|log| := Data(kind, a + b)] == log + [Data(kind, a + b)];
    }
  }

  lemma AppendEnded(log: Log, kind: Kind, b: seq<Byte>)
    requires Ends(log, kind)
    ensures Append(log, kind, b) == log[|log| - 1 := Data(kind, log[|log| - 1].bytes + b)]
  {
  }

  // ----- header names and values

  /** One more character of a word to recognise. */
  function Matched(p: Parser, c: Byte, word: string, miss: HeaderState, done: HeaderState): Parser
  {
    var index := p.index + 1;
    if index > |word| || c != CharAt(word, index) then p.(index := index, headerState := miss)
    else if index == |word| - 1 then p.(index := index, headerState := done)
    else p.(index := index)
  }

  /** A character of a header name, with c its token form. */
  function FieldChar(p: Parser, ch: Byte, c: Byte): Parser
  {
    match p.headerState
    case C => p.(index := p.index + 1, headerState := if c == Code('o') then CO else General)
    case CO => p.(index := p.index + 1, headerState := if c == Code('n') then CON else General)
    case CON =>
      p.(index := p.index + 1, headerState :=
        if c == Code('n') then MatchingConnection else if c == Code('t') then MatchingContentLength else General)
    case MatchingConnection => Matched(p, c, "connection", General, Connection)
    case MatchingProxyConnection => Matched(p, c, "proxy-connection", General, Connection)
    case MatchingContentLength => Matched(p, c, "content-length", General, ContentLength)
    case MatchingTransferEncoding => Matched(p, c, "transfer-encoding", General, TransferEncoding)
    case MatchingUpgrade => Matched(p, c, "upgrade", General, Upgrade)
    case Connection => if ch != SP then p.(headerState := General) else p
    case ContentLength => if ch != SP then p.(headerState := General) else p
    case TransferEncoding => if ch != SP then p.(headerState := General) else p
    case Upgrade => if ch != SP then p.(headerState := General) else p
    case _ => p
  }

  function Failed(p: Parser, e: Errno): Parser
  {
    p.(errno := e)
  }

  function LengthDigit(p: Parser, ch: Byte): Parser
  {
    if ch == SP then p.(headerState := ContentLengthWs)
    else if !IsNum(ch) || (ULLONG_MAX - 10) / 10 < p.contentLength then Failed(p, INVALID_CONTENT_LENGTH)
    else p.(headerState := ContentLengthNum, contentLength := p.contentLength * 10 + (ch - Code('0')))
  }

  function TokenFlag(p: Parser): set<Flag>
  {
    match p.headerState
    case KeepAlive => p.flags + {F_CONNECTION_KEEP_ALIVE}
    case Close => p.flags + {F_CONNECTION_CLOSE}
    case ConnectionUpgrade => p.flags + {F_CONNECTION_UPGRADE}
    case _ => p.flags
  }

  function TokenEnd(p: Parser, ch: Byte): Parser
  {
    if ch == Code(',') then p.(flags := TokenFlag(p), headerState := TokenStart, index := 0)
    else if ch != SP then p.(headerState := ConnectionToken)
    else p
  }

  /** A character of a header value after the first. */
  function ValueChar(p: Parser, ch: Byte): Parser
  {
    var c := Lower(ch);
    match p.headerState
    case General => p
    case Connection => p
    case TransferEncoding => p
    case ContentLength => if ch == SP then p else LengthDigit(p, ch)
    case ContentLengthNum => LengthDigit(p, ch)
    case ContentLengthWs => if ch == SP then p else Failed(p, INVALID_CONTENT_LENGTH)
    case MatchingChunked => Matched(p, c, "chunked", General, Chunked)
    case TokenStart =>
      if c == Code('k') then p.(headerState := MatchingKeepAlive)
      else if c == Code('c') then p.(headerState := MatchingClose)
      else if c == Code('u') then p.(headerState := MatchingConnectionUpgrade)
      else if StrictToken(c) != 0 then p.(headerState := ConnectionToken)
      else if c == SP || c == TAB then p
      else p.(headerState := General)
    case MatchingKeepAlive => Matched(p, c, "keep-alive", ConnectionToken, KeepAlive)
    case MatchingClose => Matched(p, c, "close", ConnectionToken, Close)
    case MatchingConnectionUpgrade => Matched(p, c, "upgrade", ConnectionToken, ConnectionUpgrade)
    case ConnectionToken => if ch == Code(',') then p.(headerState := TokenStart, index := 0) else p
    case Chunked => if ch != SP then p.(headerState := General) else p
    case KeepAlive => TokenEnd(p, ch)
    case Close => TokenEnd(p, ch)
    case ConnectionUpgrade => TokenEnd(p, ch)
    case _ => p.(headerState := General)
  }

  /** What a finished header adds to the flags. */
  function HeaderFlags(p: Parser): set<Flag>
  {
    if p.headerState.Chunked? then p.flags + {F_CHUNKED} else TokenFlag(p)
  }

  // ----- one pass through the switch

  /** The new fields, a mark to set here, data to deliver up to here, a notification, and whether the
      same byte is looked at again or the parser returns because of an upgrade. */
  datatype Effect = Effect(p: Parser, mark: Option<Kind>, data: Option<Kind>, notice: Option<Notice>, next: Next)

  datatype Next = Advance | Again | Return

  function Go(p: Parser): Effect
  {
    Effect(p, None, None, None, Advance)
  }

  function To(p: Parser, s: State): Effect
  {
    Go(p.(state := s))
  }

  function Fail(p: Parser, e: Errno): Effect
  {
    Go(Failed(p, e))
  }

  function Start(p: Parser, ch: Byte): Effect
  {
    if ch == CR || ch == LF then Go(p) else
    var q := p.(flags := {}, contentLength := ULLONG_MAX);
    if !IsAlpha(ch) || FirstMethod(ch).None? then Fail(q, INVALID_METHOD)
    else Go(q.(verb := FirstMethod(ch).value, index := 1, state := ReqMethod)).(notice := Some(MessageBegin))
  }

  function MethodChar(p: Parser, ch: Byte): Effect
  {
    if ch == 0 then Fail(p, INVALID_METHOD) else
    var expected := CharAt(MethodString(p.verb), p.index);
    var q := p.(index := p.index + 1);
    if ch == SP && expected == 0 then To(q, SpacesBeforeUrl)
    else if ch == expected then Go(q)
    else if (IsUpper(ch) || ch == Code('-') || ch == Code('_')) && OtherMethod(p.verb, p.index, ch).Some? then
      Go(q.(verb := OtherMethod(p.verb, p.index, ch).value))
    else Fail(p, INVALID_METHOD)
  }

  function UrlChar(p: Parser, s: State, ch: Byte): Effect
  {
    var t := ParseUrlChar(s, ch);
    if t == Dead then Fail(p, INVALID_URL) else To(p, t)
  }

  /** In the URL, past the point where it may end. */
  function UrlTail(p: Parser, ch: Byte): Effect
  {
    if ch == SP then To(p, HttpStart).(data := Some(Url))
    else if ch == CR then To(p.(major := 0, minor := 9), LineAlmostDone).(data := Some(Url))
    else if ch == LF then To(p.(major := 0, minor := 9), FieldStart).(data := Some(Url))
    else UrlChar(p, p.state, ch)
  }

  function FieldFirst(p: Parser, ch: Byte): Effect
  {
    if ch == CR then To(p, HeadersAlmostDone)
    else if ch == LF then To(p, HeadersAlmostDone).(next := Again)
    else
      var c := Token(ch);
      if c == 0 then Fail(p, INVALID_HEADER_TOKEN)
      else
        var h := if c == Code('c') then C else if c == Code('p') then MatchingProxyConnection
                 else if c == Code('t') then MatchingTransferEncoding else if c == Code('u') then MatchingUpgrade
                 else General;
        To(p.(index := 0, headerState := h), Field).(mark := Some(HeaderField))
  }

  function ValueFirst(p: Parser, ch: Byte): Effect
  {
    var c, q := Lower(ch), p.(index := 0);
    var e := match p.headerState
      case Upgrade => Go(q.(flags := q.flags + {F_UPGRADE}, headerState := General))
      case TransferEncoding => Go(q.(headerState := if c == Code('c') then MatchingChunked else General))
      case ContentLength =>
        if !IsNum(ch) then Fail(q, INVALID_CONTENT_LENGTH)
        else if F_CONTENTLENGTH in q.flags then Fail(q, UNEXPECTED_CONTENT_LENGTH)
        else Go(q.(flags := q.flags + {F_CONTENTLENGTH}, contentLength := ch - Code('0'), headerState := ContentLengthNum))
      case Connection =>
        Go(q.(headerState := if c == Code('k') then MatchingKeepAlive else if c == Code('c') then MatchingClose
                             else if c == Code('u') then MatchingConnectionUpgrade else ConnectionToken))
      case TokenStart => Go(q)
      case _ => Go(q.(headerState := General));
    e.(p := e.p.(state := Value), mark := Some(HeaderValue))
  }

  function HeadersEnd(p: Parser, ch: Byte): Effect
  {
    if F_TRAILING in p.flags then To(p, MessageDone).(notice := Some(ChunkComplete), next := Again)
    else if F_CHUNKED in p.flags && F_CONTENTLENGTH in p.flags then Fail(p, UNEXPECTED_CONTENT_LENGTH)
    else
      var upgrade := (F_UPGRADE in p.flags && F_CONNECTION_UPGRADE in p.flags) || p.verb == CONNECT;
      To(p.(upgrade := upgrade), HeadersDone).(notice := Some(HeadersComplete), next := Again)
  }

  predicate HasBody(p: Parser)
  {
    F_CHUNKED in p.flags || (p.contentLength > 0 && p.contentLength != ULLONG_MAX)
  }

  function BodyStart(p: Parser): Effect
  {
    var done := To(p, StartReq).(notice := Some(MessageComplete));
    if p.upgrade && (p.verb == CONNECT || !HasBody(p)) then done.(next := Return)
    else if F_CHUNKED in p.flags then To(p, ChunkSizeStart)
    else if HasBody(p) then To(p, BodyIdentity)
    else done
  }

  function SizeDigit(p: Parser, ch: Byte): Effect
  {
    if ch == CR then To(p, ChunkSizeAlmostDone)
    else
      var v := Unhex(ch);
      if v.None? then
        if ch == Code(';') || ch == SP then To(p, ChunkParameters) else Fail(p, INVALID_CHUNK_SIZE)
      else if (ULLONG_MAX - 16) / 16 < p.contentLength then Fail(p, INVALID_CONTENT_LENGTH)
      else Go(p.(contentLength := p.contentLength * 16 + v.value))
  }

  /** From the first letter of a request to the end of its first line. */
  function LineTurn(p: Parser, ch: Byte): Effect
  {
    match p.state
    case StartReq => Start(p, ch)
    case ReqMethod => MethodChar(p, ch)
    case SpacesBeforeUrl =>
      if ch == SP then Go(p)
      else UrlChar(p, if p.verb == CONNECT then ServerStart else SpacesBeforeUrl, ch).(mark := Some(Url))
    case Schema => UrlChar(p, p.state, ch)
    case SchemaSlash => UrlChar(p, p.state, ch)
    case SchemaSlashSlash => UrlChar(p, p.state, ch)
    case ServerStart => UrlChar(p, p.state, ch)
    case HttpStart =>
      if ch == Code('H') || ch == Code('R') then To(p, HttpH) else if ch == SP then Go(p) else Fail(p, INVALID_CONSTANT)
    case HttpH => To(p, HttpHT)
    case HttpHT => To(p, HttpHTT)
    case HttpHTT => To(p, HttpHTTP)
    case HttpHTTP => To(p, HttpMajor)
    case HttpMajor => if IsNum(ch) then To(p.(major := ch - Code('0')), HttpDot) else Fail(p, INVALID_VERSION)
    case HttpDot => if ch == Code('.') then To(p, HttpMinor) else Fail(p, INVALID_VERSION)
    case HttpMinor => if IsNum(ch) then To(p.(minor := ch - Code('0')), HttpEnd) else Fail(p, INVALID_VERSION)
    case HttpEnd =>
      if ch == CR then To(p, LineAlmostDone) else if ch == LF then To(p, FieldStart) else Fail(p, INVALID_VERSION)
    case LineAlmostDone => if ch == LF then To(p, FieldStart) else Fail(p, LF_EXPECTED)
    case _ => if UrlState(p.state) then UrlTail(p, ch) else Fail(p, INVALID_INTERNAL_STATE)
  }

  /** Between header names and values, up to the end of the headers. */
  function HeaderTurn(p: Parser, ch: Byte): Effect
  {
    match p.state
    case FieldStart => FieldFirst(p, ch)
    case DiscardWs =>
      if ch == SP || ch == TAB then Go(p)
      else if ch == CR then To(p, DiscardWsAlmostDone)
      else if ch == LF then To(p, DiscardLws)
      else ValueFirst(p, ch)
    case DiscardWsAlmostDone => To(p, DiscardLws)
    case DiscardLws =>
      if ch == SP || ch == TAB then To(p, DiscardWs)
      else To(p.(flags := HeaderFlags(p)), FieldStart).(mark := Some(HeaderValue), data := Some(HeaderValue), next := Again)
    case ValueStart => ValueFirst(p, ch)
    case HeaderAlmostDone => if ch == LF then To(p, ValueLws) else Fail(p, LF_EXPECTED)
    case ValueLws =>
      if ch == SP || ch == TAB then To(p, ValueStart).(next := Again)
      else To(p.(flags := HeaderFlags(p)), FieldStart).(next := Again)
    case HeadersAlmostDone => HeadersEnd(p, ch)
    case HeadersDone => BodyStart(p)
    case _ => Fail(p, INVALID_INTERNAL_STATE)
  }

  /** Around the chunks of a body, and the end of the message. */
  function ChunkTurn(p: Parser, ch: Byte): Effect
  {
    match p.state
    case MessageDone => To(p, StartReq).(notice := Some(MessageComplete), next := if p.upgrade then Return else Advance)
    case ChunkSizeStart =>
      if Unhex(ch).None? then Fail(p, INVALID_CHUNK_SIZE) else To(p.(contentLength := Unhex(ch).value), ChunkSize)
    case ChunkSize => SizeDigit(p, ch)
    case ChunkParameters => if ch == CR then To(p, ChunkSizeAlmostDone) else Go(p)
    case ChunkSizeAlmostDone =>
      (if p.contentLength == 0 then To(p.(flags := p.flags + {F_TRAILING}), FieldStart)
       else To(p, ChunkData)).(notice := Some(ChunkHeader))
    case ChunkDataAlmostDone => To(p, ChunkDataDone).(data := Some(Body))
    case ChunkDataDone => To(p, ChunkSizeStart).(notice := Some(ChunkComplete))
    case _ => Fail(p, INVALID_INTERNAL_STATE)
  }

  predicate HeaderPart(s: State)
  {
    (s.FieldStart? || s.DiscardWs? || s.DiscardWsAlmostDone? || s.DiscardLws? || s.ValueStart?
    || s.HeaderAlmostDone? || s.ValueLws? || s.HeadersAlmostDone? || s.HeadersDone?)
  }

  predicate ChunkPart(s: State)
  {
    (s.MessageDone? || s.ChunkSizeStart? || s.ChunkSize? || s.ChunkParameters? || s.ChunkSizeAlmostDone?
    || s.ChunkDataAlmostDone? || s.ChunkDataDone?)
  }

  /** The cases that look at one byte; the loops over header names, header values and bodies are apart. */
  function Plain(p: Parser, ch: Byte): Effect
  {
    if HeaderPart(p.state) then HeaderTurn(p, ch)
    else if ChunkPart(p.state) then ChunkTurn(p, ch)
    else LineTurn(p, ch)
  }

  predicate Looping(s: State)
  {
    (s.Field? || s.Value? || s.BodyIdentity? || s.ChunkData?)
  }

  predicate BodyState(s: State)
  {
    (s.BodyIdentity? || s.ChunkData?)
  }

  function NameChar(p: Parser, ch: Byte): Effect
  {
    var c := Token(ch);
    if c != 0 then Go(FieldChar(p, ch, c))
    else if ch == Code(':') then To(p, DiscardWs).(data := Some(HeaderField))
    else Fail(p, INVALID_HEADER_TOKEN)
  }

  function TextChar(p: Parser, ch: Byte): Effect
  {
    if ch == CR then To(p, HeaderAlmostDone).(data := Some(HeaderValue))
    else if ch == LF then To(p, HeaderAlmostDone).(data := Some(HeaderValue), next := Again)
    else if !IsHeaderChar(ch) then Fail(p, INVALID_HEADER_TOKEN)
    else Go(ValueChar(p, ch))
  }

  /** A byte of a body that is `n` bytes long from here on. */
  function BodyByte(p: Parser, n: nat): Effect
  {
    var q := p.(contentLength := if p.contentLength > n then p.contentLength - n else 0);
    if q.contentLength > 0 then Go(q)
    else if p.state == BodyIdentity then To(q, MessageDone).(next := Again)
    else To(q, ChunkDataAlmostDone)
  }

  /** One pass with one byte. */
  function Turn(p: Parser, ch: Byte): Effect
  {
    match p.state
    case Field => NameChar(p, ch)
    case Value => TextChar(p, ch)
    case BodyIdentity => BodyByte(p, 1)
    case ChunkData => BodyByte(p, 1)
    case _ => Plain(p, ch)
  }

  /** How many more passes one byte can take. */
  function Rank(s: State): nat
  {
    match s
    case DiscardLws => 4
    case ValueLws => 4
    case FieldStart => 3
    case HeadersAlmostDone => 2
    case Value => 2
    case BodyIdentity => 2
    case _ => 1
  }

  lemma RankDrops(p: Parser, ch: Byte)
    requires Turn(p, ch).next.Again?
    ensures Rank(Turn(p, ch).p.state) < Rank(p.state)
  {
    hide LineTurn, HeaderTurn, ChunkTurn;
    LineOnce(p, ch);
    ChunkOnce(p, ch);
    if HeaderPart(p.state) {
      HeaderRankDrops(p, ch);
    }
  }

  lemma LineOnce(p: Parser, ch: Byte)
    ensures !LineTurn(p, ch).next.Again?
  {
    hide FirstMethod, OtherMethod, MethodString, ParseUrlChar;
  }

  lemma ChunkOnce(p: Parser, ch: Byte)
    ensures !ChunkTurn(p, ch).next.Again?
  {
  }

  lemma HeaderRankDrops(p: Parser, ch: Byte)
    requires HeaderTurn(p, ch).next.Again?
    ensures Rank(HeaderTurn(p, ch).p.state) < Rank(p.state)
  {
    hide ValueFirst;
    ValueFirstOnce(p, ch);
  }

  lemma ValueFirstOnce(p: Parser, ch: Byte)
    ensures !ValueFirst(p, ch).next.Again?
  {
  }

  // ----- the fold

  /** The datum a state is in the middle of. */
  function KindOf(s: State): Option<Kind>
  {
    if UrlState(s) then Some(Url) else if s == Field then Some(HeaderField) else if s == Value then Some(HeaderValue) else None
  }

  datatype Run = Run(p: Parser, log: Log, consumed: nat, exited: bool)

  predicate Halted(r: Run)
  {
    r.exited || !r.p.errno.OK?
  }

  function Noted(log: Log, data: Option<Kind>, notice: Option<Notice>): Log
  {
    var told := if data.Some? && data.value != Body then Append(log, data.value, []) else log;
    if notice.Some? then told + [Notify(notice.value)] else told
  }

  /** All passes with one byte: a byte of a body is delivered first, and data that ends is delivered
      even if it is empty. */
  function Passes(p: Parser, log: Log, ch: Byte): (Parser, Log, bool)
    decreases Rank(p.state)
  {
    var e := Turn(p, ch);
    var took := if BodyState(p.state) then Append(log, Body, [ch]) else log;
    var noted := Noted(took, e.data, e.notice);
    if e.next.Again? then
      RankDrops(p, ch);
      Passes(e.p, noted, ch)
    else
      (e.p, noted, e.next.Return?)
  }

  /** One byte: it belongs to the datum whose state it leads to. */
  function Step(r: Run, ch: Byte): Run
  {
    if Halted(r) then r else
    var (p, log, exit) := Passes(r.p, r.log, ch);
    if !p.errno.OK? then Run(p, log, r.consumed, false)
    else
      var kind := KindOf(p.state);
      Run(p, if kind.Some? then Append(log, kind.value, [ch]) else log, r.consumed + 1, exit)
  }

  function Fold(r: Run, data: seq<Byte>): Run
  {
    if data == [] then r else Step(Fold(r, data[..|data| - 1]), data[|data| - 1])
  }

  lemma {:induction false} FoldConcat(r: Run, a: seq<Byte>, b: seq<Byte>)
    ensures Fold(r, a + b) == Fold(Fold(r, a), b)
  {
    hide Step;
    if b == [] {
      assert a + b == a;
    } else {
      FoldConcat(r, a, b[..|b| - 1]);
      assert (a + b)[..|a + b| - 1] == a + b[..|b| - 1];
    }
  }

  lemma {:induction false} FoldHalted(r: Run, data: seq<Byte>)
    requires Halted(r)
    ensures Fold(r, data) == r
  {
    if data != [] {
      FoldHalted(r, data[..|data| - 1]);
    }
  }

  lemma FoldOne(r: Run, ch: Byte)
    ensures Fold(r, [ch]) == Step(r, ch)
  {
    assert Fold(r, [ch][..0]) == r;
  }
}
