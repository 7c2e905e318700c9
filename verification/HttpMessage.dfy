/** A whole request, sent in any pieces, comes back out of the parser as it is written. */
module HttpMessage {
  import opened Bytes
  import opened Options
  import opened HttpSyntax
  import opened HttpFold
  import opened HttpTrack
  import opened HttpBody
  import opened HttpNames
  import opened HttpHeaders
  import opened HttpLine
  import opened HttpRequest
  import opened HttpExecute
  import opened HttpCuts

  // ----- requests

  datatype Content = Nothing | Sized(data: seq<Byte>) | Chunked(chunks: seq<Chunk>, last: Chunk)

  datatype Request = Request(line: FirstLine, headers: seq<Header>, content: Content)

  function ContentBytes(c: Content): seq<Byte>
  {
    match c
    case Nothing => []
    case Sized(data) => data
    case Chunked(chunks, last) => AllChunks(chunks) + SizeLine(last) + ([CR] + [LF])
  }

  /** What the callbacks are told about the content, and that the message is complete. */
  function ContentCalls(c: Content): Log
  {
    match c
    case Nothing => [Notify(MessageComplete)]
    case Sized(data) => [Data(Body, data), Notify(MessageComplete)]
    case Chunked(chunks, _) => ChunkCalls(chunks) + [Notify(ChunkHeader), Notify(ChunkComplete), Notify(MessageComplete)]
  }

  /** The content is what the headers announce. */
  predicate GoodContent(q: Request)
    requires GoodHeaders(q.headers)
  {
    var chunked, length := F_CHUNKED in AllFlags(q.headers), LengthOf(q.headers);
    match q.content
    case Nothing => !chunked && (length == None || length == Some(0))
    case Sized(data) => !chunked && data != [] && length == Some(|data|)
    case Chunked(chunks, last) => chunked && length == None && GoodChunks(chunks) && GoodSize(last) && last.data == []
  }

  predicate GoodRequest(q: Request)
  {
    GoodLine(q.line) && GoodHeaders(q.headers) && GoodContent(q)
  }

  function HeadBytes(q: Request): seq<Byte>
    requires GoodRequest(q)
  {
    FirstBytes(q.line) + Lines(q.headers) + ([CR] + [LF])
  }

  function RequestBytes(q: Request): seq<Byte>
    requires GoodRequest(q)
  {
    HeadBytes(q) + ContentBytes(q.content)
  }

  /** All that the callbacks are told about a request. */
  function RequestCalls(q: Request): Log
  {
    [Notify(MessageBegin), Data(Url, TargetBytes(q.line.target))] + HeaderCalls(q.headers) + [Notify(HeadersComplete)]
      + ContentCalls(q.content)
  }

  /** The headers ask for another protocol. */
  predicate Upgrades(q: Request)
  {
    {F_UPGRADE, F_CONNECTION_UPGRADE} <= AllFlags(q.headers)
  }

  // ----- reading a request

  lemma {:induction false} LengthBound(hs: seq<Header>)
    requires GoodHeaders(hs)
    ensures LengthOf(hs).Some? ==> LengthOf(hs).value <= MAX_LENGTH
    ensures LengthOf(hs).Some? <==> F_CONTENTLENGTH in AllFlags(hs)
    ensures F_TRAILING !in AllFlags(hs)
  {
    hide IsLength, IsCoding, IsConnection, IsUpgrade, Spells, IsDecimal, Decimal, WellFormedHeader;
    if hs != [] {
      GoodPrefix(hs);
      LengthBound(hs[..|hs| - 1]);
    }
  }

  /** The fields when the headers have been read. */
  function HeadFields(p: Parser, q: Request, u: Parser): Parser
    requires GoodRequest(q)
  {
    var length := LengthOf(q.headers);
    p.(state := FieldStart, headerState := u.headerState, index := u.index, flags := AllFlags(q.headers), verb := q.line.verb,
       contentLength := if length.Some? then length.value else ULLONG_MAX, major := q.line.major as nat, minor := q.line.minor as nat)
  }

  function HeadCalls(q: Request): Log
  {
    [Notify(MessageBegin), Data(Url, TargetBytes(q.line.target))] + HeaderCalls(q.headers)
  }

  /** The run when headers and empty line have been read. */
  function AfterHead(r: Run, q: Request, u: Parser): Run
    requires GoodRequest(q)
  {
    AfterEmptyLine(Run(HeadFields(r.p, q, u), r.log + HeadCalls(q), r.consumed + |HeadBytes(q)| - 2, false))
  }

  /** Request line, headers and the empty line. */
  lemma {:induction false} HeadRead(r: Run, q: Request)
    requires !Halted(r) && r.p.state.StartReq? && GoodRequest(q)
    ensures exists u :: Fold(r, HeadBytes(q)) == AfterHead(r, q, u)
  {
    hide Fold, FirstBytes, Lines, GoodTarget, GoodHeaders, GoodContent, AllFlags, LengthOf, Settled, HeaderCalls, TargetBytes, AfterEmptyLine;
    FirstLineRead(r, q.line);
    var t := Fold(r, FirstBytes(q.line));
    HeadersRead(t, q.headers);
    FoldConcat(r, FirstBytes(q.line), Lines(q.headers));
    var v := Fold(t, Lines(q.headers));
    SettledFold(v, [CR] + [LF]);
    FoldConcat(r, FirstBytes(q.line) + Lines(q.headers), [CR] + [LF]);
    LengthBound(q.headers);
    ContentFits(q);
    CallsJoin(r.log, q);
    var w := Settled(v);
    assert w.p == HeadFields(r.p, q, w.p);
    EmptyLineRead(w);
    assert Fold(r, HeadBytes(q)) == AfterHead(r, q, w.p);
  }

  lemma CallsJoin(log: Log, q: Request)
    ensures log + [Notify(MessageBegin), Data(Url, TargetBytes(q.line.target))] + HeaderCalls(q.headers) == log + HeadCalls(q)
  {
  }

  lemma ContentFits(q: Request)
    requires GoodRequest(q)
    ensures F_CHUNKED in AllFlags(q.headers) ==> LengthOf(q.headers) == None && q.content.Chunked?
    ensures F_CHUNKED !in AllFlags(q.headers) ==> !q.content.Chunked?
  {
    hide AllFlags, LengthOf, GoodHeaders;
  }

  predicate ReadAs(r: Run, t: Run, q: Request)
    requires GoodRequest(q)
  {
    && t.p.errno.OK? && t.p.state.StartReq? && t.p.verb == q.line.verb
    && t.p.major == q.line.major as nat && t.p.minor == q.line.minor as nat
    && t.log == r.log + RequestCalls(q) && t.consumed == r.consumed + |RequestBytes(q)|
    && t.p.upgrade == Upgrades(q) && t.exited == Upgrades(q)
  }

  /** A request is read as it is written: method, version and target, each header with its value, and the content. */
  lemma {:induction false} RequestRead(r: Run, q: Request)
    requires !Halted(r) && r.p.state.StartReq? && GoodRequest(q)
    ensures ReadAs(r, Fold(r, RequestBytes(q)), q)
  {
    hide Fold, HeadBytes, HeadCalls, AllFlags, LengthOf, GoodHeaders, GoodLine, ReadAs, AfterHead, GoodContent, ContentBytes;
    HeadRead(r, q);
    var u :| Fold(r, HeadBytes(q)) == AfterHead(r, q, u);
    FoldConcat(r, HeadBytes(q), ContentBytes(q.content));
    match q.content
    case Nothing => NothingAfter(r, q, u);
    case Sized(_) => SizedAfter(r, q, u);
    case Chunked(_, _) => ChunkedAfter(r, q, u);
  }

  lemma {:induction false} NothingAfter(r: Run, q: Request, u: Parser)
    requires !Halted(r) && GoodRequest(q) && q.content.Nothing?
    ensures ReadAs(r, Fold(AfterHead(r, q, u), ContentBytes(q.content)), q)
  {
    hide Fold, HeadBytes, HeaderCalls, TargetBytes, AllFlags, LengthOf, GoodHeaders, FirstBytes;
    NothingRead(AfterHead(r, q, u));
  }

  lemma {:induction false} SizedAfter(r: Run, q: Request, u: Parser)
    requires !Halted(r) && GoodRequest(q) && q.content.Sized?
    ensures ReadAs(r, Fold(AfterHead(r, q, u), ContentBytes(q.content)), q)
  {
    hide Fold, HeadBytes, HeaderCalls, TargetBytes, AllFlags, LengthOf, GoodHeaders, FirstBytes;
    LengthBound(q.headers);
    BodyIsContentLength(AfterHead(r, q, u), q.content.data);
  }

  lemma {:induction false} ChunkedAfter(r: Run, q: Request, u: Parser)
    requires !Halted(r) && GoodRequest(q) && q.content.Chunked?
    ensures ReadAs(r, Fold(AfterHead(r, q, u), ContentBytes(q.content)), q)
  {
    hide Fold, HeadBytes, HeaderCalls, TargetBytes, AllFlags, LengthOf, GoodHeaders, FirstBytes, AllChunks, SizeLine, ChunkCalls, GoodSize, GoodChunks;
    ChunkedBody(AfterHead(r, q, u), q.content.chunks, q.content.last);
  }

  // ----- however it is sent

  /** A byte that is hidden stops the fold. */
  lemma {:induction false} NothingHidden(start: Run, data: seq<Byte>)
    requires Fold(start, data).p.errno.OK?
    ensures !Hidden(start, data)
  {
    hide Fold, IsHeaderChar, Passes;
    forall k | 0 < k < |data|
      ensures !HiddenAt(start, data, k)
    {
      if HiddenAt(start, data, k) {
        var t := Fold(start, data[..k]);
        EolIsAllowed(data[k]);
        BadPass(t.p, t.log, data[k]);
        FoldNext(start, data, k);
        FoldStays(start, data, k + 1);
      }
    }
  }

  /** A request that arrives in any pieces: unless the parser finds its headers too long, which it does not
      if twice the bytes fit the limit, the request is read as it is written. */
  method Receive(parser: HttpParser, pieces: seq<seq<Byte>>, ghost q: Request) returns (parsed: nat)
    requires parser.Valid() && parser.fields.errno.OK? && parser.fields.state.StartReq?
    requires GoodRequest(q) && !Upgrades(q) && Joined(pieces) == RequestBytes(q)
    requires forall i :: 0 <= i < |pieces| ==> 0 < |pieces[i]| < 0x8000_0000
    modifies parser
    ensures parser.Valid()
    ensures !parser.fields.errno.HEADER_OVERFLOW? ==>
              ReadAs(old(parser.Now()), Run(parser.fields, parser.calls, parsed, false), q)
    ensures old(parser.nread) + 2 * |RequestBytes(q)| <= 80 * 1024 ==> !parser.fields.errno.HEADER_OVERFLOW?
  {
    hide Fold, Hidden, GoodRequest, RequestBytes, Joined, Upgrades;
    ghost var start := parser.Now();
    RequestRead(start, q);
    NothingHidden(start, RequestBytes(q));
    parsed := Feed(parser, pieces);
  }
}
