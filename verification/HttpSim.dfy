/** How a call that handles many bytes stays in step with the fold. */
module HttpSim {
  import opened Bytes
  import opened Options
  import opened HttpSyntax
  import opened HttpFold

  // ----- what the assertions of the parser rely on

  predicate NameState(h: HeaderState)
  {
    (h.General? || h.C? || h.CO? || h.CON? || h.MatchingConnection? || h.MatchingProxyConnection?
    || h.MatchingContentLength? || h.MatchingTransferEncoding? || h.MatchingUpgrade? || h.Connection?
    || h.ContentLength? || h.TransferEncoding? || h.Upgrade?)
  }

  /** Every assertion in the switch holds in such a state. */
  predicate Sound(p: Parser)
  {
    p.contentLength <= ULLONG_MAX &&
    match p.state
    case Dead => false
    case ReqMethod => p.index <= |MethodString(p.verb)|
    case Field => NameState(p.headerState)
    case Value => !p.headerState.Connection? && !p.headerState.TransferEncoding?
    case ChunkSizeStart => F_CHUNKED in p.flags
    case ChunkSize => F_CHUNKED in p.flags && p.contentLength < ULLONG_MAX
    case ChunkParameters => F_CHUNKED in p.flags && p.contentLength < ULLONG_MAX
    case ChunkSizeAlmostDone => F_CHUNKED in p.flags && p.contentLength < ULLONG_MAX
    case ChunkData => F_CHUNKED in p.flags && 0 < p.contentLength < ULLONG_MAX
    case ChunkDataAlmostDone => F_CHUNKED in p.flags && p.contentLength == 0
    case ChunkDataDone => F_CHUNKED in p.flags
    case BodyIdentity => 0 < p.contentLength < ULLONG_MAX
    case _ => true
  }

  predicate SoundOrFailed(p: Parser)
  {
    if p.errno.OK? then Sound(p) else !p.errno.INVALID_INTERNAL_STATE? && !p.errno.HEADER_OVERFLOW?
  }

  /** Every pass keeps the state sound, and no byte leads to the unhandled case. */
  lemma {:induction false} TurnSound(p: Parser, ch: Byte)
    requires p.errno.OK? && Sound(p)
    ensures SoundOrFailed(Turn(p, ch).p)
  {
    hide LineTurn, HeaderTurn, ChunkTurn, NameChar, TextChar, BodyByte, Sound, NameState, MethodString;
    if p.state == Field {
      NameSound(p, ch);
    } else if p.state == Value {
      TextSound(p, ch);
    } else if BodyState(p.state) {
      BodySound(p, 1);
    } else if HeaderPart(p.state) {
      HeaderSound(p, ch);
    } else if ChunkPart(p.state) {
      ChunkSound(p, ch);
    } else {
      LineSound(p, ch);
    }
  }

  lemma NameSound(p: Parser, ch: Byte)
    requires p.errno.OK? && p.state.Field? && Sound(p)
    ensures SoundOrFailed(NameChar(p, ch).p)
  {
    hide Token, Code, MethodString, FieldChar;
    FieldCharKeeps(p, ch, Token(ch));
  }

  lemma FieldCharKeeps(p: Parser, ch: Byte, c: Byte)
    requires NameState(p.headerState)
    ensures var q := FieldChar(p, ch, c);
            q == p.(headerState := q.headerState, index := q.index) && NameState(q.headerState)
  {
    hide Code, Matched;
    MatchedKeeps(p, c, "connection", General, Connection);
    MatchedKeeps(p, c, "proxy-connection", General, Connection);
    MatchedKeeps(p, c, "content-length", General, ContentLength);
    MatchedKeeps(p, c, "transfer-encoding", General, TransferEncoding);
    MatchedKeeps(p, c, "upgrade", General, Upgrade);
  }

  lemma MatchedKeeps(p: Parser, c: Byte, word: string, miss: HeaderState, done: HeaderState)
    ensures var q := Matched(p, c, word, miss, done);
            && q == p.(headerState := q.headerState, index := q.index)
            && (q.headerState == miss || q.headerState == done || q.headerState == p.headerState)
  {
    hide CharAt;
  }

  lemma TextSound(p: Parser, ch: Byte)
    requires p.errno.OK? && p.state.Value? && Sound(p)
    ensures SoundOrFailed(TextChar(p, ch).p)
  {
    hide NameState, MethodString, ValueChar, IsHeaderChar;
    ValueCharKeeps(p, ch);
  }

  /** What a character of a value can change. */
  lemma ValueCharKeeps(p: Parser, ch: Byte)
    requires p.errno.OK? && p.contentLength <= ULLONG_MAX
    requires !p.headerState.Connection? && !p.headerState.TransferEncoding?
    ensures var q := ValueChar(p, ch);
            && q == p.(headerState := q.headerState, index := q.index, flags := q.flags, contentLength := q.contentLength, errno := q.errno)
            && (F_CHUNKED in p.flags ==> F_CHUNKED in q.flags) && q.contentLength <= ULLONG_MAX
            && (q.errno.OK? || q.errno.INVALID_CONTENT_LENGTH?)
            && !q.headerState.Connection? && !q.headerState.TransferEncoding?
  {
    hide Code, Matched, StrictToken, LengthDigit, TokenEnd, Lower;
    var c := Lower(ch);
    match p.headerState
    case MatchingChunked => MatchedKeeps(p, c, "chunked", General, Chunked);
    case MatchingKeepAlive => MatchedKeeps(p, c, "keep-alive", ConnectionToken, KeepAlive);
    case MatchingClose => MatchedKeeps(p, c, "close", ConnectionToken, Close);
    case MatchingConnectionUpgrade => MatchedKeeps(p, c, "upgrade", ConnectionToken, ConnectionUpgrade);
    case ContentLength => LengthDigitKeeps(p, ch);
    case ContentLengthNum => LengthDigitKeeps(p, ch);
    case KeepAlive => TokenEndKeeps(p, ch);
    case Close => TokenEndKeeps(p, ch);
    case ConnectionUpgrade => TokenEndKeeps(p, ch);
    case _ =>
  }

  lemma LengthDigitKeeps(p: Parser, ch: Byte)
    requires p.errno.OK? && p.contentLength <= ULLONG_MAX
    ensures var q := LengthDigit(p, ch);
            && q == p.(headerState := q.headerState, contentLength := q.contentLength, errno := q.errno)
            && q.contentLength <= ULLONG_MAX && (q.errno.OK? || q.errno.INVALID_CONTENT_LENGTH?)
            && (q.headerState.ContentLengthNum? || q.headerState.ContentLengthWs? || q.headerState == p.headerState)
  {
  }

  lemma TokenEndKeeps(p: Parser, ch: Byte)
    ensures var q := TokenEnd(p, ch);
            && q == p.(headerState := q.headerState, index := q.index, flags := q.flags)
            && (F_CHUNKED in q.flags <==> F_CHUNKED in p.flags)
            && (q.headerState.TokenStart? || q.headerState.ConnectionToken? || q.headerState == p.headerState)
  {
    hide Code;
  }

  lemma BodySound(p: Parser, n: nat)
    requires p.errno.OK? && BodyState(p.state) && Sound(p) && n > 0
    ensures SoundOrFailed(BodyByte(p, n).p)
  {
    hide NameState, MethodString;
  }

  lemma HeaderSound(p: Parser, ch: Byte)
    requires p.errno.OK? && HeaderPart(p.state) && Sound(p)
    ensures SoundOrFailed(HeaderTurn(p, ch).p)
  {
    hide NameState, MethodString, Token, Lower, HeaderFlags, ValueFirst, FieldFirst, HeadersEnd, BodyStart;
    ValueFirstSound(p, ch);
    FieldFirstSound(p, ch);
    HeaderFlagsKeep(p);
    HeadersEndSound(p, ch);
    BodyStartSound(p);
  }

  lemma HeaderFlagsKeep(p: Parser)
    ensures F_CHUNKED in p.flags ==> F_CHUNKED in HeaderFlags(p)
  {
  }

  lemma ValueFirstSound(p: Parser, ch: Byte)
    requires p.errno.OK? && Sound(p)
    ensures SoundOrFailed(ValueFirst(p, ch).p)
  {
    hide MethodString, Lower, NameState, Code, IsNum;
    NumBound(ch);
  }

  lemma NumBound(ch: Byte)
    ensures IsNum(ch) ==> 0 <= ch as int - Code('0') < 10
  {
  }

  lemma FieldFirstSound(p: Parser, ch: Byte)
    requires p.errno.OK? && Sound(p)
    ensures SoundOrFailed(FieldFirst(p, ch).p)
  {
    hide MethodString, Token, Code;
  }

  lemma HeadersEndSound(p: Parser, ch: Byte)
    requires p.errno.OK? && Sound(p)
    ensures SoundOrFailed(HeadersEnd(p, ch).p)
  {
    hide MethodString, NameState;
  }

  lemma BodyStartSound(p: Parser)
    requires p.errno.OK? && Sound(p)
    ensures SoundOrFailed(BodyStart(p).p)
  {
    hide MethodString, NameState;
  }

  lemma ChunkSound(p: Parser, ch: Byte)
    requires p.errno.OK? && ChunkPart(p.state) && Sound(p)
    ensures SoundOrFailed(ChunkTurn(p, ch).p)
  {
    hide MethodString, NameState, Unhex, SizeDigit, Code;
    UnhexBound(ch);
    SizeDigitSound(p, ch);
  }

  lemma SizeDigitSound(p: Parser, ch: Byte)
    requires p.errno.OK? && Sound(p)
    ensures p.state.ChunkSize? ==> SoundOrFailed(SizeDigit(p, ch).p)
  {
    hide MethodString, NameState, Unhex, Code;
    UnhexBound(ch);
  }

  lemma UnhexBound(ch: Byte)
    ensures Unhex(ch).Some? ==> Unhex(ch).value < 16
  {
  }

  lemma LineSound(p: Parser, ch: Byte)
    requires p.errno.OK? && !HeaderPart(p.state) && !ChunkPart(p.state) && !Looping(p.state) && Sound(p)
    ensures SoundOrFailed(LineTurn(p, ch).p)
  {
    hide MethodChar, ParseUrlChar, IsAlpha, IsNum, Start, MethodString, NameState, Code, UrlTail, UrlChar;
    StartSound(p, ch);
    UrlSound(p, ch);
    if p.state.ReqMethod? {
      MethodSound(p, ch);
    }
  }

  lemma UrlSound(p: Parser, ch: Byte)
    requires p.errno.OK? && Sound(p)
    ensures SoundOrFailed(UrlTail(p, ch).p) && forall s :: SoundOrFailed(UrlChar(p, s, ch).p)
  {
    hide ParseUrlChar, MethodString, NameState;
  }

  lemma StartSound(p: Parser, ch: Byte)
    requires p.errno.OK? && Sound(p)
    ensures p.state.StartReq? ==> SoundOrFailed(Start(p, ch).p)
  {
    hide IsAlpha, FirstMethod, MethodString, NameState;
    if FirstMethod(ch).Some? {
      ShortNames(FirstMethod(ch).value);
    }
  }

  lemma MethodSound(p: Parser, ch: Byte)
    requires p.errno.OK? && p.state.ReqMethod? && Sound(p)
    ensures SoundOrFailed(MethodChar(p, ch).p)
  {
    hide MethodString, OtherMethod, NameState, Code, IsUpper;
    if OtherMethod(p.verb, p.index, ch).Some? {
      OtherMethodLonger(p.verb, p.index, ch);
    }
  }

  /** The matcher never reads past the end of a method's name. */
  lemma OtherMethodLonger(m: Method, index: nat, ch: Byte)
    requires OtherMethod(m, index, ch).Some?
    ensures index < |MethodString(OtherMethod(m, index, ch).value)|
  {
    hide Code, MethodString;
    if index > 2 {
      LongNames();
    }
    ShortNames(OtherMethod(m, index, ch).value);
  }

  lemma ShortNames(m: Method)
    ensures |MethodString(m)| >= 3
  {
    hide MethodString;
    if FirstMethods(m) {
      ShortFirstNames(m);
    } else {
      ShortOtherNames(m);
    }
  }

  /** The methods up to MKACTIVITY. */
  predicate FirstMethods(m: Method)
  {
    m.DELETE? || m.GET? || m.HEAD? || m.POST? || m.PUT? || m.CONNECT? || m.OPTIONS? || m.TRACE? ||
    m.COPY? || m.LOCK? || m.MKCOL? || m.MOVE? || m.PROPFIND? || m.PROPPATCH? || m.SEARCH? || m.UNLOCK?
    || m.BIND? || m.REBIND? || m.UNBIND? || m.ACL? || m.REPORT? || m.MKACTIVITY?
  }

  lemma ShortFirstNames(m: Method)
    requires FirstMethods(m)
    ensures |MethodString(m)| >= 3
  {
    hide Code;
  }

  lemma ShortOtherNames(m: Method)
    requires !FirstMethods(m)
    ensures |MethodString(m)| >= 3
  {
    hide Code;
  }

  lemma LongNames()
    ensures |MethodString(GET_PARAMETER)| > 4 && |MethodString(MKCALENDAR)| > 4 && |MethodString(SET_PARAMETER)| > 4
    ensures |MethodString(PROPPATCH)| > 4 && |MethodString(UNLINK)| > 4
  {
  }

  // ----- marks

  /** Where the datum being collected begins in the current piece of data. */
  datatype Mark = NoMark | At(kind: Kind, pos: nat)

  predicate MarkIn(mark: Mark, i: nat, data: seq<Byte>)
  {
    i <= |data| && (mark.At? ==> mark.pos <= i && mark.pos < |data|)
  }

  /** The log once the marked bytes up to i are delivered. */
  function Pending(log: Log, mark: Mark, data: seq<Byte>, i: nat): Log
    requires MarkIn(mark, i, data)
  {
    if mark.At? && mark.pos < i then Append(log, mark.kind, data[mark.pos..i]) else log
  }

  /** Inside a datum its start is marked; outside nothing is, except that a body may be waiting. */
  predicate MarkOk(s: State, mark: Mark, i: nat)
  {
    match KindOf(s)
    case Some(k) => mark.At? && mark.kind == k
    case None => mark.NoMark? || (mark.kind.Body? && mark.pos < i && (BodyState(s) || s.ChunkDataAlmostDone?))
  }

  predicate MarkFresh(s: State, mark: Mark)
  {
    match KindOf(s)
    case Some(k) => mark.At? && mark.kind == k
    case None => mark.NoMark?
  }

  function Marked(mark: Mark, kind: Option<Kind>, i: nat): Mark
  {
    if kind.Some? && mark.NoMark? then At(kind.value, i) else mark
  }

  /** `CALLBACK_DATA`, and a notification. */
  function Told(log: Log, mark: Mark, e: Effect, data: seq<Byte>, i: nat): (r: (Log, Mark))
    requires MarkIn(mark, i, data) && i < |data|
    ensures MarkIn(r.1, i, data)
  {
    var m := Marked(mark, e.mark, i);
    var delivers := e.data.Some? && m.At? && m.kind == e.data.value;
    var delivered := if delivers then Append(log, m.kind, data[m.pos..i]) else log;
    (if e.notice.Some? then delivered + [Notify(e.notice.value)] else delivered, if delivers then NoMark else m)
  }

  /** What a pass does with marks: it sets one where a datum starts, and clears it where the datum ends. */
  predicate MarksWell(s: State, e: Effect)
  {
    && (e.p.errno.OK? ==>
         match KindOf(e.p.state)
         case Some(k) => e.data.None? && (e.mark == Some(k) || (e.mark.None? && KindOf(s) == Some(k)))
         case None =>
           if e.mark.Some? then e.data == e.mark
           else if KindOf(s).Some? then e.data == KindOf(s)
           else e.data == if s.ChunkDataAlmostDone? then Some(Body) else None)
    && (e.mark.Some? ==> !e.mark.value.Body? && KindOf(s).None? && !s.ChunkDataAlmostDone?)
    && (e.notice.Some? ==> KindOf(s).None? && !s.ChunkDataAlmostDone? && e.mark.None?)
    && (e.next.Again? ==> !Looping(e.p.state) && e.p.errno.OK?)
    && (!e.p.errno.OK? ==> e.next.Advance?)
  }

  lemma {:induction false} PlainMarksWell(p: Parser, ch: Byte)
    requires p.errno.OK? && Sound(p) && !Looping(p.state)
    ensures MarksWell(p.state, Plain(p, ch))
  {
    hide LineTurn, HeaderTurn, ChunkTurn, MarksWell, NameState, MethodString;
    if HeaderPart(p.state) {
      HeaderMarksWell(p, ch);
    } else if ChunkPart(p.state) {
      ChunkMarksWell(p, ch);
    } else {
      LineMarksWell(p, ch);
    }
  }

  lemma HeaderMarksWell(p: Parser, ch: Byte)
    requires p.errno.OK? && HeaderPart(p.state)
    ensures MarksWell(p.state, HeaderTurn(p, ch))
  {
    hide HeaderTurn, MarksWell;
    if p.state.FieldStart? || p.state.DiscardWs? || p.state.ValueStart? {
      WordMarksWell(p, ch);
    } else {
      LineEndMarksWell(p, ch);
    }
  }

  lemma WordMarksWell(p: Parser, ch: Byte)
    requires p.errno.OK? && (p.state.FieldStart? || p.state.DiscardWs? || p.state.ValueStart?)
    ensures MarksWell(p.state, HeaderTurn(p, ch))
  {
    hide Code, Token, Lower, HeaderFlags, ValueFirst, FieldFirst;
    ValueFirstMarks(p, ch);
    FieldFirstMarks(p, ch);
  }

  lemma LineEndMarksWell(p: Parser, ch: Byte)
    requires p.errno.OK? && HeaderPart(p.state) && !p.state.FieldStart? && !p.state.DiscardWs? && !p.state.ValueStart?
    ensures MarksWell(p.state, HeaderTurn(p, ch))
  {
    hide HeaderFlags, ValueFirst, FieldFirst;
  }

  lemma ValueFirstMarks(p: Parser, ch: Byte)
    requires p.errno.OK?
    ensures var e := ValueFirst(p, ch);
            e.mark == Some(HeaderValue) && e.data.None? && e.notice.None? && e.p.state.Value? && e.next.Advance?
  {
    hide Code, Lower;
  }

  lemma FieldFirstMarks(p: Parser, ch: Byte)
    requires p.errno.OK?
    ensures var e := FieldFirst(p, ch);
            && e.data.None? && e.notice.None?
            && (e.next.Again? ==> e.p.state.HeadersAlmostDone? && e.p.errno.OK?) && !e.next.Return?
            && ((e.p.state.HeadersAlmostDone? && e.mark.None?) || (e.p.state.Field? && e.mark == Some(HeaderField)) || !e.p.errno.OK?)
            && (!e.p.errno.OK? ==> e.mark.None?)
  {
    hide Code, Token;
  }

  lemma ChunkMarksWell(p: Parser, ch: Byte)
    requires p.errno.OK? && ChunkPart(p.state)
    ensures MarksWell(p.state, ChunkTurn(p, ch))
  {
    hide Unhex, Code;
  }

  lemma LineMarksWell(p: Parser, ch: Byte)
    requires p.errno.OK? && !HeaderPart(p.state) && !ChunkPart(p.state) && !Looping(p.state) && !p.state.Dead?
    ensures MarksWell(p.state, LineTurn(p, ch))
  {
    hide LineTurn, MarksWell;
    if UrlState(p.state) {
      UrlStateMarksWell(p, ch);
    } else {
      LineStateMarksWell(p, ch);
    }
  }

  lemma UrlStateMarksWell(p: Parser, ch: Byte)
    requires p.errno.OK? && UrlState(p.state)
    ensures MarksWell(p.state, LineTurn(p, ch))
  {
    hide ParseUrlChar, UrlChar;
    UrlCharMarks(p, p.state, ch);
  }

  lemma LineStateMarksWell(p: Parser, ch: Byte)
    requires p.errno.OK? && !HeaderPart(p.state) && !ChunkPart(p.state) && !Looping(p.state) && !p.state.Dead? && !UrlState(p.state)
    ensures MarksWell(p.state, LineTurn(p, ch))
  {
    hide ParseUrlChar, Code, IsAlpha, IsNum, MethodChar, Start, UrlChar, UrlTail;
    UrlCharMarks(p, SpacesBeforeUrl, ch);
    UrlCharMarks(p, ServerStart, ch);
    if p.state.StartReq? {
      StartMarks(p, ch);
    } else if p.state.ReqMethod? {
      MethodMarks(p, ch);
    }
  }

  lemma UrlCharMarks(p: Parser, s: State, ch: Byte)
    requires p.errno.OK?
    ensures var e := UrlChar(p, s, ch);
            && e.mark.None? && e.data.None? && e.notice.None? && e.next.Advance?
            && (e.p.errno.OK? ==> UrlState(e.p.state))
  {
    hide ParseUrlChar;
  }

  lemma StartMarks(p: Parser, ch: Byte)
    requires p.errno.OK? && p.state.StartReq?
    ensures MarksWell(p.state, Start(p, ch))
  {
    hide IsAlpha, FirstMethod;
  }

  lemma MethodMarks(p: Parser, ch: Byte)
    requires p.errno.OK?
    ensures p.state.ReqMethod? ==> MarksWell(p.state, MethodChar(p, ch))
  {
    hide MethodString, OtherMethod, Code, IsUpper, CharAt;
  }

  /** One pass: what the callbacks have been told and what is still marked stay in step with the fold. */
  lemma {:induction false} PassInStep(log: Log, mark: Mark, s: State, e: Effect, data: seq<Byte>, i: nat)
    requires i < |data| && MarkIn(mark, i, data) && MarkOk(s, mark, i) && !BodyState(s) && MarksWell(s, e)
    ensures e.p.errno.OK? ==> MarkFresh(e.p.state, Told(log, mark, e, data, i).1)
    ensures e.p.errno.OK? ==>
              Pending(Told(log, mark, e, data, i).0, Told(log, mark, e, data, i).1, data, i)
              == Noted(Pending(log, mark, data, i), e.data, e.notice)
  {
    hide Append;
    assert data[i..i] == [];
    if mark.At? && mark.pos < i {
      AppendTwice(log, mark.kind, data[mark.pos..i], []);
      assert data[mark.pos..i] + [] == data[mark.pos..i];
    }
  }

  /** After the last pass, the byte joins the datum that is open. */
  lemma {:induction false} ByteInStep(log: Log, mark: Mark, s: State, data: seq<Byte>, i: nat)
    requires i < |data| && MarkIn(mark, i, data) && MarkFresh(s, mark)
    ensures Pending(log, mark, data, i + 1)
            == if KindOf(s).Some? then Append(Pending(log, mark, data, i), KindOf(s).value, [data[i]])
               else Pending(log, mark, data, i)
  {
    hide Append;
    assert data[i..i + 1] == [data[i]];
    if mark.At? && mark.pos < i {
      assert data[mark.pos..i + 1] == data[mark.pos..i] + [data[i]];
      AppendTwice(log, mark.kind, data[mark.pos..i], [data[i]]);
    }
  }

  lemma NameMarksWell(p: Parser, ch: Byte)
    requires p.errno.OK? && p.state.Field? && Sound(p)
    ensures MarksWell(p.state, NameChar(p, ch)) && NameChar(p, ch).next.Advance?
  {
    hide Token, Code, FieldChar;
    if Token(ch) != 0 {
      FieldCharKeeps(p, ch, Token(ch));
    }
  }

  lemma TextMarksWell(p: Parser, ch: Byte)
    requires p.errno.OK? && p.state.Value? && Sound(p)
    ensures MarksWell(p.state, TextChar(p, ch)) && (TextChar(p, ch).next.Again? <==> ch == LF) && !TextChar(p, ch).next.Return?
  {
    hide ValueChar, IsHeaderChar;
    if ch != CR && ch != LF {
      ValueCharKeeps(p, ch);
    }
  }

  /** The passes with one byte of a header name or value, but for the end of a line. */
  lemma OnePass(p: Parser, log: Log, ch: Byte)
    requires !BodyState(p.state) && !Turn(p, ch).next.Again?
    ensures var e := Turn(p, ch); Passes(p, log, ch) == (e.p, Noted(log, e.data, e.notice), e.next.Return?)
  {
    hide Turn, Noted;
  }

  lemma NextPass(p: Parser, log: Log, ch: Byte)
    requires Turn(p, ch).next.Again?
    ensures var e := Turn(p, ch);
            var took := if BodyState(p.state) then Append(log, Body, [ch]) else log;
            Passes(p, log, ch) == Passes(e.p, Noted(took, e.data, e.notice), ch)
  {
    hide Turn, Noted, Append;
  }

  /** Where the count of bytes read is reset. */
  predicate Recounts(s: State)
  {
    s.HeadersDone? || s.ChunkSizeAlmostDone? || s.ChunkDataDone?
  }

  /** A chunk size starts with a fresh count, and an upgrade ends with the message. */
  lemma PlainEnds(p: Parser, ch: Byte)
    requires p.errno.OK? && Sound(p) && !Looping(p.state)
    ensures var e := Plain(p, ch);
            && (e.p.errno.OK? && e.p.state.ChunkSizeStart? ==> Recounts(p.state))
            && (e.next.Return? ==> e.p.state.StartReq? && e.p.errno.OK?)
            && (e.next.Again? ==> !e.p.state.ChunkSizeStart?)
  {
    hide LineTurn, HeaderTurn, ChunkTurn, MethodString, NameState;
    if HeaderPart(p.state) {
      HeaderEnds(p, ch);
    } else if ChunkPart(p.state) {
      ChunkEnds(p, ch);
    } else {
      LineEnds(p, ch);
    }
  }

  lemma HeaderEnds(p: Parser, ch: Byte)
    requires p.errno.OK? && HeaderPart(p.state)
    ensures var e := HeaderTurn(p, ch);
            && (e.p.state.ChunkSizeStart? ==> p.state.HeadersDone?)
            && (e.next.Return? ==> e.p.state.StartReq? && e.p.errno.OK?)
            && (e.next.Again? ==> !e.p.state.ChunkSizeStart?)
  {
    hide Code, Token, Lower, HeaderFlags, ValueFirst, FieldFirst;
    ValueFirstMarks(p, ch);
    FieldFirstMarks(p, ch);
    FieldFirstState(p, ch);
  }

  lemma FieldFirstState(p: Parser, ch: Byte)
    ensures var s := FieldFirst(p, ch).p.state; s.HeadersAlmostDone? || s.Field? || s == p.state
  {
    hide Code, Token;
  }

  lemma ChunkEnds(p: Parser, ch: Byte)
    requires p.errno.OK? && ChunkPart(p.state)
    ensures var e := ChunkTurn(p, ch);
            && (e.p.errno.OK? && e.p.state.ChunkSizeStart? ==> p.state.ChunkDataDone?)
            && (e.next.Return? ==> e.p.state.StartReq? && e.p.errno.OK?)
            && !e.next.Again?
  {
    hide Unhex, Code;
  }

  lemma LineEnds(p: Parser, ch: Byte)
    requires p.errno.OK? && !HeaderPart(p.state) && !ChunkPart(p.state) && !Looping(p.state)
    ensures var e := LineTurn(p, ch); !e.p.state.ChunkSizeStart? && e.next.Advance?
  {
    hide ParseUrlChar, Code, IsAlpha, IsNum, IsUpper, CharAt, FirstMethod, OtherMethod, MethodString;
  }
}
