/** Whole requests: what the parser makes of a request line, headers and a body (RFC 7230, sections 3 and 4). */
module HttpRequest {
  import opened Bytes
  import opened Options
  import opened HttpSyntax
  import opened HttpFold
  import opened HttpSim
  import opened HttpBody
  import opened HttpNames
  import opened HttpHeaders

  // ----- what a header means

  predicate IsLength(h: Header) { Spells(h.name, "content-length") }

  predicate IsCoding(h: Header) { Spells(h.name, "transfer-encoding") }

  predicate IsConnection(h: Header) { Spells(h.name, "connection") || Spells(h.name, "proxy-connection") }

  predicate IsUpgrade(h: Header) { Spells(h.name, "upgrade") }

  /** Headers with a value the parser acts on, or with a name it does not look for. */
  predicate GoodHeader(h: Header)
  {
    && WellFormedHeader(h)
    && (IsLength(h) ==> IsDecimal(h.value) && Decimal(h.value) <= MAX_LENGTH)
    && (IsCoding(h) ==> Spells(h.value, "chunked"))
    && (IsConnection(h) ==> Spells(h.value, "keep-alive") || Spells(h.value, "close") || Spells(h.value, "upgrade"))
  }

  function FlagsOf(h: Header): set<Flag>
  {
    if IsLength(h) then {F_CONTENTLENGTH}
    else if IsCoding(h) then {F_CHUNKED}
    else if IsUpgrade(h) then {F_UPGRADE}
    else if !IsConnection(h) then {}
    else if Spells(h.value, "keep-alive") then {F_CONNECTION_KEEP_ALIVE}
    else if Spells(h.value, "close") then {F_CONNECTION_CLOSE}
    else {F_CONNECTION_UPGRADE}
  }

  /** The fields after the line of a header, and after what its end adds to the flags. */
  predicate Meant(p: Parser, u: Parser, h: Header)
  {
    && u == p.(state := Value, headerState := u.headerState, index := u.index, flags := u.flags, contentLength := u.contentLength)
    && HeaderFlags(u) == p.flags + FlagsOf(h)
    && u.contentLength == if IsLength(h) && IsDecimal(h.value) && Decimal(h.value) >= 0 then Decimal(h.value) else p.contentLength
  }

  lemma NamesApart(name: seq<Byte>)
    ensures Spells(name, "content-length") ==> |name| == 14
    ensures Spells(name, "transfer-encoding") ==> |name| == 17
    ensures Spells(name, "connection") ==> |name| == 10
    ensures Spells(name, "proxy-connection") ==> |name| == 16
    ensures Spells(name, "upgrade") ==> |name| == 7
    ensures Spells(name, "chunked") ==> |name| == 7
    ensures Spells(name, "keep-alive") ==> |name| == 10
    ensures Spells(name, "close") ==> |name| == 5
  {
  }

  lemma {:induction false} SpelledRead(q: Parser, h: HeaderState, v: seq<Byte>)
    requires ValueMatching(h) && AtWord(q, h) && Spells(v, ValueWord(h)) && IsValue(v)
    ensures Accepted(q, v) && ValueRead(q, v) == q.(state := Value, index := |v| - 1, headerState := ValueDone(h))
  {
    hide ValueByte, IsLetter, Accepted, ValueRead, AtWord;
    WordRead(q, h, v);
  }

  /** The state after each value says what the header adds. */
  lemma {:induction false} ValueMeans(p: Parser, q: Parser, h: Header)
    requires p.errno.OK? && Named(p, q, h.name) && GoodHeader(h) && (IsLength(h) ==> F_CONTENTLENGTH !in p.flags)
    ensures Accepted(q, h.value) && Meant(p, ValueRead(q, h.value), h)
  {
    hide Spells, Accepted, ValueRead, Reading, IsToken, IsValue;
    NamesApart(h.name);
    NamesApart(h.value);
    NameTells(h.name, q.headerState, q.index);
    KnownState(h.name, q.headerState, q.index);
    if IsLength(h) {
      LengthRead(q, h.value);
    } else if IsCoding(h) {
      SpelledRead(q, MatchingChunked, h.value);
    } else if IsConnection(h) {
      if Spells(h.value, "keep-alive") {
        SpelledRead(q, MatchingKeepAlive, h.value);
      } else if Spells(h.value, "close") {
        SpelledRead(q, MatchingClose, h.value);
      } else {
        SpelledRead(q, MatchingConnectionUpgrade, h.value);
      }
    } else {
      SomeValue(h.value);
      OtherRead(q, h.value);
    }
  }

  lemma SomeValue(v: seq<Byte>)
    requires IsValue(v)
    ensures v != []
  {
    hide ValueByte;
  }

  // ----- all headers

  function Lines(hs: seq<Header>): seq<Byte>
  {
    if hs == [] then [] else Lines(hs[..|hs| - 1]) + LineOf(hs[|hs| - 1])
  }

  function HeaderCalls(hs: seq<Header>): Log
  {
    if hs == [] then []
    else HeaderCalls(hs[..|hs| - 1]) + [Data(HeaderField, hs[|hs| - 1].name), Data(HeaderValue, hs[|hs| - 1].value)]
  }

  function AllFlags(hs: seq<Header>): set<Flag>
  {
    if hs == [] then {} else AllFlags(hs[..|hs| - 1]) + FlagsOf(hs[|hs| - 1])
  }

  /** The content length announced, if any is. */
  function LengthOf(hs: seq<Header>): Option<nat>
    requires GoodHeaders(hs)
  {
    if hs == [] then None
    else
      var h := hs[|hs| - 1];
      if IsLength(h) then
        DecimalBounds(h.value);
        Some(Decimal(h.value))
      else LengthOf(hs[..|hs| - 1])
  }

  /** Good headers, with one content length at most. */
  predicate GoodHeaders(hs: seq<Header>)
  {
    && (forall i :: 0 <= i < |hs| ==> GoodHeader(hs[i]))
    && (forall i, j :: 0 <= i < j < |hs| ==> !(IsLength(hs[i]) && IsLength(hs[j])))
  }

  lemma {:induction false} GoodPrefix(hs: seq<Header>)
    requires GoodHeaders(hs) && hs != []
    ensures GoodHeaders(hs[..|hs| - 1]) && GoodHeader(hs[|hs| - 1])
    ensures IsLength(hs[|hs| - 1]) ==> F_CONTENTLENGTH !in AllFlags(hs[..|hs| - 1])
  {
    hide GoodHeader, IsLength;
    var k := |hs| - 1;
    if IsLength(hs[k]) {
      NoLength(hs[..k]);
    }
  }

  lemma {:induction false} NoLength(hs: seq<Header>)
    requires forall i :: 0 <= i < |hs| ==> !IsLength(hs[i])
    ensures F_CONTENTLENGTH !in AllFlags(hs)
  {
    hide IsLength;
    if hs != [] {
      NoLength(hs[..|hs| - 1]);
    }
  }

  /** The run as it goes on with a byte that does not continue the last header. */
  function Settled(r: Run): Run
  {
    if r.p.state.ValueLws? then r.(p := r.p.(state := FieldStart, flags := HeaderFlags(r.p))) else r
  }

  lemma {:induction false} SettledStep(r: Run, ch: Byte)
    requires !Halted(r) && ch != SP && ch != TAB
    ensures Step(r, ch) == Step(Settled(r), ch)
  {
    hide Append;
    if r.p.state.ValueLws? {
      var q := r.p.(state := FieldStart, flags := HeaderFlags(r.p));
      assert Turn(r.p, ch) == Go(q).(next := Again);
      NextPass(r.p, r.log, ch);
    }
  }

  lemma {:induction false} SettledFold(r: Run, data: seq<Byte>)
    requires !Halted(r) && data != [] && data[0] != SP && data[0] != TAB
    ensures Fold(r, data) == Fold(Settled(r), data)
  {
    hide Step, Fold, Settled;
    assert data == [data[0]] + data[1..];
    FoldConcat(r, [data[0]], data[1..]);
    FoldConcat(Settled(r), [data[0]], data[1..]);
    FoldOne(r, data[0]);
    FoldOne(Settled(r), data[0]);
    SettledStep(r, data[0]);
  }

  /** The fields after all headers. */
  predicate AfterHeaders(p: Parser, q: Parser, hs: seq<Header>)
    requires GoodHeaders(hs)
  {
    q == p.(headerState := q.headerState, index := q.index, flags := p.flags + AllFlags(hs),
            contentLength := if LengthOf(hs).Some? then LengthOf(hs).value else p.contentLength)
  }

  lemma {:induction false} HeadersRead(r: Run, hs: seq<Header>)
    requires !Halted(r) && r.p.state.FieldStart? && GoodHeaders(hs) && !Ends(r.log, HeaderField) && F_CONTENTLENGTH !in r.p.flags
    ensures var t := Settled(Fold(r, Lines(hs)));
            t == Run(t.p, r.log + HeaderCalls(hs), r.consumed + |Lines(hs)|, false) && AfterHeaders(r.p, t.p, hs)
    ensures !Halted(Fold(r, Lines(hs))) && !Ends(r.log + HeaderCalls(hs), HeaderField)
  {
    hide Fold, LineOf, GoodHeader, GoodHeaders, IsLength, FlagsOf, Settled;
    if hs == [] {
      NothingRead(r);
      NothingSettled(r);
    } else {
      GoodPrefix(hs);
      var k := |hs| - 1;
      HeadersRead(r, hs[..k]);
      var t := Fold(r, Lines(hs[..k]));
      FoldConcat(r, Lines(hs[..k]), LineOf(hs[k]));
      LineStart(hs[k]);
      SettledFold(t, LineOf(hs[k]));
      NextHeader(Settled(t), hs[k]);
      LastHeader(r.log, hs);
    }
  }

  lemma NothingSettled(r: Run)
    requires r.p.state.FieldStart?
    ensures Settled(r) == r && r.log + [] == r.log
  {
  }

  lemma LastHeader(log: Log, hs: seq<Header>)
    requires hs != []
    ensures log + HeaderCalls(hs) == (log + HeaderCalls(hs[..|hs| - 1])) + [Data(HeaderField, hs[|hs| - 1].name), Data(HeaderValue, hs[|hs| - 1].value)]
    ensures !Ends(log + HeaderCalls(hs), HeaderField)
  {
  }

  lemma LineStart(h: Header)
    requires GoodHeader(h)
    ensures LineOf(h) != [] && LineOf(h)[0] != SP && LineOf(h)[0] != TAB
  {
    hide StrictToken, Spells, IsValue;
    TokenByte(h.name[0]);
    assert LineOf(h)[0] == h.name[0];
  }

  lemma {:induction false} NextHeader(r: Run, h: Header)
    requires !Halted(r) && r.p.state.FieldStart? && GoodHeader(h) && !Ends(r.log, HeaderField)
    requires IsLength(h) ==> F_CONTENTLENGTH !in r.p.flags
    ensures var t := Fold(r, LineOf(h));
            && !Halted(t) && t.p.state.ValueLws?
            && Settled(t) == Run(Settled(t).p, r.log + [Data(HeaderField, h.name), Data(HeaderValue, h.value)], r.consumed + |LineOf(h)|, false)
            && Settled(t).p == r.p.(headerState := t.p.headerState, index := t.p.index, flags := r.p.flags + FlagsOf(h),
                                    contentLength := if IsLength(h) && Decimal(h.value) >= 0 then Decimal(h.value) else r.p.contentLength)
  {
    hide Fold, LineOf, Accepted, ValueRead, Named, Reading, FlagsOf, HeaderFlags, Spells, WellFormedHeader;
    GoodValue(h);
    forall q | Named(r.p, q, h.name)
      ensures Accepted(q, h.value) && Meant(r.p, ValueRead(q, h.value), h)
    {
      ValueMeans(r.p, q, h);
    }
    LineRead(r, h);
    var t := Fold(r, LineOf(h));
    var q :| Named(r.p, q, h.name) &&
      t == Run(ValueRead(q, h.value).(state := ValueLws),
               Append(Append(r.log, HeaderField, h.name), HeaderValue, h.value), r.consumed + |LineOf(h)|, false);
    TwoNew(r.log, h.name, h.value);
    FlagsOfState(ValueRead(q, h.value));
  }

  lemma GoodValue(h: Header)
    requires GoodHeader(h)
    ensures h.value != [] && WellFormedHeader(h)
  {
    hide Spells, IsToken, ValueByte;
  }

  lemma FlagsOfState(p: Parser)
    ensures HeaderFlags(p.(state := ValueLws)) == HeaderFlags(p)
  {
  }

  lemma TwoNew(log: Log, name: seq<Byte>, value: seq<Byte>)
    requires !Ends(log, HeaderField)
    ensures Append(Append(log, HeaderField, name), HeaderValue, value) == log + [Data(HeaderField, name), Data(HeaderValue, value)]
  {
  }

  // ----- the end of the headers

  /** The run after the empty line. */
  function AfterEmptyLine(r: Run): Run
  {
    var up := (F_UPGRADE in r.p.flags && F_CONNECTION_UPGRADE in r.p.flags) || r.p.verb == CONNECT;
    var q := r.p.(upgrade := up);
    if F_CHUNKED in q.flags && r.p.verb != CONNECT then
      Run(q.(state := ChunkSizeStart), r.log + [Notify(HeadersComplete)], r.consumed + 2, false)
    else if 0 < q.contentLength < ULLONG_MAX && r.p.verb != CONNECT then
      Run(q.(state := BodyIdentity), r.log + [Notify(HeadersComplete)], r.consumed + 2, false)
    else
      Run(q.(state := StartReq), r.log + [Notify(HeadersComplete), Notify(MessageComplete)], r.consumed + 2, up)
  }

  lemma {:induction false} EmptyLineRead(r: Run)
    requires !Halted(r) && r.p.state.FieldStart? && F_TRAILING !in r.p.flags && r.p.contentLength <= ULLONG_MAX
    requires !(F_CHUNKED in r.p.flags && F_CONTENTLENGTH in r.p.flags)
    ensures Fold(r, [CR] + [LF]) == AfterEmptyLine(r)
  {
    hide Fold, Step, Passes, Turn, Append, AfterEmptyLine;
    FieldStartTurn(r.p);
    SimpleStep(r, CR);
    FoldOne(r, CR);
    FoldSnoc(r, [CR], LF);
    HeadersEndRead(r, Step(r, CR));
  }

  lemma {:induction false} HeadersEndRead(r: Run, t: Run)
    requires !Halted(r) && F_TRAILING !in r.p.flags && r.p.contentLength <= ULLONG_MAX
    requires !(F_CHUNKED in r.p.flags && F_CONTENTLENGTH in r.p.flags)
    requires t == r.(p := r.p.(state := HeadersAlmostDone), consumed := r.consumed + 1)
    ensures Step(t, LF) == AfterEmptyLine(r)
  {
    hide Step, Passes, Turn, Append;
    EndTurns(t.p);
    var up := (F_UPGRADE in t.p.flags && F_CONNECTION_UPGRADE in t.p.flags) || t.p.verb == CONNECT;
    var q := t.p.(upgrade := up, state := HeadersDone);
    NextPass(t.p, t.log, LF);
    BodyTurns(q);
    OnePass(q, t.log + [Notify(HeadersComplete)], LF);
    PassesStep(t, LF);
    TwoNotices(t.log);
  }

  lemma TwoNotices(log: Log)
    ensures (log + [Notify(HeadersComplete)]) + [Notify(MessageComplete)] == log + [Notify(HeadersComplete), Notify(MessageComplete)]
  {
  }

  lemma EndTurns(p: Parser)
    requires p.state.HeadersAlmostDone? && F_TRAILING !in p.flags && !(F_CHUNKED in p.flags && F_CONTENTLENGTH in p.flags)
    ensures var up := (F_UPGRADE in p.flags && F_CONNECTION_UPGRADE in p.flags) || p.verb == CONNECT;
            Turn(p, LF) == Go(p.(upgrade := up, state := HeadersDone)).(notice := Some(HeadersComplete), next := Again)
  {
  }

  lemma BodyTurns(q: Parser)
    requires q.state.HeadersDone? && q.contentLength <= ULLONG_MAX
    ensures Turn(q, LF) == BodyStart(q)
  {
  }
}
