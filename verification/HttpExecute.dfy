/** `http_parser_execute`: a whole piece of data in one call. */
module HttpExecute {
  import opened Bytes
  import opened Options
  import opened HttpSyntax
  import opened HttpFold
  import opened HttpSim
  import opened HttpTrack

  const HTTP_MAX_HEADER_SIZE: nat := 80 * 1024

  function Min(a: nat, b: nat): (m: nat)
    ensures m <= a && m <= b && (m == a || m == b)
  {
    if a < b then a else b
  }

  /** The first occurrence of a byte within the next `limit` bytes. */
  method Memchr(data: seq<Byte>, p: nat, b: Byte, limit: nat) returns (at: Option<nat>)
    requires p + limit <= |data|
    ensures at.Some? ==> p <= at.value < p + limit && data[at.value] == b && forall j :: p <= j < at.value ==> data[j] != b
    ensures at.None? ==> forall j :: p <= j < p + limit ==> data[j] != b
  {
    var j := p;
    while j < p + limit
      invariant p <= j <= p + limit
      invariant forall k :: p <= k < j ==> data[k] != b
    {
      if data[j] == b {
        return Some(j);
      }
      j := j + 1;
    }
    return None;
  }

  /** Where the line ends, as far as the scan looks; the end of the data if it sees no line end. */
  method ScanLine(data: seq<Byte>, p: nat) returns (q: nat)
    requires p < |data| && !IsEol(data[p])
    ensures p < q <= |data|
    ensures forall j :: p <= j < q && j < p + HTTP_MAX_HEADER_SIZE ==> !IsEol(data[j])
    ensures q == |data| || (IsEol(data[q]) && q < p + HTTP_MAX_HEADER_SIZE)
  {
    var limit := Min(|data| - p, HTTP_MAX_HEADER_SIZE);
    var cr := Memchr(data, p, CR, limit);
    var lf := Memchr(data, p, LF, limit);
    if cr.Some? {
      if lf.Some? && cr.value >= lf.value {
        q := lf.value;
      } else {
        q := cr.value;
      }
    } else if lf.Some? {
      q := lf.value;
    } else {
      q := |data|;
    }
  }

  ghost predicate ReadyAt(start: Run, data: seq<Byte>, i: nat, mark: Mark, p: Parser, log: Log, nread: nat)
  {
    && p.errno.OK? && Sound(p) && nread <= HTTP_MAX_HEADER_SIZE
    && MarkIn(mark, i, data) && MarkOk(p.state, mark, i)
    && Tracked(start, data, i, p, log, mark)
  }

  ghost predicate LeftAt(start: Run, data: seq<Byte>, q: nat, mark: Mark, exit: bool, p: Parser, log: Log, nread: nat)
  {
    && (!p.errno.HEADER_OVERFLOW? ==> q < |data|)
    && (p.errno.OK? && !exit ==> ReadyAt(start, data, q + 1, mark, p, log, nread) && (p.state.ChunkSizeStart? ==> nread == 0))
    && (p.errno.OK? && exit ==>
         Sound(p) && Stopped(start, data, q + 1, p, log) && p.state.StartReq? && nread <= HTTP_MAX_HEADER_SIZE)
    && (!p.errno.OK? && !p.errno.HEADER_OVERFLOW? ==> Stopped(start, data, q, p, log))
    && (p.errno.HEADER_OVERFLOW? ==> nread > HTTP_MAX_HEADER_SIZE)
    && (exit ==> p.errno.OK?)
  }

  /** A loop that went well is left after the bytes are counted. */
  lemma LeftCounted(start: Run, data: seq<Byte>, q: nat, mark: Mark, p: Parser, log: Log, n: nat)
    requires q < |data| && p.errno.OK? && Sound(p) && !p.state.ChunkSizeStart?
    requires MarkIn(mark, q + 1, data) && MarkFresh(p.state, mark) && Tracked(start, data, q + 1, p, log, mark)
    ensures LeftAt(start, data, q, mark, false, if n > HTTP_MAX_HEADER_SIZE then Failed(p, HEADER_OVERFLOW) else p, log, n)
  {
    hide Tracked, Stopped, Sound, KindOf;
    FreshIsOk(p.state, mark, q + 1);
  }

  lemma FreshIsOk(s: State, mark: Mark, i: nat)
    requires MarkFresh(s, mark)
    ensures MarkOk(s, mark, i)
  {
  }

  lemma LeftOverflown(start: Run, data: seq<Byte>, q: nat, mark: Mark, p: Parser, log: Log, n: nat)
    requires p.errno.HEADER_OVERFLOW? && n > HTTP_MAX_HEADER_SIZE
    ensures LeftAt(start, data, q, mark, false, p, log, n)
  {
    hide Tracked, Stopped, Sound;
  }

  lemma LeftFailed(start: Run, data: seq<Byte>, q: nat, mark: Mark, p: Parser, log: Log, n: nat)
    requires q < |data| && !p.errno.OK? && !p.errno.HEADER_OVERFLOW? && Stopped(start, data, q, p, log)
    ensures LeftAt(start, data, q, mark, false, p, log, n)
  {
    hide Tracked, Stopped, Sound;
  }

  /** All passes with a byte have ended. */
  lemma LeftByPasses(start: Run, data: seq<Byte>, q: nat, mark: Mark, exit: bool, p: Parser, log: Log, n: nat)
    requires q < |data| && SoundOrFailed(p) && n <= HTTP_MAX_HEADER_SIZE && (exit ==> p.errno.OK? && p.state.StartReq?)
    requires p.errno.OK? && !exit ==> MarkIn(mark, q + 1, data) && MarkOk(p.state, mark, q + 1) && Tracked(start, data, q + 1, p, log, mark)
    requires p.errno.OK? && p.state.ChunkSizeStart? ==> n == 0
    requires exit ==> Stopped(start, data, q + 1, p, log)
    requires !p.errno.OK? ==> Stopped(start, data, q, p, log)
    ensures LeftAt(start, data, q, mark, exit, p, log, n)
  {
    hide Tracked, Stopped, Sound, MarkOk, MarkIn;
  }

  class HttpParser {
    var fields: Parser
    var nread: nat
    var calls: Log

    /** `http_parser_init` for requests. */
    constructor ()
      ensures Valid() && fields.errno.OK? && fields.state.StartReq? && nread == 0 && calls == []
    {
      fields := Parser(StartReq, HeaderState.General, 0, {}, 0, 0, 0, DELETE, false, OK);
      nread := 0;
      calls := [];
    }

    ghost predicate Valid()
      reads this
    {
      fields.errno.OK? ==> Sound(fields) && nread <= HTTP_MAX_HEADER_SIZE && (fields.state.ChunkSizeStart? ==> nread == 0)
    }

    /** Ready to look at the byte at i. */
    ghost predicate Ready(start: Run, data: seq<Byte>, i: nat, mark: Mark)
      reads this
    {
      ReadyAt(start, data, i, mark, fields, calls, nread)
    }

    /** How a byte, or a loop that ends with the byte at q, has left the parser. */
    ghost predicate Left(start: Run, data: seq<Byte>, q: nat, mark: Mark, exit: bool)
      reads this
    {
      LeftAt(start, data, q, mark, exit, fields, calls, nread)
    }

    method CountHeaderSize(n: nat)
      requires fields.errno.OK?
      modifies this
      ensures nread == old(nread) + n && calls == old(calls)
      ensures fields == if nread > HTTP_MAX_HEADER_SIZE then Failed(old(fields), HEADER_OVERFLOW) else old(fields)
    {
      nread := nread + n;
      if nread > HTTP_MAX_HEADER_SIZE {
        fields := fields.(errno := HEADER_OVERFLOW);
      }
    }

    /** `CALLBACK_DATA` with the bytes up to `end`. */
    method CallbackData(kind: Kind, data: seq<Byte>, end: nat, mark: Mark) returns (left: Mark)
      requires MarkIn(mark, end, data)
      modifies this`calls
      ensures var delivers := mark.At? && mark.kind == kind;
              && calls == (if delivers then Append(old(calls), kind, data[mark.pos..end]) else old(calls))
              && left == if delivers then NoMark else mark
    {
      left := mark;
      if mark.At? && mark.kind == kind {
        calls := Append(calls, kind, data[mark.pos..end]);
        left := NoMark;
      }
    }

    /** One pass with the byte at i. */
    method Pass(e: Effect, data: seq<Byte>, i: nat, mark0: Mark) returns (mark: Mark)
      requires i < |data| && MarkIn(mark0, i, data)
      modifies this
      ensures fields == e.p && (calls, mark) == Told(old(calls), mark0, e, data, i)
      ensures nread == if Recounts(old(fields.state)) then 0 else old(nread)
    {
      hide Append;
      if Recounts(fields.state) {
        nread := 0;
      }
      fields := e.p;
      mark := mark0;
      if e.mark.Some? && mark.NoMark? {
        mark := At(e.mark.value, i);
      }
      if e.data.Some? {
        mark := CallbackData(e.data.value, data, i, mark);
      }
      if e.notice.Some? {
        calls := calls + [Notify(e.notice.value)];
      }
    }

    /** The passes with one byte through the cases outside the loops, `REEXECUTE` included. */
    method Turns(data: seq<Byte>, i: nat, mark0: Mark) returns (mark: Mark, exit: bool)
      requires i < |data| && fields.errno.OK? && Sound(fields) && !Looping(fields.state)
      requires MarkIn(mark0, i, data) && MarkOk(fields.state, mark0, i)
      modifies this
      ensures MarkIn(mark, i, data) && nread <= old(nread)
      ensures var r := Passes(old(fields), Pending(old(calls), mark0, data, i), data[i]);
              && fields == r.0 && exit == r.2
              && (fields.errno.OK? ==> MarkFresh(fields.state, mark) && Pending(calls, mark, data, i) == r.1)
      ensures SoundOrFailed(fields) && (exit ==> fields.errno.OK? && fields.state.StartReq?)
      ensures fields.errno.OK? && fields.state.ChunkSizeStart? ==> nread == 0
    {
      hide Plain, Append, Sound, Passes, Told, MarksWell, Looping, Pending, MarkFresh, Rank;
      ghost var ch, log0 := data[i], Pending(calls, mark0, data, i);
      mark := mark0;
      exit := false;
      var again := true;
      while again
        invariant MarkIn(mark, i, data) && nread <= old(nread)
        invariant fields.errno.OK? && Sound(fields)
        invariant again ==> !Looping(fields.state) && MarkOk(fields.state, mark, i)
        invariant again ==> Passes(fields, Pending(calls, mark, data, i), ch) == Passes(old(fields), log0, ch)
        invariant !again ==> Passes(old(fields), log0, ch) == (fields, Pending(calls, mark, data, i), exit)
        invariant !again ==> MarkFresh(fields.state, mark) && (exit ==> fields.state.StartReq?)
        invariant !again && fields.state.ChunkSizeStart? ==> nread == 0
        decreases again, Rank(fields.state)
      {
        var e := Plain(fields, data[i]);
        PassFacts(fields, calls, mark, data, i);
        mark := Pass(e, data, i, mark);
        if !fields.errno.OK? {
          return mark, false;
        }
        again, exit := e.next.Again?, e.next.Return?;
      }
    }

    /** The loop over a header name. */
    method Names(data: seq<Byte>, i: nat, mark0: Mark, ghost start: Run) returns (q: nat, mark: Mark)
      requires i < |data| && Ready(start, data, i, mark0) && fields.state.Field?
      modifies this
      ensures Left(start, data, q, mark, false) && i <= q
      ensures nread <= old(nread) + (q + 1 - i) && nread <= old(nread) + (|data| - i)
    {
      hide Tracked, Stopped, Sound, Token, FieldChar, Told, Append, Fold, Passes, Turn, Plain, Pending, MarksWell, Step;
      mark := mark0;
      var p := i;
      while p != |data|
        invariant i <= p <= |data| && Ready(start, data, p, mark) && fields.state.Field? && nread == old(nread)
        invariant mark == mark0
        decreases |data| - p
      {
        var ch := data[p];
        var c := Token(ch);
        NameByte(start, data, p, fields, calls, mark);
        if c == 0 {
          break;
        }
        fields := FieldChar(fields, ch, c);
        p := p + 1;
      }
      CountHeaderSize(p - i);
      if !fields.errno.OK? {
        return p, mark;
      }
      if p == |data| {
        return p - 1, mark;
      }
      if data[p] == Code(':') {
        fields := fields.(state := DiscardWs);
        mark := CallbackData(HeaderField, data, p, mark);
      } else {
        fields := fields.(errno := INVALID_HEADER_TOKEN);
      }
      return p, mark;
    }

    /** The loop over a header value, with its scan for the end of the line. */
    method Values(data: seq<Byte>, i: nat, mark0: Mark, ghost start: Run) returns (q: nat, mark: Mark)
      requires i < |data| && Ready(start, data, i, mark0) && fields.state.Value?
      modifies this
      ensures Left(start, data, q, mark, false) && i <= q
      ensures nread <= old(nread) + (q + 1 - i) && nread <= old(nread) + (|data| - i)
    {
      hide Tracked, Stopped, Sound, ValueChar, Told, Append, IsHeaderChar, Fold, Passes, Turn, Plain, Pending, MarksWell, Step, LeftAt;
      mark := mark0;
      var p := i;
      var hState := fields.headerState;
      while p != |data|
        invariant i <= p <= |data| && nread == old(nread) && mark == mark0
        invariant fields.errno.OK? && fields.state.Value? && MarkIn(mark, p, data) && MarkFresh(Value, mark)
        invariant (p - i > HTTP_MAX_HEADER_SIZE && p == |data|)
                  || (Sound(fields.(headerState := hState))
                      && Tracked(start, data, p, fields.(headerState := hState), calls, mark))
        decreases |data| - p
      {
        var ch := data[p];
        ghost var now := fields.(headerState := hState);
        if ch == CR {
          mark := ValueCr(data, i, p, hState, mark, start);
          return p, mark;
        }
        if ch == LF {
          mark := ValueEnd(data, i, p, hState, mark, start);
          return p, mark;
        }
        if !IsHeaderChar(ch) {
          TextByte(start, data, p, now, calls, mark);
          fields := fields.(errno := INVALID_HEADER_TOKEN);
          SameError(start, data, p, Failed(now, INVALID_HEADER_TOKEN), fields, calls);
          LeftFailed(start, data, p, mark, fields, calls, nread);
          return p, mark;
        }
        if hState.General? {
          var m := ScanLine(data, p);
          if m <= p + HTTP_MAX_HEADER_SIZE {
            ScanTracked(start, data, p, m, now, calls, mark);
          }
          p := m - 1;
        } else {
          hState := ValueByte(data, p, hState, mark, start);
          if !fields.errno.OK? {
            return p, mark;
          }
        }
        p := p + 1;
      }
      fields := fields.(headerState := hState);
      if p - i <= HTTP_MAX_HEADER_SIZE {
        LeftCounted(start, data, p - 1, mark, fields, calls, nread + (p - i));
      }
      CountHeaderSize(p - i);
      if !fields.errno.OK? {
        LeftOverflown(start, data, p - 1, mark, fields, calls, nread);
      }
      return p - 1, mark;
    }

    /** A carriage return at p ends the value. */
    method ValueCr(data: seq<Byte>, i: nat, p: nat, hState: HeaderState, mark0: Mark, ghost start: Run) returns (mark: Mark)
      requires i <= p < |data| && fields.errno.OK? && fields.state.Value? && data[p] == CR
      requires MarkIn(mark0, p, data) && MarkFresh(Value, mark0) && Sound(fields.(headerState := hState))
      requires Tracked(start, data, p, fields.(headerState := hState), calls, mark0)
      modifies this
      ensures Left(start, data, p, mark, false) && nread == old(nread) + (p - i)
    {
      hide Tracked, Stopped, Sound, Append, LeftAt, ValueChar, IsHeaderChar;
      TextByte(start, data, p, fields.(headerState := hState), calls, mark0);
      fields := fields.(state := HeaderAlmostDone, headerState := hState);
      mark := CallbackData(HeaderValue, data, p, mark0);
      LeftCounted(start, data, p, mark, fields, calls, nread + (p - i));
      CountHeaderSize(p - i);
    }

    /** A character that is looked at. */
    method ValueByte(data: seq<Byte>, p: nat, hState: HeaderState, ghost mark: Mark, ghost start: Run) returns (h: HeaderState)
      requires p < |data| && fields.errno.OK? && fields.state.Value? && !hState.General? && IsHeaderChar(data[p]) && !IsEol(data[p])
      requires MarkIn(mark, p, data) && MarkFresh(Value, mark) && Sound(fields.(headerState := hState))
      requires Tracked(start, data, p, fields.(headerState := hState), calls, mark)
      modifies this`fields
      ensures if fields.errno.OK? then
                && fields.state.Value? && Sound(fields.(headerState := h))
                && Tracked(start, data, p + 1, fields.(headerState := h), calls, mark)
              else Left(start, data, p, mark, false)
    {
      hide Tracked, Stopped, Sound, Append, LeftAt, ValueChar, IsHeaderChar;
      TextByte(start, data, p, fields.(headerState := hState), calls, mark);
      var v := ValueChar(fields.(headerState := hState), data[p]);
      h := v.headerState;
      if v.errno.OK? {
        fields := v.(headerState := fields.headerState);
      } else {
        fields := v;
        LeftFailed(start, data, p, mark, fields, calls, nread);
      }
    }

    /** A line feed at p ends the value. */
    method ValueEnd(data: seq<Byte>, i: nat, p: nat, hState: HeaderState, mark0: Mark, ghost start: Run) returns (mark: Mark)
      requires i <= p < |data| && fields.errno.OK? && fields.state.Value? && data[p] == LF
      requires MarkIn(mark0, p, data) && MarkFresh(Value, mark0) && Sound(fields.(headerState := hState))
      requires Tracked(start, data, p, fields.(headerState := hState), calls, mark0)
      modifies this
      ensures Left(start, data, p, mark, false) && nread <= old(nread) + (p - i)
    {
      hide Tracked, Stopped, Append, Passes, Pending, Sound, Fold, Turn, Plain, Told, MarksWell, Rank, LeftAt;
      ghost var now, log0 := fields.(headerState := hState), calls;
      mark := mark0;
      fields := fields.(state := HeaderAlmostDone);
      CountHeaderSize(p - i);
      if !fields.errno.OK? {
        LeftOverflown(start, data, p, mark, fields, calls, nread);
        return;
      }
      fields := fields.(headerState := hState);
      LineEnd(now, calls, mark, data, p);
      mark := CallbackData(HeaderValue, data, p, mark);
      var exit;
      mark, exit := Turns(data, p, mark);
      LineEnded(start, data, p, now, log0, mark0, fields, calls, mark);
      FreshIsOk(fields.state, mark, p + 1);
      LeftByPasses(start, data, p, mark, exit, fields, calls, nread);
    }

    /** A body of known length, or a chunk. */
    method Bodies(data: seq<Byte>, i: nat, mark0: Mark, ghost start: Run) returns (q: nat, mark: Mark, exit: bool)
      requires i < |data| && Ready(start, data, i, mark0) && BodyState(fields.state)
      modifies this
      ensures Left(start, data, q, mark, exit) && i <= q && nread <= old(nread)
    {
      hide Tracked, Stopped, Sound, Append, BodyByte, Passes, Pending, Fold, Turn, Plain, Told, MarksWell, Step, LeftAt, MarkOk, MarkIn;
      var toRead := Min(fields.contentLength, |data| - i);
      BodyNotEmpty(fields);
      mark := if mark0.NoMark? then At(Body, i) else mark0;
      q := i + toRead - 1;
      if fields.state.BodyIdentity? && toRead == fields.contentLength {
        mark, exit := BodyEnd(data, i, mark0, mark, start);
      } else {
        BodyTracked(start, data, i, toRead, fields, calls, mark0);
        BodySound(fields, toRead);
        BodyLeft(fields, toRead);
        fields := BodyByte(fields, toRead).p;
        exit := false;
        LeftByPasses(start, data, q, mark, exit, fields, calls, nread);
      }
    }

    /** The body ends within this piece of data, and with it the message. */
    method BodyEnd(data: seq<Byte>, i: nat, ghost mark0: Mark, mark1: Mark, ghost start: Run) returns (mark: Mark, exit: bool)
      requires i < |data| && Ready(start, data, i, mark0) && fields.state.BodyIdentity?
      requires 0 < fields.contentLength <= |data| - i && mark1 == Marked(mark0, Some(Body), i)
      modifies this
      ensures Left(start, data, i + old(fields.contentLength) - 1, mark, exit) && nread <= old(nread)
    {
      hide Tracked, Stopped, Append, Passes, Pending, MethodString, NameState, Fold, Turn, Plain, Told, MarksWell, Rank, Sound, Step, BodyByte, LeftAt, KindOf, MarkOk, MarkFresh, MarkIn, SoundOrFailed;
      DoneMark(data, i + fields.contentLength - 1);
      BodyNotEmpty(fields);
      MessageDoneSound(fields);
      var q := i + fields.contentLength - 1;
      ghost var p, log0 := fields.(contentLength := 1), calls;
      ghost var marked := MarkAtLast(mark0, i, fields.contentLength);
      BodyButLast(start, data, i, fields.contentLength, fields, calls, mark0);
      BodyMark(fields.state, mark0, i);
      LastBytesTold(calls, mark0, data, i, fields.contentLength);
      LastBodyByte(p, Pending(calls, marked, data, q), data[q]);
      fields := fields.(contentLength := 0, state := MessageDone);
      mark := CallbackData(Body, data, q + 1, mark1);
      NothingPending(calls, data, q);
      mark, exit := Turns(data, q, mark);
      PassesEnd(start, data, q, p, log0, marked, fields, calls, mark, exit);
      MarkInNext(mark, q, data);
      LeftByPasses(start, data, q, mark, exit, fields, calls, nread);
    }

    /** The parser as the fold sees it. */
    function Now(): Run
      reads this
    {
      Run(fields, calls, 0, false)
    }

    /** A call gives what the fold over its bytes gives, unless the header grows too long; exactly when
        the scan for line ends passes over a character a header value must not have, it does not. */
    method Execute(data: seq<Byte>) returns (parsed: nat)
      requires Valid() && |data| < 0x8000_0000
      modifies this
      ensures Valid()
      ensures !old(fields.errno).OK? ==> parsed == 0 && fields == old(fields) && calls == old(calls)
      ensures old(fields.errno).OK? && data == [] ==>
                && calls == old(calls)
                && if old(fields.state).StartReq? then parsed == 0 && fields == old(fields)
                   else parsed == 1 && fields == Failed(old(fields), INVALID_EOF_STATE)
      ensures old(fields.errno).OK? && data != [] && !fields.errno.HEADER_OVERFLOW? ==>
                Stopped(old(Now()), data, parsed, fields, calls)
      ensures fields.errno.OK? ==> nread <= old(nread) + 2 * |data|
      ensures old(fields.errno).OK? && fields.errno.HEADER_OVERFLOW? ==> HTTP_MAX_HEADER_SIZE < old(nread) + 2 * |data|
    {
      hide Tracked, Stopped, Sound, Fold, Pending, Passes, Step, Turn, Plain, MarkOk, MarkIn, KindOf, Append;
      if !fields.errno.OK? {
        return 0;
      }
      if |data| == 0 {
        if fields.state.StartReq? {
          return 0;
        }
        fields := fields.(errno := INVALID_EOF_STATE);
        return 1;
      }
      ghost var start := Now();
      var mark := if KindOf(fields.state).Some? then At(KindOf(fields.state).value, 0) else NoMark;
      StartTracked(fields, calls, mark, data);
      var p := 0;
      while p != |data|
        invariant p <= |data| && Ready(start, data, p, mark) && (fields.state.ChunkSizeStart? ==> nread == 0)
        invariant nread <= old(nread) + 2 * p
        decreases |data| - p
      {
        if ParsingHeader(fields.state) {
          CountHeaderSize(1);
          if !fields.errno.OK? {
            return p;
          }
        }
        assert fields.state.ChunkSizeStart? ==> nread == 1;
        var q, exit;
        q, mark, exit := Switch(data, p, mark, start);
        if !fields.errno.OK? {
          return q;
        }
        if exit {
          return q + 1;
        }
        p := q + 1;
      }
      AtEnd(start, data, fields, calls, mark);
      if mark.At? {
        DeliverRest(calls, mark, data);
        mark := CallbackData(mark.kind, data, p, mark);
      } else {
        NothingLeft(calls, data);
      }
      return |data|;
    }

    /** The switch over the state. */
    method Switch(data: seq<Byte>, p: nat, mark0: Mark, ghost start: Run) returns (q: nat, mark: Mark, exit: bool)
      requires p < |data| && Ready(start, data, p, mark0)
      modifies this
      ensures Left(start, data, q, mark, exit) && p <= q
      ensures nread <= old(nread) + (q + 1 - p) && nread <= old(nread) + (|data| - p)
    {
      hide Tracked, Stopped, Sound, Fold, Pending;
      q, exit := p, false;
      if fields.state.Field? {
        q, mark := Names(data, p, mark0, start);
      } else if fields.state.Value? {
        q, mark := Values(data, p, mark0, start);
      } else if BodyState(fields.state) {
        q, mark, exit := Bodies(data, p, mark0, start);
      } else {
        mark, exit := OneByte(data, p, mark0, start);
      }
    }

    method OneByte(data: seq<Byte>, p: nat, mark0: Mark, ghost start: Run) returns (mark: Mark, exit: bool)
      requires p < |data| && Ready(start, data, p, mark0) && !Looping(fields.state)
      modifies this
      ensures Left(start, data, p, mark, exit) && nread <= old(nread)
    {
      hide Tracked, Stopped, Sound, Fold, Passes, Pending, LeftAt;
      ghost var was, log0 := fields, calls;
      mark, exit := Turns(data, p, mark0);
      PassesEnd(start, data, p, was, log0, mark0, fields, calls, mark, exit);
      LeftByPasses(start, data, p, mark, exit, fields, calls, nread);
    }
  }

  /** What one pass means for the state, the marks and the passes that follow. */
  lemma {:induction false} PassFacts(p: Parser, log: Log, mark: Mark, data: seq<Byte>, i: nat)
    requires i < |data| && p.errno.OK? && Sound(p) && !Looping(p.state) && MarkIn(mark, i, data) && MarkOk(p.state, mark, i)
    ensures var e := Plain(p, data[i]);
            var (log', mark') := Told(log, mark, e, data, i);
            var all := Passes(p, Pending(log, mark, data, i), data[i]);
            && SoundOrFailed(e.p)
            && (e.p.errno.OK? ==> MarkFresh(e.p.state, mark') && MarkOk(e.p.state, mark', i))
            && (e.p.errno.OK? && e.next.Again? ==>
                 && !Looping(e.p.state) && Rank(e.p.state) < Rank(p.state)
                 && all == Passes(e.p, Pending(log', mark', data, i), data[i]))
            && (e.p.errno.OK? && !e.next.Again? ==> all == (e.p, Pending(log', mark', data, i), e.next.Return?))
            && (!e.p.errno.OK? ==> all.0 == e.p && !all.2)
            && (e.p.errno.OK? && e.p.state.ChunkSizeStart? ==> Recounts(p.state))
            && (e.next.Return? ==> e.p.state.StartReq? && e.p.errno.OK?)
  {
    hide Plain, Append, Sound, Passes, Told, Pending, Noted;
    var ch, e := data[i], Plain(p, data[i]);
    assert Turn(p, ch) == e;
    TurnSound(p, ch);
    PlainMarksWell(p, ch);
    PlainEnds(p, ch);
    PassInStep(log, mark, p.state, e, data, i);
    if e.next.Again? {
      RankDrops(p, ch);
      NextPass(p, Pending(log, mark, data, i), ch);
    } else {
      OnePass(p, Pending(log, mark, data, i), ch);
    }
  }

  /** A byte of a header name or value handled by the loops. */
  lemma {:induction false} ByteAdvances(start: Run, data: seq<Byte>, i: nat, p: Parser, log: Log, mark: Mark)
    requires i < |data| && Tracked(start, data, i, p, log, mark) && MarkIn(mark, i, data) && MarkFresh(p.state, mark)
    requires p.errno.OK? && Sound(p) && (p.state.Field? || p.state.Value?)
    ensures var e := Turn(p, data[i]);
            var (log', mark') := Told(log, mark, e, data, i);
            && (!e.p.errno.OK? ==> Stopped(start, data, i, e.p, log))
            && (e.p.errno.OK? && !e.next.Again? && (!GeneralValue(p) || !GeneralValue(e.p)) ==>
                 Sound(e.p) && MarkFresh(e.p.state, mark') && Tracked(start, data, i + 1, e.p, log', mark'))
  {
    hide Fold, Passes, Append, NameChar, TextChar, Tracked, Sound, Stopped, Told, Pending, MarksWell;
    var e := Turn(p, data[i]);
    TurnSound(p, data[i]);
    if p.state.Field? {
      NameMarksWell(p, data[i]);
    } else {
      TextMarksWell(p, data[i]);
    }
    LoopInStep(log, mark, p.state, e, data, i);
    AgainIsNoError(p.state, e);
    if !e.next.Again? {
      OnePass(p, Pending(log, mark, data, i), data[i]);
      if e.p.errno.OK? {
        if !GeneralValue(p) || !GeneralValue(e.p) {
          var (log', mark') := Told(log, mark, e, data, i);
          ByteTracked(start, data, i, p, log, mark, e.p, log', mark');
        }
      } else {
        ByteFails(start, data, i, p, log, mark, e.p, log);
      }
    }
  }

  lemma AgainIsNoError(s: State, e: Effect)
    requires MarksWell(s, e)
    ensures e.next.Again? ==> e.p.errno.OK?
  {
  }

  /** After an error only the error is compared. */
  lemma SameError(start: Run, data: seq<Byte>, i: nat, p: Parser, q: Parser, log: Log)
    requires Stopped(start, data, i, p, log) && !p.errno.OK? && q.errno == p.errno
    ensures Stopped(start, data, i, q, log)
  {
    hide Fold, Hidden;
  }

  lemma ToldNothing(log: Log, mark: Mark, p: Parser, data: seq<Byte>, i: nat)
    requires i < |data| && MarkIn(mark, i, data)
    ensures Told(log, mark, Go(p), data, i) == (log, mark)
  {
  }

  lemma ToldData(log: Log, mark: Mark, e: Effect, data: seq<Byte>, i: nat)
    requires i < |data| && MarkIn(mark, i, data) && mark.At? && e.data == Some(mark.kind) && e.mark.None? && e.notice.None?
    ensures Told(log, mark, e, data, i) == (Append(log, mark.kind, data[mark.pos..i]), NoMark)
  {
    hide Append;
  }

  /** One byte in the loop over a header name. */
  lemma {:induction false} NameByte(start: Run, data: seq<Byte>, i: nat, p: Parser, log: Log, mark: Mark)
    requires i < |data| && Tracked(start, data, i, p, log, mark) && MarkIn(mark, i, data) && MarkFresh(Field, mark)
    requires p.errno.OK? && Sound(p) && p.state.Field?
    ensures var ch := data[i];
            if Token(ch) != 0 then
              var q := FieldChar(p, ch, Token(ch));
              Sound(q) && q.state.Field? && q.errno.OK? && Tracked(start, data, i + 1, q, log, mark)
            else if ch == Code(':') then
              Sound(p.(state := DiscardWs))
              && Tracked(start, data, i + 1, p.(state := DiscardWs), Append(log, HeaderField, data[mark.pos..i]), NoMark)
            else Stopped(start, data, i, Failed(p, INVALID_HEADER_TOKEN), log)
  {
    hide Tracked, Stopped, Sound, Token, FieldChar, Told, Append, Plain;
    var ch := data[i];
    ByteAdvances(start, data, i, p, log, mark);
    if Token(ch) != 0 {
      FieldCharStays(p, ch, Token(ch));
      ToldNothing(log, mark, FieldChar(p, ch, Token(ch)), data, i);
    } else if ch == Code(':') {
      ToldData(log, mark, Turn(p, ch), data, i);
    }
  }

  /** One byte in the loop over a header value, but for line feeds. */
  lemma {:induction false} TextByte(start: Run, data: seq<Byte>, i: nat, p: Parser, log: Log, mark: Mark)
    requires i < |data| && Tracked(start, data, i, p, log, mark) && MarkIn(mark, i, data) && MarkFresh(Value, mark)
    requires p.errno.OK? && Sound(p) && p.state.Value? && data[i] != LF
    ensures var ch := data[i];
            if ch == CR then
              var q := p.(state := HeaderAlmostDone);
              Sound(q) && Tracked(start, data, i + 1, q, Append(log, HeaderValue, data[mark.pos..i]), NoMark)
            else if !IsHeaderChar(ch) then Stopped(start, data, i, Failed(p, INVALID_HEADER_TOKEN), log)
            else if p.headerState.General? then true
            else
              var q := ValueChar(p, ch);
              && q.state.Value?
              && (q.errno.OK? ==> Sound(q) && Tracked(start, data, i + 1, q, log, mark))
              && (!q.errno.OK? ==> !q.errno.HEADER_OVERFLOW? && Stopped(start, data, i, q, log))
  {
    hide Tracked, Stopped, Sound, ValueChar, Told, Append, IsHeaderChar, Plain;
    var ch := data[i];
    ByteAdvances(start, data, i, p, log, mark);
    if ch == CR {
      ToldData(log, mark, Turn(p, ch), data, i);
    } else if IsHeaderChar(ch) && !p.headerState.General? {
      ValueCharStays(p, ch);
      ToldNothing(log, mark, ValueChar(p, ch), data, i);
    }
  }

  lemma LoopInStep(log: Log, mark: Mark, s: State, e: Effect, data: seq<Byte>, i: nat)
    requires i < |data| && MarkIn(mark, i, data) && MarkFresh(s, mark) && (s.Field? || s.Value?) && MarksWell(s, e)
    ensures e.p.errno.OK? ==> MarkFresh(e.p.state, Told(log, mark, e, data, i).1)
    ensures e.p.errno.OK? ==>
              Pending(Told(log, mark, e, data, i).0, Told(log, mark, e, data, i).1, data, i)
              == Noted(Pending(log, mark, data, i), e.data, e.notice)
  {
    hide Append, Told, MarksWell, Pending, Noted;
    PassInStep(log, mark, s, e, data, i);
  }

  lemma FieldCharStays(p: Parser, ch: Byte, c: Byte)
    requires Sound(p) && p.state.Field?
    ensures FieldChar(p, ch, c).state == p.state && FieldChar(p, ch, c).errno == p.errno
  {
    hide FieldChar;
    FieldCharKeeps(p, ch, c);
  }

  lemma ValueCharStays(p: Parser, ch: Byte)
    requires Sound(p) && p.state.Value? && p.errno.OK?
    ensures ValueChar(p, ch).state == p.state && !ValueChar(p, ch).errno.HEADER_OVERFLOW?
  {
    hide ValueChar;
    ValueCharKeeps(p, ch);
  }

  /** A line feed ends the value and counts as the end of its line. */
  lemma {:induction false} LineEnd(p: Parser, log: Log, mark: Mark, data: seq<Byte>, i: nat)
    requires i < |data| && MarkIn(mark, i, data) && MarkFresh(p.state, mark)
    requires p.errno.OK? && Sound(p) && p.state.Value? && data[i] == LF
    ensures var q := p.(state := HeaderAlmostDone);
            var told := Append(log, HeaderValue, data[mark.pos..i]);
            && Sound(q)
            && Passes(q, Pending(told, NoMark, data, i), LF) == Passes(p, Pending(log, mark, data, i), LF)
            && Passes(q, Pending(told, NoMark, data, i), LF) == (p.(state := ValueLws), told, false)
  {
    hide Append, Passes, ValueChar, MarksWell, Pending, Noted;
    var e, q := TextChar(p, LF), p.(state := HeaderAlmostDone);
    TextMarksWell(p, LF);
    LoopInStep(log, mark, p.state, e, data, i);
    NextPass(p, Pending(log, mark, data, i), LF);
    var told := Append(log, HeaderValue, data[mark.pos..i]);
    AlmostDonePass(q, told);
    NothingPending(told, data, i);
    assert Told(log, mark, e, data, i) == (told, NoMark);
  }

  lemma {:induction false} LineEnded(start: Run, data: seq<Byte>, i: nat, p: Parser, log: Log, mark: Mark, q: Parser, log': Log, mark': Mark)
    requires Tracked(start, data, i, p, log, mark) && MarkIn(mark, i, data) && i < |data| && p.errno.OK?
    requires MarkIn(mark', i, data) && q == p.(state := ValueLws) && MarkFresh(q.state, mark') && mark.At?
    requires Passes(p, Pending(log, mark, data, i), data[i]) == (q, Pending(log', mark', data, i), false)
    ensures Tracked(start, data, i + 1, q, log', mark') && mark' == NoMark
  {
    hide Tracked, Append, Passes, Pending, Fold, Turn, Plain, Told, MarksWell;
    ByteTracked(start, data, i, p, log, mark, q, log', mark');
  }

  lemma NothingPending(log: Log, data: seq<Byte>, i: nat)
    requires i < |data|
    ensures Pending(log, NoMark, data, i) == log
  {
  }

  lemma AlmostDonePass(q: Parser, log: Log)
    requires q.errno.OK? && q.state.HeaderAlmostDone?
    ensures Passes(q, log, LF) == (q.(state := ValueLws), log, false)
  {
    assert Turn(q, LF) == To(q, ValueLws);
    hide Turn;
    OnePass(q, log, LF);
  }

  lemma DoneMark(data: seq<Byte>, i: nat)
    requires i <= |data|
    ensures MarkIn(NoMark, i, data) && MarkOk(MessageDone, NoMark, i)
  {
  }

  lemma MarkInNext(mark: Mark, i: nat, data: seq<Byte>)
    requires MarkIn(mark, i, data) && i < |data|
    ensures MarkIn(mark, i + 1, data)
  {
  }

  lemma MessageDoneSound(p: Parser)
    requires Sound(p)
    ensures Sound(p.(contentLength := 0, state := MessageDone))
  {
  }

  lemma BodyNotEmpty(p: Parser)
    requires Sound(p) && BodyState(p.state)
    ensures 0 < p.contentLength < ULLONG_MAX
  {
  }

  lemma BodyLeft(p: Parser, n: nat)
    requires BodyState(p.state) && n <= p.contentLength
    ensures var q := BodyByte(p, n).p;
            && q.contentLength == p.contentLength - n && q.errno == p.errno
            && q.state == if n < p.contentLength then p.state
                          else if p.state.BodyIdentity? then MessageDone else ChunkDataAlmostDone
  {
  }

  /** The mark at the last byte of a body that is n bytes long from i on. */
  function MarkAtLast(mark: Mark, i: nat, n: nat): Mark
  {
    if n > 1 then Marked(mark, Some(Body), i) else mark
  }

  /** The bytes of a body up to its last. */
  lemma {:induction false} BodyButLast(start: Run, data: seq<Byte>, i: nat, n: nat, p: Parser, log: Log, mark: Mark)
    requires Tracked(start, data, i, p, log, mark) && MarkIn(mark, i, data) && MarkOk(p.state, mark, i)
    requires p.errno.OK? && p.state.BodyIdentity? && 0 < n == p.contentLength && i + n <= |data|
    ensures MarkIn(MarkAtLast(mark, i, n), i + n - 1, data)
    ensures Tracked(start, data, i + n - 1, p.(contentLength := 1), log, MarkAtLast(mark, i, n))
  {
    hide Passes, Append, Tracked, Turn, Plain, Fold;
    if n > 1 {
      BodyTracked(start, data, i, n - 1, p, log, mark);
    }
  }

  /** The callback with a body's last bytes tells what the fold tells byte by byte. */
  lemma {:induction false} LastBytesTold(log: Log, mark: Mark, data: seq<Byte>, i: nat, n: nat)
    requires MarkIn(mark, i, data) && (mark.NoMark? || (mark.kind.Body? && mark.pos < i)) && 0 < n && i + n <= |data|
    ensures var k, m, last := i + n - 1, Marked(mark, Some(Body), i), MarkAtLast(mark, i, n);
            && m.At? && m.kind.Body? && m.pos <= k && MarkIn(last, k, data)
            && Append(Pending(log, last, data, k), Body, [data[k]]) == Append(log, Body, data[m.pos..k + 1])
  {
    hide Append;
    var k, m := i + n - 1, Marked(mark, Some(Body), i);
    assert data[k..k + 1] == [data[k]];
    if MarkAtLast(mark, i, n).At? {
      assert data[m.pos..k + 1] == data[m.pos..k] + [data[k]];
      AppendTwice(log, Body, data[m.pos..k], [data[k]]);
    }
  }

  lemma BodyMark(s: State, mark: Mark, i: nat)
    requires MarkOk(s, mark, i) && s.BodyIdentity?
    ensures mark.NoMark? || (mark.kind.Body? && mark.pos < i)
  {
  }

  lemma {:induction false} LastBodyByte(p: Parser, log: Log, ch: Byte)
    requires p.state.BodyIdentity? && p.contentLength == 1
    ensures Passes(p, log, ch) == Passes(p.(contentLength := 0, state := MessageDone), Append(log, Body, [ch]), ch)
  {
    hide Append, Plain, NameChar, TextChar, Passes;
    assert Turn(p, ch) == BodyByte(p, 1);
    NextPass(p, log, ch);
  }

  /** All passes with a byte have ended: what the call can rely on. */
  lemma {:induction false} PassesEnd(start: Run, data: seq<Byte>, i: nat, p: Parser, log: Log, mark: Mark,
                                     q: Parser, log': Log, mark': Mark, exit: bool)
    requires i < |data| && Tracked(start, data, i, p, log, mark) && MarkIn(mark, i, data) && p.errno.OK? && !p.state.Value?
    requires MarkIn(mark', i, data) && (exit ==> q.errno.OK? && q.state.StartReq?)
    requires var r := Passes(p, Pending(log, mark, data, i), data[i]);
             && q == r.0 && exit == r.2
             && (q.errno.OK? ==> MarkFresh(q.state, mark') && Pending(log', mark', data, i) == r.1)
    ensures q.errno.OK? && !exit ==> Tracked(start, data, i + 1, q, log', mark') && MarkOk(q.state, mark', i + 1)
    ensures exit ==> Stopped(start, data, i + 1, q, log')
    ensures !q.errno.OK? ==> Stopped(start, data, i, q, log')
  {
    hide Fold, Passes, Append, Tracked, Stopped;
    if !q.errno.OK? {
      ByteFails(start, data, i, p, log, mark, q, log');
    } else if exit {
      ByteExits(start, data, i, p, log, mark, q, log', mark');
    } else {
      ByteTracked(start, data, i, p, log, mark, q, log', mark');
    }
  }

  lemma {:induction false} StartTracked(p: Parser, log: Log, mark: Mark, data: seq<Byte>)
    requires p.errno.OK? && data != [] && mark == if KindOf(p.state).Some? then At(KindOf(p.state).value, 0) else NoMark
    ensures MarkIn(mark, 0, data) && MarkOk(p.state, mark, 0) && Tracked(Run(p, log, 0, false), data, 0, p, log, mark)
  {
    assert data[..0] == [];
  }

  lemma DeliverRest(log: Log, mark: Mark, data: seq<Byte>)
    requires MarkIn(mark, |data|, data) && mark.At?
    ensures Pending(log, mark, data, |data|) == Append(log, mark.kind, data[mark.pos..|data|])
  {
  }

  lemma NothingLeft(log: Log, data: seq<Byte>)
    ensures Pending(log, NoMark, data, |data|) == log
  {
  }
}
