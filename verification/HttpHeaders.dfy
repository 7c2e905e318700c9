/** Header lines, from the first letter of a name to the end of the headers: what the fields are after them. */
module HttpHeaders {
  import opened Bytes
  import opened Options
  import opened HttpSyntax
  import opened HttpFold
  import opened HttpSim
  import opened HttpBody
  import opened HttpNames

  // ----- steps

  /** The calls after a byte that takes one pass. */
  function Logged(log: Log, e: Effect, ch: Byte): Log
  {
    var noted := Noted(log, e.data, e.notice);
    if KindOf(e.p.state).Some? then Append(noted, KindOf(e.p.state).value, [ch]) else noted
  }

  lemma {:induction false} StepIs(r: Run, ch: Byte)
    requires !Halted(r) && !BodyState(r.p.state)
    requires var e := Turn(r.p, ch); e.p.errno.OK? && e.next.Advance?
    ensures var e := Turn(r.p, ch); Step(r, ch) == Run(e.p, Logged(r.log, e, ch), r.consumed + 1, false)
  {
    hide Turn, Noted, Passes;
    OnePass(r.p, r.log, ch);
  }

  lemma {:induction false} EndedAgain(log: Log, kind: Kind)
    requires Ends(log, kind)
    ensures Append(log, kind, []) == log
  {
    var k := |log| - 1;
    assert log[k].bytes + [] == log[k].bytes;
    assert log[k := Data(kind, log[k].bytes)] == log;
  }

  lemma {:induction false} AppendEnds(log: Log, kind: Kind, bytes: seq<Byte>)
    ensures Ends(Append(log, kind, bytes), kind)
  {
  }

  // ----- names

  lemma {:induction false} FirstOfName(r: Run, ch: Byte)
    requires !Halted(r) && r.p.state.FieldStart? && StrictToken(ch) != 0
    ensures var t := Step(r, ch);
            && t == Run(r.p.(state := Field, headerState := t.p.headerState, index := 0), Append(r.log, HeaderField, [ch]), r.consumed + 1, false)
            && Reading([ch], t.p.headerState, 0)
  {
    hide Step, FieldFirst, Append, Reading, StrictToken;
    FirstReads(r.p, ch);
    assert Turn(r.p, ch) == FieldFirst(r.p, ch);
    StepIs(r, ch);
  }

  lemma {:induction false} MoreOfName(r: Run, name: seq<Byte>, ch: Byte)
    requires !Halted(r) && r.p.state.Field? && Reading(name, r.p.headerState, r.p.index) && StrictToken(ch) != 0
    ensures var t := Step(r, ch);
            && t == Run(r.p.(headerState := t.p.headerState, index := t.p.index), Append(r.log, HeaderField, [ch]), r.consumed + 1, false)
            && Reading(name + [ch], t.p.headerState, t.p.index)
  {
    hide Step, FieldChar, Append, Reading, StrictToken, Token;
    NameReads(r.p, name, ch);
    TokenByte(ch);
    assert Turn(r.p, ch) == Go(FieldChar(r.p, ch, Token(ch)));
    StepIs(r, ch);
  }

  /** A name that is a token is handed on, and the state tells which header it is. */
  lemma {:induction false} NameRead(r: Run, name: seq<Byte>)
    requires !Halted(r) && r.p.state.FieldStart? && IsToken(name)
    ensures var t := Fold(r, name);
            && t == Run(r.p.(state := Field, headerState := t.p.headerState, index := t.p.index),
                        Append(r.log, HeaderField, name), r.consumed + |name|, false)
            && Reading(name, t.p.headerState, t.p.index)
  {
    hide Step, Append, Reading, StrictToken;
    var k := |name| - 1;
    var init, ch := name[..k], name[k];
    assert name == init + [ch];
    if k == 0 {
      NothingRead(r);
      assert init == [] && name == [ch];
      FirstOfName(r, ch);
    } else {
      assert IsToken(init);
      NameRead(r, init);
      MoreOfName(Fold(r, init), init, ch);
      AppendTwice(r.log, HeaderField, init, [ch]);
    }
  }

  // ----- from the name to the value

  predicate IsBlank(s: seq<Byte>)
  {
    forall i :: 0 <= i < |s| ==> s[i] == SP || s[i] == TAB
  }

  lemma {:induction false} ColonRead(r: Run)
    requires !Halted(r) && r.p.state.Field? && Ends(r.log, HeaderField)
    ensures Step(r, Code(':')) == r.(p := r.p.(state := DiscardWs), consumed := r.consumed + 1)
  {
    hide Step, Append;
    ColonTurn(r.p);
    EndedAgain(r.log, HeaderField);
    StepIs(r, Code(':'));
  }

  lemma ColonTurn(p: Parser)
    requires p.state.Field?
    ensures Turn(p, Code(':')) == Go(p.(state := DiscardWs)).(data := Some(HeaderField))
  {
    ColonIsNoToken();
    hide Token, StrictToken;
  }

  lemma ColonIsNoToken()
    ensures Token(Code(':')) == 0
  {
  }

  lemma {:induction false} BlanksRead(r: Run, s: seq<Byte>)
    requires !Halted(r) && r.p.state.DiscardWs? && IsBlank(s)
    ensures Fold(r, s) == r.(consumed := r.consumed + |s|)
  {
    hide Step, Append;
    if s != [] {
      var k := |s| - 1;
      BlanksRead(r, s[..k]);
      var t := Fold(r, s[..k]);
      assert Turn(t.p, s[k]) == Go(t.p);
      StepIs(t, s[k]);
    }
  }

  // ----- values

  /** A character that may stand in the value of a header. */
  predicate ValueByte(ch: Byte)
  {
    IsHeaderChar(ch) && ch != CR && ch != LF
  }

  predicate IsValue(v: seq<Byte>)
  {
    v != [] && v[0] != SP && v[0] != TAB && forall i :: 0 <= i < |v| ==> ValueByte(v[i])
  }

  /** The fields after the characters of a value. */
  function ValueRead(p: Parser, v: seq<Byte>): Parser
    requires |v| > 0
  {
    if |v| == 1 then ValueFirst(p, v[0]).p else ValueChar(ValueRead(p, v[..|v| - 1]), v[|v| - 1])
  }

  /** No character of the value is refused. */
  predicate Accepted(p: Parser, v: seq<Byte>)
    requires |v| > 0
  {
    ValueRead(p, v).errno.OK? && (|v| > 1 ==> Accepted(p, v[..|v| - 1]))
  }

  lemma ValueFirstIs(p: Parser, ch: Byte)
    requires p.errno.OK?
    ensures var e := ValueFirst(p, ch);
            e == Go(e.p).(mark := Some(HeaderValue)) && e.p.state.Value?
  {
  }

  lemma {:induction false} FirstOfValue(r: Run, ch: Byte)
    requires !Halted(r) && r.p.state.DiscardWs? && ValueByte(ch) && ch != SP && ch != TAB && ValueFirst(r.p, ch).p.errno.OK?
    ensures Step(r, ch) == Run(ValueFirst(r.p, ch).p, Append(r.log, HeaderValue, [ch]), r.consumed + 1, false)
  {
    hide Step, Append, ValueFirst, IsHeaderChar;
    ValueFirstIs(r.p, ch);
    assert Turn(r.p, ch) == ValueFirst(r.p, ch);
    StepIs(r, ch);
  }

  lemma {:induction false} MoreOfValue(r: Run, ch: Byte)
    requires !Halted(r) && r.p.state.Value? && ValueByte(ch) && ValueChar(r.p, ch).errno.OK?
    ensures Step(r, ch) == Run(ValueChar(r.p, ch), Append(r.log, HeaderValue, [ch]), r.consumed + 1, false)
  {
    hide Step, Append, ValueChar, IsHeaderChar;
    assert Turn(r.p, ch) == Go(ValueChar(r.p, ch));
    ValueCharStays(r.p, ch);
    StepIs(r, ch);
  }

  lemma {:induction false} ValueIsRead(r: Run, v: seq<Byte>)
    requires !Halted(r) && r.p.state.DiscardWs? && IsValue(v) && Accepted(r.p, v)
    ensures Fold(r, v) == Run(ValueRead(r.p, v), Append(r.log, HeaderValue, v), r.consumed + |v|, false)
    ensures ValueRead(r.p, v).state.Value?
  {
    hide Step, Append, ValueFirst, ValueChar, ValueByte;
    var k := |v| - 1;
    var init, ch := v[..k], v[k];
    assert v == init + [ch];
    if k == 0 {
      NothingRead(r);
      ValueFirstIs(r.p, ch);
      FirstOfValue(r, ch);
    } else {
      ValueIsRead(r, init);
      var t := Fold(r, init);
      ValueCharStays(t.p, ch);
      MoreOfValue(t, ch);
      AppendTwice(r.log, HeaderValue, init, [ch]);
    }
  }

  lemma ValueCharStays(p: Parser, ch: Byte)
    ensures ValueChar(p, ch).state == p.state
  {
  }

  lemma {:induction false} LineEndRead(r: Run)
    requires !Halted(r) && r.p.state.Value? && Ends(r.log, HeaderValue)
    ensures Step(Step(r, CR), LF) == r.(p := r.p.(state := ValueLws), consumed := r.consumed + 2)
  {
    hide Step, Append;
    EndedAgain(r.log, HeaderValue);
    assert Turn(r.p, CR) == Go(r.p.(state := HeaderAlmostDone)).(data := Some(HeaderValue));
    StepIs(r, CR);
    var t := Step(r, CR);
    assert Turn(t.p, LF) == Go(t.p.(state := ValueLws));
    StepIs(t, LF);
  }

  // ----- whole lines

  datatype Header = Header(name: seq<Byte>, blank: seq<Byte>, value: seq<Byte>)

  function LineOf(h: Header): seq<Byte>
  {
    h.name + [Code(':')] + h.blank + h.value + [CR] + [LF]
  }

  predicate WellFormedHeader(h: Header)
  {
    IsToken(h.name) && IsBlank(h.blank) && IsValue(h.value)
  }

  /** The fields at the value of a header with this name. */
  predicate Named(p: Parser, q: Parser, name: seq<Byte>)
  {
    q == p.(state := DiscardWs, headerState := q.headerState, index := q.index) && Reading(name, q.headerState, q.index)
  }

  lemma {:induction false} NamePartRead(r: Run, h: Header)
    requires !Halted(r) && r.p.state.FieldStart? && WellFormedHeader(h)
    ensures var start := h.name + [Code(':')] + h.blank;
            var t := Fold(r, start);
            && t == Run(t.p, Append(r.log, HeaderField, h.name), r.consumed + |start|, false) && Named(r.p, t.p, h.name)
  {
    hide Fold, Step, Append, Reading, IsToken, IsValue;
    NameRead(r, h.name);
    AppendEnds(r.log, HeaderField, h.name);
    var t := Fold(r, h.name);
    ColonRead(t);
    FoldSnoc(r, h.name, Code(':'));
    FoldConcat(r, h.name + [Code(':')], h.blank);
    BlanksRead(Fold(r, h.name + [Code(':')]), h.blank);
  }

  /** One header line, for a value that is accepted after the name. */
  lemma {:induction false} LineRead(r: Run, h: Header)
    requires !Halted(r) && r.p.state.FieldStart? && WellFormedHeader(h)
    requires forall q :: Named(r.p, q, h.name) ==> Accepted(q, h.value)
    ensures var t := Fold(r, LineOf(h));
            exists q :: Named(r.p, q, h.name) &&
              t == Run(ValueRead(q, h.value).(state := ValueLws),
                       Append(Append(r.log, HeaderField, h.name), HeaderValue, h.value), r.consumed + |LineOf(h)|, false)
  {
    hide Fold, Step, Append, Reading, IsToken, ValueRead, Accepted, Named;
    var start := h.name + [Code(':')] + h.blank;
    NamePartRead(r, h);
    var t := Fold(r, start);
    NamedState(r.p, t.p, h.name);
    FoldConcat(r, start, h.value);
    ValueIsRead(t, h.value);
    var u := Fold(r, start + h.value);
    AppendEnds(t.log, HeaderValue, h.value);
    ReadIsOk(t.p, h.value);
    LineEndRead(u);
    FoldSnoc(r, start + h.value, CR);
    FoldSnoc(r, start + h.value + [CR], LF);
    assert Named(r.p, t.p, h.name);
  }

  lemma ReadIsOk(p: Parser, v: seq<Byte>)
    requires |v| > 0 && Accepted(p, v)
    ensures ValueRead(p, v).errno.OK?
  {
    hide ValueRead;
  }

  lemma NamedState(p: Parser, q: Parser, name: seq<Byte>)
    requires Named(p, q, name)
    ensures q.state.DiscardWs? && q.errno == p.errno
  {
    hide Reading;
  }

  // ----- what values mean

  predicate IsDecimal(d: seq<Byte>)
  {
    d != [] && forall i :: 0 <= i < |d| ==> 48 <= d[i] <= 57
  }

  /** The number decimal digits stand for. */
  function Decimal(d: seq<Byte>): (n: int)
  {
    if d == [] then 0 else 10 * Decimal(d[..|d| - 1]) + (d[|d| - 1] as int - 48)
  }

  /** The largest content length that is not refused. */
  const MAX_LENGTH: nat := 18_446_744_073_709_551_609

  lemma {:induction false} DecimalBounds(d: seq<Byte>)
    requires IsDecimal(d)
    ensures 0 <= Decimal(d) && (|d| > 1 ==> IsDecimal(d[..|d| - 1]) && Decimal(d[..|d| - 1]) == Decimal(d) / 10)
    ensures |d| == 1 ==> Decimal(d) == d[0] as int - 48 <= 9
  {
    if |d| > 1 {
      DecimalBounds(d[..|d| - 1]);
    }
  }

  /** The fields at the value of a Content-Length header. */
  predicate AtLength(q: Parser)
  {
    q.errno.OK? && q.headerState.ContentLength? && F_CONTENTLENGTH !in q.flags
  }

  function WithLength(q: Parser, n: nat): Parser
  {
    q.(state := Value, index := 0, flags := q.flags + {F_CONTENTLENGTH}, contentLength := n, headerState := ContentLengthNum)
  }

  lemma FirstDigit(q: Parser, ch: Byte)
    requires AtLength(q) && 48 <= ch <= 57
    ensures ValueFirst(q, ch).p == WithLength(q, ch - 48)
  {
  }

  lemma NextDigit(q: Parser, ch: Byte)
    requires q.headerState.ContentLengthNum? && 48 <= ch <= 57
    ensures q.contentLength <= 1_844_674_407_370_955_160 ==>
              ValueChar(q, ch) == q.(contentLength := 10 * q.contentLength + (ch - 48))
    ensures q.contentLength > 1_844_674_407_370_955_160 ==> ValueChar(q, ch) == q.(errno := INVALID_CONTENT_LENGTH)
  {
  }

  /** Decimal digits are read as the number they stand for, and refused exactly if it is too large. */
  lemma {:induction false} LengthRead(q: Parser, d: seq<Byte>)
    requires AtLength(q) && IsDecimal(d)
    ensures Decimal(d) >= 0 && (Accepted(q, d) <==> Decimal(d) <= MAX_LENGTH)
    ensures Decimal(d) <= MAX_LENGTH ==> ValueRead(q, d) == WithLength(q, Decimal(d))
  {
    hide ValueFirst, ValueChar;
    var k := |d| - 1;
    DecimalBounds(d);
    if k == 0 {
      FirstDigit(q, d[0]);
    } else {
      LengthRead(q, d[..k]);
      if Decimal(d[..k]) <= MAX_LENGTH {
        NextDigit(ValueRead(q, d[..k]), d[k]);
      }
    }
  }

  // ----- words as values

  lemma LowerIs(ch: Byte, c: char)
    requires ValueByte(ch) && (97 <= c as int <= 122 || c as int == 45)
    ensures IsLetter(ch, c) ==> Lower(ch) == c as int
  {
  }

  /** The words that values are compared with, and where each leads. */
  function ValueWord(h: HeaderState): (w: string)
  {
    match h
    case MatchingChunked => "chunked"
    case MatchingKeepAlive => "keep-alive"
    case MatchingClose => "close"
    case MatchingConnectionUpgrade => "upgrade"
    case _ => ""
  }

  function ValueDone(h: HeaderState): HeaderState
  {
    match h
    case MatchingChunked => Chunked
    case MatchingKeepAlive => KeepAlive
    case MatchingClose => Close
    case _ => ConnectionUpgrade
  }

  predicate ValueMatching(h: HeaderState)
  {
    h.MatchingChunked? || h.MatchingKeepAlive? || h.MatchingClose? || h.MatchingConnectionUpgrade?
  }

  lemma ValueLetter(h: HeaderState, k: nat)
    requires ValueMatching(h) && k < |ValueWord(h)|
    ensures var c := ValueWord(h)[k]; (97 <= c as int <= 122 || c as int == 45) && CharAt(ValueWord(h), k) == c as int
  {
  }

  /** The header whose value this word is. */
  predicate AtWord(q: Parser, h: HeaderState)
  {
    q.errno.OK? && if h.MatchingChunked? then q.headerState.TransferEncoding? else q.headerState.Connection?
  }

  lemma FirstOfWord(q: Parser, h: HeaderState, ch: Byte)
    requires ValueMatching(h) && AtWord(q, h) && ValueByte(ch) && IsLetter(ch, ValueWord(h)[0])
    ensures ValueFirst(q, ch).p == q.(state := Value, index := 0, headerState := h)
  {
    LowerIs(ch, ValueWord(h)[0]);
    hide Lower;
  }

  lemma NextOfWord(q: Parser, h: HeaderState, k: nat, ch: Byte)
    requires ValueMatching(h) && q.headerState == h && 0 < k < |ValueWord(h)| && q.index == k - 1
    requires ValueByte(ch) && IsLetter(ch, ValueWord(h)[k])
    ensures ValueChar(q, ch) == q.(index := k, headerState := if k == |ValueWord(h)| - 1 then ValueDone(h) else h)
  {
    hide Lower, ValueByte;
    ValueLetter(h, k);
    LowerIs(ch, ValueWord(h)[k]);
  }

  /** A word in any letter case is recognised. */
  lemma {:induction false} WordRead(q: Parser, h: HeaderState, v: seq<Byte>)
    requires ValueMatching(h) && AtWord(q, h) && 0 < |v| <= |ValueWord(h)|
    requires forall i :: 0 <= i < |v| ==> ValueByte(v[i]) && IsLetter(v[i], ValueWord(h)[i])
    ensures Accepted(q, v)
    ensures ValueRead(q, v) == q.(state := Value, index := |v| - 1,
                                  headerState := if |v| == |ValueWord(h)| then ValueDone(h) else h)
  {
    hide ValueFirst, ValueChar, ValueByte, IsLetter;
    var k := |v| - 1;
    LongWords(h);
    if k == 0 {
      FirstOfWord(q, h, v[0]);
    } else {
      WordRead(q, h, v[..k]);
      NextOfWord(ValueRead(q, v[..k]), h, k, v[k]);
    }
  }

  lemma LongWords(h: HeaderState)
    requires ValueMatching(h)
    ensures |ValueWord(h)| > 1
  {
  }

  /** Values nothing is looked for in. */
  lemma {:induction false} OtherRead(q: Parser, v: seq<Byte>)
    requires q.errno.OK? && v != [] && !q.headerState.TransferEncoding? && !q.headerState.ContentLength? && !q.headerState.Connection?
    requires !q.headerState.TokenStart?
    ensures Accepted(q, v)
    ensures ValueRead(q, v) == q.(state := Value, index := 0, headerState := General,
                                  flags := if q.headerState.Upgrade? then q.flags + {F_UPGRADE} else q.flags)
  {
    if |v| > 1 {
      OtherRead(q, v[..|v| - 1]);
    }
  }
}
