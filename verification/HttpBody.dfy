/** What the parser hands on as a body: exactly the announced bytes (RFC 7230, sections 3.3.2 and 4.1). */
module HttpBody {
  import opened Bytes
  import opened Options
  import opened HttpSyntax
  import opened HttpFold
  import opened HttpTrack
  import opened HttpSim

  // ----- steps

  /** A byte that takes one pass and leads out of any datum. */
  lemma {:induction false} SimpleStep(r: Run, ch: Byte)
    requires !Halted(r) && !Looping(r.p.state)
    requires var e := Plain(r.p, ch); e.p.errno.OK? && !e.next.Again? && KindOf(e.p.state).None?
    ensures var e := Plain(r.p, ch); Step(r, ch) == Run(e.p, Noted(r.log, e.data, e.notice), r.consumed + 1, e.next.Return?)
  {
    hide Plain, Noted, Passes;
    assert Turn(r.p, ch) == Plain(r.p, ch);
    OnePass(r.p, r.log, ch);
  }

  /** A byte outside any datum, whatever passes it takes. */
  lemma {:induction false} PassesStep(r: Run, ch: Byte)
    requires !Halted(r) && Passes(r.p, r.log, ch).0.errno.OK? && KindOf(Passes(r.p, r.log, ch).0.state).None?
    ensures var (p, log, exit) := Passes(r.p, r.log, ch); Step(r, ch) == Run(p, log, r.consumed + 1, exit)
  {
    hide Passes;
  }

  lemma {:induction false} FoldSnoc(r: Run, a: seq<Byte>, ch: Byte)
    ensures Fold(r, a + [ch]) == Step(Fold(r, a), ch)
  {
    hide Step;
    FoldConcat(r, a, [ch]);
    FoldOne(Fold(r, a), ch);
  }

  // ----- bodies of known length

  lemma {:induction false} PartOfBody(r: Run, data: seq<Byte>)
    requires !Halted(r) && BodyState(r.p.state) && 0 < |data| < r.p.contentLength
    ensures Fold(r, data) == r.(p := r.p.(contentLength := r.p.contentLength - |data|),
                                log := Append(r.log, Body, data), consumed := r.consumed + |data|)
  {
    hide Passes, Append, Turn, Plain;
    var k := |data| - 1;
    assert data == data[..k] + [data[k]];
    if k > 0 {
      PartOfBody(r, data[..k]);
      AppendTwice(r.log, Body, data[..k], [data[k]]);
    } else {
      assert data[..0] == [];
    }
    var t := Fold(r, data[..k]);
    BodyPass(t.p, t.log, data[k]);
  }

  /** A request with a content length: the next so many bytes are its body, and then it is complete. */
  lemma {:induction false} BodyIsContentLength(r: Run, data: seq<Byte>)
    requires !Halted(r) && r.p.state.BodyIdentity? && 0 < |data| == r.p.contentLength
    ensures Fold(r, data) == Run(r.p.(contentLength := 0, state := StartReq),
                                 Append(r.log, Body, data) + [Notify(MessageComplete)], r.consumed + |data|, r.p.upgrade)
  {
    hide Passes, Append, Turn, Plain;
    var k := |data| - 1;
    assert data == data[..k] + [data[k]];
    if k > 0 {
      PartOfBody(r, data[..k]);
      AppendTwice(r.log, Body, data[..k], [data[k]]);
    } else {
      assert data[..0] == [];
    }
    var t := Fold(r, data[..k]);
    LastPasses(t.p, t.log, data[k]);
  }

  lemma {:induction false} LastPasses(p: Parser, log: Log, ch: Byte)
    requires p.errno.OK? && p.state.BodyIdentity? && p.contentLength == 1
    ensures Passes(p, log, ch) == (p.(contentLength := 0, state := StartReq), Append(log, Body, [ch]) + [Notify(MessageComplete)], p.upgrade)
  {
    hide Append, Passes;
    assert Turn(p, ch) == BodyByte(p, 1);
    NextPass(p, log, ch);
    var q := p.(contentLength := 0, state := MessageDone);
    DonePass(q, Append(log, Body, [ch]), ch);
  }

  lemma DonePass(q: Parser, log: Log, ch: Byte)
    requires q.errno.OK? && q.state.MessageDone?
    ensures Passes(q, log, ch) == (q.(state := StartReq), log + [Notify(MessageComplete)], q.upgrade)
  {
    assert Turn(q, ch) == ChunkTurn(q, ch);
    hide Turn;
    OnePass(q, log, ch);
  }

  /** The whole data of a chunk. */
  lemma {:induction false} ChunkIsItsSize(r: Run, data: seq<Byte>)
    requires !Halted(r) && r.p.state.ChunkData? && 0 < |data| == r.p.contentLength
    ensures Fold(r, data) == r.(p := r.p.(contentLength := 0, state := ChunkDataAlmostDone),
                                log := Append(r.log, Body, data), consumed := r.consumed + |data|)
  {
    hide Passes, Append, Turn, Plain;
    var k := |data| - 1;
    assert data == data[..k] + [data[k]];
    if k > 0 {
      PartOfBody(r, data[..k]);
      AppendTwice(r.log, Body, data[..k], [data[k]]);
    } else {
      assert data[..0] == [];
    }
    var t := Fold(r, data[..k]);
    BodyPass(t.p, t.log, data[k]);
  }

  // ----- chunks

  /** A chunk as it is sent: the size in hexadecimal, in any spelling, and perhaps an extension. */
  datatype Chunk = Chunk(digits: seq<Byte>, ext: seq<Byte>, data: seq<Byte>)

  function DigitValue(ch: Byte): nat
  {
    if Unhex(ch).Some? then Unhex(ch).value else 0
  }

  function HexValue(digits: seq<Byte>): nat
  {
    if digits == [] then 0
    else HexValue(digits[..|digits| - 1]) * 16 + DigitValue(digits[|digits| - 1])
  }

  /** Digits as the table of the parser knows them, which takes bytes from 128 on for zeros. */
  predicate HexDigits(digits: seq<Byte>)
  {
    |digits| > 0 && forall i :: 0 <= i < |digits| ==> Unhex(digits[i]).Some?
  }

  /** Sizes above this are refused as too large. */
  const MAX_CHUNK: nat := ULLONG_MAX - 16

  predicate GoodSize(c: Chunk)
  {
    && HexDigits(c.digits) && HexValue(c.digits) == |c.data| <= MAX_CHUNK
    && (c.ext == [] || c.ext[0] == Code(';') || c.ext[0] == SP)
    && CR !in c.ext
  }

  function SizeLine(c: Chunk): seq<Byte>
  {
    c.digits + c.ext + [CR] + [LF]
  }

  function ChunkBytes(c: Chunk): seq<Byte>
  {
    SizeLine(c) + c.data + [CR] + [LF]
  }

  function AllChunks(cs: seq<Chunk>): seq<Byte>
  {
    if cs == [] then [] else AllChunks(cs[..|cs| - 1]) + ChunkBytes(cs[|cs| - 1])
  }

  /** What the callbacks are told about the chunks. */
  function ChunkCalls(cs: seq<Chunk>): Log
  {
    if cs == [] then []
    else ChunkCalls(cs[..|cs| - 1]) + [Notify(ChunkHeader), Data(Body, cs[|cs| - 1].data), Notify(ChunkComplete)]
  }

  lemma {:induction false} DigitsRead(r: Run, digits: seq<Byte>)
    requires !Halted(r) && r.p.state.ChunkSizeStart? && HexDigits(digits) && HexValue(digits) <= MAX_CHUNK
    ensures Fold(r, digits) == r.(p := r.p.(state := ChunkSize, contentLength := HexValue(digits)), consumed := r.consumed + |digits|)
  {
    hide Unhex, Plain, Step, Passes, Turn;
    var k := |digits| - 1;
    var t := Fold(r, digits[..k]);
    if k > 0 {
      DigitsRead(r, digits[..k]);
      SizeDigitTurn(t.p, digits[k]);
    } else {
      assert digits[..0] == [];
      FirstDigitTurn(t.p, digits[k]);
    }
    SimpleStep(t, digits[k]);
  }

  lemma FirstDigitTurn(p: Parser, ch: Byte)
    requires p.state.ChunkSizeStart? && Unhex(ch).Some?
    ensures Plain(p, ch) == Go(p.(state := ChunkSize, contentLength := Unhex(ch).value))
  {
    hide Unhex;
  }

  lemma SizeDigitTurn(p: Parser, ch: Byte)
    requires p.state.ChunkSize? && Unhex(ch).Some? && p.contentLength * 16 + Unhex(ch).value <= MAX_CHUNK
    ensures Plain(p, ch) == Go(p.(contentLength := p.contentLength * 16 + Unhex(ch).value))
  {
    CrIsNoDigit();
    hide Unhex;
  }

  lemma CrIsNoDigit()
    ensures Unhex(CR).None? && Unhex(SP).None? && Unhex(Code(';')).None?
  {
  }

  predicate SizeDone(s: State)
  {
    s.ChunkSize? || s.ChunkParameters?
  }

  lemma {:induction false} ExtensionRead(r: Run, ext: seq<Byte>)
    requires !Halted(r) && r.p.state.ChunkSize? && CR !in ext && ext != [] && (ext[0] == Code(';') || ext[0] == SP)
    ensures Fold(r, ext) == r.(p := r.p.(state := ChunkParameters), consumed := r.consumed + |ext|)
  {
    hide Plain, Step, Fold;
    var k := |ext| - 1;
    var init, ch := ext[..k], ext[k];
    assert ext == init + [ch];
    var t := Fold(r, init);
    FoldSnoc(r, init, ch);
    if k > 0 {
      ExtensionRead(r, init);
    } else {
      NothingRead(r);
    }
    ParametersTurn(t.p, ch, k);
    SimpleStep(t, ch);
  }

  lemma ParametersTurn(p: Parser, ch: Byte, k: nat)
    requires ch != CR && (p.state.ChunkParameters? || (p.state.ChunkSize? && (ch == Code(';') || ch == SP)))
    ensures Plain(p, ch) == Go(p.(state := ChunkParameters))
  {
    CrIsNoDigit();
    hide Unhex;
  }

  lemma LineEndTurns(p: Parser)
    ensures SizeDone(p.state) ==> Plain(p, CR) == Go(p.(state := ChunkSizeAlmostDone))
    ensures p.state.ChunkSizeAlmostDone? ==> Plain(p, LF) == ChunkTurn(p, LF)
    ensures p.state.ChunkDataAlmostDone? ==> Plain(p, CR) == Go(p.(state := ChunkDataDone)).(data := Some(Body))
    ensures p.state.ChunkDataDone? ==> Plain(p, LF) == Go(p.(state := ChunkSizeStart)).(notice := Some(ChunkComplete))
  {
  }

  /** The fields once the line with a chunk's size is read. */
  function AfterSize(p: Parser, n: nat): Parser
  {
    if n == 0 then p.(contentLength := 0, flags := p.flags + {F_TRAILING}, state := FieldStart)
    else p.(contentLength := n, state := ChunkData)
  }

  lemma {:induction false} SizeLineRead(r: Run, c: Chunk)
    requires !Halted(r) && r.p.state.ChunkSizeStart? && GoodSize(c)
    ensures Fold(r, SizeLine(c)) == Run(AfterSize(r.p, |c.data|), r.log + [Notify(ChunkHeader)], r.consumed + |SizeLine(c)|, false)
  {
    hide Fold, Step, Plain, HexValue, Unhex, HexDigits;
    SizeRead(r, c);
    var u := Fold(r, c.digits + c.ext);
    SizeLineBreak(u);
    FoldSnoc(r, c.digits + c.ext, CR);
    FoldSnoc(r, c.digits + c.ext + [CR], LF);
  }

  /** The digits and the extension. */
  lemma {:induction false} SizeRead(r: Run, c: Chunk)
    requires !Halted(r) && r.p.state.ChunkSizeStart? && GoodSize(c)
    ensures var u := Fold(r, c.digits + c.ext);
            && SizeDone(u.p.state)
            && u == r.(p := r.p.(state := u.p.state, contentLength := |c.data|), consumed := r.consumed + |c.digits + c.ext|)
  {
    hide Fold, Step, Plain, HexDigits;
    DigitsRead(r, c.digits);
    var t := Fold(r, c.digits);
    FoldConcat(r, c.digits, c.ext);
    if c.ext != [] {
      ExtensionRead(t, c.ext);
    } else {
      NothingRead(t);
    }
  }

  /** The end of the line with the size. */
  lemma {:induction false} SizeLineBreak(u: Run)
    requires !Halted(u) && SizeDone(u.p.state)
    ensures Step(Step(u, CR), LF) == Run(AfterSize(u.p, u.p.contentLength), u.log + [Notify(ChunkHeader)], u.consumed + 2, false)
  {
    hide Step, Plain;
    LineEndTurns(u.p);
    SimpleStep(u, CR);
    var v := Step(u, CR);
    LineEndTurns(v.p);
    SimpleStep(v, LF);
  }

  lemma NothingRead(r: Run)
    ensures Fold(r, []) == r
  {
  }

  /** One chunk: its data is handed on between the two notices. */
  lemma {:induction false} ChunkRead(r: Run, c: Chunk)
    requires !Halted(r) && r.p.state.ChunkSizeStart? && GoodSize(c) && c.data != []
    ensures Fold(r, ChunkBytes(c)) == Run(r.p.(contentLength := 0),
      r.log + [Notify(ChunkHeader), Data(Body, c.data), Notify(ChunkComplete)], r.consumed + |ChunkBytes(c)|, false)
  {
    hide Fold, Step, Plain, HexValue, Unhex, SizeLine, GoodSize;
    SizeLineRead(r, c);
    var line := SizeLine(c);
    var t := Fold(r, line);
    FoldConcat(r, line, c.data);
    ChunkIsItsSize(t, c.data);
    var u := Fold(r, line + c.data);
    assert u.log == r.log + [Notify(ChunkHeader), Data(Body, c.data)];
    LineEndTurns(u.p);
    SimpleStep(u, CR);
    FoldSnoc(r, line + c.data, CR);
    var v := Fold(r, line + c.data + [CR]);
    LineEndTurns(v.p);
    SimpleStep(v, LF);
    FoldSnoc(r, line + c.data + [CR], LF);
  }

  predicate GoodChunks(cs: seq<Chunk>)
  {
    forall i :: 0 <= i < |cs| ==> GoodSize(cs[i]) && cs[i].data != []
  }

  lemma {:induction false} ChunksRead(r: Run, cs: seq<Chunk>)
    requires !Halted(r) && r.p.state.ChunkSizeStart? && GoodChunks(cs)
    ensures var t := Fold(r, AllChunks(cs));
            t == Run(r.p.(contentLength := t.p.contentLength), r.log + ChunkCalls(cs), r.consumed + |AllChunks(cs)|, false)
  {
    hide Fold, Step, ChunkBytes, GoodSize;
    if cs == [] {
      NothingRead(r);
    } else {
      var init, c := cs[..|cs| - 1], cs[|cs| - 1];
      ChunksRead(r, init);
      var t := Fold(r, AllChunks(init));
      FoldConcat(r, AllChunks(init), ChunkBytes(c));
      ChunkRead(t, c);
      LogConcat(r.log, ChunkCalls(init), [Notify(ChunkHeader), Data(Body, c.data), Notify(ChunkComplete)]);
    }
  }

  lemma LogConcat(a: Log, b: Log, c: Log)
    ensures a + b + c == a + (b + c)
  {
  }

  lemma {:induction false} TrailerEnd(r: Run)
    requires !Halted(r) && r.p.state.FieldStart? && F_TRAILING in r.p.flags
    ensures Fold(r, [CR] + [LF]) == Run(r.p.(state := StartReq), r.log + [Notify(ChunkComplete), Notify(MessageComplete)], r.consumed + 2, r.p.upgrade)
  {
    hide Fold, Step, Plain, Passes, Turn;
    FieldStartTurn(r.p);
    SimpleStep(r, CR);
    FoldOne(r, CR);
    FoldSnoc(r, [CR], LF);
    var t := Step(r, CR);
    TrailingTurn(t.p);
    NextPass(t.p, t.log, LF);
    DonePass(t.p.(state := MessageDone), t.log + [Notify(ChunkComplete)], LF);
    PassesStep(t, LF);
  }

  lemma FieldStartTurn(p: Parser)
    requires p.state.FieldStart?
    ensures Plain(p, CR) == Go(p.(state := HeadersAlmostDone))
  {
  }

  lemma TrailingTurn(p: Parser)
    requires p.state.HeadersAlmostDone? && F_TRAILING in p.flags
    ensures Turn(p, LF) == Go(p.(state := MessageDone)).(notice := Some(ChunkComplete), next := Again)
  {
  }

  /** A chunked body: each chunk's data is handed on whole and in order, and then the request is complete. */
  lemma {:induction false} ChunkedBody(r: Run, cs: seq<Chunk>, last: Chunk)
    requires !Halted(r) && r.p.state.ChunkSizeStart? && GoodChunks(cs) && GoodSize(last) && last.data == []
    ensures var t := Fold(r, AllChunks(cs) + SizeLine(last) + ([CR] + [LF]));
            && t.p == r.p.(state := StartReq, contentLength := 0, flags := r.p.flags + {F_TRAILING})
            && t.log == r.log + ChunkCalls(cs) + [Notify(ChunkHeader), Notify(ChunkComplete), Notify(MessageComplete)]
            && t.consumed == r.consumed + |AllChunks(cs) + SizeLine(last)| + 2 && t.exited == r.p.upgrade
  {
    hide Fold, Step, SizeLine, GoodSize;
    ChunksRead(r, cs);
    var t := Fold(r, AllChunks(cs));
    FoldConcat(r, AllChunks(cs), SizeLine(last));
    SizeLineRead(t, last);
    var u := Fold(r, AllChunks(cs) + SizeLine(last));
    FoldConcat(r, AllChunks(cs) + SizeLine(last), [CR] + [LF]);
    TrailerEnd(u);
  }

  /** The body bytes among the calls. */
  function BodyOf(log: Log): seq<Byte>
  {
    if log == [] then []
    else
      var c := log[|log| - 1];
      BodyOf(log[..|log| - 1]) + if c.Data? && c.kind.Body? then c.bytes else []
  }

  function AllData(cs: seq<Chunk>): seq<Byte>
  {
    if cs == [] then [] else AllData(cs[..|cs| - 1]) + cs[|cs| - 1].data
  }

  lemma {:induction false} BodyOfSnoc(log: Log, c: Call)
    ensures BodyOf(log + [c]) == BodyOf(log) + if c.Data? && c.kind.Body? then c.bytes else []
  {
    assert (log + [c])[..|log|] == log;
  }

  /** The calls about chunks hand on the chunks' data, one after the other. */
  lemma {:induction false} BodyOfChunks(log: Log, cs: seq<Chunk>)
    ensures BodyOf(log + ChunkCalls(cs)) == BodyOf(log) + AllData(cs)
  {
    if cs == [] {
      assert log + [] == log;
    } else {
      var init, c := cs[..|cs| - 1], cs[|cs| - 1];
      BodyOfChunks(log, init);
      BodyOfChunk(log + ChunkCalls(init), c);
      LogConcat(log, ChunkCalls(init), [Notify(ChunkHeader), Data(Body, c.data), Notify(ChunkComplete)]);
    }
  }

  lemma {:induction false} BodyOfChunk(log: Log, c: Chunk)
    ensures BodyOf(log + [Notify(ChunkHeader), Data(Body, c.data), Notify(ChunkComplete)]) == BodyOf(log) + c.data
  {
    hide BodyOf;
    var l1 := log + [Notify(ChunkHeader)];
    var l2 := l1 + [Data(Body, c.data)];
    BodyOfSnoc(log, Notify(ChunkHeader));
    BodyOfSnoc(l1, Data(Body, c.data));
    BodyOfSnoc(l2, Notify(ChunkComplete));
    assert log + [Notify(ChunkHeader), Data(Body, c.data), Notify(ChunkComplete)] == l2 + [Notify(ChunkComplete)];
  }

  // ----- what the scan for line ends misses

  /** In a header value nothing is looked for in, a character that is not allowed is refused if it comes
      first in a call, and passed over if it does not. */
  lemma {:induction false} CutDecidesRefusal(r: Run, c: Byte, bad: Byte)
    requires InGeneral(r) && IsHeaderChar(c) && !IsEol(c) && !IsHeaderChar(bad)
    ensures Hidden(r, [c, bad])
    ensures !Hidden(r, [c]) && !Hidden(Fold(r, [c]), [bad])
    ensures Fold(Fold(r, [c]), [bad]).p.errno.INVALID_HEADER_TOKEN?
  {
    hide Plain, IsHeaderChar;
    EolIsAllowed(bad);
    GeneralPass(r.p, r.log, c);
    FoldOne(r, c);
    NothingRead(r);
    assert [c, bad][..0] == [] && [c, bad][..1] == [c];
    assert HiddenAt(r, [c, bad], 1);
    var t := Fold(r, [c]);
    FoldOne(t, bad);
    BadPass(t.p, t.log, bad);
  }
}
