/** The positions of a call at which it agrees with the fold, and what the scan for line ends misses. */
module HttpTrack {
  import opened Bytes
  import opened Options
  import opened HttpSyntax
  import opened HttpFold
  import opened HttpSim

  /** At i the fields are those of the fold, and so are the calls once the marked bytes are delivered. */
  ghost predicate InStep(start: Run, data: seq<Byte>, i: nat, p: Parser, log: Log, mark: Mark)
  {
    && MarkIn(mark, i, data) && p.errno.OK?
    && Fold(start, data[..i]) == Run(p, Pending(log, mark, data, i), start.consumed + i, false)
  }

  /** In a header value nothing is looked for in. */
  predicate GeneralValue(p: Parser)
  {
    p.state.Value? && p.headerState.General?
  }

  predicate InGeneral(r: Run)
  {
    !Halted(r) && GeneralValue(r.p)
  }

  /** A character not allowed in a header value, at a place the scan for the end of the line passes over. */
  predicate HiddenAt(start: Run, data: seq<Byte>, k: nat)
    requires 0 < k < |data|
  {
    InGeneral(Fold(start, data[..k - 1])) && InGeneral(Fold(start, data[..k])) && !IsHeaderChar(data[k])
  }

  ghost predicate Hidden(start: Run, data: seq<Byte>)
  {
    exists k :: 0 < k < |data| && HiddenAt(start, data, k)
  }

  ghost predicate NoneHidden(start: Run, data: seq<Byte>, i: nat)
  {
    forall k :: 0 < k <= i && k < |data| ==> !HiddenAt(start, data, k)
  }

  /** The fold has stopped at a byte the scan passed over. */
  ghost predicate Lost(start: Run, data: seq<Byte>, i: nat)
  {
    && !Fold(start, data).p.errno.OK? && Fold(start, data).consumed < start.consumed + i
    && Hidden(start, data)
  }

  ghost predicate Tracked(start: Run, data: seq<Byte>, i: nat, p: Parser, log: Log, mark: Mark)
  {
    i <= |data| && ((InStep(start, data, i, p, log, mark) && NoneHidden(start, data, i)) || Lost(start, data, i))
  }

  /** The result of a call is that of the fold: the number of bytes read and the error, and if there is
      none all fields and calls. */
  predicate Agrees(r: Run, p: Parser, log: Log, consumed: nat)
  {
    r.p.errno == p.errno && r.consumed == consumed && (p.errno.OK? ==> r.p == p && r.log == log)
  }

  ghost predicate Stopped(start: Run, data: seq<Byte>, parsed: nat, p: Parser, log: Log)
  {
    Agrees(Fold(start, data), p, log, start.consumed + parsed) <==> !Hidden(start, data)
  }

  lemma {:induction false} FoldNext(start: Run, data: seq<Byte>, i: nat)
    requires i < |data|
    ensures Fold(start, data[..i + 1]) == Step(Fold(start, data[..i]), data[i])
  {
    hide Step;
    assert data[..i + 1][..i] == data[..i];
  }

  lemma {:induction false} FoldStays(start: Run, data: seq<Byte>, i: nat)
    requires i <= |data| && Halted(Fold(start, data[..i]))
    ensures forall j :: i <= j <= |data| ==> Fold(start, data[..j]) == Fold(start, data[..i])
    ensures Fold(start, data) == Fold(start, data[..i])
  {
    hide Fold, Halted;
    forall j | i <= j <= |data|
      ensures Fold(start, data[..j]) == Fold(start, data[..i])
    {
      assert data[..j] == data[..i] + data[i..j];
      FoldConcat(start, data[..i], data[i..j]);
      FoldHalted(Fold(start, data[..i]), data[i..j]);
    }
    assert data[..|data|] == data;
  }

  /** Nothing is hidden after the fold has stopped. */
  lemma {:induction false} NoneHiddenAfter(start: Run, data: seq<Byte>, i: nat)
    requires i < |data| && NoneHidden(start, data, i) && Halted(Fold(start, data[..i + 1]))
    ensures !Hidden(start, data)
  {
    hide Fold;
    FoldStays(start, data, i + 1);
    forall k | 0 < k < |data|
      ensures !HiddenAt(start, data, k)
    {
      if k > i {
        assert Fold(start, data[..k]) == Fold(start, data[..i + 1]);
      }
    }
  }

  lemma {:induction false} NoneHiddenNext(start: Run, data: seq<Byte>, i: nat)
    requires i < |data| && NoneHidden(start, data, i)
    requires !InGeneral(Fold(start, data[..i])) || !InGeneral(Fold(start, data[..i + 1]))
             || i + 1 == |data| || IsHeaderChar(data[i + 1])
    ensures NoneHidden(start, data, i + 1)
  {
    hide Fold, InGeneral;
    forall k | 0 < k <= i + 1 && k < |data|
      ensures !HiddenAt(start, data, k)
    {
    }
  }

  lemma {:induction false} AtEnd(start: Run, data: seq<Byte>, p: Parser, log: Log, mark: Mark)
    requires Tracked(start, data, |data|, p, log, mark) && MarkIn(mark, |data|, data)
    ensures Stopped(start, data, |data|, p, Pending(log, mark, data, |data|))
  {
    hide Fold;
    assert data[..|data|] == data;
  }

  /** One byte that the parser gets through. */
  lemma {:induction false} ByteTracked(start: Run, data: seq<Byte>, i: nat, p: Parser, log: Log, mark: Mark,
                                       q: Parser, log': Log, mark': Mark)
    requires Tracked(start, data, i, p, log, mark) && MarkIn(mark, i, data) && i < |data|
    requires p.errno.OK? && q.errno.OK?
    requires !GeneralValue(p) || !GeneralValue(q) || i + 1 == |data| || IsHeaderChar(data[i + 1])
    requires MarkIn(mark', i, data) && MarkFresh(q.state, mark')
    requires Passes(p, Pending(log, mark, data, i), data[i]) == (q, Pending(log', mark', data, i), false)
    ensures Tracked(start, data, i + 1, q, log', mark')
  {
    hide Passes, Append, Fold;
    if InStep(start, data, i, p, log, mark) && NoneHidden(start, data, i) {
      FoldNext(start, data, i);
      ByteInStep(log', mark', q.state, data, i);
      NoneHiddenNext(start, data, i);
    }
  }

  /** One byte at which the parser returns because of an upgrade. */
  lemma {:induction false} ByteExits(start: Run, data: seq<Byte>, i: nat, p: Parser, log: Log, mark: Mark,
                                     q: Parser, log': Log, mark': Mark)
    requires Tracked(start, data, i, p, log, mark) && MarkIn(mark, i, data) && i < |data|
    requires p.errno.OK? && q.errno.OK?
    requires MarkIn(mark', i, data) && MarkFresh(q.state, mark')
    requires Passes(p, Pending(log, mark, data, i), data[i]) == (q, Pending(log', mark', data, i), true)
    ensures Stopped(start, data, i + 1, q, Pending(log', mark', data, i + 1))
  {
    hide Passes, Append, Fold;
    if InStep(start, data, i, p, log, mark) && NoneHidden(start, data, i) {
      FoldNext(start, data, i);
      ByteInStep(log', mark', q.state, data, i);
      NoneHiddenAfter(start, data, i);
      FoldStays(start, data, i + 1);
    }
  }

  /** A byte the fold stops at with an error. */
  lemma {:induction false} ByteFails(start: Run, data: seq<Byte>, i: nat, p: Parser, log: Log, mark: Mark, q: Parser, log': Log)
    requires Tracked(start, data, i, p, log, mark) && MarkIn(mark, i, data) && i < |data|
    requires p.errno.OK? && !q.errno.OK?
    requires Passes(p, Pending(log, mark, data, i), data[i]).0.errno == q.errno
    ensures Stopped(start, data, i, q, log')
  {
    hide Passes, Append, Fold;
    if InStep(start, data, i, p, log, mark) && NoneHidden(start, data, i) {
      FoldNext(start, data, i);
      NoneHiddenAfter(start, data, i);
      FoldStays(start, data, i + 1);
    }
  }

  // ----- loops over many bytes

  predicate IsEol(ch: Byte)
  {
    ch == CR || ch == LF
  }

  /** The scan for the end of the line: either all it passes over is allowed, or the fold has stopped. */
  lemma {:induction false} ScanTracked(start: Run, data: seq<Byte>, i: nat, m: nat, p: Parser, log: Log, mark: Mark)
    requires Tracked(start, data, i, p, log, mark) && MarkIn(mark, i, data) && MarkFresh(p.state, mark)
    requires p.errno.OK? && Sound(p) && GeneralValue(p) && i < m <= |data| && IsHeaderChar(data[i])
    requires (forall j :: i <= j < m ==> !IsEol(data[j])) && (m == |data| || IsEol(data[m]))
    ensures Tracked(start, data, m, p, log, mark)
    decreases m - i
  {
    hide Fold, Passes, Turn, MethodString, Append, NameState, Lost, IsHeaderChar;
    GeneralPass(p, Pending(log, mark, data, i), data[i]);
    EolIsAllowed(data[if m < |data| then m else i]);
    if m == i + 1 || IsHeaderChar(data[i + 1]) {
      ByteTracked(start, data, i, p, log, mark, p, log, mark);
      if i + 1 < m {
        ScanTracked(start, data, i + 1, m, p, log, mark);
      }
    } else if InStep(start, data, i, p, log, mark) && NoneHidden(start, data, i) {
      FoldNext(start, data, i);
      FoldNext(start, data, i + 1);
      BadPass(p, Fold(start, data[..i + 1]).log, data[i + 1]);
      assert HiddenAt(start, data, i + 1);
      FoldStays(start, data, i + 2);
      MoreLost(start, data, i + 1, m);
    } else {
      LostFrom(start, data, i, m);
    }
  }

  lemma EolIsAllowed(ch: Byte)
    ensures IsEol(ch) ==> IsHeaderChar(ch)
  {
  }

  lemma MoreLost(start: Run, data: seq<Byte>, k: nat, m: nat)
    requires 0 < k < |data| && HiddenAt(start, data, k) && k < m
    requires !Fold(start, data).p.errno.OK? && Fold(start, data).consumed == start.consumed + k
    ensures Lost(start, data, m)
  {
    hide Fold, HiddenAt;
  }

  lemma LostFrom(start: Run, data: seq<Byte>, i: nat, m: nat)
    requires Lost(start, data, i) && i <= m
    ensures Lost(start, data, m)
  {
    hide Fold, Hidden;
  }

  lemma GeneralPass(p: Parser, log: Log, ch: Byte)
    requires p.errno.OK? && GeneralValue(p) && !IsEol(ch) && IsHeaderChar(ch)
    ensures Passes(p, log, ch) == (p, log, false)
  {
    hide IsHeaderChar, Plain;
    assert Turn(p, ch) == Go(p);
    OnePass(p, log, ch);
  }

  lemma BadPass(p: Parser, log: Log, ch: Byte)
    requires p.errno.OK? && p.state.Value? && !IsHeaderChar(ch) && !IsEol(ch)
    ensures Passes(p, log, ch).0 == Failed(p, INVALID_HEADER_TOKEN)
  {
    hide IsHeaderChar, Plain;
    assert Turn(p, ch) == Fail(p, INVALID_HEADER_TOKEN);
    OnePass(p, log, ch);
  }

  /** One byte of a body that does not complete a message. */
  lemma {:induction false} BodyByteTracked(start: Run, data: seq<Byte>, i: nat, p: Parser, log: Log, mark: Mark)
    requires Tracked(start, data, i, p, log, mark) && MarkIn(mark, i, data) && MarkOk(p.state, mark, i) && i < |data|
    requires p.errno.OK? && BodyState(p.state) && p.contentLength > 0
    requires p.state.BodyIdentity? ==> p.contentLength > 1
    ensures var m := Marked(mark, Some(Body), i);
            && MarkIn(m, i + 1, data) && MarkOk(BodyByte(p, 1).p.state, m, i + 1)
            && Tracked(start, data, i + 1, BodyByte(p, 1).p, log, m)
  {
    hide Passes, Append, Fold, Plain;
    var m := Marked(mark, Some(Body), i);
    BodyPass(p, Pending(log, mark, data, i), data[i]);
    if InStep(start, data, i, p, log, mark) && NoneHidden(start, data, i) {
      FoldNext(start, data, i);
      NoneHiddenNext(start, data, i);
      assert data[i..i + 1] == [data[i]];
      if m.pos < i {
        assert data[m.pos..i + 1] == data[m.pos..i] + [data[i]];
        AppendTwice(log, Body, data[m.pos..i], [data[i]]);
      }
    }
  }

  lemma BodyPass(p: Parser, log: Log, ch: Byte)
    requires p.errno.OK? && BodyState(p.state) && p.contentLength > 0 && (p.state.BodyIdentity? ==> p.contentLength > 1)
    ensures Passes(p, log, ch) == (BodyByte(p, 1).p, Append(log, Body, [ch]), false)
  {
    hide Append, Plain;
    assert Turn(p, ch) == BodyByte(p, 1);
  }

  /** Many bytes of a body. */
  lemma {:induction false} BodyTracked(start: Run, data: seq<Byte>, i: nat, n: nat, p: Parser, log: Log, mark: Mark)
    requires Tracked(start, data, i, p, log, mark) && MarkIn(mark, i, data) && MarkOk(p.state, mark, i)
    requires p.errno.OK? && BodyState(p.state) && 0 < n <= p.contentLength && i + n <= |data|
    requires p.state.BodyIdentity? ==> n < p.contentLength
    ensures var m := Marked(mark, Some(Body), i);
            && MarkIn(m, i + n, data) && MarkOk(BodyByte(p, n).p.state, m, i + n)
            && Tracked(start, data, i + n, BodyByte(p, n).p, log, m)
    decreases n
  {
    hide Tracked, Fold, BodyByte, Passes, Append, Turn, Plain;
    BodyByteTracked(start, data, i, p, log, mark);
    OneThenMore(p, n);
    if n > 1 {
      BodyTracked(start, data, i + 1, n - 1, BodyByte(p, 1).p, log, Marked(mark, Some(Body), i));
    }
  }

  /** Taking one byte of a body and then the others is taking all of them. */
  lemma OneThenMore(p: Parser, n: nat)
    requires p.errno.OK? && BodyState(p.state) && 0 < n <= p.contentLength
    ensures n == 1 ==> BodyByte(p, 1) == BodyByte(p, n)
    ensures n > 1 ==> var q := BodyByte(p, 1).p;
              q.errno.OK? && q.state == p.state && q.contentLength == p.contentLength - 1 && BodyByte(q, n - 1).p == BodyByte(p, n).p
  {
  }
}
