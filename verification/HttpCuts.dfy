/** However a request is cut into calls, the parser ends the same. */
module HttpCuts {
  import opened Bytes
  import opened HttpFold
  import opened HttpSim
  import opened HttpTrack
  import opened HttpExecute

  function Joined(pieces: seq<seq<Byte>>): seq<Byte>
  {
    if pieces == [] then [] else Joined(pieces[..|pieces| - 1]) + pieces[|pieces| - 1]
  }

  function Later(r: Run, n: nat): Run
  {
    r.(consumed := r.consumed + n)
  }

  /** The number of bytes read before does not matter. */
  lemma {:induction false} FoldLater(r: Run, n: nat, data: seq<Byte>)
    ensures Fold(Later(r, n), data) == Later(Fold(r, data), n)
  {
    hide Passes;
    if data != [] {
      FoldLater(r, n, data[..|data| - 1]);
    }
  }

  /** What is hidden within a piece is hidden in the whole. */
  lemma {:induction false} HiddenInPiece(start: Run, before: seq<Byte>, piece: seq<Byte>, after: seq<Byte>, r: Run)
    requires Fold(start, before) == Later(r, |before|) && Hidden(r, piece)
    ensures Hidden(start, before + piece + after)
  {
    hide Fold;
    var k :| 0 < k < |piece| && HiddenAt(r, piece, k);
    var all := before + piece + after;
    forall j | 0 <= j <= |piece|
      ensures Fold(start, all[..|before| + j]) == Later(Fold(r, piece[..j]), |before|)
    {
      assert all[..|before| + j] == before + piece[..j];
      FoldConcat(start, before, piece[..j]);
      FoldLater(r, |before|, piece[..j]);
    }
    assert all[..|before| + k - 1] == all[..|before| + (k - 1)];
    assert HiddenAt(start, all, |before| + k);
  }

  lemma {:induction false} JoinedPrefix(pieces: seq<seq<Byte>>, i: nat)
    requires i <= |pieces|
    ensures exists rest :: Joined(pieces) == Joined(pieces[..i]) + rest
  {
    if i == |pieces| {
      assert pieces[..i] == pieces;
      assert Joined(pieces) == Joined(pieces[..i]) + [];
    } else {
      var init := pieces[..|pieces| - 1];
      JoinedPrefix(init, i);
      assert init[..i] == pieces[..i];
      var rest :| Joined(init) == Joined(pieces[..i]) + rest;
      assert Joined(pieces) == Joined(pieces[..i]) + (rest + pieces[|pieces| - 1]);
    }
  }

  lemma {:induction false} JoinedNext(pieces: seq<seq<Byte>>, i: nat)
    requires i < |pieces|
    ensures Joined(pieces[..i + 1]) == Joined(pieces[..i]) + pieces[i]
  {
    assert pieces[..i + 1][..i] == pieces[..i];
  }

  /** One call of many, which starts where the fold over the bytes before it ends. */
  ghost predicate CallAgrees(start: Run, before: seq<Byte>, piece: seq<Byte>, parsed: nat, p: Parser, log: Log)
  {
    Agrees(Fold(start, before + piece), p, log, |before| + parsed)
  }

  lemma {:induction false} PieceAgrees(start: Run, before: seq<Byte>, piece: seq<Byte>, after: seq<Byte>, r: Run, parsed: nat, p: Parser, log: Log)
    requires Fold(start, before) == Later(r, |before|) && r.consumed == 0
    requires Stopped(r, piece, parsed, p, log) && !Hidden(start, before + piece + after)
    ensures CallAgrees(start, before, piece, parsed, p, log)
  {
    hide Fold, Hidden;
    if Hidden(r, piece) {
      HiddenInPiece(start, before, piece, after, r);
    }
    FoldConcat(start, before, piece);
    FoldLater(r, |before|, piece);
  }

  /** A run that has failed stays as it is. */
  lemma {:induction false} FailedStays(start: Run, data: seq<Byte>, rest: seq<Byte>)
    requires !Fold(start, data).p.errno.OK?
    ensures Fold(start, data + rest) == Fold(start, data)
  {
    hide Fold;
    FoldConcat(start, data, rest);
    FoldHalted(Fold(start, data), rest);
  }

  /** An upgrade ends the run for good. */
  lemma {:induction false} ExitedStays(start: Run, data: seq<Byte>, rest: seq<Byte>)
    requires Fold(start, data).exited
    ensures Fold(start, data + rest).exited
  {
    hide Fold;
    FoldConcat(start, data, rest);
    FoldHalted(Fold(start, data), rest);
  }

  /**
   Any way of cutting the bytes into calls gives what the fold over all of them gives, as long as nothing
   is hidden from the header value check, the header does not grow too long and the message does not
   hand over to another protocol.  A header cannot be too long if twice its bytes fit the limit.
   */
  method Feed(parser: HttpParser, pieces: seq<seq<Byte>>) returns (parsed: nat)
    requires parser.Valid() && parser.fields.errno.OK?
    requires forall i :: 0 <= i < |pieces| ==> 0 < |pieces[i]| < 0x8000_0000
    modifies parser
    ensures parser.Valid()
    ensures var start, all := old(parser.Now()), Joined(pieces);
            !Hidden(start, all) && !Fold(start, all).exited && !parser.fields.errno.HEADER_OVERFLOW? ==>
              Agrees(Fold(start, all), parser.fields, parser.calls, parsed)
    ensures old(parser.nread) + 2 * |Joined(pieces)| <= HTTP_MAX_HEADER_SIZE ==> !parser.fields.errno.HEADER_OVERFLOW?
  {
    hide Fold, Hidden, Sound, Stopped, Joined;
    ghost var start, all := parser.Now(), Joined(pieces);
    NothingFed(start);
    parsed := 0;
    var i := 0;
    while i < |pieces|
      invariant i <= |pieces| && parser.Valid() && parser.fields.errno.OK?
      invariant parsed == |Joined(pieces[..i])| && parser.nread <= old(parser.nread) + 2 * parsed
      invariant !Hidden(start, all) && !Fold(start, all).exited ==>
                  Fold(start, Joined(pieces[..i])) == Later(parser.Now(), parsed)
    {
      ghost var r, before := parser.Now(), Joined(pieces[..i]);
      JoinedNext(pieces, i);
      JoinedPrefix(pieces, i + 1);
      ghost var rest :| all == Joined(pieces[..i + 1]) + rest;
      var n := parser.Execute(pieces[i]);
      if !Hidden(start, all) && !Fold(start, all).exited && !parser.fields.errno.HEADER_OVERFLOW? {
        PieceAgrees(start, before, pieces[i], rest, r, n, parser.fields, parser.calls);
        PieceEnds(start, before, pieces[i], rest, n, parser.fields, parser.calls);
      }
      parsed := parsed + n;
      if !parser.fields.errno.OK? || n != |pieces[i]| {
        return;
      }
      i := i + 1;
    }
    assert pieces[..i] == pieces;
  }

  lemma NothingFed(start: Run)
    ensures Joined([]) == [] && Fold(start, []) == start
  {
  }

  lemma {:induction false} PieceEnds(start: Run, before: seq<Byte>, piece: seq<Byte>, rest: seq<Byte>, parsed: nat, p: Parser, log: Log)
    requires CallAgrees(start, before, piece, parsed, p, log) && !Fold(start, before + piece + rest).exited
    requires start.consumed == 0
    ensures p.errno.OK? ==> parsed == |piece| && Fold(start, before + piece) == Run(p, log, |before| + |piece|, false)
    ensures !p.errno.OK? ==> Agrees(Fold(start, before + piece + rest), p, log, |before| + parsed)
  {
    hide Fold;
    if p.errno.OK? {
      if Fold(start, before + piece).exited {
        ExitedStays(start, before + piece, rest);
      } else {
        RunningConsumesAll(start, before + piece);
      }
    } else {
      FailedStays(start, before + piece, rest);
    }
  }

  /** A fold that has not stopped has read every byte. */
  lemma {:induction false} RunningConsumesAll(start: Run, data: seq<Byte>)
    requires !Halted(Fold(start, data))
    ensures Fold(start, data).consumed == start.consumed + |data|
  {
    hide Passes;
    if data != [] {
      RunningConsumesAll(start, data[..|data| - 1]);
    }
  }

  lemma {:induction false} PassesSound(p: Parser, log: Log, ch: Byte)
    requires p.errno.OK? && Sound(p)
    ensures SoundOrFailed(Passes(p, log, ch).0)
    decreases Rank(p.state)
  {
    hide Turn, Noted, Sound;
    TurnSound(p, ch);
    var e := Turn(p, ch);
    var took := if BodyState(p.state) then Append(log, Body, [ch]) else log;
    if e.next.Again? {
      RankDrops(p, ch);
      AgainNotFailed(p, ch);
      PassesSound(e.p, Noted(took, e.data, e.notice), ch);
    }
  }

  lemma AgainNotFailed(p: Parser, ch: Byte)
    requires p.errno.OK? && Sound(p) && Turn(p, ch).next.Again?
    ensures Turn(p, ch).p.errno.OK?
  {
    hide Plain, NameChar, TextChar, Sound;
    if p.state.Field? {
      NameMarksWell(p, ch);
    } else if p.state.Value? {
      TextMarksWell(p, ch);
      AgainIsNoError(p.state, TextChar(p, ch));
    } else if !BodyState(p.state) {
      PlainMarksWell(p, ch);
      AgainIsNoError(p.state, Plain(p, ch));
    }
  }

  /** No input makes an assertion of the parser fail: every state it can be in is sound, and the case of
      an unknown state is never reached. */
  lemma {:induction false} RunsAreSound(r: Run, data: seq<Byte>)
    requires r.p.errno.OK? && Sound(r.p)
    ensures SoundOrFailed(Fold(r, data).p)
  {
    hide Passes, Sound;
    if data != [] {
      RunsAreSound(r, data[..|data| - 1]);
      var t := Fold(r, data[..|data| - 1]);
      if !Halted(t) {
        PassesSound(t.p, t.log, data[|data| - 1]);
      }
    }
  }
}
