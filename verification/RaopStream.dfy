/** The audio buffer as a stream of unbounded packet numbers. */
module RaopStream {
  import opened Bytes
  import opened Options

  const LENGTH: int := 512
  const SEQNUMS: int := 0x1_0000

  /** A queued packet: its header fields and its decoded audio. */
  datatype Frame = Frame(flags: Byte, kind: Byte, timestamp: nat, ssrc: nat, audio: seq<Byte>)

  /** The packets in wait, by number; the next to be played is `first`. */
  datatype Stream = Stream(empty: bool, first: int, last: int, packets: map<int, Frame>)

  /** `seqnum_cmp`: the difference as a signed 16-bit number. */
  function SeqnumCmp(s1: int, s2: int): (d: int)
    ensures -0x8000 <= d < 0x8000
  {
    var d := (s1 - s2) % SEQNUMS;
    if d < 0x8000 then d else d - SEQNUMS
  }

  /** The number a sequence number stands for: the nearest to the first. */
  function NumberOf(s: Stream, seqnum: int): int
  {
    s.first + SeqnumCmp(seqnum, s.first)
  }

  predicate InOrder(s: Stream)
  {
    if s.empty then s.packets == map[]
    else
      && -1 <= s.last - s.first < LENGTH
      && (forall n :: n in s.packets ==> s.first <= n <= s.last)
      && (s.first <= s.last ==> s.last in s.packets)
  }

  /** A queued packet is dropped, ignored as a repetition, put in its place, or starts the stream anew. */
  datatype Queuing = Late | Repeated | Placed(n: int) | Restarts(n: int)

  function QueuingOf(s: Stream, seqnum: int): Queuing
  {
    var n := NumberOf(s, seqnum);
    if s.empty then Restarts(seqnum)
    else if n < s.first then Late
    else if n >= s.first + LENGTH then Restarts(n)
    else if n in s.packets then Repeated
    else Placed(n)
  }

  function Queued(s: Stream, seqnum: int, f: Frame): Stream
  {
    match QueuingOf(s, seqnum)
    case Late => s
    case Repeated => s
    case Placed(n) => Stream(false, s.first, if n > s.last then n else s.last, s.packets[n := f])
    case Restarts(n) => Stream(false, n, n, map[n := f])
  }

  /** What is played: a packet, or silence in its place. */
  datatype Audio = Played(frame: Frame) | Silence

  predicate Waits(s: Stream, noResend: bool)
  {
    s.empty || s.last < s.first || (!noResend && s.first !in s.packets && s.last - s.first + 1 < LENGTH)
  }

  function Head(s: Stream): Audio
  {
    if s.first in s.packets then Played(s.packets[s.first]) else Silence
  }

  function Dequeued(s: Stream, noResend: bool): (r: (Stream, Option<Audio>))
  {
    if Waits(s, noResend) then (s, None)
    else (s.(first := s.first + 1, packets := s.packets - {s.first}), Some(Head(s)))
  }

  /** Nothing waits any more; a valid sequence number is the next one, else the stream is empty. */
  function Flushed(s: Stream, nextSeq: int): Stream
  {
    if nextSeq < 0 || nextSeq > 0xFFFF then Stream(true, s.first, s.last, map[])
    else Stream(s.empty, nextSeq, nextSeq - 1, map[])
  }

  // ----- whole runs

  datatype Event = Queue(seqnum: int, frame: Frame) | Dequeue(noResend: bool) | Flush(nextSeq: int)

  /** Since the stream last started or was flushed: its first number, the packets accepted and what was
      played. */
  datatype History = History(s: Stream, base: int, arrived: map<int, Frame>, played: seq<Audio>)

  function Next(h: History, e: Event): History
  {
    match e
    case Queue(seqnum, f) =>
      var t := Queued(h.s, seqnum, f);
      (match QueuingOf(h.s, seqnum)
       case Restarts(n) => History(t, n, map[n := f], [])
       case Placed(n) => h.(s := t, arrived := h.arrived[n := f])
       case _ => h)
    case Dequeue(noResend) =>
      var (t, a) := Dequeued(h.s, noResend);
      if a.None? then h else h.(s := t, played := h.played + [a.value])
    case Flush(nextSeq) =>
      var t := Flushed(h.s, nextSeq);
      History(t, t.first, map[], [])
  }

  function After(h: History, events: seq<Event>): History
  {
    if events == [] then h else Next(After(h, events[..|events| - 1]), events[|events| - 1])
  }

  const FRESH: History := History(Stream(true, 0, 0, map[]), 0, map[], [])

  /** What has been played is exactly the accepted packets in order of their numbers, with silence where
      none was accepted; the others wait. */
  ghost predicate Delivers(h: History)
  {
    && InOrder(h.s)
    && (!h.s.empty ==>
         && h.s.first == h.base + |h.played|
         && (forall k :: 0 <= k < |h.played| ==>
              h.played[k] == if h.base + k in h.arrived then Played(h.arrived[h.base + k]) else Silence)
         && (forall n :: n in h.s.packets <==> n in h.arrived && h.s.first <= n)
         && (forall n :: n in h.s.packets ==> h.s.packets[n] == h.arrived[n])
         && (forall n :: n in h.arrived ==> h.base <= n))
  }

  lemma {:induction false} NextDelivers(h: History, e: Event)
    requires Delivers(h)
    ensures Delivers(Next(h, e))
  {
    hide Delivers, QueuingOf;
    match e
    case Queue(seqnum, f) =>
      match QueuingOf(h.s, seqnum) {
        case Restarts(n) => StartDelivers(n, f);
        case Placed(n) => PlacedDelivers(h, seqnum, f);
        case _ =>
      }
    case Dequeue(noResend) => DequeueDelivers(h, noResend);
    case Flush(nextSeq) => FlushDelivers(h, nextSeq);
  }

  lemma FlushDelivers(h: History, nextSeq: int)
    requires Delivers(h)
    ensures Delivers(Next(h, Flush(nextSeq)))
  {
  }

  lemma StartDelivers(n: int, f: Frame)
    ensures Delivers(History(Stream(false, n, n, map[n := f]), n, map[n := f], []))
  {
  }

  lemma {:induction false} PlacedDelivers(h: History, seqnum: int, f: Frame)
    requires Delivers(h) && QueuingOf(h.s, seqnum).Placed?
    ensures var n := QueuingOf(h.s, seqnum).n;
            && Queued(h.s, seqnum, f) == Stream(false, h.s.first, if n > h.s.last then n else h.s.last, h.s.packets[n := f])
            && Delivers(h.(s := Queued(h.s, seqnum, f), arrived := h.arrived[n := f]))
  {
    hide SeqnumCmp;
  }

  lemma {:induction false} DequeueDelivers(h: History, noResend: bool)
    requires Delivers(h)
    ensures Delivers(Next(h, Dequeue(noResend)))
  {
    if !Waits(h.s, noResend) {
      var t := Next(h, Dequeue(noResend));
      assert t.played == h.played + [Head(h.s)];
    }
  }

  /** In every run, with flushes anywhere. */
  lemma {:induction false} RunDelivers(events: seq<Event>)
    ensures Delivers(After(FRESH, events))
  {
    if events != [] {
      RunDelivers(events[..|events| - 1]);
      NextDelivers(After(FRESH, events[..|events| - 1]), events[|events| - 1]);
    }
  }

  /** Unless the stream starts anew, a packet once played or passed over is never accepted again. */
  lemma {:induction false} NoneAfterItsTurn(h: History, seqnum: int, f: Frame)
    requires Delivers(h) && !h.s.empty && QueuingOf(h.s, seqnum).Placed?
    ensures var n := NumberOf(h.s, seqnum);
            && h.base + |h.played| <= n && n !in h.arrived
            && Next(h, Queue(seqnum, f)).played == h.played
            && Next(h, Queue(seqnum, f)).s.packets == h.s.packets[n := f]
  {
  }

  /** Sequence numbers less than half their range ahead or behind stand for their own packet, also where
      they wrap around. */
  lemma NearestNumber(s: Stream, n: int)
    requires s.first - 0x8000 <= n < s.first + 0x8000
    ensures NumberOf(s, n % SEQNUMS) == n
  {
    var d := n - s.first;
    assert (n % SEQNUMS - s.first) % SEQNUMS == d % SEQNUMS;
    if d >= 0 {
      assert d % SEQNUMS == d;
    } else {
      assert d % SEQNUMS == d + SEQNUMS;
    }
  }

  /** The drain loop: everything that can be played now. */
  function Drained(s: Stream, noResend: bool): (r: (Stream, seq<Audio>))
    decreases if s.empty then 0 else s.last - s.first + 1
  {
    var (t, a) := Dequeued(s, noResend);
    if a.None? then (s, []) else
      var (u, rest) := Drained(t, noResend);
      (u, [a.value] + rest)
  }

  /** Without resends the loop ends after exactly as many packets as there are numbers in the window. */
  lemma {:induction false} DrainsWindow(s: Stream)
    requires !s.empty && s.first - 1 <= s.last
    ensures var (t, out) := Drained(s, true);
            && |out| == s.last - s.first + 1
            && t == s.(first := s.last + 1, packets := t.packets)
            && forall k :: 0 <= k < |out| ==>
                 out[k] == if s.first + k in s.packets then Played(s.packets[s.first + k]) else Silence
    decreases s.last - s.first
  {
    if s.first <= s.last {
      var t := Dequeued(s, true).0;
      DrainsWindow(t);
      var out, rest := Drained(s, true).1, Drained(t, true).1;
      assert out == [Head(s)] + rest;
      forall k | 0 <= k < |out|
        ensures out[k] == if s.first + k in s.packets then Played(s.packets[s.first + k]) else Silence
      {
        if k > 0 {
          assert out[k] == rest[k - 1];
        }
      }
    }
  }

  /** With resends it stops at the first gap, unless the window is full. */
  lemma {:induction false} DrainStops(s: Stream, noResend: bool)
    ensures Waits(Drained(s, noResend).0, noResend)
    ensures var t := Drained(s, noResend).0;
            t.empty || t.last < t.first || (!noResend && t.first !in t.packets && t.last - t.first < 511)
    decreases if s.empty then 0 else s.last - s.first + 1
  {
    if !Waits(s, noResend) {
      DrainStops(Dequeued(s, noResend).0, noResend);
    }
  }

  // ----- waiting for missing packets

  /** Something is given exactly if the window is not empty and its first packet is there, resends are off,
      or 512 numbers are in the window. */
  lemma GivesExactlyWhen(s: Stream, noResend: bool)
    ensures Dequeued(s, noResend).1.Some? <==>
              !s.empty && s.first <= s.last && (noResend || s.first in s.packets || s.last - s.first >= 511)
    ensures var (t, a) := Dequeued(s, noResend);
            if a.None? then t == s
            else t == s.(first := s.first + 1, packets := s.packets - {s.first})
                 && a.value == if s.first in s.packets then Played(s.packets[s.first]) else Silence
  {
  }

  /** Some packet that was accepted is at least 511 numbers ahead. */
  ghost predicate Ahead(arrived: map<int, Frame>, n: int)
  {
    exists m :: m in arrived && m >= n + 511
  }

  /** Silence was played only for packets that others were far ahead of. */
  ghost predicate Patient(h: History)
  {
    forall k :: 0 <= k < |h.played| && h.played[k].Silence? ==> Ahead(h.arrived, h.base + k)
  }

  /** No dequeue gives up on resends. */
  ghost predicate WithResends(events: seq<Event>)
  {
    forall i :: 0 <= i < |events| && events[i].Dequeue? ==> !events[i].noResend
  }

  lemma {:induction false} NextPatient(h: History, e: Event)
    requires Delivers(h) && Patient(h) && (e.Dequeue? ==> !e.noResend)
    ensures Patient(Next(h, e))
  {
    hide QueuingOf, Queued, Ahead;
    match e
    case Queue(seqnum, f) =>
      if QueuingOf(h.s, seqnum).Placed? {
        var n := QueuingOf(h.s, seqnum).n;
        forall k | 0 <= k < |h.played| && h.played[k].Silence?
          ensures Ahead(h.arrived[n := f], h.base + k)
        {
          StaysAhead(h.arrived, n, f, h.base + k);
        }
      }
    case Dequeue(_) => GivesPatiently(h);
    case Flush(_) =>
  }

  lemma StaysAhead(arrived: map<int, Frame>, n: int, f: Frame, k: int)
    requires Ahead(arrived, k)
    ensures Ahead(arrived[n := f], k)
  {
    var m :| m in arrived && m >= k + 511;
    assert m in arrived[n := f];
  }

  lemma GivesPatiently(h: History)
    requires Delivers(h) && Patient(h)
    ensures Patient(Next(h, Dequeue(false)))
  {
    var t := Next(h, Dequeue(false));
    if !Waits(h.s, false) && h.s.first !in h.s.packets {
      assert h.s.last in h.arrived && h.s.last >= h.s.first + 511;
      assert Ahead(h.arrived, h.s.first);
    }
    assert forall k :: 0 <= k < |h.played| ==> t.played[k] == h.played[k];
  }

  /** In every run without a dequeue that gives up on resends, silence takes the place of a packet only
      after one at least 511 numbers ahead was accepted. */
  lemma {:induction false} RunPatient(events: seq<Event>)
    requires WithResends(events)
    ensures Patient(After(FRESH, events))
  {
    hide Next, Delivers;
    if events != [] {
      var k := |events| - 1;
      RunPatient(events[..k]);
      RunDelivers(events[..k]);
      NextPatient(After(FRESH, events[..k]), events[k]);
    }
  }

  /** So a packet that comes before any that is 511 numbers ahead of it is not late: in the window it gets
      its place. */
  lemma {:induction false} InTime(events: seq<Event>, n: int)
    requires WithResends(events)
    requires var h := After(FRESH, events);
             && !h.s.empty && h.base <= n && h.s.first - 0x8000 <= n < h.s.first + 512
             && n !in h.arrived && forall m :: m in h.arrived ==> m < n + 511
    ensures QueuingOf(After(FRESH, events).s, n % 65536) == Placed(n)
  {
    hide Next, After;
    var h := After(FRESH, events);
    RunDelivers(events);
    RunPatient(events);
    NearestNumber(h.s, n);
    if n < h.s.first {
      PassedOver(h, n);
    }
  }

  lemma PassedOver(h: History, n: int)
    requires Delivers(h) && Patient(h) && !h.s.empty && h.base <= n < h.s.first && n !in h.arrived
    ensures Ahead(h.arrived, n)
  {
    assert h.played[n - h.base] == Silence;
  }

  /** No event starts the stream anew. */
  ghost predicate Unbroken(h: History, events: seq<Event>)
  {
    events == [] || (
      && Unbroken(h, events[..|events| - 1])
      && match events[|events| - 1]
         case Queue(seqnum, _) => !QueuingOf(After(h, events[..|events| - 1]).s, seqnum).Restarts?
         case Dequeue(_) => true
         case Flush(_) => false)
  }

  lemma {:induction false} StaysAccepted(h: History, events: seq<Event>, n: int)
    requires Delivers(h) && Unbroken(h, events) && n in h.arrived && !h.s.empty
    ensures var t := After(h, events);
            Delivers(t) && !t.s.empty && t.base == h.base && n in t.arrived && t.arrived[n] == h.arrived[n]
  {
    hide QueuingOf, Delivers, Dequeued;
    if events != [] {
      var k := |events| - 1;
      StaysAccepted(h, events[..k], n);
      var t := After(h, events[..k]);
      NextDelivers(t, events[k]);
      match events[k]
      case Queue(seqnum, f) => PlacedIsNew(t, seqnum);
      case Dequeue(noResend) => DequeueKeepsStart(t.s, noResend);
      case Flush(_) =>
    }
  }

  lemma PlacedIsNew(h: History, seqnum: int)
    requires Delivers(h) && !h.s.empty
    ensures QueuingOf(h.s, seqnum).Placed? ==> QueuingOf(h.s, seqnum).n !in h.arrived
    ensures !QueuingOf(h.s, seqnum).Restarts? ==> !Queued(h.s, seqnum, Frame(0, 0, 0, 0, [])).empty
  {
  }

  lemma DequeueKeepsStart(s: Stream, noResend: bool)
    ensures Dequeued(s, noResend).0.empty == s.empty
  {
  }

  /** Such a packet is played in its turn, whatever comes next. */
  lemma {:induction false} PlayedInTurn(events: seq<Event>, n: int, f: Frame, more: seq<Event>)
    requires WithResends(events)
    requires var h := After(FRESH, events);
             && !h.s.empty && h.base <= n && h.s.first - 0x8000 <= n < h.s.first + 512
             && n !in h.arrived && (forall m :: m in h.arrived ==> m < n + 511)
             && Unbroken(Next(h, Queue(n % 65536, f)), more)
    ensures var t := After(Next(After(FRESH, events), Queue(n % 65536, f)), more);
            n < t.s.first ==> 0 <= n - t.base < |t.played| && t.played[n - t.base] == Played(f)
  {
    hide After, QueuingOf, Next;
    var h := After(FRESH, events);
    InTime(events, n);
    RunDelivers(events);
    NextDelivers(h, Queue(n % 65536, f));
    PlacedNext(h, n, f);
    StaysAccepted(Next(h, Queue(n % 65536, f)), more, n);
  }

  lemma PlacedNext(h: History, n: int, f: Frame)
    requires QueuingOf(h.s, n % 65536) == Placed(n)
    ensures var t := Next(h, Queue(n % 65536, f)); t.base == h.base && t.arrived == h.arrived[n := f] && !t.s.empty
  {
    hide QueuingOf;
  }

  /** The packets from the first on, with none missing. */
  ghost predicate PlaysRow(s: Stream, out: seq<Audio>)
  {
    forall k :: 0 <= k < |out| ==> s.first + k in s.packets && out[k] == Played(s.packets[s.first + k])
  }

  /** With resends the loop plays the packets up to the first gap, unless the window is full. */
  lemma {:induction false} DrainsToGap(s: Stream)
    requires InOrder(s) && !s.empty && s.last - s.first < 511
    ensures var (t, out) := Drained(s, false);
            PlaysRow(s, out) && t == s.(first := s.first + |out|, packets := t.packets) && t.first !in s.packets
    decreases s.last - s.first
  {
    if s.first <= s.last && s.first in s.packets {
      var t := Dequeued(s, false).0;
      DrainsToGap(t);
      RowStep(s, t, Drained(t, false).1);
    }
  }

  lemma RowStep(s: Stream, t: Stream, rest: seq<Audio>)
    requires s.first in s.packets && t == s.(first := s.first + 1, packets := s.packets - {s.first}) && PlaysRow(t, rest)
    ensures PlaysRow(s, [Played(s.packets[s.first])] + rest)
  {
    var out := [Played(s.packets[s.first])] + rest;
    forall k | 0 <= k < |out|
      ensures s.first + k in s.packets && out[k] == Played(s.packets[s.first + k])
    {
      if k > 0 {
        assert out[k] == rest[k - 1] && t.first + (k - 1) in t.packets;
        assert t.first + (k - 1) == s.first + k;
      }
    }
  }

  /** Where a packet goes, by its number: behind the next to play it is late, in the 512 numbers from there
      on it gets its place unless it is there, and beyond them the stream starts anew with it. */
  lemma PlaceOfNumber(s: Stream, n: int, f: Frame)
    requires InOrder(s) && !s.empty && s.first - 0x8000 <= n < s.first + 0x8000
    ensures var t := Queued(s, n % 65536, f);
            if n < s.first || n in s.packets then t == s
            else if n < s.first + 512 then
              t == s.(last := if n > s.last then n else s.last, packets := s.packets[n := f])
            else t == Stream(false, n, n, map[n := f])
  {
    NearestNumber(s, n);
  }

  /** After a flush to a sequence number the stream goes on with that packet: those before it are late, and what
      waited is gone.  After any other flush the stream starts with the next packet, whatever its number. */
  lemma {:induction false} PlaceAfterFlush(s: Stream, nextSeq: int, n: int, f: Frame)
    requires 0 <= n < 65536
    ensures var t := Queued(Flushed(s, nextSeq), n, f);
            var ahead := if n - nextSeq >= 0x8000 then n - 65536 else if n - nextSeq < -0x8000 then n + 65536 else n;
            if s.empty || nextSeq < 0 || nextSeq >= 65536 then t == Stream(false, n, n, map[n := f])
            else if ahead < nextSeq then t == Stream(false, nextSeq, nextSeq - 1, map[])
            else if ahead < nextSeq + 512 then t == Stream(false, nextSeq, ahead, map[ahead := f])
            else t == Stream(false, ahead, ahead, map[ahead := f])
  {
    if !s.empty && 0 <= nextSeq < 65536 {
      var ahead := if n - nextSeq >= 0x8000 then n - 65536 else if n - nextSeq < -0x8000 then n + 65536 else n;
      assert ahead % 65536 == n;
      PlaceOfNumber(Flushed(s, nextSeq), ahead, f);
    }
  }

  /** The first number from n on whose packet has arrived, or the end of the window. */
  function MissingUpTo(s: Stream, n: int): (m: int)
    ensures n <= m && (n <= s.last + 1 ==> m <= s.last + 1)
    ensures forall k :: n <= k < m ==> k !in s.packets
    ensures m <= s.last ==> m in s.packets
    decreases s.last - n
  {
    if n > s.last || n in s.packets then n else MissingUpTo(s, n + 1)
  }
}
