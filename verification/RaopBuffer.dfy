/** The audio buffer: a ring of 512 entries indexed by 16-bit sequence numbers. */
module RaopBuffers {
  import opened Bytes
  import opened Options
  import opened Arith
  import opened BigEndians
  import opened RaopStream

  const RAOP_BUFFER_LENGTH: nat := 512
  const RAOP_PACKET_LEN: nat := 32768

  datatype BufferEntry = BufferEntry(available: bool, seqnum: nat, frame: Frame)

  const NO_ENTRY: BufferEntry := BufferEntry(false, 0, Frame(0, 0, 0, 0, []))

  function U16(x: int): (u: nat)
    ensures u < 0x1_0000
  {
    x % SEQNUMS
  }

  function Word32(a: nat, b: nat, c: nat, d: nat): nat
  {
    a * 0x100_0000 + b * 0x1_0000 + c * 0x100 + d
  }

  lemma WordBack(v: nat)
    requires v < 0x1_0000_0000
    ensures Word32(v / 0x100_0000 % 256, v / 0x1_0000 % 256, v / 0x100 % 256, v % 256) == v
  {
    var a, b, c := v / 0x100_0000, v / 0x1_0000, v / 0x100;
    assert c == 256 * b + c % 256 && b == 256 * a + b % 256;
  }

  lemma LongBack(v: nat)
    requires v < 0x1_0000_0000
    ensures var b := BigEndian(v, 4); |b| == 4 && Word32(b[0], b[1], b[2], b[3]) == v
  {
    hide BigEndian, Word32;
    TwoAndFour(v);
    WordBack(v);
  }

  lemma ShortBack(v: nat)
    requires v < 0x1_0000
    ensures var b := BigEndian(v, 2); |b| == 2 && b[0] as nat * 0x100 + b[1] == v
  {
    hide BigEndian;
    TwoAndFour(v);
  }

  /** The only number of the window that belongs in slot i. */
  function SlotNumber(first: int, i: int): (n: int)
  {
    first + (i - first) % LENGTH
  }

  lemma SlotOfNumber(first: int, n: int)
    requires first <= n < first + LENGTH
    ensures SlotNumber(first, n % LENGTH) == n && U16(n) % RAOP_BUFFER_LENGTH == n % LENGTH
  {
    var i := n % LENGTH;
    assert (i - first) % LENGTH == (n - first) % LENGTH;
    assert (n - first) % LENGTH == n - first;
    SlotOfSeqnum(n);
  }

  lemma SlotOfSeqnum(n: int)
    ensures U16(n) % RAOP_BUFFER_LENGTH == n % LENGTH
  {
    var q, r := n / 0x1_0000, n % 0x1_0000;
    var k, t := r / 512, r % 512;
    assert n == 512 * (128 * q + k) + t;
    RemainderUnique(512, 128 * q + k, t, n / 512, n % 512);
  }

  lemma SlotInWindow(first: int, i: int)
    requires 0 <= i < LENGTH
    ensures first <= SlotNumber(first, i) < first + LENGTH && SlotNumber(first, i) % LENGTH == i
  {
    assert (first + (i - first) % LENGTH) % LENGTH == (first + (i - first)) % LENGTH;
  }

  /** Moving the window on changes what one slot stands for. */
  lemma SlotAfter(first: int, i: int)
    requires 0 <= i < LENGTH
    ensures SlotNumber(first + 1, i) == if i == first % LENGTH then first + LENGTH else SlotNumber(first, i)
  {
    var n := SlotNumber(first, i);
    SlotInWindow(first, i);
    if n == first {
      SlotOfNumber(first + 1, first + LENGTH);
      assert (first + LENGTH) % LENGTH == first % LENGTH;
    } else {
      SlotOfNumber(first + 1, n);
      assert n - first == (i - first) % LENGTH != 0;
    }
  }

  /** Sequence numbers compare as the numbers they stand for do, if these are near each other. */
  lemma {:induction false} SeqnumCmpNear(a: int, b: int, u: int, v: int)
    requires U16(a) == U16(u) && U16(b) == U16(v) && -0x8000 <= a - b < 0x8000
    ensures SeqnumCmp(u, v) == a - b
  {
    var i, j := u / 0x1_0000 - a / 0x1_0000, v / 0x1_0000 - b / 0x1_0000;
    assert u - v == (a - b) + (i - j) * 0x1_0000;
    var d := if a - b < 0 then a - b + 0x1_0000 else a - b;
    var k := if a - b < 0 then i - j - 1 else i - j;
    RemainderUnique(0x1_0000, k, d, (u - v) / 0x1_0000, (u - v) % 0x1_0000);
  }

  /** The slots hold exactly the packets of the window. */
  ghost predicate Holds(slots: seq<BufferEntry>, s: Stream)
  {
    && |slots| == RAOP_BUFFER_LENGTH
    && forall i :: 0 <= i < RAOP_BUFFER_LENGTH ==> SlotHolds(slots[i], s, SlotNumber(s.first, i))
  }

  ghost predicate SlotHolds(e: BufferEntry, s: Stream, n: int)
  {
    && (e.available <==> n in s.packets)
    && (n in s.packets ==> e.seqnum == U16(n) && e.frame == s.packets[n])
  }

  /** A packet put in its slot. */
  lemma {:induction false} PlacedHolds(slots: seq<BufferEntry>, s: Stream, n: int, f: Frame, t: Stream)
    requires Holds(slots, s) && s.first <= n < s.first + LENGTH
    requires t.first == s.first && t.packets == s.packets[n := f]
    ensures U16(n) % RAOP_BUFFER_LENGTH == n % LENGTH
    ensures Holds(slots[n % LENGTH := BufferEntry(true, U16(n), f)], t)
  {
    hide U16, SlotNumber;
    SlotOfNumber(s.first, n);
    forall i | 0 <= i < RAOP_BUFFER_LENGTH
      ensures SlotHolds(slots[n % LENGTH := BufferEntry(true, U16(n), f)][i], t, SlotNumber(t.first, i))
    {
      SlotInWindow(s.first, i);
      assert SlotHolds(slots[i], s, SlotNumber(s.first, i));
    }
  }

  ghost predicate NoneAvailable(slots: seq<BufferEntry>)
  {
    |slots| == RAOP_BUFFER_LENGTH && forall i :: 0 <= i < RAOP_BUFFER_LENGTH ==> !slots[i].available
  }

  /** A packet that starts the stream. */
  lemma {:induction false} StartHolds(slots: seq<BufferEntry>, n: int, f: Frame)
    requires NoneAvailable(slots)
    ensures U16(n) % RAOP_BUFFER_LENGTH == n % LENGTH
    ensures Holds(slots[n % LENGTH := BufferEntry(true, U16(n), f)], Stream(false, n, n, map[n := f]))
  {
    PlacedHolds(slots, Stream(false, n, n - 1, map[]), n, f, Stream(false, n, n, map[n := f]));
  }

  lemma {:induction false} EmptyHolds(slots: seq<BufferEntry>, s: Stream)
    requires Holds(slots, s) && s.packets == map[]
    ensures NoneAvailable(slots)
  {
    forall i | 0 <= i < RAOP_BUFFER_LENGTH
      ensures !slots[i].available
    {
      assert SlotHolds(slots[i], s, SlotNumber(s.first, i));
    }
  }

  /** The tests made with sequence numbers decide where a packet belongs. */
  lemma {:induction false} TestsDecide(s: Stream, seqnum: nat)
    requires InOrder(s) && !s.empty && seqnum < 0x1_0000
    ensures var n := NumberOf(s, seqnum);
            && seqnum == U16(n)
            && (SeqnumCmp(seqnum, U16(s.first)) < 0 <==> n < s.first)
            && (n >= s.first ==> (SeqnumCmp(seqnum, U16(s.first) + RAOP_BUFFER_LENGTH) >= 0 <==> n >= s.first + LENGTH))
            && (s.first <= n < s.first + LENGTH ==> (SeqnumCmp(seqnum, U16(s.last)) > 0 <==> n > s.last))
  {
    hide U16, SeqnumCmp;
    var n := NumberOf(s, seqnum);
    SameSeqnum(s, seqnum);
    SmallU16(s.first, seqnum);
    SmallU16(s.last, seqnum);
    SeqnumCmpNear(n, s.first, seqnum, U16(s.first));
    if s.first <= n {
      SeqnumCmpNear(n, s.first + LENGTH, seqnum, U16(s.first) + RAOP_BUFFER_LENGTH);
      if n < s.first + LENGTH {
        SeqnumCmpNear(n, s.last, seqnum, U16(s.last));
      }
    }
  }

  lemma SmallU16(n: int, seqnum: nat)
    requires seqnum < 0x1_0000
    ensures U16(U16(n)) == U16(n) && U16(seqnum) == seqnum && U16(U16(n) + RAOP_BUFFER_LENGTH) == U16(n + LENGTH)
  {
    var q := n / 0x1_0000;
    var x := (U16(n) + 512) / 0x1_0000;
    assert n + 512 == (q + x) * 0x1_0000 + (U16(n) + 512) % 0x1_0000;
    RemainderUnique(0x1_0000, q + x, (U16(n) + 512) % 0x1_0000, (n + 512) / 0x1_0000, (n + 512) % 0x1_0000);
  }

  lemma SameSeqnum(s: Stream, seqnum: nat)
    requires seqnum < 0x1_0000
    ensures seqnum == U16(NumberOf(s, seqnum))
  {
    var d := (seqnum - s.first) % SEQNUMS;
    assert (s.first + d) % SEQNUMS == seqnum % SEQNUMS;
    assert (s.first + (d - SEQNUMS)) % SEQNUMS == (s.first + d) % SEQNUMS;
  }

  /** In a slot of the window the stored sequence number tells the same packet from others. */
  lemma {:induction false} SlotTells(slots: seq<BufferEntry>, s: Stream, n: int)
    requires Holds(slots, s) && s.first <= n < s.first + LENGTH
    ensures U16(n) % RAOP_BUFFER_LENGTH == n % LENGTH
    ensures slots[n % LENGTH].available <==> n in s.packets
    ensures n in s.packets ==> SeqnumCmp(slots[n % LENGTH].seqnum, U16(n)) == 0 && slots[n % LENGTH].frame == s.packets[n]
  {
    SlotOfNumber(s.first, n);
    assert SlotHolds(slots[n % LENGTH], s, SlotNumber(s.first, n % LENGTH));
  }

  class RaopBuffer {
    var isEmpty: bool
    var firstSeqnum: nat
    var lastSeqnum: nat
    const entries: array<BufferEntry>
    /** Decryption and decoding of a payload. */
    const decode: seq<Byte> -> seq<Byte>
    /** The same packets under unbounded numbers. */
    ghost var stream: Stream
    /** What was accepted and played since the stream last started or was flushed. */
    ghost var history: History

    constructor (decode: seq<Byte> -> seq<Byte>)
      ensures Valid() && fresh(entries) && history == FRESH && this.decode == decode
    {
      isEmpty, firstSeqnum, lastSeqnum := true, 0, 0;
      entries := new BufferEntry[RAOP_BUFFER_LENGTH](_ => NO_ENTRY);
      this.decode := decode;
      stream, history := FRESH.s, FRESH;
    }

    ghost predicate Valid()
      reads this, entries
    {
      && entries.Length == RAOP_BUFFER_LENGTH && InOrder(stream) && -1 <= stream.last - stream.first < LENGTH
      && isEmpty == stream.empty && firstSeqnum == U16(stream.first) && lastSeqnum == U16(stream.last)
      && Holds(entries[..], stream) && stream == history.s && Delivers(history)
    }

    method Flush(nextSeq: int)
      requires Valid()
      modifies this, entries
      ensures Valid()
      ensures stream == Flushed(old(stream), nextSeq) && history == Next(old(history), Event.Flush(nextSeq))
    {
      var i := 0;
      while i < RAOP_BUFFER_LENGTH
        invariant i <= RAOP_BUFFER_LENGTH && forall k :: 0 <= k < i ==> !entries[k].available
        invariant isEmpty == old(isEmpty) && stream == old(stream) && history == old(history)
        invariant firstSeqnum == old(firstSeqnum) && lastSeqnum == old(lastSeqnum)
      {
        entries[i] := entries[i].(available := false);
        i := i + 1;
      }
      if nextSeq < 0 || nextSeq > 0xFFFF {
        isEmpty := true;
      } else {
        firstSeqnum := nextSeq;
        lastSeqnum := U16(nextSeq - 1);
      }
      FlushDelivers(history, nextSeq);
      stream := Flushed(stream, nextSeq);
      history := Next(history, Event.Flush(nextSeq));
    }

    /** What a packet that is long enough says. */
    function SeqnumOf(data: seq<Byte>): nat
      requires |data| >= 12
    {
      (data[2] as nat) * 0x100 + data[3]
    }

    function FrameOf(data: seq<Byte>): Frame
      requires |data| >= 12
    {
      Frame(data[0], data[1], Word32(data[4], data[5], data[6], data[7]), Word32(data[8], data[9], data[10], data[11]),
            decode(data[12..]))
    }

    lemma HeaderFields(a: seq<Byte>, b: seq<Byte>, c: seq<Byte>, d: seq<Byte>, payload: seq<Byte>)
      requires |a| == |b| == 2 && |c| == |d| == 4
      ensures var data := a + b + c + d + payload;
              && SeqnumOf(data) == b[0] as nat * 0x100 + b[1]
              && FrameOf(data) == Frame(a[0], a[1], Word32(c[0], c[1], c[2], c[3]), Word32(d[0], d[1], d[2], d[3]), decode(payload))
    {
      hide Word32;
      var data := a + b + c + d + payload;
      assert data[12..] == payload;
      assert data[2..4] == b && data[4..8] == c && data[8..12] == d;
    }

    /** The header of a packet is that of RFC 3550, section 5.1. */
    lemma HeaderRead(flags: Byte, kind: Byte, seqnum: nat, timestamp: nat, ssrc: nat, payload: seq<Byte>)
      requires seqnum < 0x1_0000 && timestamp < 0x1_0000_0000 && ssrc < 0x1_0000_0000
      ensures var data := [flags, kind] + BigEndian(seqnum, 2) + BigEndian(timestamp, 4) + BigEndian(ssrc, 4) + payload;
              SeqnumOf(data) == seqnum && FrameOf(data) == Frame(flags, kind, timestamp, ssrc, decode(payload))
    {
      hide BigEndian, Word32, SeqnumOf, FrameOf;
      ShortBack(seqnum);
      LongBack(timestamp);
      LongBack(ssrc);
      HeaderFields([flags, kind], BigEndian(seqnum, 2), BigEndian(timestamp, 4), BigEndian(ssrc, 4), payload);
    }

    /** A 16-byte packet that announces there is no audio yet. */
    predicate NoAudio(data: seq<Byte>)
    {
      |data| == 16 && data[12..] == [0x00, 0x68, 0x34, 0x00]
    }

    method Queue(data: seq<Byte>) returns (r: int)
      requires Valid()
      modifies this, entries
      ensures Valid()
      ensures |data| < 12 || |data| > RAOP_PACKET_LEN ==> r == -1 && stream == old(stream) && history == old(history)
      ensures 12 <= |data| <= RAOP_PACKET_LEN && NoAudio(data) ==> r == 0 && stream == old(stream) && history == old(history)
      ensures 12 <= |data| <= RAOP_PACKET_LEN && !NoAudio(data) ==>
                && stream == Queued(old(stream), SeqnumOf(data), FrameOf(data))
                && history == Next(old(history), Event.Queue(SeqnumOf(data), FrameOf(data)))
                && r == match QueuingOf(old(stream), SeqnumOf(data)) case Late => 0 case Repeated => 0 case _ => 1
    {
      if |data| < 12 || |data| > RAOP_PACKET_LEN {
        return -1;
      }
      if NoAudio(data) {
        return 0;
      }
      var seqnum := SeqnumOf(data);
      r := QueueFrame(seqnum, FrameOf(data));
    }

    method QueueFrame(seqnum: nat, frame: Frame) returns (r: int)
      requires Valid() && seqnum < 0x1_0000
      modifies this, entries
      ensures Valid() && stream == Queued(old(stream), seqnum, frame)
      ensures history == Next(old(history), Event.Queue(seqnum, frame))
      ensures r == match QueuingOf(old(stream), seqnum) case Late => 0 case Repeated => 0 case _ => 1
    {
      hide U16, SeqnumCmp, Holds, Delivers;
      ghost var s, h := stream, history;
      NextDelivers(h, Event.Queue(seqnum, frame));
      if !s.empty {
        TestsDecide(s, seqnum);
      }
      if !isEmpty && SeqnumCmp(seqnum, firstSeqnum) < 0 {
        return 0;
      }
      if SeqnumCmp(seqnum, firstSeqnum + RAOP_BUFFER_LENGTH) >= 0 {
        Flush(seqnum);
      }
      ghost var slots, n := entries[..], NumberOf(s, seqnum);
      var entry := entries[seqnum % RAOP_BUFFER_LENGTH];
      ghost var kind := QueuingOf(s, seqnum);
      if kind.Restarts? {
        EmptyHolds(slots, stream);
        StartHolds(slots, kind.n, frame);
        SameNumber(kind.n, seqnum);
      } else {
        SlotTells(slots, s, n);
        if kind.Placed? {
          PlacedHolds(slots, s, n, frame, Queued(s, seqnum, frame));
        }
      }
      if entry.available && SeqnumCmp(entry.seqnum, seqnum) == 0 {
        return 0;
      }
      entries[seqnum % RAOP_BUFFER_LENGTH] := BufferEntry(true, seqnum, frame);
      ghost var m := if kind.Restarts? then kind.n else n;
      assert entries[..] == slots[m % LENGTH := BufferEntry(true, U16(m), frame)];
      if isEmpty {
        firstSeqnum, lastSeqnum, isEmpty := seqnum, seqnum, false;
      }
      if SeqnumCmp(seqnum, lastSeqnum) > 0 {
        lastSeqnum := seqnum;
      }
      stream, history := Queued(s, seqnum, frame), Next(h, Event.Queue(seqnum, frame));
      return 1;
    }

    method Dequeue(noResend: bool) returns (audio: Option<Audio>)
      requires Valid()
      modifies this, entries
      ensures Valid() && (stream, audio) == Dequeued(old(stream), noResend)
      ensures audio.Some? <==> var s := old(stream);
                !s.empty && s.first <= s.last && (noResend || s.first in s.packets || s.last - s.first == 511)
      ensures history == Next(old(history), Event.Dequeue(noResend))
    {
      hide U16, SeqnumCmp, Holds, SlotHolds, SlotNumber, Delivers;
      NextDelivers(history, Event.Dequeue(noResend));
      GivesExactlyWhen(stream, noResend);
      ghost var s, slots := stream, entries[..];
      WindowTests(s);
      var buflen := SeqnumCmp(lastSeqnum, firstSeqnum) + 1;
      if isEmpty || buflen <= 0 {
        return None;
      }
      HeadSlot(slots, s);
      var slot := firstSeqnum % RAOP_BUFFER_LENGTH;
      var entry := entries[slot];
      if !noResend && !entry.available && buflen < RAOP_BUFFER_LENGTH {
        return None;
      }
      firstSeqnum := U16(firstSeqnum + 1);
      stream, history := Dequeued(s, noResend).0, Next(history, Event.Dequeue(noResend));
      if !entry.available {
        return Some(Silence);
      }
      entries[slot] := entry.(available := false);
      assert entries[..] == slots[slot := entry.(available := false)];
      return Some(Played(entry.frame));
    }

    /** The loop that plays everything that can be played. */
    method Drain(noResend: bool) returns (out: seq<Audio>)
      requires Valid()
      modifies this, entries
      ensures Valid() && (stream, out) == Drained(old(stream), noResend)
      ensures history == old(history).(s := stream, played := old(history).played + out)
    {
      hide Dequeued, Drained, Delivers;
      out := [];
      ghost var s, h := stream, history;
      assert [] + Drained(s, noResend).1 == Drained(s, noResend).1;
      DrainedStep(s, noResend);
      var audio := Dequeue(noResend);
      ghost var before := s;
      while audio.Some?
        invariant Valid() && (stream, audio) == Dequeued(before, noResend)
        invariant audio.None? ==> Drained(before, noResend) == (stream, [])
        invariant audio.Some? ==> Drained(before, noResend) == (Drained(stream, noResend).0, [audio.value] + Drained(stream, noResend).1)
        invariant Drained(s, noResend) == (Drained(before, noResend).0, out + Drained(before, noResend).1)
        invariant history == h.(s := stream, played := h.played + out + if audio.Some? then [audio.value] else [])
        decreases audio.Some?, if stream.empty then 0 else stream.last - stream.first + 1
      {
        assert out + ([audio.value] + Drained(stream, noResend).1) == (out + [audio.value]) + Drained(stream, noResend).1;
        out := out + [audio.value];
        before := stream;
        DrainedStep(before, noResend);
        audio := Dequeue(noResend);
      }
      assert out + [] == out;
    }

    /** The request for packets to be sent again, if there is one: where it begins and how many.  It names
        the packets missing before the first that has arrived.  After a flush that emptied the buffer it
        repeats the window from before the flush. */
    method HandleResends() returns (request: Option<(nat, nat)>)
      requires Valid()
      ensures !stream.empty ==>
                var m := MissingUpTo(stream, stream.first);
                && request == (if m == stream.first then None else Some((firstSeqnum, m - stream.first)))
                && m - stream.first < LENGTH
                && (m > stream.first ==> m in stream.packets)
      ensures stream.empty ==>
                request == if stream.first < stream.last then Some((firstSeqnum, stream.last - stream.first)) else None
    {
      hide U16, SeqnumCmp, Holds, SlotNumber, MissingUpTo, Delivers;
      WindowTests(stream);
      RunEnds(stream);
      if SeqnumCmp(firstSeqnum, lastSeqnum) < 0 {
        var seqnum := firstSeqnum;
        ghost var n := stream.first;
        StepTests(entries[..], stream, seqnum, n);
        while SeqnumCmp(seqnum, lastSeqnum) < 0 && !entries[seqnum % RAOP_BUFFER_LENGTH].available
          invariant seqnum - firstSeqnum == n - stream.first && stream.first <= n <= stream.last
          invariant forall k :: stream.first <= k < n ==> k !in stream.packets
          invariant (SeqnumCmp(seqnum, lastSeqnum) < 0 <==> n < stream.last)
          invariant SeqnumCmp(seqnum, firstSeqnum) == n - stream.first
          invariant entries[seqnum % RAOP_BUFFER_LENGTH].available <==> n in stream.packets
          decreases stream.last - n
        {
          seqnum := seqnum + 1;
          n := n + 1;
          StepTests(entries[..], stream, seqnum, n);
        }
        MissingRun(stream, stream.first, n);
        if SeqnumCmp(seqnum, firstSeqnum) == 0 {
          return None;
        }
        return Some((firstSeqnum, SeqnumCmp(seqnum, firstSeqnum)));
      }
      return None;
    }
  }

  lemma SameNumber(n: int, seqnum: nat)
    requires seqnum == n || U16(n) == seqnum
    requires seqnum < 0x1_0000
    ensures U16(n) == seqnum == U16(seqnum) && SeqnumCmp(seqnum, seqnum) == 0 && SeqnumCmp(seqnum, U16(seqnum - 1)) == 1
  {
  }

  lemma WindowTests(s: Stream)
    requires -1 <= s.last - s.first < LENGTH
    ensures SeqnumCmp(U16(s.last), U16(s.first)) == s.last - s.first
    ensures SeqnumCmp(U16(s.first), U16(s.last)) == s.first - s.last
    ensures U16(U16(s.first) + 1) == U16(s.first + 1)
  {
    SmallU16(s.first, 0);
    SmallU16(s.last, 0);
    SeqnumCmpNear(s.last, s.first, U16(s.last), U16(s.first));
    SeqnumCmpNear(s.first, s.last, U16(s.first), U16(s.last));
    NextU16(s.first);
  }

  lemma NextU16(n: int)
    ensures U16(U16(n) + 1) == U16(n + 1)
  {
    var q := n / 0x1_0000;
    var x := (U16(n) + 1) / 0x1_0000;
    assert n + 1 == (q + x) * 0x1_0000 + (U16(n) + 1) % 0x1_0000;
    RemainderUnique(0x1_0000, q + x, (U16(n) + 1) % 0x1_0000, (n + 1) / 0x1_0000, (n + 1) % 0x1_0000);
  }

  /** The first slot, and the slots once the window has moved on. */
  lemma {:induction false} HeadSlot(slots: seq<BufferEntry>, s: Stream)
    requires Holds(slots, s) && InOrder(s) && !s.empty && s.first <= s.last
    ensures var h := U16(s.first) % RAOP_BUFFER_LENGTH;
            var t := s.(first := s.first + 1, packets := s.packets - {s.first});
            && InOrder(t)
            && (slots[h].available <==> s.first in s.packets)
            && (s.first in s.packets ==> slots[h].frame == s.packets[s.first])
            && (if slots[h].available then Holds(slots[h := slots[h].(available := false)], t) else Holds(slots, t))
  {
    hide U16, SlotNumber;
    SlotTells(slots, s, s.first);
    var h := U16(s.first) % RAOP_BUFFER_LENGTH;
    var t := s.(first := s.first + 1, packets := s.packets - {s.first});
    var after := if slots[h].available then slots[h := slots[h].(available := false)] else slots;
    forall i | 0 <= i < RAOP_BUFFER_LENGTH
      ensures SlotHolds(after[i], t, SlotNumber(t.first, i))
    {
      SlotAfter(s.first, i);
      SlotInWindow(s.first, i);
      assert SlotHolds(slots[i], s, SlotNumber(s.first, i));
    }
  }

  /** The tests of the resend loop at one number of the window. */
  lemma {:induction false} StepTests(slots: seq<BufferEntry>, s: Stream, seqnum: nat, n: int)
    requires Holds(slots, s) && -1 <= s.last - s.first < LENGTH && s.first <= n <= s.last
    requires seqnum - U16(s.first) == n - s.first
    ensures SeqnumCmp(seqnum, U16(s.last)) < 0 <==> n < s.last
    ensures SeqnumCmp(seqnum, U16(s.first)) == n - s.first
    ensures slots[seqnum % RAOP_BUFFER_LENGTH].available <==> n in s.packets
  {
    SameResidue(s.first, n, seqnum);
    SmallU16(s.first, 0);
    SmallU16(s.last, 0);
    SeqnumCmpNear(n, s.last, seqnum, U16(s.last));
    SeqnumCmpNear(n, s.first, seqnum, U16(s.first));
    SlotTells(slots, s, n);
    SlotOfSeqnum(seqnum);
    SlotOfSeqnum(n);
  }

  lemma SameResidue(first: int, n: int, seqnum: int)
    requires seqnum - U16(first) == n - first
    ensures U16(seqnum) == U16(n)
  {
    var q, q' := first / 0x1_0000, n / 0x1_0000;
    assert seqnum == (q' - q) * 0x1_0000 + U16(n);
    RemainderUnique(0x1_0000, q' - q, U16(n), seqnum / 0x1_0000, seqnum % 0x1_0000);
  }

  lemma {:induction false} RunEnds(s: Stream)
    requires InOrder(s)
    ensures !s.empty ==> var m := MissingUpTo(s, s.first); s.first <= m && m - s.first < LENGTH && (m > s.first ==> m in s.packets)
    ensures !s.empty && s.last <= s.first ==> MissingUpTo(s, s.first) == s.first
  {
    if !s.empty && s.first <= s.last {
      MissingBefore(s, s.first, s.last);
    }
  }

  lemma {:induction false} MissingBefore(s: Stream, n: int, m: int)
    requires n <= m <= s.last && m in s.packets
    ensures MissingUpTo(s, n) <= m && MissingUpTo(s, n) in s.packets
    decreases m - n
  {
    if n < m && n !in s.packets {
      MissingBefore(s, n + 1, m);
    }
  }

  lemma {:induction false} MissingRun(s: Stream, n: int, m: int)
    requires n <= m <= s.last && forall k :: n <= k < m ==> k !in s.packets
    ensures m in s.packets ==> MissingUpTo(s, n) == m
    decreases m - n
  {
    if n < m {
      MissingRun(s, n + 1, m);
    }
  }

  lemma DrainedStep(s: Stream, noResend: bool)
    ensures var (t, a) := Dequeued(s, noResend);
            && (a.None? ==> t == s && Drained(s, noResend) == (s, []))
            && (a.Some? ==> Drained(s, noResend) == (Drained(t, noResend).0, [a.value] + Drained(t, noResend).1))
            && (a.Some? ==> t.empty == s.empty && !s.empty && t.last == s.last && t.first == s.first + 1 <= s.last + 1)
  {
  }
}
