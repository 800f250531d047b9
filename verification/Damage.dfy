/** Transfers of several frames that arrive with one byte changed. */
module Damage {
  import opened Wrappers
  import opened Bits
  import opened Frames
  import opened Reassembly
  import opened Runs
  import opened Traffic
  import opened EndToEnd
  import Restarts
  import Crc = TransferCrc

  /** Frames with byte p of frame k replaced. */
  function Replaced(fs: seq<Frame>, k: nat, p: nat, b: byte): seq<Frame>
    requires k < |fs| && p < |fs[k].data|
  {
    fs[k := fs[k].(data := fs[k].data[p := b])]
  }

  /** The transfer as it arrives when byte q of what it carries is another one: the checksum is in front of the payload, low
      byte first. */
  function Damaged(x: Sending, q: nat, b: byte): Sending
    requires q < |x.payload| + 2
  {
    if q < 2 then x.(carried := OtherByte(x.carried, q, b)) else x.(payload := x.payload[q - 2 := b])
  }

  /** A checksum with byte q replaced. */
  function OtherByte(c: bv16, q: nat, b: byte): bv16 {
    if q == 0 then (c & 0xFF00) | (b as bv16) else (c & 0xFF) | ((b as bv16) << 8)
  }

  lemma ChecksumByte(c: bv16, b: byte)
    ensures (OtherByte(c, 0, b) & 0xFF) as bv8 == b && (OtherByte(c, 0, b) >> 8) as bv8 == (c >> 8) as bv8
    ensures (OtherByte(c, 1, b) & 0xFF) as bv8 == (c & 0xFF) as bv8 && (OtherByte(c, 1, b) >> 8) as bv8 == b
  {
  }

  lemma {:induction false} StreamOf(c: bv16, low: byte, high: byte, payload: seq<byte>)
    requires (c & 0xFF) as bv8 == low && (c >> 8) as bv8 == high
    ensures Stream(c, payload) == [low, high] + payload
  {
  }

  lemma {:induction false} SetLow(c: bv16, d: bv16, payload: seq<byte>, b: byte)
    requires (d & 0xFF) as bv8 == b && (d >> 8) as bv8 == (c >> 8) as bv8
    ensures Stream(d, payload) == Stream(c, payload)[0 := b]
  {
    StreamOf(c, (c & 0xFF) as bv8, (c >> 8) as bv8, payload);
    StreamOf(d, b, (c >> 8) as bv8, payload);
  }

  lemma {:induction false} SetHigh(c: bv16, d: bv16, payload: seq<byte>, b: byte)
    requires (d & 0xFF) as bv8 == (c & 0xFF) as bv8 && (d >> 8) as bv8 == b
    ensures Stream(d, payload) == Stream(c, payload)[1 := b]
  {
    StreamOf(c, (c & 0xFF) as bv8, (c >> 8) as bv8, payload);
    StreamOf(d, (c & 0xFF) as bv8, b, payload);
  }

  lemma {:induction false} OtherStream(c: bv16, payload: seq<byte>, q: nat, b: byte)
    requires q < 2
    ensures Stream(OtherByte(c, q, b), payload) == Stream(c, payload)[q := b]
  {
    ChecksumByte(c, b);
    if q == 0 {
      SetLow(c, OtherByte(c, 0, b), payload, b);
    } else {
      SetHigh(c, OtherByte(c, 1, b), payload, b);
    }
  }

  lemma DamagedStream(x: Sending, q: nat, b: byte)
    requires q < |x.payload| + 2
    ensures var y := Damaged(x, q, b);
            |y.payload| == |x.payload| && Stream(y.carried, y.payload) == Stream(x.carried, x.payload)[q := b]
  {
    if q < 2 {
      OtherStream(x.carried, x.payload, q, b);
    } else {
      OtherPayload(x.carried, x.payload, q, b);
    }
  }

  lemma {:induction false} OtherPayload(c: bv16, payload: seq<byte>, q: nat, b: byte)
    requires 2 <= q < |payload| + 2
    ensures Stream(c, payload[q - 2 := b]) == Stream(c, payload)[q := b]
  {
  }

  lemma {:induction false} DamagedSlice(s: seq<byte>, from: nat, to: nat, q: nat, b: byte)
    requires from <= to <= |s| && q < |s|
    ensures s[q := b][from..to] == if from <= q < to then s[from..to][q - from := b] else s[from..to]
  {
  }

  lemma FrameData(x: Sending, j: nat)
    requires x.Count() > 1 && j < x.Count()
    ensures var s := Stream(x.carried, x.payload);
            x.Frames()[j] == Frame(x.id, s[7 * j..Min(7 * j + 7, |s|)]
                                         + [TailByte(j == 0, j == x.Count() - 1, j % 2 == 1, x.transferId)])
  {
  }

  lemma {:induction false} DamagedData(body: seq<byte>, tail: byte, p: nat, b: byte)
    requires p < |body|
    ensures (body + [tail])[p := b] == body[p := b] + [tail]
  {
  }

  lemma {:induction false} DamagedFrame(f: Frame, g: Frame, s: seq<byte>, j: nat, k: nat, p: nat, b: byte, tail: byte)
    requires 7 * j <= |s| && 7 * k + p < |s| && (j == k ==> p < 7)
    requires f.data == s[7 * j..Min(7 * j + 7, |s|)] + [tail]
    requires g.data == s[7 * k + p := b][7 * j..Min(7 * j + 7, |s|)] + [tail] && g.id == f.id && p < 7
    ensures g == if j == k then f.(data := f.data[p := b]) else f
  {
    DamagedSlice(s, 7 * j, Min(7 * j + 7, |s|), 7 * k + p, b);
    if j == k {
      DamagedData(s[7 * j..Min(7 * j + 7, |s|)], tail, p, b);
    }
  }

  lemma FrameByte(x: Sending, k: nat, p: nat)
    requires x.Count() > 1 && k < x.Count() && p < |x.Frames()[k].data| - 1
    ensures p < 7 && 7 * k + p < |x.payload| + 2 && x.Frames()[k].data[p] == Stream(x.carried, x.payload)[7 * k + p]
  {
  }

  /** It arrives in the same frames but for that byte. */
  lemma {:induction false} DamagedFrames(x: Sending, k: nat, p: nat, b: byte)
    requires x.Count() > 1 && k < x.Count() && p < |x.Frames()[k].data| - 1
    ensures 7 * k + p < |x.payload| + 2 && Damaged(x, 7 * k + p, b).Frames() == Replaced(x.Frames(), k, p, b)
  {
    FrameByte(x, k, p);
    var y := Damaged(x, 7 * k + p, b);
    DamagedStream(x, 7 * k + p, b);
    forall j | 0 <= j < x.Count() ensures y.Frames()[j] == Replaced(x.Frames(), k, p, b)[j] {
      FrameData(x, j);
      FrameData(y, j);
      DamagedFrame(x.Frames()[j], y.Frames()[j], Stream(x.carried, x.payload), j, k, p, b,
        TailByte(j == 0, j == x.Count() - 1, j % 2 == 1, x.transferId));
    }
  }

  lemma OtherChecksum(c: bv16, b: byte)
    ensures b != (c & 0xFF) as bv8 ==> OtherByte(c, 0, b) != c
    ensures b != (c >> 8) as bv8 ==> OtherByte(c, 1, b) != c
  {
  }

  lemma {:induction false} OtherFirst(c: bv16, payload: seq<byte>, q: nat, b: byte)
    requires q < 2 && b != Stream(c, payload)[q]
    ensures OtherByte(c, q, b) != c
  {
    OtherChecksum(c, b);
  }

  /** Its checksum and payload do not belong together any more. */
  lemma DamagedIsNotIntact(x: Sending, q: nat, b: byte)
    requires x.Count() > 1 && x.Intact() && q < |x.payload| + 2 && b != Stream(x.carried, x.payload)[q]
    ensures !Damaged(x, q, b).Intact()
  {
    if q < 2 {
      OtherFirst(x.carried, x.payload, q, b);
    } else {
      Crc.OneByteIsDetected(x.Seed(), x.payload, q - 2, b);
    }
  }

  /** What arrives instead of x when byte p of frame k is changed. */
  lemma {:induction false} DamagedOnBus(x: Sending, k: nat, p: nat, b: byte) returns (y: Sending)
    requires x.Valid() && x.Intact() && x.Count() > 1
    requires k < x.Count() && p < |x.Frames()[k].data| - 1 && b != x.Frames()[k].data[p]
    ensures 7 * k + p < |x.payload| + 2 && y == Damaged(x, 7 * k + p, b)
    ensures y.Frames() == Replaced(x.Frames(), k, p, b) && !y.Intact() && y.Valid()
    ensures |y.payload| == |x.payload| && y.id == x.id && y.transferId == x.transferId && y.signature == x.signature
    ensures y.Seed() == x.Seed() && y.Count() == x.Count() && Tail(y.Frames()[0]) == Tail(x.Frames()[0])
  {
    FrameByte(x, k, p);
    y := Damaged(x, 7 * k + p, b);
    DamagedFrames(x, k, p, b);
    DamagedIsNotIntact(x, 7 * k + p, b);
    DamagedStream(x, 7 * k + p, b);
    SameTail(x, y);
  }

  lemma SameTail(x: Sending, y: Sending)
    requires x.Count() > 1 && |y.payload| == |x.payload| && y.transferId == x.transferId
    ensures Tail(y.Frames()[0]) == Tail(x.Frames()[0])
  {
  }

  /** The last of n readings of the statistics counts one error, and the others nothing. */
  predicate OneError(rs: seq<(Stats, Stats)>, n: nat) {
    && |rs| == n > 0 && (forall i | 0 <= i < n - 1 :: rs[i].1 == rs[i].0)
    && rs[n - 1].1 == Restarts.WithError(rs[n - 1].0)
  }

  lemma ChangeIsError(y: Sending, rs: seq<(Stats, Stats)>, n: nat)
    requires !y.Intact() && OneChange(rs, n, CountsOf(y))
    ensures OneError(rs, n + 1)
  {
  }

  /** A transfer whose checksum does not belong to its payload, mixed with anything: nothing of its sender, type, kind and
      destination is delivered, and its frames leave the statistics alone until the last one counts one error. */
  lemma {:induction false} SpoiledIsRefused(n: Station, accept: Acceptor, events: seq<Event>, y: Sending, t0: nat, chained: bool)
    requires y.Valid() && !y.Intact() && |y.payload| < 1024 && Accepts(accept, y)
    requires AtStage(y, t0, chained)(n, 0) && Permitted(Stepping(accept), n, events, IsOwn(y), Allows(y, t0), 0)
    requires Carries(events, IsOwn(y), IsNext(y, t0), 0, y.Count())
    ensures Marked(Deliveries(n, accept, events), IsFrom(y)) == []
    ensures OneError(Readings(Stepping(accept), n, events, IsOwn(y), StatsOf()), y.Count())
  {
    DeliveredOnce(n, accept, events, y, t0, chained);
    CountedOnce(n, accept, events, y, t0, chained);
    ChangeIsError(y, Readings(Stepping(accept), n, events, IsOwn(y), StatsOf()), y.Count() - 1);
  }

  /** So for any one byte of the checksum or the payload changed on the bus. */
  lemma {:induction false} DamageIsRefused(n: Station, accept: Acceptor, events: seq<Event>, x: Sending, t0: nat, chained: bool,
                                           k: nat, p: nat, b: byte, y: Sending)
    requires x.Valid() && x.Intact() && x.Count() > 1 && |x.payload| < 1024 && Accepts(accept, x)
    requires k < x.Count() && p < |x.Frames()[k].data| - 1 && b != x.Frames()[k].data[p]
    requires 7 * k + p < |x.payload| + 2 && y == Damaged(x, 7 * k + p, b)
    requires AtStage(y, t0, chained)(n, 0) && Permitted(Stepping(accept), n, events, IsOwn(y), Allows(y, t0), 0)
    requires Carries(events, IsOwn(y), IsNext(y, t0), 0, y.Count())
    ensures y.Frames() == Replaced(x.Frames(), k, p, b)
    ensures Marked(Deliveries(n, accept, events), IsFrom(x)) == []
    ensures OneError(Readings(Stepping(accept), n, events, IsOwn(y), StatsOf()), x.Count())
  {
    var z := DamagedOnBus(x, k, p, b);
    SpoiledIsRefused(n, accept, events, y, t0, chained);
    SameMark(Deliveries(n, accept, events), y, x);
  }

  predicate Silent(ds: seq<Option<Delivery>>) { forall i | 0 <= i < |ds| :: ds[i] == None }

  lemma {:induction false} SilentBus(n: Station, accept: Acceptor, y: Sending, times: seq<nat>)
    requires y.Valid() && !y.Intact() && |y.payload| < 1024 && Accepts(accept, y) && DistinctDescriptors(n.receiver.states)
    requires y.Count() == |times| > 0 && forall i | 0 <= i < |times| :: InTime(times[0], times[i])
    requires var s := Project(n.receiver, y.Descriptor()); s.Some? ==> Ready(s.value, y, times[0])
    requires Needed(y) <= Available(n.receiver, y)
    ensures Silent(Deliveries(n, accept, Stamped(y.Frames(), times)))
  {
    QuietBusDeliveries(n, accept, y, times);
  }

  /** The same on a quiet bus, with explicit conditions and the whole of what it leaves in the statistics. */
  lemma {:induction false} SpoiledOnQuietBus(n: Station, accept: Acceptor, y: Sending, times: seq<nat>)
    requires y.Valid() && !y.Intact() && |y.payload| < 1024 && Accepts(accept, y) && DistinctDescriptors(n.receiver.states)
    requires y.Count() == |times| > 0 && forall i | 0 <= i < |times| :: InTime(times[0], times[i])
    requires var s := Project(n.receiver, y.Descriptor()); s.Some? ==> Ready(s.value, y, times[0])
    requires Needed(y) <= Available(n.receiver, y)
    ensures Silent(Deliveries(n, accept, Stamped(y.Frames(), times)))
    ensures Run(n, accept, Stamped(y.Frames(), times)).receiver.stats == Restarts.WithError(n.receiver.stats)
  {
    SilentBus(n, accept, y, times);
    QuietBusCounts(n, accept, y, times);
  }

  lemma {:induction false} QuietBusDamage(n: Station, accept: Acceptor, x: Sending, times: seq<nat>, k: nat, p: nat, b: byte)
    requires x.Valid() && x.Intact() && x.Count() > 1 && |x.payload| < 1024 && Accepts(accept, x)
    requires DistinctDescriptors(n.receiver.states)
    requires x.Count() == |times| && forall i | 0 <= i < |times| :: InTime(times[0], times[i])
    requires var s := Project(n.receiver, x.Descriptor()); s.Some? ==> Ready(s.value, x, times[0])
    requires Needed(x) <= Available(n.receiver, x)
    requires k < x.Count() && p < |x.Frames()[k].data| - 1 && b != x.Frames()[k].data[p]
    ensures Silent(Deliveries(n, accept, Stamped(Replaced(x.Frames(), k, p, b), times)))
    ensures Run(n, accept, Stamped(Replaced(x.Frames(), k, p, b), times)).receiver.stats == Restarts.WithError(n.receiver.stats)
  {
    var y := DamagedOnBus(x, k, p, b);
    SpoiledOnQuietBus(n, accept, y, times);
  }
}
