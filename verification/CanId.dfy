/** CAN identifiers of the transport: their fields, transfer descriptors and arbitration order.
    Fields that do not overlap are joined by addition. */
module CanId {
  import opened Arith
  import opened Transfer

  type uint29 = x: nat | x < 0x2000_0000

  /** A frame identifier: the 29 identifier bits, and the three frame flags kept above them. */
  datatype Id = Id(clean: uint29, extended: bool, remote: bool, error: bool)

  /** x >> k. */
  function Shr(x: nat, k: nat): nat
    decreases x, k
  {
    if k == 0 then x else Shr(x / 2, k - 1)
  }

  /** The k lowest bits of x. */
  function Low(x: nat, k: nat): nat
    decreases x, k
  {
    if k == 0 then 0 else x % 2 + 2 * Low(x / 2, k - 1)
  }

  lemma {:induction false} ShrLow(x: nat, k: nat)
    ensures x == Pow2(k) * Shr(x, k) + Low(x, k) && Low(x, k) < Pow2(k)
    decreases k
  {
    if k > 0 {
      ShrLow(x / 2, k - 1);
      MulAssociate(2, Pow2(k - 1), Shr(x, k));
    }
  }

  /** A number put together from a high and a low part comes apart again. */
  lemma {:induction false} ShrLowOf(x: nat, k: nat, high: nat, low: nat)
    requires x == Pow2(k) * high + low && low < Pow2(k)
    ensures Shr(x, k) == high && Low(x, k) == low
  {
    ShrLow(x, k);
    DivModUnique(x, Pow2(k), high, low);
    DivModUnique(x, Pow2(k), Shr(x, k), Low(x, k));
  }

  function Source(id: uint29): nat { Low(id, 7) }
  function Destination(id: uint29): nat { Low(Shr(id, 8), 7) }
  function Priority(id: uint29): nat { Low(Shr(id, 24), 5) }
  function MessageType(id: uint29): nat { Low(Shr(id, 8), 16) }
  function ServiceType(id: uint29): nat { Low(Shr(id, 16), 8) }

  function ExtractTransferType(id: uint29): TransferType {
    if Low(Shr(id, 7), 1) == 0 then Broadcast else if Low(Shr(id, 15), 1) == 1 then Request else Response
  }

  function ExtractDataType(id: uint29): nat {
    if ExtractTransferType(id) == Broadcast then
      if Source(id) == 0 then Low(MessageType(id), 2) else MessageType(id)
    else
      ServiceType(id)
  }

  /** The destination the receiver assumes: broadcast transfers have none. */
  function ExtractDestination(id: uint29): nat {
    if ExtractTransferType(id) == Broadcast then 0 else Destination(id)
  }

  function TypeCode(t: TransferType): nat {
    match t case Response => 0 case Request => 1 case Broadcast => 2
  }

  function MakeDescriptor(dataType: nat, t: TransferType, source: nat, destination: nat): nat {
    dataType + 0x1_0000 * TypeCode(t) + 0x4_0000 * source + 0x200_0000 * destination
  }

  function DescriptorOf(id: uint29): nat {
    MakeDescriptor(ExtractDataType(id), ExtractTransferType(id), Source(id), ExtractDestination(id))
  }

  /** Identifier of a message from a node with an address. */
  function MessageId(priority: nat, dataType: nat, source: nat): uint29
    requires priority < 32 && dataType < 0x1_0000 && source < 0x80
  {
    0x100_0000 * priority + 0x100 * dataType + source
  }

  /** Identifier of an anonymous message; the discriminator is the payload CRC without its outer bits. */
  function AnonymousId(priority: nat, crc: nat, dataType: nat): uint29
    requires priority < 32 && crc < 0x1_0000 && dataType < 4
  {
    0x100_0000 * priority + 0x400 * (crc / 2 % 0x4000) + 0x100 * dataType
  }

  function ServiceId(priority: nat, dataType: nat, isRequest: bool, source: nat, destination: nat): uint29
    requires priority < 32 && dataType < 0x100 && source < 0x80 && destination < 0x80
  {
    0x100_0000 * priority + 0x1_0000 * dataType + (if isRequest then 0x8000 else 0) + 0x100 * destination + 0x80 + source
  }

  /** What the receiver reads back from an identifier. */
  predicate Fields(id: uint29, priority: nat, dataType: nat, t: TransferType, source: nat, destination: nat) {
    && Priority(id) == priority && ExtractDataType(id) == dataType && ExtractTransferType(id) == t
    && Source(id) == source && ExtractDestination(id) == destination
  }

  lemma PowersOfTwo()
    ensures Pow2(1) == 2 && Pow2(2) == 4 && Pow2(5) == 32 && Pow2(7) == 0x80 && Pow2(8) == 0x100
    ensures Pow2(15) == 0x8000 && Pow2(16) == 0x1_0000 && Pow2(24) == 0x100_0000
  {
    assert Pow2(10) == 1024 && Pow2(20) == 0x10_0000;
  }

  lemma {:induction false} SplitAt1(x: nat, high: nat, low: nat)
    requires x == 2 * high + low && low < 2
    ensures Shr(x, 1) == high && Low(x, 1) == low
  {
    PowersOfTwo();
    ShrLowOf(x, 1, high, low);
  }

  lemma {:induction false} SplitAt2(x: nat, high: nat, low: nat)
    requires x == 4 * high + low && low < 4
    ensures Shr(x, 2) == high && Low(x, 2) == low
  {
    PowersOfTwo();
    ShrLowOf(x, 2, high, low);
  }

  lemma {:induction false} SplitAt5(x: nat, high: nat, low: nat)
    requires x == 0x20 * high + low && low < 0x20
    ensures Shr(x, 5) == high && Low(x, 5) == low
  {
    PowersOfTwo();
    ShrLowOf(x, 5, high, low);
  }

  lemma {:induction false} SplitAt7(x: nat, high: nat, low: nat)
    requires x == 0x80 * high + low && low < 0x80
    ensures Shr(x, 7) == high && Low(x, 7) == low
  {
    PowersOfTwo();
    ShrLowOf(x, 7, high, low);
  }

  lemma {:induction false} SplitAt8(x: nat, high: nat, low: nat)
    requires x == 0x100 * high + low && low < 0x100
    ensures Shr(x, 8) == high && Low(x, 8) == low
  {
    PowersOfTwo();
    ShrLowOf(x, 8, high, low);
  }

  lemma {:induction false} SplitAt15(x: nat, high: nat, low: nat)
    requires x == 0x8000 * high + low && low < 0x8000
    ensures Shr(x, 15) == high && Low(x, 15) == low
  {
    PowersOfTwo();
    ShrLowOf(x, 15, high, low);
  }

  lemma {:induction false} SplitAt16(x: nat, high: nat, low: nat)
    requires x == 0x1_0000 * high + low && low < 0x1_0000
    ensures Shr(x, 16) == high && Low(x, 16) == low
  {
    PowersOfTwo();
    ShrLowOf(x, 16, high, low);
  }

  lemma {:induction false} SplitAt24(x: nat, high: nat, low: nat)
    requires x == 0x100_0000 * high + low && low < 0x100_0000
    ensures Shr(x, 24) == high && Low(x, 24) == low
  {
    PowersOfTwo();
    ShrLowOf(x, 24, high, low);
  }

  lemma MessageIdFields(priority: nat, dataType: nat, source: nat)
    requires priority < 32 && dataType < 0x1_0000 && 0 < source < 0x80
    ensures Fields(MessageId(priority, dataType, source), priority, dataType, Broadcast, source, 0)
  {
    var id := MessageId(priority, dataType, source);
    var message := 0x1_0000 * priority + dataType;
    SplitAt24(id, priority, 0x100 * dataType + source);
    SplitAt5(priority, 0, priority);
    SplitAt8(id, message, source);
    SplitAt16(message, priority, dataType);
    SplitAt7(id, 2 * message, source);
    SplitAt1(2 * message, message, 0);
  }

  lemma AnonymousIdFields(priority: nat, crc: nat, dataType: nat)
    requires priority < 32 && crc < 0x1_0000 && dataType < 4
    ensures Fields(AnonymousId(priority, crc, dataType), priority, dataType, Broadcast, 0, 0)
  {
    var id, d := AnonymousId(priority, crc, dataType), crc / 2 % 0x4000;
    var low := 4 * d + dataType;
    var message := 0x1_0000 * priority + low;
    SplitAt24(id, priority, 0x100 * low);
    SplitAt5(priority, 0, priority);
    SplitAt8(id, message, 0);
    SplitAt16(message, priority, low);
    SplitAt2(low, d, dataType);
    SplitAt7(id, 2 * message, 0);
    SplitAt1(2 * message, message, 0);
  }

  lemma {:induction false} SplitAt10(x: nat, high: nat, low: nat)
    requires x == 0x400 * high + low && low < 0x400
    ensures Shr(x, 10) == high && Low(x, 10) == low
  {
    assert Pow2(10) == 1024;
    ShrLowOf(x, 10, high, low);
  }

  lemma {:induction false} SplitAt14(x: nat, high: nat, low: nat)
    requires x == 0x4000 * high + low && low < 0x4000
    ensures Shr(x, 14) == high && Low(x, 14) == low
  {
    assert Pow2(4) == 16 && Pow2(10) == 1024 && Pow2(14) == 0x4000;
    ShrLowOf(x, 14, high, low);
  }

  /** The discriminator of an anonymous message: bits 1 to 14 of the checksum are bits 10 to 23 of the identifier. */
  lemma Discriminator(priority: nat, crc: nat, dataType: nat)
    requires priority < 32 && crc < 0x1_0000 && dataType < 4
    ensures Low(Shr(AnonymousId(priority, crc, dataType), 10), 14) == Low(Shr(crc, 1), 14)
  {
    var half := crc / 2;
    SplitAt1(crc, half, crc % 2);
    SplitAt14(half, half / 0x4000, half % 0x4000);
    SplitAt10(AnonymousId(priority, crc, dataType), 0x4000 * priority + half % 0x4000, 0x100 * dataType);
    SplitAt14(0x4000 * priority + half % 0x4000, priority, half % 0x4000);
  }

  /** Identifiers as they are on the bus: a node status of node 42, a node information request from node 127 to node 42, and an
      anonymous message with a checksum of ones. */
  lemma KnownIds()
    ensures MessageId(16, 341, 42) == 0x1001_552A
    ensures ServiceId(30, 1, true, 127, 42) == 0x1E01_AAFF
    ensures AnonymousId(16, 0xFFFF, 1) == 0x10FF_FD00
  {
  }

  lemma ServiceIdUpper(priority: nat, dataType: nat, r: nat, rest: nat)
    requires priority < 32 && dataType < 0x100 && r < 2 && rest < 0x8000
    ensures var id := 0x100_0000 * priority + 0x1_0000 * dataType + 0x8000 * r + rest;
            && Low(Shr(id, 24), 5) == priority && Low(Shr(id, 16), 8) == dataType && Low(Shr(id, 15), 1) == r
  {
    var id, service := 0x100_0000 * priority + 0x1_0000 * dataType + 0x8000 * r + rest, 0x100 * priority + dataType;
    SplitAt24(id, priority, 0x1_0000 * dataType + 0x8000 * r + rest);
    SplitAt5(priority, 0, priority);
    SplitAt16(id, service, 0x8000 * r + rest);
    SplitAt8(service, priority, dataType);
    SplitAt15(id, 2 * service + r, rest);
    SplitAt1(2 * service + r, service, r);
  }

  lemma ServiceIdLower(upper: nat, source: nat, destination: nat)
    requires source < 0x80 && destination < 0x80
    ensures var id := 0x8000 * upper + 0x100 * destination + 0x80 + source;
            && Low(id, 7) == source && Low(Shr(id, 7), 1) == 1 && Low(Shr(id, 8), 7) == destination
  {
    var id, rest := 0x8000 * upper + 0x100 * destination + 0x80 + source, 0x80 * upper + destination;
    SplitAt8(id, rest, 0x80 + source);
    SplitAt7(rest, upper, destination);
    SplitAt7(id, 2 * rest + 1, source);
    SplitAt1(2 * rest + 1, rest, 1);
  }

  lemma ServiceIdFields(priority: nat, dataType: nat, isRequest: bool, source: nat, destination: nat)
    requires priority < 32 && dataType < 0x100 && source < 0x80 && destination < 0x80
    ensures Fields(ServiceId(priority, dataType, isRequest, source, destination),
                   priority, dataType, if isRequest then Request else Response, source, destination)
  {
    var r := if isRequest then 1 else 0;
    ServiceIdUpper(priority, dataType, r, 0x100 * destination + 0x80 + source);
    ServiceIdLower(0x200 * priority + 2 * dataType + r, source, destination);
  }

  /** Different transfers never share a descriptor. */
  lemma DescriptorInjective(d1: nat, t1: TransferType, s1: nat, n1: nat, d2: nat, t2: TransferType, s2: nat, n2: nat)
    requires d1 < 0x1_0000 && d2 < 0x1_0000 && s1 < 0x80 && n1 < 0x80 && s2 < 0x80 && n2 < 0x80
    requires MakeDescriptor(d1, t1, s1, n1) == MakeDescriptor(d2, t2, s2, n2)
    ensures d1 == d2 && t1 == t2 && s1 == s2 && n1 == n2
  {
  }

  // ---- Arbitration ----

  /** isPriorityHigher(queued, id): true when the frame `id` must go before the queued one. */
  predicate Outranks(id: Id, queued: Id) {
    if id.extended != queued.extended then
      var arb11 := if id.extended then id.clean / 0x4_0000 else id.clean;
      var queuedArb11 := if queued.extended then queued.clean / 0x4_0000 else queued.clean;
      if arb11 != queuedArb11 then arb11 < queuedArb11 else queued.extended
    else if id.clean == queued.clean && id.remote != queued.remote then
      queued.remote
    else
      id.clean < queued.clean
  }

  /** The bits in the order the bus arbitrates them: base identifier, format, extension, remote flag. */
  function Rank(id: Id): nat {
    var remote := if id.remote then 1 else 0;
    if id.extended then 0x10_0000 * (id.clean / 0x4_0000) + 0x8_0000 + 2 * (id.clean % 0x4_0000) + remote
    else 0x10_0000 * id.clean + remote
  }

  /** The comparison is the strict weak order given by the rank, for all identifiers and flags. */
  lemma OutranksIsRankOrder(a: Id, b: Id)
    ensures Outranks(a, b) <==> Rank(a) < Rank(b)
  {
  }

  /** Among extended data frames the lower identifier goes first, and so the lower priority number. */
  lemma LowerIdFirst(a: Id, b: Id)
    requires a.extended && b.extended && !a.remote && !b.remote
    ensures Outranks(a, b) <==> a.clean < b.clean
    ensures Priority(a.clean) < Priority(b.clean) ==> Outranks(a, b)
  {
    PriorityIsTop(a.clean);
    PriorityIsTop(b.clean);
  }

  lemma PriorityIsTop(id: uint29)
    ensures 0x100_0000 * Priority(id) <= id < 0x100_0000 * (Priority(id) + 1)
  {
    PowersOfTwo();
    ShrLow(id, 24);
    SplitAt5(Shr(id, 24), 0, Shr(id, 24));
  }

  /** A base frame goes before an extended one that begins with the same bits, and a data frame before a remote one. */
  lemma SameBaseOrder(a: Id, b: Id)
    requires !a.extended && b.extended && a.clean == b.clean / 0x4_0000
    ensures Outranks(a, b) && !Outranks(b, a)
    ensures !b.remote ==> Outranks(b, b.(remote := true)) && !Outranks(b.(remote := true), b)
  {
  }

  /** Frames rank equally exactly when the bus cannot tell their arbitration fields apart. */
  lemma EqualRank(a: Id, b: Id)
    ensures Rank(a) == Rank(b) <==> a.clean == b.clean && a.extended == b.extended && a.remote == b.remote
  {
    RankDigits(a);
    RankDigits(b);
  }

  /** The remote flag, the low bits, the format and the base identifier can be read off the rank. */
  lemma RankDigits(a: Id)
    ensures var high, low := if a.extended then a.clean / 0x4_0000 else a.clean, if a.extended then a.clean % 0x4_0000 else 0;
            && Rank(a) / 0x10_0000 == high
            && Rank(a) % 0x10_0000 == (if a.extended then 0x8_0000 else 0) + 2 * low + (if a.remote then 1 else 0)
  {
    var high, low := if a.extended then a.clean / 0x4_0000 else a.clean, if a.extended then a.clean % 0x4_0000 else 0;
    DivModUnique(Rank(a), 0x10_0000, high, (if a.extended then 0x8_0000 else 0) + 2 * low + (if a.remote then 1 else 0));
  }
}
