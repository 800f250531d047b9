/** Configuration sections in flash, each guarded by a checksum over its type and its padded value. */
module ConfigStorage {
  import opened Bits
  import opened Crc32
  import Folds

  /** A section: the hash of its type, and the size of its value. */
  datatype Section = Section(typeHash: bv32, size: nat)

  /** A word in memory, low byte first. */
  function WordBytes(w: bv32): (bs: seq<byte>)
    ensures |bs| == 4
  {
    [(w & 0xFF) as bv8, ((w >> 8) & 0xFF) as bv8, ((w >> 16) & 0xFF) as bv8, ((w >> 24) & 0xFF) as bv8]
  }

  function Joined(a: byte, b: byte, c: byte, d: byte): bv32 {
    (a as bv32) | ((b as bv32) << 8) | ((c as bv32) << 16) | ((d as bv32) << 24)
  }

  function Word(bs: seq<byte>): bv32
    requires |bs| == 4
  {
    Joined(bs[0], bs[1], bs[2], bs[3])
  }

  lemma JoinedParts(w: bv32)
    ensures Joined((w & 0xFF) as bv8, ((w >> 8) & 0xFF) as bv8, ((w >> 16) & 0xFF) as bv8, ((w >> 24) & 0xFF) as bv8) == w
  {
  }

  lemma WordRoundTrip(w: bv32)
    ensures Word(WordBytes(w)) == w
  {
    JoinedParts(w);
  }

  lemma PartsJoined(a: byte, b: byte, c: byte, d: byte)
    ensures var w := Joined(a, b, c, d);
            (w & 0xFF) as bv8 == a && ((w >> 8) & 0xFF) as bv8 == b && ((w >> 16) & 0xFF) as bv8 == c && ((w >> 24) & 0xFF) as bv8 == d
  {
  }

  /** The lowest byte comes first. */
  lemma WordLayout()
    ensures WordBytes(0x0102_0304) == [4, 3, 2, 1]
  {
  }

  /** Different bytes are different words. */
  lemma WordInjective(bs: seq<byte>, cs: seq<byte>)
    requires |bs| == |cs| == 4 && Word(bs) == Word(cs)
    ensures bs == cs
  {
    PartsJoined(bs[0], bs[1], bs[2], bs[3]);
    PartsJoined(cs[0], cs[1], cs[2], cs[3]);
  }

  /** Bytes added so that the next word is aligned. */
  function Padding(size: nat): nat { if size % 4 != 0 then 4 - size % 4 else 0 }

  function Width(s: Section): nat { s.size + Padding(s.size) }

  function Padded(value: seq<byte>): seq<byte> { value + seq(Padding(|value|), _ => 0) }

  /** A section takes as many bytes as its value, rounded up to whole words; the bytes added are zero. */
  lemma Aligned(s: Section, value: seq<byte>)
    requires |value| == s.size
    ensures Width(s) % 4 == 0 && s.size <= Width(s) < s.size + 4
    ensures |Padded(value)| == Width(s) && Padded(value)[..s.size] == value
    ensures forall i | s.size <= i < Width(s) :: Padded(value)[i] == 0
  {
  }

  /** The checksum over type descriptor and data. */
  function Checksum(s: Section, image: seq<byte>): bv32 {
    Sum(Sum(0, WordBytes(s.typeHash)), image)
  }

  /** It is the CRC-32 of the two, one after the other. */
  lemma ChecksumCovers(s: Section, image: seq<byte>)
    ensures Checksum(s, image) == Sum(0, WordBytes(s.typeHash) + image)
  {
    SumConcat(0, WordBytes(s.typeHash), image);
  }

  /** The checksum as it is stored. */
  function Guard(s: Section, image: seq<byte>): (bs: seq<byte>)
    ensures |bs| == 4
  {
    WordBytes(Checksum(s, image))
  }

  /** The check made when loading: empty flash is never accepted. */
  predicate Accepts(s: Section, image: seq<byte>, word: seq<byte>) {
    |word| == 4 && Word(word) != 0xFFFF_FFFF && Checksum(s, image) == Word(word)
  }

  function Total(layout: seq<Section>): nat {
    if layout == [] then 0 else Width(layout[0]) + 4 + Total(layout[1..])
  }

  ghost predicate Fits(layout: seq<Section>, values: seq<seq<byte>>) {
    |values| == |layout| && forall i | 0 <= i < |layout| :: |values[i]| == layout[i].size
  }

  type Guarding = (Section, seq<byte>) -> seq<byte>
  type Checking = (Section, seq<byte>, seq<byte>) -> bool

  ghost predicate FourBytes(guard: Guarding) {
    forall s, image :: |guard(s, image)| == 4
  }

  /** What storing leaves in an erased flash. */
  function Image(guard: Guarding, layout: seq<Section>, values: seq<seq<byte>>): seq<byte>
    requires |values| == |layout|
  {
    if layout == [] then []
    else Padded(values[0]) + guard(layout[0], Padded(values[0])) + Image(guard, layout[1..], values[1..])
  }

  /** Loading, section by section: at the first bad checksum the rest keeps its values. */
  function Loaded(accepts: Checking, layout: seq<Section>, cells: seq<byte>, values: seq<seq<byte>>): (bool, seq<seq<byte>>)
    requires |values| == |layout| && Total(layout) <= |cells|
    decreases |layout|
  {
    if layout == [] then (true, values)
    else
      var w := Width(layout[0]);
      if accepts(layout[0], cells[..w], cells[w..w + 4]) then
        var (ok, rest) := Loaded(accepts, layout[1..], cells[w + 4..], values[1..]);
        (ok, [cells[..layout[0].size]] + rest)
      else (false, values)
  }

  lemma {:induction false} FirstLoaded(accepts: Checking, layout: seq<Section>, cells: seq<byte>, before: seq<seq<byte>>,
                                       ok: bool, rest: seq<seq<byte>>)
    requires layout != [] && |before| == |layout| && Width(layout[0]) + 4 + Total(layout[1..]) <= |cells|
    requires accepts(layout[0], cells[..Width(layout[0])], cells[Width(layout[0])..Width(layout[0]) + 4])
    requires Loaded(accepts, layout[1..], cells[Width(layout[0]) + 4..], before[1..]) == (ok, rest)
    ensures Loaded(accepts, layout, cells, before) == (ok, [cells[..layout[0].size]] + rest)
  {
  }

  lemma Suffixes<T>(s: seq<T>, k: nat)
    requires k < |s|
    ensures s[k..][1..] == s[k + 1..] && s[k..] == [s[k]] + s[k + 1..]
  {
  }

  /** Loading section k from the cells at an offset, when it is refused. */
  lemma {:induction false} LoadedRefused(accepts: Checking, layout: seq<Section>, cells: seq<byte>, before: seq<seq<byte>>,
                                         k: nat, offset: nat)
    requires k < |layout| == |before| && offset + Width(layout[k]) + 4 + Total(layout[k + 1..]) <= |cells|
    requires !accepts(layout[k], cells[offset..offset + Width(layout[k])],
                      cells[offset + Width(layout[k])..offset + Width(layout[k]) + 4])
    ensures offset + Total(layout[k..]) <= |cells|
    ensures Loaded(accepts, layout[k..], cells[offset..], before[k..]) == (false, before[k..])
  {
    Suffixes(layout, k);
    Pieces(cells, offset, Width(layout[k]));
  }

  /** Loading section k from the cells at an offset, when it is accepted. */
  lemma {:induction false} LoadedNext(accepts: Checking, layout: seq<Section>, cells: seq<byte>, before: seq<seq<byte>>,
                                      after: seq<seq<byte>>, k: nat, offset: nat, ok: bool)
    requires k < |layout| == |before| == |after| && offset + Width(layout[k]) + 4 + Total(layout[k + 1..]) <= |cells|
    requires accepts(layout[k], cells[offset..offset + Width(layout[k])],
                     cells[offset + Width(layout[k])..offset + Width(layout[k]) + 4])
    requires Loaded(accepts, layout[k + 1..], cells[offset + Width(layout[k]) + 4..], before[k + 1..]) == (ok, after[k + 1..])
    requires after[k] == cells[offset..offset + Width(layout[k])][..layout[k].size]
    ensures offset + Total(layout[k..]) <= |cells|
    ensures Loaded(accepts, layout[k..], cells[offset..], before[k..]) == (ok, after[k..])
  {
    Suffixes(layout, k);
    Suffixes(before, k);
    Suffixes(after, k);
    Pieces(cells, offset, Width(layout[k]));
    assert cells[offset..][..layout[k].size] == cells[offset..offset + Width(layout[k])][..layout[k].size];
    FirstLoaded(accepts, layout[k..], cells[offset..], before[k..], ok, after[k + 1..]);
  }

  lemma Pieces(cells: seq<byte>, offset: nat, w: nat)
    requires offset + w + 4 <= |cells|
    ensures cells[offset..][..w] == cells[offset..offset + w]
    ensures cells[offset..][w..w + 4] == cells[offset + w..offset + w + 4]
    ensures cells[offset..][w + 4..] == cells[offset + w + 4..]
  {
  }

  /** A stored value is accepted: its checksum can be told from empty flash. */
  predicate Storable(guard: Guarding, accepts: Checking, s: Section, value: seq<byte>) {
    accepts(s, Padded(value), guard(s, Padded(value)))
  }

  /** How many sections are loaded before the first one that is not accepted. */
  function FirstBad(guard: Guarding, accepts: Checking, layout: seq<Section>, values: seq<seq<byte>>): (k: nat)
    requires |values| == |layout|
    ensures k <= |layout| && (k < |layout| ==> !Storable(guard, accepts, layout[k], values[k]))
    ensures forall i | 0 <= i < k :: Storable(guard, accepts, layout[i], values[i])
  {
    if layout == [] || !Storable(guard, accepts, layout[0], values[0]) then 0
    else 1 + FirstBad(guard, accepts, layout[1..], values[1..])
  }

  lemma FitsRest(layout: seq<Section>, values: seq<seq<byte>>)
    requires layout != [] && Fits(layout, values)
    ensures Fits(layout[1..], values[1..]) && |values[0]| == layout[0].size
  {
    forall i | 0 <= i < |layout[1..]| ensures |values[1..][i]| == layout[1..][i].size {
      assert |values[i + 1]| == layout[i + 1].size;
    }
  }

  lemma {:induction false} ImageSize(guard: Guarding, layout: seq<Section>, values: seq<seq<byte>>)
    requires FourBytes(guard) && Fits(layout, values)
    ensures |Image(guard, layout, values)| == Total(layout)
    decreases |layout|
  {
    if layout != [] {
      FitsRest(layout, values);
      ImageSize(guard, layout[1..], values[1..]);
    }
  }

  lemma PaddedSize(s: Section, value: seq<byte>)
    requires |value| == s.size
    ensures |Padded(value)| == Width(s) && Padded(value)[..s.size] == value
  {
  }

  lemma Slices(p: seq<byte>, g: seq<byte>, rest: seq<byte>, size: nat)
    requires |g| == 4 && size <= |p|
    ensures var cells := p + g + rest;
            && cells[..|p|] == p && cells[|p|..|p| + 4] == g && cells[|p| + 4..] == rest && cells[..size] == p[..size]
  {
  }

  lemma {:induction false} FirstSection(guard: Guarding, layout: seq<Section>, values: seq<seq<byte>>, tail: seq<byte>)
    requires FourBytes(guard) && layout != [] && Fits(layout, values)
    ensures var w, cells := Width(layout[0]), Image(guard, layout, values) + tail;
            && w + 4 <= |cells| && cells[..w] == Padded(values[0]) && cells[w..w + 4] == guard(layout[0], Padded(values[0]))
            && cells[w + 4..] == Image(guard, layout[1..], values[1..]) + tail && cells[..layout[0].size] == values[0]
  {
    FitsRest(layout, values);
    PaddedSize(layout[0], values[0]);
    var p := Padded(values[0]);
    var g, rest := guard(layout[0], p), Image(guard, layout[1..], values[1..]);
    assert |g| == 4;
    assert p + g + rest + tail == p + g + (rest + tail);
    Slices(p, g, rest + tail, layout[0].size);
  }

  /** Loading after storing: the sections before the first one that is not accepted are restored, the others keep their
      values, and loading succeeds exactly when all are accepted. */
  lemma {:induction false} LoadAfterStore(guard: Guarding, accepts: Checking, layout: seq<Section>, values: seq<seq<byte>>,
                                          tail: seq<byte>, before: seq<seq<byte>>)
    requires FourBytes(guard) && Fits(layout, values) && Fits(layout, before)
    ensures |Image(guard, layout, values)| == Total(layout)
    ensures var k := FirstBad(guard, accepts, layout, values);
            Loaded(accepts, layout, Image(guard, layout, values) + tail, before) == (k == |layout|, values[..k] + before[k..])
    decreases |layout|
  {
    ImageSize(guard, layout, values);
    if layout != [] {
      FirstSection(guard, layout, values, tail);
      FitsRest(layout, values);
      FitsRest(layout, before);
      if Storable(guard, accepts, layout[0], values[0]) {
        LoadAfterStore(guard, accepts, layout[1..], values[1..], tail, before[1..]);
        Regrouped(values, before, FirstBad(guard, accepts, layout[1..], values[1..]) + 1);
      } else {
        assert values[..0] + before[0..] == before;
      }
    } else {
      assert values[..0] + before[0..] == before;
    }
  }

  /** Where section k begins. */
  function Offset(layout: seq<Section>, k: nat): nat
    requires k <= |layout|
  {
    if k == 0 then 0 else Width(layout[0]) + 4 + Offset(layout[1..], k - 1)
  }

  /** No single wrong byte in a value or in a checksum is accepted. */
  ghost predicate Detects(guard: Guarding, accepts: Checking) {
    && (forall s, image: seq<byte>, i: nat, b {:trigger guard(s, image), image[i := b]} ::
          i < |image| && image[i] != b ==> !accepts(s, image[i := b], guard(s, image)))
    && (forall s, image, word {:trigger accepts(s, image, word)} :: word != guard(s, image) ==> !accepts(s, image, word))
  }

  /** The first k sections are accepted and hold the values, section k is not accepted. */
  ghost predicate FailsAt(accepts: Checking, layout: seq<Section>, cells: seq<byte>, values: seq<seq<byte>>, k: nat)
    requires |values| == |layout| && Total(layout) <= |cells|
    decreases |layout|
  {
    && layout != []
    && var w := Width(layout[0]);
       if k == 0 then !accepts(layout[0], cells[..w], cells[w..w + 4])
       else
         && accepts(layout[0], cells[..w], cells[w..w + 4]) && cells[..layout[0].size] == values[0]
         && FailsAt(accepts, layout[1..], cells[w + 4..], values[1..], k - 1)
  }

  lemma {:induction false} LoadedUpTo(accepts: Checking, layout: seq<Section>, cells: seq<byte>, values: seq<seq<byte>>,
                                      before: seq<seq<byte>>, k: nat)
    requires |values| == |before| == |layout| && k <= |layout| && Total(layout) <= |cells|
    requires FailsAt(accepts, layout, cells, values, k)
    ensures Loaded(accepts, layout, cells, before) == (false, values[..k] + before[k..])
    decreases |layout|
  {
    if k == 0 {
      assert values[..0] + before[0..] == before;
    } else {
      LoadedUpTo(accepts, layout[1..], cells[Width(layout[0]) + 4..], values[1..], before[1..], k - 1);
      Regrouped(values, before, k);
    }
  }

  lemma {:induction false} ChangedFirst(guard: Guarding, accepts: Checking, layout: seq<Section>, values: seq<seq<byte>>,
                                        tail: seq<byte>,
                     at: nat, b: byte)
    requires FourBytes(guard) && Detects(guard, accepts) && layout != [] && Fits(layout, values)
    requires at < Width(layout[0]) + 4 && |Image(guard, layout, values)| == Total(layout)
    requires (Image(guard, layout, values) + tail)[at] != b
    ensures FailsAt(accepts, layout, (Image(guard, layout, values) + tail)[at := b], values, 0)
  {
    var w, cells := Width(layout[0]), Image(guard, layout, values) + tail;
    var changed, image := cells[at := b], Padded(values[0]);
    FirstSection(guard, layout, values, tail);
    if at < w {
      assert image[at] == cells[..w][at] == cells[at];
      assert changed[..w] == image[at := b] && changed[w..w + 4] == cells[w..w + 4];
    } else {
      assert changed[..w] == image;
      assert changed[w..w + 4][at - w] != cells[w..w + 4][at - w];
    }
  }

  lemma {:induction false} ChangeFails(guard: Guarding, accepts: Checking, layout: seq<Section>, values: seq<seq<byte>>,
                                       tail: seq<byte>, k: nat, at: nat, b: byte)
    requires FourBytes(guard) && Detects(guard, accepts) && Fits(layout, values)
    requires k < |layout| && k <= FirstBad(guard, accepts, layout, values)
    requires Offset(layout, k) <= at < Offset(layout, k) + Width(layout[k]) + 4
    requires |Image(guard, layout, values)| == Total(layout) && at < Total(layout)
    requires (Image(guard, layout, values) + tail)[at] != b
    ensures FailsAt(accepts, layout, (Image(guard, layout, values) + tail)[at := b], values, k)
    decreases k
  {
    if k == 0 {
      ChangedFirst(guard, accepts, layout, values, tail, at, b);
    } else {
      LaterSections(guard, accepts, layout, values, tail, k, at, b);
      FitsRest(layout, values);
      ChangeFails(guard, accepts, layout[1..], values[1..], tail, k - 1, at - (Width(layout[0]) + 4), b);
      FailsLater(accepts, layout, (Image(guard, layout, values) + tail)[at := b], values, k);
    }
  }

  lemma {:induction false} FailsLater(accepts: Checking, layout: seq<Section>, cells: seq<byte>, values: seq<seq<byte>>,
                                      k: nat)
    requires layout != [] && |values| == |layout| && Width(layout[0]) + 4 + Total(layout[1..]) <= |cells| && k > 0
    requires accepts(layout[0], cells[..Width(layout[0])], cells[Width(layout[0])..Width(layout[0]) + 4])
    requires cells[..layout[0].size] == values[0]
    requires FailsAt(accepts, layout[1..], cells[Width(layout[0]) + 4..], values[1..], k - 1)
    ensures FailsAt(accepts, layout, cells, values, k)
  {
  }

  /** A change behind the first section leaves that section accepted. */
  lemma {:induction false} LaterSections(guard: Guarding, accepts: Checking, layout: seq<Section>, values: seq<seq<byte>>,
                                         tail: seq<byte>,
                      k: nat, at: nat, b: byte)
    requires FourBytes(guard) && Fits(layout, values) && 0 < k < |layout| && k <= FirstBad(guard, accepts, layout, values)
    requires Width(layout[0]) + 4 <= at < Total(layout) == |Image(guard, layout, values)|
    ensures |Image(guard, layout[1..], values[1..])| == Total(layout[1..])
    ensures var w, cells := Width(layout[0]), Image(guard, layout, values) + tail;
            var changed := cells[at := b];
            && accepts(layout[0], changed[..w], changed[w..w + 4]) && changed[..layout[0].size] == values[0]
            && changed[w + 4..] == (Image(guard, layout[1..], values[1..]) + tail)[at - (w + 4) := b]
            && (Image(guard, layout[1..], values[1..]) + tail)[at - (w + 4)] == cells[at]
  {
    FirstSection(guard, layout, values, tail);
    FitsRest(layout, values);
    ImageSize(guard, layout[1..], values[1..]);
    LaterChange(Image(guard, layout, values) + tail, Width(layout[0]), layout[0].size, at, b);
    assert Storable(guard, accepts, layout[0], values[0]);
  }

  lemma LaterChange(cells: seq<byte>, w: nat, size: nat, at: nat, b: byte)
    requires size <= w && w + 4 <= at < |cells|
    ensures var changed := cells[at := b];
            && changed[..w] == cells[..w] && changed[w..w + 4] == cells[w..w + 4] && changed[..size] == cells[..size]
            && changed[w + 4..] == cells[w + 4..][at - (w + 4) := b] && cells[w + 4..][at - (w + 4)] == cells[at]
  {
  }

  lemma Regrouped(values: seq<seq<byte>>, before: seq<seq<byte>>, k: nat)
    requires 0 < k <= |values| == |before|
    ensures [values[0]] + (values[1..][..k - 1] + before[1..][k - 1..]) == values[..k] + before[k..]
  {
  }

  // ---- The checksum ----

  lemma GuardIsFour()
    ensures FourBytes(Guard)
  {
  }

  lemma ChangedDataRefused(s: Section, image: seq<byte>, i: nat, b: byte)
    requires i < |image| && image[i] != b
    ensures !Accepts(s, image[i := b], Guard(s, image))
  {
    OneByteIsDetected(Sum(0, WordBytes(s.typeHash)), image, i, b);
    WordRoundTrip(Checksum(s, image));
  }

  lemma ChangedGuardRefused(s: Section, image: seq<byte>, word: seq<byte>)
    requires word != Guard(s, image)
    ensures !Accepts(s, image, word)
  {
    if Accepts(s, image, word) {
      WordRoundTrip(Checksum(s, image));
      WordInjective(word, Guard(s, image));
    }
  }

  /** A step of the checksum is injective in register and byte, so no single wrong byte passes. */
  lemma ChecksumDetects()
    ensures Detects(Guard, Accepts)
  {
    forall s, image: seq<byte>, i: nat, b {:trigger Guard(s, image), image[i := b]} | i < |image| && image[i] != b
      ensures !Accepts(s, image[i := b], Guard(s, image))
    {
      ChangedDataRefused(s, image, i, b);
    }
    forall s, image, word {:trigger Accepts(s, image, word)} | word != Guard(s, image) ensures !Accepts(s, image, word) {
      ChangedGuardRefused(s, image, word);
    }
  }

  function Second(w: bv32): bv32 { Half8(w) }
  function Third(w: bv32): bv32 { Half8(Half8(w)) }
  function Fourth(w: bv32): bv32 { Half8(Half8(Half8(w))) }

  lemma PartsOfWord(w: bv32)
    ensures ((w >> 8) & 0xFF) as bv8 == LowByte(Second(w)) && ((w >> 16) & 0xFF) as bv8 == LowByte(Third(w))
    ensures ((w >> 24) & 0xFF) as bv8 == LowByte(Fourth(w))
  {
  }

  lemma FourLowFirst(w: bv32, x: bv32, y: bv32, z: bv32)
    requires x == Half8(w) && y == Half8(x) && z == Half8(y)
    ensures LowFirst(w, 4) == [LowByte(w), LowByte(x), LowByte(y), LowByte(z)]
  {
    assert LowFirst(z, 1) == [LowByte(z)];
    assert LowFirst(y, 2) == [LowByte(y), LowByte(z)];
    assert LowFirst(x, 3) == [LowByte(x), LowByte(y), LowByte(z)];
  }

  lemma {:induction false} WordIsLowFirst(w: bv32)
    ensures WordBytes(w) == LowFirst(w, 4)
  {
    PartsOfWord(w);
    FourLowFirst(w, Second(w), Third(w), Fourth(w));
  }

  /** The type is under the checksum: what was stored as a section of one type is not accepted as one of another. */
  lemma {:induction false} OtherTypeIsRefused(s: Section, t: Section, image: seq<byte>)
    requires s.typeHash != t.typeHash
    ensures !Accepts(t, image, Guard(s, image))
  {
    var start := Not(0);
    WordIsLowFirst(s.typeHash);
    WordIsLowFirst(t.typeHash);
    WordsApart(start, s.typeHash, t.typeHash);
    var a, b := Folds.Fold(AddByte, start, WordBytes(s.typeHash)), Folds.Fold(AddByte, start, WordBytes(t.typeHash));
    StepInjective();
    Folds.FoldApart(AddByte, a, b, image);
    NotTwice(a);
    NotTwice(b);
    NotInjective(Folds.Fold(AddByte, a, image), Folds.Fold(AddByte, b, image));
    WordRoundTrip(Checksum(s, image));
  }

  lemma NotTwice(c: bv32)
    ensures Not(Not(c)) == c
  {
  }

  /** A value is accepted after storing exactly when its checksum is not that of empty flash. */
  lemma StorableIs(s: Section, value: seq<byte>)
    ensures Storable(Guard, Accepts, s, value) <==> Checksum(s, Padded(value)) != 0xFFFF_FFFF
  {
    WordRoundTrip(Checksum(s, Padded(value)));
  }

  /** A store followed by a load restores every section exactly when no checksum looks like empty flash. */
  lemma {:induction false} StoreThenLoad(layout: seq<Section>, values: seq<seq<byte>>, tail: seq<byte>,
                                         before: seq<seq<byte>>)
    requires Fits(layout, values) && Fits(layout, before)
    ensures |Image(Guard, layout, values)| == Total(layout)
    ensures var (ok, after) := Loaded(Accepts, layout, Image(Guard, layout, values) + tail, before);
            && (ok <==> forall i | 0 <= i < |layout| :: Checksum(layout[i], Padded(values[i])) != 0xFFFF_FFFF)
            && (ok ==> after == values)
  {
    GuardIsFour();
    LoadAfterStore(Guard, Accepts, layout, values, tail, before);
    forall i | 0 <= i < |layout| ensures Storable(Guard, Accepts, layout[i], values[i]) <==> Checksum(layout[i], Padded(values[i])) != 0xFFFF_FFFF {
      StorableIs(layout[i], values[i]);
    }
    assert values[..|layout|] + before[|layout|..] == values;
  }

  /** After any one byte of section k has changed, loading fails: the sections before k hold the stored values, section k
      and those behind are untouched. */
  lemma {:induction false} OneByteCorruption(layout: seq<Section>, values: seq<seq<byte>>, tail: seq<byte>,
                                             before: seq<seq<byte>>,
                          k: nat, at: nat, b: byte)
    requires Fits(layout, values) && Fits(layout, before) && k < |layout|
    requires forall i | 0 <= i < k :: Checksum(layout[i], Padded(values[i])) != 0xFFFF_FFFF
    requires Offset(layout, k) <= at < Offset(layout, k) + Width(layout[k]) + 4
    requires at < |Image(Guard, layout, values)| == Total(layout) && (Image(Guard, layout, values) + tail)[at] != b
    ensures Loaded(Accepts, layout, (Image(Guard, layout, values) + tail)[at := b], before) == (false, values[..k] + before[k..])
  {
    GuardIsFour();
    ChecksumDetects();
    var bad := FirstBad(Guard, Accepts, layout, values);
    if bad < k {
      StorableIs(layout[bad], values[bad]);
    }
    ChangeFails(Guard, Accepts, layout, values, tail, k, at, b);
    LoadedUpTo(Accepts, layout, (Image(Guard, layout, values) + tail)[at := b], values, before, k);
  }

  // ---- In place ----

  lemma {:induction false} OneMore(before: seq<byte>, offset: nat, data: seq<byte>, i: nat)
    requires i < |data| && offset + |data| <= |before|
    ensures (before[..offset] + data[..i] + before[offset + i..])[offset + i := data[i]]
         == before[..offset] + data[..i + 1] + before[offset + i + 1..]
  {
  }

  /** The flash memory. Erasing and each write can fail, which leaves the cells alone. */
  class Flash {
    const cells: array<byte>
    var locked: bool
    var worn: bool
    var broken: set<nat>

    constructor (size: nat)
      ensures fresh(cells) && cells.Length == size && locked && !worn && broken == {}
    {
      cells := new byte[size];
      locked, worn, broken := true, false, {};
    }

    method Read(offset: nat, n: nat) returns (data: seq<byte>)
      requires offset + n <= cells.Length
      ensures data == cells[offset..offset + n]
    {
      data := cells[offset..offset + n];
    }

    method Write(offset: nat, data: seq<byte>) returns (ok: bool)
      requires offset + |data| <= cells.Length && !locked
      modifies cells
      ensures ok == (offset !in broken)
      ensures cells[..] == if ok then old(cells[..offset]) + data + old(cells[offset + |data|..]) else old(cells[..])
    {
      ok := offset !in broken;
      if ok {
        ghost var before := cells[..];
        var i := 0;
        while i < |data|
          invariant i <= |data| && cells[..] == before[..offset] + data[..i] + before[offset + i..]
        {
          ghost var mid := cells[..];
          cells[offset + i] := data[i];
          assert cells[..] == mid[offset + i := data[i]];
          OneMore(before, offset, data, i);
          i := i + 1;
        }
        assert data[..i] == data;
      }
    }

    method Erase() returns (ok: bool)
      requires !locked
      modifies cells
      ensures ok == !worn && (ok ==> forall i | 0 <= i < cells.Length :: cells[i] == 0xFF)
      ensures !ok ==> cells[..] == old(cells[..])
    {
      ok := !worn;
      if ok {
        forall i | 0 <= i < cells.Length {
          cells[i] := 0xFF;
        }
      }
    }
  }

  /** The storage, over a checksum given when it is made: the CRC-32. */
  class Storage {
    const flash: Flash
    const layout: seq<Section>
    const guard: Guarding
    const accepts: Checking
    var shadow: seq<seq<byte>>

    ghost predicate Valid()
      reads this, flash, flash.cells
    {
      Fits(layout, shadow) && Total(layout) <= flash.cells.Length && flash.locked && FourBytes(guard)
    }

    constructor (flash: Flash, layout: seq<Section>, shadow: seq<seq<byte>>)
      requires Fits(layout, shadow) && Total(layout) <= flash.cells.Length && flash.locked
      ensures Valid() && this.flash == flash && this.layout == layout && this.shadow == shadow
      ensures guard == Guard && accepts == Accepts
    {
      this.flash, this.layout, this.shadow := flash, layout, shadow;
      guard, accepts := Guard, Accepts;
      GuardIsFour();
    }

    lemma SectionFits(k: nat, offset: nat)
      requires k < |layout| && offset + Total(layout[k..]) <= flash.cells.Length
      ensures offset + Width(layout[k]) + 4 + Total(layout[k + 1..]) <= flash.cells.Length
    {
      assert layout[k..][1..] == layout[k + 1..];
    }

    /** What the load from section k on has left. */
    ghost predicate IsLoaded(k: nat, offset: nat, before: seq<seq<byte>>, ok: bool)
      requires k <= |layout| == |shadow| == |before| && offset + Total(layout[k..]) <= flash.cells.Length
      reads this`shadow, flash.cells
    {
      (ok, shadow[k..]) == Loaded(accepts, layout[k..], flash.cells[..][offset..], before[k..])
    }

    /** The recursive load, from section k on. */
    method LoadFrom(k: nat, offset: nat) returns (ok: bool)
      requires k <= |layout| && Fits(layout, shadow) && offset + Total(layout[k..]) <= flash.cells.Length
      modifies this
      ensures Fits(layout, shadow) && shadow[..k] == old(shadow)[..k] && IsLoaded(k, offset, old(shadow), ok)
      decreases |layout| - k, 1
    {
      if k == |layout| {
        return true;
      }
      SectionFits(k, offset);
      var w := Width(layout[k]);
      var valueBuffer := flash.Read(offset, w);
      var expected := flash.Read(offset + w, 4);
      ok := accepts(layout[k], valueBuffer, expected);
      if ok {
        ok := LoadSection(k, offset, valueBuffer);
      } else {
        LoadedRefused(accepts, layout, flash.cells[..], shadow, k, offset);
      }
    }

    /** A section that is accepted, and those behind it. */
    method LoadSection(k: nat, offset: nat, valueBuffer: seq<byte>) returns (ok: bool)
      requires k < |layout| && Fits(layout, shadow)
      requires offset + Width(layout[k]) + 4 + Total(layout[k + 1..]) <= flash.cells.Length
      requires valueBuffer == flash.cells[..][offset..offset + Width(layout[k])]
      requires accepts(layout[k], valueBuffer, flash.cells[..][offset + Width(layout[k])..offset + Width(layout[k]) + 4])
      modifies this
      ensures Fits(layout, shadow) && shadow[..k] == old(shadow)[..k] && offset + Total(layout[k..]) <= flash.cells.Length
      ensures IsLoaded(k, offset, old(shadow), ok)
      decreases |layout| - k, 0, 1
    {
      ghost var before := shadow;
      shadow := shadow[k := valueBuffer[..layout[k].size]];
      ok := LoadNext(k, offset + Width(layout[k]) + 4, before);
      LoadedNext(accepts, layout, flash.cells[..], before, shadow, k, offset, ok);
    }

    /** The sections behind section k. */
    method LoadNext(k: nat, next: nat, ghost before: seq<seq<byte>>) returns (ok: bool)
      requires k < |layout| && Fits(layout, shadow) && next + Total(layout[k + 1..]) <= flash.cells.Length
      requires |before| == |shadow| && shadow == before[k := shadow[k]]
      modifies this
      ensures Fits(layout, shadow) && shadow[..k] == before[..k] && shadow[k] == old(shadow)[k]
      ensures IsLoaded(k + 1, next, before, ok)
      decreases |layout| - k, 0, 0
    {
      assert shadow[k + 1..] == before[k + 1..];
      ok := LoadFrom(k + 1, next);
      Kept(before, old(shadow), shadow, k);
    }

    lemma Kept(before: seq<seq<byte>>, mid: seq<seq<byte>>, last: seq<seq<byte>>, k: nat)
      requires k < |before| == |mid| == |last| && mid == before[k := mid[k]] && last[..k + 1] == mid[..k + 1]
      ensures last[..k] == before[..k] && last[k] == mid[k]
    {
      assert last[..k] == last[..k + 1][..k] && last[k] == last[..k + 1][k];
    }

    /** ConfigStorage::load. */
    method Load() returns (ok: bool)
      requires Valid()
      modifies this
      ensures Valid() && (ok, shadow) == Loaded(accepts, layout, flash.cells[..], old(shadow))
    {
      assert layout[0..] == layout && shadow[0..] == shadow && flash.cells[..][0..] == flash.cells[..];
      ok := LoadFrom(0, 0);
      assert shadow[0..] == shadow;
    }

    /** No write of section k or a later one fails. */
    ghost predicate Writable(broken: set<nat>, k: nat, offset: nat)
      requires k <= |layout|
      decreases |layout| - k
    {
      k < |layout| ==>
        var w := Width(layout[k]);
        offset !in broken && offset + w !in broken && Writable(broken, k + 1, offset + w + 4)
    }

    /** The two writes of one section. */
    method StoreSection(k: nat, offset: nat) returns (ok: bool)
      requires k < |layout| && Fits(layout, shadow) && offset + Width(layout[k]) + 4 <= flash.cells.Length && !flash.locked
      requires FourBytes(guard)
      modifies flash.cells
      ensures ok == (offset !in flash.broken && offset + Width(layout[k]) !in flash.broken)
      ensures flash.cells[..offset] == old(flash.cells[..offset])
      ensures ok ==> flash.cells[..] == old(flash.cells[..offset]) + Padded(shadow[k]) + guard(layout[k], Padded(shadow[k]))
                                        + old(flash.cells[offset + Width(layout[k]) + 4..])
    {
      PaddedSize(layout[k], shadow[k]);
      var valueBuffer := Padded(shadow[k]);
      var checksum := guard(layout[k], valueBuffer);
      ok := flash.Write(offset, valueBuffer);
      if !ok {
        return;
      }
      ok := flash.Write(offset + Width(layout[k]), checksum);
    }

    /** From the offset on, the flash holds the image of the sections from k on, and behind it what it held before. */
    ghost predicate IsStored(k: nat, offset: nat, before: seq<byte>, after: seq<byte>)
      requires k <= |layout| == |shadow| && offset + Total(layout[k..]) <= |before| == |after|
      reads this`shadow
    {
      && |Image(guard, layout[k..], shadow[k..])| == Total(layout[k..])
      && after[offset..] == Image(guard, layout[k..], shadow[k..]) + before[offset + Total(layout[k..])..]
    }

    /** The recursive store, from section k on. */
    method StoreFrom(k: nat, offset: nat) returns (ok: bool)
      requires k <= |layout| && Fits(layout, shadow) && offset + Total(layout[k..]) <= flash.cells.Length
      requires !flash.locked && FourBytes(guard)
      modifies flash.cells
      ensures ok == Writable(flash.broken, k, offset)
      ensures flash.cells[..offset] == old(flash.cells[..])[..offset]
      ensures ok ==> IsStored(k, offset, old(flash.cells[..]), flash.cells[..])
      decreases |layout| - k, 1
    {
      if k == |layout| {
        return true;
      }
      SectionFits(k, offset);
      PaddedSize(layout[k], shadow[k]);
      ok := StoreSection(k, offset);
      if ok {
        ok := StoreNext(k, offset, old(flash.cells[..]));
      }
    }

    /** The sections behind section k. */
    method StoreNext(k: nat, offset: nat, ghost start: seq<byte>) returns (ok: bool)
      requires k < |layout| && Fits(layout, shadow) && !flash.locked && FourBytes(guard) && |start| == flash.cells.Length
      requires |Padded(shadow[k])| == Width(layout[k])
      requires offset + Width(layout[k]) + 4 + Total(layout[k + 1..]) <= flash.cells.Length
      requires flash.cells[..] == start[..offset] + Padded(shadow[k]) + guard(layout[k], Padded(shadow[k]))
                                    + start[offset + Width(layout[k]) + 4..]
      modifies flash.cells
      ensures ok == Writable(flash.broken, k + 1, offset + Width(layout[k]) + 4)
      ensures flash.cells[..offset] == start[..offset] && offset + Total(layout[k..]) <= flash.cells.Length
      ensures ok ==> IsStored(k, offset, start, flash.cells[..])
      decreases |layout| - k, 0
    {
      ok := StoreFrom(k + 1, offset + Width(layout[k]) + 4);
      StoredNext(start, old(flash.cells[..]), flash.cells[..], k, offset, ok);
    }

    lemma {:induction false} StoredNext(start: seq<byte>, mid: seq<byte>, last: seq<byte>, k: nat, offset: nat, ok: bool)
      requires k < |layout| && Fits(layout, shadow) && |Padded(shadow[k])| == Width(layout[k])
      requires |guard(layout[k], Padded(shadow[k]))| == 4
      requires offset + Width(layout[k]) + 4 + Total(layout[k + 1..]) <= |start|
      requires mid == start[..offset] + Padded(shadow[k]) + guard(layout[k], Padded(shadow[k])) + start[offset + Width(layout[k]) + 4..]
      requires |last| == |mid| && last[..offset + Width(layout[k]) + 4] == mid[..offset + Width(layout[k]) + 4]
      requires ok ==> IsStored(k + 1, offset + Width(layout[k]) + 4, mid, last)
      ensures last[..offset] == start[..offset] && offset + Total(layout[k..]) <= |last|
      ensures ok ==> IsStored(k, offset, start, last)
    {
      var next, section := offset + Width(layout[k]) + 4, Padded(shadow[k]) + guard(layout[k], Padded(shadow[k]));
      assert mid == start[..offset] + section + start[next..];
      JoinSections(start, mid, last, offset, next, section);
      Suffixes(layout, k);
      Suffixes(shadow, k);
      if ok {
        var image, total := Image(guard, layout[k + 1..], shadow[k + 1..]), Total(layout[k + 1..]);
        assert Image(guard, layout[k..], shadow[k..]) == section + image;
        JoinTails(start, mid, last, offset, next, total, section, image);
      }
    }

    lemma JoinTails(start: seq<byte>, mid: seq<byte>, last: seq<byte>, offset: nat, next: nat, total: nat,
                    section: seq<byte>, image: seq<byte>)
      requires offset <= next && next + total <= |mid| == |start| == |last| && mid[next..] == start[next..]
      requires last[offset..] == section + last[next..] && last[next..] == image + mid[next + total..]
      ensures last[offset..] == (section + image) + start[next + total..]
    {
      assert mid[next + total..] == mid[next..][total..] == start[next + total..];
      assert section + (image + start[next + total..]) == (section + image) + start[next + total..];
    }

    lemma JoinSections(start: seq<byte>, mid: seq<byte>, last: seq<byte>, offset: nat, next: nat, section: seq<byte>)
      requires offset + |section| == next <= |start| && mid == start[..offset] + section + start[next..]
      requires |last| == |mid| && last[..next] == mid[..next]
      ensures mid[next..] == start[next..] && last[..offset] == start[..offset] && last[offset..] == section + last[next..]
    {
      assert mid[..next] == start[..offset] + section;
      assert last[..offset] == last[..next][..offset];
      assert last[offset..next] == last[..next][offset..];
      assert (start[..offset] + section)[offset..] == section;
    }

    /** ConfigStorage::store. */
    method Store() returns (ok: bool)
      requires Valid()
      modifies flash, flash.cells
      ensures Valid() && ok == (!flash.worn && Writable(old(flash.broken), 0, 0)) && flash.worn == old(flash.worn)
      ensures flash.broken == old(flash.broken)
      ensures ok ==>
                && |Image(guard, layout, shadow)| == Total(layout)
                && flash.cells[..] == Image(guard, layout, shadow) + flash.cells[Total(layout)..]
    {
      flash.locked := false;
      ok := flash.Erase();
      if ok {
        assert layout[0..] == layout && shadow[0..] == shadow;
        ok := StoreFrom(0, 0);
        assert flash.cells[0..] == flash.cells[..];
      }
      flash.locked := true;
    }
  }
}
