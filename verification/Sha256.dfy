/** The SHA-256 digest of a message that arrives in pieces, against section 6.2.2 of FIPS 180-4. */
module Sha256 {
  import opened Bits
  import opened BlockHash
  import opened Sha256Words
  import Sha256Constants

  function K(i: nat): bv32
    requires i < 64
  {
    Sha256Constants.TABLE[i / 4][i % 4]
  }

  function WordAt(m: Block, i: nat): bv32
    requires i + 4 <= 64
  {
    Word(m[i], m[i + 1], m[i + 2], m[i + 3])
  }

  /** Word t of the message schedule. */
  function Schedule(m: Block, t: nat): bv32 {
    if t < 16 then WordAt(m, 4 * t)
    else Plus(Plus(Plus(SmallSigma1(Schedule(m, t - 2)), Schedule(m, t - 7)), SmallSigma0(Schedule(m, t - 15))),
              Schedule(m, t - 16))
  }

  /** Eight words: the working variables, or a hash value. */
  datatype Words = Words(a: bv32, b: bv32, c: bv32, d: bv32, e: bv32, f: bv32, g: bv32, h: bv32)

  function Round(v: Words, k: bv32, w: bv32): Words {
    var t1 := Plus(Plus(Plus(Plus(v.h, BigSigma1(v.e)), Ch(v.e, v.f, v.g)), k), w);
    var t2 := Plus(BigSigma0(v.a), Maj(v.a, v.b, v.c));
    Words(Plus(t1, t2), v.a, v.b, v.c, Plus(v.d, t1), v.e, v.f, v.g)
  }

  /** The working variables after n rounds. */
  function Rounds(v: Words, m: Block, n: nat): Words
    requires n <= 64
    decreases n, v
  {
    if n == 0 then v else Round(Rounds(v, m, n - 1), K(n - 1), Schedule(m, n - 1))
  }

  function Added(h: Words, v: Words): Words {
    Words(Plus(h.a, v.a), Plus(h.b, v.b), Plus(h.c, v.c), Plus(h.d, v.d),
          Plus(h.e, v.e), Plus(h.f, v.f), Plus(h.g, v.g), Plus(h.h, v.h))
  }

  function Compress(h: Words, m: Block): Words {
    Added(h, Rounds(h, m, 64))
  }

  function Bytes(w: bv32): (b: seq<byte>)
    ensures |b| == 4
  {
    [ByteOf(w, 0), ByteOf(w, 1), ByteOf(w, 2), ByteOf(w, 3)]
  }

  function Digest(h: Words): (d: seq<byte>)
    ensures |d| == 32
  {
    Bytes(h.a) + Bytes(h.b) + Bytes(h.c) + Bytes(h.d) + Bytes(h.e) + Bytes(h.f) + Bytes(h.g) + Bytes(h.h)
  }

  function Initial(): Words {
    var h := Sha256Constants.INITIAL;
    Words(h[0], h[1], h[2], h[3], h[4], h[5], h[6], h[7])
  }

  function Sha256(m: seq<byte>): seq<byte> {
    Digest(Hash(Compress, Initial(), m))
  }

  /** Byte j of every word is in place. */
  predicate Column(bytes: seq<byte>, h: Words, j: nat)
    requires |bytes| == 32 && j < 4
  {
    && bytes[j] == ByteOf(h.a, j) && bytes[j + 4] == ByteOf(h.b, j)
    && bytes[j + 8] == ByteOf(h.c, j) && bytes[j + 12] == ByteOf(h.d, j)
    && bytes[j + 16] == ByteOf(h.e, j) && bytes[j + 20] == ByteOf(h.f, j)
    && bytes[j + 24] == ByteOf(h.g, j) && bytes[j + 28] == ByteOf(h.h, j)
  }

  lemma {:induction false} FourBytes(bytes: seq<byte>, front: seq<byte>, w: bv32)
    requires |front| + 4 <= |bytes| && front == bytes[..|front|]
    requires bytes[|front|] == ByteOf(w, 0) && bytes[|front| + 1] == ByteOf(w, 1)
    requires bytes[|front| + 2] == ByteOf(w, 2) && bytes[|front| + 3] == ByteOf(w, 3)
    ensures |front + Bytes(w)| == |front| + 4 && front + Bytes(w) == bytes[..|front| + 4]
  {
  }

  lemma ColumnsAreDigest(bytes: seq<byte>, h: Words)
    requires |bytes| == 32 && Column(bytes, h, 0) && Column(bytes, h, 1) && Column(bytes, h, 2) && Column(bytes, h, 3)
    ensures bytes == Digest(h)
  {
    var a := Bytes(h.a);
    assert a == bytes[..4];
    FourBytes(bytes, a, h.b);
    var b := a + Bytes(h.b);
    FourBytes(bytes, b, h.c);
    var c := b + Bytes(h.c);
    FourBytes(bytes, c, h.d);
    LastColumns(bytes, c + Bytes(h.d), h);
  }

  lemma LastColumns(bytes: seq<byte>, d: seq<byte>, h: Words)
    requires |bytes| == 32 && Column(bytes, h, 0) && Column(bytes, h, 1) && Column(bytes, h, 2) && Column(bytes, h, 3)
    requires d == bytes[..16]
    ensures bytes == d + Bytes(h.e) + Bytes(h.f) + Bytes(h.g) + Bytes(h.h)
  {
    FourBytes(bytes, d, h.e);
    var e := d + Bytes(h.e);
    FourBytes(bytes, e, h.f);
    var f := e + Bytes(h.f);
    FourBytes(bytes, f, h.g);
    FourBytes(bytes, f + Bytes(h.g), h.h);
    assert bytes[..32] == bytes;
  }

  lemma {:induction false} LengthBytes(d: seq<byte>, n: nat)
    requires |d| == 64 && d[56] == Shifted(n, 7) && d[57] == Shifted(n, 6) && d[58] == Shifted(n, 5)
    requires d[59] == Shifted(n, 4) && d[60] == Shifted(n, 3) && d[61] == Shifted(n, 2)
    requires d[62] == Shifted(n, 1) && d[63] == Shifted(n, 0)
    ensures d == d[..56] + BigEndian(n, 8)
  {
    forall i | 0 <= i < 8 ensures BigEndian(n, 8)[i] == d[56 + i] {
      BigEndianAt(n, 8, 7 - i);
    }
  }

  ghost predicate IsCompress(f: (Words, Block) -> Words) {
    forall h: Words, b: Block {:trigger Compress(h, b)} :: f(h, b) == Compress(h, b)
  }

  lemma SameHash(f: (Words, Block) -> Words, h: Words, m: seq<byte>)
    requires IsCompress(f)
    ensures Hash(f, h, m) == Hash(Compress, h, m)
  {
    SameBlocks(f, Compress, h, Pad(m));
  }

  class Sha256Stream {
    var bitlen: nat
    const state: array<bv32>
    var datalen: nat
    const data: array<byte>
    ghost var message: seq<byte>
    /** The block function, by a name that does not show its body. */
    ghost const f: (Words, Block) -> Words

    ghost predicate Shape() {
      state.Length == 8 && data.Length == 64 && IsCompress(f)
    }

    function State(): Words
      requires state.Length == 8
      reads state
    {
      Words(state[0], state[1], state[2], state[3], state[4], state[5], state[6], state[7])
    }

    /** The state is the fold over the whole blocks of what has arrived, and the buffer holds the rest. */
    ghost predicate Valid()
      reads this, state, data
    {
      Shape() && Folded() && Counted()
    }

    ghost predicate Folded()
      requires Shape()
      reads this`message, state
    {
      State() == HashBlocks(f, Initial(), Whole(message))
    }

    ghost predicate Counted()
      requires Shape()
      reads this`message, this`datalen, this`bitlen, data
    {
      && datalen == |message| % 64 && data[..datalen] == Rest(message)
      && bitlen == 8 * |Whole(message)| % 0x1_0000_0000_0000_0000
    }

    constructor ()
      ensures Valid() && |message| == 0 && fresh(state) && fresh(data)
    {
      state := new bv32[8];
      data := new byte[64];
      f := Compress;
      new;
      Reset();
    }

    method Reset()
      requires Shape()
      modifies this, state
      ensures Valid() && |message| == 0
    {
      ResetCounters();
      InitState();
      NoMessage(f, Initial(), message);
    }

    method ResetCounters()
      requires Shape()
      modifies this
      ensures Counted() && |message| == 0
    {
      datalen := 0;
      bitlen := 0;
      message := message[..0];
    }

    method InitState()
      requires Shape()
      modifies state
      ensures State() == Initial()
    {
      state[0], state[1], state[2], state[3] := 0x6A09E667, 0xBB67AE85, 0x3C6EF372, 0xA54FF53A;
      state[4], state[5], state[6], state[7] := 0x510E527F, 0x9B05688C, 0x1F83D9AB, 0x5BE0CD19;
    }

    method Update(bytes: seq<byte>)
      requires Valid()
      modifies this, state, data
      ensures Valid() && message == old(message) + bytes
    {
      var i := 0;
      while i < |bytes|
        invariant 0 <= i <= |bytes| && Valid() && message == old(message) + bytes[..i]
      {
        UpdateByte(bytes[i]);
        assert bytes[..i + 1] == bytes[..i] + [bytes[i]];
        i := i + 1;
      }
      assert bytes[..i] == bytes;
    }

    /** One turn of the loop of update. */
    method UpdateByte(b: byte)
      requires Valid()
      modifies this, state, data
      ensures Valid() && message == old(message) + [b]
    {
      OneMoreByte(message, b);
      StoreByte(b);
      if datalen == 64 {
        assert data[..] == data[..64];
        TransformNext(Whole(message));
        CountBlock(b);
      } else {
        message := message + [b];
      }
    }

    method StoreByte(b: byte)
      requires Shape() && Counted()
      modifies this`datalen, data
      ensures datalen == old(datalen) + 1 && data[..datalen] == Rest(message) + [b]
    {
      data[datalen] := b;
      datalen := datalen + 1;
    }

    /** The bookkeeping after a whole block. */
    method CountBlock(ghost b: byte)
      requires Shape() && datalen == 64 && |message| % 64 == 63 && data[..64] == Rest(message) + [b]
      requires bitlen == 8 * |Whole(message)| % 0x1_0000_0000_0000_0000
      modifies this`bitlen, this`datalen, this`message
      ensures Counted() && message == old(message) + [b]
    {
      OneMoreByte(message, b);
      NextBlockBits(message, b);
      bitlen := (bitlen + 512) % 0x1_0000_0000_0000_0000;
      datalen := 0;
      assert data[..datalen] == [];
      message := message + [b];
    }

    method TransformNext(ghost done: seq<byte>)
      requires Shape() && |done| % 64 == 0 && State() == HashBlocks(f, Initial(), done)
      modifies state
      ensures State() == HashBlocks(f, Initial(), done + data[..])
    {
      OneMoreBlock(f, Initial(), done, data[..]);
      Transform(data[..]);
    }

    /** The digest of all that has arrived since the last reset. */
    method Finalize() returns (hash: seq<byte>)
      requires Valid()
      modifies this, state, data
      ensures hash == Sha256(message) && message == old(message)
    {
      Close();
      SameHash(f, Initial(), message);
      hash := ReadState();
    }

    /** The padding. */
    method Close()
      requires Valid()
      modifies this`bitlen, state, data
      ensures State() == Hash(f, Initial(), message)
    {
      PadRest();
      BitLength(|Whole(message)|, datalen);
      bitlen := (bitlen + datalen * 8) % 0x1_0000_0000_0000_0000;
      CloseBlock();
    }

    /** The length goes to the end of the last block. */
    method CloseBlock()
      requires Shape()
      modifies state, data
      ensures State() == f(old(State()), old(data[..56]) + BigEndian(bitlen, 8))
    {
      StoreLength();
      Transform(data[..]);
    }

    /** After the padding of the rest, only the block that ends in the length is missing. */
    method PadRest()
      requires Valid()
      modifies state, data
      ensures f(State(), data[..56] + LengthField(|message|)) == Hash(f, Initial(), message)
    {
      ghost var rest := data[..datalen];
      if datalen < 56 {
        Mark(56);
        ShortPadding(f, Initial(), message, data[..56] + LengthField(|message|));
      } else {
        Mark(64);
        ghost var last := rest + [0x80] + Zeros(63 - datalen);
        assert data[..] == last;
        Transform(data[..]);
        Clear(0, 56);
        assert data[..56] == Zeros(56);
        LongPadding(f, Initial(), message, last, data[..56] + LengthField(|message|));
      }
    }

    /** The one bit, then zeros up to the limit. */
    method Mark(limit: nat)
      requires Shape() && datalen < limit <= 64
      modifies data
      ensures data[..limit] == old(data[..datalen]) + [0x80] + Zeros(limit - datalen - 1)
    {
      data[datalen] := 0x80;
      Clear(datalen + 1, limit);
    }

    method Clear(begin: nat, limit: nat)
      requires Shape() && begin <= limit <= 64
      modifies data
      ensures data[..limit] == old(data[..begin]) + Zeros(limit - begin)
    {
      var i := begin;
      while i < limit
        invariant begin <= i <= limit && data[..begin] == old(data[..begin])
        invariant forall j | begin <= j < i :: data[j] == 0
      {
        data[i] := 0;
        i := i + 1;
      }
    }

    method StoreLength()
      requires Shape()
      modifies data
      ensures data[..] == old(data[..56]) + BigEndian(bitlen, 8)
    {
      data[63] := Shifted(bitlen, 0);
      data[62] := Shifted(bitlen, 1);
      data[61] := Shifted(bitlen, 2);
      data[60] := Shifted(bitlen, 3);
      data[59] := Shifted(bitlen, 4);
      data[58] := Shifted(bitlen, 5);
      data[57] := Shifted(bitlen, 6);
      data[56] := Shifted(bitlen, 7);
      LengthBytes(data[..], bitlen);
      assert data[..56] == old(data[..56]);
    }

    method ReadState() returns (hash: seq<byte>)
      requires Shape()
      ensures hash == Digest(State())
    {
      var bytes := new byte[32];
      var i := 0;
      while i < 4
        invariant 0 <= i <= 4 && forall j | 0 <= j < i :: Column(bytes[..], State(), j)
      {
        ReadColumn(bytes, i);
        i := i + 1;
      }
      hash := bytes[..];
      ColumnsAreDigest(hash, State());
    }

    method ReadColumn(bytes: array<byte>, i: nat)
      requires Shape() && bytes.Length == 32 && i < 4
      modifies bytes
      ensures Column(bytes[..], State(), i)
      ensures forall j | 0 <= j < i :: old(Column(bytes[..], State(), j)) ==> Column(bytes[..], State(), j)
    {
      bytes[i] := ByteOf(state[0], i);
      bytes[i + 4] := ByteOf(state[1], i);
      bytes[i + 8] := ByteOf(state[2], i);
      bytes[i + 12] := ByteOf(state[3], i);
      bytes[i + 16] := ByteOf(state[4], i);
      bytes[i + 20] := ByteOf(state[5], i);
      bytes[i + 24] := ByteOf(state[6], i);
      bytes[i + 28] := ByteOf(state[7], i);
    }

    method Transform(block: Block)
      requires Shape()
      modifies state
      ensures State() == f(old(State()), block)
    {
      var m := Expand(block);
      var v := Run(block, m);
      assert Compress(State(), block) == Added(State(), v);
      AddToState(v);
    }

    method AddToState(v: Words)
      requires Shape()
      modifies state
      ensures State() == Added(old(State()), v)
    {
      state[0] := Plus(state[0], v.a);
      state[1] := Plus(state[1], v.b);
      state[2] := Plus(state[2], v.c);
      state[3] := Plus(state[3], v.d);
      state[4] := Plus(state[4], v.e);
      state[5] := Plus(state[5], v.f);
      state[6] := Plus(state[6], v.g);
      state[7] := Plus(state[7], v.h);
    }

    /** The message schedule. */
    static method Expand(block: Block) returns (m: array<bv32>)
      ensures fresh(m) && m.Length == 64 && forall t | 0 <= t < 64 :: m[t] == Schedule(block, t)
    {
      m := new bv32[64];
      var i, j := 0, 0;
      while i < 16
        invariant 0 <= i <= 16 && j == 4 * i && forall t | 0 <= t < i :: m[t] == Schedule(block, t)
      {
        m[i] := WordAt(block, j);
        i, j := i + 1, j + 4;
      }
      while i < 64
        invariant 16 <= i <= 64 && forall t | 0 <= t < i :: m[t] == Schedule(block, t)
      {
        ExpandNext(block, m, i);
        i := i + 1;
      }
    }

    static method ExpandNext(ghost block: Block, m: array<bv32>, i: nat)
      requires m.Length == 64 && 16 <= i < 64 && forall t | 0 <= t < i :: m[t] == Schedule(block, t)
      modifies m
      ensures forall t | 0 <= t <= i :: m[t] == Schedule(block, t)
    {
      m[i] := Plus(Plus(Plus(Sig1(m[i - 2]), m[i - 7]), Sig0(m[i - 15])), m[i - 16]);
    }

    /** The rounds. */
    method Run(ghost block: Block, m: array<bv32>) returns (v: Words)
      requires Shape() && m.Length == 64 && forall t | 0 <= t < 64 :: m[t] == Schedule(block, t)
      ensures v == Rounds(State(), block, 64)
    {
      var a, b, c, d := state[0], state[1], state[2], state[3];
      var e, f, g, h := state[4], state[5], state[6], state[7];
      ghost var start := State();
      var i := 0;
      while i < 64
        invariant 0 <= i <= 64 && Words(a, b, c, d, e, f, g, h) == Rounds(start, block, i)
      {
        var t1 := Plus(Plus(Plus(Plus(h, Ep1(e)), Ch(e, f, g)), K(i)), m[i]);
        var t2 := Plus(Ep0(a), Maj(a, b, c));
        h := g;
        g := f;
        f := e;
        e := Plus(d, t1);
        d := c;
        c := b;
        b := a;
        a := Plus(t1, t2);
        i := i + 1;
      }
      v := Words(a, b, c, d, e, f, g, h);
    }
  }
}
