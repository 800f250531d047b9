/** Bit-packed scalars: canardEncodeScalar, canardDecodeScalar and their round trip. */
module Scalar {
  import opened Convert
  import opened Arith
  import opened Bits
  import opened Transfer

  /** Bytes of the C type that holds a scalar of this many bits. */
  function StdBytes(bitLength: nat): nat {
    if bitLength <= 8 then 1 else if bitLength <= 16 then 2 else if bitLength <= 32 then 4 else 8
  }

  /** A number as k little-endian bytes, higher bits dropped, and back. */
  function LittleEndian(n: nat, k: nat): (s: seq<byte>)
    ensures |s| == k
  {
    if k == 0 then [] else [(n % 256) as bv8] + LittleEndian(n / 256, k - 1)
  }

  function Load(s: seq<byte>): nat {
    if s == [] then 0 else s[0] as nat + 256 * Load(s[1..])
  }

  /** What memory holds at the value pointer: two's complement, or 0/1 for a bool. */
  function Pattern(bitLength: nat, value: int): nat {
    if bitLength == 1 then (if value != 0 then 1 else 0) else value % Pow2(8 * StdBytes(bitLength))
  }

  function ShiftLeft(b: byte, r: nat): byte
    requires 1 <= r <= 7
  {
    b << (8 - r)
  }

  function ShiftRight(b: byte, r: nat): byte
    requires 1 <= r <= 7
  {
    b >> (8 - r)
  }

  /** The union storage holding a value, and the same with its last partial byte moved to the top of the byte:
      these are the bits the encoder copies out. */
  function Stored(bitLength: nat, value: int): (s: seq<byte>)
    requires 1 <= bitLength <= 64
    ensures |s| == 8
  {
    var std := StdBytes(bitLength);
    LittleEndian(Pattern(bitLength, value), std) + Zeros(8 - std)
  }

  function Wire(bitLength: nat, value: int): (s: seq<byte>)
    requires 1 <= bitLength <= 64
    ensures |s| == 8
  {
    var s := Stored(bitLength, value);
    if bitLength % 8 == 0 then s else s[bitLength / 8 := ShiftLeft(s[bitLength / 8], bitLength % 8)]
  }

  method PrepareStorage(bitLength: nat, value: int) returns (storage: array<byte>)
    requires 1 <= bitLength <= 64
    ensures fresh(storage) && storage.Length == 8 && storage[..] == Stored(bitLength, value)
  {
    storage := new byte[8](_ => 0);
    var image := LittleEndian(Pattern(bitLength, value), StdBytes(bitLength));
    ghost var whole := Stored(bitLength, value);
    for i := 0 to |image|
      invariant forall j | 0 <= j < 8 :: storage[j] == if j < i then image[j] else 0
    {
      storage[i] := image[i];
    }
    assert storage[..] == whole;
  }

  method EncodeScalar(destination: array<byte>, bitOffset: nat, bitLength: nat, value: int)
    requires 1 <= bitLength <= 64
    requires bitOffset + bitLength <= 8 * destination.Length
    modifies destination
    ensures Copied(Wire(bitLength, value), 0, bitLength, old(destination[..]), bitOffset, destination[..])
  {
    var storage := PrepareStorage(bitLength, value);
    if bitLength % 8 != 0 {
      storage[bitLength / 8] := ShiftLeft(storage[bitLength / 8], bitLength % 8);
    }
    assert storage[..] == Wire(bitLength, value);
    CopyBitArray(storage[..], 0, bitLength, destination, bitOffset);
  }

  /** The union storage of the decoder after the partial byte is shifted back. */
  function Shifted(bitLength: nat, storage: seq<byte>): (s: seq<byte>)
    requires 1 <= bitLength <= 64 && |storage| == 8
    ensures |s| == 8
  {
    if bitLength % 8 == 0 then storage
    else storage[bitLength / 8 := ShiftRight(storage[bitLength / 8], bitLength % 8)]
  }

  /** Setting all bits above the sign bit, when it is set: the bits are clear, so or-ing them in adds them. */
  function SignExtend(bitLength: nat, u: nat): nat
    requires 1 <= bitLength <= 64
  {
    var width := 8 * StdBytes(bitLength);
    if width != bitLength && u / Pow2(bitLength - 1) % 2 == 1 then
      Pow2Monotone(bitLength, width);
      u + (Pow2(width) - Pow2(bitLength))
    else u
  }

  /** Reading a pattern through the signed C type. */
  function AsSigned(bitLength: nat, u: nat): int {
    var width := 8 * StdBytes(bitLength);
    if u >= Pow2(width - 1) then u - Pow2(width) else u
  }

  /** The value the decoder makes of the bits it read. */
  function Unwire(bitLength: nat, signed: bool, storage: seq<byte>): int
    requires 1 <= bitLength <= 64 && |storage| == 8
  {
    var u := Load(Shifted(bitLength, storage)[..StdBytes(bitLength)]);
    if signed then AsSigned(bitLength, SignExtend(bitLength, u)) else u
  }

  const INVALID_ARGUMENT := 2

  /** canardDecodeScalar. `value` is written only when the result is positive. */
  method DecodeScalar(t: RxTransfer, bitOffset: nat, bitLength: nat, signed: bool) returns (result: int, value: int)
    requires WellFormed(t)
    ensures bitLength < 1 || bitLength > 64 || (bitLength == 1 && signed) <==> result == -2
    ensures result >= 0 ==> result == if bitOffset >= 8 * t.payloadLen then 0
                                      else Min(bitLength, 8 * t.payloadLen - bitOffset)
    ensures result < 0 ==> result == -2
    ensures result > 0 ==>
              forall bits: seq<byte> | Copied(Flat(t), bitOffset, result, Zeros(8), 0, bits) ::
                |bits| == 8 && value == Unwire(bitLength, signed, bits)
  {
    value := 0;
    if bitLength < 1 || bitLength > 64 {
      return -INVALID_ARGUMENT, value;
    }
    if bitLength == 1 && signed {
      return -INVALID_ARGUMENT, value;
    }
    var storage := new byte[8](_ => 0);
    assert storage[..] == Zeros(8);
    result := Descatter(t, bitOffset, bitLength, storage);
    if result <= 0 {
      return;
    }
    ghost var read := storage[..];
    if bitLength % 8 != 0 {
      storage[bitLength / 8] := ShiftRight(storage[bitLength / 8], bitLength % 8);
    }
    assert storage[..] == Shifted(bitLength, read);
    var u := Load(storage[..StdBytes(bitLength)]);
    if signed {
      value := AsSigned(bitLength, SignExtend(bitLength, u));
    } else {
      value := u;
    }
    assert value == Unwire(bitLength, signed, read);
    forall bits: seq<byte> | Copied(Flat(t), bitOffset, result, Zeros(8), 0, bits)
      ensures |bits| == 8 && value == Unwire(bitLength, signed, bits)
    {
      CopyUnique(Flat(t), bitOffset, result, Zeros(8), bits, read);
    }
  }

  lemma CopyUnique(src: seq<byte>, offset: nat, n: nat, before: seq<byte>, a: seq<byte>, b: seq<byte>)
    requires offset + n <= 8 * |src|
    requires Copied(src, offset, n, before, 0, a) && Copied(src, offset, n, before, 0, b)
    ensures a == b
  {
    SameBitsSameBuffer(a, b);
  }

  // ---- Round trip ----

  lemma ShiftedBackMask(b: byte, r: nat)
    requires 1 <= r <= 7
    ensures ShiftRight(ShiftLeft(b, r), r) ==
            if r == 1 then b % 2 else if r == 2 then b % 4 else if r == 3 then b % 8 else if r == 4 then b % 16
            else if r == 5 then b % 32 else if r == 6 then b % 64 else b % 128
  {
    if r == 1 { assert (b << 7) >> 7 == b % 2; }
    else if r == 2 { assert (b << 6) >> 6 == b % 4; }
    else if r == 3 { assert (b << 5) >> 5 == b % 8; }
    else if r == 4 { assert (b << 4) >> 4 == b % 16; }
    else if r == 5 { assert (b << 3) >> 3 == b % 32; }
    else if r == 6 { assert (b << 2) >> 2 == b % 64; }
    else { assert (b << 1) >> 1 == b % 128; }
  }

  lemma SmallMasks(b: byte)
    ensures (b % 2) as nat == b as nat % 2
    ensures (b % 4) as nat == b as nat % 4
  {
  }

  lemma MiddleMasks(b: byte)
    ensures (b % 8) as nat == b as nat % 8
    ensures (b % 16) as nat == b as nat % 16
  {
  }

  lemma LargeMasks(b: byte)
    ensures (b % 32) as nat == b as nat % 32
    ensures (b % 64) as nat == b as nat % 64
    ensures (b % 128) as nat == b as nat % 128
  {
  }

  /** Shifting left and back keeps the low r bits. */
  lemma {:induction false} ShiftedBack(b: byte, r: nat)
    requires 1 <= r <= 7
    ensures ShiftRight(ShiftLeft(b, r), r) as nat == b as nat % Pow2(r)
  {
    Pow2Values();
    ShiftedBackMask(b, r);
    SmallMasks(b);
    MiddleMasks(b);
    LargeMasks(b);
  }

  lemma {:induction false} ShiftedLeftLowBits(b: byte, r: nat, k: nat)
    requires 1 <= r <= 7 && r <= k < 8
    ensures !Bit(ShiftLeft(b, r), k)
  {
    var x := ShiftLeft(b, r);
    BitMasks(x);
    LowMasksClear(b, r);
    assert k == 1 || k == 2 || k == 3 || k == 4 || k == 5 || k == 6 || k == 7;
  }

  lemma LowMasksClear(b: byte, r: nat)
    requires 1 <= r <= 7
    ensures var x := ShiftLeft(b, r);
            && x & 1 == 0 && (r <= 6 ==> x & 2 == 0) && (r <= 5 ==> x & 4 == 0) && (r <= 4 ==> x & 8 == 0)
            && (r <= 3 ==> x & 0x10 == 0) && (r <= 2 ==> x & 0x20 == 0) && (r <= 1 ==> x & 0x40 == 0)
  {
    if r == 1 { assert ShiftLeft(b, r) == b << 7;
    } else if r == 2 { assert ShiftLeft(b, r) == b << 6;
    } else if r == 3 { assert ShiftLeft(b, r) == b << 5;
    } else if r == 4 { assert ShiftLeft(b, r) == b << 4;
    } else if r == 5 { assert ShiftLeft(b, r) == b << 3;
    } else if r == 6 { assert ShiftLeft(b, r) == b << 2;
    } else { assert ShiftLeft(b, r) == b << 1; }
  }

  lemma ZeroBits(k: nat)
    requires k < 8
    ensures !Bit(0, k)
  {
    BitByShift(0, k);
  }

  /** The wire bytes that carry the value, the others clear. */
  function Carried(bitLength: nat, value: int): (s: seq<byte>)
    requires 1 <= bitLength <= 64
    ensures |s| == 8
  {
    var n := (bitLength + 7) / 8;
    Wire(bitLength, value)[..n] + Zeros(8 - n)
  }

  /** Copying only the first bitLength bits of the wire image gives exactly the carried bytes. */
  lemma CarriedIsCopied(bitLength: nat, value: int)
    requires 1 <= bitLength <= 64
    ensures Copied(Wire(bitLength, value), 0, bitLength, Zeros(8), 0, Carried(bitLength, value))
  {
    var wire, carried := Wire(bitLength, value), Carried(bitLength, value);
    forall i | 0 <= i < 8 * |carried|
      ensures BitOf(carried, i) == if 0 <= i < bitLength then BitOf(wire, i) else BitOf(Zeros(8), i)
    {
      ZeroBits(i % 8);
      if i >= bitLength && i / 8 == bitLength / 8 && bitLength % 8 != 0 {
        ShiftedLeftLowBits(Stored(bitLength, value)[i / 8], bitLength % 8, i % 8);
      }
    }
  }

  lemma CopyThrough(src: seq<byte>, n: nat, before: seq<byte>, offset: nat, middle: seq<byte>,
                    zero: seq<byte>, after: seq<byte>)
    requires n <= 8 * |src| && offset + n <= 8 * |middle|
    requires Copied(src, 0, n, before, offset, middle)
    requires Copied(middle, offset, n, zero, 0, after)
    ensures Copied(src, 0, n, zero, 0, after)
  {
    forall i | 0 <= i < 8 * |after|
      ensures BitOf(after, i) == if 0 <= i < n then BitOf(src, i) else BitOf(zero, i)
    {
      if i < n {
        assert BitOf(after, i) == BitOf(middle, offset + i);
        assert BitOf(middle, offset + i) == BitOf(src, offset + i - offset);
      }
    }
  }

  /** Whole low bytes, one masked byte and zeros load as the value modulo a power of two. */
  lemma {:induction false} LoadMasked(n: nat, bitLength: nat, s: seq<byte>)
    requires bitLength <= 8 * |s|
    requires forall i | 0 <= i < bitLength / 8 :: s[i] == LittleEndian(n, |s|)[i]
    requires bitLength % 8 != 0 ==>
               s[bitLength / 8] as nat == LittleEndian(n, |s|)[bitLength / 8] as nat % Pow2(bitLength % 8)
    requires forall i | (bitLength + 7) / 8 <= i < |s| :: s[i] == 0
    ensures Load(s) == n % Pow2(bitLength)
    decreases |s|
  {
    if s != [] {
      ByteOfNat(n % 256);
      var rest := LittleEndian(n / 256, |s| - 1);
      assert forall i | 1 <= i < |s| :: LittleEndian(n, |s|)[i] == rest[i - 1];
      if bitLength >= 8 {
        LoadMasked(n / 256, bitLength - 8, s[1..]);
        Pow2Values();
        Pow2Add(8, bitLength - 8);
        SplitModulo(n, Pow2(bitLength - 8));
      } else {
        LoadMasked(n / 256, 0, s[1..]);
        if bitLength > 0 {
          LowByte(n, bitLength);
        }
      }
    }
  }

  lemma {:induction false} LowByte(n: nat, r: nat)
    requires 1 <= r <= 7
    ensures n % 256 % Pow2(r) == n % Pow2(r)
  {
    Pow2Values();
    Pow2Add(r, 8 - r);
    ModuloTower(n, Pow2(r), Pow2(8 - r));
  }

  lemma ShiftedCarriedAt(bitLength: nat, value: int, i: nat)
    requires 1 <= bitLength <= 64 && i < 8
    ensures Shifted(bitLength, Carried(bitLength, value))[i] ==
            if i < bitLength / 8 then Stored(bitLength, value)[i]
            else if i == bitLength / 8 && bitLength % 8 != 0 then
              ShiftRight(ShiftLeft(Stored(bitLength, value)[i], bitLength % 8), bitLength % 8)
            else 0
  {
    var stored, wire, carried := Stored(bitLength, value), Wire(bitLength, value), Carried(bitLength, value);
    assert carried[i] == if i < (bitLength + 7) / 8 then wire[i] else 0;
  }

  /** What the decoder loads is the encoded pattern without its unsent high bits. */
  lemma {:induction false} LoadedPattern(bitLength: nat, value: int)
    requires 1 <= bitLength <= 64
    ensures Load(Shifted(bitLength, Carried(bitLength, value))[..StdBytes(bitLength)])
         == Pattern(bitLength, value) % Pow2(bitLength)
  {
    var std, r := StdBytes(bitLength), bitLength % 8;
    var image := LittleEndian(Pattern(bitLength, value), std);
    var whole := Shifted(bitLength, Carried(bitLength, value));
    forall i | 0 <= i < std
      ensures whole[i] == if i < bitLength / 8 then image[i]
                          else if i == bitLength / 8 && r != 0 then ShiftRight(ShiftLeft(image[i], r), r) else 0
    {
      ShiftedCarriedAt(bitLength, value, i);
    }
    LoadShifted(Pattern(bitLength, value), bitLength, whole[..std]);
  }

  lemma {:induction false} LoadShifted(n: nat, bitLength: nat, s: seq<byte>)
    requires bitLength <= 8 * |s|
    requires forall i | 0 <= i < |s| :: var b := LittleEndian(n, |s|)[i];
               s[i] == if i < bitLength / 8 then b
                       else if i == bitLength / 8 && bitLength % 8 != 0 then
                         ShiftRight(ShiftLeft(b, bitLength % 8), bitLength % 8)
                       else 0
    ensures Load(s) == n % Pow2(bitLength)
  {
    if bitLength % 8 != 0 {
      ShiftedBack(LittleEndian(n, |s|)[bitLength / 8], bitLength % 8);
    }
    LoadMasked(n, bitLength, s);
  }

  /** The values a field of this length can hold. */
  ghost predicate Fits(bitLength: nat, signed: bool, value: int)
    requires bitLength >= 1
  {
    if signed then -(Pow2(bitLength - 1) as int) <= value < Pow2(bitLength - 1) else 0 <= value < Pow2(bitLength)
  }

  /** Only the low bits of a value reach the field. */
  lemma {:induction false} PatternLowBits(bitLength: nat, value: int)
    requires 2 <= bitLength <= 64
    ensures Pattern(bitLength, value) % Pow2(bitLength) == value % Pow2(bitLength)
  {
    var width := 8 * StdBytes(bitLength);
    Pow2Add(bitLength, width - bitLength);
    ModuloTower(value, Pow2(bitLength), Pow2(width - bitLength));
  }

  lemma WidthBounds(bitLength: nat)
    requires 2 <= bitLength <= 64
    ensures var width := 8 * StdBytes(bitLength);
            && Pow2(bitLength) == 2 * Pow2(bitLength - 1)
            && Pow2(width) == 2 * Pow2(width - 1)
            && bitLength <= width
            && (bitLength < width ==> Pow2(bitLength) <= Pow2(width - 1))
  {
    var width := 8 * StdBytes(bitLength);
    if bitLength < width {
      Pow2Monotone(bitLength, width - 1);
    }
  }

  lemma {:induction false} LowBits(bitLength: nat, signed: bool, value: int)
    requires bitLength >= 2 && Fits(bitLength, signed, value)
    ensures value % Pow2(bitLength) == if value >= 0 then value else value + Pow2(bitLength)
  {
    DivModUnique(value, Pow2(bitLength), if value >= 0 then 0 else -1, if value >= 0 then value else value + Pow2(bitLength));
  }

  /** The sign bit of the low bits is the sign of the value. */
  lemma SignBit(bitLength: nat, value: int)
    requires bitLength >= 2 && Fits(bitLength, true, value)
    ensures var u := if value >= 0 then value else value + Pow2(bitLength);
            u >= 0 && u / Pow2(bitLength - 1) % 2 == if value >= 0 then 0 else 1
  {
    var half := Pow2(bitLength - 1);
    DivModUnique(if value >= 0 then value else value + 2 * half, half, if value >= 0 then 0 else 1,
                 if value >= 0 then value else value + half);
  }

  /** Reading the low bits back through the signed C type gives the value that was written. */
  lemma {:induction false} SignedFromLowBits(bitLength: nat, value: int)
    requires 2 <= bitLength <= 64 && Fits(bitLength, true, value)
    ensures AsSigned(bitLength, SignExtend(bitLength, if value >= 0 then value else value + Pow2(bitLength))) == value
  {
    WidthBounds(bitLength);
    SignBit(bitLength, value);
  }

  lemma {:induction false} PatternRoundTrip(bitLength: nat, signed: bool, value: int)
    requires 1 <= bitLength <= 64 && !(bitLength == 1 && signed)
    requires Fits(bitLength, signed, value)
    ensures var u := Pattern(bitLength, value) % Pow2(bitLength);
            value == if signed then AsSigned(bitLength, SignExtend(bitLength, u)) else u
  {
    if bitLength == 1 {
      Pow2Values();
    } else {
      PatternLowBits(bitLength, value);
      LowBits(bitLength, signed, value);
      if signed {
        SignedFromLowBits(bitLength, value);
      }
    }
  }

  /** Whatever was encoded at any bit offset of a payload decodes to the same value, from any transfer,
      single-frame or scattered, that carries this payload. */
  lemma ScalarRoundTrip(before: seq<byte>, payload: seq<byte>, bitOffset: nat, bitLength: nat, signed: bool, value: int,
                        t: RxTransfer, bits: seq<byte>)
    requires 1 <= bitLength <= 64 && !(bitLength == 1 && signed)
    requires Fits(bitLength, signed, value)
    requires bitOffset + bitLength <= 8 * |payload|
    requires Copied(Wire(bitLength, value), 0, bitLength, before, bitOffset, payload)
    requires WellFormed(t) && Flat(t) == payload
    requires Copied(Flat(t), bitOffset, bitLength, Zeros(8), 0, bits)
    ensures |bits| == 8 && Unwire(bitLength, signed, bits) == value
  {
    CopyThrough(Wire(bitLength, value), bitLength, before, bitOffset, payload, Zeros(8), bits);
    CarriedIsCopied(bitLength, value);
    CopyUnique(Wire(bitLength, value), 0, bitLength, Zeros(8), bits, Carried(bitLength, value));
    LoadedPattern(bitLength, value);
    PatternRoundTrip(bitLength, signed, value);
  }
}
