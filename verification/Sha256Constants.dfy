/** The constants of SHA-256 (FIPS 180-4) and where they come from. */
module Sha256Constants {

  /** Section 4.2.2: the round constants. */
  const ROW0: seq<bv32> := [0x428A2F98, 0x71374491, 0xB5C0FBCF, 0xE9B5DBA5]
  const ROW1: seq<bv32> := [0x3956C25B, 0x59F111F1, 0x923F82A4, 0xAB1C5ED5]
  const ROW2: seq<bv32> := [0xD807AA98, 0x12835B01, 0x243185BE, 0x550C7DC3]
  const ROW3: seq<bv32> := [0x72BE5D74, 0x80DEB1FE, 0x9BDC06A7, 0xC19BF174]
  const ROW4: seq<bv32> := [0xE49B69C1, 0xEFBE4786, 0x0FC19DC6, 0x240CA1CC]
  const ROW5: seq<bv32> := [0x2DE92C6F, 0x4A7484AA, 0x5CB0A9DC, 0x76F988DA]
  const ROW6: seq<bv32> := [0x983E5152, 0xA831C66D, 0xB00327C8, 0xBF597FC7]
  const ROW7: seq<bv32> := [0xC6E00BF3, 0xD5A79147, 0x06CA6351, 0x14292967]
  const ROW8: seq<bv32> := [0x27B70A85, 0x2E1B2138, 0x4D2C6DFC, 0x53380D13]
  const ROW9: seq<bv32> := [0x650A7354, 0x766A0ABB, 0x81C2C92E, 0x92722C85]
  const ROW10: seq<bv32> := [0xA2BFE8A1, 0xA81A664B, 0xC24B8B70, 0xC76C51A3]
  const ROW11: seq<bv32> := [0xD192E819, 0xD6990624, 0xF40E3585, 0x106AA070]
  const ROW12: seq<bv32> := [0x19A4C116, 0x1E376C08, 0x2748774C, 0x34B0BCB5]
  const ROW13: seq<bv32> := [0x391C0CB3, 0x4ED8AA4A, 0x5B9CCA4F, 0x682E6FF3]
  const ROW14: seq<bv32> := [0x748F82EE, 0x78A5636F, 0x84C87814, 0x8CC70208]
  const ROW15: seq<bv32> := [0x90BEFFFA, 0xA4506CEB, 0xBEF9A3F7, 0xC67178F2]

  const TABLE: seq<seq<bv32>> := [
    ROW0, ROW1, ROW2, ROW3, ROW4, ROW5, ROW6, ROW7, ROW8, ROW9, ROW10, ROW11, ROW12, ROW13, ROW14, ROW15]

  /** Section 5.3.3: the initial value. */
  const INITIAL: seq<bv32> := [
    0x6A09E667, 0xBB67AE85, 0x3C6EF372, 0xA54FF53A, 0x510E527F, 0x9B05688C, 0x1F83D9AB, 0x5BE0CD19]

  /** The first 64 primes. */
  const PRIMES: seq<seq<nat>> := [
    [2, 3, 5, 7], [11, 13, 17, 19], [23, 29, 31, 37], [41, 43, 47, 53],
    [59, 61, 67, 71], [73, 79, 83, 89], [97, 101, 103, 107], [109, 113, 127, 131],
    [137, 139, 149, 151], [157, 163, 167, 173], [179, 181, 191, 193], [197, 199, 211, 223],
    [227, 229, 233, 239], [241, 251, 257, 263], [269, 271, 277, 281], [283, 293, 307, 311]]

  /** The word holds the first 32 bits of the fractional part of the cube root of n. */
  ghost predicate FromCubeRoot(word: nat, n: nat) {
    exists whole: nat :: IsCubeRoot(whole, word, n)
  }

  predicate IsCubeRoot(whole: nat, fraction: nat, n: nat) {
    var r := whole * 0x1_0000_0000 + fraction;
    r * r * r <= n * 0x1_0000_0000_0000_0000_0000_0000 < (r + 1) * (r + 1) * (r + 1)
  }

  ghost predicate FromSquareRoot(word: nat, n: nat) {
    exists whole: nat :: IsSquareRoot(whole, word, n)
  }

  predicate IsSquareRoot(whole: nat, fraction: nat, n: nat) {
    var r := whole * 0x1_0000_0000 + fraction;
    r * r <= n * 0x1_0000_0000_0000_0000 < (r + 1) * (r + 1)
  }

  /** Section 5.3.3: the initial value comes from the square roots of the first eight primes. */
  lemma InitialIsSquareRoots(i: nat)
    requires i < 8
    ensures FromSquareRoot(INITIAL[i] as nat, PRIMES[i / 4][i % 4])
  {
    assert IsSquareRoot([1, 1, 2, 2, 3, 3, 4, 4][i], INITIAL[i] as nat, [2, 3, 5, 7, 11, 13, 17, 19][i]);
  }

  /** The whole part of the cube root of a number below 343. */
  function WholeCubeRoot(n: nat): nat {
    if n < 8 then 1 else if n < 27 then 2 else if n < 64 then 3 else if n < 125 then 4 else if n < 216 then 5 else 6
  }

  lemma CubeRoot(word: nat, n: nat)
    requires IsCubeRoot(WholeCubeRoot(n), word, n)
    ensures FromCubeRoot(word, n)
  {
  }

  ghost predicate CubeRoots(words: seq<bv32>, primes: seq<nat>)
    requires |words| == 4 && |primes| == 4
  {
    && FromCubeRoot(words[0] as nat, primes[0]) && FromCubeRoot(words[1] as nat, primes[1])
    && FromCubeRoot(words[2] as nat, primes[2]) && FromCubeRoot(words[3] as nat, primes[3])
  }

  // Section 4.2.2: each row of the table comes from the cube roots of the next four primes.

  lemma Row0IsCubeRoots()
    ensures CubeRoots(ROW0, [2, 3, 5, 7])
  {
    CubeRoot(0x428A2F98, 2); CubeRoot(0x71374491, 3); CubeRoot(0xB5C0FBCF, 5); CubeRoot(0xE9B5DBA5, 7);
  }

  lemma Row1IsCubeRoots()
    ensures CubeRoots(ROW1, [11, 13, 17, 19])
  {
    CubeRoot(0x3956C25B, 11); CubeRoot(0x59F111F1, 13); CubeRoot(0x923F82A4, 17); CubeRoot(0xAB1C5ED5, 19);
  }

  lemma Row2IsCubeRoots()
    ensures CubeRoots(ROW2, [23, 29, 31, 37])
  {
    CubeRoot(0xD807AA98, 23); CubeRoot(0x12835B01, 29); CubeRoot(0x243185BE, 31); CubeRoot(0x550C7DC3, 37);
  }

  lemma Row3IsCubeRoots()
    ensures CubeRoots(ROW3, [41, 43, 47, 53])
  {
    CubeRoot(0x72BE5D74, 41); CubeRoot(0x80DEB1FE, 43); CubeRoot(0x9BDC06A7, 47); CubeRoot(0xC19BF174, 53);
  }

  lemma Row4IsCubeRoots()
    ensures CubeRoots(ROW4, [59, 61, 67, 71])
  {
    CubeRoot(0xE49B69C1, 59); CubeRoot(0xEFBE4786, 61); CubeRoot(0x0FC19DC6, 67); CubeRoot(0x240CA1CC, 71);
  }

  lemma Row5IsCubeRoots()
    ensures CubeRoots(ROW5, [73, 79, 83, 89])
  {
    CubeRoot(0x2DE92C6F, 73); CubeRoot(0x4A7484AA, 79); CubeRoot(0x5CB0A9DC, 83); CubeRoot(0x76F988DA, 89);
  }

  lemma Row6IsCubeRoots()
    ensures CubeRoots(ROW6, [97, 101, 103, 107])
  {
    CubeRoot(0x983E5152, 97); CubeRoot(0xA831C66D, 101); CubeRoot(0xB00327C8, 103); CubeRoot(0xBF597FC7, 107);
  }

  lemma Row7IsCubeRoots()
    ensures CubeRoots(ROW7, [109, 113, 127, 131])
  {
    CubeRoot(0xC6E00BF3, 109); CubeRoot(0xD5A79147, 113); CubeRoot(0x06CA6351, 127); CubeRoot(0x14292967, 131);
  }

  lemma Row8IsCubeRoots()
    ensures CubeRoots(ROW8, [137, 139, 149, 151])
  {
    CubeRoot(0x27B70A85, 137); CubeRoot(0x2E1B2138, 139); CubeRoot(0x4D2C6DFC, 149); CubeRoot(0x53380D13, 151);
  }

  lemma Row9IsCubeRoots()
    ensures CubeRoots(ROW9, [157, 163, 167, 173])
  {
    CubeRoot(0x650A7354, 157); CubeRoot(0x766A0ABB, 163); CubeRoot(0x81C2C92E, 167); CubeRoot(0x92722C85, 173);
  }

  lemma Row10IsCubeRoots()
    ensures CubeRoots(ROW10, [179, 181, 191, 193])
  {
    CubeRoot(0xA2BFE8A1, 179); CubeRoot(0xA81A664B, 181); CubeRoot(0xC24B8B70, 191); CubeRoot(0xC76C51A3, 193);
  }

  lemma Row11IsCubeRoots()
    ensures CubeRoots(ROW11, [197, 199, 211, 223])
  {
    CubeRoot(0xD192E819, 197); CubeRoot(0xD6990624, 199); CubeRoot(0xF40E3585, 211); CubeRoot(0x106AA070, 223);
  }

  lemma Row12IsCubeRoots()
    ensures CubeRoots(ROW12, [227, 229, 233, 239])
  {
    CubeRoot(0x19A4C116, 227); CubeRoot(0x1E376C08, 229); CubeRoot(0x2748774C, 233); CubeRoot(0x34B0BCB5, 239);
  }

  lemma Row13IsCubeRoots()
    ensures CubeRoots(ROW13, [241, 251, 257, 263])
  {
    CubeRoot(0x391C0CB3, 241); CubeRoot(0x4ED8AA4A, 251); CubeRoot(0x5B9CCA4F, 257); CubeRoot(0x682E6FF3, 263);
  }

  lemma Row14IsCubeRoots()
    ensures CubeRoots(ROW14, [269, 271, 277, 281])
  {
    CubeRoot(0x748F82EE, 269); CubeRoot(0x78A5636F, 271); CubeRoot(0x84C87814, 277); CubeRoot(0x8CC70208, 281);
  }

  lemma Row15IsCubeRoots()
    ensures CubeRoots(ROW15, [283, 293, 307, 311])
  {
    CubeRoot(0x90BEFFFA, 283); CubeRoot(0xA4506CEB, 293); CubeRoot(0xBEF9A3F7, 307); CubeRoot(0xC67178F2, 311);
  }

  /** Every row of the table holds the fractions of the cube roots of its primes. */
  lemma TableIsCubeRoots(r: nat)
    requires r < 16
    ensures CubeRoots(TABLE[r], PRIMES[r])
  {
    Row0IsCubeRoots(); Row1IsCubeRoots(); Row2IsCubeRoots(); Row3IsCubeRoots();
    Row4IsCubeRoots(); Row5IsCubeRoots(); Row6IsCubeRoots(); Row7IsCubeRoots();
    Row8IsCubeRoots(); Row9IsCubeRoots(); Row10IsCubeRoots(); Row11IsCubeRoots();
    Row12IsCubeRoots(); Row13IsCubeRoots(); Row14IsCubeRoots(); Row15IsCubeRoots();
  }
}
