/** The constants of the hashes are those of sections 4.2.2, 4.2.3, 5.3.3 and 5.3.5 of FIPS 180-4: fractions of roots of primes. */
module ShaConstants {
  import opened ShaStream
  import Sha256
  import Sha512

  /** The first eighty primes. */
  function Primes(): (p: seq<nat>)
    ensures |p| == 80
  {
    [2, 3, 5, 7, 11, 13, 17, 19] +
      [23, 29, 31, 37, 41, 43, 47, 53] +
      [59, 61, 67, 71, 73, 79, 83, 89] +
      [97, 101, 103, 107, 109, 113, 127, 131] +
      [137, 139, 149, 151, 157, 163, 167, 173] +
      [179, 181, 191, 193, 197, 199, 211, 223] +
      [227, 229, 233, 239, 241, 251, 257, 263] +
      [269, 271, 277, 281, 283, 293, 307, 311] +
      [313, 317, 331, 337, 347, 349, 353, 359] +
      [367, 373, 379, 383, 389, 397, 401, 409]
  }

  predicate IsCubeRoot(c: nat, p: nat, unit: nat)
  {
    c * c * c <= p * (unit * unit * unit) < (c + 1) * (c + 1) * (c + 1)
  }

  /** `k` is the fraction of the cube root of `p`, counted in parts of `unit` and cut. */
  ghost predicate CubeRootFraction(k: nat, p: nat, unit: nat)
    requires unit > 0
  {
    exists c: nat :: IsCubeRoot(c, p, unit) && c % unit == k
  }

  lemma Cube(c: nat, p: nat, unit: nat)
    requires unit > 0 && IsCubeRoot(c, p, unit)
    ensures CubeRootFraction(c % unit, p, unit)
  {
  }

  predicate IsSquareRoot(c: nat, p: nat, unit: nat)
  {
    c * c <= p * (unit * unit) < (c + 1) * (c + 1)
  }

  /** The same for the square root. */
  ghost predicate SquareRootFraction(k: nat, p: nat, unit: nat)
    requires unit > 0
  {
    exists c: nat :: IsSquareRoot(c, p, unit) && c % unit == k
  }

  lemma Square(c: nat, p: nat, unit: nat)
    requires unit > 0 && IsSquareRoot(c, p, unit)
    ensures SquareRootFraction(c % unit, p, unit)
  {
  }

  lemma Cubes256From0()
    ensures forall i :: 0 <= i < 8 ==> CubeRootFraction(Sha256.K()[i] as nat, Primes()[i], TWO_32)
  {
    hide CubeRootFraction, SquareRootFraction, IsSquareRoot;
    Cube(0x1_428a2f98, 2, TWO_32);
    Cube(0x1_71374491, 3, TWO_32);
    Cube(0x1_b5c0fbcf, 5, TWO_32);
    Cube(0x1_e9b5dba5, 7, TWO_32);
    Cube(0x2_3956c25b, 11, TWO_32);
    Cube(0x2_59f111f1, 13, TWO_32);
    Cube(0x2_923f82a4, 17, TWO_32);
    Cube(0x2_ab1c5ed5, 19, TWO_32);
  }

  lemma Cubes256From8()
    ensures forall i :: 8 <= i < 16 ==> CubeRootFraction(Sha256.K()[i] as nat, Primes()[i], TWO_32)
  {
    hide CubeRootFraction, SquareRootFraction, IsSquareRoot;
    Cube(0x2_d807aa98, 23, TWO_32);
    Cube(0x3_12835b01, 29, TWO_32);
    Cube(0x3_243185be, 31, TWO_32);
    Cube(0x3_550c7dc3, 37, TWO_32);
    Cube(0x3_72be5d74, 41, TWO_32);
    Cube(0x3_80deb1fe, 43, TWO_32);
    Cube(0x3_9bdc06a7, 47, TWO_32);
    Cube(0x3_c19bf174, 53, TWO_32);
  }

  lemma Cubes256From16()
    ensures forall i :: 16 <= i < 24 ==> CubeRootFraction(Sha256.K()[i] as nat, Primes()[i], TWO_32)
  {
    hide CubeRootFraction, SquareRootFraction, IsSquareRoot;
    Cube(0x3_e49b69c1, 59, TWO_32);
    Cube(0x3_efbe4786, 61, TWO_32);
    Cube(0x4_0fc19dc6, 67, TWO_32);
    Cube(0x4_240ca1cc, 71, TWO_32);
    Cube(0x4_2de92c6f, 73, TWO_32);
    Cube(0x4_4a7484aa, 79, TWO_32);
    Cube(0x4_5cb0a9dc, 83, TWO_32);
    Cube(0x4_76f988da, 89, TWO_32);
  }

  lemma Cubes256From24()
    ensures forall i :: 24 <= i < 32 ==> CubeRootFraction(Sha256.K()[i] as nat, Primes()[i], TWO_32)
  {
    hide CubeRootFraction, SquareRootFraction, IsSquareRoot;
    Cube(0x4_983e5152, 97, TWO_32);
    Cube(0x4_a831c66d, 101, TWO_32);
    Cube(0x4_b00327c8, 103, TWO_32);
    Cube(0x4_bf597fc7, 107, TWO_32);
    Cube(0x4_c6e00bf3, 109, TWO_32);
    Cube(0x4_d5a79147, 113, TWO_32);
    Cube(0x5_06ca6351, 127, TWO_32);
    Cube(0x5_14292967, 131, TWO_32);
  }

  lemma Cubes256From32()
    ensures forall i :: 32 <= i < 40 ==> CubeRootFraction(Sha256.K()[i] as nat, Primes()[i], TWO_32)
  {
    hide CubeRootFraction, SquareRootFraction, IsSquareRoot;
    Cube(0x5_27b70a85, 137, TWO_32);
    Cube(0x5_2e1b2138, 139, TWO_32);
    Cube(0x5_4d2c6dfc, 149, TWO_32);
    Cube(0x5_53380d13, 151, TWO_32);
    Cube(0x5_650a7354, 157, TWO_32);
    Cube(0x5_766a0abb, 163, TWO_32);
    Cube(0x5_81c2c92e, 167, TWO_32);
    Cube(0x5_92722c85, 173, TWO_32);
  }

  lemma Cubes256From40()
    ensures forall i :: 40 <= i < 48 ==> CubeRootFraction(Sha256.K()[i] as nat, Primes()[i], TWO_32)
  {
    hide CubeRootFraction, SquareRootFraction, IsSquareRoot;
    Cube(0x5_a2bfe8a1, 179, TWO_32);
    Cube(0x5_a81a664b, 181, TWO_32);
    Cube(0x5_c24b8b70, 191, TWO_32);
    Cube(0x5_c76c51a3, 193, TWO_32);
    Cube(0x5_d192e819, 197, TWO_32);
    Cube(0x5_d6990624, 199, TWO_32);
    Cube(0x5_f40e3585, 211, TWO_32);
    Cube(0x6_106aa070, 223, TWO_32);
  }

  lemma Cubes256From48()
    ensures forall i :: 48 <= i < 56 ==> CubeRootFraction(Sha256.K()[i] as nat, Primes()[i], TWO_32)
  {
    hide CubeRootFraction, SquareRootFraction, IsSquareRoot;
    Cube(0x6_19a4c116, 227, TWO_32);
    Cube(0x6_1e376c08, 229, TWO_32);
    Cube(0x6_2748774c, 233, TWO_32);
    Cube(0x6_34b0bcb5, 239, TWO_32);
    Cube(0x6_391c0cb3, 241, TWO_32);
    Cube(0x6_4ed8aa4a, 251, TWO_32);
    Cube(0x6_5b9cca4f, 257, TWO_32);
    Cube(0x6_682e6ff3, 263, TWO_32);
  }

  lemma Cubes256From56()
    ensures forall i :: 56 <= i < 64 ==> CubeRootFraction(Sha256.K()[i] as nat, Primes()[i], TWO_32)
  {
    hide CubeRootFraction, SquareRootFraction, IsSquareRoot;
    Cube(0x6_748f82ee, 269, TWO_32);
    Cube(0x6_78a5636f, 271, TWO_32);
    Cube(0x6_84c87814, 277, TWO_32);
    Cube(0x6_8cc70208, 281, TWO_32);
    Cube(0x6_90befffa, 283, TWO_32);
    Cube(0x6_a4506ceb, 293, TWO_32);
    Cube(0x6_bef9a3f7, 307, TWO_32);
    Cube(0x6_c67178f2, 311, TWO_32);
  }

  lemma Cubes512From0()
    ensures forall i :: 0 <= i < 8 ==> CubeRootFraction(Sha512.K()[i] as nat, Primes()[i], TWO_64)
  {
    hide CubeRootFraction, SquareRootFraction, IsSquareRoot;
    Cube(0x1_428a2f98d728ae22, 2, TWO_64);
    Cube(0x1_7137449123ef65cd, 3, TWO_64);
    Cube(0x1_b5c0fbcfec4d3b2f, 5, TWO_64);
    Cube(0x1_e9b5dba58189dbbc, 7, TWO_64);
    Cube(0x2_3956c25bf348b538, 11, TWO_64);
    Cube(0x2_59f111f1b605d019, 13, TWO_64);
    Cube(0x2_923f82a4af194f9b, 17, TWO_64);
    Cube(0x2_ab1c5ed5da6d8118, 19, TWO_64);
  }

  lemma Cubes512From8()
    ensures forall i :: 8 <= i < 16 ==> CubeRootFraction(Sha512.K()[i] as nat, Primes()[i], TWO_64)
  {
    hide CubeRootFraction, SquareRootFraction, IsSquareRoot;
    Cube(0x2_d807aa98a3030242, 23, TWO_64);
    Cube(0x3_12835b0145706fbe, 29, TWO_64);
    Cube(0x3_243185be4ee4b28c, 31, TWO_64);
    Cube(0x3_550c7dc3d5ffb4e2, 37, TWO_64);
    Cube(0x3_72be5d74f27b896f, 41, TWO_64);
    Cube(0x3_80deb1fe3b1696b1, 43, TWO_64);
    Cube(0x3_9bdc06a725c71235, 47, TWO_64);
    Cube(0x3_c19bf174cf692694, 53, TWO_64);
  }

  lemma Cubes512From16()
    ensures forall i :: 16 <= i < 24 ==> CubeRootFraction(Sha512.K()[i] as nat, Primes()[i], TWO_64)
  {
    hide CubeRootFraction, SquareRootFraction, IsSquareRoot;
    Cube(0x3_e49b69c19ef14ad2, 59, TWO_64);
    Cube(0x3_efbe4786384f25e3, 61, TWO_64);
    Cube(0x4_0fc19dc68b8cd5b5, 67, TWO_64);
    Cube(0x4_240ca1cc77ac9c65, 71, TWO_64);
    Cube(0x4_2de92c6f592b0275, 73, TWO_64);
    Cube(0x4_4a7484aa6ea6e483, 79, TWO_64);
    Cube(0x4_5cb0a9dcbd41fbd4, 83, TWO_64);
    Cube(0x4_76f988da831153b5, 89, TWO_64);
  }

  lemma Cubes512From24()
    ensures forall i :: 24 <= i < 32 ==> CubeRootFraction(Sha512.K()[i] as nat, Primes()[i], TWO_64)
  {
    hide CubeRootFraction, SquareRootFraction, IsSquareRoot;
    Cube(0x4_983e5152ee66dfab, 97, TWO_64);
    Cube(0x4_a831c66d2db43210, 101, TWO_64);
    Cube(0x4_b00327c898fb213f, 103, TWO_64);
    Cube(0x4_bf597fc7beef0ee4, 107, TWO_64);
    Cube(0x4_c6e00bf33da88fc2, 109, TWO_64);
    Cube(0x4_d5a79147930aa725, 113, TWO_64);
    Cube(0x5_06ca6351e003826f, 127, TWO_64);
    Cube(0x5_142929670a0e6e70, 131, TWO_64);
  }

  lemma Cubes512From32()
    ensures forall i :: 32 <= i < 40 ==> CubeRootFraction(Sha512.K()[i] as nat, Primes()[i], TWO_64)
  {
    hide CubeRootFraction, SquareRootFraction, IsSquareRoot;
    Cube(0x5_27b70a8546d22ffc, 137, TWO_64);
    Cube(0x5_2e1b21385c26c926, 139, TWO_64);
    Cube(0x5_4d2c6dfc5ac42aed, 149, TWO_64);
    Cube(0x5_53380d139d95b3df, 151, TWO_64);
    Cube(0x5_650a73548baf63de, 157, TWO_64);
    Cube(0x5_766a0abb3c77b2a8, 163, TWO_64);
    Cube(0x5_81c2c92e47edaee6, 167, TWO_64);
    Cube(0x5_92722c851482353b, 173, TWO_64);
  }

  lemma Cubes512From40()
    ensures forall i :: 40 <= i < 48 ==> CubeRootFraction(Sha512.K()[i] as nat, Primes()[i], TWO_64)
  {
    hide CubeRootFraction, SquareRootFraction, IsSquareRoot;
    Cube(0x5_a2bfe8a14cf10364, 179, TWO_64);
    Cube(0x5_a81a664bbc423001, 181, TWO_64);
    Cube(0x5_c24b8b70d0f89791, 191, TWO_64);
    Cube(0x5_c76c51a30654be30, 193, TWO_64);
    Cube(0x5_d192e819d6ef5218, 197, TWO_64);
    Cube(0x5_d69906245565a910, 199, TWO_64);
    Cube(0x5_f40e35855771202a, 211, TWO_64);
    Cube(0x6_106aa07032bbd1b8, 223, TWO_64);
  }

  lemma Cubes512From48()
    ensures forall i :: 48 <= i < 56 ==> CubeRootFraction(Sha512.K()[i] as nat, Primes()[i], TWO_64)
  {
    hide CubeRootFraction, SquareRootFraction, IsSquareRoot;
    Cube(0x6_19a4c116b8d2d0c8, 227, TWO_64);
    Cube(0x6_1e376c085141ab53, 229, TWO_64);
    Cube(0x6_2748774cdf8eeb99, 233, TWO_64);
    Cube(0x6_34b0bcb5e19b48a8, 239, TWO_64);
    Cube(0x6_391c0cb3c5c95a63, 241, TWO_64);
    Cube(0x6_4ed8aa4ae3418acb, 251, TWO_64);
    Cube(0x6_5b9cca4f7763e373, 257, TWO_64);
    Cube(0x6_682e6ff3d6b2b8a3, 263, TWO_64);
  }

  lemma Cubes512From56()
    ensures forall i :: 56 <= i < 64 ==> CubeRootFraction(Sha512.K()[i] as nat, Primes()[i], TWO_64)
  {
    hide CubeRootFraction, SquareRootFraction, IsSquareRoot;
    Cube(0x6_748f82ee5defb2fc, 269, TWO_64);
    Cube(0x6_78a5636f43172f60, 271, TWO_64);
    Cube(0x6_84c87814a1f0ab72, 277, TWO_64);
    Cube(0x6_8cc702081a6439ec, 281, TWO_64);
    Cube(0x6_90befffa23631e28, 283, TWO_64);
    Cube(0x6_a4506cebde82bde9, 293, TWO_64);
    Cube(0x6_bef9a3f7b2c67915, 307, TWO_64);
    Cube(0x6_c67178f2e372532b, 311, TWO_64);
  }

  lemma Cubes512From64()
    ensures forall i :: 64 <= i < 72 ==> CubeRootFraction(Sha512.K()[i] as nat, Primes()[i], TWO_64)
  {
    hide CubeRootFraction, SquareRootFraction, IsSquareRoot;
    Cube(0x6_ca273eceea26619c, 313, TWO_64);
    Cube(0x6_d186b8c721c0c207, 317, TWO_64);
    Cube(0x6_eada7dd6cde0eb1e, 331, TWO_64);
    Cube(0x6_f57d4f7fee6ed178, 337, TWO_64);
    Cube(0x7_06f067aa72176fba, 347, TWO_64);
    Cube(0x7_0a637dc5a2c898a6, 349, TWO_64);
    Cube(0x7_113f9804bef90dae, 353, TWO_64);
    Cube(0x7_1b710b35131c471b, 359, TWO_64);
  }

  lemma Cubes512From72()
    ensures forall i :: 72 <= i < 80 ==> CubeRootFraction(Sha512.K()[i] as nat, Primes()[i], TWO_64)
  {
    hide CubeRootFraction, SquareRootFraction, IsSquareRoot;
    Cube(0x7_28db77f523047d84, 367, TWO_64);
    Cube(0x7_32caab7b40c72493, 373, TWO_64);
    Cube(0x7_3c9ebe0a15c9bebc, 379, TWO_64);
    Cube(0x7_431d67c49c100d4c, 383, TWO_64);
    Cube(0x7_4cc5d4becb3e42b6, 389, TWO_64);
    Cube(0x7_597f299cfc657e2a, 397, TWO_64);
    Cube(0x7_5fcb6fab3ad6faec, 401, TWO_64);
    Cube(0x7_6c44198c4a475817, 409, TWO_64);
  }

  /** Section 4.2.2: the constants of the rounds are the first 32 bits of the fractions of the cube roots of the first 64 primes. */
  lemma RoundConstants256(i: nat)
    requires i < Sha256.ROUNDS
    ensures CubeRootFraction(Sha256.K()[i] as nat, Primes()[i], TWO_32)
  {
    hide CubeRootFraction, Primes, Sha256.K;
    Cubes256From0();
    Cubes256From8();
    Cubes256From16();
    Cubes256From24();
    Cubes256From32();
    Cubes256From40();
    Cubes256From48();
    Cubes256From56();
  }

  /** Section 5.3.3: the registers start as those of the square roots of the first eight. */
  lemma InitialRegisters256()
    ensures SquareRootFraction(Sha256.Initial().a as nat, 2, TWO_32) && SquareRootFraction(Sha256.Initial().b as nat, 3, TWO_32)
    ensures SquareRootFraction(Sha256.Initial().c as nat, 5, TWO_32) && SquareRootFraction(Sha256.Initial().d as nat, 7, TWO_32)
    ensures SquareRootFraction(Sha256.Initial().e as nat, 11, TWO_32) && SquareRootFraction(Sha256.Initial().f as nat, 13, TWO_32)
    ensures SquareRootFraction(Sha256.Initial().g as nat, 17, TWO_32) && SquareRootFraction(Sha256.Initial().h as nat, 19, TWO_32)
  {
    hide SquareRootFraction;
    Square(0x1_6a09e667, 2, TWO_32);
    Square(0x1_bb67ae85, 3, TWO_32);
    Square(0x2_3c6ef372, 5, TWO_32);
    Square(0x2_a54ff53a, 7, TWO_32);
    Square(0x3_510e527f, 11, TWO_32);
    Square(0x3_9b05688c, 13, TWO_32);
    Square(0x4_1f83d9ab, 17, TWO_32);
    Square(0x4_5be0cd19, 19, TWO_32);
  }

  /** Section 4.2.3: the constants of the rounds are the first 64 bits of the fractions of the cube roots of the first 80 primes. */
  lemma RoundConstants512(i: nat)
    requires i < Sha512.ROUNDS
    ensures CubeRootFraction(Sha512.K()[i] as nat, Primes()[i], TWO_64)
  {
    hide CubeRootFraction, Primes, Sha512.K;
    Cubes512From0();
    Cubes512From8();
    Cubes512From16();
    Cubes512From24();
    Cubes512From32();
    Cubes512From40();
    Cubes512From48();
    Cubes512From56();
    Cubes512From64();
    Cubes512From72();
  }

  /** Section 5.3.5: the registers start as those of the square roots of the first eight. */
  lemma InitialRegisters512()
    ensures SquareRootFraction(Sha512.Initial().a as nat, 2, TWO_64) && SquareRootFraction(Sha512.Initial().b as nat, 3, TWO_64)
    ensures SquareRootFraction(Sha512.Initial().c as nat, 5, TWO_64) && SquareRootFraction(Sha512.Initial().d as nat, 7, TWO_64)
    ensures SquareRootFraction(Sha512.Initial().e as nat, 11, TWO_64) && SquareRootFraction(Sha512.Initial().f as nat, 13, TWO_64)
    ensures SquareRootFraction(Sha512.Initial().g as nat, 17, TWO_64) && SquareRootFraction(Sha512.Initial().h as nat, 19, TWO_64)
  {
    hide SquareRootFraction;
    Square(0x1_6a09e667f3bcc908, 2, TWO_64);
    Square(0x1_bb67ae8584caa73b, 3, TWO_64);
    Square(0x2_3c6ef372fe94f82b, 5, TWO_64);
    Square(0x2_a54ff53a5f1d36f1, 7, TWO_64);
    Square(0x3_510e527fade682d1, 11, TWO_64);
    Square(0x3_9b05688c2b3e6c1f, 13, TWO_64);
    Square(0x4_1f83d9abfb41bd6b, 17, TWO_64);
    Square(0x4_5be0cd19137e2179, 19, TWO_64);
  }
}
