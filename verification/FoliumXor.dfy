/** Exclusive or of the digests' words. */
module FoliumXor {
  function Xor32(a: bv32, b: bv32): bv32 { a ^ b }

  lemma Raw32(a: bv32, b: bv32, c: bv32)
    ensures (a ^ b) ^ c == (a ^ c) ^ b && (a ^ b) ^ b == a
  {
  }

  lemma Xor32Is(a: bv32, b: bv32)
    ensures Xor32(a, b) == a ^ b
  {
  }

  lemma Xor32OfThree(a: bv32, b: bv32, c: bv32)
    ensures Xor32(Xor32(a, b), c) == (a ^ b) ^ c
  {
    hide Xor32;
    Xor32Is(a, b);
    Xor32Is(a ^ b, c);
  }

  /** Which of two words comes first does not matter, and twice the same is nothing. */
  lemma Xor32Laws(a: bv32, b: bv32, c: bv32)
    ensures Xor32(Xor32(a, b), b) == a && Xor32(Xor32(a, b), c) == Xor32(Xor32(a, c), b)
  {
    hide Xor32;
    Xor32OfThree(a, b, b);
    Xor32OfThree(a, b, c);
    Xor32OfThree(a, c, b);
    Raw32(a, b, c);
  }

  function Xor64(a: bv64, b: bv64): bv64 { a ^ b }

  lemma Raw64(a: bv64, b: bv64, c: bv64)
    ensures (a ^ b) ^ c == (a ^ c) ^ b && (a ^ b) ^ b == a
  {
  }

  lemma Xor64Is(a: bv64, b: bv64)
    ensures Xor64(a, b) == a ^ b
  {
  }

  lemma Xor64OfThree(a: bv64, b: bv64, c: bv64)
    ensures Xor64(Xor64(a, b), c) == (a ^ b) ^ c
  {
    hide Xor64;
    Xor64Is(a, b);
    Xor64Is(a ^ b, c);
  }

  /** Which of two words comes first does not matter, and twice the same is nothing. */
  lemma Xor64Laws(a: bv64, b: bv64, c: bv64)
    ensures Xor64(Xor64(a, b), b) == a && Xor64(Xor64(a, b), c) == Xor64(Xor64(a, c), b)
  {
    hide Xor64;
    Xor64OfThree(a, b, b);
    Xor64OfThree(a, b, c);
    Xor64OfThree(a, c, b);
    Raw64(a, b, c);
  }

  lemma Xor32Tells(a: bv32, b: bv32, c: bv32)
    requires b != c
    ensures Xor32(a, b) != Xor32(a, c)
  {
  }
}
