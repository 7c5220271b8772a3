/** The mask-and-shift byte swap on 32-bit patterns, tied to words given by their bytes. */
module WordBits {
  import opened Codec

  function FromBits(u: bv32): Word {
    Word((u & 0xFF) as bv8, ((u >> 8) & 0xFF) as bv8, ((u >> 16) & 0xFF) as bv8, ((u >> 24) & 0xFF) as bv8)
  }

  /** First the halves change places, then the bytes of each half. */
  function SwapBits(u: bv32): bv32 {
    var v := ((u & 0x0000FFFF) << 16) | ((u & 0xFFFF0000) >> 16);
    ((v & 0x00FF00FF) << 8) | ((v & 0xFF00FF00) >> 8)
  }

  lemma SwapBitsBytes(u: bv32)
    ensures SwapBits(u) & 0xFF == (u >> 24) & 0xFF
    ensures (SwapBits(u) >> 8) & 0xFF == (u >> 16) & 0xFF
    ensures (SwapBits(u) >> 16) & 0xFF == (u >> 8) & 0xFF
    ensures (SwapBits(u) >> 24) & 0xFF == u & 0xFF
  {}

  /** The masks do what swapping bytes means, on every pattern. */
  lemma SwapBitsIsByteSwap(u: bv32)
    ensures FromBits(SwapBits(u)) == ByteSwap(FromBits(u))
  {
    SwapBitsBytes(u);
  }

  lemma BitsDetermined(u: bv32, v: bv32)
    requires u & 0xFF == v & 0xFF && (u >> 8) & 0xFF == (v >> 8) & 0xFF
    requires (u >> 16) & 0xFF == (v >> 16) & 0xFF && (u >> 24) & 0xFF == (v >> 24) & 0xFF
    ensures u == v
  {}

  /** Patterns are told apart by their bytes. */
  lemma FromBitsInjective(u: bv32, v: bv32)
    requires FromBits(u) == FromBits(v)
    ensures u == v
  {
    BitsDetermined(u, v);
  }

  /** Swapping twice gives every pattern back: what the writer swaps in place the reader swaps back. */
  lemma SwapBitsTwice(u: bv32)
    ensures SwapBits(SwapBits(u)) == u
  {
    hide FromBits, SwapBits;
    SwapBitsIsByteSwap(u);
    SwapBitsIsByteSwap(SwapBits(u));
    FromBitsInjective(SwapBits(SwapBits(u)), u);
  }
}
