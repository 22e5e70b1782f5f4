/** Fixed-width machine words, as the C++ sources use them. */
module Words {

  // uint32_t; also BinaryLocation, since wasm32 addresses have 32 bits.
  type Word = x: int | 0 <= x < 0x1_0000_0000

  type Byte = x: int | 0 <= x < 0x100

  const NO_SEQUENCE: Word := 0xFFFF_FFFF

  /** Conversion to uint32_t of any integer: reduction modulo 2^32. */
  function Wrap(x: int): Word {
    x % 0x1_0000_0000
  }

  /** Reinterpretation of a uint32_t as an int32_t. */
  function AsSigned(x: Word): (r: int)
    ensures -0x8000_0000 <= r < 0x8000_0000
    ensures Wrap(r) == x
  {
    if x < 0x8000_0000 then x else x - 0x1_0000_0000
  }

  /** A value a linker leaves where an address used to be. */
  predicate IsTombstone(x: Word) {
    x == 0 || x == 0xFFFF_FFFF || x == 0xFFFF_FFFE
  }

  /** Adding a wrapped, sign-reinterpreted difference undoes the subtraction. */
  lemma {:induction false} DeltaRestores(from: Word, to: Word)
    ensures Wrap(from + AsSigned(Wrap(to - from))) == to
  {
    if 0 <= to - from {
      assert Wrap(to - from) == to - from;
    } else {
      assert Wrap(to - from) == to - from + 0x1_0000_0000;
    }
  }

  lemma {:induction false} WrapSubAdd(base: Word, x: Word)
    ensures Wrap(base + Wrap(x - base)) == x
  {
    if base <= x {
      assert Wrap(x - base) == x - base;
    } else {
      assert Wrap(x - base) == x - base + 0x1_0000_0000;
    }
  }
}
