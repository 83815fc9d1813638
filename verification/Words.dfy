/** 32-bit unsigned words, and the option type used for pointers that may be NULL. */
module Words {

  const WORD_MAX := 0xFFFF_FFFF
  const MODULUS := 0x1_0000_0000

  /** A C `rt_uint32_t`, `rt_size_t` or `rt_tick_t`. */
  type word = x: int | 0 <= x < 0x1_0000_0000

  datatype Option<+T> = None | Some(value: T)

  /** Truncation to 32 bits: what storing an integer in a `word` keeps of it. */
  function Wrap(x: int): (w: word)
    ensures 0 <= x < MODULUS ==> w == x
    ensures MODULUS <= x < 2 * MODULUS ==> w == x - MODULUS
    ensures -MODULUS <= x < 0 ==> w == x + MODULUS
  {
    x % MODULUS
  }

  /** RT_ALIGN(size, 4) on 32-bit words: the addition wraps. */
  function Align4(size: word): (w: word)
    ensures w % 4 == 0
    ensures size <= 0xFFFF_FFFC ==> size <= w < size + 4
    ensures size > 0xFFFF_FFFC ==> w == 0
  {
    Wrap(size + 3) / 4 * 4
  }
}
