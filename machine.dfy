/** MIPS register words and the C integer conversions the dispatcher performs
    when it reads arguments out of the trapframe and writes results back. */
module Machine {

  const WORD_MODULUS: int := 0x1_0000_0000
  const INT32_MIN: int := -0x8000_0000
  const INT32_MAX: int := 0x7fff_ffff

  /** A 32-bit trapframe register (`uint32_t`). */
  type Word = x: int | 0 <= x < WORD_MODULUS

  /** A C `int` / `int32_t`. */
  type Int32 = x: int | INT32_MIN <= x <= INT32_MAX

  /** Implicit conversion of a C integer into an unsigned 32-bit register:
      reduction modulo 2^32. */
  function ToWord(x: int): (w: Word)
    ensures (w - x) % WORD_MODULUS == 0
    ensures 0 <= x < WORD_MODULUS ==> w == x
  {
    x % WORD_MODULUS
  }

  /** The cast `(int)tf->tf_aN`: two's-complement reinterpretation of a
      register as a signed 32-bit integer. */
  function ToInt32(w: Word): (x: Int32)
    ensures ToWord(x) == w
    ensures w <= INT32_MAX ==> x == w
    ensures w > INT32_MAX ==> x < 0
  {
    if w <= INT32_MAX then w else w - WORD_MODULUS
  }

  /** Storing a signed 32-bit value into a register and reading it back with a
      signed cast gives the value back. */
  lemma Int32RoundTrip(x: Int32)
    ensures ToInt32(ToWord(x)) == x
  {
  }
}
