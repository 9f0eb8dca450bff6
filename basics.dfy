/** Shared vocabulary of the model: 32-bit words of the emulated ARM machine,
    an optional value, and the two's-complement reading of a word as a KSInt32. */
module Basics {

  /** One 32-bit word of the emulated machine: a register, an address or a memory cell. */
  type Word = x: int | 0 <= x < 0x1_0000_0000

  datatype Option<T> = None | Some(value: T)

  /** The values a KSInt32 can hold. */
  predicate IsInt32(i: int) {
    -0x8000_0000 <= i < 0x8000_0000
  }

  /** The bit pattern a KSInt32 is stored as: two's complement, 32 bits, i.e.
      the one word congruent to it modulo 2^32. */
  function FromInt32(i: int): (w: Word)
    requires IsInt32(i)
    ensures (w - i) % 0x1_0000_0000 == 0
    ensures (w < 0x8000_0000) == (i >= 0)
  {
    if i >= 0 then i else i + 0x1_0000_0000
  }

  /** A stored word read back as a KSInt32; every word is the image of exactly
      one KSInt32, so this is the inverse of FromInt32. */
  function ToInt32(w: Word): (i: int)
    ensures IsInt32(i)
    ensures (w - i) % 0x1_0000_0000 == 0
    ensures FromInt32(i) == w
  {
    if w < 0x8000_0000 then w else w - 0x1_0000_0000
  }

  /** Storing a KSInt32 and reading it back gives the same number, negative ones included. */
  lemma Int32RoundTrip(i: int)
    requires IsInt32(i)
    ensures ToInt32(FromInt32(i)) == i
  {
  }

  /** A word of emulated memory; a word that was never written reads as zero. */
  function Load(m: map<Word, Word>, a: Word): Word {
    if a in m then m[a] else 0
  }
}
