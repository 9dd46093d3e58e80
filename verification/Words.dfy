/**
 The 32-bit millisecond clock: unsigned words, the wrapping subtraction every age test
 uses, and the signed comparison of the re-arm gate. `Wrap` relates a word to the true,
 unbounded time it was read at.
 */
module Words {
  const WORD: int := 0x1_0000_0000
  const HALF: int := 0x8000_0000

  type Word = n: int | 0 <= n < 0x1_0000_0000

  /** The word the clock shows at true time t. */
  function Wrap(t: int): Word {
    t % WORD
  }

  /** static_cast<uint32_t>(now - past) */
  function Since(now: Word, past: Word): Word {
    (now - past) % WORD
  }

  /** static_cast<int32_t>(a - b) < 0 */
  predicate Precedes(a: Word, b: Word) {
    Since(a, b) >= HALF
  }

  /** ++ on a uint32_t. */
  function Increment(n: Word): Word {
    (n + 1) % WORD
  }

  /** A wrapped age is the true age exactly when the true age is less than one turn of the clock. */
  lemma SinceExact(t: int, u: int)
    ensures Since(Wrap(t), Wrap(u)) == (t - u) % WORD
    ensures Since(Wrap(t), Wrap(u)) == t - u <==> 0 <= t - u < WORD
  {
  }

  /** The signed gate orders true times correctly within half a turn on either side. */
  lemma PrecedesExact(t: int, u: int)
    requires -HALF <= t - u < HALF
    ensures Precedes(Wrap(t), Wrap(u)) <==> t < u
  {
  }

  /** The word t moved by k. */
  function Shift(t: Word, k: int): Word {
    Wrap(t + k)
  }

  /** Moving both readings by the same amount changes no age. */
  lemma SinceShift(a: Word, b: Word, k: int)
    ensures Since(Shift(a, k), Shift(b, k)) == Since(a, b)
  {
  }
}
