/**
 * Sequence bookkeeping used by the proofs. Each lemma is stated over
 * arbitrary sequences, so that the solver proves it without unfolding the
 * lexer or the parser functions whose results it is later applied to.
 */
module Seqs {
  /** Chaining "x is t then y" with "y is a then z". */
  lemma ChainPrefix<T>(x: seq<T>, t: T, y: seq<T>, a: seq<T>, z: seq<T>)
    requires x == [t] + y && y == a + z
    ensures x == ([t] + a) + z
  {
  }

  /** Chaining into a remainder that turns out to be empty. */
  lemma ChainEnd<T>(x: seq<T>, a: seq<T>, y: seq<T>, z: seq<T>)
    requires x == a + y && y == z && z == []
    ensures x == a
  {
  }

  /** Moving the split point of `a`, `x`, `b` followed by `rest` to just after `a`. */
  lemma Regroup<T>(a: seq<T>, x: T, b: seq<T>, rest: seq<T>)
    ensures (a + [x] + b) + rest == a + ([x] + (b + rest))
  {
  }

  /** Dropping the leading element of `x`, `b`, `rest`. */
  lemma DropFirst<T>(x: T, b: seq<T>, rest: seq<T>)
    ensures ([x] + b + rest)[1..] == b + rest
  {
  }

  /** Dropping the opening element of a bracketed `b` followed by `rest`. */
  lemma DropOpen<T>(open: T, b: seq<T>, close: T, rest: seq<T>)
    ensures (([open] + b + [close]) + rest)[1..] == b + ([close] + rest)
  {
  }

  /** Moving the front `x` of the remainder onto the end of the accumulated prefix. */
  lemma Emit<T>(acc: seq<T>, x: seq<T>, l0: seq<T>, l1: seq<T>, whole: seq<T>)
    requires acc + l0 == whole && l0 == x + l1
    ensures (acc + x) + l1 == whole
  {
  }
}
