/**
 * Facts about slicing that the loops and inductions use, stated for any
 * element type so that proving them never looks inside the elements.
 */
module Sequences {
  /** Taking one more element appends it. */
  lemma TakeOneMore<T>(xs: seq<T>, i: int)
    requires 0 <= i < |xs|
    ensures xs[..i + 1] == xs[..i] + [xs[i]]
    ensures xs[..i + 1][..i] == xs[..i]
  {
  }

  /** A sequence is its front followed by its last element. */
  lemma FrontLast<T>(xs: seq<T>)
    requires xs != []
    ensures xs == xs[..|xs| - 1] + [xs[|xs| - 1]]
  {
  }

  lemma TakeAll<T>(xs: seq<T>)
    ensures xs[..|xs|] == xs
  {
  }

  lemma AppendEmpty<T>(xs: seq<T>)
    ensures xs + [] == xs
  {
  }

  lemma TakeFront<T>(xs: seq<T>, ys: seq<T>)
    ensures (xs + ys)[..|xs|] == xs
  {
  }

  /** Regrouping the pieces of a bracketed comparison text */
  lemma Regroup<T>(open: seq<T>, a: seq<T>, s1: seq<T>, r: seq<T>, s2: seq<T>, b: seq<T>, close: seq<T>)
    ensures open + (a + (s1 + r + s2 + b)) + close == open + (a + (s1 + (r + (s2 + (b + close)))))
  {
  }

  /** The rest of a sequence from `i` is its element at `i` followed by the rest from `i + 1`. */
  lemma DropOne<T>(xs: seq<T>, i: int)
    requires 0 <= i < |xs|
    ensures xs[i..] == [xs[i]] + xs[i + 1..]
  {
  }

  /** Dropping the head of a sequence that starts with one element leaves what follows it. */
  lemma DropHead<T>(x: T, ys: seq<T>, zs: seq<T>)
    ensures ([x] + ys + zs)[1..] == ys + zs
  {
  }

  /** A prefix stays a prefix whatever three pieces follow it. */
  lemma TakeFrontOfFour<T>(p: seq<T>, a: seq<T>, b: seq<T>, c: seq<T>)
    ensures (p + a + b + c)[..|p|] == p
  {
  }

  /** Dropping the first element of a sequence built as one element and a rest leaves the rest. */
  lemma DropFirst<T>(x: T, ys: seq<T>)
    ensures ([x] + ys)[1..] == ys
  {
  }

  /** What is in either part is in their join. */
  lemma InEither<T>(x: T, a: seq<T>, b: seq<T>)
    ensures x in a ==> x in a + b
    ensures x in b ==> x in a + b
  {
  }

  /** Three pieces joined left to right are the same three joined right to left. */
  lemma JoinThree<T>(x: seq<T>, y: seq<T>, z: seq<T>)
    ensures x + y + z == x + (y + z)
  {
  }

  /** Four pieces joined left to right are the same four joined right to left. */
  lemma JoinFour<T>(w: seq<T>, x: seq<T>, y: seq<T>, z: seq<T>)
    ensures w + x + y + z == w + (x + (y + z))
  {
  }
}
