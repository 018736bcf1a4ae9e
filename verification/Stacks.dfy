/** Stacks as the models see them; the arrays that hold them in the source are
    related to these by `Of`. */
module Stacks {

  datatype Stack<T> = Empty | Push(top: T, rest: Stack<T>)

  function Depth<T>(s: Stack<T>): nat {
    match s
    case Empty => 0
    case Push(_, rest) => 1 + Depth(rest)
  }

  /** The stack whose bottom is s[0] and whose top is the last element of s. */
  function Of<T>(s: seq<T>): (r: Stack<T>)
    ensures Depth(r) == |s|
  {
    if s == [] then Empty else Push(s[|s| - 1], Of(s[..|s| - 1]))
  }

  lemma OfSnoc<T>(s: seq<T>, x: T)
    ensures Of(s + [x]) == Push(x, Of(s))
  {
    assert (s + [x])[..|s|] == s;
  }

  predicate Contains<T(==)>(s: Stack<T>, x: T) {
    match s
    case Empty => false
    case Push(top, rest) => top == x || Contains(rest, x)
  }
}
