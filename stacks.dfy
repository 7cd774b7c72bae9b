/**
 * Sequence operations that stand for the JavaScript array operations the
 * parser and the generator use on their stacks. The top of a stack is the
 * END of the sequence, as with `push`/`pop` on a JavaScript array.
 */
module Stacks {

  /** The top of a non-empty stack: its last element. */
  function Last<T>(s: seq<T>): T
    requires |s| > 0
  {
    s[|s| - 1]
  }

  /** `Array.prototype.pop` as it affects the array: drop the last element; an empty array stays empty. */
  function Pop<T>(s: seq<T>): seq<T>
  {
    if s == [] then [] else s[..|s| - 1]
  }

  /** `Array.prototype.reverse`. */
  function Reverse<T>(s: seq<T>): (r: seq<T>)
    ensures |r| == |s|
    ensures forall i :: 0 <= i < |s| ==> r[i] == s[|s| - 1 - i]
  {
    if s == [] then [] else Reverse(s[1..]) + [s[0]]
  }

  /** `tokens.slice(p)`: the suffix from index p, empty when p is past the end. */
  function Slice<T>(s: seq<T>, p: nat): seq<T>
  {
    if p <= |s| then s[p..] else []
  }
}
