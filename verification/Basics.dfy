/** Types and small facts shared by every part of the model. */
module Basics {

  datatype Option<+T> = None | Some(value: T)

  /** A C++ std::string or a Python byte string: one char per byte. */
  type Bytes = string

  /** A SHA-256 digest in hexadecimal. */
  type Hash = string

  /** SHA-256 itself stays abstract: every claim holds for any function of this type. */
  type Digest = Bytes -> Hash

  function Min(a: int, b: int): int {
    if a <= b then a else b
  }

  function Max(a: int, b: int): int {
    if a >= b then a else b
  }

  /** The digest of each block, in block order. */
  function HashesOf(digest: Digest, blocks: seq<Bytes>): (hashes: seq<Hash>)
    ensures |hashes| == |blocks|
    ensures forall i | 0 <= i < |blocks| :: hashes[i] == digest(blocks[i])
  {
    seq(|blocks|, i requires 0 <= i < |blocks| => digest(blocks[i]))
  }

  /** The byte sequence that `cat` makes of a list of blocks. */
  function Concat(blocks: seq<Bytes>): Bytes {
    if blocks == [] then [] else blocks[0] + Concat(blocks[1..])
  }

  // ------------------------------------------------------------ selections

  /** The elements that satisfy p, in order, duplicates included. */
  function Keep<T>(s: seq<T>, p: T -> bool): seq<T> {
    if s == [] then []
    else
      var last := s[|s| - 1];
      Keep(s[..|s| - 1], p) + if p(last) then [last] else []
  }

  /** idx names positions of the whole, from left to right, at which the part is found. */
  predicate PicksOut<T(==)>(part: seq<T>, whole: seq<T>, idx: seq<nat>) {
    && |idx| == |part|
    && (forall i | 0 <= i < |idx| :: idx[i] < |whole| && part[i] == whole[idx[i]])
    && (forall i, j | 0 <= i < j < |idx| :: idx[i] < idx[j])
  }

  /** It is a selection from left to right that takes each element as often as it occurs, or not at all. */
  lemma {:induction false} KeepExact<T>(s: seq<T>, p: T -> bool) returns (idx: seq<nat>)
    ensures PicksOut(Keep(s, p), s, idx)
    ensures forall x :: multiset(Keep(s, p))[x] == if p(x) then multiset(s)[x] else 0
  {
    idx := [];
    if s != [] {
      var last, before := s[|s| - 1], s[..|s| - 1];
      idx := KeepExact(before, p);
      assert s == before + [last];
      if p(last) {
        idx := idx + [|s| - 1];
      }
    }
  }

  function RemoveAt<T>(s: seq<T>, k: nat): (rest: seq<T>)
    requires k < |s|
    ensures |rest| == |s| - 1
  {
    s[..k] + s[k + 1..]
  }

  lemma MultisetRemoveAt<T>(s: seq<T>, k: nat)
    requires k < |s|
    ensures multiset(s) == multiset(RemoveAt(s, k)) + multiset{s[k]}
  {
    assert s == s[..k] + [s[k]] + s[k + 1..];
  }

  lemma MultisetInsert<T>(a: seq<T>, x: T, b: seq<T>)
    ensures multiset(a + [x] + b) == multiset(a + b) + multiset{x}
  {
  }

  /** Taking the same element out of two sequences keeps whether one permutes the other. */
  lemma SameAfterRemoval<T>(a: seq<T>, i: nat, b: seq<T>, j: nat)
    requires i < |a| && j < |b| && a[i] == b[j]
    ensures multiset(a) == multiset(b) <==> multiset(RemoveAt(a, i)) == multiset(RemoveAt(b, j))
  {
    MultisetRemoveAt(a, i);
    MultisetRemoveAt(b, j);
    var x, a', b' := multiset{a[i]}, multiset(RemoveAt(a, i)), multiset(RemoveAt(b, j));
    assert a' == (a' + x) - x && b' == (b' + x) - x;
  }
}
