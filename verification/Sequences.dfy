/** Sequences without repetition and their elements. */
module Sequences {
  predicate NoDuplicates<T(==)>(s: seq<T>) {
    forall i, j :: 0 <= i < j < |s| ==> s[i] != s[j]
  }

  ghost function Elements<T>(s: seq<T>): set<T> {
    set x | x in s
  }

  lemma ElementsStep<T>(s: seq<T>, n: nat)
    requires n < |s|
    ensures Elements(s[..n + 1]) == Elements(s[..n]) + {s[n]}
    ensures NoDuplicates(s) ==> s[n] !in Elements(s[..n])
  {
    assert s[..n + 1] == s[..n] + [s[n]];
  }

  ghost predicate OrderedBy<T>(s: seq<T>, le: (T, T) -> bool) {
    forall i, j :: 0 <= i < j < |s| ==> le(s[i], s[j])
  }

  /** Inserting between everything at most `x` and everything at least `x` keeps the order. */
  lemma SplicedOrderedBy<T>(s: seq<T>, k: nat, x: T, le: (T, T) -> bool)
    requires OrderedBy(s, le) && k <= |s|
    requires (forall i :: 0 <= i < k ==> le(s[i], x)) && (forall i :: k <= i < |s| ==> le(x, s[i]))
    ensures OrderedBy(s[..k] + [x] + s[k..], le)
  {
    var r := s[..k] + [x] + s[k..];
    forall i, j | 0 <= i < j < |r| ensures le(r[i], r[j]) {
      assert i != k ==> r[i] == s[if i > k then i - 1 else i];
      assert j != k ==> r[j] == s[if j > k then j - 1 else j];
    }
  }

  function Concat<T>(chunks: seq<seq<T>>): seq<T> {
    if chunks == [] then [] else Concat(chunks[..|chunks| - 1]) + chunks[|chunks| - 1]
  }

  lemma ConcatSnoc<T>(chunks: seq<seq<T>>, chunk: seq<T>)
    ensures Concat(chunks + [chunk]) == Concat(chunks) + chunk
  {
    assert (chunks + [chunk])[..|chunks|] == chunks;
  }

  /** The first chunks of a stream are its first elements. */
  lemma {:induction false} ConcatPrefix<T>(chunks: seq<seq<T>>, done: nat)
    requires done <= |chunks|
    ensures |Concat(chunks[..done])| <= |Concat(chunks)|
    ensures Concat(chunks[..done]) == Concat(chunks)[..|Concat(chunks[..done])|]
    decreases |chunks| - done
  {
    if done == |chunks| {
      assert chunks[..done] == chunks;
    } else {
      ConcatPrefix(chunks, done + 1);
      assert chunks[..done + 1][..done] == chunks[..done];
      var a, b := Concat(chunks[..done]), Concat(chunks[..done + 1]);
      assert a == b[..|a|];
      assert Concat(chunks)[..|b|][..|a|] == Concat(chunks)[..|a|];
    }
  }
}
