/**
 Small shared vocabulary: an optional value, duplicate-freedom of a sequence,
 and "occurs as a contiguous block" for sequences and strings.
 */
module Util {

  /** A value that may be absent; in the handler model `None` also stands for a panic. */
  datatype Option<+T> = None | Some(value: T)

  /** No element of `s` appears twice. */
  predicate NoDup<T(==)>(s: seq<T>)
  {
    forall i, j :: 0 <= i < j < |s| ==> s[i] != s[j]
  }

  /** The elements of `s`, as a set. */
  function Elems<T>(s: seq<T>): set<T>
  {
    set x | x in s
  }

  /** `t` occurs in `s` as a contiguous block starting at index `i`. */
  predicate OccursAt<T(==)>(t: seq<T>, s: seq<T>, i: nat)
  {
    i + |t| <= |s| && s[i..i + |t|] == t
  }

  /** `t` is a substring (contiguous block) of `s`, as Rust's `str::contains`. */
  predicate Contains<T(==)>(s: seq<T>, t: seq<T>)
  {
    exists i: nat :: i <= |s| && OccursAt(t, s, i)
  }

  /** A block placed anywhere inside a concatenation is found there. */
  lemma OccursInMiddle<T>(a: seq<T>, t: seq<T>, b: seq<T>)
    ensures OccursAt(t, a + t + b, |a|)
    ensures Contains(a + t + b, t)
  {
    assert (a + t + b)[|a|..|a| + |t|] == t;
    assert OccursAt(t, a + t + b, |a|);
  }

  lemma ElemsAppend<T>(s: seq<T>, x: T)
    ensures Elems(s + [x]) == Elems(s) + {x}
  {
  }

  lemma ElemsConcat<T>(a: seq<T>, b: seq<T>)
    ensures Elems(a + b) == Elems(a) + Elems(b)
  {
  }

  lemma NoDupAppend<T>(s: seq<T>, x: T)
    requires NoDup(s) && x !in s
    ensures NoDup(s + [x])
  {
  }
}
