/** Small shared vocabulary: optional values, results with an error, and
    facts about sequences without repeated elements. */
module Basics {

  datatype Option<T> = None | Some(value: T)

  /** The outcome of an operation that can raise: a value or the error raised. */
  datatype Result<T, E> = Ok(value: T) | Err(error: E)

  /** No element of `s` occurs twice. */
  predicate Distinct<T(==)>(s: seq<T>) {
    forall i, j :: 0 <= i < j < |s| ==> s[i] != s[j]
  }

  /** The elements of `s` as a set. */
  function Elems<T>(s: seq<T>): set<T> {
    set x | x in s
  }

  /** A repetition-free sequence has as many elements as its set of elements. */
  lemma {:induction false} DistinctCard<T>(s: seq<T>)
    requires Distinct(s)
    ensures |Elems(s)| == |s|
  {
    if s != [] {
      var t := s[1..];
      assert Distinct(t) by {
        forall i, j | 0 <= i < j < |t| ensures t[i] != t[j] {
          assert t[i] == s[i + 1] && t[j] == s[j + 1];
        }
      }
      DistinctCard(t);
      assert Elems(s) == {s[0]} + Elems(t) by {
        forall x | x in Elems(s) ensures x in {s[0]} + Elems(t) {
          var i :| 0 <= i < |s| && s[i] == x;
          if i > 0 { assert t[i - 1] == x; }
        }
      }
      assert s[0] !in Elems(t) by {
        forall i | 0 <= i < |t| ensures t[i] != s[0] {
          assert t[i] == s[i + 1];
        }
      }
    }
  }

  /** In a repetition-free sequence, an element does not occur before its
      own position. */
  lemma DistinctNotEarlier<T>(s: seq<T>, n: nat)
    requires Distinct(s) && 0 < n <= |s|
    ensures s[n - 1] !in s[..n - 1]
  {
  }

  /** A prefix one element longer: kept apart so that the extensionality
      step does not meet the quantifier of `Distinct`. */
  lemma PrefixSnoc<T>(s: seq<T>, n: nat)
    requires 0 < n <= |s|
    ensures s[..n] == s[..n - 1] + [s[n - 1]]
  {
  }
}
