/** Small generic vocabulary shared by the merge model: an optional value
    (Go's nil-able pointer), the element set of a sequence, duplicate
    freedom, and the subsequence relation. */
module Collections {

  /** A Go pointer field: `None` is nil, `Some(v)` points at `v`.
      Pointers are compared by the value they point at. */
  datatype Option<+T> = None | Some(value: T)

  /** The set of elements of a sequence. */
  function Elems<T>(s: seq<T>): set<T> {
    set x | x in s
  }

  /** No element occurs twice. */
  predicate Distinct<T(==)>(s: seq<T>) {
    forall i, j :: 0 <= i < j < |s| ==> s[i] != s[j]
  }

  /** A duplicate-free sequence has exactly as many elements as its element set. */
  lemma {:induction false} DistinctCardinality<T>(s: seq<T>)
    requires Distinct(s)
    ensures |Elems(s)| == |s|
  {
    if |s| > 0 {
      var t := s[1..];
      assert Distinct(t) by {
        forall i, j | 0 <= i < j < |t| ensures t[i] != t[j] {
          assert t[i] == s[i + 1] && t[j] == s[j + 1];
        }
      }
      DistinctCardinality(t);
      assert s[0] !in t by {
        forall k | 0 <= k < |t| ensures t[k] != s[0] {
          assert t[k] == s[k + 1];
        }
      }
      assert Elems(s) == Elems(t) + {s[0]} by {
        forall x ensures x in Elems(s) <==> x in Elems(t) + {s[0]} {
          if x in s && x != s[0] {
            var k :| 0 <= k < |s| && s[k] == x;
            assert t[k - 1] == x;
          }
        }
      }
    }
  }

  /** `a` is `b` with some elements dropped, the rest kept in order. */
  predicate IsSubsequence<T(==)>(a: seq<T>, b: seq<T>)
    decreases |b|
  {
    if |a| == 0 then true
    else if |b| == 0 then false
    else (a[0] == b[0] && IsSubsequence(a[1..], b[1..])) || IsSubsequence(a, b[1..])
  }
}
