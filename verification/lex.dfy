/** Go's `<` on strings, which `sort.Strings` uses: byte-wise lexicographic
    order on the UTF-8 encoding. UTF-8 preserves code-point order, so on
    Dafny strings (sequences of Unicode scalar values, so valid UTF-8 only) it is the
    lexicographic order on `char`s written out below. Dafny's own `<` on
    sequences means "proper prefix", which is not this order. */
module Lex {
  import opened Collections

  /** `a` sorts strictly before `b`. */
  predicate Less(a: string, b: string)
    decreases |a|
  {
    if |a| == 0 then |b| > 0
    else if |b| == 0 then false
    else a[0] < b[0] || (a[0] == b[0] && Less(a[1..], b[1..]))
  }

  /** The textbook definition, independent of the recursion in `Less`:
      after a common prefix of length `k`, either `a` ends while `b`
      goes on, or the two differ at position `k` and `a`'s character is smaller. */
  ghost predicate LessAt(a: string, b: string, k: nat) {
    && k <= |a| && k <= |b|
    && a[..k] == b[..k]
    && ((k == |a| && k < |b|) || (k < |a| && k < |b| && a[k] < b[k]))
  }

  lemma {:induction false} LessIsLessAt(a: string, b: string)
    ensures Less(a, b) <==> exists k: nat :: LessAt(a, b, k)
    decreases |a|
  {
    if |a| == 0 {
      if |b| > 0 {
        assert LessAt(a, b, 0);
      }
    } else if |b| == 0 {
    } else if a[0] < b[0] {
      assert LessAt(a, b, 0);
    } else if a[0] == b[0] {
      LessIsLessAt(a[1..], b[1..]);
      if Less(a, b) {
        var k: nat :| LessAt(a[1..], b[1..], k);
        assert a[..k + 1] == [a[0]] + a[1..][..k];
        assert b[..k + 1] == [b[0]] + b[1..][..k];
        assert LessAt(a, b, k + 1);
      }
      if k: nat :| LessAt(a, b, k) {
        assert k > 0;
        assert a[1..][..k - 1] == a[..k][1..];
        assert b[1..][..k - 1] == b[..k][1..];
        assert LessAt(a[1..], b[1..], k - 1);
      }
    } else {
      assert forall k: nat :: 0 < k <= |a| && k <= |b| ==> a[..k][0] == a[0] && b[..k][0] == b[0];
    }
  }

  lemma {:induction false} LessIrreflexive(a: string)
    ensures !Less(a, a)
    decreases |a|
  {
    if |a| > 0 {
      LessIrreflexive(a[1..]);
    }
  }

  lemma {:induction false} LessAsymmetric(a: string, b: string)
    requires Less(a, b)
    ensures !Less(b, a)
    decreases |a|
  {
    if |a| > 0 && |b| > 0 && a[0] == b[0] {
      LessAsymmetric(a[1..], b[1..]);
    }
  }

  lemma {:induction false} LessTransitive(a: string, b: string, c: string)
    requires Less(a, b) && Less(b, c)
    ensures Less(a, c)
    decreases |a|
  {
    if |a| > 0 && a[0] == b[0] && b[0] == c[0] {
      LessTransitive(a[1..], b[1..], c[1..]);
    }
  }

  /** Any two different strings are ordered one way or the other. */
  lemma {:induction false} LessTotal(a: string, b: string)
    ensures a == b || Less(a, b) || Less(b, a)
    decreases |a|
  {
    if |a| > 0 && |b| > 0 && a[0] == b[0] {
      LessTotal(a[1..], b[1..]);
      if a[1..] == b[1..] {
        assert a == [a[0]] + a[1..] && b == [b[0]] + b[1..];
      }
    }
  }

  /** Every earlier element sorts strictly before every later one. */
  predicate StrictlySorted(s: seq<string>) {
    forall i, j :: 0 <= i < j < |s| ==> Less(s[i], s[j])
  }

  /** Ordered neighbours make a strictly sorted sequence. */
  lemma {:induction false} SortedFromNeighbours(s: seq<string>)
    requires forall i :: 0 < i < |s| ==> Less(s[i - 1], s[i])
    ensures StrictlySorted(s)
    decreases |s|
  {
    if |s| > 1 {
      var t := s[..|s| - 1];
      assert forall i :: 0 <= i < |t| ==> t[i] == s[i];
      SortedFromNeighbours(t);
      forall i, j | 0 <= i < j < |s| ensures Less(s[i], s[j]) {
        if j == |s| - 1 && i < j - 1 {
          assert Less(t[i], t[j - 1]);
          LessTransitive(s[i], s[j - 1], s[j]);
        } else if j < |s| - 1 {
          assert Less(t[i], t[j]);
        }
      }
    }
  }

  /** A strictly sorted sequence holds no duplicates. */
  lemma SortedIsDistinct(s: seq<string>)
    requires StrictlySorted(s)
    ensures Distinct(s)
  {
    forall i, j | 0 <= i < j < |s| ensures s[i] != s[j] {
      LessIrreflexive(s[i]);
    }
  }

  /** Two strictly sorted sequences with the same elements are the same
      sequence: sorting fixes the order of a set of strings. */
  lemma {:induction false} SortedUnique(a: seq<string>, b: seq<string>)
    requires StrictlySorted(a) && StrictlySorted(b)
    requires forall x :: x in a <==> x in b
    ensures a == b
    decreases |a|
  {
    assert |a| == 0 ==> |b| == 0 by {
      if |b| > 0 {
        assert b[0] in b;
      }
    }
    if |a| > 0 {
      assert a[0] in b;
      assert b[0] in a;
      assert a[0] == b[0] by {
        var i :| 0 <= i < |a| && a[i] == b[0];
        var j :| 0 <= j < |b| && b[j] == a[0];
        if i > 0 && j > 0 {
          assert Less(a[0], b[0]);
          LessAsymmetric(a[0], b[0]);
        }
      }
      var a', b' := a[1..], b[1..];
      forall x ensures x in a' <==> x in b' {
        if x in a' {
          var i :| 0 <= i < |a'| && a'[i] == x;
          assert Less(a[0], a[i + 1]);
          LessIrreflexive(x);
        }
        if x in b' {
          var j :| 0 <= j < |b'| && b'[j] == x;
          assert Less(b[0], b[j + 1]);
          LessIrreflexive(x);
        }
        if x in a || x in b {
          if x != a[0] {
            var i :| 0 <= i < |a| && a[i] == x;
            assert a'[i - 1] == x;
            var j :| 0 <= j < |b| && b[j] == x;
            assert b'[j - 1] == x;
          }
        }
      }
      SortedUnique(a', b');
      assert a == [a[0]] + a' && b == [b[0]] + b';
    }
  }
}
