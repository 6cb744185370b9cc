/** `merge.StringSlices`: the union of two string lists, each distinct
    value once, sorted with Go's string order. A nil list is the empty
    sequence; the result is never nil (Dafny sequences cannot be). */
module MergeStrings {
  import opened Collections
  import opened Lex

  /** Puts `x` into its place in a strictly sorted sequence, unless it is
      already there. */
  function Insert(s: seq<string>, x: string): (r: seq<string>)
    requires StrictlySorted(s)
    ensures StrictlySorted(r)
    ensures forall y :: y in r <==> y in s || y == x
    decreases |s|
  {
    if |s| == 0 then [x]
    else if x == s[0] then s
    else if Less(x, s[0]) then
      assert StrictlySorted([x] + s) by {
        forall k | 0 < k < |s| {
          LessTransitive(x, s[0], s[k]);
        }
      }
      [x] + s
    else
      LessTotal(x, s[0]);
      var tail := Insert(s[1..], x);
      assert forall y :: y in s[1..] ==> Less(s[0], y);
      [s[0]] + tail
  }

  /** The distinct values of `xs`, sorted. */
  function SortedSet(xs: seq<string>): (r: seq<string>)
    ensures StrictlySorted(r)
    ensures forall y :: y in r <==> y in xs
    decreases |xs|
  {
    if |xs| == 0 then []
    else
      var r := Insert(SortedSet(xs[..|xs| - 1]), xs[|xs| - 1]);
      assert xs == xs[..|xs| - 1] + [xs[|xs| - 1]];
      r
  }

  /** The merged list: every value of either list exactly once, in
      ascending order. */
  function StringSlices(original: seq<string>, override: seq<string>): (r: seq<string>)
    ensures StrictlySorted(r)
    ensures forall y :: y in r <==> y in original || y in override
  {
    SortedSet(original + override)
  }

  /** The result is THE sorted union: any strictly sorted list holding
      exactly the values of the two inputs is equal to it. */
  lemma StringSlicesIsSortedUnion(original: seq<string>, override: seq<string>, u: seq<string>)
    requires StrictlySorted(u)
    requires forall y :: y in u <==> y in original || y in override
    ensures StringSlices(original, override) == u
  {
    SortedUnique(StringSlices(original, override), u);
  }

  /** No value appears twice in the merged list. */
  lemma StringSlicesDistinct(original: seq<string>, override: seq<string>)
    ensures Distinct(StringSlices(original, override))
  {
    SortedIsDistinct(StringSlices(original, override));
  }

  /** The merged list is as long as the number of distinct values across
      both inputs. */
  lemma StringSlicesLength(original: seq<string>, override: seq<string>)
    ensures |StringSlices(original, override)| == |Elems(original) + Elems(override)|
  {
    var r := StringSlices(original, override);
    StringSlicesDistinct(original, override);
    DistinctCardinality(r);
    assert Elems(r) == Elems(original) + Elems(override);
  }

  /** Which list is the default does not matter to the result. */
  lemma StringSlicesCommutative(a: seq<string>, b: seq<string>)
    ensures StringSlices(a, b) == StringSlices(b, a)
  {
    StringSlicesIsSortedUnion(a, b, StringSlices(b, a));
  }

  /** Merging a list with nothing (or with itself) returns it unchanged
      exactly when it is already strictly sorted. */
  lemma StringSlicesFixpoint(s: seq<string>)
    ensures StringSlices(s, []) == s <==> StrictlySorted(s)
    ensures StringSlices(s, s) == s <==> StrictlySorted(s)
  {
    if StrictlySorted(s) {
      StringSlicesIsSortedUnion(s, [], s);
      StringSlicesIsSortedUnion(s, s, s);
    }
  }

  /** Applying the same override a second time changes nothing. */
  lemma StringSlicesOverrideIdempotent(original: seq<string>, override: seq<string>)
    ensures StringSlices(StringSlices(original, override), override) == StringSlices(original, override)
  {
    var r := StringSlices(original, override);
    StringSlicesIsSortedUnion(r, override, r);
  }

  /** Merging in steps gives the same result however the steps are grouped. */
  lemma StringSlicesAssociative(a: seq<string>, b: seq<string>, c: seq<string>)
    ensures StringSlices(StringSlices(a, b), c) == StringSlices(a, StringSlices(b, c))
  {
    StringSlicesIsSortedUnion(a, StringSlices(b, c), StringSlices(StringSlices(a, b), c));
  }
}
