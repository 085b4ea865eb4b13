/**
 * `Array.prototype.sort()` without a comparator on names: lexicographic order
 * of their characters, computed by insertion.
 */
module Sorting {

  /** `a` sorts before or with `b`: a prefix of it, or smaller at the first difference. */
  predicate LexLeq(a: string, b: string)
    decreases |a|
  {
    |a| == 0 || (|b| > 0 && (a[0] < b[0] || (a[0] == b[0] && LexLeq(a[1..], b[1..]))))
  }

  lemma {:induction false} LexLeqTotal(a: string, b: string)
    ensures LexLeq(a, b) || LexLeq(b, a)
    decreases |a|
  {
    if |a| > 0 && |b| > 0 && a[0] == b[0] {
      LexLeqTotal(a[1..], b[1..]);
    }
  }

  lemma {:induction false} LexLeqTransitive(a: string, b: string, c: string)
    requires LexLeq(a, b) && LexLeq(b, c)
    ensures LexLeq(a, c)
    decreases |a|
  {
    if |a| > 0 && a[0] == b[0] && b[0] == c[0] {
      LexLeqTransitive(a[1..], b[1..], c[1..]);
    }
  }

  predicate Sorted(s: seq<string>) {
    forall i, j :: 0 <= i < j < |s| ==> LexLeq(s[i], s[j])
  }

  /** Inserts `x` into a sorted sequence before the first name it sorts before or with. */
  function Insert(x: string, s: seq<string>): (r: seq<string>)
    requires Sorted(s)
    ensures Sorted(r)
    ensures multiset(r) == multiset(s) + multiset{x}
  {
    if |s| == 0 then [x]
    else if LexLeq(x, s[0]) then
      assert forall j :: 0 <= j < |s| ==> LexLeq(x, s[j]) by {
        forall j | 0 <= j < |s| ensures LexLeq(x, s[j]) {
          if j > 0 {
            LexLeqTransitive(x, s[0], s[j]);
          }
        }
      }
      [x] + s
    else
      var rest := Insert(x, s[1..]);
      LexLeqTotal(x, s[0]);
      assert forall k :: 0 <= k < |rest| ==> LexLeq(s[0], rest[k]) by {
        forall k | 0 <= k < |rest| ensures LexLeq(s[0], rest[k]) {
          assert rest[k] in multiset(rest);
          assert rest[k] == x || rest[k] in s[1..];
        }
      }
      assert s == [s[0]] + s[1..];
      [s[0]] + rest
  }

  /** `names.sort()`: a sorted rearrangement of the names. */
  function SortNames(names: seq<string>): (r: seq<string>)
    ensures Sorted(r)
    ensures multiset(r) == multiset(names)
  {
    if |names| == 0 then []
    else
      assert names == [names[0]] + names[1..];
      Insert(names[0], SortNames(names[1..]))
  }

  // ---------------------------------------------------------------------------
  // Properties

  /** A sorted sequence is left as it is. */
  lemma {:induction false} SortSorted(names: seq<string>)
    requires Sorted(names)
    ensures SortNames(names) == names
  {
    if |names| > 0 {
      SortSorted(names[1..]);
      assert names == [names[0]] + names[1..];
      if |names| > 1 {
        assert LexLeq(names[0], names[1]);
      }
    }
  }

  /** Sorting twice gives what sorting once gives. */
  lemma SortIdempotent(names: seq<string>)
    ensures SortNames(SortNames(names)) == SortNames(names)
  {
    SortSorted(SortNames(names));
  }
}
