/**
 * The review filters of the collector's viewer: the "all fives" test and the
 * sorted list of distinct girl names. Strings are ordered character by
 * character, a proper prefix first, as the default Array.prototype.sort
 * compares them.
 */
module ReviewFilter {
  import opened Strings
  import opened ReviewTypes

  /** isPerfectScore: every one of the five sub-scores equals 5 (the total score plays no part). */
  predicate IsPerfectScore(review: ReviewData) {
    review.scores.girl == 5.0 && review.scores.play == 5.0 && review.scores.price == 5.0
    && review.scores.staff == 5.0 && review.scores.photo == 5.0
  }

  /** A review is perfect exactly when each sub-score, whichever field it is, is 5. */
  lemma PerfectScoreIff(review: ReviewData)
    ensures IsPerfectScore(review) <==> forall f :: FieldValue(review.scores, f) == 5.0
  {
    if forall f :: FieldValue(review.scores, f) == 5.0 {
      assert FieldValue(review.scores, Girl) == 5.0;
      assert FieldValue(review.scores, Play) == 5.0;
      assert FieldValue(review.scores, Price) == 5.0;
      assert FieldValue(review.scores, Staff) == 5.0;
      assert FieldValue(review.scores, Photo) == 5.0;
    }
  }

  // ---------------------------------------------------------------------------
  // String order
  // ---------------------------------------------------------------------------

  /** `a` sorts strictly before `b`: at the first difference its character is smaller, or it is a proper prefix. */
  predicate Less(a: string, b: string)
    decreases |a|
  {
    if a == [] then b != []
    else if b == [] then false
    else a[0] < b[0] || (a[0] == b[0] && Less(a[1..], b[1..]))
  }

  predicate LessEq(a: string, b: string) {
    a == b || Less(a, b)
  }

  lemma {:induction false} LessIrreflexive(a: string)
    ensures !Less(a, a)
    decreases |a|
  {
    if a != [] {
      LessIrreflexive(a[1..]);
    }
  }

  lemma {:induction false} LessTransitive(a: string, b: string, c: string)
    requires Less(a, b) && Less(b, c)
    ensures Less(a, c)
    decreases |a|
  {
    if a != [] && a[0] == b[0] && b[0] == c[0] {
      LessTransitive(a[1..], b[1..], c[1..]);
    }
  }

  /** Of two different strings, one sorts before the other, and never both. */
  lemma {:induction false} LessTotal(a: string, b: string)
    ensures a != b ==> Less(a, b) || Less(b, a)
    ensures !(Less(a, b) && Less(b, a))
    decreases |a|
  {
    if a != [] && b != [] && a[0] == b[0] {
      LessTotal(a[1..], b[1..]);
      if a != b {
        assert a == [a[0]] + a[1..] && b == [b[0]] + b[1..];
      }
    }
  }

  lemma LessEqTransitive(a: string, b: string, c: string)
    requires LessEq(a, b) && LessEq(b, c)
    ensures LessEq(a, c)
  {
    if a != b && b != c {
      LessTransitive(a, b, c);
    }
  }

  predicate Sorted(xs: seq<string>) {
    forall i, j :: 0 <= i < j < |xs| ==> LessEq(xs[i], xs[j])
  }

  predicate StrictlySorted(xs: seq<string>) {
    forall i, j :: 0 <= i < j < |xs| ==> Less(xs[i], xs[j])
  }

  // ---------------------------------------------------------------------------
  // new Set(names), then Array.from(...).sort()
  // ---------------------------------------------------------------------------

  /** The values of `new Set(xs)` in insertion order: each name at its first occurrence. */
  function Distinct(xs: seq<string>): (r: seq<string>)
    ensures NoDuplicates(r)
    ensures forall x :: x in r <==> x in xs
    decreases |xs|
  {
    if xs == [] then []
    else
      var d := Distinct(xs[..|xs| - 1]);
      var last := xs[|xs| - 1];
      assert xs == xs[..|xs| - 1] + [last];
      if last in d then d else d + [last]
  }

  /** Inserts `x` in front of the first element it does not sort after. */
  function Insert(x: string, xs: seq<string>): (r: seq<string>)
    ensures multiset(r) == multiset(xs) + multiset{x}
    decreases |xs|
  {
    if xs == [] then [x]
    else if LessEq(x, xs[0]) then [x] + xs
    else
      assert xs == [xs[0]] + xs[1..];
      [xs[0]] + Insert(x, xs[1..])
  }

  /** Sorting by repeated insertion: a reference sort for the default string order. */
  function SortStrings(xs: seq<string>): (r: seq<string>)
    ensures multiset(r) == multiset(xs)
    decreases |xs|
  {
    if xs == [] then []
    else
      assert xs == [xs[0]] + xs[1..];
      Insert(xs[0], SortStrings(xs[1..]))
  }

  lemma {:induction false} InsertSorted(x: string, xs: seq<string>)
    requires Sorted(xs)
    ensures Sorted(Insert(x, xs))
    decreases |xs|
  {
    var r := Insert(x, xs);
    if xs == [] {
    } else if LessEq(x, xs[0]) {
      forall i, j | 0 <= i < j < |r| ensures LessEq(r[i], r[j]) {
        if i == 0 && j > 1 {
          LessEqTransitive(x, xs[0], xs[j - 1]);
        }
      }
    } else {
      InsertSorted(x, xs[1..]);
      InsertAfterHead(x, xs);
    }
  }

  /** Inserting past the head keeps the head in front of everything inserted after it. */
  lemma InsertAfterHead(x: string, xs: seq<string>)
    requires Sorted(xs) && xs != [] && !LessEq(x, xs[0])
    requires Sorted(Insert(x, xs[1..]))
    ensures Sorted(Insert(x, xs))
  {
    LessTotal(x, xs[0]);
    var t := Insert(x, xs[1..]);
    forall k | 0 <= k < |xs[1..]| ensures LessEq(xs[0], xs[1..][k]) {
      assert xs[1..][k] == xs[k + 1];
    }
    InsertLowerBound(x, xs[1..], xs[0]);
    var r := Insert(x, xs);
    assert r == [xs[0]] + t;
    forall i, j | 0 <= i < j < |r| ensures LessEq(r[i], r[j]) {
      if i > 0 {
        assert r[i] == t[i - 1] && r[j] == t[j - 1];
      } else {
        assert r[j] == t[j - 1];
      }
    }
  }

  /** A lower bound of `x` and of every element of `xs` bounds every element after the insertion. */
  lemma {:induction false} InsertLowerBound(x: string, xs: seq<string>, y: string)
    requires LessEq(y, x) && forall k :: 0 <= k < |xs| ==> LessEq(y, xs[k])
    ensures forall j :: 0 <= j < |Insert(x, xs)| ==> LessEq(y, Insert(x, xs)[j])
    decreases |xs|
  {
    var r := Insert(x, xs);
    if xs == [] {
    } else if LessEq(x, xs[0]) {
      forall j | 0 <= j < |r| ensures LessEq(y, r[j]) {
        if j > 0 {
          assert r[j] == xs[j - 1];
        }
      }
    } else {
      forall k | 0 <= k < |xs[1..]| ensures LessEq(y, xs[1..][k]) {
        assert xs[1..][k] == xs[k + 1];
      }
      InsertLowerBound(x, xs[1..], y);
      var t := Insert(x, xs[1..]);
      assert r == [xs[0]] + t;
      forall j | 0 <= j < |r| ensures LessEq(y, r[j]) {
        if j > 0 {
          assert r[j] == t[j - 1];
        }
      }
    }
  }

  lemma {:induction false} SortStringsSorted(xs: seq<string>)
    ensures Sorted(SortStrings(xs))
    decreases |xs|
  {
    if xs != [] {
      SortStringsSorted(xs[1..]);
      InsertSorted(xs[0], SortStrings(xs[1..]));
    }
  }

  /** getUniqueGirlNames: the distinct girl names, sorted. */
  function UniqueGirlNames(reviews: seq<ReviewData>): seq<string> {
    SortStrings(Distinct(seq(|reviews|, i requires 0 <= i < |reviews| => reviews[i].girlName)))
  }

  /** In a sequence without duplicates every element occurs once. */
  lemma {:induction false} NoDuplicatesCount(xs: seq<string>, x: string)
    requires NoDuplicates(xs)
    ensures multiset(xs)[x] <= 1
    decreases |xs|
  {
    if xs != [] {
      var init := xs[..|xs| - 1];
      assert xs == init + [xs[|xs| - 1]];
      NoDuplicatesCount(init, x);
      if xs[|xs| - 1] == x {
        assert x !in init by {
          forall k | 0 <= k < |init| ensures init[k] != x {
            assert init[k] == xs[k];
          }
        }
      }
    }
  }

  /** An element that occurs at two positions is counted at least twice. */
  lemma RepeatCount(ys: seq<string>, i: nat, j: nat)
    requires i < j < |ys|
    ensures ys[i] == ys[j] ==> multiset(ys)[ys[i]] >= 2
  {
    assert ys == ys[..j] + [ys[j]] + ys[j + 1..];
    assert ys[..j][i] == ys[i];
  }

  /** A rearrangement of a sequence without duplicates has none either. */
  lemma NoDuplicatesMultiset(xs: seq<string>, ys: seq<string>)
    requires NoDuplicates(xs) && multiset(ys) == multiset(xs)
    ensures NoDuplicates(ys)
  {
    forall i, j | 0 <= i < j < |ys| ensures ys[i] != ys[j] {
      NoDuplicatesCount(xs, ys[i]);
      RepeatCount(ys, i, j);
    }
  }

  /** Some review carries the girl name `name`. */
  predicate NameOccurs(reviews: seq<ReviewData>, name: string) {
    exists r :: r in reviews && r.girlName == name
  }

  /**
   * The unique names are strictly ascending (hence without repeats), and a
   * name is among them exactly when some review carries it.
   */
  lemma UniqueGirlNamesSpec(reviews: seq<ReviewData>)
    ensures StrictlySorted(UniqueGirlNames(reviews))
    ensures forall name :: name in UniqueGirlNames(reviews) <==> NameOccurs(reviews, name)
  {
    var names := seq(|reviews|, i requires 0 <= i < |reviews| => reviews[i].girlName);
    var d := Distinct(names);
    var r := SortStrings(d);
    SortStringsSorted(d);
    NoDuplicatesMultiset(d, r);
    forall name ensures name in r <==> NameOccurs(reviews, name) {
      assert name in r <==> name in multiset(d);
      if name in names {
        var i :| 0 <= i < |names| && names[i] == name;
        assert reviews[i] in reviews;
      }
      if rv :| rv in reviews && rv.girlName == name {
        var i :| 0 <= i < |reviews| && reviews[i] == rv;
        assert names[i] == name;
      }
    }
  }

  lemma HeadIn(s: seq<string>)
    ensures s != [] ==> s[0] in s
  {
  }

  /** Two strictly ascending sequences with the same elements are the same sequence. */
  lemma {:induction false} StrictlySortedUnique(a: seq<string>, b: seq<string>)
    requires StrictlySorted(a) && StrictlySorted(b)
    requires forall x :: x in a <==> x in b
    ensures a == b
    decreases |a|
  {
    if a == [] || b == [] {
      HeadIn(a);
      HeadIn(b);
      if a != b {
        assert false;
      }
    } else {
      assert a[0] in b;
      var m :| 0 <= m < |b| && b[m] == a[0];
      assert LessEq(b[0], a[0]);
      assert b[0] in a;
      var k :| 0 <= k < |a| && a[k] == b[0];
      assert LessEq(a[0], b[0]);
      LessTotal(a[0], b[0]);
      assert a[0] == b[0];
      forall x ensures x in a[1..] <==> x in b[1..] {
        if x in a[1..] {
          var k :| 0 <= k < |a| - 1 && a[1..][k] == x;
          assert Less(a[0], x);
          LessIrreflexive(x);
          assert x in b && x != b[0];
          var m :| 0 <= m < |b| && b[m] == x;
          assert b[1..][m - 1] == x;
        }
        if x in b[1..] {
          var k :| 0 <= k < |b| - 1 && b[1..][k] == x;
          assert Less(b[0], x);
          LessIrreflexive(x);
          assert x in a && x != a[0];
          var m :| 0 <= m < |a| && a[m] == x;
          assert a[1..][m - 1] == x;
        }
      }
      StrictlySortedUnique(a[1..], b[1..]);
      assert a == [a[0]] + a[1..] && b == [b[0]] + b[1..];
    }
  }

  /**
   * The list depends only on which names occur: reviews in another order, or
   * with other repeats of the same names, give the same list.
   */
  lemma UniqueGirlNamesOrderFree(r1: seq<ReviewData>, r2: seq<ReviewData>)
    requires forall name :: NameOccurs(r1, name) <==> NameOccurs(r2, name)
    ensures UniqueGirlNames(r1) == UniqueGirlNames(r2)
  {
    UniqueGirlNamesSpec(r1);
    UniqueGirlNamesSpec(r2);
    StrictlySortedUnique(UniqueGirlNames(r1), UniqueGirlNames(r2));
  }
}
