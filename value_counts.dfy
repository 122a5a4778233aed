/**
 * pandas' `Series.value_counts()` as applied to the "Bairro" column: one entry
 * per distinct value with the number of its occurrences, listed by count from
 * the largest down.
 */
module ValueCounts {

  /** The values of the entries, in order. */
  function KeysOf(t: seq<(string, nat)>): (ks: seq<string>)
    ensures |ks| == |t|
    ensures forall i :: 0 <= i < |t| ==> ks[i] == t[i].0
  {
    seq(|t|, i requires 0 <= i < |t| => t[i].0)
  }

  /** Sum of the counts. */
  function Total(t: seq<(string, nat)>): nat {
    if t == [] then 0 else t[0].1 + Total(t[1..])
  }

  /** No value has two entries. */
  ghost predicate DistinctKeys(t: seq<(string, nat)>) {
    forall i, j :: 0 <= i < j < |t| ==> t[i].0 != t[j].0
  }

  /** Counts never increase along the list. */
  ghost predicate NonIncreasing(t: seq<(string, nat)>) {
    forall i, j :: 0 <= i < j < |t| ==> t[i].1 >= t[j].1
  }

  /** No count exceeds `b`. */
  ghost predicate AtMost(t: seq<(string, nat)>, b: nat) {
    forall i :: 0 <= i < |t| ==> t[i].1 <= b
  }

  /** In a list without repeated values, the first value does not reappear. */
  lemma HeadNotInTail(s: seq<(string, nat)>)
    requires s != [] && DistinctKeys(s)
    ensures s[0].0 !in KeysOf(s[1..])
  {
    forall k | 0 <= k < |s| - 1 ensures KeysOf(s[1..])[k] != s[0].0 {
      assert KeysOf(s[1..])[k] == s[k + 1].0;
    }
  }

  /** The values of a non-empty list: its first value, then those of its tail. */
  lemma KeysOfCons(t: seq<(string, nat)>)
    requires t != []
    ensures KeysOf(t) == [t[0].0] + KeysOf(t[1..])
  {
  }

  /** The tail of a list without repeated values has none either. */
  lemma DistinctTail(t: seq<(string, nat)>)
    requires t != [] && DistinctKeys(t)
    ensures DistinctKeys(t[1..])
  {
  }

  // ---------------------------------------------------------------------------
  // Tally: occurrences in order of first occurrence

  /** Count one more occurrence of `x`: bump its entry, or add `(x, 1)` at the end. */
  function Bump(t: seq<(string, nat)>, x: string): (r: seq<(string, nat)>)
    requires DistinctKeys(t)
    ensures x in KeysOf(t) ==> |r| == |t|
    ensures x !in KeysOf(t) ==> |r| == |t| + 1 && r[|t|] == (x, 1)
    ensures forall i :: 0 <= i < |t| ==> r[i].0 == t[i].0 && r[i].1 == t[i].1 + (if t[i].0 == x then 1 else 0)
  {
    if t == [] then [(x, 1)]
    else if t[0].0 == x then
      HeadNotInTail(t);
      [(x, t[0].1 + 1)] + t[1..]
    else
      KeysOfCons(t);
      DistinctTail(t);
      [t[0]] + Bump(t[1..], x)
  }

  /** Bumping keeps the values distinct. */
  lemma BumpDistinct(t: seq<(string, nat)>, x: string)
    requires DistinctKeys(t)
    ensures DistinctKeys(Bump(t, x))
  {
    var r := Bump(t, x);
    forall i, j | 0 <= i < j < |r| ensures r[i].0 != r[j].0 {
      if j == |t| {
        assert KeysOf(t)[i] == t[i].0;
      }
    }
  }

  /** Bumping adds one to the total. */
  lemma {:induction false} BumpTotal(t: seq<(string, nat)>, x: string)
    requires DistinctKeys(t)
    ensures Total(Bump(t, x)) == Total(t) + 1
  {
    if t != [] && t[0].0 != x {
      BumpTotal(t[1..], x);
    }
  }

  /** After bumping, the values are the old values plus `x`. */
  lemma BumpKeys(t: seq<(string, nat)>, x: string)
    requires DistinctKeys(t)
    ensures forall k :: k in KeysOf(Bump(t, x)) <==> k in KeysOf(t) || k == x
  {
    var r := Bump(t, x);
    if x in KeysOf(t) {
      assert KeysOf(r) == KeysOf(t);
    } else {
      assert KeysOf(r) == KeysOf(t) + [x];
    }
  }

  /** Occurrences of each value of `xs`, in order of first occurrence. */
  function Tally(xs: seq<string>): (t: seq<(string, nat)>)
    ensures DistinctKeys(t)
    ensures Total(t) == |xs|
  {
    if xs == [] then []
    else
      var t0, x := Tally(xs[..|xs| - 1]), xs[|xs| - 1];
      BumpDistinct(t0, x);
      BumpTotal(t0, x);
      Bump(t0, x)
  }

  /** The tally has an entry for exactly the values occurring in `xs`. */
  lemma {:induction false} TallyKeys(xs: seq<string>)
    ensures forall x :: x in KeysOf(Tally(xs)) <==> x in xs
  {
    if xs != [] {
      var ys, x := xs[..|xs| - 1], xs[|xs| - 1];
      assert xs == ys + [x];
      TallyKeys(ys);
      BumpKeys(Tally(ys), x);
    }
  }

  /** Each entry of the tally carries the number of occurrences of its value. */
  lemma {:induction false} TallyCounts(xs: seq<string>)
    ensures forall i :: 0 <= i < |Tally(xs)| ==> Tally(xs)[i].1 == multiset(xs)[Tally(xs)[i].0]
  {
    if xs != [] {
      var ys, x := xs[..|xs| - 1], xs[|xs| - 1];
      assert xs == ys + [x];
      TallyCounts(ys);
      TallyKeys(ys);
      var t0, t := Tally(ys), Tally(xs);
      forall i | 0 <= i < |t| ensures t[i].1 == multiset(xs)[t[i].0] {
        if i == |t0| {
          assert x !in ys;
        }
      }
    }
  }

  // ---------------------------------------------------------------------------
  // Sorting by count, largest first

  /** Insert an entry before the first entry with a smaller or equal count. */
  function Insert(p: (string, nat), s: seq<(string, nat)>): (r: seq<(string, nat)>)
    ensures |r| == |s| + 1
  {
    if s == [] || p.1 >= s[0].1 then [p] + s else [s[0]] + Insert(p, s[1..])
  }

  lemma {:induction false} InsertPermutes(p: (string, nat), s: seq<(string, nat)>)
    ensures multiset(Insert(p, s)) == multiset(s) + multiset{p}
    ensures Total(Insert(p, s)) == Total(s) + p.1
  {
    if s != [] && p.1 < s[0].1 {
      InsertPermutes(p, s[1..]);
      assert s == [s[0]] + s[1..];
    }
  }

  lemma {:induction false} InsertKeys(p: (string, nat), s: seq<(string, nat)>)
    ensures forall k :: k in KeysOf(Insert(p, s)) <==> k == p.0 || k in KeysOf(s)
  {
    var r := Insert(p, s);
    if s != [] && p.1 < s[0].1 {
      var rest := Insert(p, s[1..]);
      InsertKeys(p, s[1..]);
      assert r == [s[0]] + rest;
      assert KeysOf(s) == [s[0].0] + KeysOf(s[1..]);
      assert KeysOf(r) == [s[0].0] + KeysOf(rest);
    } else {
      assert r == [p] + s;
      assert KeysOf(r) == [p.0] + KeysOf(s);
    }
  }

  lemma {:induction false} InsertAtMost(p: (string, nat), s: seq<(string, nat)>, b: nat)
    requires AtMost(s, b) && p.1 <= b
    ensures AtMost(Insert(p, s), b)
  {
    if s != [] && p.1 < s[0].1 {
      InsertAtMost(p, s[1..], b);
    }
  }

  lemma {:induction false} InsertSorted(p: (string, nat), s: seq<(string, nat)>)
    requires NonIncreasing(s)
    ensures NonIncreasing(Insert(p, s))
  {
    if s != [] && p.1 < s[0].1 {
      InsertSorted(p, s[1..]);
      InsertAtMost(p, s[1..], s[0].1);
    }
  }

  lemma {:induction false} InsertDistinct(p: (string, nat), s: seq<(string, nat)>)
    requires DistinctKeys(s) && p.0 !in KeysOf(s)
    ensures DistinctKeys(Insert(p, s))
  {
    if s != [] && p.1 < s[0].1 {
      assert KeysOf(s) == [s[0].0] + KeysOf(s[1..]);
      InsertDistinct(p, s[1..]);
      InsertKeys(p, s[1..]);
      var rest := Insert(p, s[1..]);
      assert forall j :: 0 <= j < |rest| ==> rest[j].0 != s[0].0 by {
        HeadNotInTail(s);
        forall j | 0 <= j < |rest| ensures rest[j].0 != s[0].0 {
          assert KeysOf(rest)[j] == rest[j].0;
          assert rest[j].0 in KeysOf(rest);
        }
      }
      var r := [s[0]] + rest;
      assert Insert(p, s) == r;
      forall i, j | 0 <= i < j < |r| ensures r[i].0 != r[j].0 {
        if i == 0 {
          assert r[j] == rest[j - 1];
        } else {
          assert r[i] == rest[i - 1] && r[j] == rest[j - 1];
        }
      }
    } else {
      var r := [p] + s;
      assert Insert(p, s) == r;
      forall i, j | 0 <= i < j < |r| ensures r[i].0 != r[j].0 {
        if i == 0 {
          assert r[j].0 == KeysOf(s)[j - 1];
        } else {
          assert r[i] == s[i - 1] && r[j] == s[j - 1];
        }
      }
    }
  }

  /** Insertion sort by count, largest first. */
  function SortByCount(t: seq<(string, nat)>): (r: seq<(string, nat)>)
    ensures |r| == |t|
  {
    if t == [] then [] else Insert(t[0], SortByCount(t[1..]))
  }

  /**
   * Sorting yields a permutation of the entries with the same total, ordered
   * by non-increasing count.
   */
  lemma {:induction false} SortByCountCorrect(t: seq<(string, nat)>)
    ensures multiset(SortByCount(t)) == multiset(t)
    ensures Total(SortByCount(t)) == Total(t)
    ensures NonIncreasing(SortByCount(t))
  {
    if t != [] {
      assert t == [t[0]] + t[1..];
      SortByCountCorrect(t[1..]);
      InsertPermutes(t[0], SortByCount(t[1..]));
      InsertSorted(t[0], SortByCount(t[1..]));
    }
  }

  /** Sorting keeps the set of values, and lists none twice when the input did not. */
  lemma {:induction false} SortByCountKeys(t: seq<(string, nat)>)
    ensures forall k :: k in KeysOf(SortByCount(t)) <==> k in KeysOf(t)
    ensures DistinctKeys(t) ==> DistinctKeys(SortByCount(t))
  {
    if t != [] {
      assert KeysOf(t) == [t[0].0] + KeysOf(t[1..]);
      var rest := SortByCount(t[1..]);
      SortByCountKeys(t[1..]);
      InsertKeys(t[0], rest);
      if DistinctKeys(t) {
        HeadNotInTail(t);
        InsertDistinct(t[0], rest);
      }
    }
  }

  // ---------------------------------------------------------------------------
  // value_counts

  /** `value_counts()`: the tally, sorted by count. */
  function Counts(xs: seq<string>): (r: seq<(string, nat)>)
  {
    SortByCount(Tally(xs))
  }

  /** Each entry of the result carries the number of occurrences of its value, at least 1. */
  lemma CountsEntries(xs: seq<string>)
    ensures forall i :: 0 <= i < |Counts(xs)| ==>
              Counts(xs)[i].1 == multiset(xs)[Counts(xs)[i].0] && Counts(xs)[i].1 >= 1
  {
    var t := Tally(xs);
    var r := SortByCount(t);
    TallyKeys(xs);
    TallyCounts(xs);
    SortByCountCorrect(t);
    SortByCountKeys(t);
    forall i | 0 <= i < |r| ensures r[i].1 == multiset(xs)[r[i].0] && r[i].1 >= 1 {
      assert r[i] in multiset(r);
      assert r[i] in t;
      var j :| 0 <= j < |t| && t[j] == r[i];
      assert KeysOf(t)[j] == r[i].0;
      assert r[i].0 in xs;
    }
  }

  /**
   * What `value_counts()` delivers: each distinct value once, with the number
   * of times it occurs (so at least 1); every value of `xs` listed; the counts
   * summing to |xs|; the largest count first.
   */
  lemma CountsCorrect(xs: seq<string>)
    ensures DistinctKeys(Counts(xs))
    ensures forall i :: 0 <= i < |Counts(xs)| ==>
              Counts(xs)[i].1 == multiset(xs)[Counts(xs)[i].0] && Counts(xs)[i].1 >= 1
    ensures forall x :: x in xs <==> x in KeysOf(Counts(xs))
    ensures Total(Counts(xs)) == |xs|
    ensures NonIncreasing(Counts(xs))
  {
    TallyKeys(xs);
    SortByCountCorrect(Tally(xs));
    SortByCountKeys(Tally(xs));
    CountsEntries(xs);
  }
}
