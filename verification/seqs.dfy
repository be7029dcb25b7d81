/** Generic sequence combinators shared by the pipeline's list-building loops. */
module Seqs {
  import opened Wrappers

  /** `[y for x in xs for y in f(x)]`. */
  function FlatMap<T, U>(f: T -> seq<U>, xs: seq<T>): seq<U>
    decreases |xs|
  {
    if |xs| == 0 then [] else f(xs[0]) + FlatMap(f, xs[1..])
  }

  /** Concatenation regroups freely. */
  lemma AppendAssoc<T>(a: seq<T>, b: seq<T>, c: seq<T>)
    ensures a + b + c == a + (b + c)
  {
  }

  /** A sequence is the prefix of any extension of it. */
  lemma AppendPrefix<T>(a: seq<T>, b: seq<T>)
    ensures (a + b)[..|a|] == a
  {
  }

  /** Being a prefix is transitive. */
  lemma PrefixTrans<T>(a: seq<T>, b: seq<T>, c: seq<T>)
    requires |a| <= |b| <= |c| && b[..|a|] == a && c[..|b|] == b
    ensures c[..|a|] == a
  {
    assert c[..|a|] == c[..|b|][..|a|];
  }

  lemma {:induction false} FlatMapAppend<T, U>(f: T -> seq<U>, xs: seq<T>, ys: seq<T>)
    ensures FlatMap(f, xs + ys) == FlatMap(f, xs) + FlatMap(f, ys)
    decreases |xs|
  {
    if |xs| == 0 {
      assert xs + ys == ys;
    } else {
      assert (xs + ys)[0] == xs[0];
      assert (xs + ys)[1..] == xs[1..] + ys;
      FlatMapAppend(f, xs[1..], ys);
    }
  }

  /** What every piece satisfies, the whole satisfies. */
  lemma {:induction false} FlatMapAll<T, U>(f: T -> seq<U>, xs: seq<T>, P: U -> bool)
    requires forall k, i :: 0 <= k < |xs| && 0 <= i < |f(xs[k])| ==> P(f(xs[k])[i])
    ensures forall i :: 0 <= i < |FlatMap(f, xs)| ==> P(FlatMap(f, xs)[i])
    decreases |xs|
  {
    if |xs| > 0 {
      FlatMapAll(f, xs[1..], P);
      var h := f(xs[0]);
      var t := FlatMap(f, xs[1..]);
      forall i | 0 <= i < |h + t| ensures P((h + t)[i]) {
        if i < |h| {
          assert (h + t)[i] == f(xs[0])[i];
        } else {
          assert (h + t)[i] == t[i - |h|];
        }
      }
    }
  }

  /** `[f(x) for x in xs]` where each `f(x)` may raise: the first exception
      propagates, otherwise every value is kept in order. */
  function MapAll<T, U>(f: T -> Outcome<U>, xs: seq<T>): (r: Outcome<seq<U>>)
    ensures r.Ok? <==> forall i :: 0 <= i < |xs| ==> f(xs[i]).Ok?
    ensures r.Ok? ==> |r.value| == |xs| && forall i :: 0 <= i < |xs| ==> r.value[i] == f(xs[i]).value
    decreases |xs|
  {
    if |xs| == 0 then Ok([])
    else
      match f(xs[0])
      case Raised => Raised
      case Ok(a) =>
        match MapAll(f, xs[1..])
        case Raised => Raised
        case Ok(rest) =>
          assert forall i :: 1 <= i < |xs| ==> xs[i] == xs[1..][i - 1];
          Ok([a] + rest)
  }

  lemma MapAllTwo<T, U>(f: T -> Outcome<U>, a: T, b: T)
    requires f(a).Ok? && f(b).Ok?
    ensures MapAll(f, [a, b]) == Ok([f(a).value, f(b).value])
  {
    var r := MapAll(f, [a, b]);
    assert r.Ok?;
    assert r.value == [f(a).value, f(b).value];
  }

  lemma MapAllOne<T, U>(f: T -> Outcome<U>, a: T)
    requires f(a).Ok?
    ensures MapAll(f, [a]) == Ok([f(a).value])
  {
    var r := MapAll(f, [a]);
    assert r.Ok?;
    assert r.value == [f(a).value];
  }

  /** The positions of `p + [v] + q` against those of `p + q`. */
  lemma InsertAt<T>(p: seq<T>, v: T, q: seq<T>)
    ensures var l := p + [v] + q;
      && |l| == |p + q| + 1
      && (forall i :: 0 <= i < |p| ==> l[i] == (p + q)[i])
      && l[|p|] == v
      && (forall i :: |p| < i < |l| ==> l[i] == (p + q)[i - 1])
  {
  }

  /** When the shorter list maps, so does the one with the inserted
      element, and its values are the shorter list's with `f(c)` inserted. */
  lemma MapAllInsertValue<T, U>(f: T -> Outcome<U>, xs: seq<T>, c: T, ys: seq<T>)
    requires f(c).Ok? && MapAll(f, xs + ys).Ok?
    ensures MapAll(f, xs + [c] + ys).Ok?
    ensures MapAll(f, xs + [c] + ys).value
      == MapAll(f, xs + ys).value[..|xs|] + [f(c).value] + MapAll(f, xs + ys).value[|xs|..]
  {
    var l := xs + [c] + ys;
    var s := xs + ys;
    InsertAt(xs, c, ys);
    forall i | 0 <= i < |l| ensures f(l[i]).Ok? {
      if i > |xs| { assert l[i] == s[i - 1]; }
    }
    var a := MapAll(f, l).value;
    var b := MapAll(f, s).value;
    var w := b[..|xs|] + [f(c).value] + b[|xs|..];
    InsertAt(b[..|xs|], f(c).value, b[|xs|..]);
    assert b[..|xs|] + b[|xs|..] == b;
    forall i | 0 <= i < |a| ensures a[i] == w[i] {
      if i < |xs| {
        assert l[i] == s[i];
      } else if i > |xs| {
        assert l[i] == s[i - 1];
      }
    }
  }

  /** Inserting an element that does not raise inserts its value at the
      same place and changes nothing else. */
  lemma MapAllInsert<T, U>(f: T -> Outcome<U>, xs: seq<T>, c: T, ys: seq<T>)
    requires f(c).Ok?
    ensures MapAll(f, xs + [c] + ys).Ok? <==> MapAll(f, xs + ys).Ok?
    ensures MapAll(f, xs + ys).Ok? ==>
      MapAll(f, xs + [c] + ys).value
        == MapAll(f, xs + ys).value[..|xs|] + [f(c).value] + MapAll(f, xs + ys).value[|xs|..]
  {
    var l := xs + [c] + ys;
    var s := xs + ys;
    if MapAll(f, s).Ok? {
      MapAllInsertValue(f, xs, c, ys);
    } else {
      InsertAt(xs, c, ys);
      var k :| 0 <= k < |s| && !f(s[k]).Ok?;
      if k < |xs| { assert l[k] == s[k]; } else { assert l[k + 1] == s[k]; }
    }
  }

  /** An element of a flattened list comes from exactly the pieces that hold it. */
  lemma {:induction false} FlatMapIn<T, U>(f: T -> seq<U>, xs: seq<T>, y: U)
    ensures y in FlatMap(f, xs) <==> exists k :: 0 <= k < |xs| && y in f(xs[k])
    decreases |xs|
  {
    if |xs| > 0 {
      FlatMapIn(f, xs[1..], y);
      if exists k :: 0 <= k < |xs[1..]| && y in f(xs[1..][k]) {
        var k :| 0 <= k < |xs[1..]| && y in f(xs[1..][k]);
        assert xs[1..][k] == xs[k + 1];
      }
      if exists k :: 0 <= k < |xs| && y in f(xs[k]) {
        var k :| 0 <= k < |xs| && y in f(xs[k]);
        if k > 0 {
          assert xs[k] == xs[1..][k - 1];
        }
      }
    }
  }

  /** The position of the first element satisfying `p`, if any: the
      first match wins. */
  function Find<T>(xs: seq<T>, p: T -> bool): (r: Option<nat>)
    ensures r.Some? ==> r.value < |xs| && p(xs[r.value]) && forall j :: 0 <= j < r.value ==> !p(xs[j])
    ensures r.None? <==> forall j :: 0 <= j < |xs| ==> !p(xs[j])
    decreases |xs|
  {
    if |xs| == 0 then None
    else if p(xs[0]) then Some(0)
    else
      match Find(xs[1..], p)
      case None =>
        assert forall j :: 1 <= j < |xs| ==> xs[j] == xs[1..][j - 1];
        None
      case Some(i) =>
        assert forall j :: 1 <= j <= i ==> xs[j] == xs[1..][j - 1];
        Some(i + 1)
  }

  /** `[x for x in xs if p(x)]`. */
  function Filter<T>(xs: seq<T>, p: T -> bool): (r: seq<T>)
    ensures |r| <= |xs|
    ensures forall i :: 0 <= i < |r| ==> p(r[i])
    decreases |xs|
  {
    if |xs| == 0 then []
    else Filter(xs[..|xs| - 1], p) + (if p(xs[|xs| - 1]) then [xs[|xs| - 1]] else [])
  }

  /** Filtering by a predicate and by its negation splits a list: every
      element lands in exactly one of the two parts. */
  lemma {:induction false} FilterSplits<T>(xs: seq<T>, p: T -> bool, q: T -> bool)
    requires forall x :: q(x) == !p(x)
    ensures multiset(Filter(xs, p)) + multiset(Filter(xs, q)) == multiset(xs)
    decreases |xs|
  {
    if |xs| > 0 {
      var init := xs[..|xs| - 1];
      FilterSplits(init, p, q);
      assert xs == init + [xs[|xs| - 1]];
    }
  }

  /** An element survives filtering exactly when it is in the list and
      satisfies the predicate. */
  lemma {:induction false} FilterMember<T>(xs: seq<T>, p: T -> bool, x: T)
    ensures x in Filter(xs, p) <==> x in xs && p(x)
    decreases |xs|
  {
    if |xs| > 0 {
      var init := xs[..|xs| - 1];
      FilterMember(init, p, x);
      assert xs == init + [xs[|xs| - 1]];
    }
  }

  /** Filtering a list whose every element satisfies the predicate changes
      nothing. */
  lemma {:induction false} FilterAll<T>(xs: seq<T>, p: T -> bool)
    requires forall i :: 0 <= i < |xs| ==> p(xs[i])
    ensures Filter(xs, p) == xs
    decreases |xs|
  {
    if |xs| > 0 {
      var init := xs[..|xs| - 1];
      FilterAll(init, p);
      assert xs == init + [xs[|xs| - 1]];
    }
  }

  /** `a` is `b` with some elements dropped and the rest kept in order. */
  predicate IsSubseq<T(==)>(a: seq<T>, b: seq<T>)
    decreases |b|
  {
    |a| == 0 ||
    (|b| > 0 &&
      ((a[|a| - 1] == b[|b| - 1] && IsSubseq(a[..|a| - 1], b[..|b| - 1]))
       || IsSubseq(a, b[..|b| - 1])))
  }

  /** Filtering keeps the surviving elements in their original order. */
  lemma {:induction false} FilterSubseq<T>(xs: seq<T>, p: T -> bool)
    ensures IsSubseq(Filter(xs, p), xs)
    decreases |xs|
  {
    if |xs| > 0 {
      var init := xs[..|xs| - 1];
      var x := xs[|xs| - 1];
      FilterSubseq(init, p);
      var f := Filter(init, p);
      if p(x) {
        assert (f + [x])[..|f|] == f;
      } else {
        assert f + [] == f;
      }
    }
  }
}
