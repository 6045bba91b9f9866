/**
 * Sequences built by appending, for each element in order, the entries a function gives
 * for it: the shape of `for (const x of xs) out.push(...f(x))`.
 */
module Lists {

  function FlatMap<A, B>(xs: seq<A>, f: A -> seq<B>): seq<B> {
    if |xs| == 0 then [] else FlatMap(xs[..|xs| - 1], f) + f(xs[|xs| - 1])
  }

  lemma {:induction false} FlatMapAppend<A, B>(xs: seq<A>, ys: seq<A>, f: A -> seq<B>)
    ensures FlatMap(xs + ys, f) == FlatMap(xs, f) + FlatMap(ys, f)
    decreases |ys|
  {
    if |ys| == 0 {
      assert xs + ys == xs;
    } else {
      var ys' := ys[..|ys| - 1];
      assert (xs + ys)[..|xs + ys| - 1] == xs + ys';
      FlatMapAppend(xs, ys', f);
    }
  }

  lemma FlatMapSingle<A, B>(x: A, f: A -> seq<B>)
    ensures FlatMap([x], f) == f(x)
  {
    assert [x][..0] == [];
  }

  lemma FlatMapPair<A, B>(x: A, y: A, f: A -> seq<B>)
    ensures FlatMap([x, y], f) == f(x) + f(y)
  {
    assert [x, y][..1] == [x];
    assert [x][..0] == [];
    assert FlatMap([x], f) == f(x);
  }

  /** An element whose entries are empty can be inserted anywhere without changing the result. */
  lemma FlatMapSkip<A, B>(xs: seq<A>, x: A, ys: seq<A>, f: A -> seq<B>)
    requires f(x) == []
    ensures FlatMap(xs + [x] + ys, f) == FlatMap(xs + ys, f)
  {
    var s := xs + [x];
    assert s[..|s| - 1] == xs;
    FlatMapAppend(s, ys, f);
    FlatMapAppend(xs, ys, f);
  }

  /** Membership: `y` is in the result exactly when some element's entries hold it. */
  lemma {:induction false} FlatMapMember<A, B>(xs: seq<A>, f: A -> seq<B>, y: B)
    ensures y in FlatMap(xs, f) <==> exists k :: 0 <= k < |xs| && y in f(xs[k])
  {
    if |xs| > 0 {
      var n := |xs| - 1;
      var init := xs[..n];
      FlatMapMember(init, f, y);
      if y in FlatMap(xs, f) && y in FlatMap(init, f) {
        var k :| 0 <= k < |init| && y in f(init[k]);
        assert xs[k] == init[k];
      }
      if exists k :: 0 <= k < |xs| && y in f(xs[k]) {
        var k :| 0 <= k < |xs| && y in f(xs[k]);
        if k < n {
          assert init[k] == xs[k];
        }
      }
    }
  }

  /** When every element gives exactly one entry, the result lists those entries in order. */
  lemma {:induction false} FlatMapSingletons<A, B>(xs: seq<A>, f: A -> seq<B>)
    requires forall k :: 0 <= k < |xs| ==> |f(xs[k])| == 1
    ensures |FlatMap(xs, f)| == |xs|
    ensures forall k :: 0 <= k < |xs| ==> f(xs[k]) == [FlatMap(xs, f)[k]]
  {
    if |xs| > 0 {
      var init := xs[..|xs| - 1];
      FlatMapSingletons(init, f);
      assert forall k :: 0 <= k < |init| ==> init[k] == xs[k];
    }
  }
}
