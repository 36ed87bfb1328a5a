/**
 * Sequences of sequences joined end to end, and a step applied to every
 * element in order that stops at the first failure (a loop that raises).
 */
module Seqs {
  import opened Wrappers

  function Flatten<T>(parts: seq<seq<T>>): (r: seq<T>)
    decreases |parts|
  {
    if parts == [] then [] else Flatten(parts[..|parts| - 1]) + parts[|parts| - 1]
  }

  lemma {:induction false} FlattenMember<T>(parts: seq<seq<T>>, x: T)
    ensures x in Flatten(parts) <==> exists i :: 0 <= i < |parts| && x in parts[i]
    decreases |parts|
  {
    if parts != [] {
      var init := parts[..|parts| - 1];
      FlattenMember(init, x);
      if x in Flatten(parts) && x !in Flatten(init) {
        assert x in parts[|parts| - 1];
      }
      if exists i :: 0 <= i < |parts| && x in parts[i] {
        var i :| 0 <= i < |parts| && x in parts[i];
        if i < |parts| - 1 {
          assert init[i] == parts[i];
        }
      }
    }
  }

  lemma {:induction false} FlattenEmpty<T>(parts: seq<seq<T>>)
    requires forall i :: 0 <= i < |parts| ==> parts[i] == []
    ensures Flatten(parts) == []
    decreases |parts|
  {
    if parts != [] {
      FlattenEmpty(parts[..|parts| - 1]);
    }
  }

  /** The results of f on each element, joined end to end. */
  function FlatMap<A, B>(xs: seq<A>, f: A -> seq<B>): seq<B>
    decreases |xs|
  {
    if xs == [] then [] else f(xs[0]) + FlatMap(xs[1..], f)
  }

  lemma {:induction false} FlatMapAppend<A, B>(a: seq<A>, b: seq<A>, f: A -> seq<B>)
    ensures FlatMap(a + b, f) == FlatMap(a, f) + FlatMap(b, f)
    decreases |a|
  {
    if a == [] {
      assert a + b == b;
    } else {
      FlatMapAppend(a[1..], b, f);
      assert (a + b)[0] == a[0] && (a + b)[1..] == a[1..] + b;
    }
  }

  /** f applied to each element in order: all the results, or None at the first None. */
  function Traverse<A, B>(xs: seq<A>, f: A -> Option<B>): (r: Option<seq<B>>)
    ensures r.Some? ==> |r.value| == |xs|
    decreases |xs|
  {
    if xs == [] then Some([])
    else
      match Traverse(xs[..|xs| - 1], f)
      case None => None
      case Some(init) =>
        match f(xs[|xs| - 1])
        case None => None
        case Some(y) => Some(init + [y])
  }

  /** Traverse succeeds exactly when every step does, and then result i is step i's. */
  lemma {:induction false} TraverseAll<A, B>(xs: seq<A>, f: A -> Option<B>)
    ensures Traverse(xs, f).Some? <==> forall i :: 0 <= i < |xs| ==> f(xs[i]).Some?
    ensures Traverse(xs, f).Some? ==> forall i :: 0 <= i < |xs| ==> f(xs[i]) == Some(Traverse(xs, f).value[i])
    decreases |xs|
  {
    if xs != [] {
      var n := |xs| - 1;
      var init := xs[..n];
      TraverseAll(init, f);
      assert forall i :: 0 <= i < n ==> init[i] == xs[i];
    }
  }

  /** One more successful step extends the results. */
  lemma TraverseStep<A, B>(xs: seq<A>, f: A -> Option<B>, init: seq<B>, y: B)
    requires |xs| >= 1
    requires Traverse(xs[..|xs| - 1], f) == Some(init)
    requires f(xs[|xs| - 1]) == Some(y)
    ensures Traverse(xs, f) == Some(init + [y])
  {
  }

  /** The same, stated for the prefix of length i + 1. */
  lemma TraversePrefixStep<A, B>(xs: seq<A>, f: A -> Option<B>, i: nat, init: seq<B>, y: B)
    requires i < |xs|
    requires Traverse(xs[..i], f) == Some(init)
    requires f(xs[i]) == Some(y)
    ensures Traverse(xs[..i + 1], f) == Some(init + [y])
  {
    assert xs[..i + 1][..i] == xs[..i];
  }

  /** A failing step after a successful prefix makes the whole Traverse fail. */
  lemma TraverseFailsAt<A, B>(xs: seq<A>, f: A -> Option<B>, i: nat)
    requires i < |xs| && Traverse(xs[..i], f).Some? && f(xs[i]).None?
    ensures Traverse(xs, f).None?
  {
    assert xs[..i + 1][..i] == xs[..i];
    TraverseStops(xs, f, i + 1);
  }

  /** Once a step fails, Traverse of any longer prefix fails too. */
  lemma {:induction false} TraverseStops<A, B>(xs: seq<A>, f: A -> Option<B>, i: nat)
    requires i <= |xs| && Traverse(xs[..i], f).None?
    ensures Traverse(xs, f).None?
    decreases |xs|
  {
    if i < |xs| {
      var n := |xs| - 1;
      assert xs[..n][..i] == xs[..i];
      TraverseStops(xs[..n], f, i);
    } else {
      assert xs[..i] == xs;
    }
  }
}
