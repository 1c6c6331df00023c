/** The three Array methods the parser post-processes its search results
    with (`flatten`, `uniq`, `compact`), and the facts about them the
    pipeline relies on. `uniq` is stated for any equality relation and used
    with Ruby's `eql?`. */
module ArrayOps {
  import opened RubyValues

  /** No element is itself an Array. */
  predicate NoArrays(xs: seq<Node>) {
    forall i | 0 <= i < |xs| :: !xs[i].Arr?
  }

  /** No element is nil. */
  predicate NoNils(xs: seq<Node>) {
    forall i | 0 <= i < |xs| :: !xs[i].Null?
  }

  /** No two elements are related by `eq` (the shape `uniq` leaves an Array in). */
  predicate Distinct<T>(xs: seq<T>, eq: (T, T) -> bool) {
    forall i, j | 0 <= i < j < |xs| :: !eq(xs[i], xs[j])
  }

  /** `eq` is reflexive, symmetric and transitive. */
  ghost predicate Equivalence<T(!new)>(eq: (T, T) -> bool) {
    && (forall x :: eq(x, x))
    && (forall x, y :: eq(x, y) ==> eq(y, x))
    && (forall x, y, z :: eq(x, y) && eq(y, z) ==> eq(x, z))
  }

  /** `Array#flatten` without a depth: every nested Array, at any depth, is
      spliced into its place; Hashes and scalars stay as they are. */
  function Flatten(xs: seq<Node>): (r: seq<Node>)
    ensures NoArrays(r)
    ensures NoArrays(xs) ==> r == xs
  {
    if xs == [] then []
    else
      var head := match xs[0] case Arr(ys) => Flatten(ys) case _ => [xs[0]];
      head + Flatten(xs[1..])
  }

  /** `Array#compact`: every nil removed, everything else kept in order. */
  function Compact(xs: seq<Node>): (r: seq<Node>)
    ensures NoNils(r)
    ensures forall x :: x in r <==> x in xs && !x.Null?
    ensures NoNils(xs) ==> r == xs
  {
    if xs == [] then []
    else if xs[0].Null? then Compact(xs[1..])
    else [xs[0]] + Compact(xs[1..])
  }

  /** Some element of `r` is related by `eq` to `x`. */
  predicate CoveredBy<T>(r: seq<T>, x: T, eq: (T, T) -> bool) {
    exists j | 0 <= j < |r| :: eq(r[j], x)
  }

  /** `Array#uniq`: walks the Array left to right and keeps an element only
      when no element kept before it is related to it by `eq`. */
  function Uniq<T(==)>(xs: seq<T>, eq: (T, T) -> bool): (r: seq<T>)
    ensures Distinct(r, eq)
    ensures |r| <= |xs|
    ensures forall j | 0 <= j < |r| :: r[j] in xs
    decreases |xs|
  {
    if xs == [] then []
    else
      var kept := Uniq(xs[..|xs| - 1], eq);
      var x := xs[|xs| - 1];
      if CoveredBy(kept, x, eq) then kept
      else kept + [x]
  }

  /** Reference definition of the result `uniq` promises: the elements of
      `xs` not related by `eq` to any element before them, in their order. */
  function FirstOccurrences<T>(xs: seq<T>, eq: (T, T) -> bool): seq<T>
    decreases |xs|
  {
    if xs == [] then []
    else
      var x := xs[|xs| - 1];
      var before := xs[..|xs| - 1];
      FirstOccurrences(before, eq) + (if CoveredBy(before, x, eq) then [] else [x])
  }

  /** An element related to nothing before it is a first occurrence. */
  lemma FirstOccurrencesAppendNew<T>(xs: seq<T>, x: T, eq: (T, T) -> bool)
    requires forall i | 0 <= i < |xs| :: !eq(xs[i], x)
    ensures FirstOccurrences(xs + [x], eq) == FirstOccurrences(xs, eq) + [x]
  {
    var ys := xs + [x];
    assert ys[..|ys| - 1] == xs && ys[|ys| - 1] == x;
  }

  /** Splicing two Arrays and flattening is flattening each and splicing. */
  lemma {:induction false} FlattenAppend(a: seq<Node>, b: seq<Node>)
    ensures Flatten(a + b) == Flatten(a) + Flatten(b)
    decreases |a|
  {
    if a == [] {
      assert a + b == b;
    } else {
      assert (a + b)[0] == a[0];
      assert (a + b)[1..] == a[1..] + b;
      FlattenAppend(a[1..], b);
    }
  }

  /** `flatten` is idempotent. */
  lemma FlattenIdempotent(xs: seq<Node>)
    ensures Flatten(Flatten(xs)) == Flatten(xs)
  {
  }

  /** A nested Array flattens to the flattening of its own items, whatever
      they hold; with `FlattenAppend` and the flat case of `Flatten`'s
      contract this fixes the result for every input. */
  lemma FlattenNested(ys: seq<Node>)
    ensures Flatten([Arr(ys)]) == Flatten(ys)
  {
  }

  /** `x` is `n` itself or sits somewhere inside `n` through nested Arrays
      (Hashes are not looked into). */
  predicate Within(x: Node, n: Node)
    decreases n
  {
    match n
    case Arr(ys) => x == n || WithinAny(x, ys)
    case _ => x == n
  }

  /** `x` is within some element of `xs`. */
  predicate WithinAny(x: Node, xs: seq<Node>)
    decreases xs
  {
    exists i | 0 <= i < |xs| :: Within(x, xs[i])
  }

  lemma WithinAnyCons(x: Node, xs: seq<Node>)
    requires xs != []
    ensures WithinAny(x, xs) <==> Within(x, xs[0]) || WithinAny(x, xs[1..])
  {
  }

  /** `flatten` loses nothing and invents nothing: its result holds exactly
      the values that are not Arrays and sit in the input at some depth. */
  lemma {:induction false} FlattenMembers(xs: seq<Node>, x: Node)
    ensures x in Flatten(xs) <==> !x.Arr? && WithinAny(x, xs)
  {
    if xs != [] {
      WithinAnyCons(x, xs);
      FlattenMembers(xs[1..], x);
      match xs[0]
      case Arr(ys) =>
        FlattenMembers(ys, x);
        assert Flatten(xs) == Flatten(ys) + Flatten(xs[1..]);
      case _ =>
        assert Flatten(xs) == [xs[0]] + Flatten(xs[1..]);
    }
  }

  /** Compacting two Arrays and splicing is splicing and compacting. */
  lemma {:induction false} CompactAppend(a: seq<Node>, b: seq<Node>)
    ensures Compact(a + b) == Compact(a) + Compact(b)
    decreases |a|
  {
    if a == [] {
      assert a + b == b;
    } else {
      assert (a + b)[0] == a[0];
      assert (a + b)[1..] == a[1..] + b;
      CompactAppend(a[1..], b);
    }
  }

  /** `compact` keeps a duplicate-free Array duplicate-free. */
  lemma {:induction false} CompactKeepsDistinct(xs: seq<Node>, eq: (Node, Node) -> bool)
    requires Distinct(xs, eq)
    ensures Distinct(Compact(xs), eq)
    decreases |xs|
  {
    if xs != [] {
      var tail := Compact(xs[1..]);
      assert Distinct(xs[1..], eq);
      CompactKeepsDistinct(xs[1..], eq);
      if !xs[0].Null? {
        forall j | 0 <= j < |tail|
          ensures !eq(xs[0], tail[j])
        {
          assert tail[j] in xs[1..];
          var k :| 0 <= k < |xs[1..]| && xs[1..][k] == tail[j];
          assert xs[k + 1] == tail[j];
        }
      }
    }
  }

  /** Every element of `xs` is related by `eq` to some element of `r`. */
  predicate Covers<T>(r: seq<T>, xs: seq<T>, eq: (T, T) -> bool) {
    forall i | 0 <= i < |xs| :: CoveredBy(r, xs[i], eq)
  }

  /** Covering survives growing the covering Array at its end. */
  lemma CoversGrow<T>(kept: seq<T>, r: seq<T>, xs: seq<T>, eq: (T, T) -> bool)
    requires Covers(kept, xs, eq) && kept <= r
    ensures Covers(r, xs, eq)
  {
    forall i | 0 <= i < |xs|
      ensures CoveredBy(r, xs[i], eq)
    {
      assert CoveredBy(kept, xs[i], eq);
      var j :| 0 <= j < |kept| && eq(kept[j], xs[i]);
      assert r[j] == kept[j];
    }
  }

  /** Covering extends to one more element that is already covered. */
  lemma CoversAppend<T>(r: seq<T>, xs: seq<T>, x: T, eq: (T, T) -> bool, j: int)
    requires Covers(r, xs, eq) && 0 <= j < |r| && eq(r[j], x)
    ensures Covers(r, xs + [x], eq)
  {
    forall i | 0 <= i < |xs + [x]|
      ensures CoveredBy(r, (xs + [x])[i], eq)
    {
      if i < |xs| {
        assert (xs + [x])[i] == xs[i];
        assert CoveredBy(r, xs[i], eq);
      } else {
        assert (xs + [x])[i] == x;
      }
    }
  }

  /** Every element of the input is related to some element `uniq` kept. */
  lemma {:induction false} UniqCovers<T(!new)>(xs: seq<T>, eq: (T, T) -> bool)
    requires forall x :: eq(x, x)
    ensures Covers(Uniq(xs, eq), xs, eq)
    decreases |xs|
  {
    if xs != [] {
      var before, x := xs[..|xs| - 1], xs[|xs| - 1];
      assert xs == before + [x];
      UniqCovers(before, eq);
      var kept, r := Uniq(before, eq), Uniq(xs, eq);
      if j :| 0 <= j < |kept| && eq(kept[j], x) {
        assert r == kept;
        CoversAppend(r, before, x, eq, j);
      } else {
        assert r == kept + [x];
        CoversGrow(kept, r, before, eq);
        CoversAppend(r, before, x, eq, |kept|);
      }
    }
  }

  /** An element related to `x` in `before` means a kept element related to `x`. */
  lemma RelatedEarlierMeansRelatedKept<T(!new)>(before: seq<T>, x: T, eq: (T, T) -> bool, i: int)
    requires Equivalence(eq)
    requires 0 <= i < |before| && eq(before[i], x)
    ensures CoveredBy(Uniq(before, eq), x, eq)
  {
    var kept := Uniq(before, eq);
    UniqCovers(before, eq);
    assert CoveredBy(kept, before[i], eq);
    var j :| 0 <= j < |kept| && eq(kept[j], before[i]);
    assert eq(kept[j], x);
  }

  /** `uniq` keeps exactly the first occurrences, in order: the reference
      definition and the left-to-right algorithm agree on every Array when
      `eq` is an equivalence. */
  lemma {:induction false} UniqIsFirstOccurrences<T(!new)>(xs: seq<T>, eq: (T, T) -> bool)
    requires Equivalence(eq)
    ensures Uniq(xs, eq) == FirstOccurrences(xs, eq)
    decreases |xs|
  {
    if xs != [] {
      var before, x := xs[..|xs| - 1], xs[|xs| - 1];
      var kept := Uniq(before, eq);
      UniqIsFirstOccurrences(before, eq);
      if i :| 0 <= i < |before| && eq(before[i], x) {
        RelatedEarlierMeansRelatedKept(before, x, eq, i);
      }
      if j :| 0 <= j < |kept| && eq(kept[j], x) {
        assert kept[j] in before;
        var i :| 0 <= i < |before| && before[i] == kept[j];
        assert eq(before[i], x);
      }
    }
  }

  /** On an Array that is already duplicate-free `uniq` changes nothing. */
  lemma {:induction false} UniqOfDistinct<T>(xs: seq<T>, eq: (T, T) -> bool)
    requires Distinct(xs, eq)
    ensures Uniq(xs, eq) == xs
    decreases |xs|
  {
    if xs != [] {
      var before, x := xs[..|xs| - 1], xs[|xs| - 1];
      assert Distinct(before, eq);
      UniqOfDistinct(before, eq);
      forall j | 0 <= j < |before|
        ensures !eq(before[j], x)
      {
        assert before[j] == xs[j];
      }
      assert xs == before + [x];
    }
  }

  /** `uniq` is idempotent. */
  lemma UniqIdempotent<T>(xs: seq<T>, eq: (T, T) -> bool)
    ensures Uniq(Uniq(xs, eq), eq) == Uniq(xs, eq)
  {
    UniqOfDistinct(Uniq(xs, eq), eq);
  }

  /** `uniq` collapses repeated copies of one value to a single copy. */
  lemma {:induction false} UniqOfCopies<T>(xs: seq<T>, x: T, eq: (T, T) -> bool)
    requires |xs| > 0 && eq(x, x)
    requires forall i | 0 <= i < |xs| :: xs[i] == x
    ensures Uniq(xs, eq) == [x]
    decreases |xs|
  {
    if |xs| > 1 {
      UniqOfCopies(xs[..|xs| - 1], x, eq);
      assert Uniq(xs[..|xs| - 1], eq)[0] == xs[|xs| - 1];
    }
  }

  /** Appending elements never disturbs what `uniq` kept from the front:
      the result for `a` is a prefix of the result for `a + b`. */
  lemma {:induction false} UniqPrefix<T>(a: seq<T>, b: seq<T>, eq: (T, T) -> bool)
    ensures Uniq(a, eq) <= Uniq(a + b, eq)
    decreases |b|
  {
    if b == [] {
      assert a + b == a;
    } else {
      var b' := b[..|b| - 1];
      assert (a + b)[..|a + b| - 1] == a + b';
      UniqPrefix(a, b', eq);
    }
  }

  /** A non-nil element related to anything only by non-nil elements stays
      related to something after `compact`. */
  lemma RelatedSurvivesCompact(before: seq<Node>, x: Node, eq: (Node, Node) -> bool, i: int)
    requires forall a, b :: eq(a, b) ==> (a.Null? <==> b.Null?)
    requires !x.Null? && 0 <= i < |before| && eq(before[i], x)
    ensures CoveredBy(Compact(before), x, eq)
  {
    var cb := Compact(before);
    assert before[i] in cb;
    var k :| 0 <= k < |cb| && cb[k] == before[i];
    assert eq(cb[k], x);
  }

  /** Removing nils before or after keeping first occurrences gives the same
      Array, when `eq` relates nil only to nil. */
  lemma {:induction false} CompactFirstOccurrences(xs: seq<Node>, eq: (Node, Node) -> bool)
    requires forall a, b :: eq(a, b) ==> (a.Null? <==> b.Null?)
    ensures Compact(FirstOccurrences(xs, eq)) == FirstOccurrences(Compact(xs), eq)
    decreases |xs|
  {
    if xs != [] {
      var before, x := xs[..|xs| - 1], xs[|xs| - 1];
      var tail := if CoveredBy(before, x, eq) then [] else [x];
      assert xs == before + [x];
      assert FirstOccurrences(xs, eq) == FirstOccurrences(before, eq) + tail;
      CompactFirstOccurrences(before, eq);
      CompactAppend(FirstOccurrences(before, eq), tail);
      assert Compact(FirstOccurrences(xs, eq)) == FirstOccurrences(Compact(before), eq) + Compact(tail);
      CompactAppend(before, [x]);
      if x.Null? {
        var cb := Compact(before);
        assert Compact(tail) == [] && Compact([x]) == [];
        assert cb + [] == cb && FirstOccurrences(cb, eq) + [] == FirstOccurrences(cb, eq);
        assert Compact(xs) == cb;
      } else {
        assert Compact(tail) == tail && Compact([x]) == [x];
        assert Compact(xs) == Compact(before) + [x];
        CompactFirstOccurrencesStep(before, x, eq);
        assert Compact(FirstOccurrences(xs, eq)) == FirstOccurrences(Compact(xs), eq);
      }
    }
  }


  /** A non-nil element is related to something before `compact` exactly
      when it is related to something after it. */
  lemma RelatedAcrossCompact(before: seq<Node>, x: Node, eq: (Node, Node) -> bool)
    requires forall a, b :: eq(a, b) ==> (a.Null? <==> b.Null?)
    requires !x.Null?
    ensures CoveredBy(before, x, eq) <==> CoveredBy(Compact(before), x, eq)
  {
    var cb := Compact(before);
    if i :| 0 <= i < |before| && eq(before[i], x) {
      RelatedSurvivesCompact(before, x, eq, i);
    }
    if k :| 0 <= k < |cb| && eq(cb[k], x) {
      assert cb[k] in before;
      var i :| 0 <= i < |before| && before[i] == cb[k];
      assert eq(before[i], x);
    }
  }

  /** The step of `CompactFirstOccurrences` that appends a non-nil element. */
  lemma CompactFirstOccurrencesStep(before: seq<Node>, x: Node, eq: (Node, Node) -> bool)
    requires forall a, b :: eq(a, b) ==> (a.Null? <==> b.Null?)
    requires !x.Null?
    ensures FirstOccurrences(Compact(before) + [x], eq)
        == FirstOccurrences(Compact(before), eq) + (if CoveredBy(before, x, eq) then [] else [x])
  {
    var cb := Compact(before);
    var ys := cb + [x];
    assert ys[..|ys| - 1] == cb && ys[|ys| - 1] == x;
    RelatedAcrossCompact(before, x, eq);
  }

  /** Ruby's `eql?` is an equivalence, so the facts above apply to `uniq` as the parser calls it. */
  lemma EqlIsEquivalence()
    ensures Equivalence(Eql)
    ensures forall a, b :: Eql(a, b) ==> (a.Null? <==> b.Null?)
  {
    forall a ensures Eql(a, a) { EqlReflexive(a); }
    forall a, b | Eql(a, b) ensures Eql(b, a) { EqlSymmetric(a, b); }
    forall a, b, c | Eql(a, b) && Eql(b, c) ensures Eql(a, c) { EqlTransitive(a, b, c); }
    forall a, b | Eql(a, b) ensures a.Null? <==> b.Null? { EqlKeepsShape(a, b); }
  }
}
