/** The deep search Hashie's DeepLocate and DeepFind extensions add to
    every Hash: `deep_locate` collects, in pre-order, every Hash or Array
    that has an entry a comparator accepts; `deep_find_all` reads the value
    under a key out of every Hash `deep_locate` found holding that key. */
module DeepSearch {
  import opened Outcomes
  import opened RubyValues

  /** The block `deep_locate` calls for each entry of an Enumerable: the
      entry's key (nil for an Array element), its value, and the Enumerable. */
  type Comparator = (Option<string>, Node, Node) -> bool

  /** The comparator `deep_locate(key)` builds from a plain key. */
  function KeyIs(key: string): Comparator {
    (k: Option<string>, v: Node, obj: Node) => k == Some(key)
  }

  /** `object.any?` with the comparator: some entry of a Hash, or some element
      of an Array, is accepted. Scalars are not Enumerable and never match. */
  predicate AnyMatch(n: Node, m: Comparator) {
    match n
    case Map(es) => exists i | 0 <= i < |es| :: m(Some(es[i].0), es[i].1, n)
    case Arr(xs) => exists i | 0 <= i < |xs| :: m(None, xs[i], n)
    case _ => false
  }

  /** Hashie's `_deep_locate`: an Enumerable with an accepted entry is
      recorded before anything below it, then every Hash value and Array
      element is searched in order, matched or not. */
  function Locate(n: Node, m: Comparator): (r: seq<Node>)
    ensures forall i | 0 <= i < |r| :: AnyMatch(r[i], m)
    decreases n
  {
    var here := if AnyMatch(n, m) then [n] else [];
    match n
    case Map(es) => here + LocateEntries(es, m)
    case Arr(xs) => here + LocateItems(xs, m)
    case _ => here
  }

  function LocateItems(xs: seq<Node>, m: Comparator): (r: seq<Node>)
    ensures forall i | 0 <= i < |r| :: AnyMatch(r[i], m)
    decreases xs
  {
    if xs == [] then [] else Locate(xs[0], m) + LocateItems(xs[1..], m)
  }

  function LocateEntries(es: seq<(string, Node)>, m: Comparator): (r: seq<Node>)
    ensures forall i | 0 <= i < |r| :: AnyMatch(r[i], m)
    decreases es
  {
    if es == [] then []
    else
      assert es[0].1 < es[0];
      Locate(es[0].1, m) + LocateEntries(es[1..], m)
  }

  /** Reference enumeration: `n` followed by every value below it, in the
      pre-order (Hash insertion order, then Array order) of the search. */
  function SubNodes(n: Node): seq<Node>
    decreases n
  {
    match n
    case Map(es) => [n] + SubNodesEntries(es)
    case Arr(xs) => [n] + SubNodesItems(xs)
    case _ => [n]
  }

  function SubNodesItems(xs: seq<Node>): seq<Node>
    decreases xs
  {
    if xs == [] then [] else SubNodes(xs[0]) + SubNodesItems(xs[1..])
  }

  function SubNodesEntries(es: seq<(string, Node)>): seq<Node>
    decreases es
  {
    if es == [] then []
    else
      assert es[0].1 < es[0];
      SubNodes(es[0].1) + SubNodesEntries(es[1..])
  }

  /** The values of `ns` with an entry the comparator accepts, in order. */
  function Matching(ns: seq<Node>, m: Comparator): seq<Node> {
    if ns == [] then []
    else (if AnyMatch(ns[0], m) then [ns[0]] else []) + Matching(ns[1..], m)
  }

  lemma {:induction false} MatchingAppend(a: seq<Node>, b: seq<Node>, m: Comparator)
    ensures Matching(a + b, m) == Matching(a, m) + Matching(b, m)
    decreases |a|
  {
    if a == [] {
      assert a + b == b;
    } else {
      var here := if AnyMatch(a[0], m) then [a[0]] else [];
      assert (a + b)[0] == a[0];
      assert (a + b)[1..] == a[1..] + b;
      MatchingAppend(a[1..], b, m);
      assert Matching(a + b, m) == here + (Matching(a[1..], m) + Matching(b, m));
      assert Matching(a, m) == here + Matching(a[1..], m);
    }
  }

  /** `deep_locate` finds exactly the values of the tree that have an
      accepted entry, each once, in pre-order: nothing is pruned, not even
      below a match. */
  lemma {:induction false} LocateIsMatchingSubNodes(n: Node, m: Comparator)
    ensures Locate(n, m) == Matching(SubNodes(n), m)
    decreases n
  {
    match n
    case Map(es) =>
      MatchingAppend([n], SubNodesEntries(es), m);
      LocateEntriesIsMatching(es, m);
    case Arr(xs) =>
      MatchingAppend([n], SubNodesItems(xs), m);
      LocateItemsIsMatching(xs, m);
    case _ =>
  }

  lemma {:induction false} LocateItemsIsMatching(xs: seq<Node>, m: Comparator)
    ensures LocateItems(xs, m) == Matching(SubNodesItems(xs), m)
    decreases xs
  {
    if xs != [] {
      LocateIsMatchingSubNodes(xs[0], m);
      LocateItemsIsMatching(xs[1..], m);
      MatchingAppend(SubNodes(xs[0]), SubNodesItems(xs[1..]), m);
    }
  }

  lemma {:induction false} LocateEntriesIsMatching(es: seq<(string, Node)>, m: Comparator)
    ensures LocateEntries(es, m) == Matching(SubNodesEntries(es), m)
    decreases es
  {
    if es != [] {
      assert es[0].1 < es[0];
      LocateIsMatchingSubNodes(es[0].1, m);
      LocateEntriesIsMatching(es[1..], m);
      MatchingAppend(SubNodes(es[0].1), SubNodesEntries(es[1..]), m);
    }
  }

  /** `result.map! { |element| element[key] }`: the value under `key` in each
      Hash `deep_locate` returned. */
  function ValuesAt(hs: seq<Node>, key: string): (r: seq<Node>)
    requires forall i | 0 <= i < |hs| :: hs[i].Map?
    ensures |r| == |hs|
  {
    if hs == [] then [] else [Get(hs[0].entries, key)] + ValuesAt(hs[1..], key)
  }

  lemma {:induction false} ValuesAtAppend(a: seq<Node>, b: seq<Node>, key: string)
    requires forall i | 0 <= i < |a| :: a[i].Map?
    requires forall i | 0 <= i < |b| :: b[i].Map?
    ensures ValuesAt(a + b, key) == ValuesAt(a, key) + ValuesAt(b, key)
    decreases |a|
  {
    if a == [] {
      assert a + b == b;
    } else {
      assert (a + b)[0] == a[0];
      assert (a + b)[1..] == a[1..] + b;
      ValuesAtAppend(a[1..], b, key);
    }
  }

  /** Reference definition of a deep find: at every Hash that holds `key`,
      the value under it, then everything found below, in pre-order. */
  function FindAll(n: Node, key: string): seq<Node>
    decreases n
  {
    match n
    case Map(es) => (if HasKey(es, key) then [Get(es, key)] else []) + FindAllEntries(es, key)
    case Arr(xs) => FindAllItems(xs, key)
    case _ => []
  }

  function FindAllItems(xs: seq<Node>, key: string): seq<Node>
    decreases xs
  {
    if xs == [] then [] else FindAll(xs[0], key) + FindAllItems(xs[1..], key)
  }

  function FindAllEntries(es: seq<(string, Node)>, key: string): seq<Node>
    decreases es
  {
    if es == [] then []
    else
      assert es[0].1 < es[0];
      FindAll(es[0].1, key) + FindAllEntries(es[1..], key)
  }

  /** A plain key is accepted only at Hashes, exactly those holding it. */
  lemma KeyIsMatchesHashesWithKey(n: Node, key: string)
    ensures AnyMatch(n, KeyIs(key)) <==> n.Map? && HasKey(n.entries, key)
  {
  }

  /** Locating the Hashes that hold `key` and reading `key` out of each is
      the reference deep find. */
  lemma {:induction false} LocateThenReadIsFindAll(n: Node, key: string)
    ensures forall i | 0 <= i < |Locate(n, KeyIs(key))| :: Locate(n, KeyIs(key))[i].Map?
    ensures ValuesAt(Locate(n, KeyIs(key)), key) == FindAll(n, key)
    decreases n
  {
    var m := KeyIs(key);
    var here := if AnyMatch(n, m) then [n] else [];
    KeyIsMatchesHashesWithKey(n, key);
    match n
    case Map(es) =>
      LocateEntriesThenReadIsFindAll(es, key);
      ValuesAtAppend(here, LocateEntries(es, m), key);
    case Arr(xs) =>
      LocateItemsThenReadIsFindAll(xs, key);
      ValuesAtAppend(here, LocateItems(xs, m), key);
    case _ =>
  }

  lemma {:induction false} LocateItemsThenReadIsFindAll(xs: seq<Node>, key: string)
    ensures forall i | 0 <= i < |LocateItems(xs, KeyIs(key))| :: LocateItems(xs, KeyIs(key))[i].Map?
    ensures ValuesAt(LocateItems(xs, KeyIs(key)), key) == FindAllItems(xs, key)
    decreases xs
  {
    if xs != [] {
      LocateThenReadIsFindAll(xs[0], key);
      LocateItemsThenReadIsFindAll(xs[1..], key);
      ValuesAtAppend(Locate(xs[0], KeyIs(key)), LocateItems(xs[1..], KeyIs(key)), key);
    }
  }

  lemma {:induction false} LocateEntriesThenReadIsFindAll(es: seq<(string, Node)>, key: string)
    ensures forall i | 0 <= i < |LocateEntries(es, KeyIs(key))| :: LocateEntries(es, KeyIs(key))[i].Map?
    ensures ValuesAt(LocateEntries(es, KeyIs(key)), key) == FindAllEntries(es, key)
    decreases es
  {
    if es != [] {
      assert es[0].1 < es[0];
      LocateThenReadIsFindAll(es[0].1, key);
      LocateEntriesThenReadIsFindAll(es[1..], key);
      ValuesAtAppend(Locate(es[0].1, KeyIs(key)), LocateEntries(es[1..], KeyIs(key)), key);
    }
  }

  /** Hashie's `Hash#deep_find_all(key)`: every value stored under `key`
      anywhere in the Hash, itself included, in pre-order; nil, not an empty
      Array, when there is none. */
  function DeepFindAll(h: Node, key: string): (r: Option<seq<Node>>)
    requires h.Map?
    ensures r.None? <==> FindAll(h, key) == []
    ensures r.Some? ==> r.value == FindAll(h, key)
  {
    LocateThenReadIsFindAll(h, key);
    var matches := ValuesAt(Locate(h, KeyIs(key)), key);
    if |matches| == 0 then None else Some(matches)
  }
}
