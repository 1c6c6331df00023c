/** The tree a MITS feed becomes once `Hash.from_xml` has converted it:
    nested Hashes and Arrays whose leaves are nil, booleans, Integers and
    Strings, together with the few pieces of Ruby semantics the parser relies
    on (truthiness, `present?`, `Hash#[]` and the value equality `uniq` uses). */
module RubyValues {

  /** One Ruby value of the tree. A Hash keeps its entries in insertion order,
      which is the order every traversal visits them in. */
  datatype Node =
    | Null
    | Bool(b: bool)
    | Int(i: int)
    | Str(s: string)
    | Arr(items: seq<Node>)
    | Map(entries: seq<(string, Node)>)

  /** Ruby truthiness: only `nil` and `false` are falsy. */
  predicate Truthy(n: Node) {
    !n.Null? && n != Bool(false)
  }

  /** The characters `[[:space:]]` matches (Unicode White_Space). */
  predicate IsSpace(c: char) {
    || ('\t' <= c <= '\r') || c == ' ' || c == '\U{0085}' || c == '\U{00A0}'
    || c == '\U{1680}' || ('\U{2000}' <= c <= '\U{200A}') || c == '\U{2028}'
    || c == '\U{2029}' || c == '\U{202F}' || c == '\U{205F}' || c == '\U{3000}'
  }

  /** ActiveSupport's `blank?`: nil, false, a String of white space only,
      an empty Array or an empty Hash. Integers and `true` are never blank. */
  predicate Blank(n: Node) {
    match n
    case Null => true
    case Bool(b) => !b
    case Int(_) => false
    case Str(s) => forall i | 0 <= i < |s| :: IsSpace(s[i])
    case Arr(xs) => |xs| == 0
    case Map(es) => |es| == 0
  }

  /** ActiveSupport's `present?`. */
  predicate Present(n: Node) {
    !Blank(n)
  }

  /** Only nil and false are falsy: zero, the empty String and the empty
      collections all pass a `return unless` guard. */
  lemma FalsyIsNilOrFalse(n: Node)
    ensures !Truthy(n) <==> n == Null || n == Bool(false)
    ensures Truthy(Int(0)) && Truthy(Str("")) && Truthy(Arr([])) && Truthy(Map([]))
  {
  }

  /** Whatever is present is truthy, but not the other way round: a truthy
      value is blank exactly when it is a white-space String or an empty
      Array or Hash. */
  lemma PresentIsTruthy(n: Node)
    ensures Present(n) ==> Truthy(n)
    ensures Truthy(n) && Blank(n) <==>
      || (n.Str? && forall i | 0 <= i < |n.s| :: IsSpace(n.s[i]))
      || n == Arr([]) || n == Map([])
  {
  }

  /** `present?` on the kinds of value a feed holds: white space of any
      kind is not present, a single other character is, every Integer is,
      and a collection is present as soon as it holds anything, even nil. */
  lemma PresentValues()
    ensures !Present(Str(" \t\n")) && !Present(Str("\U{00A0}\U{3000}"))
    ensures Present(Str(" a ")) && Present(Int(0)) && Present(Bool(true))
    ensures !Present(Null) && !Present(Bool(false))
    ensures !Present(Arr([])) && Present(Arr([Null]))
    ensures !Present(Map([])) && Present(Map([("", Null)]))
  {
    assert !IsSpace('a');
    assert Str(" a ").s[1] == 'a';
  }

  /** `Hash#key?`. */
  predicate HasKey(es: seq<(string, Node)>, key: string) {
    exists i | 0 <= i < |es| :: es[i].0 == key
  }

  /** `Hash#[]` on a Hash without a default: the value of the first entry
      with `key`, or nil when there is none. (A Ruby Hash holds each key
      once, so the first entry with the key is the entry with the key.) */
  function Get(es: seq<(string, Node)>, key: string): Node {
    if es == [] then Null
    else if es[0].0 == key then es[0].1
    else Get(es[1..], key)
  }

  /** `Get` reads the first entry with the key, and nil only when no entry
      has it. */
  lemma {:induction false} GetIsFirstEntry(es: seq<(string, Node)>, key: string)
    ensures !HasKey(es, key) ==> Get(es, key) == Null
    ensures HasKey(es, key) ==> exists i | 0 <= i < |es| ::
      && es[i] == (key, Get(es, key))
      && forall j | 0 <= j < i :: es[j].0 != key
    decreases |es|
  {
    if es != [] && es[0].0 != key {
      GetIsFirstEntry(es[1..], key);
      if HasKey(es, key) {
        var k :| 0 <= k < |es| && es[k].0 == key;
        assert es[1..][k - 1].0 == key;
        var i :| 0 <= i < |es[1..]| && es[1..][i] == (key, Get(es[1..], key))
          && forall j | 0 <= j < i :: es[1..][j].0 != key;
        assert es[i + 1] == (key, Get(es, key));
        forall j | 0 <= j < i + 1
          ensures es[j].0 != key
        {
          if j > 0 {
            assert es[j] == es[1..][j - 1];
          }
        }
      } else {
        forall k | 0 <= k < |es[1..]|
          ensures es[1..][k].0 != key
        {
          assert es[1..][k] == es[k + 1];
        }
      }
    } else if es != [] {
      assert es[0] == (key, Get(es, key));
    }
  }

  /** Ruby's `eql?`, the equality `Array#uniq` de-duplicates by: scalars by
      value, Arrays element by element, Hashes by content whatever the
      insertion order (the same size, and every entry of each side has an
      entry with the same key and an `eql?` value on the other side). */
  predicate Eql(a: Node, b: Node)
    decreases a, 2
  {
    match a
    case Arr(xs) =>
      && b.Arr? && |xs| == |b.items|
      && forall i | 0 <= i < |xs| :: Eql(xs[i], b.items[i])
    case Map(es) =>
      && b.Map? && |es| == |b.entries|
      && (forall i | 0 <= i < |es| :: FoundIn(a, i, b))
      && (forall j | 0 <= j < |b.entries| :: FoundFrom(a, b, j))
    case _ => a == b
  }

  /** Entry `i` of Hash `a` and entry `j` of Hash `b` have the same key and `eql?` values. */
  predicate EntryEql(a: Node, i: int, b: Node, j: int)
    requires a.Map? && b.Map? && 0 <= i < |a.entries| && 0 <= j < |b.entries|
    decreases a, 0
  {
    a.entries[i].0 == b.entries[j].0 && Eql(a.entries[i].1, b.entries[j].1)
  }

  /** Entry `i` of Hash `a` has a counterpart in Hash `b`. */
  predicate FoundIn(a: Node, i: int, b: Node)
    requires a.Map? && b.Map? && 0 <= i < |a.entries|
    decreases a, 1
  {
    exists j | 0 <= j < |b.entries| :: EntryEql(a, i, b, j)
  }

  /** Entry `j` of Hash `b` has a counterpart in Hash `a`. */
  predicate FoundFrom(a: Node, b: Node, j: int)
    requires a.Map? && b.Map? && 0 <= j < |b.entries|
    decreases a, 1
  {
    exists i | 0 <= i < |a.entries| :: EntryEql(a, i, b, j)
  }

  lemma {:induction false} EqlReflexive(a: Node)
    ensures Eql(a, a)
    decreases a
  {
    match a
    case Arr(xs) =>
      forall i | 0 <= i < |xs|
        ensures Eql(xs[i], xs[i])
      {
        EqlReflexive(xs[i]);
      }
    case Map(es) =>
      forall i | 0 <= i < |es|
        ensures FoundIn(a, i, a) && FoundFrom(a, a, i)
      {
        EqlReflexive(es[i].1);
        assert EntryEql(a, i, a, i);
      }
    case _ =>
  }

  lemma {:induction false} EqlSymmetric(a: Node, b: Node)
    requires Eql(a, b)
    ensures Eql(b, a)
    decreases a
  {
    match a
    case Arr(xs) =>
      forall i | 0 <= i < |xs|
        ensures Eql(b.items[i], xs[i])
      {
        EqlSymmetric(xs[i], b.items[i]);
      }
    case Map(es) =>
      forall i, j | 0 <= i < |es| && 0 <= j < |b.entries| && EntryEql(a, i, b, j)
        ensures EntryEql(b, j, a, i)
      {
        EqlSymmetric(es[i].1, b.entries[j].1);
      }
      forall j | 0 <= j < |b.entries|
        ensures FoundIn(b, j, a)
      {
        assert FoundFrom(a, b, j);
      }
      forall i | 0 <= i < |es|
        ensures FoundFrom(b, a, i)
      {
        assert FoundIn(a, i, b);
      }
    case _ =>
  }

  lemma {:induction false} EqlTransitive(a: Node, b: Node, c: Node)
    requires Eql(a, b) && Eql(b, c)
    ensures Eql(a, c)
    decreases a
  {
    match a
    case Arr(xs) =>
      forall i | 0 <= i < |xs|
        ensures Eql(xs[i], c.items[i])
      {
        EqlTransitive(xs[i], b.items[i], c.items[i]);
      }
    case Map(es) =>
      forall i | 0 <= i < |es|
        ensures FoundIn(a, i, c)
      {
        assert FoundIn(a, i, b);
        var j :| 0 <= j < |b.entries| && EntryEql(a, i, b, j);
        assert FoundIn(b, j, c);
        var l :| 0 <= l < |c.entries| && EntryEql(b, j, c, l);
        EqlTransitive(es[i].1, b.entries[j].1, c.entries[l].1);
        assert EntryEql(a, i, c, l);
      }
      forall l | 0 <= l < |c.entries|
        ensures FoundFrom(a, c, l)
      {
        assert FoundFrom(b, c, l);
        var j :| 0 <= j < |b.entries| && EntryEql(b, j, c, l);
        assert FoundFrom(a, b, j);
        var i :| 0 <= i < |es| && EntryEql(a, i, b, j);
        EqlTransitive(es[i].1, b.entries[j].1, c.entries[l].1);
        assert EntryEql(a, i, c, l);
      }
    case _ =>
  }

  /** `eql?` never relates nil to anything but nil, nor an Array to a non-Array. */
  lemma EqlKeepsShape(a: Node, b: Node)
    requires Eql(a, b)
    ensures a.Null? <==> b.Null?
    ensures a.Arr? <==> b.Arr?
  {
  }
}
