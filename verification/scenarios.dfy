/** Concrete runs of the parser on small feeds, worked out from the
    definitions. */
module Scenarios {
  import opened Outcomes
  import opened RubyValues
  import opened ArrayOps
  import opened DeepSearch
  import opened MitsParser
  import opened ParserProperties

  /** Only an Array or a Hash gets past the guard of `MitsParser.new`, and
      an Array then fails in `Properties.from`. */
  lemma GuardScenarios()
    ensures New(Null) == Err(RuntimeError("data must be array or hash"))
    ensures New(Int(42)) == Err(RuntimeError("data must be array or hash"))
    ensures New(Str("x")) == Err(RuntimeError("data must be array or hash"))
    ensures New(Arr([])) == Err(NoMethodError("deep_find_all"))
  {
  }

  /** Two nils collapse to one under `uniq`. */
  lemma TwoNilsOneNil()
    ensures FirstOccurrences([Null, Null], Eql) == [Null]
  {
    EqlReflexive(Null);
    assert [Null, Null][..1] == [Null];
    assert [Null][..0] == [];
    assert FirstOccurrences([Null], Eql) == [Null];
  }

  /** A Hash in which neither spelling finds anything has one nil
      property: the two nil results collapse under `uniq`. */
  lemma NothingFoundOneNilProperty(root: Node)
    requires root.Map? && FindAll(root, "Property") == [] && FindAll(root, "property") == []
    ensures New(root) == Ok(Parser(root, [Property(Null)]))
  {
    assert Found(root, "Property") + Found(root, "property") == [Null, Null];
    TwoNilsOneNil();
    PropertiesOfFound(root, [Null, Null], [Null]);
    assert Wrap([Null]) == [Property(Null)];
  }

  /** So an empty Hash has one nil property. */
  lemma EmptyHashProperties(root: Node)
    requires root == Map([])
    ensures New(root) == Ok(Parser(root, [Property(Null)]))
  {
    assert FindAll(root, "Property") == [];
    assert FindAll(root, "property") == [];
    NothingFoundOneNilProperty(root);
  }

  /** A nil property becomes one all-empty record. */
  lemma NilPropertyParses()
    ensures Parse(Parser(Map([]), [Property(Null)])) == Ok([EmptyRecord])
  {
    var rs := Parse(Parser(Map([]), [Property(Null)]));
    assert rs.Ok?;
    assert |rs.value| == 1;
    NilPropertyRecordIsEmpty(Property(Null), rs.value[0]);
    assert rs.value == [EmptyRecord];
  }

  /** Records that agree on every group are equal. */
  lemma RecordsAgree(rec: Record, want: Record)
    requires forall g :: rec.Get(g) == want.Get(g)
    ensures rec == want
  {
    assert rec.Get(Identification) == want.Get(Identification);
    assert rec.Get(Information) == want.Get(Information);
    assert rec.Get(Policy) == want.Get(Policy);
    assert rec.Get(Floorplans) == want.Get(Floorplans);
    assert rec.Get(Amenities) == want.Get(Amenities);
    assert rec.Get(File) == want.Get(File);
  }

  /** Flattening a one-element list holding a flat Array gives its items. */
  lemma FlattenOneArray(ys: seq<Node>)
    requires NoArrays(ys)
    ensures Flatten([Arr(ys)]) == ys
  {
    FlattenNested(ys);
  }

  /** A single value is kept by `uniq`. */
  lemma OneValueKept(x: Node)
    ensures FirstOccurrences([x], Eql) == [x]
  {
    assert [x][..0] == [];
  }

  /** Deep find in a Hash of one entry. */
  lemma FindAllOneEntry(k: string, v: Node, key: string)
    ensures FindAll(Map([(k, v)]), key) == (if k == key then [v] else []) + FindAll(v, key)
  {
    var es := [(k, v)];
    assert HasKey(es, key) <==> k == key;
    assert es[1..] == [];
    assert FindAllEntries(es, key) == FindAll(v, key);
  }

  /** `Hash#[]` on a Hash of two entries with different keys. */
  lemma TwoEntriesHere(k1: string, v1: Node, k2: string, v2: Node, key: string)
    requires k1 != k2
    ensures (if HasKey([(k1, v1), (k2, v2)], key) then [Get([(k1, v1), (k2, v2)], key)] else []) ==
      (if k1 == key then [v1] else if k2 == key then [v2] else [])
  {
    var es := [(k1, v1), (k2, v2)];
    if k1 == key {
      assert es[0].0 == key;
    } else if k2 == key {
      assert es[1].0 == key;
      assert es[1..] == [(k2, v2)];
      assert Get(es, key) == Get(es[1..], key);
    } else {
      assert !HasKey(es, key);
    }
  }

  /** The deep find below a Hash of two entries. */
  lemma TwoEntriesBelow(k1: string, v1: Node, k2: string, v2: Node, key: string)
    ensures FindAllEntries([(k1, v1), (k2, v2)], key) == FindAll(v1, key) + FindAll(v2, key)
  {
    var es := [(k1, v1), (k2, v2)];
    assert es[1..] == [(k2, v2)] && es[1..][1..] == [];
    assert FindAllEntries(es[1..][1..], key) == [];
    assert FindAllEntries(es[1..], key) == FindAll(v2, key);
  }

  /** Deep find in a Hash of two entries with different keys. */
  lemma FindAllTwoEntries(k1: string, v1: Node, k2: string, v2: Node, key: string)
    requires k1 != k2
    ensures FindAll(Map([(k1, v1), (k2, v2)]), key) ==
      (if k1 == key then [v1] else if k2 == key then [v2] else []) + (FindAll(v1, key) + FindAll(v2, key))
  {
    TwoEntriesHere(k1, v1, k2, v2, key);
    TwoEntriesBelow(k1, v1, k2, v2, key);
  }

  /** Deep find in an Array of one or two elements. */
  lemma FindAllItemsOne(x: Node, key: string)
    ensures FindAll(Arr([x]), key) == FindAll(x, key)
  {
    assert [x][1..] == [];
    assert FindAllItems([], key) == [];
    assert FindAllItems([x], key) == FindAll(x, key) + FindAllItems([], key);
  }

  lemma FindAllItemsTwo(x: Node, y: Node, key: string)
    ensures FindAll(Arr([x, y]), key) == FindAll(x, key) + FindAll(y, key)
  {
    assert [x, y][1..] == [y] && [y][1..] == [];
    assert FindAllItems([y], key) == FindAll(y, key);
  }

  /** The feed of two properties under "Property" (root key already
      removed): the first holds only its identification, the second also
      a list of amenities. */
  predicate TwoPropertyFeed(root: Node, h1: Node, h2: Node, id1: Node, id2: Node) {
    && id1 == Map([("id", Int(1))])
    && id2 == Map([("id", Int(2))])
    && h1 == Map([("Identification", id1)])
    && h2 == Map([("Identification", id2), ("Amenities", Arr([Str("pool")]))])
    && root == Map([("Property", Arr([h1, h2]))])
  }

  /** An identification `{"id" => n}` holds nothing under any other key. */
  lemma IdSearch(id: Node, n: int, key: string)
    requires id == Map([("id", Int(n))]) && key != "id"
    ensures FindAll(id, key) == []
  {
    FindAllOneEntry("id", Int(n), key);
  }

  /** The first property holds its identification and nothing below it. */
  lemma FirstPropertySearch(h1: Node, id1: Node, key: string)
    requires h1 == Map([("Identification", id1)]) && FindAll(id1, key) == []
    ensures FindAll(h1, key) == (if key == "Identification" then [id1] else [])
  {
    FindAllOneEntry("Identification", id1, key);
  }

  /** The second property holds its identification and its amenities, and
      nothing below them. */
  lemma SecondPropertySearch(h2: Node, id2: Node, key: string)
    requires h2 == Map([("Identification", id2), ("Amenities", Arr([Str("pool")]))])
    requires FindAll(id2, key) == []
    ensures FindAll(h2, key) ==
      (if key == "Identification" then [id2] else if key == "Amenities" then [Arr([Str("pool")])] else [])
  {
    FindAllItemsOne(Str("pool"), key);
    FindAllTwoEntries("Identification", id2, "Amenities", Arr([Str("pool")]), key);
  }

  /** The root holds the Array of both properties, then what they hold. */
  lemma RootSearch(root: Node, h1: Node, h2: Node, key: string)
    requires root == Map([("Property", Arr([h1, h2]))])
    ensures FindAll(root, key) ==
      (if key == "Property" then [Arr([h1, h2])] else []) + (FindAll(h1, key) + FindAll(h2, key))
  {
    FindAllItemsTwo(h1, h2, key);
    FindAllOneEntry("Property", Arr([h1, h2]), key);
  }

  /** What each part of the feed holds under `key`. */
  lemma TwoPropertyFeedSearch(root: Node, h1: Node, h2: Node, id1: Node, id2: Node, key: string)
    requires TwoPropertyFeed(root, h1, h2, id1, id2)
    requires key != "id"
    ensures FindAll(id1, key) == [] && FindAll(id2, key) == []
    ensures FindAll(h1, key) == (if key == "Identification" then [id1] else [])
    ensures FindAll(h2, key) ==
      (if key == "Identification" then [id2] else if key == "Amenities" then [Arr([Str("pool")])] else [])
    ensures FindAll(root, key) ==
      (if key == "Property" then [Arr([h1, h2])] else []) + (FindAll(h1, key) + FindAll(h2, key))
  {
    IdSearch(id1, 1, key);
    IdSearch(id2, 2, key);
    FirstPropertySearch(h1, id1, key);
    SecondPropertySearch(h2, id2, key);
    RootSearch(root, h1, h2, key);
  }

  /** Two Hashes found under "Property" and nothing under "property". */
  lemma TwoThenNothing(root: Node, h1: Node, h2: Node)
    requires FindAll(root, "Property") == [Arr([h1, h2])] && FindAll(root, "property") == []
    requires h1.Map? && h2.Map?
    ensures Found(root, "Property") + Found(root, "property") == [h1, h2, Null]
  {
    FlattenOneArray([h1, h2]);
  }

  /** "Property" finds the two properties; "property" finds nothing. */
  lemma TwoPropertyFeedFound(root: Node, h1: Node, h2: Node, id1: Node, id2: Node)
    requires TwoPropertyFeed(root, h1, h2, id1, id2)
    ensures Found(root, "Property") + Found(root, "property") == [h1, h2, Null]
  {
    TwoPropertyFeedSearch(root, h1, h2, id1, id2, "Property");
    TwoPropertyFeedSearch(root, h1, h2, id1, id2, "property");
    assert FindAll(root, "Property") == [Arr([h1, h2])] + ([] + []);
    assert FindAll(root, "property") == [] + ([] + []);
    TwoThenNothing(root, h1, h2);
  }



  /** Two Hashes of different sizes and a nil are pairwise different, so
      `uniq` keeps all three. */
  lemma TwoHashesAndNilKept(h1: Node, h2: Node)
    requires h1.Map? && h2.Map? && |h1.entries| != |h2.entries|
    ensures FirstOccurrences([h1, h2, Null], Eql) == [h1, h2, Null]
  {
    OneValueKept(h1);
    assert !Eql(h1, h2);
    FirstOccurrencesAppendNew([h1], h2, Eql);
    assert [h1] + [h2] == [h1, h2];
    assert !Eql(h1, Null) && !Eql(h2, Null);
    FirstOccurrencesAppendNew([h1, h2], Null, Eql);
    assert [h1, h2] + [Null] == [h1, h2, Null];
  }

  /** The property list a Hash root gets from what the two spellings
      find and what `uniq` keeps of it. */
  lemma PropertiesOfFound(root: Node, xs: seq<Node>, kept: seq<Node>)
    requires root.Map?
    requires Found(root, "Property") + Found(root, "property") == xs
    requires FirstOccurrences(xs, Eql) == kept
    ensures New(root) == Ok(Parser(root, Wrap(kept)))
  {
    var ps := New(root).value.properties;
    assert Datas(ps) == kept;
    assert ps == Wrap(kept);
  }


  /** A Hash root whose two spellings find two Hashes of different sizes
      and nothing gets three properties, the last one nil. */
  lemma TwoHashesAndNilProperties(root: Node, h1: Node, h2: Node)
    requires root.Map? && h1.Map? && h2.Map? && |h1.entries| != |h2.entries|
    requires Found(root, "Property") + Found(root, "property") == [h1, h2, Null]
    ensures New(root) == Ok(Parser(root, [Property(h1), Property(h2), Property(Null)]))
  {
    var xs := [h1, h2, Null];
    TwoHashesAndNilKept(h1, h2);
    PropertiesOfFound(root, xs, xs);
    assert Wrap(xs) == [Property(h1), Property(h2), Property(Null)];
  }

  /** `MitsParser.new` on that feed: three properties, the last one nil,
      because "property" found nothing and its nil is never compacted. */
  lemma TwoPropertyFeedProperties(root: Node, h1: Node, h2: Node, id1: Node, id2: Node)
    requires TwoPropertyFeed(root, h1, h2, id1, id2)
    ensures New(root) == Ok(Parser(root, [Property(h1), Property(h2), Property(Null)]))
  {
    TwoPropertyFeedFound(root, h1, h2, id1, id2);
    TwoHashesAndNilProperties(root, h1, h2);
  }

  /** A group whose key is found once, at a value that is neither nil nor
      an Array, holds exactly that value. */
  lemma SingleMatchField(p: Property, g: FieldGroup, v: Node)
    requires p.data.Map? && FindAll(p.data, SearchKey(g)) == [v]
    requires !v.Null? && !v.Arr?
    ensures Field(p, g) == Ok([v])
  {
    assert AllMatches(p.data, [SearchKey(g)]) == [v];
    assert Flatten([v]) == [v];
    assert Compact([v]) == [v];
    OneValueKept(v);
  }

  /** What the first property of the feed holds under the key of `g`. */
  function FirstFound(id1: Node, g: FieldGroup): seq<Node> {
    if g == Identification then [id1] else []
  }

  /** What the second property of the feed holds under the key of `g`. */
  function SecondFound(id2: Node, g: FieldGroup): seq<Node> {
    if g == Identification then [id2] else if g == Amenities then [Arr([Str("pool")])] else []
  }

  /** A group whose key is found once, at an Array of one value that is
      neither nil nor an Array, holds exactly that value. */
  lemma SingleItemMatchField(p: Property, g: FieldGroup, v: Node)
    requires p.data.Map? && FindAll(p.data, SearchKey(g)) == [Arr([v])]
    requires !v.Null? && !v.Arr?
    ensures Field(p, g) == Ok([v])
  {
    assert AllMatches(p.data, [SearchKey(g)]) == [Arr([v])];
    assert Flatten([Arr([v])]) == [v];
    assert Compact([v]) == [v];
    OneValueKept(v);
  }

  /** The first property's fields, from what its searches find. */
  lemma FirstPropertyFields(h1: Node, id1: Node, g: FieldGroup)
    requires h1.Map? && id1.Map?
    requires FindAll(h1, SearchKey(g)) == FirstFound(id1, g)
    ensures Field(Property(h1), g) == Ok(Record([id1], [], [], [], [], []).Get(g))
  {
    if g == Identification {
      SingleMatchField(Property(h1), g, id1);
    } else {
      AbsentGroupIsEmpty(Property(h1), g);
    }
  }

  /** The second property's fields, from what its searches find. */
  lemma SecondPropertyFields(h2: Node, id2: Node, g: FieldGroup)
    requires h2.Map? && id2.Map?
    requires FindAll(h2, SearchKey(g)) == SecondFound(id2, g)
    ensures Field(Property(h2), g) == Ok(Record([id2], [], [], [], [Str("pool")], []).Get(g))
  {
    if g == Identification {
      SingleMatchField(Property(h2), g, id2);
    } else if g == Amenities {
      SingleItemMatchField(Property(h2), g, Str("pool"));
    } else {
      AbsentGroupIsEmpty(Property(h2), g);
    }
  }

  /** Which group keys are which. */
  lemma SearchKeyNames(g: FieldGroup)
    ensures (SearchKey(g) == "Identification") == (g == Identification)
    ensures (SearchKey(g) == "Amenities") == (g == Amenities)
    ensures SearchKey(g) != "id"
  {
  }

  /** What the two properties of the feed hold under one group's key. */
  lemma TwoPropertyFeedGroup(root: Node, h1: Node, h2: Node, id1: Node, id2: Node, g: FieldGroup)
    requires TwoPropertyFeed(root, h1, h2, id1, id2)
    ensures FindAll(h1, SearchKey(g)) == FirstFound(id1, g)
    ensures FindAll(h2, SearchKey(g)) == SecondFound(id2, g)
  {
    SearchKeyNames(g);
    TwoPropertyFeedSearch(root, h1, h2, id1, id2, SearchKey(g));
  }

  /** What the two properties of the feed hold under each group's key. */
  lemma TwoPropertyFeedGroups(root: Node, h1: Node, h2: Node, id1: Node, id2: Node)
    requires TwoPropertyFeed(root, h1, h2, id1, id2)
    ensures forall g :: FindAll(h1, SearchKey(g)) == FirstFound(id1, g)
    ensures forall g :: FindAll(h2, SearchKey(g)) == SecondFound(id2, g)
  {
    forall g
      ensures FindAll(h1, SearchKey(g)) == FirstFound(id1, g)
      ensures FindAll(h2, SearchKey(g)) == SecondFound(id2, g)
    {
      TwoPropertyFeedGroup(root, h1, h2, id1, id2, g);
    }
  }

  /** What `parse` says of its `i`-th record. */
  lemma ParsedRecord(parser: Parser, rs: seq<Record>, i: int)
    requires Parse(parser) == Ok(rs) && 0 <= i < |parser.properties|
    ensures |rs| == |parser.properties|
    ensures forall g :: Field(parser.properties[i], g) == Ok(rs[i].Get(g))
  {
  }

  /** A list of three records, element by element. */
  lemma ThreeRecords(rs: seq<Record>, a: Record, b: Record, c: Record)
    requires |rs| == 3 && rs[0] == a && rs[1] == b && rs[2] == c
    ensures rs == [a, b, c]
  {
  }

  /** Two records with the fields of the same property are equal. */
  lemma SameFieldsSameRecord(p: Property, rec: Record, want: Record)
    requires forall g :: Field(p, g) == Ok(rec.Get(g))
    requires forall g :: Field(p, g) == Ok(want.Get(g))
    ensures rec == want
  {
    forall g
      ensures rec.Get(g) == want.Get(g)
    {
      assert Field(p, g) == Ok(rec.Get(g));
    }
    RecordsAgree(rec, want);
  }

  /** The records `parse` returns for three properties, the last nil,
      whose first two have the fields of `r1` and `r2`. */
  lemma TwoAndNilRecords(parser: Parser, rs: seq<Record>, r1: Record, r2: Record)
    requires |parser.properties| == 3 && parser.properties[2] == Property(Null)
    requires Parse(parser) == Ok(rs)
    requires forall g :: Field(parser.properties[0], g) == Ok(r1.Get(g))
    requires forall g :: Field(parser.properties[1], g) == Ok(r2.Get(g))
    ensures rs == [r1, r2, EmptyRecord]
  {
    ParsedRecord(parser, rs, 0);
    SameFieldsSameRecord(parser.properties[0], rs[0], r1);
    ParsedRecord(parser, rs, 1);
    SameFieldsSameRecord(parser.properties[1], rs[1], r2);
    ParsedRecord(parser, rs, 2);
    NilPropertyRecordIsEmpty(parser.properties[2], rs[2]);
    ThreeRecords(rs, r1, r2, EmptyRecord);
  }

  /** `parse` succeeds on three properties, two Hashes and a nil. */
  lemma ParseSucceeds(parser: Parser) returns (rs: seq<Record>)
    requires |parser.properties| == 3 && parser.properties[2] == Property(Null)
    requires parser.properties[0].data.Map? && parser.properties[1].data.Map?
    ensures Parse(parser) == Ok(rs)
  {
    forall i | 0 <= i < |parser.properties|
      ensures !Truthy(parser.properties[i].data) || parser.properties[i].data.Map?
    {
      assert i == 0 || i == 1 || i == 2;
    }
    rs := Parse(parser).value;
  }

  /** `parse` on three properties, the last nil, whose first two have the
      fields of `r1` and `r2`. */
  lemma ParseTwoAndNil(parser: Parser, r1: Record, r2: Record)
    requires |parser.properties| == 3 && parser.properties[2] == Property(Null)
    requires parser.properties[0].data.Map? && parser.properties[1].data.Map?
    requires forall g :: Field(parser.properties[0], g) == Ok(r1.Get(g))
    requires forall g :: Field(parser.properties[1], g) == Ok(r2.Get(g))
    ensures Parse(parser) == Ok([r1, r2, EmptyRecord])
  {
    var rs := ParseSucceeds(parser);
    TwoAndNilRecords(parser, rs, r1, r2);
  }

  /** The first property's record. */
  lemma FirstPropertyRecord(h1: Node, id1: Node)
    requires h1.Map? && id1.Map?
    requires forall g :: FindAll(h1, SearchKey(g)) == FirstFound(id1, g)
    ensures forall g :: Field(Property(h1), g) == Ok(Record([id1], [], [], [], [], []).Get(g))
  {
    forall g
      ensures Field(Property(h1), g) == Ok(Record([id1], [], [], [], [], []).Get(g))
    {
      FirstPropertyFields(h1, id1, g);
    }
  }

  /** The second property's record. */
  lemma SecondPropertyRecord(h2: Node, id2: Node)
    requires h2.Map? && id2.Map?
    requires forall g :: FindAll(h2, SearchKey(g)) == SecondFound(id2, g)
    ensures forall g :: Field(Property(h2), g) == Ok(Record([id2], [], [], [], [Str("pool")], []).Get(g))
  {
    forall g
      ensures Field(Property(h2), g) == Ok(Record([id2], [], [], [], [Str("pool")], []).Get(g))
    {
      SecondPropertyFields(h2, id2, g);
    }
  }
  /** `parse` on that feed: one record per property, and a third, empty
      record for the nil property. */
  lemma TwoPropertyFeedParse(root: Node, h1: Node, h2: Node, id1: Node, id2: Node)
    requires TwoPropertyFeed(root, h1, h2, id1, id2)
    ensures New(root).Ok?
    ensures Parse(New(root).value) == Ok([
      Record([id1], [], [], [], [], []),
      Record([id2], [], [], [], [Str("pool")], []),
      EmptyRecord])
  {
    TwoPropertyFeedProperties(root, h1, h2, id1, id2);
    TwoPropertyFeedGroups(root, h1, h2, id1, id2);
    FirstPropertyRecord(h1, id1);
    SecondPropertyRecord(h2, id2);
    ParseTwoAndNil(New(root).value, Record([id1], [], [], [], [], []), Record([id2], [], [], [], [Str("pool")], []));
  }

  // ---------------------------------------------------------------------
  // A group found twice: `uniq` by value
  // ---------------------------------------------------------------------

  /** `uniq` on two values. */
  lemma TwoValuesKept(v1: Node, v2: Node)
    ensures FirstOccurrences([v1, v2], Eql) == if Eql(v1, v2) then [v1] else [v1, v2]
  {
    assert [v1, v2][..1] == [v1];
    OneValueKept(v1);
  }

  /** The matches of a group found at two Hashes, ready for `uniq`. */
  lemma TwoMatchesCleaned(p: Property, g: FieldGroup, v1: Node, v2: Node)
    requires p.data.Map? && FindAll(p.data, SearchKey(g)) == [v1, v2]
    requires v1.Map? && v2.Map?
    ensures Compact(Flatten(AllMatches(p.data, [SearchKey(g)]))) == [v1, v2]
  {
    assert AllMatches(p.data, [SearchKey(g)]) == [v1, v2];
    assert NoArrays([v1, v2]) && NoNils([v1, v2]);
  }

  /** A group found at two Hashes holds one of them when they are `eql?`
      and both otherwise. */
  lemma TwoMatchesField(p: Property, g: FieldGroup, v1: Node, v2: Node)
    requires p.data.Map? && FindAll(p.data, SearchKey(g)) == [v1, v2]
    requires v1.Map? && v2.Map?
    ensures Field(p, g) == Ok(if Eql(v1, v2) then [v1] else [v1, v2])
  {
    TwoMatchesCleaned(p, g, v1, v2);
    TwoValuesKept(v1, v2);
  }

  /** Hash equality ignores insertion order. */
  lemma SwappedHashEql(k1: string, v1: Node, k2: string, v2: Node)
    requires k1 != k2
    ensures Eql(Map([(k1, v1), (k2, v2)]), Map([(k2, v2), (k1, v1)]))
  {
    var a := Map([(k1, v1), (k2, v2)]);
    var b := Map([(k2, v2), (k1, v1)]);
    EqlReflexive(v1);
    EqlReflexive(v2);
    assert EntryEql(a, 0, b, 1) && EntryEql(a, 1, b, 0);
    assert FoundIn(a, 0, b) && FoundIn(a, 1, b);
    assert FoundFrom(a, b, 0) && FoundFrom(a, b, 1);
  }

  /** A property listing its amenities at the top and again inside its
      building. */
  predicate AmenitiesTwice(root: Node, building: Node, a1: Node, a2: Node) {
    && building == Map([("Amenities", a2)])
    && root == Map([("Amenities", a1), ("Building", building)])
  }

  /** A Hash of two String values holds no "Amenities" key at any depth. */
  lemma FlatHashNoAmenities(k1: string, s1: string, k2: string, s2: string)
    requires k1 != k2 && k1 != "Amenities" && k2 != "Amenities"
    ensures FindAll(Map([(k1, Str(s1)), (k2, Str(s2))]), "Amenities") == []
  {
    FindAllTwoEntries(k1, Str(s1), k2, Str(s2), "Amenities");
  }

  lemma AmenitiesTwiceFound(root: Node, building: Node, a1: Node, a2: Node)
    requires AmenitiesTwice(root, building, a1, a2)
    requires FindAll(a1, "Amenities") == [] && FindAll(a2, "Amenities") == []
    ensures FindAll(root, "Amenities") == [a1, a2]
  {
    FindAllOneEntry("Amenities", a2, "Amenities");
    FindAllTwoEntries("Amenities", a1, "Building", building, "Amenities");
  }

  /** The amenities of the top level and of the building, found in that
      order. */
  lemma AmenitiesTwiceFoundFlat(root: Node, building: Node, a1: Node, a2: Node, k1: string, s1: string, k2: string, s2: string, t1: string, t2: string)
    requires AmenitiesTwice(root, building, a1, a2)
    requires k1 != k2 && k1 != "Amenities" && k2 != "Amenities"
    requires a1 == Map([(k1, Str(s1)), (k2, Str(s2))])
    requires a2 == Map([(k1, Str(t1)), (k2, Str(t2))]) || a2 == Map([(k2, Str(t2)), (k1, Str(t1))])
    ensures FindAll(root, "Amenities") == [a1, a2]
  {
    FlatHashNoAmenities(k1, s1, k2, s2);
    if a2 == Map([(k1, Str(t1)), (k2, Str(t2))]) {
      FlatHashNoAmenities(k1, t1, k2, t2);
    } else {
      FlatHashNoAmenities(k2, t2, k1, t1);
    }
    AmenitiesTwiceFound(root, building, a1, a2);
  }

  /** The same amenities written in another key order collapse to one. */
  lemma SameAmenitiesCollapse(root: Node, building: Node, a1: Node, a2: Node)
    requires AmenitiesTwice(root, building, a1, a2)
    requires a1 == Map([("Pool", Str("yes")), ("Gym", Str("no"))])
    requires a2 == Map([("Gym", Str("no")), ("Pool", Str("yes"))])
    ensures Field(Property(root), Amenities) == Ok([a1])
  {
    AmenitiesTwiceFoundFlat(root, building, a1, a2, "Pool", "yes", "Gym", "no", "yes", "no");
    SwappedHashEql("Pool", Str("yes"), "Gym", Str("no"));
    TwoMatchesField(Property(root), Amenities, a1, a2);
  }

  /** Hashes that differ in one value are not `eql?`. */
  lemma DifferentValueNotEql(k1: string, v1: Node, w1: Node, k2: string, v2: Node)
    requires k1 != k2 && !Eql(v1, w1)
    ensures !Eql(Map([(k1, v1), (k2, v2)]), Map([(k1, w1), (k2, v2)]))
  {
    var a := Map([(k1, v1), (k2, v2)]);
    var b := Map([(k1, w1), (k2, v2)]);
    assert !EntryEql(a, 0, b, 0) && !EntryEql(a, 0, b, 1);
    assert !FoundIn(a, 0, b);
  }

  /** Different amenities are both kept, in the order found. */
  lemma DifferentAmenitiesKept(root: Node, building: Node, a1: Node, a2: Node)
    requires AmenitiesTwice(root, building, a1, a2)
    requires a1 == Map([("Pool", Str("yes")), ("Gym", Str("no"))])
    requires a2 == Map([("Pool", Str("no")), ("Gym", Str("no"))])
    ensures Field(Property(root), Amenities) == Ok([a1, a2])
  {
    AmenitiesTwiceFoundFlat(root, building, a1, a2, "Pool", "yes", "Gym", "no", "no", "no");
    DifferentValueNotEql("Pool", Str("yes"), Str("no"), "Gym", Str("no"));
    TwoMatchesField(Property(root), Amenities, a1, a2);
  }
}
