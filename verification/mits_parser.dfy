/** The MITS property-extraction pipeline: guard the input, find every
    property under the keys "Property" and "property", and build one
    six-field record per property from scoped deep searches. */
module MitsParser {
  import opened Outcomes
  import opened RubyValues
  import opened ArrayOps
  import opened DeepSearch

  /** The exceptions the pipeline can raise. */
  datatype Error =
    | RuntimeError(message: string)   // `raise "..."`
    | NoMethodError(name: string)     // a deep-search method sent to a value that lacks it

  const DataMustBeArrayOrHash := "data must be array or hash"

  /** The two spellings `Properties.from` searches for, in order. */
  const PropertyKeys: seq<string> := ["Property", "property"]

  /** `MitsParser::Property`: a view on the data of one property. */
  datatype Property = Property(data: Node)

  /** A `MitsParser` instance: the data it was built from and the
      properties found in it at construction. */
  datatype Parser = Parser(data: Node, properties: seq<Property>)

  /** The six field groups of the output record. */
  datatype FieldGroup = Identification | Information | Policy | Floorplans | Amenities | File

  /** The key each field accessor searches a property for. */
  function SearchKey(g: FieldGroup): string {
    match g
    case Identification => "Identification"
    case Information => "Information"
    case Policy => "Policy"
    case Floorplans => "Floorplans"
    case Amenities => "Amenities"
    case File => "File"
  }

  /** The Hash `formatted_attributes_for` returns; its six symbol keys are
      the six fields, so every record has exactly those keys. */
  datatype Record = Record(
    identification: seq<Node>,
    information: seq<Node>,
    policy: seq<Node>,
    floorplans: seq<Node>,
    amenities: seq<Node>,
    file: seq<Node>)
  {
    /** The value stored under the key of field group `g`. */
    function Get(g: FieldGroup): seq<Node> {
      match g
      case Identification => identification
      case Information => information
      case Policy => policy
      case Floorplans => floorplans
      case Amenities => amenities
      case File => file
    }
  }

  const EmptyRecord := Record([], [], [], [], [], [])

  /** What a field holds: no nil, no Array, no two `eql?` values. */
  predicate Clean(xs: seq<Node>) {
    NoNils(xs) && NoArrays(xs) && Distinct(xs, Eql)
  }

  /** The data of each property, in order. */
  function Datas(ps: seq<Property>): (r: seq<Node>)
    ensures |r| == |ps|
    ensures forall i | 0 <= i < |ps| :: r[i] == ps[i].data
  {
    seq(|ps|, i requires 0 <= i < |ps| => ps[i].data)
  }

  // ---------------------------------------------------------------------
  // Deep search entry points
  // ---------------------------------------------------------------------

  /** `MitsParser.deep_find_all_by_key`: nil for nil or false data without
      searching; Hashie's `deep_find_all` on a Hash; any other value has no
      `deep_find_all` (the extension is mixed into Hash only). */
  function DeepFindAllByKey(data: Node, key: string): (r: Result<Option<seq<Node>>, Error>)
    ensures !Truthy(data) ==> r == Ok(None)
    ensures data.Map? ==> r.Ok? && (r.value.None? <==> FindAll(data, key) == [])
    ensures data.Map? && r.value.Some? ==> r.value.value == FindAll(data, key)
    ensures Truthy(data) && !data.Map? ==> r == Err(NoMethodError("deep_find_all"))
  {
    if !Truthy(data) then Ok(None)
    else if data.Map? then Ok(DeepFindAll(data, key))
    else Err(NoMethodError("deep_find_all"))
  }

  /** The comparator `deep_locate_all_by_key` passes: the key matches and
      the value is `present?`. */
  function KeyWithPresentValue(key: string): Comparator {
    (k: Option<string>, v: Node, obj: Node) => k == Some(key) && Present(v)
  }

  /** `MitsParser.deep_locate_all_by_key`: nil for nil or false data; on a
      Hash, every Hash in it (itself included, in pre-order) holding `key`
      with a present value; any other value has no `deep_locate`. */
  function DeepLocateAllByKey(data: Node, key: string): (r: Result<Option<seq<Node>>, Error>)
    ensures !Truthy(data) ==> r == Ok(None)
    ensures data.Map? ==> r.Ok? && r.value.Some?
    ensures data.Map? ==> r.value.value == Matching(SubNodes(data), KeyWithPresentValue(key))
    ensures data.Map? ==> forall h | h in r.value.value ::
      h.Map? && exists i | 0 <= i < |h.entries| :: h.entries[i].0 == key && Present(h.entries[i].1)
    ensures Truthy(data) && !data.Map? ==> r == Err(NoMethodError("deep_locate"))
  {
    if !Truthy(data) then Ok(None)
    else if data.Map? then
      LocateIsMatchingSubNodes(data, KeyWithPresentValue(key));
      Ok(Some(Locate(data, KeyWithPresentValue(key))))
    else Err(NoMethodError("deep_locate"))
  }

  // ---------------------------------------------------------------------
  // The `results` Array shared by Properties.from and find_all_by_keys
  // ---------------------------------------------------------------------

  /** How one search result sits in `results`: nil stays nil, a list of
      matches is an Array. */
  function AsValue(o: Option<seq<Node>>): Node {
    match o
    case None => Null
    case Some(ms) => Arr(ms)
  }

  /** What one key contributes once `results` is flattened: its matches,
      flattened, or a single nil when the search found nothing. */
  function Found(data: Node, key: string): seq<Node> {
    var ms := FindAll(data, key);
    if ms == [] then [Null] else Flatten(ms)
  }

  /** `Found` for each key in turn, spliced together. */
  function FoundAll(data: Node, keys: seq<string>): seq<Node> {
    if keys == [] then [] else Found(data, keys[0]) + FoundAll(data, keys[1..])
  }

  /** Every match of every key, in key order, before any post-processing. */
  function AllMatches(data: Node, keys: seq<string>): seq<Node> {
    if keys == [] then [] else FindAll(data, keys[0]) + AllMatches(data, keys[1..])
  }

  /** The loop `keys.each { |key| results << deep_find_all_by_key(data, key) }`:
      one entry per key, or the first exception raised. */
  function SearchEach(data: Node, keys: seq<string>): (r: Result<seq<Node>, Error>)
    ensures r.Ok? <==> |keys| == 0 || !Truthy(data) || data.Map?
    ensures r.Ok? ==> |r.value| == |keys|
    ensures !Truthy(data) ==> forall i | 0 <= i < |r.value| :: r.value[i] == Null
    ensures data.Map? ==> Flatten(r.value) == FoundAll(data, keys)
  {
    if keys == [] then Ok([])
    else
      match DeepFindAllByKey(data, keys[0])
      case Err(e) => Err(e)
      case Ok(first) =>
        match SearchEach(data, keys[1..])
        case Err(e) => Err(e)
        case Ok(rest) =>
          FlattenAppend([AsValue(first)], rest);
          Ok([AsValue(first)] + rest)
  }

  // ---------------------------------------------------------------------
  // Properties.from
  // ---------------------------------------------------------------------

  /** One Property view per value, in order. */
  function Wrap(xs: seq<Node>): (ps: seq<Property>)
    ensures Datas(ps) == xs
    ensures |ps| == |xs| && forall i | 0 <= i < |xs| :: ps[i] == Property(xs[i])
  {
    seq(|xs|, i requires 0 <= i < |xs| => Property(xs[i]))
  }

  /** The search results for nil or false data, one nil per key, flatten
      to themselves, `uniq` to a single nil and `compact` to nothing. */
  lemma AllNilResults(results: seq<Node>)
    requires forall i | 0 <= i < |results| :: results[i] == Null
    ensures Flatten(results) == results
    ensures |results| > 0 ==> Uniq(results, Eql) == [Null]
    ensures Compact(results) == []
  {
    assert NoArrays(results);
    if |results| > 0 {
      EqlReflexive(Null);
      UniqOfCopies(results, Null, Eql);
    }
  }

  /** The two nil search results for nil or false data become one nil
      property. */
  lemma NilPropertyList(results: seq<Node>)
    requires results == [Null, Null]
    ensures Wrap(Uniq(Flatten(results), Eql)) == [Property(Null)]
  {
    assert NoArrays(results);
    EqlReflexive(Null);
    UniqOfCopies(results, Null, Eql);
    assert Wrap([Null]) == [Property(Null)];
  }

  /** `FoundAll` over the two spellings. */
  lemma FoundBothSpellings(data: Node)
    ensures FoundAll(data, PropertyKeys) == Found(data, "Property") + Found(data, "property")
  {
    var ks := PropertyKeys;
    assert ks[0] == "Property" && ks[1..][0] == "property" && ks[1..][1..] == [];
    assert FoundAll(data, ks[1..][1..]) == [];
    assert FoundAll(data, ks[1..]) == Found(data, "property") + [];
  }

  /** On a Hash, `uniq` of the flattened results keeps the first
      occurrences of what the two spellings found. */
  lemma HashPropertyList(data: Node, results: seq<Node>)
    requires data.Map? && Flatten(results) == FoundAll(data, PropertyKeys)
    ensures Uniq(Flatten(results), Eql) == FirstOccurrences(Found(data, "Property") + Found(data, "property"), Eql)
  {
    EqlIsEquivalence();
    UniqIsFirstOccurrences(Flatten(results), Eql);
    FoundBothSpellings(data);
  }

  /** What flattening and `uniq` make of the two searches' results. */
  lemma PropertyListShape(data: Node, results: seq<Node>)
    requires SearchEach(data, PropertyKeys) == Ok(results)
    ensures !Truthy(data) ==> Wrap(Uniq(Flatten(results), Eql)) == [Property(Null)]
    ensures data.Map? ==>
      Uniq(Flatten(results), Eql) == FirstOccurrences(Found(data, "Property") + Found(data, "property"), Eql)
  {
    if !Truthy(data) {
      assert results == [Null, Null];
      NilPropertyList(results);
    } else if data.Map? {
      HashPropertyList(data, results);
    }
  }

  /** `Properties.from`: the matches of "Property" then of "property",
      flattened and de-duplicated by value, never compacted, each wrapped as
      a Property. */
  function PropertiesFrom(data: Node): (r: Result<seq<Property>, Error>)
    ensures r.Ok? <==> !Truthy(data) || data.Map?
    ensures r.Ok? ==> NoArrays(Datas(r.value)) && Distinct(Datas(r.value), Eql)
    ensures !Truthy(data) ==> r == Ok([Property(Null)])
    ensures data.Map? ==>
      Datas(r.value) == FirstOccurrences(Found(data, "Property") + Found(data, "property"), Eql)
  {
    match SearchEach(data, PropertyKeys)
    case Err(e) => Err(e)
    case Ok(results) =>
      PropertyListShape(data, results);
      Ok(Wrap(Uniq(Flatten(results), Eql)))
  }

  // ---------------------------------------------------------------------
  // Property#find_all_by_keys and the six field accessors
  // ---------------------------------------------------------------------

  /** On a Hash, nils dropped from the flattened results are exactly the
      nils and empty searches dropped from all matches. */
  lemma {:induction false} CompactFoundAll(data: Node, keys: seq<string>)
    ensures Compact(FoundAll(data, keys)) == Compact(Flatten(AllMatches(data, keys)))
    decreases |keys|
  {
    if keys != [] {
      CompactFoundAll(data, keys[1..]);
      FlattenAppend(FindAll(data, keys[0]), AllMatches(data, keys[1..]));
      CompactAppend(Found(data, keys[0]), FoundAll(data, keys[1..]));
      CompactAppend(Flatten(FindAll(data, keys[0])), Flatten(AllMatches(data, keys[1..])));
    }
  }

  /** What flattening, `uniq` and `compact` make of the searches' results. */
  lemma FieldListShape(data: Node, keys: seq<string>, results: seq<Node>)
    requires SearchEach(data, keys) == Ok(results)
    ensures Clean(Compact(Uniq(Flatten(results), Eql)))
    ensures !Truthy(data) ==> Compact(Uniq(Flatten(results), Eql)) == []
    ensures data.Map? ==>
      Compact(Uniq(Flatten(results), Eql)) == FirstOccurrences(Compact(Flatten(AllMatches(data, keys))), Eql)
  {
    var flat := Flatten(results);
    CompactKeepsDistinct(Uniq(flat, Eql), Eql);
    if !Truthy(data) {
      AllNilResults(results);
      if |results| > 0 {
        assert Compact([Null]) == [];
      }
    } else if data.Map? {
      EqlIsEquivalence();
      UniqIsFirstOccurrences(flat, Eql);
      CompactFirstOccurrences(flat, Eql);
      CompactFoundAll(data, keys);
    }
  }

  /** `Property#find_all_by_keys`: the values stored under any of `keys`
      anywhere in the property, flattened, de-duplicated by value keeping
      the first occurrence (keys in argument order), without nils. */
  function FindAllByKeys(p: Property, keys: seq<string>): (r: Result<seq<Node>, Error>)
    ensures r.Ok? <==> |keys| == 0 || !Truthy(p.data) || p.data.Map?
    ensures r.Ok? ==> Clean(r.value)
    ensures |keys| == 0 || !Truthy(p.data) ==> r == Ok([])
    ensures p.data.Map? ==>
      r.value == FirstOccurrences(Compact(Flatten(AllMatches(p.data, keys))), Eql)
  {
    match SearchEach(p.data, keys)
    case Err(e) => Err(e)
    case Ok(results) =>
      FieldListShape(p.data, keys, results);
      Ok(Compact(Uniq(Flatten(results), Eql)))
  }

  /** The six accessors (`identification` ... `file`): `find_all_by_keys`
      on the group's key, then `compact.uniq`, which changes nothing. */
  function Field(p: Property, g: FieldGroup): (r: Result<seq<Node>, Error>)
    ensures r == FindAllByKeys(p, [SearchKey(g)])
  {
    var found :- FindAllByKeys(p, [SearchKey(g)]);
    UniqOfDistinct(found, Eql);
    Ok(Uniq(Compact(found), Eql))
  }

  // ---------------------------------------------------------------------
  // Record assembly
  // ---------------------------------------------------------------------

  /** `formatted_attributes_for`: the six accessors' results under the six
      keys; it raises when the accessors do. */
  function FormattedAttributesFor(p: Property): (r: Result<Record, Error>)
    ensures r.Ok? <==> !Truthy(p.data) || p.data.Map?
    ensures r.Ok? ==> forall g :: Field(p, g) == Ok(r.value.Get(g)) && Clean(r.value.Get(g))
    ensures !Truthy(p.data) ==> r == Ok(EmptyRecord)
  {
    // All six searches go through the same deep_find_all_by_key dispatch on
    // the same data: once the first succeeds, the other five succeed too.
    match Field(p, Identification)
    case Err(e) => Err(e)
    case Ok(identification) =>
      var record := Record(
        identification,
        Field(p, Information).value,
        Field(p, Policy).value,
        Field(p, Floorplans).value,
        Field(p, Amenities).value,
        Field(p, File).value);
      RecordHoldsFields(p, record);
      Ok(record)
  }

  /** A record built from the six accessors holds each accessor's result
      under its group's key. */
  lemma RecordHoldsFields(p: Property, record: Record)
    requires forall g :: Field(p, g).Ok?
    requires record == Record(
      Field(p, Identification).value, Field(p, Information).value, Field(p, Policy).value,
      Field(p, Floorplans).value, Field(p, Amenities).value, Field(p, File).value)
    ensures forall g :: Field(p, g) == Ok(record.Get(g))
  {
    forall g
      ensures Field(p, g) == Ok(record.Get(g))
    {
      match g
      case Identification =>
      case Information =>
      case Policy =>
      case Floorplans =>
      case Amenities =>
      case File =>
    }
  }

  // ---------------------------------------------------------------------
  // MitsParser.new and #parse
  // ---------------------------------------------------------------------

  /** `MitsParser.new`: anything but an Array or a Hash is refused; the
      properties are then found at once, which fails on an Array because
      only Hash has `deep_find_all`. */
  function New(data: Node): (r: Result<Parser, Error>)
    ensures r == Err(RuntimeError(DataMustBeArrayOrHash)) <==> !data.Arr? && !data.Map?
    ensures data.Arr? ==> r == Err(NoMethodError("deep_find_all"))
    ensures data.Map? ==> r.Ok? && r.value.data == data
    ensures data.Map? ==>
      Datas(r.value.properties) == FirstOccurrences(Found(data, "Property") + Found(data, "property"), Eql)
  {
    if !data.Arr? && !data.Map? then Err(RuntimeError(DataMustBeArrayOrHash))
    else
      match PropertiesFrom(data)
      case Err(e) => Err(e)
      case Ok(properties) => Ok(Parser(data, properties))
  }

  /** `MitsParser#parse`: `formatted_attributes_for` mapped over the
      properties, one record per property in the same order; it raises the
      first exception a property's record raises. */
  function Parse(parser: Parser): (r: Result<seq<Record>, Error>)
    ensures r.Ok? <==> forall i | 0 <= i < |parser.properties| ::
      !Truthy(parser.properties[i].data) || parser.properties[i].data.Map?
    ensures r.Ok? ==> |r.value| == |parser.properties|
    ensures r.Ok? ==> forall i | 0 <= i < |r.value| ::
      forall g :: Field(parser.properties[i], g) == Ok(r.value[i].Get(g)) && Clean(r.value[i].Get(g))
  {
    var r := MapResult(parser.properties, FormattedAttributesFor);
    MappedRecords(parser.properties, r);
    r
  }

  /** What mapping `formatted_attributes_for` over the properties gives. */
  lemma MappedRecords(ps: seq<Property>, r: Result<seq<Record>, Error>)
    requires r == MapResult(ps, FormattedAttributesFor)
    ensures r.Ok? <==> forall i | 0 <= i < |ps| :: !Truthy(ps[i].data) || ps[i].data.Map?
    ensures r.Ok? ==> |r.value| == |ps|
    ensures r.Ok? ==> forall i | 0 <= i < |r.value| ::
      forall g :: Field(ps[i], g) == Ok(r.value[i].Get(g)) && Clean(r.value[i].Get(g))
  {
    forall i | 0 <= i < |ps|
      ensures FormattedAttributesFor(ps[i]).Ok? <==> !Truthy(ps[i].data) || ps[i].data.Map?
    {
    }
  }
}
