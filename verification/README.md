# MITS property parser — a Dafny model

`MitsParser` (in `lib/mits/mits_parser.rb`) takes the Ruby tree a MITS feed
becomes after XML conversion (Hashes, Arrays and scalars, with the root key
"PhysicalProperty" already removed) and turns it into one flat record per
property:

1. `MitsParser.new` refuses anything but an Array or a Hash ("data must be
   array or hash") and finds the properties at once.
2. `Properties.from` deep-searches the tree for the key "Property", then
   for "property". It flattens the two results and removes value-equal
   duplicates (`uniq`). It wraps every survivor as a `Property` and never
   compacts.
3. `parse` maps `formatted_attributes_for` over the properties. That
   builds a six-key Hash (identification, information, policy, floorplans,
   amenities, file) whose values are scoped deep searches of the property.
   Each search is flattened, de-duplicated and compacted.

The deep search is Hashie's `deep_find_all`, mixed into `Hash`. The model
defines it twice and proves the two definitions equal:
- as Hashie computes it: `deep_locate` collects the matching Hashes in
  pre-order, then the key is read out of each;
- as a direct recursive reference definition, `FindAll`.

Ruby's exceptions are `Result` errors. A nil result is `Option.None`, or
`Node.Null` once it sits in an Array.

Modules, one per file:
- `Outcomes` (`outcomes.dfy`): `Option`, `Result`, and `MapResult`, which is
  `Array#map` with a block that may raise.
- `RubyValues` (`ruby_values.dfy`):
  - the `Node` tree;
  - truthiness and ActiveSupport's `blank?`/`present?`;
  - `Hash#[]`;
  - Ruby's `eql?`, the equality `uniq` uses, proved to be an equivalence.
- `ArrayOps` (`array_ops.dfy`): `flatten`, `compact` and `uniq`. `uniq` is
  tied to a reference definition, `FirstOccurrences`.
- `DeepSearch` (`deep_search.dfy`): Hashie's `deep_locate` and
  `deep_find_all`, and their reference definitions.
- `MitsParser` (`mits_parser.dfy`): the parser itself.
- `ParserProperties` (`parser_properties.dfy`): lemmas that relate several
  pipeline steps.
- `Scenarios` (`scenarios.dfy`): small feeds worked through the whole
  pipeline.

### Behaviour worth knowing

- **How `uniq` compares.** `uniq` compares by value (`hash`/`eql?`). Two
  Hashes with the same entries are duplicates whatever their key order
  (`Scenarios.SameAmenitiesCollapse`).
- **The nil property.** `Properties.from` never compacts. On a feed where
  one spelling has no match, that spelling's nil survives flatten and
  `uniq` and becomes `Property.new(nil)`. `parse` then emits an extra
  record at that place with all six fields empty. A feed with two
  properties under "Property" parses to three records, the last one empty
  (`Scenarios.TwoPropertyFeedParse`). An empty Hash parses to a single
  empty record (`Scenarios.EmptyHashProperties`,
  `Scenarios.NilPropertyParses`).
- **An Array root.** The Hashie extensions are mixed into `Hash` only. An
  Array root passes the guard in `initialize` and then raises
  `NoMethodError` for `deep_find_all` (`Scenarios.GuardScenarios`).

## Model

| member | source | states |
|---|---|---|
| RubyValues.GetIsFirstEntry | lib/mits/mits_parser.rb:49 | `Hash#[]` (used by `deep_find_all` to read each located Hash) yields nil when the key is absent, and otherwise the value of the first entry with that key |
| RubyValues.FalsyIsNilOrFalse | lib/mits/mits_parser.rb:48 | the `return unless data` guards (lines 48 and 55) stop only on nil and false (`Truthy`); zero, the empty String and empty collections go on to the search |
| RubyValues.PresentIsTruthy | lib/mits/mits_parser.rb:56 | a `present?` value (`Present`, the negation of `Blank`) is truthy; a truthy value is blank exactly when it is a white-space String or an empty Array or Hash |
| RubyValues.PresentValues | lib/mits/mits_parser.rb:56 | `present?` as the `deep_locate` comparator sees it: Unicode white space is not present, any other character is, every Integer is, nil and false are not, and a collection is present once it holds anything, even nil |
| RubyValues.EqlReflexive | lib/mits/mits_parser.rb:77 | every value is `eql?` to itself, so `uniq` always keeps the first copy of a value |
| RubyValues.EqlSymmetric | lib/mits/mits_parser.rb:77 | `eql?` is symmetric, Hash entries matched in both directions |
| RubyValues.EqlTransitive | lib/mits/mits_parser.rb:77 | `eql?` is transitive, through nested Arrays and Hashes |
| RubyValues.EqlKeepsShape | lib/mits/mits_parser.rb:108 | `eql?` relates nil only to nil and an Array only to an Array, so `uniq` never merges a nil into a value `compact` would keep |
| ArrayOps.Flatten | lib/mits/mits_parser.rb:77 | `flatten` leaves no Array element at any depth, and changes nothing on an Array without nested Arrays |
| ArrayOps.FlattenNested | lib/mits/mits_parser.rb:77 | a nested Array flattens to the flattening of its own items; with `FlattenAppend` and the flat case this fixes `flatten`'s result, order included, on every input |
| ArrayOps.FlattenMembers | lib/mits/mits_parser.rb:77 | a value is in the flattened Array exactly when it is not an Array and sits in the input at some depth of nested Arrays: nothing is dropped, nothing invented |
| ArrayOps.FlattenAppend | lib/mits/mits_parser.rb:73-77 | flattening the per-key results splices each key's flattened matches in key order |
| ArrayOps.FlattenIdempotent | lib/mits/mits_parser.rb:77 | flattening twice is flattening once |
| ArrayOps.Compact | lib/mits/mits_parser.rb:108 | `compact` leaves no nil, its elements are exactly the input's non-nil elements, and it changes nothing on an Array without nil |
| ArrayOps.CompactAppend | lib/mits/mits_parser.rb:108 | `compact` distributes over splicing |
| ArrayOps.CompactKeepsDistinct | lib/mits/mits_parser.rb:108 | `compact` after `uniq` keeps the Array free of duplicates |
| ArrayOps.Uniq | lib/mits/mits_parser.rb:77 | `uniq` leaves no two related elements, never grows the Array and only keeps elements of the input |
| ArrayOps.FirstOccurrencesAppendNew | lib/mits/mits_parser.rb:77 | a value related to nothing before it is kept, at the end |
| ArrayOps.UniqIsFirstOccurrences | lib/mits/mits_parser.rb:77 | `uniq` (left-to-right, comparing with what it kept) equals the reference "elements not related to any earlier element, in order" for every equivalence |
| ArrayOps.UniqCovers | lib/mits/mits_parser.rb:77 | nothing is lost to `uniq`: every input element is related to an element it keeps |
| ArrayOps.UniqOfDistinct | lib/mits/mits_parser.rb:119 | `uniq` changes nothing on a duplicate-free Array, so the accessors' trailing `.uniq` is a no-op |
| ArrayOps.UniqIdempotent | lib/mits/mits_parser.rb:119 | `uniq` twice is `uniq` once |
| ArrayOps.UniqOfCopies | lib/mits/mits_parser.rb:77 | repeated copies of one value (the nils of nil data) collapse to one |
| ArrayOps.UniqPrefix | lib/mits/mits_parser.rb:73-77 | what `uniq` keeps from the "Property" matches is a prefix of what it keeps from both spellings |
| ArrayOps.CompactFirstOccurrences | lib/mits/mits_parser.rb:108 | for an equality that separates nil, `uniq` then `compact` equals `compact` then `uniq` |
| ArrayOps.EqlIsEquivalence | lib/mits/mits_parser.rb:77 | `eql?` is an equivalence that separates nil from everything else |
| DeepSearch.Locate | lib/mits/mits_parser.rb:56 | every value `deep_locate` returns has an entry the comparator accepts |
| DeepSearch.LocateIsMatchingSubNodes | lib/mits/mits_parser.rb:56 | `deep_locate` returns exactly the values of the tree with an accepted entry, in pre-order, without pruning below a match |
| DeepSearch.KeyIsMatchesHashesWithKey | lib/mits/mits_parser.rb:49 | the comparator built from a plain key accepts exactly the Hashes holding that key (never an Array) |
| DeepSearch.LocateThenReadIsFindAll | lib/mits/mits_parser.rb:49 | locating the Hashes with the key and reading the key from each equals the reference pre-order deep find |
| DeepSearch.DeepFindAll | lib/mits/mits_parser.rb:18-21 | `Hash#deep_find_all` is nil exactly when the reference deep find is empty, and the reference deep find otherwise |
| MitsParser.DeepFindAllByKey | lib/mits/mits_parser.rb:47-50 | nil or false data gives nil without searching; a Hash gives the deep find, nil when empty; any other value raises `NoMethodError` |
| MitsParser.DeepLocateAllByKey | lib/mits/mits_parser.rb:54-57 | nil or false data gives nil; a Hash gives, in pre-order, every value holding the key with a `present?` value; any other value raises `NoMethodError` |
| MitsParser.SearchEach | lib/mits/mits_parser.rb:73-75 | the per-key loop succeeds exactly when no keys are given or the data is nil, false or a Hash; it gives one entry per key (all nil for nil data) whose flattening is each key's matches, or a single nil for a key with none, in key order |
| MitsParser.AllNilResults | lib/mits/mits_parser.rb:48 | the per-key nils of nil data flatten to themselves, `uniq` to one nil and `compact` to nothing |
| MitsParser.PropertyListShape | lib/mits/mits_parser.rb:77-78 | flatten plus `uniq` gives one nil property for nil data, and the first occurrences of the two spellings' matches for a Hash |
| MitsParser.PropertiesFrom | lib/mits/mits_parser.rb:70-79 | `Properties.from` succeeds exactly on nil, false or a Hash; its properties are flat and pairwise not `eql?`; they are the first occurrences of the "Property" matches then the "property" matches, each spelling without matches contributing a nil |
| MitsParser.CompactFoundAll | lib/mits/mits_parser.rb:104-108 | after `compact`, the per-key nils for keys without matches vanish, leaving all matches flattened in key order |
| MitsParser.FieldListShape | lib/mits/mits_parser.rb:108 | flatten, `uniq`, `compact` leaves no nil, no Array and no duplicate: nothing for nil data, the first occurrences of the non-nil matches for a Hash |
| MitsParser.FindAllByKeys | lib/mits/mits_parser.rb:101-109 | `find_all_by_keys` raises exactly on a truthy non-Hash searched with at least one key; gives `[]` when no keys are given or the data is nil or false; otherwise gives a clean list equal to the first occurrences of all non-nil matches of the keys, in argument order |
| MitsParser.Field | lib/mits/mits_parser.rb:118-140 | each accessor equals `find_all_by_keys` on its single key: the trailing `.compact.uniq` changes nothing |
| MitsParser.FormattedAttributesFor | lib/mits/mits_parser.rb:153-187 | the record exists exactly when the property data is nil, false or a Hash; each of its six keys holds that accessor's clean result; nil data gives the all-empty record |
| MitsParser.RecordHoldsFields | lib/mits/mits_parser.rb:177-186 | the record built from the six accessors holds each accessor's result under its own key |
| MitsParser.New | lib/mits/mits_parser.rb:26-36 | the guard error arises exactly for a non-Array non-Hash; an Array raises `NoMethodError`; a Hash yields a parser over that data whose properties are the first occurrences of the two spellings' matches |
| Outcomes.MapResult | lib/mits/mits_parser.rb:40 | `map` with a block that may raise succeeds exactly when the block succeeds on every element, giving their results in order and one per element; otherwise it raises the error of the first element whose block raises |
| MitsParser.MappedRecords | lib/mits/mits_parser.rb:40 | mapping `formatted_attributes_for` succeeds exactly when every property is nil, false or a Hash; it gives one record per property, the i-th holding the i-th property's accessor results |
| MitsParser.Parse | lib/mits/mits_parser.rb:39-41 | `parse` gives one record per property in order, each holding that property's six accessor results, and fails exactly when some property is a truthy non-Hash |
| ParserProperties.EqlNilIsNil | lib/mits/mits_parser.rb:77 | only nil is `eql?` to nil |
| ParserProperties.NilPropertyIffNilFound | lib/mits/mits_parser.rb:73-78 | the property list of a Hash holds a nil exactly when one of the spellings contributed one |
| ParserProperties.MissingSpellingLeavesOneNil | lib/mits/mits_parser.rb:74-78 | when either spelling has no match the property list holds exactly one nil property |
| ParserProperties.NilPropertyRecordIsEmpty | lib/mits/mits_parser.rb:105-108 | a nil property's six fields are all `[]` |
| ParserProperties.MissingSpellingAddsEmptyRecord | lib/mits/mits_parser.rb:39-41 | so `parse` emits, at the nil property's place, a record with all six fields empty |
| ParserProperties.CapitalisedSpellingFirst | lib/mits/mits_parser.rb:73-77 | the property list starts with what `uniq` keeps of the "Property" matches alone |
| ParserProperties.FindAllByKeysSoundAndComplete | lib/mits/mits_parser.rb:101-109 | every value `find_all_by_keys` returns is a non-nil match, and every non-nil match is `eql?` to a returned value |
| ParserProperties.AbsentGroupIsEmpty | lib/mits/mits_parser.rb:118-140 | a group key occurring nowhere in a Hash property gives `[]` |
| Scenarios.GuardScenarios | lib/mits/mits_parser.rb:26-35 | nil, an Integer and a String fail the guard; an empty Array passes it and raises `NoMethodError` |
| Scenarios.NothingFoundOneNilProperty | lib/mits/mits_parser.rb:70-79 | a Hash where neither spelling matches has exactly one property, a nil one |
| Scenarios.EmptyHashProperties | lib/mits/mits_parser.rb:70-79 | an empty Hash has one nil property |
| Scenarios.NilPropertyParses | lib/mits/mits_parser.rb:39-41 | a single nil property parses to one all-empty record |
| Scenarios.TwoHashesAndNilProperties | lib/mits/mits_parser.rb:73-78 | two differently sized Hashes under "Property" and nothing under "property" give three properties, the last nil |
| Scenarios.TwoPropertyFeedProperties | lib/mits/mits_parser.rb:26-36 | a feed with two properties under "Property" gets those two plus a nil property |
| Scenarios.TwoPropertyFeedParse | lib/mits/mits_parser.rb:39-41 | that feed parses to the two properties' records (identification; identification and amenities) followed by an all-empty record |
| Scenarios.TwoMatchesField | lib/mits/mits_parser.rb:101-109 | a group found at two Hashes holds one of them if they are `eql?`, both in order otherwise |
| Scenarios.SwappedHashEql | lib/mits/mits_parser.rb:77 | Hashes with the same entries in another order are `eql?` |
| Scenarios.SameAmenitiesCollapse | lib/mits/mits_parser.rb:134-136 | amenities listed twice with the keys in another order collapse to one entry |
| Scenarios.DifferentValueNotEql | lib/mits/mits_parser.rb:77 | Hashes differing in one value are not `eql?` |
| Scenarios.DifferentAmenitiesKept | lib/mits/mits_parser.rb:134-136 | amenities listed twice with a different value are both kept, in the order found |

## Left out

- XML conversion (`Hash.from_xml`) and removal of the root key are left out: the model starts from the converted tree.
- Hashie and ActiveSupport are not modelled as libraries. `deep_locate`, `deep_find_all`, `blank?`/`present?`, `flatten`, `compact`, `uniq` and `eql?` are re-specified from their documented behaviour.
- Floats, Symbols, Times and the other scalars `Hash.from_xml` produces for elements with a `type` attribute are left out: the model covers feeds without `type` attributes, whose scalars are Strings and nil. Integers and booleans are kept as further scalar kinds.
- The `Node` type does not enforce that a Hash holds each key once. `Hash#[]` reads the first entry with the key, which agrees with Ruby on every real Hash.
- The output Hash's six Symbol keys are the six fields of `Record`. That every record has exactly those keys therefore holds by construction and has no separate lemma.
- The `ArgumentError` branch of `formatted_attributes_for` (lines 154-156) is left out: every element `parse` passes is a `Property`.
- The commented-out `:raw_hash` key, the `awesome_print` and `pry` requires, the usage comments and the private-method visibility are left out.
- The parser's instance state is immutable here: `New` returns the data and the property list, and `Parse` is a function of them. Calling `parse` twice therefore gives the same records trivially and has no lemma.
- MitsParser.DeepLocateAllByKey is modelled, but nothing in the pipeline calls it, so no lemma connects it to parsing.
- MitsParser.FormattedAttributesFor: when the data is a truthy non-Hash it returns the first accessor's `NoMethodError`. It does not say which of the six accessors raised, because all six would.
- `test/mits_parser_test.rb` and the `lib/experiments` scripts load fixtures, call Nokogiri and the file system, and print. They are I/O and foreign libraries, so they are left out.
