/** Properties of the whole pipeline that relate several of its steps: the
    nil property a missing spelling leaves behind, the order of the property
    list, and what the field lists contain. */
module ParserProperties {
  import opened Outcomes
  import opened RubyValues
  import opened ArrayOps
  import opened DeepSearch
  import opened MitsParser

  /** An element is `eql?` to nil only if it is nil. */
  lemma EqlNilIsNil(a: Node)
    requires Eql(a, Null)
    ensures a == Null
  {
    EqlKeepsShape(a, Null);
  }

  /** The property list holds a nil exactly when one of the two spellings
      contributed a nil: it found nothing, or a match is itself nil. */
  lemma NilPropertyIffNilFound(data: Node)
    requires data.Map?
    ensures New(data).Ok?
    ensures Null in Datas(New(data).value.properties)
        <==> Null in Found(data, "Property") + Found(data, "property")
  {
    var xs := Found(data, "Property") + Found(data, "property");
    var props := Datas(New(data).value.properties);
    EqlIsEquivalence();
    UniqIsFirstOccurrences(xs, Eql);
    assert props == Uniq(xs, Eql);
    if Null in xs {
      UniqCovers(xs, Eql);
      var k :| 0 <= k < |xs| && xs[k] == Null;
      assert CoveredBy(props, xs[k], Eql);
      var j :| 0 <= j < |props| && Eql(props[j], xs[k]);
      EqlNilIsNil(props[j]);
    }
  }

  /** When either spelling has no match at all, the property list holds
      exactly one nil: `compact` is never applied, and `uniq` merges the
      nils of both spellings. */
  lemma {:induction false} MissingSpellingLeavesOneNil(data: Node)
    requires data.Map?
    requires FindAll(data, "Property") == [] || FindAll(data, "property") == []
    ensures New(data).Ok?
    ensures exists i | 0 <= i < |New(data).value.properties| ::
      && New(data).value.properties[i].data == Null
      && forall j | 0 <= j < |New(data).value.properties| && j != i ::
           New(data).value.properties[j].data != Null
  {
    var ps := New(data).value.properties;
    var props := Datas(ps);
    NilPropertyIffNilFound(data);
    assert Null in Found(data, "Property") + Found(data, "property");
    var i :| 0 <= i < |props| && props[i] == Null;
    EqlReflexive(Null);
    assert Distinct(props, Eql);
    forall j | 0 <= j < |ps| && j != i
      ensures ps[j].data != Null
    {
      if i < j {
        assert !Eql(props[i], props[j]);
      } else {
        assert !Eql(props[j], props[i]);
      }
    }
  }

  /** A record whose every field is what `Field` gives a nil property is
      the all-empty record. */
  lemma NilPropertyRecordIsEmpty(p: Property, rec: Record)
    requires p.data == Null
    requires forall g :: Field(p, g) == Ok(rec.Get(g))
    ensures rec == EmptyRecord
  {
    assert Field(p, Identification) == Ok(rec.Get(Identification));
    assert Field(p, Information) == Ok(rec.Get(Information));
    assert Field(p, Policy) == Ok(rec.Get(Policy));
    assert Field(p, Floorplans) == Ok(rec.Get(Floorplans));
    assert Field(p, Amenities) == Ok(rec.Get(Amenities));
    assert Field(p, File) == Ok(rec.Get(File));
  }

  /** So `parse` then emits, at the nil property's place, a record whose
      six fields are all empty. */
  lemma MissingSpellingAddsEmptyRecord(data: Node, parser: Parser, records: seq<Record>)
    requires data.Map?
    requires FindAll(data, "Property") == [] || FindAll(data, "property") == []
    requires New(data) == Ok(parser) && Parse(parser) == Ok(records)
    ensures exists i | 0 <= i < |records| :: parser.properties[i].data == Null && records[i] == EmptyRecord
  {
    MissingSpellingLeavesOneNil(data);
    var i :| 0 <= i < |parser.properties| && parser.properties[i].data == Null;
    assert forall g :: Field(parser.properties[i], g) == Ok(records[i].Get(g));
    NilPropertyRecordIsEmpty(parser.properties[i], records[i]);
  }

  /** Every "Property" match comes before every "property" match: the list
      starts with what `uniq` keeps of the "Property" matches alone. */
  lemma CapitalisedSpellingFirst(data: Node)
    requires data.Map?
    ensures New(data).Ok?
    ensures Uniq(Found(data, "Property"), Eql) <= Datas(New(data).value.properties)
  {
    var xs := Found(data, "Property") + Found(data, "property");
    EqlIsEquivalence();
    UniqIsFirstOccurrences(xs, Eql);
    UniqPrefix(Found(data, "Property"), Found(data, "property"), Eql);
  }

  /** `find_all_by_keys` on a Hash loses nothing and invents nothing: each
      value it returns is a non-nil match of one of the keys, and each
      non-nil match is `eql?` to a value it returns. */
  lemma FindAllByKeysSoundAndComplete(p: Property, keys: seq<string>)
    requires p.data.Map?
    ensures FindAllByKeys(p, keys).Ok?
    ensures forall x | x in FindAllByKeys(p, keys).value :: x in Flatten(AllMatches(p.data, keys)) && !x.Null?
    ensures Covers(FindAllByKeys(p, keys).value, Compact(Flatten(AllMatches(p.data, keys))), Eql)
  {
    var ms := Compact(Flatten(AllMatches(p.data, keys)));
    EqlIsEquivalence();
    UniqIsFirstOccurrences(ms, Eql);
    UniqCovers(ms, Eql);
    assert FindAllByKeys(p, keys).value == Uniq(ms, Eql);
    forall x | x in Uniq(ms, Eql)
      ensures x in Flatten(AllMatches(p.data, keys)) && !x.Null?
    {
      assert x in ms;
    }
  }

  /** A field group that occurs nowhere in a Hash property is an empty list. */
  lemma AbsentGroupIsEmpty(p: Property, g: FieldGroup)
    requires p.data.Map? && FindAll(p.data, SearchKey(g)) == []
    ensures Field(p, g) == Ok([])
  {
    assert AllMatches(p.data, [SearchKey(g)]) == [];
  }
}
