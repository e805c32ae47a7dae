/** Inferring a schema from sample values (`_schema`, `_merge_schema_samples`). */
module SchemaInference {
  import opened Sequences
  import opened Ordering
  import opened SchemaModel
  import opened SchemaMerge
  import opened SchemaLaws
  import opened SchemaShape
  import opened SchemaOrder
  import opened SchemaSettled
  import opened SchemaAcceptance

  datatype Option<T> = None | Some(value: T)

  /** A schema and what is left of the shared key budget. */
  datatype Inferred = Inferred(schema: Schema, budget: int)
  datatype InferredMembers = InferredMembers(properties: map<string, Schema>, budget: int)
  datatype InferredItems = InferredItems(schemas: seq<Schema>, budget: int)

  /** The node that stands for a value at the depth limit: its type, and nothing below. */
  function CutOff(value: Json): Schema {
    match JsonType(value)
    case ObjectType => ObjectNode(map[], {}, false, true)
    case ArrayType => ArrayNode(EMPTY, false, true)
    case ScalarType(kind) => Scalar(kind, false, true)
  }

  function Sampled(elements: seq<Json>): nat {
    if |elements| < ITEM_SAMPLE then |elements| else ITEM_SAMPLE
  }

  /** The specification of `_schema`: the key budget is threaded through in reading order. */
  function Infer(value: Json, depth: nat, limit: nat, budget: int): Inferred
    decreases value, 1, 0
  {
    if depth >= limit then
      Inferred(CutOff(value), budget)
    else match value
      case JObject(members) =>
        var inferred := InferMembers(value, SortedKeys(members.Keys), depth, limit, budget);
        var properties := inferred.properties;
        Inferred(ObjectNode(properties, properties.Keys, false, |properties| < |members|), inferred.budget)
      case JArray(elements) =>
        var inferred := InferItems(value, 0, depth, limit, budget);
        Inferred(ArrayNode(ItemSchema(inferred.schemas), false, false), inferred.budget)
      case _ =>
        Inferred(Scalar(JsonType(value).kind, false, false), budget)
  }

  function ItemSchema(schemas: seq<Schema>): Schema {
    if schemas == [] then Scalar(UnknownKind, false, false) else MergeAll(schemas)
  }

  function InferMembers(value: Json, keys: seq<string>, depth: nat, limit: nat, budget: int): (inferred: InferredMembers)
    requires value.JObject? && forall key :: key in keys ==> key in value.members
    ensures forall key :: key in inferred.properties ==> key in keys
    decreases value, 0, |keys|
  {
    if keys == [] || budget <= 0 then
      InferredMembers(map[], budget)
    else
      var first := Infer(value.members[keys[0]], depth + 1, limit, budget - 1);
      var rest := InferMembers(value, keys[1..], depth, limit, first.budget);
      InferredMembers(map[keys[0] := first.schema] + rest.properties, rest.budget)
  }

  function InferItems(value: Json, from: nat, depth: nat, limit: nat, budget: int): (inferred: InferredItems)
    requires value.JArray? && from <= Sampled(value.elements)
    ensures |inferred.schemas| == Sampled(value.elements) - from
    decreases value, 0, |value.elements| - from
  {
    if from == Sampled(value.elements) then
      InferredItems([], budget)
    else
      var first := Infer(value.elements[from], depth + 1, limit, budget);
      var rest := InferItems(value, from + 1, depth, limit, first.budget);
      InferredItems([first.schema] + rest.schemas, rest.budget)
  }

  // ----- Every inferred schema is canonical and describes its value -----

  ghost predicate Describes(schema: Schema, value: Json, room: nat) {
    Canonical(schema, room) && Accepts(schema, value) && !schema.optional
  }

  lemma CutOffDescribes(value: Json)
    ensures Describes(CutOff(value), value, 0)
  {
  }

  lemma ScalarDescribes(value: Json, room: nat)
    requires JsonType(value).ScalarType?
    ensures Describes(Scalar(JsonType(value).kind, false, false), value, room)
  {
  }

  lemma {:induction false} InferDescribes(value: Json, depth: nat, limit: nat, budget: int)
    requires depth <= limit
    ensures Describes(Infer(value, depth, limit, budget).schema, value, limit - depth)
    decreases value, 1, 0
  {
    hide InferMembers, InferItems, SortedKeys, ItemSchema, Describes, CutOff;
    if depth == limit {
      CutOffDescribes(value);
    } else {
      match value {
        case JObject(members) =>
          MembersDescribe(value, SortedKeys(members.Keys), depth, limit, budget);
          ObjectDescribes(value, InferMembers(value, SortedKeys(members.Keys), depth, limit, budget).properties, limit - depth);
        case JArray(elements) =>
          ItemsDescribe(value, 0, depth, limit, budget);
          ArrayDescribes(value, InferItems(value, 0, depth, limit, budget).schemas, limit - depth);
        case _ =>
          ScalarDescribes(value, limit - depth);
      }
    }
  }

  lemma {:induction false} MembersDescribe(value: Json, keys: seq<string>, depth: nat, limit: nat, budget: int)
    requires value.JObject? && forall key :: key in keys ==> key in value.members
    requires depth < limit
    ensures forall key :: key in InferMembers(value, keys, depth, limit, budget).properties ==>
      Describes(InferMembers(value, keys, depth, limit, budget).properties[key], value.members[key], limit - depth - 1)
    decreases value, 0, |keys|
  {
    hide Describes, Infer;
    if keys != [] && budget > 0 {
      InferDescribes(value.members[keys[0]], depth + 1, limit, budget - 1);
      var first := Infer(value.members[keys[0]], depth + 1, limit, budget - 1);
      MembersDescribe(value, keys[1..], depth, limit, first.budget);
    }
  }

  lemma {:induction false} ItemsDescribe(value: Json, from: nat, depth: nat, limit: nat, budget: int)
    requires value.JArray? && from <= Sampled(value.elements) && depth < limit
    ensures forall i :: 0 <= i < |InferItems(value, from, depth, limit, budget).schemas| ==>
      Describes(InferItems(value, from, depth, limit, budget).schemas[i], value.elements[from + i], limit - depth - 1)
    decreases value, 0, |value.elements| - from
  {
    hide Describes;
    if from < Sampled(value.elements) {
      InferDescribes(value.elements[from], depth + 1, limit, budget);
      var first := Infer(value.elements[from], depth + 1, limit, budget);
      ItemsDescribe(value, from + 1, depth, limit, first.budget);
      var rest := InferItems(value, from + 1, depth, limit, first.budget).schemas;
      forall i | 0 <= i < 1 + |rest|
        ensures Describes(([first.schema] + rest)[i], value.elements[from + i], limit - depth - 1)
      {
        if i > 0 {
          assert ([first.schema] + rest)[i] == rest[i - 1];
          assert value.elements[from + i] == value.elements[from + 1 + (i - 1)];
        }
      }
    }
  }

  lemma ObjectDescribes(value: Json, properties: map<string, Schema>, room: nat)
    requires value.JObject? && room > 0 && properties.Keys <= value.members.Keys
    requires forall key :: key in properties ==> Describes(properties[key], value.members[key], room - 1)
    ensures Describes(ObjectNode(properties, properties.Keys, false, |properties| < |value.members|), value, room)
  {
    assert NotOptional(properties) == properties.Keys;
    if |properties| >= |value.members| {
      KeysCount(properties);
      KeysCount(value.members);
      SameSize(properties.Keys, value.members.Keys);
    }
  }

  lemma KeysCount<V>(table: map<string, V>)
    ensures |table.Keys| == |table|
  {
  }

  lemma SameSize<T>(part: set<T>, whole: set<T>)
    requires part <= whole && |part| >= |whole|
    ensures part == whole
  {
    assert whole == part + (whole - part);
  }

  lemma ArrayDescribes(value: Json, schemas: seq<Schema>, room: nat)
    requires value.JArray? && room > 0 && |schemas| == Sampled(value.elements)
    requires forall i :: 0 <= i < |schemas| ==> Describes(schemas[i], value.elements[i], room - 1)
    ensures Describes(ArrayNode(ItemSchema(schemas), false, false), value, room)
  {
    hide MergeAll, View, Join, Height;
    if schemas != [] {
      MergeAllView(schemas, room - 1);
      forall i | 0 <= i < |schemas| ensures Accepts(MergeAll(schemas), value.elements[i]) {
        MergeAllAccepts(schemas, i, value.elements[i], room - 1);
      }
    }
  }

  /** A fold accepts whatever any of the folded schemas accepts. */
  lemma {:induction false} MergeAllAccepts(schemas: seq<Schema>, i: nat, value: Json, room: nat)
    requires AllCanonical(schemas, room) && i < |schemas| && Accepts(schemas[i], value)
    ensures Canonical(MergeAll(schemas), room) && Accepts(MergeAll(schemas), value)
    decreases |schemas|
  {
    hide Accepts, Canonical, Merge, View, Join;
    MergeAllView(schemas, room);
    var last := |schemas| - 1;
    if last > 0 {
      MergeAllView(schemas[..last], room);
      if i < last {
        MergeAllAccepts(schemas[..last], i, value, room);
      }
      MergeAcceptsBoth(MergeAll(schemas[..last]), schemas[last], value, room);
    }
  }

  // ----- The samples of one endpoint -----

  /** Each sample is inferred with a budget of its own. */
  function SampleSchemas(samples: seq<Json>, limit: nat, keys: int): (schemas: seq<Schema>)
    ensures |schemas| == |samples|
    ensures forall i :: 0 <= i < |samples| ==> schemas[i] == Infer(samples[i], 0, limit, keys).schema
  {
    seq(|samples|, i requires 0 <= i < |samples| => Infer(samples[i], 0, limit, keys).schema)
  }

  lemma SampleSchemasDescribe(samples: seq<Json>, limit: nat, keys: int)
    ensures AllCanonical(SampleSchemas(samples, limit, keys), limit)
    ensures forall i :: 0 <= i < |samples| ==> Accepts(SampleSchemas(samples, limit, keys)[i], samples[i])
  {
    hide Infer;
    forall i | 0 <= i < |samples|
      ensures Describes(SampleSchemas(samples, limit, keys)[i], samples[i], limit)
    {
      InferDescribes(samples[i], 0, limit, keys);
    }
  }

  /** The schema of an endpoint is canonical and accepts every sample it was built from. */
  lemma SamplesAccepted(samples: seq<Json>, limit: nat, keys: int)
    requires samples != []
    ensures Canonical(MergeAll(SampleSchemas(samples, limit, keys)), limit)
    ensures forall sample :: sample in samples ==> Accepts(MergeAll(SampleSchemas(samples, limit, keys)), sample)
  {
    hide Accepts, Canonical, MergeAll, Infer, View, Join;
    SampleSchemasDescribe(samples, limit, keys);
    MergeAllView(SampleSchemas(samples, limit, keys), limit);
    forall sample | sample in samples
      ensures Accepts(MergeAll(SampleSchemas(samples, limit, keys)), sample)
    {
      var i :| 0 <= i < |samples| && samples[i] == sample;
      MergeAllAccepts(SampleSchemas(samples, limit, keys), i, sample, limit);
    }
  }

  /** Reordering the samples changes at most the marks on union variants. */
  lemma SamplesReordered(one: seq<Json>, other: seq<Json>, limit: nat, keys: int)
    requires one != [] && multiset(one) == multiset(other)
    ensures other != []
    ensures SameButMarks(MergeAll(SampleSchemas(one, limit, keys)), MergeAll(SampleSchemas(other, limit, keys)), false)
  {
    hide Infer, View, Join, MergeAll, SameButMarks;
    assert |one| == |multiset(one)| == |multiset(other)| == |other|;
    SampleSchemasDescribe(one, limit, keys);
    SchemasReordered(one, other, limit, keys);
    ReorderedMerge(SampleSchemas(one, limit, keys), SampleSchemas(other, limit, keys), limit);
  }

  lemma SchemasWithout(samples: seq<Json>, i: nat, limit: nat, keys: int)
    requires i < |samples|
    ensures SampleSchemas(Without(samples, i), limit, keys) ==
      Without(SampleSchemas(samples, limit, keys), i)
  {
    hide Infer;
  }

  lemma {:induction false} SchemasReordered(one: seq<Json>, other: seq<Json>, limit: nat, keys: int)
    requires multiset(one) == multiset(other)
    ensures multiset(SampleSchemas(one, limit, keys)) == multiset(SampleSchemas(other, limit, keys))
    decreases |one|
  {
    hide Infer;
    assert |one| == |multiset(one)| == |multiset(other)| == |other|;
    if one != [] {
      var last := |one| - 1;
      assert one[last] in multiset(other);
      var i :| 0 <= i < |other| && other[i] == one[last];
      RemoveOne(one, last);
      RemoveOne(other, i);
      SchemasReordered(Without(one, last), Without(other, i), limit, keys);
      SchemasWithout(one, last, limit, keys);
      SchemasWithout(other, i, limit, keys);
      var ones, others := SampleSchemas(one, limit, keys), SampleSchemas(other, limit, keys);
      RemoveOne(ones, last);
      RemoveOne(others, i);
      PutBack(ones, last);
      PutBack(others, i);
    }
  }

  /** Every order of the schemas is the schemas of some order of the samples. */
  lemma {:induction false} SamplesOf(samples: seq<Json>, schemas: seq<Schema>, limit: nat, keys: int) returns (other: seq<Json>)
    requires Reordered(SampleSchemas(samples, limit, keys), schemas)
    ensures Reordered(samples, other) && SampleSchemas(other, limit, keys) == schemas
    decreases |schemas|
  {
    hide Infer, SampleSchemas, Without;
    var whole := SampleSchemas(samples, limit, keys);
    SameMembers(whole, schemas);
    if schemas == [] {
      other := samples;
    } else {
      var last := |schemas| - 1;
      assert schemas[last] in whole;
      var i :| 0 <= i < |whole| && whole[i] == schemas[last];
      WithoutBoth(whole, i, schemas, last);
      SchemasWithout(samples, i, limit, keys);
      WithoutLast(schemas);
      var fewer := SamplesOf(Without(samples, i), schemas[..last], limit, keys);
      other := fewer + [samples[i]];
      MovedLast(samples, i, fewer);
      SchemasAppend(fewer, samples[i], limit, keys);
      SplitLast(schemas);
    }
  }

  lemma SchemasAppend(samples: seq<Json>, last: Json, limit: nat, keys: int)
    ensures SampleSchemas(samples + [last], limit, keys) ==
      SampleSchemas(samples, limit, keys) + [Infer(last, 0, limit, keys).schema]
  {
    hide Infer;
  }

  /** The order of the samples does not matter exactly if no position of their schemas is undecided. */
  lemma SamplesReorderedExact(samples: seq<Json>, limit: nat, keys: int)
    requires samples != []
    ensures Settled(SeenAll(SampleSchemas(samples, limit, keys)), limit) <==>
      forall other: seq<Json> :: Reordered(samples, other) ==>
        other != [] && MergeAll(SampleSchemas(other, limit, keys)) == MergeAll(SampleSchemas(samples, limit, keys))
  {
    hide Infer, MergeAll, Settled;
    var schemas := SampleSchemas(samples, limit, keys);
    SampleSchemasDescribe(samples, limit, keys);
    ReorderedMergeExact(schemas, limit);
    if OrderIrrelevant(schemas) {
      forall other: seq<Json> | Reordered(samples, other)
        ensures other != [] && MergeAll(SampleSchemas(other, limit, keys)) == MergeAll(schemas)
      {
        SameMembers(samples, other);
        SchemasReordered(samples, other, limit, keys);
        assert Reordered(schemas, SampleSchemas(other, limit, keys));
      }
    } else {
      var others :| Reordered(schemas, others) && (others == [] || MergeAll(others) != MergeAll(schemas));
      var other := SamplesOf(samples, others, limit, keys);
      SameMembers(samples, other);
    }
  }

  // ----- What the root of an endpoint's schema says -----

  /** Object schemas fold to the union of their properties and the intersection of what they require. */
  lemma {:induction false} ObjectsFold(schemas: seq<Schema>)
    requires schemas != [] && forall schema :: schema in schemas ==> schema.ObjectNode?
    ensures MergeAll(schemas).ObjectNode?
    ensures forall key :: key in MergeAll(schemas).properties <==> exists i :: 0 <= i < |schemas| && key in schemas[i].properties
    ensures forall key :: key in MergeAll(schemas).required <==> forall i :: 0 <= i < |schemas| ==> key in schemas[i].required
  {
    hide Height, Merge;
    var last := |schemas| - 1;
    if last > 0 {
      var before := schemas[..last];
      ObjectsFold(before);
      assert forall i :: 0 <= i < last ==> before[i] == schemas[i];
      MergeObjectKeys(MergeAll(before), schemas[last]);
      assert forall key :: key in MergeAll(schemas).properties <==>
        key in MergeAll(before).properties || key in schemas[last].properties;
    }
  }

  /** A schema accepts only values of the types it lists. */
  lemma AcceptedTypeListed(schema: Schema, value: Json, room: nat)
    requires Canonical(schema, room) && Accepts(schema, value)
    ensures AllPlain(Variants(schema)) && JsonType(value) in TypeTable(schema)
  {
    hide Height, ByType, Ordered;
    TypeTableProperties(schema, room);
    if schema.AnyOf? {
      var variant :| variant in schema.variants && Accepts(variant, value);
      assert TypeOf(variant) == JsonType(value);
    }
  }

  lemma MergedTypes(left: Schema, right: Schema, room: nat)
    requires Canonical(left, room) && Canonical(right, room)
    ensures Canonical(Merge(left, right), room)
    ensures AllPlain(Variants(left)) && AllPlain(Variants(right)) && AllPlain(Variants(Merge(left, right)))
    ensures TypeTable(Merge(left, right)).Keys == TypeTable(left).Keys + TypeTable(right).Keys
  {
    hide Height, Merge, TypeTable, Canonical, View, KindOf, JoinKinds;
    MergeCanonical(left, right, room);
    KindsOfTable(left, room);
    KindsOfTable(right, room);
    KindsOfTable(Merge(left, right), room);
    ViewMerge(left, right, room);
    assert Join(View(left), View(right)).kinds.Keys == View(left).kinds.Keys + View(right).kinds.Keys;
  }

  lemma {:induction false} FoldTypes(schemas: seq<Schema>, name: TypeName, room: nat)
    requires schemas != [] && AllCanonical(schemas, room)
    ensures Canonical(MergeAll(schemas), room)
    ensures AllPlain(Variants(MergeAll(schemas))) && forall i :: 0 <= i < |schemas| ==> AllPlain(Variants(schemas[i]))
    ensures name in TypeTable(MergeAll(schemas)) <==> exists i :: 0 <= i < |schemas| && name in TypeTable(schemas[i])
  {
    hide Height, Merge, TypeTable, Canonical;
    forall i | 0 <= i < |schemas| ensures AllPlain(Variants(schemas[i])) {
      TypeTableProperties(schemas[i], room);
    }
    var last := |schemas| - 1;
    if last > 0 {
      var before := schemas[..last];
      FoldTypes(before, name, room);
      MergedTypes(MergeAll(before), schemas[last], room);
      assert (exists i :: 0 <= i < |schemas| && name in TypeTable(schemas[i])) <==>
        (exists i :: 0 <= i < last && name in TypeTable(before[i])) || name in TypeTable(schemas[last]) by {
        assert forall i :: 0 <= i < last ==> before[i] == schemas[i];
      }
    }
  }

  /** No value of a type that no sample had is accepted. */
  lemma OnlySampledTypes(samples: seq<Json>, value: Json, limit: nat, keys: int)
    requires samples != [] && Accepts(MergeAll(SampleSchemas(samples, limit, keys)), value)
    ensures exists sample :: sample in samples && JsonType(sample) == JsonType(value)
  {
    hide Accepts, MergeAll, TypeTable;
    var schemas := SampleSchemas(samples, limit, keys);
    SampleSchemasDescribe(samples, limit, keys);
    MergeAllView(schemas, limit);
    AcceptedTypeListed(MergeAll(schemas), value, limit);
    FoldTypes(schemas, JsonType(value), limit);
    var i :| 0 <= i < |schemas| && JsonType(value) in TypeTable(schemas[i]);
    InferredType(samples[i], 0, limit, keys);
    assert samples[i] in samples;
  }

  lemma InferredType(value: Json, depth: nat, limit: nat, budget: int)
    ensures Plain(Infer(value, depth, limit, budget).schema)
    ensures TypeTable(Infer(value, depth, limit, budget).schema).Keys == {JsonType(value)}
  {
    hide InferMembers, InferItems, SortedKeys, ItemSchema;
    var schema := Infer(value, depth, limit, budget).schema;
    assert Plain(schema) && TypeOf(schema) == JsonType(value);
    ByTypeEmpty();
    ByTypeAppend([], schema);
    assert [] + [schema] == [schema];
  }

  /** Nesting stops at the depth limit, where one childless node is left. */
  lemma {:induction false} CanonicalHeight(schema: Schema, room: nat)
    requires Canonical(schema, room)
    ensures Height(schema) <= room + 1
    decreases schema
  {
    hide ByType, Ordered;
    match schema {
      case ObjectNode(properties, _, _, _) =>
        forall key | key in properties ensures Height(properties[key]) < room + 1 {
          CanonicalHeight(properties[key], room - 1);
        }
        ObjectHeight(schema, room + 1);
      case ArrayNode(items, _, _) =>
        if room > 0 {
          CanonicalHeight(items, room - 1);
        }
      case AnyOf(variants, _, _) =>
        forall variant | variant in variants ensures Height(variant) <= room + 1 {
          CanonicalHeight(variant, room);
        }
        VariantsHeightBound(variants, room + 1);
      case Scalar(_, _, _) =>
    }
  }
}
