/** The loops of `ApiMapService`, with the key budget as a shared cell, against the specification. */
module ApiMap {
  import opened Ordering
  import opened SchemaModel
  import opened SchemaMerge
  import opened SchemaOrder
  import opened SchemaAcceptance
  import opened SchemaInference

  function Clamp(low: int, value: int, high: int): (clamped: int)
    requires low <= high
    ensures low <= clamped <= high && (low <= value <= high ==> clamped == value)
    ensures (value < low ==> clamped == low) && (value > high ==> clamped == high)
  {
    if value < low then low else if value > high then high else value
  }

  /** What is inferred so far, continued by the rest, is the whole. */
  ghost predicate Continues(whole: InferredMembers, sofar: map<string, Schema>, rest: InferredMembers) {
    whole == InferredMembers(sofar + rest.properties, rest.budget)
  }

  lemma ContinuesFromStart(whole: InferredMembers)
    ensures Continues(whole, map[], whole)
  {
  }

  lemma ContinuesToEnd(whole: InferredMembers, sofar: map<string, Schema>, budget: int)
    requires Continues(whole, sofar, InferredMembers(map[], budget))
    ensures whole == InferredMembers(sofar, budget)
  {
    assert sofar + map[] == sofar;
  }

  lemma MembersStep(value: Json, keys: seq<string>, i: nat, depth: nat, limit: nat, budget: int,
                    whole: InferredMembers, sofar: map<string, Schema>)
    requires value.JObject? && forall key :: key in keys ==> key in value.members
    requires i < |keys| && budget > 0
    ensures var first := Infer(value.members[keys[i]], depth + 1, limit, budget - 1);
      var rest := InferMembers(value, keys[i + 1..], depth, limit, first.budget);
      Continues(whole, sofar, InferMembers(value, keys[i..], depth, limit, budget)) ==>
        Continues(whole, sofar[keys[i] := first.schema], rest)
  {
    hide Infer;
    assert keys[i..][0] == keys[i] && keys[i..][1..] == keys[i + 1..];
    var first := Infer(value.members[keys[i]], depth + 1, limit, budget - 1);
    var rest := InferMembers(value, keys[i + 1..], depth, limit, first.budget);
    assert InferMembers(value, keys[i..], depth, limit, budget) ==
      InferredMembers(map[keys[i] := first.schema] + rest.properties, rest.budget);
    AddOne(sofar, keys[i], first.schema, rest.properties);
  }

  lemma AddOne<K, V>(table: map<K, V>, key: K, value: V, rest: map<K, V>)
    ensures table + (map[key := value] + rest) == table[key := value] + rest
  {
  }

  lemma MembersDone(value: Json, keys: seq<string>, depth: nat, limit: nat, budget: int)
    requires value.JObject? && forall key :: key in keys ==> key in value.members
    requires keys == [] || budget <= 0
    ensures InferMembers(value, keys, depth, limit, budget) == InferredMembers(map[], budget)
  {
  }

  ghost predicate ItemsContinue(whole: InferredItems, sofar: seq<Schema>, rest: InferredItems) {
    whole == InferredItems(sofar + rest.schemas, rest.budget)
  }

  lemma ItemsFromStart(whole: InferredItems)
    ensures ItemsContinue(whole, [], whole)
  {
    assert [] + whole.schemas == whole.schemas;
  }

  lemma ItemsStep(value: Json, i: nat, depth: nat, limit: nat, budget: int, whole: InferredItems, sofar: seq<Schema>)
    requires value.JArray? && i < Sampled(value.elements)
    ensures var first := Infer(value.elements[i], depth + 1, limit, budget);
      ItemsContinue(whole, sofar, InferItems(value, i, depth, limit, budget)) ==>
        ItemsContinue(whole, sofar + [first.schema], InferItems(value, i + 1, depth, limit, first.budget))
  {
    hide Infer;
    var first := Infer(value.elements[i], depth + 1, limit, budget);
    var rest := InferItems(value, i + 1, depth, limit, first.budget);
    assert sofar + ([first.schema] + rest.schemas) == (sofar + [first.schema]) + rest.schemas;
  }

  lemma ItemsToEnd(value: Json, depth: nat, limit: nat, budget: int, whole: InferredItems, sofar: seq<Schema>)
    requires value.JArray?
    requires ItemsContinue(whole, sofar, InferItems(value, Sampled(value.elements), depth, limit, budget))
    ensures whole == InferredItems(sofar, budget)
  {
    assert sofar + [] == sofar;
  }

  class ApiMapService {
    const maxSchemaDepth: nat
    const maxSchemaKeys: nat

    constructor (maxSchemaDepth: int := 5, maxSchemaKeys: int := 128)
      ensures this.maxSchemaDepth == Clamp(1, maxSchemaDepth, 8)
      ensures this.maxSchemaKeys == Clamp(8, maxSchemaKeys, 512)
    {
      this.maxSchemaDepth := Clamp(1, maxSchemaDepth, 8);
      this.maxSchemaKeys := Clamp(8, maxSchemaKeys, 512);
    }

    /** `_schema`; the two container branches have a method each. */
    method InferSchema(value: Json, depth: nat, keyBudget: array<int>) returns (schema: Schema)
      requires keyBudget.Length == 1
      modifies keyBudget
      ensures Inferred(schema, keyBudget[0]) == Infer(value, depth, maxSchemaDepth, old(keyBudget[0]))
      decreases value, 1
    {
      hide InferMembers, InferItems, SortedKeys, Merge, MergeAll, CutOff;
      if depth >= maxSchemaDepth {
        return CutOff(value);
      }
      match value {
        case JObject(members) =>
          var properties := InferProperties(value, depth, keyBudget);
          schema := ObjectNode(properties, properties.Keys, false, |properties| < |members|);
        case JArray(elements) =>
          var schemas := InferElements(value, depth, keyBudget);
          var items := Scalar(UnknownKind, false, false);
          if schemas != [] {
            items := MergeList(schemas);
          }
          schema := ArrayNode(items, false, false);
        case _ =>
          schema := Scalar(JsonType(value).kind, false, false);
      }
    }

    method InferProperties(value: Json, depth: nat, keyBudget: array<int>) returns (properties: map<string, Schema>)
      requires keyBudget.Length == 1 && value.JObject?
      modifies keyBudget
      ensures InferredMembers(properties, keyBudget[0]) ==
        InferMembers(value, SortedKeys(value.members.Keys), depth, maxSchemaDepth, old(keyBudget[0]))
      decreases value, 0
    {
      hide Infer, InferMembers, SortedKeys, Merge, Continues;
      var keys := SortedKeys(value.members.Keys);
      properties := map[];
      ghost var whole := InferMembers(value, keys, depth, maxSchemaDepth, keyBudget[0]);
      ContinuesFromStart(whole);
      assert keys[0..] == keys;
      var i := 0;
      while i < |keys| && keyBudget[0] > 0
        invariant 0 <= i <= |keys|
        invariant Continues(whole, properties, InferMembers(value, keys[i..], depth, maxSchemaDepth, keyBudget[0]))
      {
        MembersStep(value, keys, i, depth, maxSchemaDepth, keyBudget[0], whole, properties);
        keyBudget[0] := keyBudget[0] - 1;
        var property := InferSchema(value.members[keys[i]], depth + 1, keyBudget);
        properties := properties[keys[i] := property];
        i := i + 1;
      }
      MembersDone(value, keys[i..], depth, maxSchemaDepth, keyBudget[0]);
      ContinuesToEnd(whole, properties, keyBudget[0]);
    }

    method InferElements(value: Json, depth: nat, keyBudget: array<int>) returns (schemas: seq<Schema>)
      requires keyBudget.Length == 1 && value.JArray?
      modifies keyBudget
      ensures InferredItems(schemas, keyBudget[0]) ==
        InferItems(value, 0, depth, maxSchemaDepth, old(keyBudget[0]))
      decreases value, 0
    {
      hide Infer, InferItems, Merge, ItemsContinue;
      schemas := [];
      ghost var whole := InferItems(value, 0, depth, maxSchemaDepth, keyBudget[0]);
      ItemsFromStart(whole);
      var i := 0;
      while i < Sampled(value.elements)
        invariant 0 <= i <= Sampled(value.elements)
        invariant ItemsContinue(whole, schemas, InferItems(value, i, depth, maxSchemaDepth, keyBudget[0]))
      {
        ItemsStep(value, i, depth, maxSchemaDepth, keyBudget[0], whole, schemas);
        var item := InferSchema(value.elements[i], depth + 1, keyBudget);
        schemas := schemas + [item];
        i := i + 1;
      }
      ItemsToEnd(value, depth, maxSchemaDepth, keyBudget[0], whole, schemas);
    }

    method MergeList(schemas: seq<Schema>) returns (merged: Schema)
      requires schemas != []
      ensures merged == MergeAll(schemas)
    {
      hide Merge;
      merged := schemas[0];
      var i := 1;
      while i < |schemas|
        invariant 1 <= i <= |schemas|
        invariant merged == MergeAll(schemas[..i])
      {
        assert schemas[..i + 1][..i] == schemas[..i];
        merged := Merge(merged, schemas[i]);
        i := i + 1;
      }
      assert schemas[..i] == schemas;
    }

    /** `_merge_schema_samples`: every sample gets a key budget of its own. */
    method MergeSchemaSamples(samples: seq<Json>) returns (schema: Option<Schema>)
      ensures schema.None? <==> samples == []
      ensures schema.Some? ==> schema.value == MergeAll(SampleSchemas(samples, maxSchemaDepth, maxSchemaKeys))
      ensures schema.Some? ==> Canonical(schema.value, maxSchemaDepth)
      ensures schema.Some? ==> forall sample :: sample in samples ==> Accepts(schema.value, sample)
    {
      hide Merge, MergeAll, Infer, Canonical, Accepts;
      var schemas: seq<Schema> := [];
      var i := 0;
      while i < |samples|
        invariant 0 <= i <= |samples|
        invariant schemas == SampleSchemas(samples, maxSchemaDepth, maxSchemaKeys)[..i]
      {
        var keyBudget := new int[1](_ => maxSchemaKeys);
        var inferred := InferSchema(samples[i], 0, keyBudget);
        schemas := schemas + [inferred];
        i := i + 1;
      }
      if schemas == [] {
        return None;
      }
      assert schemas == SampleSchemas(samples, maxSchemaDepth, maxSchemaKeys);
      SamplesAccepted(samples, maxSchemaDepth, maxSchemaKeys);
      var merged := MergeList(schemas);
      schema := Some(merged);
    }
  }
}
