/** When an inferred schema is marked truncated, and how many keys it takes to leave nothing out. */
module SchemaTruncation {
  import opened Ordering
  import opened Sequences

  import opened SchemaModel
  import opened SchemaMerge
  import opened SchemaLaws
  import opened SchemaOrder
  import opened SchemaAcceptance
  import opened SchemaInference

  // ----- Each mark on its own -----

  /** Below the limit exactly the objects with a key that is not listed are marked; at the limit every node is. */
  ghost predicate ExactMarks(schema: Schema, value: Json, room: nat)
    decreases value
  {
    && Plain(schema) && TypeOf(schema) == JsonType(value)
    && if room == 0 then schema.truncated
       else match value
         case JObject(members) =>
           && (schema.truncated <==> exists key :: key in members && key !in schema.properties)
           && forall key :: key in schema.properties ==>
             key in members && ExactMarks(schema.properties[key], members[key], room - 1)
         case JArray(elements) =>
           && !schema.truncated && (elements == [] ==> schema.items == Scalar(UnknownKind, false, false))
           && exists schemas: seq<Schema> :: (
             && schema.items == ItemSchema(schemas) && |schemas| == Sampled(elements)
             && forall i :: 0 <= i < |schemas| ==> ExactMarks(schemas[i], elements[i], room - 1))
         case _ => !schema.truncated
  }

  lemma ObjectMarks(value: Json, properties: map<string, Schema>, room: nat)
    requires value.JObject? && room > 0 && properties.Keys <= value.members.Keys
    requires forall key :: key in properties ==> ExactMarks(properties[key], value.members[key], room - 1)
    ensures ExactMarks(ObjectNode(properties, properties.Keys, false, |properties| < |value.members|), value, room)
  {
    KeysCount(properties);
    KeysCount(value.members);
    if |properties| >= |value.members| {
      SameSize(properties.Keys, value.members.Keys);
    } else {
      SmallerMisses(properties.Keys, value.members.Keys);
    }
  }

  lemma SmallerMisses<T>(part: set<T>, whole: set<T>)
    requires part <= whole && |part| < |whole|
    ensures exists item :: item in whole && item !in part
  {
    assert whole == part + (whole - part);
    var item :| item in whole - part;
  }

  lemma ArrayMarks(value: Json, schemas: seq<Schema>, room: nat)
    requires value.JArray? && room > 0 && |schemas| == Sampled(value.elements)
    requires forall i :: 0 <= i < |schemas| ==> ExactMarks(schemas[i], value.elements[i], room - 1)
    ensures ExactMarks(ArrayNode(ItemSchema(schemas), false, false), value, room)
  {
    hide MergeAll;
  }

  lemma CutOffMarks(value: Json)
    ensures ExactMarks(CutOff(value), value, 0)
  {
  }

  lemma ScalarMarks(value: Json, room: nat)
    requires JsonType(value).ScalarType? && room > 0
    ensures ExactMarks(Scalar(JsonType(value).kind, false, false), value, room)
  {
  }

  lemma {:induction false} InferMarks(value: Json, depth: nat, limit: nat, budget: int)
    requires depth <= limit
    ensures ExactMarks(Infer(value, depth, limit, budget).schema, value, limit - depth)
    decreases value, 1, 0
  {
    hide InferMembers, InferItems, SortedKeys, ItemSchema, ExactMarks, CutOff;
    if depth == limit {
      CutOffMarks(value);
    } else {
      match value {
        case JObject(members) =>
          MembersMarks(value, SortedKeys(members.Keys), depth, limit, budget);
          ObjectMarks(value, InferMembers(value, SortedKeys(members.Keys), depth, limit, budget).properties, limit - depth);
        case JArray(elements) =>
          ItemsMarks(value, 0, depth, limit, budget);
          ArrayMarks(value, InferItems(value, 0, depth, limit, budget).schemas, limit - depth);
        case _ =>
          ScalarMarks(value, limit - depth);
      }
    }
  }

  lemma {:induction false} MembersMarks(value: Json, keys: seq<string>, depth: nat, limit: nat, budget: int)
    requires value.JObject? && (forall key :: key in keys ==> key in value.members) && depth < limit
    ensures forall key :: key in InferMembers(value, keys, depth, limit, budget).properties ==>
      ExactMarks(InferMembers(value, keys, depth, limit, budget).properties[key], value.members[key], limit - depth - 1)
    decreases value, 0, |keys|
  {
    hide ExactMarks, Infer;
    if keys != [] && budget > 0 {
      InferMarks(value.members[keys[0]], depth + 1, limit, budget - 1);
      MembersMarks(value, keys[1..], depth, limit, Infer(value.members[keys[0]], depth + 1, limit, budget - 1).budget);
    }
  }

  lemma {:induction false} ItemsMarks(value: Json, from: nat, depth: nat, limit: nat, budget: int)
    requires value.JArray? && from <= Sampled(value.elements) && depth < limit
    ensures forall i :: 0 <= i < |InferItems(value, from, depth, limit, budget).schemas| ==>
      ExactMarks(InferItems(value, from, depth, limit, budget).schemas[i], value.elements[from + i], limit - depth - 1)
    decreases value, 0, |value.elements| - from
  {
    hide ExactMarks;
    if from < Sampled(value.elements) {
      InferMarks(value.elements[from], depth + 1, limit, budget);
      var first := Infer(value.elements[from], depth + 1, limit, budget);
      ItemsMarks(value, from + 1, depth, limit, first.budget);
      var rest := InferItems(value, from + 1, depth, limit, first.budget).schemas;
      forall i | 0 <= i < 1 + |rest|
        ensures ExactMarks(([first.schema] + rest)[i], value.elements[from + i], limit - depth - 1)
      {
        if i > 0 {
          assert ([first.schema] + rest)[i] == rest[i - 1];
          assert value.elements[from + i] == value.elements[from + 1 + (i - 1)];
        }
      }
    }
  }

  /** Which keys are listed when the budget runs out: the first ones in sorted order. */
  lemma FirstKeysListed(value: Json, depth: nat, limit: nat, budget: int, one: string, other: string)
    requires value.JObject? && depth < limit && one in value.members && AtMost(one, other)
    requires other in Infer(value, depth, limit, budget).schema.properties
    ensures one in Infer(value, depth, limit, budget).schema.properties
  {
    hide InferMembers, SortedKeys;
    var sorted := SortedKeys(value.members.Keys);
    var n := MembersPrefix(value, sorted, depth, limit, budget);
    var i :| 0 <= i < |sorted| && sorted[i] == one;
    var j :| 0 <= j < n && sorted[j] == other;
    if i >= n {
      assert AtMost(sorted[j], sorted[i]);
      AtMostTotal(one, other);
    }
  }

  lemma {:induction false} MembersPrefix(value: Json, keys: seq<string>, depth: nat, limit: nat, budget: int) returns (n: nat)
    requires value.JObject? && forall key :: key in keys ==> key in value.members
    ensures n <= |keys|
    ensures forall key :: key in InferMembers(value, keys, depth, limit, budget).properties <==> key in keys[..n]
  {
    hide Infer;
    n := 0;
    if keys != [] && budget > 0 {
      var first := Infer(value.members[keys[0]], depth + 1, limit, budget - 1);
      var rest := MembersPrefix(value, keys[1..], depth, limit, first.budget);
      n := rest + 1;
      assert keys[..n] == [keys[0]] + keys[1..][..rest];
    }
  }

  // ----- How many keys there are -----

  /** The keys of a value within `room` levels; of an array the first eight items count. */
  ghost function KeysWithin(value: Json, room: nat): nat
    decreases value, 1, 0
  {
    if room == 0 then 0
    else match value
      case JObject(members) => KeysOf(value, SortedKeys(members.Keys), room)
      case JArray(elements) => ItemKeys(value, 0, room)
      case _ => 0
  }

  ghost function KeysOf(value: Json, keys: seq<string>, room: nat): nat
    requires value.JObject? && room > 0 && forall key :: key in keys ==> key in value.members
    decreases value, 0, |keys|
  {
    if keys == [] then 0
    else 1 + KeysWithin(value.members[keys[0]], room - 1) + KeysOf(value, keys[1..], room)
  }

  ghost function ItemKeys(value: Json, from: nat, room: nat): nat
    requires value.JArray? && room > 0 && from <= |value.elements|
    decreases value, 0, |value.elements| - from
  {
    if from == |value.elements| || from >= 8 then 0
    else KeysWithin(value.elements[from], room - 1) + ItemKeys(value, from + 1, room)
  }

  ghost function Remaining(budget: nat, spent: nat): nat {
    if spent <= budget then budget - spent else 0
  }

  /** No mark anywhere above the limit. */
  ghost predicate Whole(schema: Schema, room: nat)
    decreases schema
  {
    room == 0 ||
      match schema
      case ObjectNode(properties, _, _, truncated) =>
        !truncated && forall key :: key in properties ==> Whole(properties[key], room - 1)
      case ArrayNode(items, _, truncated) => !truncated && Whole(items, room - 1)
      case AnyOf(variants, _, truncated) => !truncated && forall variant :: variant in variants ==> Whole(variant, room)
      case _ => !schema.truncated
  }

  lemma WholeIgnoresOptional(schema: Schema, optional: bool, room: nat)
    ensures Whole(WithFlags(schema, optional, schema.truncated), room) <==> Whole(schema, room)
  {
  }

  lemma WholeByType(schema: Schema, room: nat)
    requires Canonical(schema, room) && room > 0
    ensures AllPlain(Variants(schema))
    ensures Whole(schema, room) <==>
      !schema.truncated && forall name :: name in TypeTable(schema) ==> Whole(TypeTable(schema)[name], room)
  {
    hide ByType, Ordered, Height;
    TypeTableProperties(schema, room);
    ByTypeMembers(Variants(schema));
  }

  /** A merge is without marks exactly if both sides are. */
  lemma {:induction false} MergeWhole(left: Schema, right: Schema, room: nat)
    requires Canonical(left, room) && Canonical(right, room)
    ensures Whole(Merge(left, right), room) <==> Whole(left, room) && Whole(right, room)
    decreases room, if SameType(left, right) then 1 else 3
  {
    hide Height, MergeUnion, Ordered, ByType;
    if left == right || room == 0 {
    } else if !SameType(left, right) {
      assert Merge(left, right) == MergeUnion(left, right);
      UnionWhole(left, right, room);
    } else if left.ObjectNode? {
      ObjectsWhole(left, right, room);
    } else if left.ArrayNode? {
      assert Merge(left, right).items == Merge(left.items, right.items);
      MergeWhole(left.items, right.items, room - 1);
    }
  }

  lemma {:induction false} ObjectsWhole(left: Schema, right: Schema, room: nat)
    requires Canonical(left, room) && Canonical(right, room) && room > 0
    requires left.ObjectNode? && right.ObjectNode? && left != right
    ensures Whole(Merge(left, right), room) <==> Whole(left, room) && Whole(right, room)
    decreases room, 0
  {
    hide Height, MergeUnion, Ordered, ByType;
    var merged := MergeProperties(left, right);
    forall key | key in merged
      ensures Whole(merged[key], room - 1) <==>
        (key in left.properties ==> Whole(left.properties[key], room - 1))
        && (key in right.properties ==> Whole(right.properties[key], room - 1))
    {
      assert merged[key] == MergeProperty(left, right, key);
      if key in left.properties && key in right.properties {
        MergeWhole(left.properties[key], right.properties[key], room - 1);
      } else {
        WholeIgnoresOptional(if key in left.properties then left.properties[key] else right.properties[key], true, room - 1);
      }
    }
    assert Merge(left, right).properties == merged;
  }

  lemma {:induction false} UnionWhole(left: Schema, right: Schema, room: nat)
    requires Canonical(left, room) && Canonical(right, room) && !SameType(left, right) && room > 0
    ensures Whole(MergeUnion(left, right), room) <==> Whole(left, room) && Whole(right, room)
    decreases room, 2
  {
    hide Height, Merge, MergeUnion, Ordered, ByType, Canonical, Whole;
    MergeUnionCanonical(left, right, room);
    UnionTable(left, right, room);
    WholeByType(left, room);
    WholeByType(right, room);
    WholeByType(MergeUnion(left, right), room);
    TypeTableProperties(left, room);
    TypeTableProperties(right, room);
    var joined := JoinTypes(TypeTable(left), TypeTable(right));
    forall name | name in joined
      ensures Whole(joined[name], room) <==>
        (name in TypeTable(left) ==> Whole(TypeTable(left)[name], room))
        && (name in TypeTable(right) ==> Whole(TypeTable(right)[name], room))
    {
      if name in TypeTable(left) && name in TypeTable(right) {
        MergeWhole(TypeTable(left)[name], TypeTable(right)[name], room);
      }
    }
  }

  lemma {:induction false} FoldWhole(schemas: seq<Schema>, room: nat)
    requires schemas != [] && AllCanonical(schemas, room)
    ensures Whole(MergeAll(schemas), room) <==> forall i :: 0 <= i < |schemas| ==> Whole(schemas[i], room)
  {
    hide Merge, Whole, Canonical;
    var last := |schemas| - 1;
    if last > 0 {
      FoldWhole(schemas[..last], room);
      MergeAllView(schemas[..last], room);
      MergeWhole(MergeAll(schemas[..last]), schemas[last], room);
      assert forall i :: 0 <= i < last ==> schemas[..last][i] == schemas[i];
    }
  }

  /**
   * Inference spends one unit of budget for each key within the limit until none is left, and leaves no mark above
   * the limit exactly if the budget covers them all.
   */
  lemma {:induction false} InferWhole(value: Json, depth: nat, limit: nat, budget: nat)
    requires depth <= limit
    ensures var keys, inferred := KeysWithin(value, limit - depth), Infer(value, depth, limit, budget);
      && inferred.budget == Remaining(budget, keys)
      && (Whole(inferred.schema, limit - depth) <==> keys <= budget)
    decreases value, 1, 0
  {
    hide InferMembers, InferItems, SortedKeys, ItemSchema, KeysOf, ItemKeys;
    if depth < limit {
      match value {
        case JObject(members) =>
          var sorted := SortedKeys(members.Keys);
          var properties := InferMembers(value, sorted, depth, limit, budget).properties;
          MembersWhole(value, sorted, depth, limit, budget);
          KeysCount(properties);
          KeysCount(members);
          if |properties| >= |members| {
            SameSize(properties.Keys, members.Keys);
          } else {
            SmallerMisses(properties.Keys, members.Keys);
          }
        case JArray(elements) =>
          ItemsWhole(value, 0, depth, limit, budget);
          ItemsDescribe(value, 0, depth, limit, budget);
          ItemSchemaWhole(InferItems(value, 0, depth, limit, budget).schemas, limit - depth - 1);
        case _ =>
      }
    }
  }

  lemma ItemSchemaWhole(schemas: seq<Schema>, room: nat)
    requires AllCanonical(schemas, room)
    ensures Whole(ItemSchema(schemas), room) <==> forall i :: 0 <= i < |schemas| ==> Whole(schemas[i], room)
  {
    hide MergeAll;
    if schemas != [] {
      FoldWhole(schemas, room);
    }
  }

  lemma {:induction false} MembersWhole(value: Json, keys: seq<string>, depth: nat, limit: nat, budget: nat)
    requires value.JObject? && (forall key :: key in keys ==> key in value.members) && Distinct(keys) && depth < limit
    ensures var needed, inferred := KeysOf(value, keys, limit - depth), InferMembers(value, keys, depth, limit, budget);
      && inferred.budget == Remaining(budget, needed)
      && ((forall key :: key in keys ==> key in inferred.properties && Whole(inferred.properties[key], limit - depth - 1))
          <==> needed <= budget)
    decreases value, 0, |keys|
  {
    hide Whole, Infer, KeysWithin;
    if keys != [] {
      if budget > 0 {
        InferWhole(value.members[keys[0]], depth + 1, limit, budget - 1);
        var first := Infer(value.members[keys[0]], depth + 1, limit, budget - 1);
        assert keys[0] !in keys[1..];
        assert forall key :: key in keys <==> key == keys[0] || key in keys[1..];
        MembersWhole(value, keys[1..], depth, limit, first.budget);
      } else {
        assert keys[0] in keys;
      }
    }
  }

  lemma {:induction false} ItemsWhole(value: Json, from: nat, depth: nat, limit: nat, budget: nat)
    requires value.JArray? && from <= Sampled(value.elements) && depth < limit
    ensures var needed, inferred := ItemKeys(value, from, limit - depth), InferItems(value, from, depth, limit, budget);
      && inferred.budget == Remaining(budget, needed)
      && ((forall i :: 0 <= i < |inferred.schemas| ==> Whole(inferred.schemas[i], limit - depth - 1)) <==> needed <= budget)
    decreases value, 0, |value.elements| - from
  {
    hide Whole, Infer, KeysWithin;
    if from < Sampled(value.elements) {
      InferWhole(value.elements[from], depth + 1, limit, budget);
      var first := Infer(value.elements[from], depth + 1, limit, budget);
      ItemsWhole(value, from + 1, depth, limit, first.budget);
      FirstAndRest(first.schema, InferItems(value, from + 1, depth, limit, first.budget).schemas, limit - depth - 1);
    }
  }

  lemma FirstAndRest(first: Schema, rest: seq<Schema>, room: nat)
    ensures (forall i :: 0 <= i < |[first] + rest| ==> Whole(([first] + rest)[i], room)) <==>
      Whole(first, room) && forall i :: 0 <= i < |rest| ==> Whole(rest[i], room)
  {
    hide Whole;
    var all := [first] + rest;
    assert all[0] == first && forall i :: 0 <= i < |rest| ==> all[i + 1] == rest[i];
  }

  // ----- The samples of an endpoint -----

  /** The schema of an endpoint has no mark above the limit exactly if every sample fits the key budget. */
  lemma SamplesWhole(samples: seq<Json>, limit: nat, keys: nat)
    requires samples != []
    ensures Whole(MergeAll(SampleSchemas(samples, limit, keys)), limit) <==>
      forall sample :: sample in samples ==> KeysWithin(sample, limit) <= keys
  {
    hide Infer, Whole, KeysWithin, MergeAll;
    var schemas := SampleSchemas(samples, limit, keys);
    SampleSchemasDescribe(samples, limit, keys);
    FoldWhole(schemas, limit);
    forall i | 0 <= i < |samples| ensures Whole(schemas[i], limit) <==> KeysWithin(samples[i], limit) <= keys {
      InferWhole(samples[i], 0, limit, keys);
    }
    forall sample | sample in samples
      ensures exists i :: 0 <= i < |samples| && samples[i] == sample && (Whole(schemas[i], limit) <==> KeysWithin(sample, limit) <= keys)
    {
      var i :| 0 <= i < |samples| && samples[i] == sample;
    }
    assert forall i :: 0 <= i < |samples| ==> samples[i] in samples;
  }

  /** At every level above the limit each key of the value is listed, in the first eight items of an array too. */
  ghost predicate ListsAll(schema: Schema, value: Json, room: nat)
    decreases value
  {
    room == 0 ||
      match value
      case JObject(members) =>
        exists variant :: variant in Variants(schema) && variant.ObjectNode? && forall key :: key in members ==>
          key in variant.properties && ListsAll(variant.properties[key], members[key], room - 1)
      case JArray(elements) =>
        exists variant :: variant in Variants(schema) && variant.ArrayNode? && forall i :: 0 <= i < |elements| && i < 8 ==>
          ListsAll(variant.items, elements[i], room - 1)
      case _ => exists variant :: variant in Variants(schema) && Plain(variant) && TypeOf(variant) == JsonType(value)
  }

  lemma DescribingVariant(schema: Schema, value: Json, room: nat) returns (variant: Schema)
    requires Canonical(schema, room) && Accepts(schema, value) && Whole(schema, room) && room > 0
    ensures variant in Variants(schema) && Plain(variant) && TypeOf(variant) == JsonType(value) && !variant.truncated
    ensures Canonical(variant, room) && Accepts(variant, value) && Whole(variant, room)
  {
    hide Height, ByType, Ordered;
    AcceptingVariant(schema, value);
    variant :| variant in Variants(schema) && Accepts(variant, value);
  }

  /** A schema that describes a value and has no mark above the limit lists all its keys. */
  lemma {:induction false} WholeListsAll(schema: Schema, value: Json, room: nat)
    requires Canonical(schema, room) && Accepts(schema, value) && Whole(schema, room)
    ensures ListsAll(schema, value, room)
    decreases value, 1
  {
    hide Accepts, Canonical, Whole;
    if room > 0 {
      var variant := DescribingVariant(schema, value, room);
      match value {
        case JObject(members) =>
          ObjectListsAll(variant, value, room);
        case JArray(elements) =>
          ArrayListsAll(variant, value, room);
        case _ =>
      }
    }
  }

  lemma {:induction false} ObjectListsAll(variant: Schema, value: Json, room: nat)
    requires Canonical(variant, room) && Accepts(variant, value) && Whole(variant, room) && room > 0
    requires variant.ObjectNode? && value.JObject?
    ensures forall key :: key in value.members ==>
      key in variant.properties && ListsAll(variant.properties[key], value.members[key], room - 1)
    decreases value, 0
  {
    hide ListsAll;
    forall key | key in value.members
      ensures key in variant.properties && ListsAll(variant.properties[key], value.members[key], room - 1)
    {
      WholeListsAll(variant.properties[key], value.members[key], room - 1);
    }
  }

  lemma {:induction false} ArrayListsAll(variant: Schema, value: Json, room: nat)
    requires Canonical(variant, room) && Accepts(variant, value) && Whole(variant, room) && room > 0
    requires variant.ArrayNode? && value.JArray?
    ensures forall i :: 0 <= i < |value.elements| && i < 8 ==> ListsAll(variant.items, value.elements[i], room - 1)
    decreases value, 0
  {
    hide ListsAll;
    forall i | 0 <= i < |value.elements| && i < 8 ensures ListsAll(variant.items, value.elements[i], room - 1) {
      WholeListsAll(variant.items, value.elements[i], room - 1);
    }
  }

  /** If every sample fits the key budget, the schema of the endpoint lists every key of every sample. */
  lemma SamplesListed(samples: seq<Json>, limit: nat, keys: nat)
    requires samples != [] && forall sample :: sample in samples ==> KeysWithin(sample, limit) <= keys
    ensures forall sample :: sample in samples ==> ListsAll(MergeAll(SampleSchemas(samples, limit, keys)), sample, limit)
  {
    hide Infer, Whole, KeysWithin, MergeAll, Accepts, Canonical, ListsAll;
    SamplesWhole(samples, limit, keys);
    SamplesAccepted(samples, limit, keys);
    forall sample | sample in samples ensures ListsAll(MergeAll(SampleSchemas(samples, limit, keys)), sample, limit) {
      WholeListsAll(MergeAll(SampleSchemas(samples, limit, keys)), sample, limit);
    }
  }

  /** The budget it takes to list these keys: the last one needs nothing below it. */
  ghost function ListingKeys(value: Json, keys: seq<string>, room: nat): nat
    requires value.JObject? && room > 0 && forall key :: key in keys ==> key in value.members
  {
    if keys == [] then 0 else KeysOf(value, keys[..|keys| - 1], room) + 1
  }

  ghost function OwnKeys(value: Json, room: nat): nat
    requires value.JObject? && room > 0
  {
    ListingKeys(value, SortedKeys(value.members.Keys), room)
  }

  ghost predicate AllIn(keys: seq<string>, listed: set<string>) {
    forall key :: key in keys ==> key in listed
  }

  lemma AllInStep(keys: seq<string>, listed: set<string>, rest: set<string>)
    requires keys != [] && keys[0] !in keys[1..] && listed == {keys[0]} + rest
    ensures AllIn(keys, listed) <==> AllIn(keys[1..], rest)
  {
    assert forall key :: key in keys <==> key == keys[0] || key in keys[1..];
  }

  lemma ListingStep(value: Json, keys: seq<string>, room: nat)
    requires value.JObject? && room > 0 && (forall key :: key in keys ==> key in value.members) && keys != []
    ensures ListingKeys(value, keys, room) ==
      if |keys| == 1 then 1 else 1 + KeysWithin(value.members[keys[0]], room - 1) + ListingKeys(value, keys[1..], room)
    ensures |keys| > 1 ==> ListingKeys(value, keys[1..], room) > 0
  {
    hide KeysWithin;
    if |keys| > 1 {
      assert keys[..|keys| - 1][1..] == keys[1..][..|keys| - 2];
    }
  }

  lemma {:induction false} MembersListed(value: Json, keys: seq<string>, depth: nat, limit: nat, budget: nat)
    requires value.JObject? && (forall key :: key in keys ==> key in value.members) && Distinct(keys) && depth < limit
    ensures AllIn(keys, InferMembers(value, keys, depth, limit, budget).properties.Keys) <==>
      ListingKeys(value, keys, limit - depth) <= budget
    decreases |keys|
  {
    hide Infer, InferMembers, Whole, KeysWithin, ListingKeys, AllIn;
    if |keys| == 0 {
      NothingToList(value, keys, limit - depth, InferMembers(value, keys, depth, limit, budget).properties.Keys);
    } else if budget == 0 {
      NothingListed(value, keys, depth, limit);
    } else {
      var later := keys[1..];
      var spent := Infer(value.members[keys[0]], depth + 1, limit, budget - 1).budget;
      InferWhole(value.members[keys[0]], depth + 1, limit, budget - 1);
      MembersListed(value, later, depth, limit, spent);
      ListingStep(value, keys, limit - depth);
      FirstMember(value, keys, depth, limit, budget);
      AllInStep(keys, InferMembers(value, keys, depth, limit, budget).properties.Keys,
                InferMembers(value, later, depth, limit, spent).properties.Keys);
      if |keys| == 1 {
        NothingToList(value, later, limit - depth, InferMembers(value, later, depth, limit, spent).properties.Keys);
      }
    }
  }

  lemma NothingListed(value: Json, keys: seq<string>, depth: nat, limit: nat)
    requires value.JObject? && (forall key :: key in keys ==> key in value.members) && |keys| > 0 && depth < limit
    ensures !AllIn(keys, InferMembers(value, keys, depth, limit, 0).properties.Keys)
    ensures ListingKeys(value, keys, limit - depth) > 0
  {
    hide KeysWithin, KeysOf;
    assert keys[0] in keys;
  }

  lemma NothingToList(value: Json, keys: seq<string>, room: nat, listed: set<string>)
    requires value.JObject? && room > 0 && |keys| == 0
    ensures ListingKeys(value, keys, room) == 0 && AllIn(keys, listed)
  {
  }

  lemma FirstMember(value: Json, keys: seq<string>, depth: nat, limit: nat, budget: nat)
    requires value.JObject? && (forall key :: key in keys ==> key in value.members) && Distinct(keys)
    requires keys != [] && budget > 0
    ensures keys[0] !in keys[1..]
    ensures var first := Infer(value.members[keys[0]], depth + 1, limit, budget - 1);
      InferMembers(value, keys, depth, limit, budget).properties.Keys
        == {keys[0]} + InferMembers(value, keys[1..], depth, limit, first.budget).properties.Keys
  {
    hide Infer;
  }

  /** An object above the limit lists all its own keys exactly if the budget suffices for them. */
  lemma OwnKeysListed(value: Json, depth: nat, limit: nat, budget: nat)
    requires value.JObject? && depth < limit
    ensures Infer(value, depth, limit, budget).schema.properties.Keys == value.members.Keys <==>
      OwnKeys(value, limit - depth) <= budget
  {
    hide InferMembers, SortedKeys, ListingKeys;
    assert AllIn(SortedKeys(value.members.Keys), value.members.Keys);
    MembersListed(value, SortedKeys(value.members.Keys), depth, limit, budget);
  }

  /**
   * For samples that are objects and whose own keys fit the key budget, the root lists every key that occurs and
   * requires the keys that always occur.
   */
  lemma RootKeys(samples: seq<Json>, limit: nat, keys: nat)
    requires samples != [] && limit > 0
    requires forall i :: 0 <= i < |samples| ==> samples[i].JObject? && OwnKeys(samples[i], limit) <= keys
    ensures var root := MergeAll(SampleSchemas(samples, limit, keys));
      && root.ObjectNode?
      && (forall key :: key in root.properties <==> exists i :: 0 <= i < |samples| && key in samples[i].members)
      && (forall key :: key in root.required <==> forall i :: 0 <= i < |samples| ==> key in samples[i].members)
  {
    hide Height, Merge, InferMembers, SortedKeys, MergeAll, OwnKeys;
    var schemas := SampleSchemas(samples, limit, keys);
    forall i | 0 <= i < |samples|
      ensures schemas[i].ObjectNode?
      ensures schemas[i].properties.Keys == schemas[i].required == samples[i].members.Keys
    {
      OwnKeysListed(samples[i], 0, limit, keys);
    }
    ObjectsFold(schemas);
  }
}
