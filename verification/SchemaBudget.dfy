/** How large an inferred schema can be: property entries are paid for from the key budget. */
module SchemaBudget {
  import opened Sequences
  import opened Ordering
  import opened SchemaModel
  import opened SchemaMerge
  import opened SchemaLaws
  import opened SchemaOrder
  import opened SchemaInference

  /** The number of property entries anywhere in a schema. */
  ghost function Entries(schema: Schema): nat
    decreases schema, 1
  {
    match schema
    case ObjectNode(properties, _, _, _) => KeyEntries(schema, properties.Keys)
    case ArrayNode(items, _, _) => Entries(items)
    case AnyOf(variants, _, _) => VariantEntries(variants)
    case _ => 0
  }

  ghost function KeyEntries(owner: Schema, keys: set<string>): nat
    requires owner.ObjectNode? && keys <= owner.properties.Keys
    decreases owner, 0, |keys|
  {
    if keys == {} then 0
    else
      var key :| key in keys;
      1 + Entries(owner.properties[key]) + KeyEntries(owner, keys - {key})
  }

  ghost function VariantEntries(variants: seq<Schema>): nat
    decreases variants
  {
    if variants == [] then 0
    else VariantEntries(variants[..|variants| - 1]) + Entries(variants[|variants| - 1])
  }

  lemma {:induction false} KeyEntriesTake(owner: Schema, keys: set<string>, key: string)
    requires owner.ObjectNode? && keys <= owner.properties.Keys && key in keys
    ensures KeyEntries(owner, keys) == 1 + Entries(owner.properties[key]) + KeyEntries(owner, keys - {key})
    decreases |keys|
  {
    hide Entries;
    var picked :| picked in keys &&
      KeyEntries(owner, keys) == 1 + Entries(owner.properties[picked]) + KeyEntries(owner, keys - {picked});
    if picked != key {
      KeyEntriesTake(owner, keys - {picked}, key);
      KeyEntriesTake(owner, keys - {key}, picked);
      assert keys - {picked} - {key} == keys - {key} - {picked};
    }
  }

  lemma {:induction false} KeyEntriesSame(one: Schema, other: Schema, keys: set<string>)
    requires one.ObjectNode? && other.ObjectNode?
    requires keys <= one.properties.Keys && keys <= other.properties.Keys
    requires forall key :: key in keys ==> one.properties[key] == other.properties[key]
    ensures KeyEntries(one, keys) == KeyEntries(other, keys)
    decreases |keys|
  {
    hide Entries;
    if keys != {} {
      var key :| key in keys;
      KeyEntriesTake(one, keys, key);
      KeyEntriesTake(other, keys, key);
      KeyEntriesSame(one, other, keys - {key});
    }
  }

  lemma EntriesIgnoreFlags(schema: Schema, optional: bool, truncated: bool)
    ensures Entries(WithFlags(schema, optional, truncated)) == Entries(schema)
  {
    hide KeyEntries;
    if schema.ObjectNode? {
      KeyEntriesSame(schema, WithFlags(schema, optional, truncated), schema.properties.Keys);
    }
  }

  /** Merging never adds property entries: a shared key is counted once. */
  lemma {:induction false} MergeEntries(left: Schema, right: Schema, room: nat)
    requires Canonical(left, room) && Canonical(right, room)
    ensures Entries(Merge(left, right)) <= Entries(left) + Entries(right)
    decreases room, if SameType(left, right) then 1 else 3, 0
  {
    hide Height, MergeUnion, Ordered, ByType, KeyEntries, VariantEntries;
    if left == right {
    } else if !SameType(left, right) {
      assert Merge(left, right) == MergeUnion(left, right);
      UnionEntries(left, right, room);
    } else if left.ObjectNode? {
      MergeObjectKeys(left, right);
      var merged := Merge(left, right);
      assert merged.properties == MergeProperties(left, right);
      KeysMergeEntries(left, right, merged, merged.properties.Keys, room);
      assert merged.properties.Keys * left.properties.Keys == left.properties.Keys;
      assert merged.properties.Keys * right.properties.Keys == right.properties.Keys;
    } else if left.ArrayNode? {
      assert Merge(left, right).items == Merge(left.items, right.items);
      if room > 0 {
        MergeEntries(left.items, right.items, room - 1);
      }
    }
  }

  lemma KeyEntriesDrop(owner: Schema, keys: set<string>, key: string)
    requires owner.ObjectNode? && key in keys
    ensures KeyEntries(owner, keys * owner.properties.Keys) ==
      KeyEntries(owner, (keys - {key}) * owner.properties.Keys) +
      if key in owner.properties then 1 + EntriesAt(owner, key) else 0
  {
    hide KeyEntries, Entries;
    var present := keys * owner.properties.Keys;
    if key in owner.properties {
      KeyEntriesTake(owner, present, key);
      assert present - {key} == (keys - {key}) * owner.properties.Keys;
    } else {
      assert present == (keys - {key}) * owner.properties.Keys;
    }
  }

  lemma {:induction false} KeysMergeEntries(left: Schema, right: Schema, merged: Schema, keys: set<string>, room: nat)
    requires Canonical(left, room) && Canonical(right, room)
    requires left.ObjectNode? && right.ObjectNode? && merged.ObjectNode?
    requires merged.properties == MergeProperties(left, right) && keys <= merged.properties.Keys
    ensures KeyEntries(merged, keys) <=
      KeyEntries(left, keys * left.properties.Keys) + KeyEntries(right, keys * right.properties.Keys)
    decreases room, 0, |keys|
  {
    hide Height, Canonical, Entries, MergeProperty;
    if keys != {} {
      var key :| key in keys;
      KeysMergeEntries(left, right, merged, keys - {key}, room);
      KeyEntriesTake(merged, keys, key);
      KeyEntriesDrop(left, keys, key);
      KeyEntriesDrop(right, keys, key);
      PropertyEntries(left, right, key, room);
    }
  }

  ghost function EntriesAt(owner: Schema, key: string): nat
    requires owner.ObjectNode?
  {
    if key in owner.properties then Entries(owner.properties[key]) else 0
  }

  lemma {:induction false} PropertyEntries(left: Schema, right: Schema, key: string, room: nat)
    requires Canonical(left, room) && Canonical(right, room)
    requires left.ObjectNode? && right.ObjectNode?
    requires key in left.properties || key in right.properties
    ensures key in MergeProperties(left, right)
    ensures Entries(MergeProperties(left, right)[key]) <= EntriesAt(left, key) + EntriesAt(right, key)
    decreases room, 0, 0
  {
    hide Height, MergeUnion, Ordered, ByType, Entries;
    assert MergeProperties(left, right)[key] == MergeProperty(left, right, key);
    if key in left.properties && key in right.properties {
      MergeEntries(left.properties[key], right.properties[key], room - 1);
    } else {
      var source := if key in left.properties then left.properties[key] else right.properties[key];
      EntriesIgnoreFlags(source, true, source.truncated);
    }
  }

  // ----- Unions, type by type -----

  ghost function TableEntries(table: map<TypeName, Schema>, count: nat): nat
    requires count <= TYPE_COUNT
  {
    if count == 0 then 0
    else TableEntries(table, count - 1) + if NameAt(count - 1) in table then Entries(table[NameAt(count - 1)]) else 0
  }

  lemma {:induction false} PickEntries(table: map<TypeName, Schema>, count: nat)
    requires count <= TYPE_COUNT
    ensures VariantEntries(Pick(table, count)) == TableEntries(table, count)
  {
    hide Entries;
    if count > 0 {
      PickEntries(table, count - 1);
      var shorter, picked := Pick(table, count - 1), Pick(table, count);
      if NameAt(count - 1) in table {
        assert picked[..|picked| - 1] == shorter;
      } else {
        assert picked == shorter;
      }
    }
  }

  lemma {:induction false} SingleEntries(name: TypeName, schema: Schema, count: nat)
    requires count <= TYPE_COUNT
    ensures TableEntries(map[name := schema], count) == if Rank(name) < count then Entries(schema) else 0
  {
    hide Entries;
    if count > 0 {
      SingleEntries(name, schema, count - 1);
    }
  }

  lemma CanonicalEntries(schema: Schema, room: nat)
    requires Canonical(schema, room)
    ensures AllPlain(Variants(schema))
    ensures Entries(schema) == TableEntries(TypeTable(schema), TYPE_COUNT)
  {
    hide Height, KeyEntries, ByType;
    TypeTableProperties(schema, room);
    if schema.AnyOf? {
      PickEntries(TypeTable(schema), TYPE_COUNT);
    } else {
      SingleEntries(TypeOf(schema), schema, TYPE_COUNT);
    }
  }

  lemma {:induction false} UnionEntries(left: Schema, right: Schema, room: nat)
    requires Canonical(left, room) && Canonical(right, room) && !SameType(left, right)
    ensures Entries(MergeUnion(left, right)) <= Entries(left) + Entries(right)
    decreases room, 2, 0
  {
    hide Height, Merge, MergeUnion, Canonical, Entries, ByType;
    CanonicalEntries(left, room);
    CanonicalEntries(right, room);
    MergeUnionCanonical(left, right, room);
    CanonicalEntries(MergeUnion(left, right), room);
    UnionTable(left, right, room);
    TypeTableProperties(left, room);
    TypeTableProperties(right, room);
    TableMergeEntries(TypeTable(left), TypeTable(right), TYPE_COUNT, room);
  }

  lemma {:induction false} TableMergeEntries(left: map<TypeName, Schema>, right: map<TypeName, Schema>, count: nat, room: nat)
    requires WellKeyed(left) && WellKeyed(right) && count <= TYPE_COUNT
    requires forall name :: name in left ==> Canonical(left[name], room)
    requires forall name :: name in right ==> Canonical(right[name], room)
    ensures TableEntries(JoinTypes(left, right), count) <= TableEntries(left, count) + TableEntries(right, count)
    decreases room, 1, 1 + count
  {
    hide Height, Merge, MergeUnion, Canonical, Entries;
    if count > 0 {
      TableMergeEntries(left, right, count - 1, room);
      var name := NameAt(count - 1);
      if name in left && name in right {
        MergeEntries(left[name], right[name], room);
      }
    }
  }

  // ----- The budget bounds what is inferred -----

  lemma {:induction false} FoldEntries(schemas: seq<Schema>, room: nat)
    requires schemas != [] && AllCanonical(schemas, room)
    ensures Entries(MergeAll(schemas)) <= VariantEntries(schemas)
  {
    hide Height, Merge, Canonical, Entries;
    var last := |schemas| - 1;
    if last > 0 {
      FoldEntries(schemas[..last], room);
      MergeAllView(schemas[..last], room);
      MergeEntries(MergeAll(schemas[..last]), schemas[last], room);
    } else {
      assert schemas[..last] == [];
    }
  }

  /** A prefix of the list is counted first, so the count can also be taken from the front. */
  lemma {:induction false} VariantEntriesFront(first: Schema, rest: seq<Schema>)
    ensures VariantEntries([first] + rest) == Entries(first) + VariantEntries(rest)
  {
    hide Entries;
    if rest == [] {
      assert [first] + rest == [first];
      assert [first][..0] == [];
    } else {
      var last := |rest| - 1;
      VariantEntriesFront(first, rest[..last]);
      assert ([first] + rest)[..|rest|] == [first] + rest[..last];
    }
  }

  /** What is inferred costs at least one unit of budget for each property entry. */
  lemma {:induction false} InferEntries(value: Json, depth: nat, limit: nat, budget: int)
    requires depth <= limit
    ensures Entries(Infer(value, depth, limit, budget).schema) <= budget - Infer(value, depth, limit, budget).budget
    ensures budget >= 0 ==> Infer(value, depth, limit, budget).budget >= 0
    decreases value, 1, 0
  {
    hide Height, InferMembers, InferItems, SortedKeys, MergeAll, KeyEntries, VariantEntries;
    if depth == limit {
      CutOffEntries(value);
    } else {
      match value {
        case JObject(members) =>
          MembersEntries(value, SortedKeys(members.Keys), depth, limit, budget,
            |InferMembers(value, SortedKeys(members.Keys), depth, limit, budget).properties| < |members|);
        case JArray(elements) =>
          ItemsEntries(value, 0, depth, limit, budget);
          ItemsDescribe(value, 0, depth, limit, budget);
          var schemas := InferItems(value, 0, depth, limit, budget).schemas;
          if schemas != [] {
            FoldEntries(schemas, limit - depth - 1);
          }
        case _ =>
      }
    }
  }

  lemma CutOffEntries(value: Json)
    ensures Entries(CutOff(value)) == 0
  {
  }

  lemma {:induction false} MembersEntries(value: Json, keys: seq<string>, depth: nat, limit: nat, budget: int, truncated: bool)
    requires value.JObject? && Distinct(keys) && depth < limit
    requires forall key :: key in keys ==> key in value.members
    ensures var inferred := InferMembers(value, keys, depth, limit, budget);
      var owner := ObjectNode(inferred.properties, inferred.properties.Keys, false, truncated);
      KeyEntries(owner, owner.properties.Keys) <= budget - inferred.budget && (budget >= 0 ==> inferred.budget >= 0)
    decreases value, 0, |keys|
  {
    hide Height, Infer, Entries;
    if keys != [] && budget > 0 {
      InferEntries(value.members[keys[0]], depth + 1, limit, budget - 1);
      var first := Infer(value.members[keys[0]], depth + 1, limit, budget - 1);
      assert keys[0] !in keys[1..];
      MembersEntries(value, keys[1..], depth, limit, first.budget, truncated);
      var inferred := InferMembers(value, keys, depth, limit, budget);
      var rest := InferMembers(value, keys[1..], depth, limit, first.budget);
      var owner := ObjectNode(inferred.properties, inferred.properties.Keys, false, truncated);
      var smaller := ObjectNode(rest.properties, rest.properties.Keys, false, truncated);
      KeyEntriesTake(owner, owner.properties.Keys, keys[0]);
      assert owner.properties.Keys - {keys[0]} == smaller.properties.Keys;
      KeyEntriesSame(owner, smaller, smaller.properties.Keys);
    }
  }

  lemma {:induction false} ItemsEntries(value: Json, from: nat, depth: nat, limit: nat, budget: int)
    requires value.JArray? && from <= Sampled(value.elements) && depth < limit
    ensures var inferred := InferItems(value, from, depth, limit, budget);
      VariantEntries(inferred.schemas) <= budget - inferred.budget && (budget >= 0 ==> inferred.budget >= 0)
    decreases value, 0, |value.elements| - from
  {
    hide Height, Infer, Entries;
    if from < Sampled(value.elements) {
      InferEntries(value.elements[from], depth + 1, limit, budget);
      var first := Infer(value.elements[from], depth + 1, limit, budget);
      ItemsEntries(value, from + 1, depth, limit, first.budget);
      VariantEntriesFront(first.schema, InferItems(value, from + 1, depth, limit, first.budget).schemas);
    }
  }

  /** One sample never yields more property entries than the key limit. */
  lemma SampleEntries(value: Json, limit: nat, keys: nat)
    ensures Entries(Infer(value, 0, limit, keys).schema) <= keys
  {
    hide Infer, Entries;
    InferEntries(value, 0, limit, keys);
  }
}
