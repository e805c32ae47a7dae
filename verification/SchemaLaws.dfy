/** Laws of the schema merge on canonical schemas: closure, commutativity, idempotence. */
module SchemaLaws {
  import opened Sequences
  import opened SchemaModel
  import opened SchemaMerge

  /** Merging two type tables, type by type. */
  ghost function JoinTypes(left: map<TypeName, Schema>, right: map<TypeName, Schema>): map<TypeName, Schema> {
    map name | name in left.Keys + right.Keys ::
      if name in left && name in right then Merge(left[name], right[name])
      else if name in left then left[name] else right[name]
  }

  lemma JoinEmpty(left: map<TypeName, Schema>)
    ensures JoinTypes(left, map[]) == left
  {
  }

  lemma JoinStep(left: map<TypeName, Schema>, right: map<TypeName, Schema>, name: TypeName, variant: Schema)
    requires name !in right
    ensures name in JoinTypes(left, right) <==> name in left
    ensures name in left ==> JoinTypes(left, right)[name] == left[name]
    ensures JoinTypes(left, right[name := variant]) ==
      JoinTypes(left, right)[name := if name in left then Merge(left[name], variant) else variant]
  {
  }

  lemma JoinSymmetric(left: map<TypeName, Schema>, right: map<TypeName, Schema>)
    requires forall name :: name in left && name in right ==> Merge(left[name], right[name]) == Merge(right[name], left[name])
    ensures JoinTypes(left, right) == JoinTypes(right, left)
  {
    hide Height, Merge;
  }

  lemma JoinIdempotent(table: map<TypeName, Schema>)
    ensures JoinTypes(table, table) == table
  {
    hide Height, MergeDistinct;
  }

  lemma {:induction false} NewType(variants: seq<Schema>, last: Schema)
    requires AllPlain(variants) && Plain(last) && SortedByType(variants + [last])
    ensures SortedByType(variants) && TypeOf(last) !in ByType(variants)
  {
    ByTypeMembers(variants);
    assert (variants + [last])[|variants|] == last;
    forall i | 0 <= i < |variants| ensures TypeOf(variants[i]) != TypeOf(last) {
      assert (variants + [last])[i] == variants[i];
    }
    assert (variants + [last])[..|variants|] == variants;
  }

  lemma CollectAppend(variants: seq<Schema>, last: Schema)
    requires Plain(last)
    ensures Collect(variants + [last]) ==
      var before := Collect(variants);
      var entry := if TypeOf(last) in before.byType then Merge(before.byType[TypeOf(last)], last) else last;
      Buckets(before.byType[TypeOf(last) := entry], before.untyped)
  {
    assert (variants + [last])[..|variants|] == variants;
  }

  lemma {:induction false} CollectDistinct(variants: seq<Schema>)
    requires AllPlain(variants) && SortedByType(variants)
    ensures Collect(variants) == Buckets(ByType(variants), [])
  {
    hide Height, Merge;
    if variants != [] {
      var before, last := variants[..|variants| - 1], variants[|variants| - 1];
      assert variants == before + [last];
      NewType(before, last);
      CollectDistinct(before);
      CollectAppend(before, last);
      ByTypeAppend(before, last);
    }
  }

  lemma {:induction false} CollectBoth(left: seq<Schema>, right: seq<Schema>)
    requires AllPlain(left) && SortedByType(left)
    requires AllPlain(right) && SortedByType(right)
    ensures Collect(left + right) == Buckets(JoinTypes(ByType(left), ByType(right)), [])
    decreases |right|
  {
    hide Height, Collect, ByType, Merge, JoinTypes;
    if right == [] {
      CollectDistinct(left);
      assert left + right == left;
      ByTypeEmpty();
      JoinEmpty(ByType(left));
    } else {
      var before, last := right[..|right| - 1], right[|right| - 1];
      SplitLast(right);
      NewType(before, last);
      CollectBoth(left, before);
      AppendAssociative(left, before, [last]);
      CollectAppend(left + before, last);
      ByTypeAppend(before, last);
      JoinStep(ByType(left), ByType(before), TypeOf(last), last);
    }
  }

  /** On canonical schemas the union branch is the pointwise join of the two type tables. */
  lemma UnionPointwise(left: Schema, right: Schema, room: nat)
    requires Canonical(left, room) && Canonical(right, room)
    ensures AllPlain(Variants(left)) && AllPlain(Variants(right))
    ensures WellKeyed(JoinTypes(TypeTable(left), TypeTable(right)))
    ensures MergeUnion(left, right) ==
      AnyOf(Ordered(JoinTypes(TypeTable(left), TypeTable(right))),
            left.optional || right.optional, left.truncated || right.truncated)
  {
    hide Height, ByType, Collect;
    TypeTableProperties(left, room);
    TypeTableProperties(right, room);
    CollectBoth(Variants(left), Variants(right));
    var variants := Ordered(JoinTypes(TypeTable(left), TypeTable(right)));
    assert variants + [] == variants;
  }

  lemma UnionTable(left: Schema, right: Schema, room: nat)
    requires Canonical(left, room) && Canonical(right, room)
    ensures AllPlain(Variants(left)) && AllPlain(Variants(right)) && AllPlain(Variants(MergeUnion(left, right)))
    ensures TypeTable(MergeUnion(left, right)) == JoinTypes(TypeTable(left), TypeTable(right))
  {
    UnionPointwise(left, right, room);
    OrderedProperties(JoinTypes(TypeTable(left), TypeTable(right)));
  }

  /** Two schemas that reach the union branch have at least two types between them. */
  lemma UnionMixed(left: Schema, right: Schema, room: nat)
    requires Canonical(left, room) && Canonical(right, room)
    requires !SameType(left, right)
    ensures AllPlain(Variants(left)) && AllPlain(Variants(right))
    ensures Mixed(JoinTypes(TypeTable(left), TypeTable(right)))
  {
    TypeTableProperties(left, room);
    TypeTableProperties(right, room);
    var joined := JoinTypes(TypeTable(left), TypeTable(right));
    if left.AnyOf? {
      var first, second :| first in TypeTable(left) && second in TypeTable(left) && first != second;
      assert first in joined && second in joined;
    } else if right.AnyOf? {
      var first, second :| first in TypeTable(right) && second in TypeTable(right) && first != second;
      assert first in joined && second in joined;
    } else {
      assert TypeOf(left) in joined && TypeOf(right) in joined;
    }
  }

  /** Canonical form is closed under merging. */
  lemma {:induction false} MergeCanonical(left: Schema, right: Schema, room: nat)
    requires Canonical(left, room) && Canonical(right, room)
    ensures Canonical(Merge(left, right), room)
    decreases room, if SameType(left, right) then 1 else 3
  {
    hide Height, MergeUnion, Ordered, ByType;
    if left == right {
    } else if !SameType(left, right) {
      assert Merge(left, right) == MergeUnion(left, right);
      MergeUnionCanonical(left, right, room);
    } else if left.ObjectNode? {
      MergeObjectsCanonical(left, right, room);
    } else if left.ArrayNode? {
      assert Merge(left, right).items == Merge(left.items, right.items);
      if room > 0 {
        MergeCanonical(left.items, right.items, room - 1);
      }
    }
  }

  lemma {:induction false} MergeUnionCanonical(left: Schema, right: Schema, room: nat)
    requires Canonical(left, room) && Canonical(right, room)
    requires !SameType(left, right)
    ensures Canonical(MergeUnion(left, right), room)
    decreases room, 2
  {
    hide Height, Merge, MergeUnion, Ordered, ByType, Canonical;
    UnionPointwise(left, right, room);
    UnionMixed(left, right, room);
    TypeTableProperties(left, room);
    TypeTableProperties(right, room);
    var joined := JoinTypes(TypeTable(left), TypeTable(right));
    forall name | name in joined
      ensures Canonical(joined[name], room) && (joined[name].optional ==> left.optional || right.optional)
    {
      if name in TypeTable(left) && name in TypeTable(right) {
        MergeCanonical(TypeTable(left)[name], TypeTable(right)[name], room);
      }
    }
    UnionCanonical(joined, left.optional || right.optional, left.truncated || right.truncated, room);
  }

  lemma {:induction false} MergeObjectsCanonical(left: Schema, right: Schema, room: nat)
    requires Canonical(left, room) && Canonical(right, room)
    requires left.ObjectNode? && right.ObjectNode? && left != right
    ensures Canonical(Merge(left, right), room)
    decreases room, 0
  {
    hide Height, MergeUnion, Ordered, ByType;
    var merged := MergeProperties(left, right);
    if room == 0 {
      assert merged == map[];
      return;
    }
    forall key | key in merged
      ensures Canonical(merged[key], room - 1)
      ensures key in left.required * right.required <==> !merged[key].optional
    {
      assert merged[key] == MergeProperty(left, right, key);
      if key in left.properties && key in right.properties {
        MergeCanonical(left.properties[key], right.properties[key], room - 1);
        assert merged[key] == Merge(left.properties[key], right.properties[key]);
      } else {
        var source := if key in left.properties then left.properties[key] else right.properties[key];
        WithFlagsCanonical(source, true, source.truncated, room - 1);
      }
    }
  }

  lemma MergeObjectKeys(left: Schema, right: Schema)
    requires left.ObjectNode? && right.ObjectNode?
    ensures Merge(left, right).ObjectNode?
    ensures Merge(left, right).properties.Keys == left.properties.Keys + right.properties.Keys
    ensures Merge(left, right).required == left.required * right.required
  {
    hide Height, MergeUnion, MergeProperty;
  }

  lemma WithFlagsCanonical(schema: Schema, optional: bool, truncated: bool, room: nat)
    requires Canonical(schema, room)
    requires schema.truncated == truncated && (schema.optional ==> optional)
    ensures Canonical(WithFlags(schema, optional, truncated), room)
  {
  }

  /** The order of the two arguments does not matter. */
  lemma {:induction false} MergeCommutes(left: Schema, right: Schema, room: nat)
    requires Canonical(left, room) && Canonical(right, room)
    ensures Merge(left, right) == Merge(right, left)
    decreases room, if SameType(left, right) then 1 else 2
  {
    hide Height, MergeUnion, Ordered, ByType, JoinTypes;
    if left == right {
    } else if SameType(left, right) {
      match left {
        case ObjectNode(_, _, _, _) => MergePropertiesCommutes(left, right, room);
        case ArrayNode(leftItems, _, _) =>
          if room > 0 {
            MergeCommutes(leftItems, right.items, room - 1);
          }
        case Scalar(_, _, _) =>
      }
    } else {
      UnionPointwise(left, right, room);
      UnionPointwise(right, left, room);
      TypeTableProperties(left, room);
      TypeTableProperties(right, room);
      forall name | name in TypeTable(left) && name in TypeTable(right)
        ensures Merge(TypeTable(left)[name], TypeTable(right)[name]) == Merge(TypeTable(right)[name], TypeTable(left)[name])
      {
        MergeCommutes(TypeTable(left)[name], TypeTable(right)[name], room);
      }
      JoinSymmetric(TypeTable(left), TypeTable(right));
    }
  }

  lemma {:induction false} MergePropertiesCommutes(left: Schema, right: Schema, room: nat)
    requires Canonical(left, room) && Canonical(right, room)
    requires left.ObjectNode? && right.ObjectNode?
    ensures MergeProperties(left, right) == MergeProperties(right, left)
    decreases room, 0
  {
    hide Height, MergeUnion, Ordered, ByType;
    forall key | key in left.properties || key in right.properties
      ensures MergeProperty(left, right, key) == MergeProperty(right, left, key)
    {
      if key in left.properties && key in right.properties {
        MergeCommutes(left.properties[key], right.properties[key], room - 1);
      }
    }
    PropertiesEqual(left, right);
  }

  lemma PropertiesEqual(left: Schema, right: Schema)
    requires left.ObjectNode? && right.ObjectNode?
    requires forall key :: key in left.properties || key in right.properties ==>
      MergeProperty(left, right, key) == MergeProperty(right, left, key)
    ensures MergeProperties(left, right) == MergeProperties(right, left)
  {
    hide Height, MergeProperty;
  }

  /**
   * The equality test of `_merge_schema` is only a short cut: the code after it gives the same
   * answer for equal arguments, so reading a missing entry as an empty one cannot be observed.
   */
  lemma ShortcutUnobservable(schema: Schema, room: nat)
    requires Canonical(schema, room)
    ensures MergeDistinct(schema, schema) == schema
  {
    hide Height, MergeUnion, Ordered;
    match schema {
      case ObjectNode(properties, _, _, _) =>
        forall key | key in properties ensures MergeProperty(schema, schema, key) == properties[key] {
          assert Merge(properties[key], properties[key]) == properties[key];
        }
        assert MergeProperties(schema, schema) == properties;
      case ArrayNode(_, _, _) =>
      case Scalar(_, _, _) =>
      case AnyOf(variants, _, _) =>
        UnionPointwise(schema, schema, room);
        JoinIdempotent(TypeTable(schema));
    }
  }
}
