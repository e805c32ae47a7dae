/** Which values a schema describes, and that merging never rejects a value either side described. */
module SchemaAcceptance {
  import opened SchemaModel
  import opened SchemaMerge
  import opened SchemaLaws

  const ITEM_SAMPLE := 8

  /**
   * Every required key is present and fits its property.  An untruncated object lists every key;
   * a truncated one claims nothing about keys that are not required.  Items are described as far
   * as they are sampled.
   */
  ghost predicate Accepts(schema: Schema, value: Json)
    decreases schema
  {
    match schema
    case Untyped(_, _) => true
    case Scalar(kind, _, _) => JsonType(value) == ScalarType(kind)
    case ObjectNode(properties, required, _, truncated) =>
      && value.JObject?
      && (forall key :: key in required ==>
        key in value.members && key in properties && Accepts(properties[key], value.members[key]))
      && (!truncated ==> forall key :: key in value.members ==>
        key in properties && Accepts(properties[key], value.members[key]))
    case ArrayNode(items, _, truncated) =>
      && value.JArray?
      && (!truncated ==> forall i :: 0 <= i < |value.elements| && i < ITEM_SAMPLE ==> Accepts(items, value.elements[i]))
    case AnyOf(variants, _, _) => exists variant :: variant in variants && Accepts(variant, value)
  }

  lemma AcceptsIgnoresOptional(schema: Schema, optional: bool, value: Json)
    ensures Accepts(WithFlags(schema, optional, schema.truncated), value) == Accepts(schema, value)
  {
  }

  lemma AcceptingVariant(schema: Schema, value: Json)
    ensures Accepts(schema, value) <==> exists variant :: variant in Variants(schema) && Accepts(variant, value)
  {
    if !schema.AnyOf? {
      assert schema in Variants(schema);
    }
  }

  /** Merging only widens: what the left side accepts, the merge accepts. */
  lemma {:induction false} MergeAcceptsLeft(left: Schema, right: Schema, value: Json, room: nat)
    requires Canonical(left, room) && Canonical(right, room)
    requires Accepts(left, value)
    ensures Accepts(Merge(left, right), value)
    decreases room, if SameType(left, right) then 1 else 3
  {
    hide Height, MergeUnion, Ordered, ByType;
    if left == right {
    } else if !SameType(left, right) {
      assert Merge(left, right) == MergeUnion(left, right);
      UnionAcceptsLeft(left, right, value, room);
    } else if left.ObjectNode? {
      ObjectAcceptsLeft(left, right, value, room);
    } else if left.ArrayNode? {
      ArrayAcceptsLeft(left, right, value, room);
    }
  }

  lemma {:induction false} UnionAcceptsLeft(left: Schema, right: Schema, value: Json, room: nat)
    requires Canonical(left, room) && Canonical(right, room)
    requires !SameType(left, right) && Accepts(left, value)
    ensures Accepts(MergeUnion(left, right), value)
    decreases room, 2
  {
    hide Height, Merge, MergeUnion, Ordered, ByType, Canonical, Accepts;
    AcceptingVariant(left, value);
    var variant :| variant in Variants(left) && Accepts(variant, value);
    TypeTableProperties(left, room);
    TypeTableProperties(right, room);
    UnionPointwise(left, right, room);
    var joined := JoinTypes(TypeTable(left), TypeTable(right));
    OrderedProperties(joined);
    var name := TypeOf(variant);
    if name in TypeTable(right) {
      MergeAcceptsLeft(variant, TypeTable(right)[name], value, room);
    }
    AcceptingVariant(MergeUnion(left, right), value);
    assert joined[name] in Variants(MergeUnion(left, right));
  }

  lemma {:induction false} ObjectAcceptsLeft(left: Schema, right: Schema, value: Json, room: nat)
    requires Canonical(left, room) && Canonical(right, room)
    requires left.ObjectNode? && right.ObjectNode? && left != right && Accepts(left, value)
    ensures Accepts(Merge(left, right), value)
    decreases room, 0
  {
    hide Height, MergeUnion, Ordered, ByType;
    var merged := MergeProperties(left, right);
    forall key | key in left.properties && key in value.members && Accepts(left.properties[key], value.members[key])
      ensures Accepts(merged[key], value.members[key])
    {
      assert merged[key] == MergeProperty(left, right, key);
      if key in right.properties {
        MergeAcceptsLeft(left.properties[key], right.properties[key], value.members[key], room - 1);
      } else {
        AcceptsIgnoresOptional(left.properties[key], true, value.members[key]);
      }
    }
  }

  lemma {:induction false} ArrayAcceptsLeft(left: Schema, right: Schema, value: Json, room: nat)
    requires Canonical(left, room) && Canonical(right, room)
    requires left.ArrayNode? && right.ArrayNode? && left != right && Accepts(left, value)
    ensures Accepts(Merge(left, right), value)
    decreases room, 0
  {
    hide Height, MergeUnion, Ordered, ByType;
    if room > 0 {
      forall i | 0 <= i < |value.elements| && i < ITEM_SAMPLE
        ensures Accepts(Merge(left.items, right.items), value.elements[i])
      {
        MergeAcceptsLeft(left.items, right.items, value.elements[i], room - 1);
      }
    }
  }

  lemma MergeAcceptsBoth(left: Schema, right: Schema, value: Json, room: nat)
    requires Canonical(left, room) && Canonical(right, room)
    requires Accepts(left, value) || Accepts(right, value)
    ensures Accepts(Merge(left, right), value)
  {
    hide Height, Merge, Canonical, Accepts;
    if Accepts(left, value) {
      MergeAcceptsLeft(left, right, value, room);
    } else {
      MergeCommutes(left, right, room);
      MergeAcceptsLeft(right, left, value, room);
    }
  }
}
