/**
 * The meaning of a canonical schema: which types occur at a position, and for objects and arrays
 * the meaning of what is below.  It forgets one thing only, the `optional` marks on the variants
 * of a union.  On meanings merging is a plain pointwise join.
 */
module SchemaShape {
  import opened SchemaModel
  import opened SchemaMerge
  import opened SchemaLaws

  datatype Shape = Shape(optional: bool, truncated: bool, kinds: map<TypeName, Kind>)
  datatype Kind = Kind(truncated: bool, properties: map<string, Shape>, items: Inner)
  datatype Inner = NoItems | Items(shape: Shape)

  ghost function View(schema: Schema): Shape
    decreases schema, 1
  {
    Shape(schema.optional, schema.truncated,
      if Plain(schema) then
        map[TypeOf(schema) := KindOf(schema)]
      else if schema.AnyOf? && AllPlain(schema.variants) then
        ByTypeMembers(schema.variants);
        map name | name in ByType(schema.variants) :: KindOf(ByType(schema.variants)[name])
      else
        map[])
  }

  ghost function KindOf(schema: Schema): Kind
    requires Plain(schema)
    decreases schema, 0
  {
    match schema
    case Scalar(_, _, truncated) => Kind(truncated, map[], NoItems)
    case ObjectNode(properties, _, _, truncated) =>
      Kind(truncated, map key | key in properties :: View(properties[key]), NoItems)
    case ArrayNode(items, _, truncated) => Kind(truncated, map[], Items(View(items)))
  }

  ghost function Join(left: Shape, right: Shape): Shape
    decreases left, 1
  {
    Shape(left.optional || right.optional, left.truncated || right.truncated,
          map name | name in left.kinds.Keys + right.kinds.Keys ::
            if name in left.kinds && name in right.kinds then JoinKinds(left.kinds[name], right.kinds[name])
            else if name in left.kinds then left.kinds[name] else right.kinds[name])
  }

  ghost function JoinKinds(left: Kind, right: Kind): Kind
    decreases left, 1
  {
    Kind(left.truncated || right.truncated,
         map key | key in left.properties.Keys + right.properties.Keys :: JoinProperty(left, right, key),
         if left.items.NoItems? then right.items
         else if right.items.NoItems? then left.items
         else Items(Join(left.items.shape, right.items.shape)))
  }

  ghost function JoinProperty(left: Kind, right: Kind, key: string): Shape
    requires key in left.properties || key in right.properties
    decreases left, 0
  {
    if key in left.properties && key in right.properties then Join(left.properties[key], right.properties[key])
    else Absent(if key in left.properties then left.properties[key] else right.properties[key])
  }

  /** A property missing from the other side is optional. */
  ghost function Absent(shape: Shape): Shape {
    shape.(optional := true)
  }

  // ----- The join is associative and commutative -----

  lemma {:induction false} JoinCommutes(left: Shape, right: Shape)
    ensures Join(left, right) == Join(right, left)
    decreases left, 1
  {
    forall name | name in left.kinds && name in right.kinds
      ensures JoinKinds(left.kinds[name], right.kinds[name]) == JoinKinds(right.kinds[name], left.kinds[name])
    {
      JoinKindsCommutes(left.kinds[name], right.kinds[name]);
    }
    assert Join(left, right).kinds == Join(right, left).kinds;
  }

  lemma {:induction false} JoinKindsCommutes(left: Kind, right: Kind)
    ensures JoinKinds(left, right) == JoinKinds(right, left)
    decreases left, 0
  {
    forall key | key in left.properties || key in right.properties
      ensures JoinProperty(left, right, key) == JoinProperty(right, left, key)
    {
      if key in left.properties && key in right.properties {
        JoinCommutes(left.properties[key], right.properties[key]);
      }
    }
    assert JoinKinds(left, right).properties == JoinKinds(right, left).properties;
    if left.items.Items? && right.items.Items? {
      JoinCommutes(left.items.shape, right.items.shape);
    }
  }

  lemma {:induction false} JoinAssociative(a: Shape, b: Shape, c: Shape)
    ensures Join(Join(a, b), c) == Join(a, Join(b, c))
    decreases a, 2
  {
    hide JoinKinds;
    var left, right := Join(Join(a, b), c), Join(a, Join(b, c));
    forall name | name in a.kinds && name in b.kinds && name in c.kinds
      ensures JoinKinds(JoinKinds(a.kinds[name], b.kinds[name]), c.kinds[name]) ==
        JoinKinds(a.kinds[name], JoinKinds(b.kinds[name], c.kinds[name]))
    {
      JoinKindsAssociative(a.kinds[name], b.kinds[name], c.kinds[name]);
    }
    forall name | name in left.kinds ensures left.kinds[name] == right.kinds[name] {
    }
    assert left.kinds == right.kinds;
  }

  lemma {:induction false} JoinKindsAssociative(a: Kind, b: Kind, c: Kind)
    ensures JoinKinds(JoinKinds(a, b), c) == JoinKinds(a, JoinKinds(b, c))
    decreases a, 1
  {
    hide Join;
    forall key | key in a.properties || key in b.properties || key in c.properties
      ensures JoinProperty(JoinKinds(a, b), c, key) == JoinProperty(a, JoinKinds(b, c), key)
    {
      JoinPropertyAssociative(a, b, c, key);
    }
    SameProperties(a, b, c);
    if a.items.Items? && b.items.Items? && c.items.Items? {
      JoinAssociative(a.items.shape, b.items.shape, c.items.shape);
    }
  }

  lemma SameProperties(a: Kind, b: Kind, c: Kind)
    requires forall key :: key in a.properties || key in b.properties || key in c.properties ==>
      JoinProperty(JoinKinds(a, b), c, key) == JoinProperty(a, JoinKinds(b, c), key)
    ensures JoinKinds(JoinKinds(a, b), c).properties == JoinKinds(a, JoinKinds(b, c)).properties
  {
    hide Join, JoinProperty;
  }

  lemma AbsentJoin(left: Shape, right: Shape)
    ensures Join(Absent(left), right) == Absent(Join(left, right)) == Join(left, Absent(right))
  {
    hide JoinKinds;
    assert Join(Absent(left), right).kinds == Join(left, right).kinds == Join(left, Absent(right)).kinds;
  }

  lemma {:induction false} JoinPropertyAssociative(a: Kind, b: Kind, c: Kind, key: string)
    requires key in a.properties || key in b.properties || key in c.properties
    ensures JoinProperty(JoinKinds(a, b), c, key) == JoinProperty(a, JoinKinds(b, c), key)
    decreases a, 0
  {
    hide Join;
    assert key in JoinKinds(a, b).properties ==> JoinKinds(a, b).properties[key] == JoinProperty(a, b, key);
    assert key in JoinKinds(b, c).properties ==> JoinKinds(b, c).properties[key] == JoinProperty(b, c, key);
    if key in a.properties && key in b.properties && key in c.properties {
      JoinAssociative(a.properties[key], b.properties[key], c.properties[key]);
    } else if key in a.properties && key in b.properties {
      AbsentJoin(a.properties[key], b.properties[key]);
    } else if key in a.properties && key in c.properties {
      AbsentJoin(a.properties[key], c.properties[key]);
    } else if key in b.properties && key in c.properties {
      AbsentJoin(b.properties[key], c.properties[key]);
    }
  }

  // ----- Merging schemas is joining their meanings -----

  lemma MergeIsDistinct(left: Schema, right: Schema, room: nat)
    requires Canonical(left, room) && Canonical(right, room)
    ensures Merge(left, right) == MergeDistinct(left, right)
  {
    if left == right {
      ShortcutUnobservable(left, room);
    }
  }

  lemma KindsOfTable(schema: Schema, room: nat)
    requires Canonical(schema, room)
    ensures AllPlain(Variants(schema))
    ensures View(schema) == Shape(schema.optional, schema.truncated,
      map name | name in TypeTable(schema) :: KindOf(TypeTable(schema)[name]))
    ensures View(schema).kinds.Keys == TypeTable(schema).Keys
  {
    hide Height, ByType, Ordered;
    TypeTableProperties(schema, room);
  }

  lemma ViewAbsent(schema: Schema, room: nat)
    requires Canonical(schema, room)
    ensures View(WithFlags(schema, true, schema.truncated)) == Absent(View(schema))
  {
    hide Height, ByType, Ordered;
  }

  lemma ViewPlain(schema: Schema)
    requires Plain(schema)
    ensures View(schema) == Shape(schema.optional, schema.truncated, map[TypeOf(schema) := KindOf(schema)])
  {
  }

  lemma JoinSingle(left: Shape, right: Shape, name: TypeName)
    requires left.kinds.Keys == {name} && right.kinds.Keys == {name}
    ensures Join(left, right) ==
      Shape(left.optional || right.optional, left.truncated || right.truncated,
            map[name := JoinKinds(left.kinds[name], right.kinds[name])])
  {
    hide JoinKinds;
  }

  /** The fast form refines the simple one: the meaning of a merge is the join of the meanings. */
  lemma {:induction false} ViewMerge(left: Schema, right: Schema, room: nat)
    requires Canonical(left, room) && Canonical(right, room)
    ensures View(Merge(left, right)) == Join(View(left), View(right))
    decreases room, 5
  {
    hide Height, View, KindOf, Join, JoinKinds, MergeUnion, Merge;
    MergeIsDistinct(left, right, room);
    if SameType(left, right) {
      KindMerge(left, right, room);
      ViewPlain(left);
      ViewPlain(right);
      ViewPlain(Merge(left, right));
      JoinSingle(View(left), View(right), TypeOf(left));
    } else {
      assert MergeDistinct(left, right) == MergeUnion(left, right);
      ViewUnion(left, right, room);
    }
  }

  lemma {:induction false} ViewUnion(left: Schema, right: Schema, room: nat)
    requires Canonical(left, room) && Canonical(right, room)
    requires !SameType(left, right)
    ensures View(MergeUnion(left, right)) == Join(View(left), View(right))
    decreases room, 4
  {
    hide Height, ByType, Ordered, MergeUnion, Merge, View, KindOf, JoinKinds, Canonical, TypeTable;
    UnionTable(left, right, room);
    MergeUnionCanonical(left, right, room);
    KindsOfTable(MergeUnion(left, right), room);
    KindsOfTable(left, room);
    KindsOfTable(right, room);
    forall name | name in JoinTypes(TypeTable(left), TypeTable(right))
      ensures KindOf(JoinTypes(TypeTable(left), TypeTable(right))[name]) == Join(View(left), View(right)).kinds[name]
    {
      UnionKind(left, right, name, room);
    }
    assert View(MergeUnion(left, right)).kinds == Join(View(left), View(right)).kinds;
  }

  lemma {:induction false} UnionKind(left: Schema, right: Schema, name: TypeName, room: nat)
    requires Canonical(left, room) && Canonical(right, room)
    requires AllPlain(Variants(left)) && AllPlain(Variants(right))
    requires name in JoinTypes(TypeTable(left), TypeTable(right))
    ensures name in Join(View(left), View(right)).kinds
    ensures Plain(JoinTypes(TypeTable(left), TypeTable(right))[name])
    ensures KindOf(JoinTypes(TypeTable(left), TypeTable(right))[name]) == Join(View(left), View(right)).kinds[name]
    decreases room, 3
  {
    hide Height, ByType, Ordered, Merge, View, KindOf, JoinKinds, Canonical, TypeTable;
    TypeTableProperties(left, room);
    TypeTableProperties(right, room);
    KindsOfTable(left, room);
    KindsOfTable(right, room);
    if name in TypeTable(left) && name in TypeTable(right) {
      KindMerge(TypeTable(left)[name], TypeTable(right)[name], room);
    }
  }

  lemma {:induction false} KindMerge(left: Schema, right: Schema, room: nat)
    requires Canonical(left, room) && Canonical(right, room)
    requires SameType(left, right)
    ensures KindOf(Merge(left, right)) == JoinKinds(KindOf(left), KindOf(right))
    decreases room, 2
  {
    hide Height, MergeUnion, MergeProperties, View;
    MergeIsDistinct(left, right, room);
    if left.ObjectNode? {
      PropertiesMerge(left, right, room);
    } else if left.ArrayNode? {
      assert MergeDistinct(left, right).items == Merge(left.items, right.items);
      ItemsMerge(left, right, room);
    }
  }

  lemma {:induction false} ItemsMerge(left: Schema, right: Schema, room: nat)
    requires Canonical(left, room) && Canonical(right, room)
    requires left.ArrayNode? && right.ArrayNode?
    ensures View(Merge(left.items, right.items)) == Join(View(left.items), View(right.items))
    decreases room, 1
  {
    hide Height, Merge, MergeDistinct, JoinKinds;
    if room > 0 {
      ViewMerge(left.items, right.items, room - 1);
    } else {
      assert Merge(EMPTY, EMPTY) == EMPTY by { MergeSame(EMPTY); }
      assert Join(View(EMPTY), View(EMPTY)).kinds == View(EMPTY).kinds;
    }
  }

  lemma MergeSame(schema: Schema)
    ensures Merge(schema, schema) == schema
  {
  }

  lemma {:induction false} PropertiesMerge(left: Schema, right: Schema, room: nat)
    requires Canonical(left, room) && Canonical(right, room)
    requires left.ObjectNode? && right.ObjectNode?
    ensures JoinKinds(KindOf(left), KindOf(right)) ==
      Kind(left.truncated || right.truncated,
           map key | key in MergeProperties(left, right) :: View(MergeProperties(left, right)[key]), NoItems)
    decreases room, 1
  {
    hide Height, View, Join, MergeProperty, JoinProperty, Canonical;
    forall key | key in left.properties || key in right.properties
      ensures View(MergeProperty(left, right, key)) == JoinProperty(KindOf(left), KindOf(right), key)
    {
      PropertyMerge(left, right, key, room);
    }
  }

  lemma {:induction false} PropertyMerge(left: Schema, right: Schema, key: string, room: nat)
    requires Canonical(left, room) && Canonical(right, room)
    requires left.ObjectNode? && right.ObjectNode?
    requires key in left.properties || key in right.properties
    ensures key in KindOf(left).properties || key in KindOf(right).properties
    ensures View(MergeProperty(left, right, key)) == JoinProperty(KindOf(left), KindOf(right), key)
    decreases room, 0
  {
    hide Height, View, Join, Absent;
    if key in left.properties && key in right.properties {
      ViewMerge(left.properties[key], right.properties[key], room - 1);
    } else {
      ViewAbsent(if key in left.properties then left.properties[key] else right.properties[key], room - 1);
    }
  }
}
