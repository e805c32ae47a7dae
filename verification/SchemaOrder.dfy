/** What the order of the samples can change: nothing but `optional` marks on union variants. */
module SchemaOrder {
  import opened Sequences
  import opened SchemaModel
  import opened SchemaMerge
  import opened SchemaLaws
  import opened SchemaShape

  /** Equality that ignores the `optional` marks on the variants of unions. */
  ghost predicate SameButMarks(left: Schema, right: Schema, isVariant: bool)
    decreases left
  {
    && left.truncated == right.truncated
    && (isVariant || left.optional == right.optional)
    && match left
       case Untyped(_, _) => right.Untyped?
       case Scalar(kind, _, _) => right.Scalar? && kind == right.kind
       case ObjectNode(properties, required, _, _) =>
         && right.ObjectNode? && required == right.required && properties.Keys == right.properties.Keys
         && forall key :: key in properties ==> SameButMarks(properties[key], right.properties[key], false)
       case ArrayNode(items, _, _) => right.ArrayNode? && SameButMarks(items, right.items, false)
       case AnyOf(variants, _, _) =>
         && right.AnyOf? && |variants| == |right.variants|
         && forall i :: 0 <= i < |variants| ==> SameButMarks(variants[i], right.variants[i], true)
  }

  lemma {:induction false} PickAligned(left: map<TypeName, Schema>, right: map<TypeName, Schema>, count: nat)
    requires WellKeyed(left) && WellKeyed(right) && left.Keys == right.Keys && count <= TYPE_COUNT
    ensures |Pick(left, count)| == |Pick(right, count)|
    ensures forall i :: 0 <= i < |Pick(left, count)| ==>
      && Plain(Pick(left, count)[i]) && Plain(Pick(right, count)[i])
      && TypeOf(Pick(left, count)[i]) == TypeOf(Pick(right, count)[i])
  {
    if count > 0 {
      PickAligned(left, right, count - 1);
      assert NameAt(count - 1) in left <==> NameAt(count - 1) in right;
    }
  }

  /** Two unions with the same types list them in the same order. */
  lemma VariantsAligned(left: Schema, right: Schema, room: nat)
    requires Canonical(left, room) && Canonical(right, room) && left.AnyOf? && right.AnyOf?
    requires ByType(left.variants).Keys == ByType(right.variants).Keys
    ensures |left.variants| == |right.variants|
    ensures forall i :: 0 <= i < |left.variants| ==> SameType(left.variants[i], right.variants[i])
  {
    hide ByType;
    PickAligned(ByType(left.variants), ByType(right.variants), TYPE_COUNT);
  }

  lemma {:induction false} EqualViewsAgree(left: Schema, right: Schema, room: nat)
    requires Canonical(left, room) && Canonical(right, room)
    requires View(left) == View(right)
    ensures SameButMarks(left, right, false)
    ensures left.optional == right.optional
    decreases room, 2
  {
    hide Height, ByType, Ordered, View, KindOf;
    KindsOfTable(left, room);
    KindsOfTable(right, room);
    TypeTableProperties(left, room);
    TypeTableProperties(right, room);
    if left.AnyOf? && right.AnyOf? {
      assert ByType(left.variants).Keys == View(left).kinds.Keys == ByType(right.variants).Keys;
      VariantsAligned(left, right, room);
      forall i | 0 <= i < |left.variants|
        ensures SameButMarks(left.variants[i], right.variants[i], true)
      {
        var name := TypeOf(left.variants[i]);
        assert View(left).kinds[name] == KindOf(left.variants[i]);
        assert View(right).kinds[name] == KindOf(right.variants[i]);
        EqualKindsAgree(left.variants[i], right.variants[i], room);
      }
    } else if left.AnyOf? {
      MixedIsNotPlain(left, right, room);
    } else if right.AnyOf? {
      MixedIsNotPlain(right, left, room);
    } else {
      assert View(left).kinds[TypeOf(left)] == KindOf(left);
      assert View(right).kinds[TypeOf(right)] == KindOf(right);
      EqualKindsAgree(left, right, room);
    }
  }

  lemma MixedIsNotPlain(union: Schema, plain: Schema, room: nat)
    requires Canonical(union, room) && Canonical(plain, room)
    requires union.AnyOf? && !plain.AnyOf?
    ensures View(union) != View(plain)
  {
    hide Height, ByType, Ordered, KindOf;
    KindsOfTable(union, room);
    TypeTableProperties(union, room);
    var first, second :| first in TypeTable(union) && second in TypeTable(union) && first != second;
    assert first in View(union).kinds && second in View(union).kinds;
    assert View(plain).kinds.Keys == {TypeOf(plain)};
  }

  lemma ObjectsAgree(left: Schema, right: Schema, room: nat)
    requires Canonical(left, room) && Canonical(right, room)
    requires left.ObjectNode? && right.ObjectNode? && left.truncated == right.truncated
    requires left.properties.Keys == right.properties.Keys
    requires forall key :: key in left.properties ==>
      && SameButMarks(left.properties[key], right.properties[key], false)
      && left.properties[key].optional == right.properties[key].optional
    ensures SameButMarks(left, right, true)
    ensures left.optional == right.optional ==> SameButMarks(left, right, false)
  {
    hide Height, ByType, Ordered;
    SameRequired(left.properties, right.properties);
  }

  lemma SameRequired(left: map<string, Schema>, right: map<string, Schema>)
    requires left.Keys == right.Keys
    requires forall key :: key in left ==> left[key].optional == right[key].optional
    ensures NotOptional(left) == NotOptional(right)
  {
  }

  lemma LeavesAgree(left: Schema, right: Schema)
    requires SameType(left, right) && !left.ObjectNode? && left.truncated == right.truncated
    requires left.ArrayNode? ==> SameButMarks(left.items, right.items, false)
    ensures SameButMarks(left, right, true)
    ensures left.optional == right.optional ==> SameButMarks(left, right, false)
  {
  }

  lemma {:induction false} EqualKindsAgree(left: Schema, right: Schema, room: nat)
    requires Canonical(left, room) && Canonical(right, room)
    requires SameType(left, right) && KindOf(left) == KindOf(right)
    ensures SameButMarks(left, right, true)
    ensures left.optional == right.optional ==> SameButMarks(left, right, false)
    decreases room, 1
  {
    hide Height, ByType, Ordered, View, SameButMarks;
    if left.ObjectNode? {
      assert left.properties.Keys == KindOf(left).properties.Keys == KindOf(right).properties.Keys == right.properties.Keys;
      forall key | key in left.properties
        ensures SameButMarks(left.properties[key], right.properties[key], false)
        ensures left.properties[key].optional == right.properties[key].optional
      {
        assert KindOf(left).properties[key] == View(left.properties[key]);
        assert KindOf(right).properties[key] == View(right.properties[key]);
        EqualViewsAgree(left.properties[key], right.properties[key], room - 1);
      }
      ObjectsAgree(left, right, room);
    } else {
      if left.ArrayNode? {
        assert KindOf(left).items == Items(View(left.items)) && KindOf(right).items == Items(View(right.items));
        ItemsAgree(left.items, right.items, room);
      }
      LeavesAgree(left, right);
    }
  }

  lemma {:induction false} ItemsAgree(left: Schema, right: Schema, room: nat)
    requires room > 0 ==> Canonical(left, room - 1) && Canonical(right, room - 1) && View(left) == View(right)
    requires room == 0 ==> left == EMPTY && right == EMPTY
    ensures SameButMarks(left, right, false)
    decreases room, 0
  {
    hide View, Canonical;
    if room > 0 {
      EqualViewsAgree(left, right, room - 1);
    }
  }

  ghost predicate VariantsAgree(left: Schema, right: Schema) {
    && left.AnyOf? && right.AnyOf? && |left.variants| == |right.variants|
    && forall i :: 0 <= i < |left.variants| ==>
      && SameType(left.variants[i], right.variants[i])
      && KindOf(left.variants[i]) == KindOf(right.variants[i])
  }

  lemma TablesAgree(left: Schema, right: Schema, name: TypeName, room: nat)
    requires Canonical(left, room) && Canonical(right, room) && VariantsAgree(left, right)
    requires name in TypeTable(left)
    ensures name in TypeTable(right) && KindOf(TypeTable(left)[name]) == KindOf(TypeTable(right)[name])
  {
    hide Height, ByType, Ordered, View, KindOf, Canonical;
    TypeTableProperties(right, room);
    ByTypeMembers(left.variants);
    var i :| 0 <= i < |left.variants| && left.variants[i] == TypeTable(left)[name];
    assert right.variants[i] in right.variants;
  }

  lemma UnionViewsEqual(left: Schema, right: Schema, room: nat)
    requires Canonical(left, room) && Canonical(right, room) && VariantsAgree(left, right)
    requires left.optional == right.optional && left.truncated == right.truncated
    ensures View(left) == View(right)
  {
    hide Height, ByType, Ordered, View, KindOf, Canonical;
    KindsOfTable(left, room);
    KindsOfTable(right, room);
    forall name | name in TypeTable(left)
      ensures name in TypeTable(right) && KindOf(TypeTable(left)[name]) == KindOf(TypeTable(right)[name])
    {
      TablesAgree(left, right, name, room);
    }
    forall name | name in TypeTable(right) ensures name in TypeTable(left) {
      TablesAgree(right, left, name, room);
    }
    assert View(left).kinds == View(right).kinds;
  }

  /** Schemas with the same meaning differ in the marks on union variants only, and conversely. */
  lemma {:induction false} AgreeingViewsEqual(left: Schema, right: Schema, room: nat)
    requires Canonical(left, room) && Canonical(right, room)
    requires SameButMarks(left, right, false)
    ensures View(left) == View(right)
    decreases room, 1
  {
    hide Height, ByType, Ordered;
    if left.AnyOf? {
      forall i | 0 <= i < |left.variants|
        ensures SameType(left.variants[i], right.variants[i])
        ensures KindOf(left.variants[i]) == KindOf(right.variants[i])
      {
        AgreeingKindsEqual(left.variants[i], right.variants[i], room);
      }
      UnionViewsEqual(left, right, room);
    } else {
      AgreeingKindsEqual(left, right, room);
    }
  }

  lemma {:induction false} AgreeingKindsEqual(left: Schema, right: Schema, room: nat)
    requires Canonical(left, room) && Canonical(right, room)
    requires Plain(left) && SameButMarks(left, right, true)
    ensures SameType(left, right) && KindOf(left) == KindOf(right)
    decreases room, 0
  {
    hide Height, ByType, Ordered, View;
    if left.ObjectNode? {
      forall key | key in left.properties ensures View(left.properties[key]) == View(right.properties[key]) {
        AgreeingViewsEqual(left.properties[key], right.properties[key], room - 1);
      }
      SamePropertyViews(left, right);
    } else if left.ArrayNode? && room > 0 {
      AgreeingViewsEqual(left.items, right.items, room - 1);
    }
  }

  lemma SamePropertyViews(left: Schema, right: Schema)
    requires left.ObjectNode? && right.ObjectNode? && left.truncated == right.truncated
    requires left.properties.Keys == right.properties.Keys
    requires forall key :: key in left.properties ==> View(left.properties[key]) == View(right.properties[key])
    ensures KindOf(left) == KindOf(right)
  {
    hide View;
    assert KindOf(left).properties == KindOf(right).properties;
  }

  /** Grouping does not matter, up to the marks. */
  lemma MergeAssociative(a: Schema, b: Schema, c: Schema, room: nat)
    requires Canonical(a, room) && Canonical(b, room) && Canonical(c, room)
    ensures SameButMarks(Merge(Merge(a, b), c), Merge(a, Merge(b, c)), false)
  {
    hide Height, Merge, View, Join, Canonical;
    MergeCanonical(a, b, room);
    MergeCanonical(b, c, room);
    MergeCanonical(Merge(a, b), c, room);
    MergeCanonical(a, Merge(b, c), room);
    ViewMerge(a, b, room);
    ViewMerge(b, c, room);
    ViewMerge(Merge(a, b), c, room);
    ViewMerge(a, Merge(b, c), room);
    JoinAssociative(View(a), View(b), View(c));
    EqualViewsAgree(Merge(Merge(a, b), c), Merge(a, Merge(b, c)), room);
  }

  // ----- Folding a list of schemas -----

  ghost predicate AllCanonical(schemas: seq<Schema>, room: nat) {
    forall schema :: schema in schemas ==> Canonical(schema, room)
  }

  /** The left fold of `_merge_schema` over a non-empty list. */
  function MergeAll(schemas: seq<Schema>): Schema
    requires schemas != []
  {
    var last := |schemas| - 1;
    if last == 0 then schemas[0] else Merge(MergeAll(schemas[..last]), schemas[last])
  }

  ghost function JoinAll(schemas: seq<Schema>): Shape
    requires schemas != []
  {
    var last := |schemas| - 1;
    if last == 0 then View(schemas[0]) else Join(JoinAll(schemas[..last]), View(schemas[last]))
  }

  lemma {:induction false} MergeAllView(schemas: seq<Schema>, room: nat)
    requires schemas != [] && AllCanonical(schemas, room)
    ensures Canonical(MergeAll(schemas), room)
    ensures View(MergeAll(schemas)) == JoinAll(schemas)
  {
    hide Height, Merge, View, Join, Canonical;
    var last := |schemas| - 1;
    if last > 0 {
      MergeAllView(schemas[..last], room);
      MergeCanonical(MergeAll(schemas[..last]), schemas[last], room);
      ViewMerge(MergeAll(schemas[..last]), schemas[last], room);
    }
  }

  lemma JoinAllAppend(schemas: seq<Schema>, last: Schema)
    requires schemas != []
    ensures JoinAll(schemas + [last]) == Join(JoinAll(schemas), View(last))
  {
    assert (schemas + [last])[..|schemas|] == schemas;
  }

  /** Any element of the list may be joined last. */
  lemma {:induction false} JoinAllPull(schemas: seq<Schema>, i: nat)
    requires |schemas| > 1 && i < |schemas|
    ensures JoinAll(schemas) == Join(JoinAll(Without(schemas, i)), View(schemas[i]))
    decreases |schemas|
  {
    hide View, Join, JoinAll;
    var last := |schemas| - 1;
    var before := schemas[..last];
    SplitLast(schemas);
    JoinAllAppend(before, schemas[last]);
    if i == last {
      assert Without(schemas, i) == before;
    } else if last == 1 {
      assert Without(schemas, i) == [schemas[1]] && before == [schemas[0]];
      JoinAllSingle(schemas[0]);
      JoinAllSingle(schemas[1]);
      JoinCommutes(View(schemas[0]), View(schemas[1]));
    } else {
      JoinAllPull(before, i);
      WithoutBeforeLast(schemas, i);
      var shorter := Without(before, i);
      JoinAllAppend(shorter, schemas[last]);
      JoinSwap(JoinAll(shorter), View(schemas[i]), View(schemas[last]));
    }
  }

  lemma JoinAllSingle(schema: Schema)
    ensures JoinAll([schema]) == View(schema)
  {
  }

  lemma JoinSwap(a: Shape, b: Shape, c: Shape)
    ensures Join(Join(a, b), c) == Join(Join(a, c), b)
  {
    hide Join;
    JoinAssociative(a, b, c);
    JoinCommutes(b, c);
    JoinAssociative(a, c, b);
  }

  lemma {:induction false} JoinAllReorder(one: seq<Schema>, other: seq<Schema>)
    requires one != [] && multiset(one) == multiset(other)
    ensures other != [] && JoinAll(one) == JoinAll(other)
    decreases |one|
  {
    hide View, Join, JoinAll;
    assert |one| == |multiset(one)| == |multiset(other)| == |other|;
    var last := |one| - 1;
    assert one[last] in multiset(other);
    var i :| 0 <= i < |other| && other[i] == one[last];
    if last == 0 {
      assert one == other;
    } else {
      RemoveOne(one, last);
      RemoveOne(other, i);
      JoinAllReorder(Without(one, last), Without(other, i));
      JoinAllPull(one, last);
      JoinAllPull(other, i);
    }
  }

  /** Any reordering of the schemas folds to the same schema, up to the marks on union variants. */
  lemma ReorderedMerge(one: seq<Schema>, other: seq<Schema>, room: nat)
    requires one != [] && AllCanonical(one, room) && multiset(one) == multiset(other)
    ensures other != [] && SameButMarks(MergeAll(one), MergeAll(other), false)
  {
    hide Canonical, View, Join;
    assert |one| == |multiset(one)| == |multiset(other)| == |other|;
    forall schema | schema in other ensures Canonical(schema, room) {
      assert schema in multiset(one);
    }
    MergeAllView(one, room);
    MergeAllView(other, room);
    JoinAllReorder(one, other);
    EqualViewsAgree(MergeAll(one), MergeAll(other), room);
  }

  // ----- Where the order shows -----

  lemma NumberOrText(optional: bool)
    ensures var number, text := Scalar(IntegerKind, optional, false), Scalar(StringKind, false, false);
      && Merge(number, text).AnyOf?
      && forall mark :: Scalar(IntegerKind, mark, false) in Merge(number, text).variants <==> mark == optional
  {
    hide Ordered, Height, MergeUnion, ByType;
    var number, text := Scalar(IntegerKind, optional, false), Scalar(StringKind, false, false);
    UnionPointwise(number, text, 1);
    OrderedProperties(JoinTypes(TypeTable(number), TypeTable(text)));
    TypeTableProperties(number, 1);
    TypeTableProperties(text, 1);
  }

  const ANY_NUMBER := Scalar(IntegerKind, false, false)
  const ANY_TEXT := Scalar(StringKind, false, false)
  const WITH_NUMBER := ObjectNode(map["k" := ANY_NUMBER], {"k"}, false, false)
  const WITH_TEXT := ObjectNode(map["k" := ANY_TEXT], {"k"}, false, false)
  const WITHOUT := ObjectNode(map[], {}, false, false)

  /** The merge of two objects that both know `key`, or of which one does. */
  lemma MergeKey(left: Schema, right: Schema, key: string)
    requires left.ObjectNode? && right.ObjectNode? && left != right
    requires key in left.properties || key in right.properties
    ensures Merge(left, right).ObjectNode? && key in Merge(left, right).properties
    ensures Merge(left, right).properties[key] == MergeProperty(left, right, key)
    ensures Merge(left, right).required == left.required * right.required
  {
    hide Height, MergeUnion;
    assert Merge(left, right).properties == MergeProperties(left, right);
  }

  lemma AbsenceBetween()
    ensures Merge(Merge(WITH_NUMBER, WITHOUT), WITH_TEXT).ObjectNode?
    ensures var merged := Merge(Merge(WITH_NUMBER, WITHOUT), WITH_TEXT).properties;
      "k" in merged && merged["k"].AnyOf? && Scalar(IntegerKind, true, false) in merged["k"].variants
  {
    hide Height, Merge, MergeUnion;
    assert "k" in WITH_NUMBER.required && "k" !in WITHOUT.required && "k" in WITH_TEXT.required;
    MergeKey(WITH_NUMBER, WITHOUT, "k");
    MergeKey(Merge(WITH_NUMBER, WITHOUT), WITH_TEXT, "k");
    NumberOrText(true);
  }

  lemma AbsenceAfter()
    ensures Merge(Merge(WITH_NUMBER, WITH_TEXT), WITHOUT).ObjectNode?
    ensures var merged := Merge(Merge(WITH_NUMBER, WITH_TEXT), WITHOUT).properties;
      "k" in merged && merged["k"].AnyOf? && Scalar(IntegerKind, true, false) !in merged["k"].variants
  {
    hide Height, Merge, MergeUnion;
    assert "k" in WITH_NUMBER.required && "k" !in WITHOUT.required && "k" in WITH_TEXT.required;
    assert WITH_NUMBER.properties["k"] != WITH_TEXT.properties["k"];
    MergeKey(WITH_NUMBER, WITH_TEXT, "k");
    assert "k" in Merge(WITH_NUMBER, WITH_TEXT).required;
    MergeKey(Merge(WITH_NUMBER, WITH_TEXT), WITHOUT, "k");
    NumberOrText(false);
  }

  /**
   * The marks do depend on the order: a sample without the property, seen between two samples that
   * disagree on its type, marks the first of the two variants; seen after both, it marks neither.
   */
  lemma OrderChangesMarks()
    ensures Canonical(WITH_NUMBER, 1) && Canonical(WITHOUT, 1) && Canonical(WITH_TEXT, 1)
    ensures Merge(Merge(WITH_NUMBER, WITHOUT), WITH_TEXT) != Merge(Merge(WITH_NUMBER, WITH_TEXT), WITHOUT)
  {
    hide Height, Merge;
    AbsenceBetween();
    AbsenceAfter();
  }
}
