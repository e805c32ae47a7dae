/** JSON values and the schemas inferred from them (`application/api_map.py`). */
module SchemaModel {
  import opened Ordering

  /** A decoded JSON document; object members are read in sorted key order. */
  datatype Json =
    | JNull
    | JBool(flag: bool)
    | JInteger(integer: int)
    | JNumber(number: real)
    | JString(text: string)
    | JArray(elements: seq<Json>)
    | JObject(members: map<string, Json>)

  datatype ScalarKind = BooleanKind | IntegerKind | NullKind | NumberKind | StringKind | UnknownKind

  /** The values of a schema's `type` entry, other than the type list of a union. */
  datatype TypeName = ArrayType | ObjectType | ScalarType(kind: ScalarKind)

  const TYPE_COUNT := 8

  /** The type names in the order Python sorts them. */
  function NameAt(rank: nat): TypeName
    requires rank < TYPE_COUNT
  {
    match rank
    case 0 => ArrayType
    case 1 => ScalarType(BooleanKind)
    case 2 => ScalarType(IntegerKind)
    case 3 => ScalarType(NullKind)
    case 4 => ScalarType(NumberKind)
    case 5 => ObjectType
    case 6 => ScalarType(StringKind)
    case _ => ScalarType(UnknownKind)
  }

  ghost function Rank(name: TypeName): (rank: nat)
    ensures rank < TYPE_COUNT && NameAt(rank) == name
  {
    match name
    case ArrayType => 0
    case ObjectType => 5
    case ScalarType(BooleanKind) => 1
    case ScalarType(IntegerKind) => 2
    case ScalarType(NullKind) => 3
    case ScalarType(NumberKind) => 4
    case ScalarType(StringKind) => 6
    case ScalarType(UnknownKind) => 7
  }

  /**
   * A schema dictionary.  A missing `properties`, `required` or `items` entry is read as the empty
   * one; `Untyped` is a dictionary with neither `type` nor `anyOf`, such as the items of an array
   * node cut off at the depth limit.  The type list of a union is determined by its variants.
   */
  datatype Schema =
    | Untyped(optional: bool, truncated: bool)
    | Scalar(kind: ScalarKind, optional: bool, truncated: bool)
    | ObjectNode(properties: map<string, Schema>, required: set<string>, optional: bool, truncated: bool)
    | ArrayNode(items: Schema, optional: bool, truncated: bool)
    | AnyOf(variants: seq<Schema>, optional: bool, truncated: bool)

  const EMPTY := Untyped(false, false)

  function JsonType(value: Json): TypeName {
    match value
    case JNull => ScalarType(NullKind)
    case JBool(_) => ScalarType(BooleanKind)
    case JInteger(_) => ScalarType(IntegerKind)
    case JNumber(_) => ScalarType(NumberKind)
    case JString(_) => ScalarType(StringKind)
    case JArray(_) => ArrayType
    case JObject(_) => ObjectType
  }

  /** The name as it is written. */
  function Written(name: TypeName): string {
    match name
    case ArrayType => "array"
    case ObjectType => "object"
    case ScalarType(BooleanKind) => "boolean"
    case ScalarType(IntegerKind) => "integer"
    case ScalarType(NullKind) => "null"
    case ScalarType(NumberKind) => "number"
    case ScalarType(StringKind) => "string"
    case ScalarType(UnknownKind) => "unknown"
  }

  /** Each value has the type name of JSON Schema, numbers split into whole and other ones. */
  lemma TypeNames(value: Json)
    ensures Written(JsonType(value)) == "null" <==> value.JNull?
    ensures Written(JsonType(value)) == "boolean" <==> value.JBool?
    ensures Written(JsonType(value)) == "integer" <==> value.JInteger?
    ensures Written(JsonType(value)) == "number" <==> value.JNumber?
    ensures Written(JsonType(value)) == "string" <==> value.JString?
    ensures Written(JsonType(value)) == "array" <==> value.JArray?
    ensures Written(JsonType(value)) == "object" <==> value.JObject?
  {
    assert "null"[1] == 'u' && "number"[1] == 'u' && "null"[2] == 'l' && "number"[2] == 'm';
    assert "array"[0] == 'a' && "object"[0] == 'o' && "boolean"[0] == 'b' && "integer"[0] == 'i';
    assert "string"[0] == 's' && "unknown"[0] == 'u';
  }

  /** A node whose `type` entry is one name. */
  predicate Plain(schema: Schema) {
    schema.Scalar? || schema.ObjectNode? || schema.ArrayNode?
  }

  function TypeOf(schema: Schema): TypeName
    requires Plain(schema)
  {
    match schema
    case Scalar(kind, _, _) => ScalarType(kind)
    case ObjectNode(_, _, _, _) => ObjectType
    case ArrayNode(_, _, _) => ArrayType
  }

  predicate SameType(left: Schema, right: Schema) {
    Plain(left) && Plain(right) && TypeOf(left) == TypeOf(right)
  }

  function Variants(schema: Schema): seq<Schema> {
    if schema.AnyOf? then schema.variants else [schema]
  }

  // ----- Nesting height -----

  ghost function Max(a: nat, b: nat): nat {
    if a < b then b else a
  }

  ghost function Largest(numbers: set<nat>): (largest: nat)
    ensures forall n :: n in numbers ==> n <= largest
    ensures numbers != {} ==> largest in numbers
    ensures numbers == {} ==> largest == 0
  {
    if numbers == {} then
      0
    else
      var n :| n in numbers;
      var rest := Largest(numbers - {n});
      assert forall other :: other in numbers ==> other == n || other in numbers - {n};
      Max(n, rest)
  }

  /** How deeply objects and arrays nest; a union is as high as its highest variant. */
  ghost function Height(schema: Schema): (height: nat)
    ensures schema.ObjectNode? ==> forall key :: key in schema.properties ==> Height(schema.properties[key]) < height
    decreases schema
  {
    match schema
    case ObjectNode(properties, _, _, _) =>
      var heights := set key | key in properties :: Height(properties[key]);
      assert forall key :: key in properties ==> Height(properties[key]) in heights;
      1 + Largest(heights)
    case ArrayNode(items, _, _) => 1 + Height(items)
    case AnyOf(variants, _, _) => VariantsHeight(variants)
    case _ => 0
  }

  /** Sets the two flags of a node and leaves the rest of it alone. */
  function WithFlags(schema: Schema, optional: bool, truncated: bool): (flagged: Schema)
    ensures flagged.optional == optional && flagged.truncated == truncated
    ensures Height(flagged) == Height(schema)
    ensures Plain(schema) ==> SameType(schema, flagged)
  {
    match schema
    case Untyped(_, _) => Untyped(optional, truncated)
    case Scalar(kind, _, _) => Scalar(kind, optional, truncated)
    case ObjectNode(properties, required, _, _) => ObjectNode(properties, required, optional, truncated)
    case ArrayNode(items, _, _) => ArrayNode(items, optional, truncated)
    case AnyOf(variants, _, _) => AnyOf(variants, optional, truncated)
  }

  lemma ObjectHeight(schema: Schema, bound: nat)
    requires schema.ObjectNode? && bound > 0
    requires forall key :: key in schema.properties ==> Height(schema.properties[key]) < bound
    ensures Height(schema) <= bound
  {
    var heights := set key | key in schema.properties :: Height(schema.properties[key]);
    assert Height(schema) == 1 + Largest(heights);
  }

  ghost function VariantsHeight(variants: seq<Schema>): nat
    decreases variants
  {
    if variants == [] then 0
    else Max(VariantsHeight(variants[..|variants| - 1]), Height(variants[|variants| - 1]))
  }

  lemma {:induction false} VariantsHeightBound(variants: seq<Schema>, bound: nat)
    requires forall variant :: variant in variants ==> Height(variant) <= bound
    ensures VariantsHeight(variants) <= bound
  {
    if variants != [] {
      VariantsHeightBound(variants[..|variants| - 1], bound);
    }
  }

  lemma {:induction false} VariantHeight(variants: seq<Schema>)
    ensures forall variant :: variant in variants ==> Height(variant) <= VariantsHeight(variants)
  {
    if variants != [] {
      var n := |variants| - 1;
      VariantHeight(variants[..n]);
      assert forall variant :: variant in variants <==> variant in variants[..n] || variant == variants[n];
    }
  }

  // ----- Variants by type, and the sorted list of them -----

  /** The entries of the first `count` type names, in the order of the names. */
  function Pick(byType: map<TypeName, Schema>, count: nat): seq<Schema>
    requires count <= TYPE_COUNT
  {
    if count == 0 then []
    else Pick(byType, count - 1) + if NameAt(count - 1) in byType then [byType[NameAt(count - 1)]] else []
  }

  /** `[by_type[key] for key in sorted(by_type)]`. */
  function Ordered(byType: map<TypeName, Schema>): seq<Schema> {
    Pick(byType, TYPE_COUNT)
  }

  ghost predicate WellKeyed(byType: map<TypeName, Schema>) {
    forall name :: name in byType ==> Plain(byType[name]) && TypeOf(byType[name]) == name
  }

  ghost function ByType(variants: seq<Schema>): (byType: map<TypeName, Schema>)
    requires AllPlain(variants)
    ensures WellKeyed(byType)
  {
    if variants == [] then map[]
    else
      var last := variants[|variants| - 1];
      ByType(variants[..|variants| - 1])[TypeOf(last) := last]
  }

  lemma ByTypeEmpty()
    ensures ByType([]) == map[]
  {
  }

  lemma ByTypeAppend(variants: seq<Schema>, last: Schema)
    requires AllPlain(variants) && Plain(last)
    ensures AllPlain(variants + [last])
    ensures ByType(variants + [last]) == ByType(variants)[TypeOf(last) := last]
  {
    assert (variants + [last])[..|variants|] == variants;
  }

  lemma {:induction false} ByTypeMembers(variants: seq<Schema>)
    requires AllPlain(variants)
    ensures forall name :: name in ByType(variants) ==> ByType(variants)[name] in variants
  {
    if variants != [] {
      ByTypeMembers(variants[..|variants| - 1]);
    }
  }

  ghost predicate AllPlain(variants: seq<Schema>) {
    forall variant :: variant in variants ==> Plain(variant)
  }

  /** One variant per type, in the order of the type names. */
  ghost predicate SortedByType(variants: seq<Schema>)
    requires AllPlain(variants)
  {
    forall i, j :: 0 <= i < j < |variants| ==> Rank(TypeOf(variants[i])) < Rank(TypeOf(variants[j]))
  }

  lemma {:induction false} PickMembers(byType: map<TypeName, Schema>, count: nat)
    requires WellKeyed(byType) && count <= TYPE_COUNT
    ensures forall variant :: variant in Pick(byType, count) <==>
      Plain(variant) && TypeOf(variant) in byType && byType[TypeOf(variant)] == variant && Rank(TypeOf(variant)) < count
  {
    if count > 0 {
      PickMembers(byType, count - 1);
    }
  }

  lemma SortedAppend(variants: seq<Schema>, last: Schema)
    requires AllPlain(variants) && Plain(last) && SortedByType(variants)
    requires forall variant :: variant in variants ==> Rank(TypeOf(variant)) < Rank(TypeOf(last))
    ensures AllPlain(variants + [last]) && SortedByType(variants + [last])
  {
    forall i | 0 <= i < |variants| ensures Rank(TypeOf(variants[i])) < Rank(TypeOf(last)) {
      assert variants[i] in variants;
    }
  }

  lemma {:induction false} PickSorted(byType: map<TypeName, Schema>, count: nat)
    requires WellKeyed(byType) && count <= TYPE_COUNT
    ensures AllPlain(Pick(byType, count)) && SortedByType(Pick(byType, count))
  {
    if count > 0 {
      PickSorted(byType, count - 1);
      PickMembers(byType, count - 1);
      if NameAt(count - 1) in byType {
        SortedAppend(Pick(byType, count - 1), byType[NameAt(count - 1)]);
      }
    }
  }

  ghost function Restrict<V>(table: map<TypeName, V>, count: nat): map<TypeName, V> {
    map name | name in table && Rank(name) < count :: table[name]
  }

  lemma RestrictStep<V>(table: map<TypeName, V>, count: nat)
    requires count < TYPE_COUNT
    ensures Restrict(table, count + 1) ==
      if NameAt(count) in table then Restrict(table, count)[NameAt(count) := table[NameAt(count)]]
      else Restrict(table, count)
  {
    assert Rank(NameAt(count)) == count;
    assert forall name: TypeName :: Rank(name) == count ==> name == NameAt(count);
  }

  lemma RestrictNothing<V>(table: map<TypeName, V>)
    ensures Restrict(table, 0) == map[]
  {
  }

  lemma {:induction false} PickTable(byType: map<TypeName, Schema>, count: nat)
    requires WellKeyed(byType) && count <= TYPE_COUNT
    ensures AllPlain(Pick(byType, count))
    ensures ByType(Pick(byType, count)) == Restrict(byType, count)
  {
    hide ByType, Restrict, Rank, NameAt;
    PickMembers(byType, count);
    if count == 0 {
      ByTypeEmpty();
      RestrictNothing(byType);
    } else {
      PickTable(byType, count - 1);
      RestrictStep(byType, count - 1);
      if NameAt(count - 1) in byType {
        ByTypeAppend(Pick(byType, count - 1), byType[NameAt(count - 1)]);
      } else {
        assert Pick(byType, count) == Pick(byType, count - 1);
      }
    }
  }

  lemma NextName(rank: nat)
    requires rank + 1 < TYPE_COUNT
    ensures AtMost(Written(NameAt(rank)), Written(NameAt(rank + 1)))
  {
    if rank == 3 {
      assert AtMost("ll", "mber");
      assert "null"[1..] == "ull" && "number"[1..] == "umber" && "ull"[1..] == "ll" && "umber"[1..] == "mber";
    }
  }

  /** The ranks follow the order of the written names. */
  lemma {:induction false} NamesSorted(one: nat, other: nat)
    requires one <= other < TYPE_COUNT
    ensures AtMost(Written(NameAt(one)), Written(NameAt(other)))
    decreases other
  {
    if one == other {
      AtMostTotal(Written(NameAt(one)), Written(NameAt(one)));
    } else {
      NamesSorted(one, other - 1);
      NextName(other - 1);
      AtMostTransitive(Written(NameAt(one)), Written(NameAt(other - 1)), Written(NameAt(other)));
    }
  }

  /** The sorted list determines the table, so canonical variant lists are interchangeable with tables. */
  lemma OrderedProperties(byType: map<TypeName, Schema>)
    requires WellKeyed(byType)
    ensures AllPlain(Ordered(byType)) && SortedByType(Ordered(byType))
    ensures ByType(Ordered(byType)) == byType
    ensures forall variant :: variant in Ordered(byType) <==>
      Plain(variant) && TypeOf(variant) in byType && byType[TypeOf(variant)] == variant
  {
    PickMembers(byType, TYPE_COUNT);
    PickSorted(byType, TYPE_COUNT);
    PickTable(byType, TYPE_COUNT);
    assert Restrict(byType, TYPE_COUNT) == byType;
  }

  // ----- Canonical schemas -----

  ghost predicate Mixed(byType: map<TypeName, Schema>) {
    exists first, second :: first in byType && second in byType && first != second
  }

  ghost function NotOptional(properties: map<string, Schema>): set<string> {
    set key | key in properties && !properties[key].optional
  }

  /**
   * The schemas that belong at a position `room` levels above the depth limit: unions list plain
   * variants, one per type, sorted by type, at least two of them, and none is marked optional when
   * the union is not; `required` is exactly the properties not marked optional; and exactly the
   * nodes at the limit have nothing below them.
   */
  ghost predicate Canonical(schema: Schema, room: nat)
    decreases schema
  {
    match schema
    case Untyped(_, _) => false
    case Scalar(_, _, _) => true
    case ObjectNode(properties, required, _, truncated) =>
      && required == NotOptional(properties)
      && if room == 0 then truncated && properties == map[]
         else forall key :: key in properties ==> Canonical(properties[key], room - 1)
    case ArrayNode(items, _, truncated) =>
      if room == 0 then truncated && items == EMPTY else !truncated && Canonical(items, room - 1)
    case AnyOf(variants, optional, _) =>
      && AllPlain(variants)
      && Ordered(ByType(variants)) == variants
      && Mixed(ByType(variants))
      && forall variant :: variant in variants ==> Canonical(variant, room) && (variant.optional ==> optional)
  }

  /** The variants of a canonical schema, as a table from type name to variant. */
  ghost function TypeTable(schema: Schema): (table: map<TypeName, Schema>)
    requires AllPlain(Variants(schema))
    ensures WellKeyed(table)
  {
    ByType(Variants(schema))
  }

  lemma TypeTableProperties(schema: Schema, room: nat)
    requires Canonical(schema, room)
    ensures AllPlain(Variants(schema)) && SortedByType(Variants(schema))
    ensures forall name :: name in TypeTable(schema) ==>
      Canonical(TypeTable(schema)[name], room) && (TypeTable(schema)[name].optional ==> schema.optional)
    ensures TypeTable(schema) != map[]
    ensures Plain(schema) ==> TypeTable(schema) == map[TypeOf(schema) := schema]
    ensures forall variant :: variant in Variants(schema) ==>
      TypeOf(variant) in TypeTable(schema) && TypeTable(schema)[TypeOf(variant)] == variant
  {
    ByTypeMembers(Variants(schema));
    if schema.AnyOf? {
      OrderedProperties(ByType(schema.variants));
    } else {
      assert Variants(schema)[..0] == [];
      assert ByType(Variants(schema)) == map[TypeOf(schema) := schema];
      assert TypeOf(schema) in TypeTable(schema);
    }
  }

  /** The variants of a canonical union come in the order of their written type names, each name once. */
  lemma VariantsSorted(schema: Schema, room: nat, i: nat, j: nat)
    requires Canonical(schema, room) && schema.AnyOf? && i < j < |schema.variants|
    ensures Plain(schema.variants[i]) && Plain(schema.variants[j])
    ensures TypeOf(schema.variants[i]) != TypeOf(schema.variants[j])
    ensures AtMost(Written(TypeOf(schema.variants[i])), Written(TypeOf(schema.variants[j])))
  {
    hide Ordered, ByType, Written;
    TypeTableProperties(schema, room);
    assert schema.variants[i] in schema.variants && schema.variants[j] in schema.variants;
    NamesSorted(Rank(TypeOf(schema.variants[i])), Rank(TypeOf(schema.variants[j])));
  }

  lemma UnionCanonical(table: map<TypeName, Schema>, optional: bool, truncated: bool, room: nat)
    requires WellKeyed(table) && Mixed(table)
    requires forall name :: name in table ==> Canonical(table[name], room) && (table[name].optional ==> optional)
    ensures Canonical(AnyOf(Ordered(table), optional, truncated), room)
  {
    hide Ordered, ByType;
    OrderedProperties(table);
  }
}
