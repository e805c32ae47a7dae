/** Merging inferred schemas (`_merge_schema`, `_merge_schema_union`, `_preserve_schema_flags`). */
module SchemaMerge {
  import opened SchemaModel

  datatype Buckets = Buckets(byType: map<TypeName, Schema>, untyped: seq<Schema>)

  function PreserveFlags(result: Schema, left: Schema, right: Schema): Schema {
    WithFlags(result, result.optional || left.optional || right.optional,
              result.truncated || left.truncated || right.truncated)
  }

  ghost predicate FlagsJoined(merged: Schema, left: Schema, right: Schema) {
    && merged.optional == (left.optional || right.optional)
    && merged.truncated == (left.truncated || right.truncated)
  }

  /** `_merge_schema`: equal schemas are returned as they are. */
  function Merge(left: Schema, right: Schema): (merged: Schema)
    ensures FlagsJoined(merged, left, right)
    ensures SameType(left, right) ==> SameType(left, merged)
    ensures Height(merged) <= Max(Height(left), Height(right))
    decreases Max(Height(left), Height(right)), if SameType(left, right) then 0 else 3, 3
  {
    if left == right then left else MergeDistinct(left, right)
  }

  /** `_merge_schema` after its equality test. */
  function MergeDistinct(left: Schema, right: Schema): (merged: Schema)
    ensures FlagsJoined(merged, left, right)
    ensures SameType(left, right) ==> SameType(left, merged)
    ensures Height(merged) <= Max(Height(left), Height(right))
    decreases Max(Height(left), Height(right)), if SameType(left, right) then 0 else 3, 2
  {
    if left.ObjectNode? && right.ObjectNode? then
      var merged := ObjectNode(MergeProperties(left, right), left.required * right.required, false, false);
      ObjectHeight(merged, Max(Height(left), Height(right)));
      PreserveFlags(merged, left, right)
    else if left.ArrayNode? && right.ArrayNode? then
      PreserveFlags(ArrayNode(Merge(left.items, right.items), false, false), left, right)
    else if left.Scalar? && right.Scalar? && left.kind == right.kind then
      PreserveFlags(Scalar(left.kind, false, false), left, right)
    else
      MergeUnion(left, right)
  }

  function MergeProperties(left: Schema, right: Schema): (merged: map<string, Schema>)
    requires left.ObjectNode? && right.ObjectNode?
    ensures merged.Keys == left.properties.Keys + right.properties.Keys
    ensures forall key :: key in merged ==> Height(merged[key]) < Max(Height(left), Height(right))
    decreases Max(Height(left), Height(right)), 0, 1
  {
    map key | key in left.properties.Keys + right.properties.Keys :: MergeProperty(left, right, key)
  }

  /** A property both sides know is merged; one that only one side knows becomes optional. */
  function MergeProperty(left: Schema, right: Schema, key: string): (merged: Schema)
    requires left.ObjectNode? && right.ObjectNode?
    requires key in left.properties || key in right.properties
    ensures Height(merged) < Max(Height(left), Height(right))
    decreases Max(Height(left), Height(right)), 0, 0
  {
    if key in left.properties && key in right.properties then
      Merge(left.properties[key], right.properties[key])
    else
      var source := if key in left.properties then left.properties[key] else right.properties[key];
      WithFlags(source, true, source.truncated)
  }

  /** `_merge_schema_union`: regroups the variants of both sides by type. */
  function MergeUnion(left: Schema, right: Schema): (merged: Schema)
    ensures merged.AnyOf?
    ensures FlagsJoined(merged, left, right)
    ensures Height(merged) <= Max(Height(left), Height(right))
    decreases Max(Height(left), Height(right)), 2, 0
  {
    var variants := Variants(left) + Variants(right);
    VariantHeight(Variants(left));
    VariantHeight(Variants(right));
    VariantsHeightBound(variants, Max(Height(left), Height(right)));
    var buckets := Collect(variants);
    OrderedProperties(buckets.byType);
    VariantsHeightBound(Ordered(buckets.byType) + buckets.untyped, Max(Height(left), Height(right)));
    PreserveFlags(AnyOf(Ordered(buckets.byType) + buckets.untyped, false, false), left, right)
  }

  function Collect(variants: seq<Schema>): (buckets: Buckets)
    ensures WellKeyed(buckets.byType)
    ensures BucketsHeight(buckets, VariantsHeight(variants))
    decreases VariantsHeight(variants), 1, |variants|
  {
    if variants == [] then
      Buckets(map[], [])
    else
      var n := |variants| - 1;
      assert VariantsHeight(variants) == Max(VariantsHeight(variants[..n]), Height(variants[n]));
      AddVariant(Collect(variants[..n]), variants[n], VariantsHeight(variants))
  }

  ghost predicate BucketsHeight(buckets: Buckets, bound: nat) {
    && (forall name :: name in buckets.byType ==> Height(buckets.byType[name]) <= bound)
    && forall schema :: schema in buckets.untyped ==> Height(schema) <= bound
  }

  function AddVariant(before: Buckets, variant: Schema, ghost bound: nat): (after: Buckets)
    requires WellKeyed(before.byType)
    requires BucketsHeight(before, bound) && Height(variant) <= bound
    ensures WellKeyed(after.byType)
    ensures BucketsHeight(after, bound)
    decreases bound, 1, 0
  {
    if Plain(variant) then
      var name := TypeOf(variant);
      var entry := if name in before.byType then Merge(before.byType[name], variant) else variant;
      Buckets(before.byType[name := entry], before.untyped)
    else
      Buckets(before.byType, before.untyped + [variant])
  }
}
