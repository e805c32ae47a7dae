/**
 * When the order of the samples does not matter at all: at no position can an absence and a plain
 * schema meet before a second type is known.
 */
module SchemaSettled {
  import opened Sequences
  import opened SchemaModel
  import opened SchemaMerge
  import opened SchemaLaws
  import opened SchemaShape
  import opened SchemaOrder

  /** What one object says about one of its positions: the key is missing, or it has this schema. */
  datatype Seen = Missing | Present(schema: Schema)

  /** A position below a schema: a property of its object variant, or the items of its array variant. */
  datatype Place = Property(key: string) | Elements

  ghost function Marked(schema: Schema): Schema {
    WithFlags(schema, true, schema.truncated)
  }

  /** What `_merge_schema` makes of one position of two objects. */
  ghost function Step(first: Seen, second: Seen): Seen {
    if first.Missing? && second.Missing? then Missing
    else if first.Missing? then Present(Marked(second.schema))
    else if second.Missing? then Present(Marked(first.schema))
    else Present(Merge(first.schema, second.schema))
  }

  ghost function Fold(seen: seq<Seen>): Seen
    requires seen != []
  {
    var last := |seen| - 1;
    if last == 0 then seen[0] else Step(Fold(seen[..last]), seen[last])
  }

  ghost predicate Fits(one: Seen, room: nat) {
    one.Present? ==> Canonical(one.schema, room)
  }

  ghost predicate AllFit(seen: seq<Seen>, room: nat) {
    forall one :: one in seen ==> Fits(one, room)
  }

  /** The variants by type, of what was seen. */
  ghost function Table(one: Seen): map<TypeName, Schema> {
    if one.Present? && AllPlain(Variants(one.schema)) then TypeTable(one.schema) else map[]
  }

  // ----- Positions below -----

  ghost function Holder(place: Place): TypeName {
    if place.Property? then ObjectType else ArrayType
  }

  ghost function At(variant: Schema, place: Place): Seen {
    if place.Elements? && variant.ArrayNode? then Present(variant.items)
    else if place.Property? && variant.ObjectNode? && place.key in variant.properties
    then Present(variant.properties[place.key])
    else Missing
  }

  /** What is seen at `place`, if the schema has a variant that reaches it. */
  ghost function Below(one: Seen, place: Place): seq<Seen> {
    if Holder(place) in Table(one) then [At(Table(one)[Holder(place)], place)] else []
  }

  ghost function AllBelow(seen: seq<Seen>, place: Place): seq<Seen> {
    if seen == [] then []
    else AllBelow(seen[..|seen| - 1], place) + Below(seen[|seen| - 1], place)
  }

  // ----- What occurs at one position -----

  ghost predicate Occurs(seen: seq<Seen>, name: TypeName) {
    exists one :: one in seen && name in Table(one)
  }

  ghost predicate Several(seen: seq<Seen>) {
    exists first, second :: Occurs(seen, first) && Occurs(seen, second) && first != second
  }

  ghost predicate IsPlain(one: Seen, name: TypeName) {
    one.Present? && Plain(one.schema) && TypeOf(one.schema) == name
  }

  ghost predicate PlainOccurs(seen: seq<Seen>, name: TypeName) {
    exists one :: one in seen && IsPlain(one, name)
  }

  ghost predicate HasMark(one: Seen, name: TypeName) {
    name in Table(one) && Table(one)[name].optional
  }

  /** Some schema already marks its variant of this type. */
  ghost predicate MarkOccurs(seen: seq<Seen>, name: TypeName) {
    exists one :: one in seen && HasMark(one, name)
  }

  /**
   * The position is missing somewhere, several types occur, and one of them occurs as a plain schema and is
   * marked by no schema: whether its variant gets a mark depends on whether the absence is seen in time.
   */
  ghost predicate Undecided(seen: seq<Seen>) {
    Several(seen) && Missing in seen && exists name :: PlainOccurs(seen, name) && !MarkOccurs(seen, name)
  }

  /** No position is undecided, from this one down. */
  ghost predicate Settled(seen: seq<Seen>, room: nat)
    decreases room
  {
    && !Undecided(seen)
    && (room > 0 ==> forall place :: AllBelow(seen, place) != [] ==> Settled(AllBelow(seen, place), room - 1))
  }

  // ----- One step, seen from a position below -----

  lemma FoldAppend(seen: seq<Seen>, next: Seen)
    requires seen != []
    ensures Fold(seen + [next]) == Step(Fold(seen), next)
  {
    assert (seen + [next])[..|seen|] == seen;
  }

  lemma BelowAppend(seen: seq<Seen>, next: Seen, place: Place)
    ensures AllBelow(seen + [next], place) == AllBelow(seen, place) + Below(next, place)
  {
    assert (seen + [next])[..|seen|] == seen;
  }

  lemma TableFits(one: Seen, room: nat)
    requires Fits(one, room)
    ensures WellKeyed(Table(one))
    ensures forall name :: name in Table(one) ==> Canonical(Table(one)[name], room)
    ensures one.Present? <==> Table(one) != map[]
    ensures one.Present? ==> AllPlain(Variants(one.schema)) && Table(one) == TypeTable(one.schema)
    ensures one.Present? && Plain(one.schema) ==> Table(one) == map[TypeOf(one.schema) := one.schema]
    ensures one.Present? && !Plain(one.schema) ==> one.schema.AnyOf? && Mixed(Table(one))
  {
    hide ByType, Ordered, Height;
    if one.Present? {
      TypeTableProperties(one.schema, room);
    }
  }

  /** Merging joins the tables, whether or not the two sides are of the same type. */
  lemma TableMerge(left: Schema, right: Schema, room: nat)
    requires Canonical(left, room) && Canonical(right, room)
    ensures Canonical(Merge(left, right), room)
    ensures Table(Present(Merge(left, right))) == JoinTypes(Table(Present(left)), Table(Present(right)))
  {
    hide ByType, Ordered, Height, Merge, MergeUnion, Canonical;
    MergeCanonical(left, right, room);
    TableFits(Present(left), room);
    TableFits(Present(right), room);
    TableFits(Present(Merge(left, right)), room);
    if SameType(left, right) {
    } else {
      MergeIsDistinct(left, right, room);
      assert MergeDistinct(left, right) == MergeUnion(left, right);
      UnionTable(left, right, room);
    }
  }

  lemma TableMarked(schema: Schema, room: nat)
    requires Canonical(schema, room)
    ensures Canonical(Marked(schema), room)
    ensures Table(Present(Marked(schema))) ==
      if Plain(schema) then map[TypeOf(schema) := Marked(schema)] else Table(Present(schema))
  {
    hide ByType, Ordered, Height;
    WithFlagsCanonical(schema, true, schema.truncated, room);
    TableFits(Present(Marked(schema)), room);
  }

  ghost function StepAll(first: seq<Seen>, second: seq<Seen>): seq<Seen>
    requires |first| <= 1 && |second| <= 1
  {
    if first != [] && second != [] then [Step(first[0], second[0])] else first + second
  }

  /** Merging two variants of one type merges what is below them, place by place. */
  lemma StepAt(left: Schema, right: Schema, place: Place, room: nat)
    requires room > 0 && Canonical(left, room) && Canonical(right, room)
    requires Plain(left) && Plain(right) && TypeOf(left) == TypeOf(right) == Holder(place)
    ensures At(Merge(left, right), place) == Step(At(left, place), At(right, place))
  {
    hide Height, Canonical, MergeUnion;
    MergeIsDistinct(left, right, room);
    if place.Elements? {
      assert MergeDistinct(left, right).items == Merge(left.items, right.items);
    } else {
      assert MergeDistinct(left, right).properties == MergeProperties(left, right);
      if place.key in left.properties || place.key in right.properties {
        assert MergeProperties(left, right)[place.key] == MergeProperty(left, right, place.key);
      }
    }
  }

  lemma StepFits(first: Seen, second: Seen, room: nat)
    requires Fits(first, room) && Fits(second, room)
    ensures Fits(Step(first, second), room)
  {
    hide Height, Canonical, Merge, Marked;
    if first.Present? && second.Present? {
      TableMerge(first.schema, second.schema, room);
    } else if first.Present? {
      TableMarked(first.schema, room);
    } else if second.Present? {
      TableMarked(second.schema, room);
    }
  }

  lemma MarkedBelow(schema: Schema, place: Place, room: nat)
    requires Canonical(schema, room)
    ensures Below(Present(Marked(schema)), place) == Below(Present(schema), place)
  {
    hide ByType, Ordered, Height;
    TableMarked(schema, room);
    TableFits(Present(schema), room);
    hide Canonical, Table;
  }

  lemma StepBelow(first: Seen, second: Seen, place: Place, room: nat)
    requires room > 0 && Fits(first, room) && Fits(second, room)
    ensures Below(Step(first, second), place) == StepAll(Below(first, place), Below(second, place))
  {
    hide ByType, Ordered, Height, Merge, Canonical, Table, Marked;
    TableFits(first, room);
    TableFits(second, room);
    if first.Present? && second.Present? {
      TableMerge(first.schema, second.schema, room);
      var name := Holder(place);
      if name in Table(first) && name in Table(second) {
        StepAt(Table(first)[name], Table(second)[name], place, room);
      }
    } else if first.Present? {
      MarkedBelow(first.schema, place, room);
    } else if second.Present? {
      MarkedBelow(second.schema, place, room);
    }
  }

  lemma {:induction false} FoldFits(seen: seq<Seen>, room: nat)
    requires seen != [] && AllFit(seen, room)
    ensures Fits(Fold(seen), room)
  {
    hide Step, Fits;
    var last := |seen| - 1;
    assert seen[last] in seen;
    if last > 0 {
      FoldFits(seen[..last], room);
      StepFits(Fold(seen[..last]), seen[last], room);
    }
  }

  /** The fold at a position below is the fold of what was seen there. */
  lemma {:induction false} FoldBelow(seen: seq<Seen>, place: Place, room: nat)
    requires room > 0 && seen != [] && AllFit(seen, room)
    ensures Below(Fold(seen), place) == if AllBelow(seen, place) == [] then [] else [Fold(AllBelow(seen, place))]
  {
    hide Below, Step, Fits;
    var before, last := seen[..|seen| - 1], seen[|seen| - 1];
    SplitLast(seen);
    BelowAppend(before, last, place);
    if before == [] {
      assert AllBelow(seen, place) == Below(last, place);
      OneBelow(last, place);
    } else {
      FoldBelow(before, place, room);
      FoldAppend(before, last);
      FoldFits(before, room);
      StepBelow(Fold(before), last, place, room);
      OneBelow(last, place);
      var earlier := AllBelow(before, place);
      if earlier != [] && Below(last, place) != [] {
        assert Below(last, place) == [Below(last, place)[0]];
        FoldAppend(earlier, Below(last, place)[0]);
      } else {
        assert earlier + [] == earlier && [] + Below(last, place) == Below(last, place);
      }
    }
  }

  lemma OneBelow(one: Seen, place: Place)
    ensures |Below(one, place)| <= 1
    ensures Below(one, place) != [] ==> Fold(Below(one, place)) == Below(one, place)[0]
  {
  }

  // ----- What one position of the fold says -----

  ghost predicate Cut(one: Seen, name: TypeName) {
    name in Table(one) && Table(one)[name].truncated
  }

  ghost predicate CutOccurs(seen: seq<Seen>, name: TypeName) {
    exists one :: one in seen && Cut(one, name)
  }

  ghost predicate IsOptional(one: Seen) {
    one.Missing? || one.schema.optional
  }

  ghost predicate IsTruncated(one: Seen) {
    one.Present? && one.schema.truncated
  }

  /** The flags of the fold are those of any schema seen; an absence makes it optional. */
  ghost predicate FlagsTally(folded: Seen, seen: seq<Seen>) {
    && (folded.Missing? <==> forall one :: one in seen ==> one.Missing?)
    && (IsOptional(folded) <==> exists one :: one in seen && IsOptional(one))
    && (IsTruncated(folded) <==> exists one :: one in seen && IsTruncated(one))
  }

  /**
   * A variant of the fold is there exactly if its type was seen, and cut off if any was.  It is marked if any
   * was, and otherwise only if its type was seen as a plain schema and the position was missing.
   */
  ghost predicate VariantTally(folded: Seen, seen: seq<Seen>, name: TypeName) {
    && (name in Table(folded) <==> Occurs(seen, name))
    && (Cut(folded, name) <==> CutOccurs(seen, name))
    && (MarkOccurs(seen, name) ==> HasMark(folded, name))
    && (HasMark(folded, name) ==> MarkOccurs(seen, name) || (PlainOccurs(seen, name) && Missing in seen))
    && (IsPlain(folded, name) ==> PlainOccurs(seen, name))
  }

  lemma OneMoreSeen(seen: seq<Seen>, next: Seen, name: TypeName)
    ensures Occurs(seen + [next], name) <==> Occurs(seen, name) || name in Table(next)
    ensures CutOccurs(seen + [next], name) <==> CutOccurs(seen, name) || Cut(next, name)
    ensures MarkOccurs(seen + [next], name) <==> MarkOccurs(seen, name) || HasMark(next, name)
    ensures PlainOccurs(seen + [next], name) <==> PlainOccurs(seen, name) || IsPlain(next, name)
    ensures Missing in seen + [next] <==> Missing in seen || next.Missing?
  {
    hide Table, IsPlain, Cut, HasMark;
    var more := seen + [next];
    assert forall one :: one in more <==> one in seen || one == next;
  }

  lemma OneSeen(one: Seen, name: TypeName)
    ensures VariantTally(one, [one], name)
  {
    hide Table, IsPlain, Cut;
  }

  /** The variant of a step: its flags are joined, and marking a plain schema marks its only variant. */
  lemma StepVariant(first: Seen, second: Seen, room: nat, name: TypeName)
    requires Fits(first, room) && Fits(second, room)
    ensures var stepped := Step(first, second);
      && (name in Table(stepped) <==> name in Table(first) || name in Table(second))
      && (Cut(stepped, name) <==> Cut(first, name) || Cut(second, name))
      && (HasMark(stepped, name) <==>
        || HasMark(first, name) || HasMark(second, name)
        || (first.Missing? && IsPlain(second, name)) || (second.Missing? && IsPlain(first, name)))
      && (IsPlain(stepped, name) ==> IsPlain(first, name) || IsPlain(second, name))
  {
    hide ByType, Ordered, Height, Canonical, Table;
    TableFits(first, room);
    TableFits(second, room);
    if first.Present? && second.Present? {
      StepVariantMerge(first.schema, second.schema, room, name);
    } else if first.Present? {
      TableMarked(first.schema, room);
    } else if second.Present? {
      TableMarked(second.schema, room);
    }
  }

  lemma StepVariantMerge(left: Schema, right: Schema, room: nat, name: TypeName)
    requires Canonical(left, room) && Canonical(right, room)
    ensures var first, second, merged := Present(left), Present(right), Present(Merge(left, right));
      && (name in Table(merged) <==> name in Table(first) || name in Table(second))
      && (Cut(merged, name) <==> Cut(first, name) || Cut(second, name))
      && (HasMark(merged, name) <==> HasMark(first, name) || HasMark(second, name))
      && (IsPlain(merged, name) ==> IsPlain(first, name))
  {
    hide ByType, Ordered, Height, Canonical, Table, MergeDistinct, MergeUnion;
    TableMerge(left, right, room);
    if Plain(Merge(left, right)) {
      PlainMerge(left, right, room);
    }
  }

  lemma PlainMerge(left: Schema, right: Schema, room: nat)
    requires Canonical(left, room) && Canonical(right, room) && Plain(Merge(left, right))
    ensures SameType(left, right)
  {
    hide ByType, Ordered, Height, MergeUnion;
    MergeIsDistinct(left, right, room);
  }

  lemma {:induction false} FoldTallies(seen: seq<Seen>, room: nat, name: TypeName)
    requires seen != [] && AllFit(seen, room)
    ensures VariantTally(Fold(seen), seen, name)
  {
    hide Fits, Occurs, CutOccurs, MarkOccurs, PlainOccurs, Table, Cut, HasMark, IsPlain, Step;
    var before, last := seen[..|seen| - 1], seen[|seen| - 1];
    SplitLast(seen);
    assert last in seen;
    if before == [] {
      assert seen == [last];
      OneSeen(last, name);
    } else {
      FoldTallies(before, room, name);
      FoldAppend(before, last);
      FoldFits(before, room);
      StepVariant(Fold(before), last, room, name);
      OneMoreSeen(before, last, name);
      FoldFlags(before);
    }
  }

  lemma StepFlags(first: Seen, second: Seen)
    ensures Step(first, second).Missing? <==> first.Missing? && second.Missing?
    ensures IsOptional(Step(first, second)) <==> IsOptional(first) || IsOptional(second)
    ensures IsTruncated(Step(first, second)) <==> IsTruncated(first) || IsTruncated(second)
  {
    hide MergeDistinct, Height;
    if first.Present? && second.Present? {
      assert FlagsJoined(Merge(first.schema, second.schema), first.schema, second.schema);
    }
  }

  lemma OneMoreFlag(folded: Seen, seen: seq<Seen>, next: Seen)
    requires FlagsTally(folded, seen)
    ensures FlagsTally(Step(folded, next), seen + [next])
  {
    StepFlags(folded, next);
    hide Step, IsOptional, IsTruncated;
    var more := seen + [next];
    assert next in more;
    forall one | one in seen ensures one in more {
    }
    forall one | one in more ensures one in seen || one == next {
    }
    if folded.Present? {
      var one :| one in seen && one.Present?;
      assert one in more;
    }
  }

  lemma {:induction false} FoldFlags(seen: seq<Seen>)
    requires seen != []
    ensures FlagsTally(Fold(seen), seen)
    ensures Fold(seen).Missing? ==> Missing in seen
  {
    hide Step;
    var before, last := seen[..|seen| - 1], seen[|seen| - 1];
    SplitLast(seen);
    assert last in seen;
    if before == [] {
      assert seen == [last];
    } else {
      FoldFlags(before);
      FoldAppend(before, last);
      OneMoreFlag(Fold(before), before, last);
    }
  }

  // ----- Reorderings -----

  ghost predicate Reordered<T>(one: seq<T>, other: seq<T>) {
    multiset(one) == multiset(other)
  }

  lemma SameMembers<T>(one: seq<T>, other: seq<T>)
    requires Reordered(one, other)
    ensures |one| == |other| && (one == [] <==> other == [])
    ensures forall item :: item in one <==> item in other
  {
    assert |one| == |multiset(one)| == |multiset(other)| == |other|;
    forall item ensures item in one <==> item in other {
      assert item in one <==> item in multiset(one);
      assert item in other <==> item in multiset(other);
    }
  }

  lemma {:induction false} BelowWithout(seen: seq<Seen>, i: nat, place: Place)
    requires i < |seen|
    ensures multiset(AllBelow(seen, place)) ==
      multiset(AllBelow(Without(seen, i), place)) + multiset(Below(seen[i], place))
  {
    hide AllBelow, Below, Without;
    var before, last := seen[..|seen| - 1], seen[|seen| - 1];
    SplitLast(seen);
    BelowAppend(before, last, place);
    if i == |before| {
      WithoutLast(seen);
    } else {
      assert before[i] == seen[i];
      BelowWithout(before, i, place);
      WithoutBeforeLast(seen, i);
      BelowAppend(Without(before, i), last, place);
    }
  }

  /** Reordering what is seen at a position reorders what is seen below it. */
  lemma {:induction false} BelowReordered(one: seq<Seen>, other: seq<Seen>, place: Place)
    requires Reordered(one, other)
    ensures Reordered(AllBelow(one, place), AllBelow(other, place))
    decreases |one|
  {
    hide AllBelow, Below;
    SameMembers(one, other);
    if one == [] {
      assert one == other;
    } else {
      var last := |one| - 1;
      assert one[last] in other;
      var i :| 0 <= i < |other| && other[i] == one[last];
      RemoveOne(one, last);
      RemoveOne(other, i);
      BelowReordered(Without(one, last), Without(other, i), place);
      BelowWithout(one, last, place);
      BelowWithout(other, i, place);
    }
  }

  lemma OccursReordered(one: seq<Seen>, other: seq<Seen>, name: TypeName)
    requires Reordered(one, other)
    ensures Occurs(one, name) <==> Occurs(other, name)
    ensures CutOccurs(one, name) <==> CutOccurs(other, name)
    ensures MarkOccurs(one, name) <==> MarkOccurs(other, name)
    ensures PlainOccurs(one, name) <==> PlainOccurs(other, name)
    ensures Missing in one <==> Missing in other
  {
    hide Table, IsPlain, Cut, HasMark;
    SameMembers(one, other);
  }

  lemma {:induction false} BelowFits(seen: seq<Seen>, place: Place, room: nat)
    requires room > 0 && AllFit(seen, room)
    ensures AllFit(AllBelow(seen, place), room - 1)
  {
    if seen != [] {
      var before, last := seen[..|seen| - 1], seen[|seen| - 1];
      BelowFits(before, place, room);
      assert last in seen;
      OneBelowFits(last, place, room);
    }
  }

  lemma OneBelowFits(one: Seen, place: Place, room: nat)
    requires room > 0 && Fits(one, room)
    ensures AllFit(Below(one, place), room - 1)
  {
    hide ByType, Ordered, Height, Table;
    TableFits(one, room);
  }

  /** A variant is what its flags and the positions below it are. */
  lemma SameVariant(left: Schema, right: Schema, room: nat)
    requires Canonical(left, room) && Canonical(right, room)
    requires Plain(left) && Plain(right) && TypeOf(left) == TypeOf(right)
    requires left.optional == right.optional && left.truncated == right.truncated
    requires room > 0 ==> forall place :: Holder(place) == TypeOf(left) ==> At(left, place) == At(right, place)
    ensures left == right
  {
    if room > 0 {
      if left.ObjectNode? {
        forall key ensures key in left.properties <==> key in right.properties
          ensures key in left.properties ==> left.properties[key] == right.properties[key]
        {
          assert At(left, Property(key)) == At(right, Property(key));
        }
        assert left.properties == right.properties;
      } else if left.ArrayNode? {
        assert At(left, Elements) == At(right, Elements);
      }
    }
  }

  /** A canonical schema is what its flags and its variants are. */
  lemma SameSchema(left: Schema, right: Schema, room: nat)
    requires Canonical(left, room) && Canonical(right, room)
    requires left.optional == right.optional && left.truncated == right.truncated
    requires Table(Present(left)) == Table(Present(right))
    ensures left == right
  {
    hide ByType, Ordered, Height;
    TableFits(Present(left), room);
    TableFits(Present(right), room);
    if Plain(left) {
      assert TypeOf(left) in Table(Present(right));
    }
  }

  lemma SeveralReordered(one: seq<Seen>, other: seq<Seen>)
    requires Reordered(one, other)
    ensures Several(one) <==> Several(other)
  {
    hide Occurs;
    forall name ensures Occurs(one, name) <==> Occurs(other, name) {
      OccursReordered(one, other, name);
    }
  }

  /** Where only one type occurs the fold is plain, and its mark is its flag. */
  lemma NotSeveral(seen: seq<Seen>, room: nat, name: TypeName)
    requires seen != [] && AllFit(seen, room) && !Several(seen)
    ensures HasMark(Fold(seen), name) <==> name in Table(Fold(seen)) && IsOptional(Fold(seen))
  {
    hide Fold, Fits, Occurs, CutOccurs, MarkOccurs, PlainOccurs, ByType, Ordered, Height, Canonical;
    FoldFits(seen, room);
    TableFits(Fold(seen), room);
    forall other ensures other in Table(Fold(seen)) ==> Occurs(seen, other) {
      FoldTallies(seen, room, other);
    }
    if name in Table(Fold(seen)) {
      assert Plain(Fold(seen).schema);
    }
  }

  /** At a position that is not undecided the marks do not depend on the order. */
  lemma SameMarks(one: seq<Seen>, other: seq<Seen>, room: nat, name: TypeName)
    requires one != [] && other != [] && AllFit(one, room) && AllFit(other, room)
    requires Reordered(one, other) && !Undecided(one)
    ensures name in Table(Fold(one)) <==> name in Table(Fold(other))
    ensures Cut(Fold(one), name) <==> Cut(Fold(other), name)
    ensures HasMark(Fold(one), name) <==> HasMark(Fold(other), name)
  {
    hide Table, IsPlain, Cut, HasMark, Fold, Fits, Occurs, CutOccurs, MarkOccurs, PlainOccurs;
    FoldTallies(one, room, name);
    FoldTallies(other, room, name);
    OccursReordered(one, other, name);
    if !Several(one) {
      SeveralReordered(one, other);
      NotSeveral(one, room, name);
      NotSeveral(other, room, name);
      FoldFlags(one);
      FoldFlags(other);
      SameMembers(one, other);
    }
  }

  /** Where every position is settled, every order folds to the same schema. */
  lemma {:induction false} SettledFolds(one: seq<Seen>, other: seq<Seen>, room: nat)
    requires one != [] && AllFit(one, room) && Reordered(one, other) && Settled(one, room)
    ensures other != [] && Fold(one) == Fold(other)
    decreases room, 2
  {
    hide Fold, Fits, Undecided, Canonical, Table, Settled;
    SameMembers(one, other);
    FoldFits(one, room);
    FoldFits(other, room);
    FoldFlags(one);
    FoldFlags(other);
    var first, second := Fold(one), Fold(other);
    if first.Present? {
      forall name ensures name in Table(first) <==> name in Table(second)
        ensures name in Table(first) ==> Table(first)[name] == Table(second)[name]
      {
        SettledVariant(one, other, room, name);
      }
      assert Table(first) == Table(second);
      FitsMeans(first, room);
      FitsMeans(second, room);
      SameSchema(first.schema, second.schema, room);
    }
  }

  lemma FitsMeans(one: Seen, room: nat)
    requires Fits(one, room)
    ensures one.Present? ==> Canonical(one.schema, room)
  {
  }

  lemma {:induction false} SettledVariant(one: seq<Seen>, other: seq<Seen>, room: nat, name: TypeName)
    requires one != [] && other != []
    requires AllFit(one, room) && AllFit(other, room) && Reordered(one, other) && Settled(one, room)
    ensures name in Table(Fold(one)) <==> name in Table(Fold(other))
    ensures name in Table(Fold(one)) ==> Table(Fold(one))[name] == Table(Fold(other))[name]
    decreases room, 1
  {
    hide Fold, Fits, Undecided, Canonical, Table, At;
    FoldFits(one, room);
    FoldFits(other, room);
    SameMarks(one, other, room, name);
    var first, second := Fold(one), Fold(other);
    TableFits(first, room);
    TableFits(second, room);
    if name in Table(first) {
      if room > 0 {
        forall place | Holder(place) == name ensures At(Table(first)[name], place) == At(Table(second)[name], place) {
          SettledBelow(one, other, place, room);
        }
      }
      hide Settled, Below;
      SameVariant(Table(first)[name], Table(second)[name], room);
    }
  }

  lemma {:induction false} SettledBelow(one: seq<Seen>, other: seq<Seen>, place: Place, room: nat)
    requires room > 0 && one != [] && other != []
    requires AllFit(one, room) && AllFit(other, room) && Reordered(one, other) && Settled(one, room)
    ensures Below(Fold(one), place) == Below(Fold(other), place)
    decreases room, 0
  {
    hide Fold, Fits, Undecided, Below;
    FoldBelow(one, place, room);
    FoldBelow(other, place, room);
    BelowReordered(one, other, place);
    if AllBelow(one, place) != [] {
      BelowFits(one, place, room);
      SettledFolds(AllBelow(one, place), AllBelow(other, place), room - 1);
    } else {
      SameMembers(AllBelow(one, place), AllBelow(other, place));
    }
  }

  // ----- An undecided position shows in two orders -----

  ghost function Only(seen: seq<Seen>, missing: bool): seq<Seen> {
    if seen == [] then []
    else
      var last := seen[|seen| - 1];
      Only(seen[..|seen| - 1], missing) + if last.Missing? == missing then [last] else []
  }

  lemma {:induction false} OnlyMembers(seen: seq<Seen>, missing: bool)
    ensures forall one :: one in Only(seen, missing) <==> one in seen && one.Missing? == missing
  {
    if seen != [] {
      OnlyMembers(seen[..|seen| - 1], missing);
      SplitLast(seen);
    }
  }

  lemma {:induction false} OnlyBoth(seen: seq<Seen>)
    ensures multiset(Only(seen, false)) + multiset(Only(seen, true)) == multiset(seen)
  {
    if seen != [] {
      OnlyBoth(seen[..|seen| - 1]);
      SplitLast(seen);
    }
  }

  /** Absences that come after a union mark no variant. */
  lemma {:induction false} AbsencesLast(seen: seq<Seen>, absences: seq<Seen>, room: nat)
    requires seen != [] && AllFit(seen, room) && Fold(seen).Present? && !Plain(Fold(seen).schema)
    requires forall one :: one in absences ==> one == Missing
    ensures Fold(seen + absences).Present? && !Plain(Fold(seen + absences).schema)
    ensures Fits(Fold(seen + absences), room) && Table(Fold(seen + absences)) == Table(Fold(seen))
  {
    hide Fold, Table, Canonical;
    if absences == [] {
      assert seen + absences == seen;
      FoldFits(seen, room);
    } else {
      var before, last := absences[..|absences| - 1], absences[|absences| - 1];
      SplitLast(absences);
      assert last in absences;
      forall one | one in before ensures one == Missing {
        assert one in absences;
      }
      AbsencesLast(seen, before, room);
      AppendAssociative(seen, before, [last]);
      FoldAppend(seen + before, last);
      FitsMeans(Fold(seen + before), room);
      TableMarked(Fold(seen + before).schema, room);
      StepFits(Fold(seen + before), last, room);
    }
  }

  /** A mark stays. */
  lemma {:induction false} MarkStays(seen: seq<Seen>, rest: seq<Seen>, room: nat, name: TypeName)
    requires seen != [] && AllFit(seen, room) && AllFit(rest, room) && HasMark(Fold(seen), name)
    ensures HasMark(Fold(seen + rest), name)
  {
    hide Fold, Fits, HasMark, Step;
    if rest == [] {
      assert seen + rest == seen;
    } else {
      var before, last := rest[..|rest| - 1], rest[|rest| - 1];
      SplitLast(rest);
      assert last in rest;
      MarkStays(seen, before, room, name);
      AppendAssociative(seen, before, [last]);
      FoldAppend(seen + before, last);
      FoldFits(seen + before, room);
      StepVariant(Fold(seen + before), last, room, name);
    }
  }

  /** With the absences last no new mark appears. */
  lemma AbsenceLate(seen: seq<Seen>, room: nat, name: TypeName) returns (late: seq<Seen>)
    requires AllFit(seen, room) && Several(seen) && !MarkOccurs(seen, name)
    ensures Reordered(seen, late) && late != [] && !HasMark(Fold(late), name)
  {
    hide Fold, Table, Fits, Occurs, MarkOccurs, PlainOccurs, CutOccurs, Cut, HasMark;
    var present, absent := Only(seen, false), Only(seen, true);
    OnlyMembers(seen, false);
    OnlyMembers(seen, true);
    OnlyBoth(seen);
    late := present + absent;
    var first, second :| Occurs(seen, first) && Occurs(seen, second) && first != second;
    PresentOccurs(seen, present, first);
    PresentOccurs(seen, present, second);
    PresentOccurs(seen, present, name);
    FoldTallies(present, room, first);
    FoldTallies(present, room, second);
    FoldTallies(present, room, name);
    FoldFits(present, room);
    TableFits(Fold(present), room);
    AbsencesLast(present, absent, room);
    SameTableMarks(Fold(late), Fold(present), name);
  }

  lemma SameTableMarks(one: Seen, other: Seen, name: TypeName)
    requires Table(one) == Table(other)
    ensures HasMark(one, name) <==> HasMark(other, name)
  {
  }

  lemma PresentOccurs(seen: seq<Seen>, present: seq<Seen>, name: TypeName)
    requires forall one :: one in present <==> one in seen && one.Present?
    ensures Occurs(seen, name) ==> present != [] && Occurs(present, name)
    ensures MarkOccurs(present, name) ==> MarkOccurs(seen, name)
    ensures Missing !in present
  {
    hide TypeTable;
    if Occurs(seen, name) {
      var one :| one in seen && name in Table(one);
      assert one in present;
    }
  }

  lemma AbsenceFirst(seen: seq<Seen>, plain: Seen) returns (rest: seq<Seen>)
    requires Missing in seen && plain in seen && plain != Missing
    ensures Reordered(seen, [Missing, plain] + rest)
    ensures forall one :: one in rest ==> one in seen
  {
    var fewer := PickOut(seen, Missing);
    rest := PickOut(fewer, plain);
    TwoFirst(seen, fewer, rest, plain);
  }

  lemma TwoFirst(seen: seq<Seen>, fewer: seq<Seen>, rest: seq<Seen>, plain: Seen)
    requires multiset(seen) == multiset{Missing} + multiset(fewer)
    requires multiset(fewer) == multiset{plain} + multiset(rest)
    ensures Reordered(seen, [Missing, plain] + rest)
  {
    assert [Missing, plain] + rest == [Missing] + ([plain] + rest);
  }

  /** With an absence and a plain schema first the schema's variant is marked. */
  lemma AbsenceEarly(seen: seq<Seen>, room: nat, name: TypeName) returns (early: seq<Seen>)
    requires AllFit(seen, room) && Missing in seen && PlainOccurs(seen, name)
    ensures Reordered(seen, early) && early != [] && HasMark(Fold(early), name)
  {
    hide Fold, Table, HasMark, Canonical, Marked;
    var plain :| plain in seen && IsPlain(plain, name);
    var rest := AbsenceFirst(seen, plain);
    early := [Missing, plain] + rest;
    FoldPair(Missing, plain);
    MarkedPlain(plain.schema, name, room);
    MarkStays([Missing, plain], rest, room, name);
  }

  lemma FoldPair(first: Seen, second: Seen)
    ensures Fold([first, second]) == Step(first, second)
  {
    assert [first, second][..1] == [first];
  }

  lemma MarkedPlain(schema: Schema, name: TypeName, room: nat)
    requires Canonical(schema, room) && Plain(schema) && TypeOf(schema) == name
    ensures HasMark(Present(Marked(schema)), name)
  {
    hide Table, Canonical;
    TableMarked(schema, room);
  }

  /** Every order of what is seen below is what some order shows there. */
  lemma {:induction false} Lifted(seen: seq<Seen>, place: Place, below: seq<Seen>) returns (lifted: seq<Seen>)
    requires Reordered(AllBelow(seen, place), below)
    ensures Reordered(seen, lifted) && AllBelow(lifted, place) == below
    decreases |below|
  {
    hide AllBelow, Below;
    SameMembers(AllBelow(seen, place), below);
    if below == [] {
      lifted := seen;
    } else {
      var last := below[|below| - 1];
      assert last in AllBelow(seen, place);
      var i := SeenBelow(seen, place, last);
      BelowWithout(seen, i, place);
      SplitLast(below);
      CountAppend(below[..|below| - 1], last);
      assert multiset(Below(seen[i], place)) == multiset{last};
      TakeBack(multiset(below[..|below| - 1]), last);
      TakeBack(multiset(AllBelow(Without(seen, i), place)), last);
      var fewer := Lifted(Without(seen, i), place, below[..|below| - 1]);
      lifted := fewer + [seen[i]];
      BelowAppend(fewer, seen[i], place);
      RemoveOne(seen, i);
      PutBack(seen, i);
      CountAppend(fewer, seen[i]);
    }
  }

  lemma {:induction false} SeenBelow(seen: seq<Seen>, place: Place, what: Seen) returns (i: nat)
    requires what in AllBelow(seen, place)
    ensures i < |seen| && Below(seen[i], place) == [what]
  {
    hide Below;
    var last := |seen| - 1;
    OneBelow(seen[last], place);
    if what in Below(seen[last], place) {
      i := last;
    } else {
      i := SeenBelow(seen[..last], place, what);
    }
  }

  /** Where some position is undecided, two orders fold to different schemas. */
  lemma {:induction false} UnsettledFolds(seen: seq<Seen>, room: nat) returns (one: seq<Seen>, other: seq<Seen>)
    requires seen != [] && AllFit(seen, room) && !Settled(seen, room)
    ensures Reordered(seen, one) && Reordered(seen, other) && one != [] && other != []
    ensures Fold(one) != Fold(other)
    decreases room
  {
    hide Fold, Fits, HasMark, Several, PlainOccurs, MarkOccurs, Below;
    if Undecided(seen) {
      var name :| PlainOccurs(seen, name) && !MarkOccurs(seen, name);
      one := AbsenceLate(seen, room, name);
      other := AbsenceEarly(seen, room, name);
    } else {
      var place :| AllBelow(seen, place) != [] && !Settled(AllBelow(seen, place), room - 1);
      BelowFits(seen, place, room);
      var ones, others := UnsettledFolds(AllBelow(seen, place), room - 1);
      one := Lifted(seen, place, ones);
      other := Lifted(seen, place, others);
      SameMembers(seen, one);
      SameMembers(seen, other);
      FoldBelow(one, place, room);
      FoldBelow(other, place, room);
    }
  }

  // ----- Lists of schemas -----

  ghost function SeenAll(schemas: seq<Schema>): seq<Seen> {
    seq(|schemas|, i requires 0 <= i < |schemas| => Present(schemas[i]))
  }

  lemma {:induction false} FoldIsMergeAll(schemas: seq<Schema>)
    requires schemas != []
    ensures Fold(SeenAll(schemas)) == Present(MergeAll(schemas))
  {
    hide Merge;
    var last := |schemas| - 1;
    if last > 0 {
      FoldIsMergeAll(schemas[..last]);
      assert SeenAll(schemas)[..last] == SeenAll(schemas[..last]);
    }
  }

  lemma {:induction false} CountSeen(schemas: seq<Schema>, schema: Schema)
    ensures multiset(SeenAll(schemas))[Present(schema)] == multiset(schemas)[schema]
  {
    if schemas != [] {
      var before, last := schemas[..|schemas| - 1], schemas[|schemas| - 1];
      SplitLast(schemas);
      assert SeenAll(schemas) == SeenAll(before) + [Present(last)];
      CountSeen(before, schema);
    }
  }

  /** The orders of what is seen are the orders of the schemas. */
  lemma SeenReordered(one: seq<Schema>, other: seq<Schema>)
    ensures Reordered(SeenAll(one), SeenAll(other)) <==> Reordered(one, other)
  {
    if Reordered(SeenAll(one), SeenAll(other)) {
      forall schema ensures multiset(one)[schema] == multiset(other)[schema] {
        CountSeen(one, schema);
        CountSeen(other, schema);
      }
    }
    if Reordered(one, other) {
      forall item ensures multiset(SeenAll(one))[item] == multiset(SeenAll(other))[item] {
        if item.Present? {
          CountSeen(one, item.schema);
          CountSeen(other, item.schema);
        } else {
          assert item !in SeenAll(one) && item !in SeenAll(other);
        }
      }
    }
  }

  lemma SchemasOf(schemas: seq<Schema>, seen: seq<Seen>) returns (other: seq<Schema>)
    requires Reordered(SeenAll(schemas), seen)
    ensures SeenAll(other) == seen && Reordered(schemas, other)
  {
    SameMembers(SeenAll(schemas), seen);
    forall i | 0 <= i < |seen| ensures seen[i].Present? {
      assert seen[i] in SeenAll(schemas);
    }
    other := seq(|seen|, i requires 0 <= i < |seen| => seen[i].schema);
    assert SeenAll(other) == seen;
    SeenReordered(schemas, other);
  }

  /** Every order of the schemas folds to the same schema. */
  ghost predicate OrderIrrelevant(schemas: seq<Schema>)
    requires schemas != []
  {
    forall other: seq<Schema> :: Reordered(schemas, other) ==> other != [] && MergeAll(other) == MergeAll(schemas)
  }

  /** The order of the schemas does not matter exactly if no position is undecided. */
  lemma ReorderedMergeExact(schemas: seq<Schema>, room: nat)
    requires schemas != [] && AllCanonical(schemas, room)
    ensures OrderIrrelevant(schemas) <==> Settled(SeenAll(schemas), room)
  {
    hide Settled, MergeAll, Canonical, Fold;
    var seen := SeenAll(schemas);
    FoldIsMergeAll(schemas);
    if Settled(seen, room) {
      forall other: seq<Schema> | Reordered(schemas, other) ensures other != [] && MergeAll(other) == MergeAll(schemas) {
        SameMembers(schemas, other);
        SeenReordered(schemas, other);
        SettledFolds(seen, SeenAll(other), room);
        FoldIsMergeAll(other);
      }
    } else {
      var one, other := UnsettledFolds(seen, room);
      var ones := SchemasOf(schemas, one);
      var others := SchemasOf(schemas, other);
      FoldIsMergeAll(ones);
      FoldIsMergeAll(others);
    }
  }
}
