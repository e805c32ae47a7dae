/** Facts about sequences that several components share. */
module Sequences {

  lemma SplitLast<T>(items: seq<T>)
    requires items != []
    ensures items == items[..|items| - 1] + [items[|items| - 1]]
  {
  }

  lemma AppendAssociative<T>(first: seq<T>, second: seq<T>, third: seq<T>)
    ensures first + (second + third) == (first + second) + third
  {
  }

  lemma ShiftFromMiddle<T>(first: seq<T>, item: T, middle: seq<T>, last: seq<T>)
    ensures first + ([item] + middle) + last == (first + [item]) + middle + last
  {
  }

  lemma ShiftToMiddle<T>(first: seq<T>, middle: seq<T>, item: T, last: seq<T>)
    ensures first + middle + ([item] + last) == first + (middle + [item]) + last
  {
  }

  predicate Distinct<T(==)>(items: seq<T>) {
    forall i, j :: 0 <= i < j < |items| ==> items[i] != items[j]
  }

  function Without<T>(items: seq<T>, i: nat): seq<T>
    requires i < |items|
  {
    items[..i] + items[i + 1..]
  }

  lemma WithoutBeforeLast<T>(items: seq<T>, i: nat)
    requires i < |items| - 1
    ensures Without(items, i) == Without(items[..|items| - 1], i) + [items[|items| - 1]]
  {
  }

  lemma WithoutLast<T>(items: seq<T>)
    requires items != []
    ensures Without(items, |items| - 1) == items[..|items| - 1]
  {
  }

  lemma WithoutSize<T>(items: seq<T>, i: nat)
    requires i < |items|
    ensures |Without(items, i)| == |items| - 1
  {
  }

  lemma RemoveOne<T>(items: seq<T>, i: nat)
    requires i < |items|
    ensures multiset(Without(items, i)) == multiset(items) - multiset{items[i]}
  {
    assert items == items[..i] + [items[i]] + items[i + 1..];
  }

  /** The other items of a list, each as often as before. */
  lemma PickOut<T>(items: seq<T>, item: T) returns (rest: seq<T>)
    requires item in items
    ensures multiset(items) == multiset{item} + multiset(rest)
    ensures forall other :: other in rest ==> other in items
    ensures forall other :: other in items ==> other == item || other in rest
  {
    var i :| 0 <= i < |items| && items[i] == item;
    rest := items[..i] + items[i + 1..];
    assert items == items[..i] + [item] + items[i + 1..];
  }

  lemma PutBack<T>(items: seq<T>, i: nat)
    requires i < |items|
    ensures multiset(items) - multiset{items[i]} + multiset{items[i]} == multiset(items)
  {
    assert items[i] in items;
  }

  lemma CountAppend<T>(items: seq<T>, last: T)
    ensures multiset(items + [last]) == multiset(items) + multiset{last}
  {
  }

  lemma TakeBack<T>(bag: multiset<T>, item: T)
    ensures bag + multiset{item} - multiset{item} == bag
    ensures |bag + multiset{item}| == |bag| + 1
  {
  }

  ghost predicate EndsWith<T>(items: seq<T>, suffix: seq<T>) {
    |suffix| <= |items| && items[|items| - |suffix|..] == suffix
  }

  /** The first element moved to the back. */
  function Rotate<T>(items: seq<T>): (rotated: seq<T>)
    requires items != []
    ensures |rotated| == |items|
  {
    items[1..] + [items[0]]
  }

  lemma Rotated<T>(items: seq<T>, suffix: seq<T>)
    requires EndsWith(items, suffix) && |suffix| < |items|
    ensures EndsWith(Rotate(items), suffix + [items[0]])
  {
  }

  lemma EndsWithLast<T>(items: seq<T>, last: T)
    ensures EndsWith(items + [last], [last])
  {
  }

  lemma EndsWithAll<T>(suffix: seq<T>, items: seq<T>)
    ensures EndsWith(items, [])
    ensures EndsWith(items, suffix) && |suffix| >= |items| ==> suffix == items
  {
  }

  lemma TakeThenAdd<T>(bag: multiset<T>, taken: T, added: multiset<T>)
    requires taken in bag
    ensures bag + added - multiset{taken} == bag - multiset{taken} + added
  {
  }

  /** The last `count` items, or all of them. */
  function LastOf<T>(items: seq<T>, count: nat): seq<T> {
    if |items| <= count then items else items[|items| - count..]
  }

  lemma LastOfAppend<T>(items: seq<T>, count: nat, last: T)
    requires count > 0
    ensures LastOf(LastOf(items, count) + [last], count) == LastOf(items + [last], count)
  {
  }

  lemma LastOfOneMore<T>(items: seq<T>, count: nat, last: T)
    ensures LastOf(items, count) + [last] == LastOf(items + [last], count + 1)
  {
  }

  lemma SuffixAppend<T>(items: seq<T>, suffix: seq<T>, last: T)
    requires EndsWith(items, suffix)
    ensures EndsWith(items + [last], suffix + [last])
  {
    var start := |items| - |suffix|;
    assert (items + [last])[start..] == items[start..] + [last];
  }

  lemma SuffixLastOf<T>(items: seq<T>, suffix: seq<T>, count: nat)
    requires EndsWith(items, suffix)
    ensures EndsWith(LastOf(items, count), LastOf(suffix, count))
  {
    var last := LastOf(suffix, count);
    if |items| > count {
      assert items[|items| - count..][count - |last|..] == items[|items| - |last|..];
    }
  }

  lemma LastOfSuffix<T>(items: seq<T>, recent: seq<T>, count: nat, last: T)
    requires EndsWith(items, LastOf(recent, count)) && count > 0
    ensures EndsWith(LastOf(items + [last], count), LastOf(recent + [last], count))
  {
    LastOfAppend(recent, count, last);
    SuffixAppend(items, LastOf(recent, count), last);
    SuffixLastOf(items + [last], LastOf(recent, count) + [last], count);
  }

  lemma EndsWithLastOf<T>(items: seq<T>, suffix: seq<T>, count: nat)
    requires EndsWith(items, suffix)
    ensures EndsWith(items, LastOf(suffix, count))
  {
  }

  lemma WithoutBoth<T>(one: seq<T>, i: nat, other: seq<T>, j: nat)
    requires i < |one| && j < |other| && one[i] == other[j] && multiset(one) == multiset(other)
    ensures multiset(Without(one, i)) == multiset(Without(other, j))
  {
    RemoveOne(one, i);
    RemoveOne(other, j);
  }

  lemma MovedLast<T>(items: seq<T>, i: nat, fewer: seq<T>)
    requires i < |items| && multiset(Without(items, i)) == multiset(fewer)
    ensures multiset(items) == multiset(fewer + [items[i]])
  {
    RemoveOne(items, i);
    PutBack(items, i);
    CountAppend(fewer, items[i]);
  }

  /** What was appended to `before`. */
  ghost function Since<T>(before: seq<T>, items: seq<T>): seq<T>
    requires before <= items
  {
    items[|before|..]
  }

  lemma SinceAppend<T>(before: seq<T>, items: seq<T>, last: T)
    requires before <= items
    ensures before <= items + [last] && Since(before, items + [last]) == Since(before, items) + [last]
  {
  }

  lemma SinceEndsWith<T>(before: seq<T>, items: seq<T>, suffix: seq<T>)
    requires before <= items && EndsWith(items, suffix) && |before| + |suffix| <= |items|
    ensures EndsWith(Since(before, items), suffix)
  {
  }
}
