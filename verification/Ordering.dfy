/** Code-point order on strings and the sorted key list it gives a finite set of names. */
module Ordering {
  import opened Sequences

  predicate AtMost(a: string, b: string) {
    |a| == 0 || (|b| > 0 && (a[0] < b[0] || (a[0] == b[0] && AtMost(a[1..], b[1..]))))
  }

  lemma {:induction false} AtMostTotal(a: string, b: string)
    ensures AtMost(a, b) || AtMost(b, a)
    ensures AtMost(a, b) && AtMost(b, a) ==> a == b
  {
    if |a| > 0 && |b| > 0 && a[0] == b[0] {
      AtMostTotal(a[1..], b[1..]);
      assert a == [a[0]] + a[1..] && b == [b[0]] + b[1..];
    }
  }

  lemma {:induction false} AtMostTransitive(a: string, b: string, c: string)
    requires AtMost(a, b) && AtMost(b, c)
    ensures AtMost(a, c)
  {
    if |a| > 0 && a[0] == b[0] && b[0] == c[0] {
      AtMostTransitive(a[1..], b[1..], c[1..]);
    }
  }

  predicate Least(key: string, keys: set<string>) {
    key in keys && forall other :: other in keys ==> AtMost(key, other)
  }

  lemma {:induction false} LeastExists(keys: set<string>)
    requires keys != {}
    ensures exists key :: Least(key, keys)
    decreases |keys|
  {
    var some :| some in keys;
    AtMostTotal(some, some);
    if keys == {some} {
      assert Least(some, keys);
    } else {
      var rest := keys - {some};
      assert rest != {};
      LeastExists(rest);
      var least :| Least(least, rest);
      AtMostTotal(some, least);
      var winner := if AtMost(some, least) then some else least;
      forall other | other in keys ensures AtMost(winner, other) {
        if other != some && winner == some {
          AtMostTransitive(some, least, other);
        }
      }
      assert Least(winner, keys);
    }
  }

  lemma LeastUnique(keys: set<string>)
    ensures forall a, b :: Least(a, keys) && Least(b, keys) ==> a == b
  {
    forall a, b | Least(a, keys) && Least(b, keys) ensures a == b {
      AtMostTotal(a, b);
    }
  }

  /** `sorted(keys)`: every key exactly once, in code-point order. */
  function SortedKeys(keys: set<string>): (sorted: seq<string>)
    ensures |sorted| == |keys| && Distinct(sorted)
    ensures forall key :: key in sorted <==> key in keys
    ensures forall i, j :: 0 <= i < j < |sorted| ==> AtMost(sorted[i], sorted[j])
    decreases |keys|
  {
    if keys == {} then
      []
    else
      LeastExists(keys);
      LeastUnique(keys);
      var least :| least in keys && Least(least, keys);
      [least] + SortedKeys(keys - {least})
  }
}
