/** Pruning one bucket of selector versions (`AdaptiveSelectorStore._prune_locked`). */
module VersionPruning {
  import opened Sequences

  /**
   * A version id: the digest of selector, selector type and fingerprint, or whatever a store file holds in its
   * place.  A value that is not a string is known by the text it is shown as, and by whether it counts as true.
   */
  datatype Id = Text(text: string) | Other(shown: string, truthy: bool)

  function Shown(id: Id): string {
    if id.Text? then id.text else id.shown
  }

  predicate Truthy(id: Id) {
    if id.Text? then id.text != "" else id.truthy
  }

  datatype Version = Version(id: Id, parent: string, confidence: real,
                             successes: nat, failures: nat, lastSeen: real)

  function Ids(bucket: seq<Version>): seq<string> {
    seq(|bucket|, i requires 0 <= i < |bucket| => Shown(bucket[i].id))
  }

  ghost predicate UniqueIds(bucket: seq<Version>) {
    Distinct(Ids(bucket))
  }

  ghost predicate Has(bucket: seq<Version>, id: Id) {
    exists i :: 0 <= i < |bucket| && bucket[i].id == id
  }

  /** The bucket without its first `excess` versions whose id is not in `kept`, in one pass. */
  ghost function DropUnkept(bucket: seq<Version>, kept: set<string>, excess: nat): seq<Version> {
    if bucket == [] || excess == 0 then bucket
    else if Shown(bucket[0].id) in kept then [bucket[0]] + DropUnkept(bucket[1..], kept, excess)
    else DropUnkept(bucket[1..], kept, excess - 1)
  }

  function Excess(bucket: seq<Version>, limit: nat): nat {
    if |bucket| > limit then |bucket| - limit else 0
  }

  /** Removing the first removable version one at a time is dropping them in one pass. */
  lemma {:induction false} DropFirst(bucket: seq<Version>, kept: set<string>, excess: nat, i: nat)
    requires i < |bucket| && Shown(bucket[i].id) !in kept && excess > 0
    requires forall j :: 0 <= j < i ==> Shown(bucket[j].id) in kept
    ensures DropUnkept(bucket, kept, excess) == DropUnkept(Without(bucket, i), kept, excess - 1)
  {
    if i == 0 {
      assert Without(bucket, 0) == bucket[1..];
    } else {
      DropFirst(bucket[1..], kept, excess, i - 1);
      WithoutTail(bucket, i);
      if excess == 1 {
        assert DropUnkept(Without(bucket, i), kept, 0) == Without(bucket, i);
      }
    }
  }

  lemma WithoutTail<T>(items: seq<T>, i: nat)
    requires 0 < i < |items|
    ensures Without(items, i) == [items[0]] + Without(items[1..], i - 1)
    ensures Without(items, i)[1..] == Without(items[1..], i - 1)
  {
  }

  lemma {:induction false} DropNothing(bucket: seq<Version>, kept: set<string>, excess: nat)
    requires forall i :: 0 <= i < |bucket| ==> Shown(bucket[i].id) in kept
    ensures DropUnkept(bucket, kept, excess) == bucket
  {
    if bucket != [] && excess > 0 {
      DropNothing(bucket[1..], kept, excess);
      assert bucket == [bucket[0]] + bucket[1..];
    }
  }

  /** Kept versions survive, nothing else appears, and ids stay unique. */
  lemma {:induction false} DropKeeps(bucket: seq<Version>, kept: set<string>, excess: nat)
    ensures forall version :: version in DropUnkept(bucket, kept, excess) ==> version in bucket
    ensures forall version :: version in bucket && Shown(version.id) in kept ==> version in DropUnkept(bucket, kept, excess)
    ensures |bucket| <= |DropUnkept(bucket, kept, excess)| + excess
  {
    if bucket != [] && excess > 0 {
      assert bucket == [bucket[0]] + bucket[1..];
      DropKeeps(bucket[1..], kept, if Shown(bucket[0].id) in kept then excess else excess - 1);
    }
  }

  lemma UniqueCons(first: Version, rest: seq<Version>)
    ensures UniqueIds([first] + rest) <==> UniqueIds(rest) && forall version :: version in rest ==> Shown(version.id) != Shown(first.id)
  {
    var bucket := [first] + rest;
    assert Ids(bucket)[1..] == Ids(rest);
    if UniqueIds(bucket) {
      forall version | version in rest ensures Shown(version.id) != Shown(first.id) {
        var j :| 0 <= j < |rest| && rest[j] == version;
        assert Ids(bucket)[0] == Shown(first.id) && Ids(bucket)[j + 1] == Shown(version.id);
      }
      forall i, j | 0 <= i < j < |rest| ensures Ids(rest)[i] != Ids(rest)[j] {
        assert Ids(bucket)[i + 1] == Ids(rest)[i] && Ids(bucket)[j + 1] == Ids(rest)[j];
      }
    }
    if UniqueIds(rest) && forall version :: version in rest ==> Shown(version.id) != Shown(first.id) {
      forall i, j | 0 <= i < j < |bucket| ensures Ids(bucket)[i] != Ids(bucket)[j] {
        assert bucket[j] == rest[j - 1];
        if i > 0 {
          assert Ids(rest)[i - 1] != Ids(rest)[j - 1];
        }
      }
    }
  }

  lemma {:induction false} DropUnique(bucket: seq<Version>, kept: set<string>, excess: nat)
    requires UniqueIds(bucket)
    ensures UniqueIds(DropUnkept(bucket, kept, excess))
  {
    hide UniqueIds;
    if bucket != [] && excess > 0 {
      var first, rest := bucket[0], bucket[1..];
      assert bucket == [first] + rest;
      UniqueCons(first, rest);
      var fewer := if Shown(first.id) in kept then excess else excess - 1;
      DropUnique(rest, kept, fewer);
      DropKeeps(rest, kept, fewer);
      UniqueCons(first, DropUnkept(rest, kept, fewer));
    }
  }

  /** Afterwards the bucket is as short as asked for, or holds kept versions only. */
  lemma {:induction false} DropEnough(bucket: seq<Version>, kept: set<string>, excess: nat)
    requires excess <= |bucket|
    ensures var after := DropUnkept(bucket, kept, excess);
      |after| == |bucket| - excess || forall version :: version in after ==> Shown(version.id) in kept
  {
    if bucket != [] && excess > 0 {
      if Shown(bucket[0].id) in kept {
        if excess <= |bucket| - 1 {
          DropEnough(bucket[1..], kept, excess);
        } else {
          DropAll(bucket[1..], kept, excess);
        }
      } else {
        DropEnough(bucket[1..], kept, excess - 1);
      }
    }
  }

  lemma {:induction false} DropAll(bucket: seq<Version>, kept: set<string>, excess: nat)
    requires excess >= |bucket|
    ensures forall version :: version in DropUnkept(bucket, kept, excess) ==> Shown(version.id) in kept
  {
    if bucket != [] && excess > 0 {
      DropAll(bucket[1..], kept, if Shown(bucket[0].id) in kept then excess else excess - 1);
    }
  }

  /** When none of the first versions is kept, pruning is dropping them. */
  lemma {:induction false} DropPrefix(bucket: seq<Version>, kept: set<string>, excess: nat)
    requires excess <= |bucket| && forall i :: 0 <= i < excess ==> Shown(bucket[i].id) !in kept
    ensures DropUnkept(bucket, kept, excess) == bucket[excess..]
  {
    if excess > 0 {
      DropPrefix(bucket[1..], kept, excess - 1);
    }
  }

  /** Distinct ids drawn from a finite set: there are no more versions than ids. */
  lemma {:induction false} UniqueCount(bucket: seq<Version>, ids: set<string>)
    requires UniqueIds(bucket) && forall version :: version in bucket ==> Shown(version.id) in ids
    ensures |bucket| <= |ids|
    decreases |bucket|
  {
    hide UniqueIds;
    if bucket != [] {
      assert bucket == [bucket[0]] + bucket[1..];
      UniqueCons(bucket[0], bucket[1..]);
      UniqueCount(bucket[1..], ids - {Shown(bucket[0].id)});
    }
  }
}
