/** What was recorded about selector versions, and the counters that this adds up to. */
module SelectorTally {
  import opened VersionPruning

  /** A version was appended to the bucket of a key, or an outcome was recorded for one. */
  datatype Event = Added(key: string, id: Id) | Recorded(key: string, id: Id, success: bool)

  function BucketOf(data: map<string, seq<Version>>, key: string): seq<Version> {
    if key in data then data[key] else []
  }

  function Count(version: Version, success: bool): nat {
    if success then version.successes else version.failures
  }

  /** The counter of the first version with this id as it was loaded. */
  ghost function LoadedCount(bucket: seq<Version>, id: Id, success: bool): nat {
    if bucket == [] then 0
    else if bucket[0].id == id then Count(bucket[0], success)
    else LoadedCount(bucket[1..], id, success)
  }

  /** How many successes, or failures, were recorded for a version since it was added. */
  ghost function Tally(loaded: map<string, seq<Version>>, events: seq<Event>, key: string, id: Id, success: bool): nat {
    if events == [] then LoadedCount(BucketOf(loaded, key), id, success)
    else
      var last := events[|events| - 1];
      if last.key != key || last.id != id then Tally(loaded, events[..|events| - 1], key, id, success)
      else if last.Added? then 0
      else Tally(loaded, events[..|events| - 1], key, id, success) + if last.success == success then 1 else 0
  }

  lemma TallyMore(loaded: map<string, seq<Version>>, events: seq<Event>, last: Event, key: string, id: Id, success: bool)
    ensures Tally(loaded, events + [last], key, id, success) ==
      if last.key != key || last.id != id then Tally(loaded, events, key, id, success)
      else if last.Added? then 0
      else Tally(loaded, events, key, id, success) + if last.success == success then 1 else 0
  {
    assert (events + [last])[..|events|] == events;
  }

  ghost predicate Tallied(loaded: map<string, seq<Version>>, events: seq<Event>, key: string, version: Version) {
    && version.successes == Tally(loaded, events, key, version.id, true)
    && version.failures == Tally(loaded, events, key, version.id, false)
  }

  ghost predicate BucketTallied(loaded: map<string, seq<Version>>, events: seq<Event>, key: string, bucket: seq<Version>) {
    forall version :: version in bucket ==> Tallied(loaded, events, key, version)
  }

  /** The counters of every version are what was recorded for it. */
  ghost predicate CountsKept(loaded: map<string, seq<Version>>, events: seq<Event>, data: map<string, seq<Version>>) {
    forall key :: BucketTallied(loaded, events, key, BucketOf(data, key))
  }

  lemma {:induction false} LoadedFirst(bucket: seq<Version>, version: Version, success: bool)
    requires UniqueIds(bucket) && version in bucket
    ensures LoadedCount(bucket, version.id, success) == Count(version, success)
  {
    hide UniqueIds;
    assert bucket == [bucket[0]] + bucket[1..];
    UniqueCons(bucket[0], bucket[1..]);
    if version in bucket[1..] {
      LoadedFirst(bucket[1..], version, success);
    }
  }

  lemma CountsLoaded(rows: map<string, seq<Version>>)
    requires forall key :: key in rows ==> UniqueIds(rows[key])
    ensures CountsKept(rows, [], rows)
  {
    forall key, version | version in BucketOf(rows, key) ensures Tallied(rows, [], key, version) {
      LoadedFirst(rows[key], version, true);
      LoadedFirst(rows[key], version, false);
    }
  }

  /** A bucket may lose versions. */
  lemma CountsPruned(loaded: map<string, seq<Version>>, events: seq<Event>, data: map<string, seq<Version>>,
                     key: string, bucket: seq<Version>)
    requires CountsKept(loaded, events, data) && forall version :: version in bucket ==> version in BucketOf(data, key)
    ensures CountsKept(loaded, events, data[key := bucket])
  {
    hide Tallied;
    var after := data[key := bucket];
    forall other ensures BucketTallied(loaded, events, other, BucketOf(after, other)) {
      assert BucketTallied(loaded, events, other, BucketOf(data, other));
    }
  }

  /** A version may be touched, as long as its counters stay. */
  lemma CountsTouched(loaded: map<string, seq<Version>>, events: seq<Event>, data: map<string, seq<Version>>,
                      key: string, i: nat, version: Version)
    requires CountsKept(loaded, events, data) && key in data && i < |data[key]|
    requires version.id == data[key][i].id
    requires version.successes == data[key][i].successes && version.failures == data[key][i].failures
    ensures CountsKept(loaded, events, data[key := data[key][i := version]])
  {
    var bucket := data[key][i := version];
    var after := data[key := bucket];
    forall other ensures BucketTallied(loaded, events, other, BucketOf(after, other)) {
      assert BucketTallied(loaded, events, other, BucketOf(data, other));
      if other == key {
        assert data[key][i] in data[key];
        hide Tally;
        forall each | each in bucket ensures Tallied(loaded, events, key, each) {
          assert each == version || each in data[key];
        }
      }
    }
  }

  /** A new version starts at zero. */
  lemma CountsAdded(loaded: map<string, seq<Version>>, events: seq<Event>, data: map<string, seq<Version>>,
                    key: string, version: Version)
    requires CountsKept(loaded, events, data) && !Has(BucketOf(data, key), version.id)
    requires version.successes == 0 && version.failures == 0
    ensures CountsKept(loaded, events + [Added(key, version.id)], data[key := BucketOf(data, key) + [version]])
  {
    var after, event := data[key := BucketOf(data, key) + [version]], Added(key, version.id);
    forall other, each | each in BucketOf(after, other) ensures Tallied(loaded, events + [event], other, each) {
      TallyMore(loaded, events, event, other, each.id, true);
      TallyMore(loaded, events, event, other, each.id, false);
      if !(other == key && each == version) {
        var bucket := BucketOf(data, other);
        assert each in bucket && BucketTallied(loaded, events, other, bucket);
        assert Tallied(loaded, events, other, each);
        var i :| 0 <= i < |bucket| && bucket[i] == each;
        assert other == key ==> each.id != version.id;
      }
    }
  }

  /** One outcome moves one counter of one version by one. */
  lemma CountsRecorded(loaded: map<string, seq<Version>>, events: seq<Event>, data: map<string, seq<Version>>,
                       key: string, i: nat, version: Version, success: bool)
    requires CountsKept(loaded, events, data) && key in data && i < |data[key]|
    requires forall j :: 0 <= j < |data[key]| && j != i ==> data[key][j].id != data[key][i].id
    requires version.id == data[key][i].id
    requires version.successes == data[key][i].successes + if success then 1 else 0
    requires version.failures == data[key][i].failures + if success then 0 else 1
    ensures CountsKept(loaded, events + [Recorded(key, version.id, success)], data[key := data[key][i := version]])
  {
    var after, event := data[key := data[key][i := version]], Recorded(key, version.id, success);
    assert data[key][i] in data[key] && BucketTallied(loaded, events, key, BucketOf(data, key));
    assert Tallied(loaded, events, key, data[key][i]);
    forall other, each | each in BucketOf(after, other) ensures Tallied(loaded, events + [event], other, each) {
      TallyMore(loaded, events, event, other, each.id, true);
      TallyMore(loaded, events, event, other, each.id, false);
      if other != key {
        assert BucketTallied(loaded, events, other, BucketOf(data, other));
      } else {
        var j :| 0 <= j < |after[key]| && after[key][j] == each;
        if j != i {
          assert each == data[key][j] && each in data[key];
          assert Tallied(loaded, events, key, each);
        }
      }
    }
  }
}
