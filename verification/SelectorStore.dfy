/**
 * The store of selector versions with pinned leases (`application/adaptive_extraction.py`).  Every
 * method is one critical section of the store's lock.
 */
module SelectorStore {
  import opened SelectorTally
  import opened Sequences
  import opened VersionPruning

  datatype Pin = Pin(key: string, id: Id)

  /** `versions_lease` on entry, and on exit; an id that does not count as true is counted on entry only. */
  function AddPin(pins: map<Pin, nat>, pin: Pin): map<Pin, nat> {
    pins[pin := (if pin in pins then pins[pin] else 0) + 1]
  }

  function RemovePin(pins: map<Pin, nat>, pin: Pin): map<Pin, nat> {
    if !Truthy(pin.id) then pins
    else
      var remaining := (if pin in pins then pins[pin] else 0) as int - 1;
      if remaining > 0 then pins[pin := remaining] else pins - {pin}
  }

  /** No entry of the pin table is zero, and it counts exactly the active leases. */
  ghost predicate PinsCount(pins: map<Pin, nat>, leases: multiset<Pin>) {
    && (forall pin :: pin in pins <==> pin in leases)
    && forall pin :: pin in pins ==> pins[pin] == leases[pin]
  }

  lemma PinsAdd(pins: map<Pin, nat>, leases: multiset<Pin>, pin: Pin)
    requires PinsCount(pins, leases)
    ensures PinsCount(AddPin(pins, pin), leases + multiset{pin})
  {
  }

  lemma PinsRemove(pins: map<Pin, nat>, leases: multiset<Pin>, pin: Pin)
    requires PinsCount(pins, leases) && pin in leases && Truthy(pin.id)
    ensures PinsCount(RemovePin(pins, pin), leases - multiset{pin})
  {
  }

  /** A lease leaves no trace in the pin table exactly when the leased id counts as true. */
  lemma LeaseBalanced(pins: map<Pin, nat>, leases: multiset<Pin>, pin: Pin)
    requires PinsCount(pins, leases)
    ensures RemovePin(AddPin(pins, pin), pin) == pins <==> Truthy(pin.id)
  {
    if !Truthy(pin.id) {
      assert AddPin(pins, pin)[pin] != (if pin in pins then pins[pin] else 0);
      assert pin in pins ==> AddPin(pins, pin)[pin] == pins[pin] + 1;
    }
  }

  /** The ids pruning finds pinned: it looks for the text of an id, while leases pin the id as it is. */
  ghost function Pinned(pins: map<Pin, nat>, key: string): set<string> {
    set pin | pin in pins && pin.key == key && pin.id.Text? :: pin.id.text
  }

  /** Pruning spares a leased version because of its lease exactly if its id is a string. */
  lemma PinProtects(pins: map<Pin, nat>, pin: Pin)
    ensures Shown(pin.id) in Pinned(AddPin(pins, pin), pin.key) <==> pin.id.Text? || Shown(pin.id) in Pinned(pins, pin.key)
  {
    PinnedAdd(pins, pin, pin.key);
  }

  /** As `remember` makes it: with a digest for an id, and nothing recorded yet. */
  predicate Unused(version: Version) {
    GoodId(version.id) && version.successes == 0 && version.failures == 0
  }

  predicate GoodId(id: Id) {
    id.Text? && id.text != ""
  }

  ghost predicate GoodIds(bucket: seq<Version>) {
    forall version :: version in bucket ==> GoodId(version.id)
  }

  /** How long a bucket may be: the limit, or every pinned version and one more. */
  ghost predicate Bounded(bucket: seq<Version>, pinned: set<string>, limit: nat) {
    |bucket| <= limit || |bucket| <= |pinned| + 1
  }

  ghost predicate BucketValid(bucket: seq<Version>, pinned: set<string>, limit: nat) {
    && UniqueIds(bucket)
    && GoodIds(bucket)
    && (forall id :: id in pinned ==> Has(bucket, Text(id)))
    && Bounded(bucket, pinned, limit)
  }

  /** What pruning makes of a bucket. */
  ghost function Pruned(bucket: seq<Version>, kept: set<string>, limit: nat): seq<Version> {
    DropUnkept(bucket, kept, Excess(bucket, limit))
  }

  lemma HasMember(bucket: seq<Version>, id: Id)
    ensures Has(bucket, id) <==> exists version :: version in bucket && version.id == id
  {
    if Has(bucket, id) {
      var i :| 0 <= i < |bucket| && bucket[i].id == id;
      assert bucket[i] in bucket;
    }
  }

  /** Pruning keeps every kept version, and leaves the bucket within the limit or nothing but kept versions. */
  lemma PrunedFacts(bucket: seq<Version>, kept: set<string>, limit: nat)
    requires UniqueIds(bucket) && GoodIds(bucket)
    ensures var after := Pruned(bucket, kept, limit);
      && UniqueIds(after)
      && (forall version :: version in after ==> version in bucket && GoodId(version.id))
      && (forall id :: id in kept && Has(bucket, Text(id)) ==> Has(after, Text(id)))
      && (|after| <= limit || |after| <= |kept|)
  {
    var excess := Excess(bucket, limit);
    var after := Pruned(bucket, kept, limit);
    DropUnique(bucket, kept, excess);
    DropKeeps(bucket, kept, excess);
    DropEnough(bucket, kept, excess);
    forall id | id in kept && Has(bucket, Text(id)) ensures Has(after, Text(id)) {
      HasMember(bucket, Text(id));
      HasMember(after, Text(id));
    }
    if |after| > limit {
      UniqueCount(after, kept);
    }
  }

  /** Replacing a version by one with the same id changes nothing pruning or leasing can see. */
  lemma SameIds(bucket: seq<Version>, i: nat, version: Version, pinned: set<string>, limit: nat)
    requires BucketValid(bucket, pinned, limit) && i < |bucket| && version.id == bucket[i].id
    ensures BucketValid(bucket[i := version], pinned, limit)
    ensures Ids(bucket[i := version]) == Ids(bucket)
  {
    var after := bucket[i := version];
    assert Ids(after) == Ids(bucket);
    forall id | id in pinned ensures Has(after, Text(id)) {
      var j :| 0 <= j < |bucket| && bucket[j].id == Text(id);
      assert after[j].id == Text(id);
    }
  }

  lemma AppendUnique(bucket: seq<Version>, version: Version)
    requires UniqueIds(bucket) && GoodIds(bucket) && GoodId(version.id) && !Has(bucket, version.id)
    ensures UniqueIds(bucket + [version]) && GoodIds(bucket + [version])
    ensures Ids(bucket + [version]) == Ids(bucket) + [version.id.text]
    ensures forall id :: Has(bucket, id) ==> Has(bucket + [version], id)
    ensures Has(bucket + [version], version.id)
  {
    var after := bucket + [version];
    forall i, j | 0 <= i < j < |after| ensures Ids(after)[i] != Ids(after)[j] {
      assert i < |bucket| && bucket[i] in bucket && Ids(bucket)[i] == bucket[i].id.text;
      if j < |bucket| {
        assert Ids(bucket)[j] == Shown(bucket[j].id);
      }
    }
    forall id | Has(bucket, id) ensures Has(after, id) {
      var i :| 0 <= i < |bucket| && bucket[i].id == id;
      assert after[i].id == id;
    }
    assert after[|bucket|].id == version.id;
  }

  /** A new version joins its bucket; pruning spares it and every pinned version. */
  lemma RememberValid(bucket: seq<Version>, version: Version, pinned: set<string>, limit: nat)
    requires BucketValid(bucket, pinned, limit) && !Has(bucket, version.id) && GoodId(version.id) && limit > 0
    ensures BucketValid(Pruned(bucket + [version], pinned + {version.id.text}, limit), pinned, limit)
    ensures Has(Pruned(bucket + [version], pinned + {version.id.text}, limit), version.id)
  {
    var kept := pinned + {version.id.text};
    AppendUnique(bucket, version);
    PrunedFacts(bucket + [version], kept, limit);
    assert |kept| <= |pinned| + 1;
  }

  /** Without pins the bucket is a queue of the last versions. */
  lemma RememberQueue(bucket: seq<Version>, version: Version, limit: nat)
    requires BucketValid(bucket, {}, limit) && !Has(bucket, version.id) && GoodId(version.id) && limit > 0
    ensures Pruned(bucket + [version], {version.id.text}, limit) == LastOf(bucket + [version], limit)
  {
    var after := bucket + [version];
    forall i | 0 <= i < Excess(after, limit) ensures Shown(after[i].id) !in {version.id.text} {
      assert after[i] == bucket[i] && bucket[i] in bucket;
    }
    DropPrefix(after, {version.id.text}, Excess(after, limit));
  }

  lemma LastIds(bucket: seq<Version>, limit: nat)
    ensures Ids(LastOf(bucket, limit)) == LastOf(Ids(bucket), limit)
  {
  }

  lemma ReleaseValid(bucket: seq<Version>, before: set<string>, pinned: set<string>, limit: nat)
    requires BucketValid(bucket, before, limit) && pinned <= before
    ensures BucketValid(Pruned(bucket, pinned + {""}, limit), pinned, limit)
  {
    PrunedFacts(bucket, pinned + {""}, limit);
    assert |pinned + {""}| <= |pinned| + 1;
  }

  // ----- The store as a whole -----

  /** Whether a key ever had a lease, and how many ids had been appended when it last got or lost one. */
  datatype Leasing = Never | Last(at: nat)

  /**
   * What the fields do not say: the leases held now, for each key the ids ever appended to its
   * bucket, and when it last got or lost a lease.
   */
  datatype History = History(leases: multiset<Pin>, appended: map<string, seq<string>>, marks: map<string, nat>)

  function Appended(history: History, key: string): seq<string> {
    if key in history.appended then history.appended[key] else []
  }

  function LeasingOf(history: History, key: string): Leasing {
    if key in history.marks then Last(history.marks[key]) else Never
  }

  /** The key gets or loses a lease now. */
  function Marked(history: History, key: string, leases: multiset<Pin>): History {
    history.(leases := leases, marks := history.marks[key := |Appended(history, key)|])
  }

  ghost predicate KeyValid(bucket: seq<Version>, pinned: set<string>, log: seq<string>, leasing: Leasing, limit: nat) {
    && BucketValid(bucket, pinned, limit)
    && (leasing.Never? ==> pinned == {} && Ids(bucket) == LastOf(log, limit))
    && (leasing.Last? ==> leasing.at <= |log| && (pinned == {} ==> EndsWith(Ids(bucket), LastOf(log[leasing.at..], limit))))
  }

  /**
   * Pins count leases; every bucket has unique ids, holds every pinned version and respects its bound; a key
   * that was never leased holds the last versions appended to it, in order; and while a key is not leased, its
   * bucket ends in the last versions appended since it was.
   */
  ghost predicate StoreValid(data: map<string, seq<Version>>, pins: map<Pin, nat>, history: History, limit: nat) {
    && limit >= 4
    && PinsCount(pins, history.leases) && (forall pin :: pin in history.leases ==> pin.id.Text?)
    && forall key :: KeyValid(BucketOf(data, key), Pinned(pins, key), Appended(history, key), LeasingOf(history, key), limit)
  }

  lemma KeyOf(data: map<string, seq<Version>>, pins: map<Pin, nat>, history: History, limit: nat, key: string)
    requires StoreValid(data, pins, history, limit)
    ensures KeyValid(BucketOf(data, key), Pinned(pins, key), Appended(history, key), LeasingOf(history, key), limit)
    ensures limit >= 4
  {
  }

  lemma PinsOf(data: map<string, seq<Version>>, pins: map<Pin, nat>, history: History, limit: nat)
    requires StoreValid(data, pins, history, limit)
    ensures PinsCount(pins, history.leases)
  {
  }

  lemma KeyQueue(bucket: seq<Version>, log: seq<string>, leasing: Leasing, limit: nat)
    requires KeyValid(bucket, {}, log, leasing, limit) && limit > 0
    requires leasing.Last? ==> |log| >= leasing.at + limit
    ensures Ids(bucket) == LastOf(log, limit)
  {
    if leasing.Last? {
      assert |Ids(bucket)| <= limit;
      assert LastOf(log[leasing.at..], limit) == LastOf(log, limit);
      EndsWithAll(LastOf(log, limit), Ids(bucket));
    }
  }

  /**
   * Once a key is not leased any more and as many versions as its bucket may hold were appended since, the bucket
   * holds exactly the last versions again.
   */
  lemma QueueAgain(data: map<string, seq<Version>>, pins: map<Pin, nat>, history: History, limit: nat, key: string)
    requires StoreValid(data, pins, history, limit) && Pinned(pins, key) == {}
    requires LeasingOf(history, key).Last? ==> |Appended(history, key)| >= LeasingOf(history, key).at + limit
    ensures Ids(BucketOf(data, key)) == LastOf(Appended(history, key), limit)
  {
    KeyOf(data, pins, history, limit, key);
    hide StoreValid, KeyValid, Appended, LeasingOf;
    KeyQueue(BucketOf(data, key), Appended(history, key), LeasingOf(history, key), limit);
  }

  /** A step that touches one key only. */
  lemma OneKey(data: map<string, seq<Version>>, pins: map<Pin, nat>, history: History, limit: nat,
               key: string, bucket: seq<Version>, log: seq<string>)
    requires StoreValid(data, pins, history, limit)
    requires KeyValid(bucket, Pinned(pins, key), log, LeasingOf(history, key), limit)
    ensures StoreValid(data[key := bucket], pins, history.(appended := history.appended[key := log]), limit)
  {
    hide KeyValid, PinsCount;
    var data', history' := data[key := bucket], history.(appended := history.appended[key := log]);
    forall other
      ensures KeyValid(BucketOf(data', other), Pinned(pins, other), Appended(history', other), LeasingOf(history', other), limit)
    {
      assert other != key ==> BucketOf(data', other) == BucketOf(data, other) && Appended(history', other) == Appended(history, other);
    }
  }

  lemma Touched(data: map<string, seq<Version>>, pins: map<Pin, nat>, history: History, limit: nat,
                key: string, i: nat, version: Version)
    requires StoreValid(data, pins, history, limit)
    requires key in data && i < |data[key]| && version.id == data[key][i].id
    ensures StoreValid(data[key := data[key][i := version]], pins, history, limit)
    ensures Has(data[key][i := version], version.id)
  {
    var bucket := data[key][i := version];
    assert KeyValid(BucketOf(data, key), Pinned(pins, key), Appended(history, key), LeasingOf(history, key), limit);
    SameIds(data[key], i, version, Pinned(pins, key), limit);
    hide KeyValid, PinsCount, BucketValid;
    forall other
      ensures KeyValid(BucketOf(data[key := bucket], other), Pinned(pins, other), Appended(history, other),
                       LeasingOf(history, other), limit)
    {
      if other == key {
        assert BucketOf(data[key := bucket], key) == bucket;
        KeyFacts(data[key], bucket, Pinned(pins, key), Appended(history, key), LeasingOf(history, key), limit);
      } else {
        assert BucketOf(data[key := bucket], other) == BucketOf(data, other);
      }
    }
    assert bucket[i].id == version.id;
  }

  lemma KeyFacts(before: seq<Version>, after: seq<Version>, pinned: set<string>, log: seq<string>, leasing: Leasing, limit: nat)
    requires KeyValid(before, pinned, log, leasing, limit)
    requires BucketValid(after, pinned, limit) && Ids(after) == Ids(before)
    ensures KeyValid(after, pinned, log, leasing, limit)
  {
  }

  lemma IdsRemembered(ids: seq<string>, id: string, log: seq<string>, leasing: Leasing, limit: nat)
    requires limit > 0 && (leasing.Never? ==> ids == LastOf(log, limit))
    requires leasing.Last? ==> leasing.at <= |log| && EndsWith(ids, LastOf(log[leasing.at..], limit))
    ensures var after := LastOf(ids + [id], limit);
      && (leasing.Never? ==> after == LastOf(log + [id], limit))
      && (leasing.Last? ==> EndsWith(after, LastOf((log + [id])[leasing.at..], limit)))
  {
    hide EndsWith, LastOf;
    if leasing.Never? {
      LastOfAppend(log, limit, id);
    } else {
      LastOfSuffix(ids, log[leasing.at..], limit, id);
      assert (log + [id])[leasing.at..] == log[leasing.at..] + [id];
    }
  }

  lemma QueueRemembered(bucket: seq<Version>, version: Version, log: seq<string>, leasing: Leasing, limit: nat)
    requires KeyValid(bucket, {}, log, leasing, limit) && GoodId(version.id) && !Has(bucket, version.id) && limit > 0
    ensures var after, id := Pruned(bucket + [version], {version.id.text}, limit), version.id.text;
      && (leasing.Never? ==> Ids(after) == LastOf(log + [id], limit))
      && (leasing.Last? ==> EndsWith(Ids(after), LastOf((log + [id])[leasing.at..], limit)))
  {
    hide UniqueIds, Pruned, Has, EndsWith, LastOf, Ids;
    RememberQueue(bucket, version, limit);
    LastIds(bucket + [version], limit);
    AppendUnique(bucket, version);
    IdsRemembered(Ids(bucket), version.id.text, log, leasing, limit);
  }

  lemma KeyRemembered(bucket: seq<Version>, version: Version, pinned: set<string>, log: seq<string>, leasing: Leasing, limit: nat)
    requires KeyValid(bucket, pinned, log, leasing, limit) && GoodId(version.id) && !Has(bucket, version.id) && limit > 0
    ensures var after := Pruned(bucket + [version], pinned + {version.id.text}, limit);
      Has(after, version.id) && KeyValid(after, pinned, log + [version.id.text], leasing, limit)
  {
    hide BucketValid, Pruned, Has;
    RememberValid(bucket, version, pinned, limit);
    if pinned == {} {
      QueueRemembered(bucket, version, log, leasing, limit);
      assert pinned + {version.id.text} == {version.id.text};
    }
  }

  lemma Remembered(data: map<string, seq<Version>>, pins: map<Pin, nat>, history: History, limit: nat,
                   key: string, version: Version)
    requires StoreValid(data, pins, history, limit)
    requires GoodId(version.id) && !Has(BucketOf(data, key), version.id)
    ensures var bucket := Pruned(BucketOf(data, key) + [version], Pinned(pins, key) + {version.id.text}, limit);
      && Has(bucket, version.id)
      && StoreValid(data[key := bucket], pins,
                    history.(appended := history.appended[key := Appended(history, key) + [version.id.text]]), limit)
  {
    KeyOf(data, pins, history, limit, key);
    hide StoreValid, KeyValid, Pruned, Has;
    var bucket := Pruned(BucketOf(data, key) + [version], Pinned(pins, key) + {version.id.text}, limit);
    KeyRemembered(BucketOf(data, key), version, Pinned(pins, key), Appended(history, key), LeasingOf(history, key), limit);
    OneKey(data, pins, history, limit, key, bucket, Appended(history, key) + [version.id.text]);
  }

  lemma KeyLeased(bucket: seq<Version>, before: set<string>, pinned: set<string>, id: string,
                  log: seq<string>, leasing: Leasing, limit: nat)
    requires KeyValid(bucket, before, log, leasing, limit) && Has(bucket, Text(id))
    requires pinned == before + {id} && |pinned| >= |before|
    ensures KeyValid(bucket, pinned, log, Last(|log|), limit)
  {
    assert id in pinned;
  }

  lemma Leased(data: map<string, seq<Version>>, pins: map<Pin, nat>, history: History, limit: nat, pin: Pin)
    requires StoreValid(data, pins, history, limit)
    requires Has(BucketOf(data, pin.key), pin.id) && pin.id.Text?
    ensures StoreValid(data, AddPin(pins, pin), Marked(history, pin.key, history.leases + multiset{pin}), limit)
  {
    var pins', history' := AddPin(pins, pin), Marked(history, pin.key, history.leases + multiset{pin});
    PinsAdd(pins, history.leases, pin);
    forall key
      ensures KeyValid(BucketOf(data, key), Pinned(pins', key), Appended(history', key), LeasingOf(history', key), limit)
    {
      KeyOf(data, pins, history, limit, key);
      hide StoreValid, KeyValid, PinsCount, AddPin, Pinned;
      PinnedAdd(pins, pin, key);
      if key == pin.key {
        KeyLeased(BucketOf(data, key), Pinned(pins, key), Pinned(pins', key), pin.id.text,
                  Appended(history, key), LeasingOf(history, key), limit);
      }
    }
  }

  lemma LatestLeased(data: map<string, seq<Version>>, pins: map<Pin, nat>, history: History, limit: nat, key: string)
    requires StoreValid(data, pins, history, limit) && BucketOf(data, key) != []
    ensures var bucket := BucketOf(data, key);
      var pin := Pin(key, bucket[|bucket| - 1].id);
      && GoodId(pin.id)
      && StoreValid(data, AddPin(pins, pin), Marked(history, key, history.leases + multiset{pin}), limit)
  {
    var bucket := BucketOf(data, key);
    var latest := bucket[|bucket| - 1];
    assert KeyValid(bucket, Pinned(pins, key), Appended(history, key), LeasingOf(history, key), limit);
    assert latest in bucket && GoodId(latest.id);
    hide StoreValid, KeyValid;
    Leased(data, pins, history, limit, Pin(key, latest.id));
  }

  lemma PinnedAdd(pins: map<Pin, nat>, pin: Pin, key: string)
    ensures Pinned(AddPin(pins, pin), key) == Pinned(pins, key) + if pin.key == key && pin.id.Text? then {pin.id.text} else {}
    ensures |Pinned(AddPin(pins, pin), key)| >= |Pinned(pins, key)|
  {
    var before, after := Pinned(pins, key), Pinned(AddPin(pins, pin), key);
    forall id | id in before ensures id in after {
      var other :| other in pins && other.key == key && other.id == Text(id);
      assert other in AddPin(pins, pin);
    }
    if pin.key == key {
      assert pin in AddPin(pins, pin);
    }
    assert after == before + (after - before);
  }

  lemma PinnedRemove(pins: map<Pin, nat>, pin: Pin, key: string)
    ensures Pinned(RemovePin(pins, pin), key) <= Pinned(pins, key)
    ensures pin.key != key ==> Pinned(RemovePin(pins, pin), key) == Pinned(pins, key)
  {
    var after := RemovePin(pins, pin);
    forall id | id in Pinned(pins, key) && pin.key != key ensures id in Pinned(after, key) {
      var other :| other in pins && other.key == key && other.id == Text(id);
      assert other in after;
    }
  }

  lemma KeyReleased(bucket: seq<Version>, before: set<string>, pinned: set<string>, log: seq<string>, leasing: Leasing, limit: nat)
    requires KeyValid(bucket, before, log, leasing, limit) && pinned <= before
    ensures KeyValid(Pruned(bucket, pinned + {""}, limit), pinned, log, Last(|log|), limit)
  {
    hide BucketValid, Pruned;
    ReleaseValid(bucket, before, pinned, limit);
    assert LastOf(log[|log|..], limit) == [];
    EndsWithAll([], Ids(Pruned(bucket, pinned + {""}, limit)));
  }

  lemma Released(data: map<string, seq<Version>>, pins: map<Pin, nat>, history: History, limit: nat, pin: Pin)
    requires StoreValid(data, pins, history, limit) && pin in history.leases && GoodId(pin.id)
    ensures pin.key in data
    ensures var pins' := RemovePin(pins, pin);
      StoreValid(data[pin.key := Pruned(data[pin.key], Pinned(pins', pin.key) + {""}, limit)], pins',
                 Marked(history, pin.key, history.leases - multiset{pin}), limit)
  {
    var pins', history' := RemovePin(pins, pin), Marked(history, pin.key, history.leases - multiset{pin});
    PinsRemove(pins, history.leases, pin);
    LeasedStays(data, pins, history, limit, pin);
    var bucket := Pruned(data[pin.key], Pinned(pins', pin.key) + {""}, limit);
    forall key
      ensures KeyValid(BucketOf(data[pin.key := bucket], key), Pinned(pins', key), Appended(history', key),
                       LeasingOf(history', key), limit)
    {
      KeyOf(data, pins, history, limit, key);
      hide StoreValid, KeyValid, Pruned, PinsCount, RemovePin, Pinned;
      PinnedRemove(pins, pin, key);
      if key == pin.key {
        KeyReleased(data[key], Pinned(pins, key), Pinned(pins', key), Appended(history, key), LeasingOf(history, key), limit);
      }
    }
  }

  /** What the page analysis says: it raises, the leased selector matches once, it heals to a version, or neither. */
  datatype Analysis = Raises | MatchesOnce | Heals(version: Version) | Unresolved

  datatype ResolveStatus = Unknown | Stable | Healed | ReviewRequired | AnalysisRaised | KeyErrorRaised

  /** A leased version is in its bucket, whatever happened since the lease was taken. */
  lemma LeasedStays(data: map<string, seq<Version>>, pins: map<Pin, nat>, history: History, limit: nat, pin: Pin)
    requires StoreValid(data, pins, history, limit) && pin in history.leases
    ensures Has(BucketOf(data, pin.key), pin.id)
  {
    assert KeyValid(BucketOf(data, pin.key), Pinned(pins, pin.key), Appended(history, pin.key), LeasingOf(history, pin.key), limit);
    assert pin in pins && pin.id.text in Pinned(pins, pin.key);
  }

  function Counted(version: Version, success: bool, now: real): Version {
    version.(successes := version.successes + (if success then 1 else 0),
             failures := version.failures + (if success then 0 else 1), lastSeen := now)
  }

  // ----- A loaded store -----

  function LoadedIds(rows: map<string, seq<Version>>): map<string, seq<string>> {
    map key | key in rows :: Ids(rows[key])
  }

  /** Every bucket has unique ids, all of them strings and none empty, and is within the limit. */
  ghost predicate LoadedValid(rows: map<string, seq<Version>>, limit: nat) {
    forall key :: key in rows ==>
      UniqueIds(rows[key]) && |rows[key]| <= limit && GoodIds(rows[key])
  }

  /** The invariants hold of a store as it was loaded exactly if its rows meet them: `_load` does not look. */
  lemma LoadedStore(rows: map<string, seq<Version>>, limit: nat)
    requires limit >= 4
    ensures StoreValid(rows, map[], History(multiset{}, LoadedIds(rows), map[]), limit) <==> LoadedValid(rows, limit)
  {
    var history := History(multiset{}, LoadedIds(rows), map[]);
    forall key
      ensures KeyValid(BucketOf(rows, key), Pinned(map[], key), Appended(history, key), Never, limit)
        <==> (key !in rows || (UniqueIds(rows[key]) && |rows[key]| <= limit && GoodIds(rows[key])))
    {
      assert Pinned(map[], key) == {};
      if key !in rows {
        assert Ids(BucketOf(rows, key)) == [];
      }
    }
    if StoreValid(rows, map[], history, limit) {
      forall key | key in rows
        ensures UniqueIds(rows[key]) && |rows[key]| <= limit && GoodIds(rows[key])
      {
        assert KeyValid(BucketOf(rows, key), Pinned(map[], key), Appended(history, key), Never, limit);
      }
    }
  }

  ghost predicate FirstWith(bucket: seq<Version>, id: Id, i: int) {
    0 <= i < |bucket| && bucket[i].id == id && forall j :: 0 <= j < i ==> bucket[j].id != id
  }

  lemma PrunedMembers(bucket: seq<Version>, kept: set<string>, limit: nat)
    ensures forall version :: version in Pruned(bucket, kept, limit) ==> version in bucket
  {
    DropKeeps(bucket, kept, Excess(bucket, limit));
  }

  lemma PrunedCounts(loaded: map<string, seq<Version>>, events: seq<Event>, data: map<string, seq<Version>>,
                     key: string, kept: set<string>, limit: nat)
    requires CountsKept(loaded, events, data) && key in data
    ensures CountsKept(loaded, events, data[key := Pruned(data[key], kept, limit)])
  {
    hide Pruned, CountsKept;
    PrunedMembers(data[key], kept, limit);
    CountsPruned(loaded, events, data, key, Pruned(data[key], kept, limit));
  }

  lemma OneWithId(bucket: seq<Version>, i: nat)
    requires UniqueIds(bucket) && GoodIds(bucket) && i < |bucket|
    ensures forall j :: 0 <= j < |bucket| && j != i ==> bucket[j].id != bucket[i].id
  {
    forall j | 0 <= j < |bucket| && j != i ensures bucket[j].id != bucket[i].id {
      assert Ids(bucket)[j] != Ids(bucket)[i];
      assert bucket[j] in bucket && bucket[i] in bucket;
    }
  }

  lemma BucketFacts(data: map<string, seq<Version>>, pins: map<Pin, nat>, history: History, limit: nat, key: string)
    requires StoreValid(data, pins, history, limit)
    ensures UniqueIds(BucketOf(data, key)) && GoodIds(BucketOf(data, key))
  {
    KeyOf(data, pins, history, limit, key);
  }

  /** What this thread adds to the record, by what the page analysis says of the latest version. */
  ghost predicate Adds(key: string, latest: Version, answer: Analysis, own: seq<Event>) {
    match answer
    case Raises => own == []
    case MatchesOnce => own == [Recorded(key, latest.id, true)]
    case Heals(version) => own == [] || own == [Added(key, version.id)]
    case Unresolved => own == [Recorded(key, latest.id, false)]
  }

  lemma OnlyOwn(events: seq<Event>, earlier: seq<Event>, own: seq<Event>, later: seq<Event>)
    requires earlier == [] && later == []
    ensures events + earlier + own + later == events + own
  {
  }

  /** A lease that is given back leaves pins and leases as they were. */
  lemma LeaseEnds(pins: map<Pin, nat>, leases: multiset<Pin>, pin: Pin)
    requires PinsCount(pins, leases) && GoodId(pin.id)
    ensures RemovePin(AddPin(pins, pin), pin) == pins && leases + multiset{pin} - multiset{pin} == leases
  {
    LeaseBalanced(pins, leases, pin);
    TakeBack(leases, pin);
  }

  /** The status that the analysis leads to. */
  ghost function StatusOf(answer: Analysis): ResolveStatus {
    match answer
    case Raises => AnalysisRaised
    case MatchesOnce => Stable
    case Heals(_) => Healed
    case Unresolved => ReviewRequired
  }

  /** The version, if it is still there, has so many successes and failures more. */
  ghost predicate Moved(bucket: seq<Version>, latest: Version, successes: nat, failures: nat) {
    forall version :: version in bucket && version.id == latest.id ==>
      version.successes == latest.successes + successes && version.failures == latest.failures + failures
  }

  /** What that does to the counters of the leased version. */
  lemma OwnCounts(loaded: map<string, seq<Version>>, events: seq<Event>, data: map<string, seq<Version>>,
                  eventsNow: seq<Event>, dataNow: map<string, seq<Version>>,
                  key: string, latest: Version, answer: Analysis, own: seq<Event>)
    requires CountsKept(loaded, events, data) && CountsKept(loaded, eventsNow, dataNow) && eventsNow == events + own
    requires Adds(key, latest, answer, own) && latest in BucketOf(data, key)
    requires answer.Heals? && own != [] ==> answer.version.id != latest.id
    ensures Moved(BucketOf(dataNow, key), latest, if answer.MatchesOnce? then 1 else 0, if answer.Unresolved? then 1 else 0)
  {
    assert BucketTallied(loaded, events, key, BucketOf(data, key)) && Tallied(loaded, events, key, latest);
    forall version | version in BucketOf(dataNow, key) && version.id == latest.id
      ensures version.successes == latest.successes + (if answer.MatchesOnce? then 1 else 0)
      ensures version.failures == latest.failures + (if answer.Unresolved? then 1 else 0)
    {
      assert BucketTallied(loaded, eventsNow, key, BucketOf(dataNow, key)) && Tallied(loaded, eventsNow, key, version);
      if own == [] {
        assert events + own == events;
      } else {
        TallyMore(loaded, events, own[0], key, latest.id, true);
        TallyMore(loaded, events, own[0], key, latest.id, false);
      }
    }
  }

  /** A version that was just appended survives the pruning that protects its id. */
  lemma ProtectedStays(bucket: seq<Version>, version: Version, pinned: set<string>, limit: nat)
    ensures Has(Pruned(bucket + [version], pinned + {Shown(version.id)}, limit), version.id)
  {
    DropKeeps(bucket + [version], pinned + {Shown(version.id)}, Excess(bucket + [version], limit));
    HasMember(Pruned(bucket + [version], pinned + {Shown(version.id)}, limit), version.id);
    assert version in bucket + [version];
  }

  class AdaptiveSelectorStore {
    const maxVersions: nat
    const loaded: map<string, seq<Version>>
    var data: map<string, seq<Version>>
    var pins: map<Pin, nat>
    var history: History

    /** Every version that was added and every outcome that was recorded. */
    var events: seq<Event>

    ghost predicate Valid()
      reads this
    {
      StoreValid(data, pins, history, maxVersions) && CountsKept(loaded, events, data)
    }

    /** `rows` is what `_load` read: nothing for a file that is missing or unreadable, and otherwise any lists. */
    constructor (rows: map<string, seq<Version>>, maxVersions: int := 128)
      ensures data == loaded == rows && pins == map[] && events == [] && history == History(multiset{}, LoadedIds(rows), map[])
      ensures this.maxVersions == if maxVersions < 4 then 4 else if maxVersions > 2048 then 2048 else maxVersions
      ensures Valid() <==> LoadedValid(rows, this.maxVersions)
    {
      var limit := if maxVersions < 4 then 4 else if maxVersions > 2048 then 2048 else maxVersions;
      LoadedStore(rows, limit);
      if LoadedValid(rows, limit) {
        CountsLoaded(rows);
      }
      hide StoreValid, LoadedValid, CountsKept;
      this.maxVersions := limit;
      loaded, data, events := rows, rows, [];
      pins := map[];
      history := History(multiset{}, LoadedIds(rows), map[]);
    }

    method Find(key: string, id: Id) returns (index: int)
      ensures index >= 0 ==> key in data && FirstWith(data[key], id, index)
      ensures index < 0 ==> !Has(BucketOf(data, key), id)
    {
      var bucket := BucketOf(data, key);
      index := 0;
      while index < |bucket|
        invariant 0 <= index <= |bucket|
        invariant forall i :: 0 <= i < index ==> bucket[i].id != id
      {
        if bucket[index].id == id {
          return;
        }
        index := index + 1;
      }
      index := -1;
    }

    /** `_prune_locked`: while the bucket is too long, its first removable version goes. */
    method Prune(key: string, bucket: seq<Version>, protectedId: string) returns (pruned: seq<Version>)
      ensures pruned == Pruned(bucket, Pinned(pins, key) + {protectedId}, maxVersions)
    {
      ghost var kept := Pinned(pins, key) + {protectedId};
      ghost var whole := DropUnkept(bucket, kept, Excess(bucket, maxVersions));
      pruned := bucket;
      while |pruned| > maxVersions
        invariant DropUnkept(pruned, kept, Excess(pruned, maxVersions)) == whole
      {
        var removable := 0;
        while removable < |pruned| && (Shown(pruned[removable].id) == protectedId || Pin(key, Text(Shown(pruned[removable].id))) in pins)
          invariant 0 <= removable <= |pruned|
          invariant forall i :: 0 <= i < removable ==> Shown(pruned[i].id) in kept
        {
          ghost var shown := Shown(pruned[removable].id);
          assert Pin(key, Text(shown)) in pins ==> shown in kept;
          removable := removable + 1;
        }
        if removable == |pruned| {
          DropNothing(pruned, kept, Excess(pruned, maxVersions));
          break;
        }
        DropFirst(pruned, kept, Excess(pruned, maxVersions), removable);
        pruned := Without(pruned, removable);
      }
    }

    /** `remember`: a known version is only touched; a new one is appended and the bucket pruned. */
    method Remember(key: string, version: Version, now: real)
      requires Unused(version)
      modifies this`data, this`history, this`events
      ensures old(Valid()) ==> Valid()
      ensures Has(BucketOf(data, key), version.id)
      ensures history.leases == old(history.leases) && history.marks == old(history.marks)
      ensures Has(BucketOf(old(data), key), version.id) ==> history == old(history) && events == old(events) && exists i :: (
        && FirstWith(BucketOf(old(data), key), version.id, i)
        && data == old(data)[key := BucketOf(old(data), key)[i := BucketOf(old(data), key)[i].(lastSeen := now)]])
      ensures !Has(BucketOf(old(data), key), version.id) ==>
        && data == old(data)[key :=
          Pruned(BucketOf(old(data), key) + [version], Pinned(pins, key) + {version.id.text}, maxVersions)]
        && Appended(history, key) == Appended(old(history), key) + [version.id.text]
        && events == old(events) + [Added(key, version.id)]
    {
      hide StoreValid, Pruned, CountsKept;
      var index := Find(key, version.id);
      if index >= 0 {
        var touched := data[key][index].(lastSeen := now);
        if Valid() {
          Touched(data, pins, history, maxVersions, key, index, touched);
          CountsTouched(loaded, events, data, key, index, touched);
        }
        assert data[key][index := touched][index].id == version.id;
        data := data[key := data[key][index := touched]];
      } else {
        ghost var longer := data[key := BucketOf(data, key) + [version]];
        ghost var after := Pruned(longer[key], Pinned(pins, key) + {version.id.text}, maxVersions);
        if Valid() {
          Remembered(data, pins, history, maxVersions, key, version);
          CountsAdded(loaded, events, data, key, version);
          PrunedMembers(longer[key], Pinned(pins, key) + {version.id.text}, maxVersions);
          CountsPruned(loaded, events + [Added(key, version.id)], longer, key, after);
          assert longer[key := after] == data[key := after];
        }
        ProtectedStays(BucketOf(data, key), version, Pinned(pins, key), maxVersions);
        var pruned := Prune(key, BucketOf(data, key) + [version], version.id.text);
        data := data[key := pruned];
        history := history.(appended := history.appended[key := Appended(history, key) + [version.id.text]]);
        events := events + [Added(key, version.id)];
      }
    }

    /** `versions_lease` on entry: a snapshot of the bucket, with its latest version pinned. */
    method Enter(key: string) returns (versions: seq<Version>)
      modifies this`pins
      ensures versions == BucketOf(data, key)
      ensures pins == if versions == [] then old(pins) else AddPin(old(pins), Pin(key, versions[|versions| - 1].id))
    {
      versions := BucketOf(data, key);
      if versions != [] {
        pins := AddPin(pins, Pin(key, versions[|versions| - 1].id));
      }
    }

    /**
     * `versions_lease` on exit: one pin less, and the bucket may shrink to its limit again; nothing at all for an
     * id that does not count as true.
     */
    method Leave(pin: Pin)
      modifies this`data, this`pins
      ensures pins == RemovePin(old(pins), pin)
      ensures data == if !Truthy(pin.id) || pin.key !in old(data) then old(data)
        else old(data)[pin.key := Pruned(old(data)[pin.key], Pinned(pins, pin.key) + {""}, maxVersions)]
    {
      if Truthy(pin.id) {
        pins := RemovePin(pins, pin);
        if pin.key in data {
          var pruned := Prune(pin.key, data[pin.key], "");
          data := data[pin.key := pruned];
        }
      }
    }

    /**
     * A lease without other threads leaves the pin table as it was exactly if there was no version, or the latest
     * has an id that counts as true.
     */
    method LeaseAlone(key: string)
      requires PinsCount(pins, history.leases)
      modifies this`data, this`pins
      ensures var bucket := old(BucketOf(data, key));
        pins == old(pins) <==> bucket == [] || Truthy(bucket[|bucket| - 1].id)
    {
      hide Pruned;
      var versions := Enter(key);
      if versions != [] {
        var pin := Pin(key, versions[|versions| - 1].id);
        LeaseBalanced(old(pins), history.leases, pin);
        Leave(pin);
      }
    }

    /** Entering a lease on a valid store. */
    method Acquire(key: string) returns (versions: seq<Version>)
      requires Valid()
      modifies this`pins, this`history
      ensures Valid() && versions == BucketOf(data, key)
      ensures versions == [] ==> pins == old(pins) && history == old(history)
      ensures versions != [] ==>
        var pin := Pin(key, versions[|versions| - 1].id);
        && GoodId(pin.id)
        && pins == AddPin(old(pins), pin)
        && history == Marked(old(history), key, old(history.leases) + multiset{pin})
        && history.leases == old(history.leases) + multiset{pin}
    {
      hide StoreValid, AddPin, CountsKept;
      if BucketOf(data, key) != [] {
        LatestLeased(data, pins, history, maxVersions, key);
      }
      versions := Enter(key);
      if versions != [] {
        var pin := Pin(key, versions[|versions| - 1].id);
        history := Marked(history, key, history.leases + multiset{pin});
      }
    }

    /** Leaving a lease on a valid store. */
    method Release(pin: Pin)
      requires Valid() && pin in history.leases && GoodId(pin.id)
      modifies this`data, this`pins, this`history
      ensures Valid() && pins == RemovePin(old(pins), pin)
      ensures history == Marked(old(history), pin.key, old(history.leases) - multiset{pin})
    {
      hide StoreValid, Pruned, RemovePin, CountsKept, Pinned;
      Released(data, pins, history, maxVersions, pin);
      PrunedCounts(loaded, events, data, pin.key, Pinned(RemovePin(pins, pin), pin.key) + {""}, maxVersions);
      Leave(pin);
      history := Marked(history, pin.key, history.leases - multiset{pin});
    }

    /** `record_result`; false stands for the `KeyError`. */
    method RecordResult(key: string, id: Id, success: bool, now: real) returns (found: bool)
      modifies this`data, this`events
      ensures old(Valid()) ==> Valid()
      ensures found <==> Has(BucketOf(old(data), key), id)
      ensures !found ==> data == old(data) && events == old(events)
      ensures found ==> events == old(events) + [Recorded(key, id, success)]
      ensures found ==> exists i :: (
        && FirstWith(BucketOf(old(data), key), id, i)
        && data == old(data)[key := BucketOf(old(data), key)[i := Counted(BucketOf(old(data), key)[i], success, now)]])
    {
      hide StoreValid, CountsKept;
      var index := Find(key, id);
      found := index >= 0;
      if found {
        var counted := Counted(data[key][index], success, now);
        if Valid() {
          BucketFacts(data, pins, history, maxVersions, key);
          OneWithId(data[key], index);
          CountsRecorded(loaded, events, data, key, index, counted, success);
          Touched(data, pins, history, maxVersions, key, index, counted);
        }
        data := data[key := data[key][index := counted]];
        events := events + [Recorded(key, id, success)];
      }
    }

    /** A number of steps of other threads, none of which gives back the leases in `mine`. */
    method Interfere(mine: multiset<Pin>, steps: nat)
      requires Valid() && mine <= history.leases
      modifies this
      ensures Valid() && mine <= history.leases
      ensures old(events) <= events
      ensures steps == 0 ==> data == old(data) && pins == old(pins) && history == old(history) && events == old(events)
    {
      hide StoreValid, CountsKept;
      var left := steps;
      while left > 0
        invariant Valid() && mine <= history.leases && old(events) <= events
        invariant steps == 0 ==> data == old(data) && pins == old(pins) && history == old(history) && events == old(events)
      {
        var key: string := *;
        var now: real := *;
        var remembers: bool := *;
        var records: bool := *;
        var acquires: bool := *;
        if remembers {
          var version: Version := *;
          if Unused(version) {
            Remember(key, version, now);
          }
        } else if records {
          var id: Id := *;
          var success: bool := *;
          var _ := RecordResult(key, id, success, now);
        } else if acquires {
          var _ := Acquire(key);
        } else {
          var pin: Pin := *;
          if pin in history.leases - mine && GoodId(pin.id) {
            Release(pin);
          }
        }
        left := left - 1;
      }
    }

    /** The step of this thread between its two critical sections for the lease. */
    method Apply(key: string, latest: Version, answer: Analysis, now: real) returns (status: ResolveStatus, ghost own: seq<Event>)
      requires Valid() && Pin(key, latest.id) in history.leases && (answer.Heals? ==> Unused(answer.version))
      modifies this`data, this`history, this`events
      ensures Valid() && history.leases == old(history.leases) && status == StatusOf(answer)
      ensures events == old(events) + own && Adds(key, latest, answer, own)
      ensures answer.Heals? ==> Has(BucketOf(data, key), answer.version.id)
      ensures answer.Heals? ==> (own == [] <==> Has(BucketOf(old(data), key), answer.version.id))
    {
      LeasedStays(data, pins, history, maxVersions, Pin(key, latest.id));
      hide StoreValid, CountsKept;
      own := [];
      match answer {
        case Raises =>
          status := AnalysisRaised;
        case MatchesOnce =>
          status := Stable;
          var found := RecordResult(key, latest.id, true, now);
          if !found {
            status := KeyErrorRaised;
          }
          own := [Recorded(key, latest.id, true)];
        case Heals(version) =>
          status := Healed;
          own := if Has(BucketOf(data, key), version.id) then [] else [Added(key, version.id)];
          Remember(key, version, now);
        case Unresolved =>
          status := ReviewRequired;
          var found := RecordResult(key, latest.id, false, now);
          if !found {
            status := KeyErrorRaised;
          }
          own := [Recorded(key, latest.id, false)];
      }
    }

    /** What happens while the lease is held, and its end. */
    method WhileLeased(key: string, latest: Version, answer: Analysis, before: nat, after: nat, now: real)
      returns (status: ResolveStatus, ghost earlier: seq<Event>, ghost own: seq<Event>, ghost later: seq<Event>)
      requires Valid() && Pin(key, latest.id) in history.leases && GoodId(latest.id) && (answer.Heals? ==> Unused(answer.version))
      modifies this
      ensures Valid() && status == StatusOf(answer)
      ensures events == old(events) + earlier + own + later && Adds(key, latest, answer, own)
      ensures (before == 0 ==> earlier == []) && (after == 0 ==> later == [])
      ensures before == 0 && after == 0 ==>
        && pins == RemovePin(old(pins), Pin(key, latest.id))
        && history.leases == old(history.leases) - multiset{Pin(key, latest.id)}
        && (answer.Heals? && own != [] ==> !Has(BucketOf(old(data), key), answer.version.id))
    {
      hide StoreValid, CountsKept, Adds, RemovePin, Has;
      var pin := Pin(key, latest.id);
      Interfere(multiset{pin}, before);
      earlier := events[|old(events)|..];
      ghost var start := events;
      status, own := Apply(key, latest, answer, now);
      ghost var applied := events;
      Interfere(multiset{pin}, after);
      later := events[|applied|..];
      assert events == start + own + later && start == old(events) + earlier;
      Release(pin);
    }

    /** The same for the latest version; without other threads its counters move by what was recorded. */
    method UseLatest(key: string, latest: Version, answer: Analysis, before: nat, after: nat, now: real)
      returns (status: ResolveStatus, ghost earlier: seq<Event>, ghost own: seq<Event>, ghost later: seq<Event>)
      requires Valid() && Pin(key, latest.id) in history.leases && GoodId(latest.id) && (answer.Heals? ==> Unused(answer.version))
      requires latest in BucketOf(data, key)
      modifies this
      ensures Valid() && status == StatusOf(answer)
      ensures events == old(events) + earlier + own + later && Adds(key, latest, answer, own)
      ensures (before == 0 ==> earlier == []) && (after == 0 ==> later == [])
      ensures before == 0 && after == 0 ==>
        && pins == RemovePin(old(pins), Pin(key, latest.id))
        && history.leases == old(history.leases) - multiset{Pin(key, latest.id)}
        && Moved(BucketOf(data, key), latest, if answer.MatchesOnce? then 1 else 0, if answer.Unresolved? then 1 else 0)
    {
      hide StoreValid, CountsKept, Adds, RemovePin, Has, Moved;
      status, earlier, own, later := WhileLeased(key, latest, answer, before, after, now);
      if before == 0 && after == 0 {
        OnlyOwn(old(events), earlier, own, later);
        HasMember(old(BucketOf(data, key)), latest.id);
        OwnCounts(loaded, old(events), old(data), events, data, key, latest, answer, own);
      }
    }

    /**
     * `AdaptiveExtractionEngine.resolve` as a client: other threads run `before` and `after` its own step between
     * the critical sections.  It records one success of the leased version if that matched once, one failure if
     * the page needs review, a version if it healed, and nothing else; and it never raises `KeyError`.
     */
    method Resolve(key: string, answer: Analysis, before: nat, after: nat, now: real)
      returns (status: ResolveStatus, ghost earlier: seq<Event>, ghost own: seq<Event>, ghost later: seq<Event>)
      requires Valid() && (answer.Heals? ==> Unused(answer.version))
      modifies this
      ensures Valid()
      ensures BucketOf(old(data), key) == [] ==> status == Unknown && data == old(data) && pins == old(pins) && events == old(events)
      ensures BucketOf(old(data), key) != [] ==>
        var latest := BucketOf(old(data), key)[|BucketOf(old(data), key)| - 1];
        && status == (match answer
          case Raises => AnalysisRaised case MatchesOnce => Stable case Heals(_) => Healed case Unresolved => ReviewRequired)
        && events == old(events) + earlier + own + later && Adds(key, latest, answer, own)
        && (before == 0 ==> earlier == []) && (after == 0 ==> later == [])
      ensures before == 0 && after == 0 ==> pins == old(pins) && history.leases == old(history.leases)
      ensures before == 0 && after == 0 && BucketOf(old(data), key) != [] ==>
        var latest := BucketOf(old(data), key)[|BucketOf(old(data), key)| - 1];
        Moved(BucketOf(data, key), latest, if status == Stable then 1 else 0, if status == ReviewRequired then 1 else 0)
    {
      PinsOf(data, pins, history, maxVersions);
      hide Valid, Adds, AddPin, RemovePin, PinsCount, Moved, Marked, GoodId, Unused;
      status, earlier, own, later := Unknown, [], [], [];
      var versions := Acquire(key);
      if versions == [] {
        return;
      }
      var latest := versions[|versions| - 1];
      LeaseEnds(old(pins), old(history.leases), Pin(key, latest.id));
      status, earlier, own, later := UseLatest(key, latest, answer, before, after, now);
    }
  }

  /** A store file with a version whose id does not count as true: using it once leaves a pin that nothing removes. */
  method LeakedPin(key: string, version: Version) returns (store: AdaptiveSelectorStore)
    requires !Truthy(version.id)
    ensures fresh(store) && store.pins == map[Pin(key, version.id) := 1]
  {
    store := new AdaptiveSelectorStore(map[key := [version]]);
    var versions := store.Enter(key);
    assert versions == [version];
    store.Leave(Pin(key, version.id));
  }

  lemma PushedOut(version: Version, newer: seq<Version>, i: nat)
    requires version.id.Other? && |newer| == 4 && GoodIds(newer) && UniqueIds(newer) && i < 4
    requires Shown(newer[3].id) != version.id.shown
    ensures newer[i] in newer && GoodId(newer[i].id) && !Has([version] + newer[..i], newer[i].id)
    ensures Pruned(([version] + newer[..i]) + [newer[i]], {newer[i].id.text}, 4)
      == if i < 3 then [version] + newer[..i + 1] else newer
    ensures !Has(newer, version.id)
  {
    assert newer[i] in newer;
    forall j | 0 <= j < i ensures newer[j].id != newer[i].id {
      assert Ids(newer)[j] != Ids(newer)[i];
    }
    var bucket := ([version] + newer[..i]) + [newer[i]];
    assert bucket == [version] + newer[..i + 1];
    if i == 3 {
      DropPrefix(bucket, {newer[i].id.text}, 1);
    }
    forall j | 0 <= j < 4 ensures newer[j].id != version.id {
      assert newer[j] in newer;
    }
  }

  /**
   * A store file with a version whose id is not a string: while it is leased, four new versions push it out, and
   * recording its result fails.
   */
  method LeasedButPruned(key: string, version: Version, newer: seq<Version>, now: real)
    returns (leased: seq<Version>, found: bool)
    requires version.id.Other? && |newer| == 4 && UniqueIds(newer) && Shown(newer[3].id) != version.id.shown
    requires forall each :: each in newer ==> Unused(each)
    ensures leased == [version] && !found
  {
    assert GoodIds(newer) && newer[0] in newer && newer[1] in newer && newer[2] in newer && newer[3] in newer;
    var store := new AdaptiveSelectorStore(map[key := [version]], 4);
    leased := store.Enter(key);
    PinnedAdd(map[], Pin(key, version.id), key);
    assert Pinned(store.pins, key) == {};
    hide Pruned, Has, StoreValid, GoodIds, UniqueIds, FirstWith, Pinned, AddPin;
    for i := 0 to 3
      invariant store.maxVersions == 4 && Pinned(store.pins, key) == {}
      invariant BucketOf(store.data, key) == [version] + newer[..i]
    {
      PushedOut(version, newer, i);
      assert {} + {newer[i].id.text} == {newer[i].id.text};
      store.Remember(key, newer[i], now);
    }
    PushedOut(version, newer, 3);
    assert {} + {newer[3].id.text} == {newer[3].id.text};
    store.Remember(key, newer[3], now);
    found := store.RecordResult(key, version.id, true, now);
  }
}
