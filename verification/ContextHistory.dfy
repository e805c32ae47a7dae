/** What one browser worker was asked for, and which session contexts that leaves cached. */
module ContextHistory {
  import opened Sequences

  type Session = string

  /** A cached context: contexts are numbered in the order they are created. */
  datatype Slot = Slot(session: Session, context: nat, profile: string)

  datatype Event =
    | Used(session: Session, profile: string)   // the session's context was handed out
    | Dropped(session: Session)                 // its profile changed, and replacing the context failed
    | Cleared                                   // the worker closed

  function Sessions(cache: seq<Slot>): seq<Session> {
    seq(|cache|, i requires 0 <= i < |cache| => cache[i].session)
  }

  function Contexts(cache: seq<Slot>): seq<nat> {
    seq(|cache|, i requires 0 <= i < |cache| => cache[i].context)
  }

  function Others(cache: seq<Slot>, session: Session): seq<Slot> {
    if cache == [] then []
    else if cache[0].session == session then Others(cache[1..], session)
    else [cache[0]] + Others(cache[1..], session)
  }

  ghost function Remove(sessions: seq<Session>, session: Session): seq<Session> {
    if sessions == [] then []
    else if sessions[0] == session then Remove(sessions[1..], session)
    else [sessions[0]] + Remove(sessions[1..], session)
  }

  /** The sessions in use, the most recently used one last. */
  ghost function Recents(history: seq<Event>): seq<Session> {
    if history == [] then []
    else
      var before := Recents(history[..|history| - 1]);
      match history[|history| - 1]
      case Used(session, _) => Remove(before, session) + [session]
      case Dropped(session) => Remove(before, session)
      case Cleared => []
  }

  /** The profile a session last asked for. */
  ghost function LastProfile(history: seq<Event>, session: Session): string {
    if history == [] then ""
    else
      var last := history[|history| - 1];
      if last.Used? && last.session == session then last.profile
      else LastProfile(history[..|history| - 1], session)
  }

  ghost predicate NothingDropped(history: seq<Event>) {
    forall event :: event in history ==> !event.Dropped?
  }

  lemma DistinctTail(first: Session, rest: seq<Session>)
    ensures Distinct([first] + rest) <==> first !in rest && Distinct(rest)
  {
    var items := [first] + rest;
    if Distinct(items) {
      assert forall i :: 0 <= i < |rest| ==> rest[i] == items[i + 1] && items[0] != items[i + 1];
    }
  }

  lemma {:induction false} RemoveMeans(sessions: seq<Session>, session: Session)
    ensures forall other :: other in Remove(sessions, session) <==> other in sessions && other != session
    ensures |Remove(sessions, session)| <= |sessions|
    ensures Distinct(sessions) ==> Distinct(Remove(sessions, session))
    ensures Distinct(sessions) && session in sessions ==> |Remove(sessions, session)| == |sessions| - 1
    ensures session !in sessions ==> Remove(sessions, session) == sessions
  {
    if sessions != [] {
      var first, rest := sessions[0], sessions[1..];
      assert sessions == [first] + rest;
      RemoveMeans(rest, session);
      if Distinct(sessions) {
        DistinctTail(first, rest);
        if first != session {
          DistinctTail(first, Remove(rest, session));
        }
      }
    }
  }

  lemma {:induction false} RemoveAppend(earlier: seq<Session>, later: seq<Session>, session: Session)
    ensures Remove(earlier + later, session) == Remove(earlier, session) + Remove(later, session)
  {
    if earlier == [] {
      assert earlier + later == later;
    } else {
      assert (earlier + later)[1..] == earlier[1..] + later;
      RemoveAppend(earlier[1..], later, session);
    }
  }

  lemma SessionsCons(first: Slot, rest: seq<Slot>)
    ensures Sessions([first] + rest) == [first.session] + Sessions(rest)
  {
  }

  lemma {:induction false} OthersSessions(cache: seq<Slot>, session: Session)
    ensures Sessions(Others(cache, session)) == Remove(Sessions(cache), session)
    ensures forall slot :: slot in Others(cache, session) <==> slot in cache && slot.session != session
  {
    if cache != [] {
      var first, rest := cache[0], cache[1..];
      assert cache == [first] + rest;
      OthersSessions(rest, session);
      SessionsCons(first, rest);
      SessionsCons(first, Others(rest, session));
      hide Sessions;
      assert Others(cache, session) == if first.session == session then Others(rest, session) else [first] + Others(rest, session);
    }
  }

  lemma {:induction false} RecentsDistinct(history: seq<Event>)
    ensures Distinct(Recents(history))
  {
    if history != [] {
      var before, last := history[..|history| - 1], history[|history| - 1];
      RecentsDistinct(before);
      if !last.Cleared? {
        RemoveMeans(Recents(before), last.session);
      }
    }
  }

  // ----- Recents is the order of last uses -----

  /** The last use of the session that nothing dropped or cleared since; -1 if there is none. */
  ghost function LastUse(history: seq<Event>, session: Session): int {
    if history == [] then -1
    else
      var last := |history| - 1;
      match history[last]
      case Used(other, _) => if other == session then last else LastUse(history[..last], session)
      case Dropped(other) => if other == session then -1 else LastUse(history[..last], session)
      case Cleared => -1
  }

  ghost predicate ByLastUse(history: seq<Event>, sessions: seq<Session>) {
    sessions != [] ==>
      && LastUse(history, sessions[0]) >= 0
      && (forall later :: later in sessions[1..] ==> LastUse(history, sessions[0]) < LastUse(history, later))
      && ByLastUse(history, sessions[1..])
  }

  lemma LastUseBound(history: seq<Event>, session: Session)
    ensures LastUse(history, session) < |history|
  {
  }

  /** A new event moves one session to the end; the others keep their order. */
  lemma {:induction false} RemoveKeepsOrder(history: seq<Event>, event: Event, sessions: seq<Session>)
    requires ByLastUse(history, sessions) && !event.Cleared?
    ensures ByLastUse(history + [event], Remove(sessions, event.session))
  {
    if sessions != [] {
      assert (history + [event])[..|history|] == history;
      RemoveKeepsOrder(history, event, sessions[1..]);
      RemoveMeans(sessions[1..], event.session);
    }
  }

  lemma {:induction false} AppendLatest(history: seq<Event>, sessions: seq<Session>, latest: Session)
    requires ByLastUse(history, sessions)
    requires LastUse(history, latest) >= 0
    requires forall session :: session in sessions ==> LastUse(history, session) < LastUse(history, latest)
    ensures ByLastUse(history, sessions + [latest])
  {
    if sessions != [] {
      AppendLatest(history, sessions[1..], latest);
      assert (sessions + [latest])[1..] == sessions[1..] + [latest];
    }
  }

  /** `Recents` lists exactly the sessions in use, in the order of their last uses. */
  lemma {:induction false} RecentsByLastUse(history: seq<Event>)
    ensures ByLastUse(history, Recents(history))
    ensures forall session :: session in Recents(history) <==> LastUse(history, session) >= 0
  {
    if history != [] {
      var before, last := history[..|history| - 1], history[|history| - 1];
      assert history == before + [last];
      RecentsByLastUse(before);
      if !last.Cleared? {
        RemoveKeepsOrder(before, last, Recents(before));
        RemoveMeans(Recents(before), last.session);
        if last.Used? {
          forall session ensures LastUse(before, session) < |before| { LastUseBound(before, session); }
          AppendLatest(history, Remove(Recents(before), last.session), last.session);
        }
      }
    }
  }

  /** A session that is listed was used. */
  lemma {:induction false} RecentsUsed(history: seq<Event>, session: Session)
    requires session in Recents(history)
    ensures exists event :: event in history && event.Used? && event.session == session
  {
    var before, last := history[..|history| - 1], history[|history| - 1];
    if !last.Cleared? {
      RemoveMeans(Recents(before), last.session);
      if !last.Used? || last.session != session {
        RecentsUsed(before, session);
      }
    }
    assert last in history;
  }

  // ----- The cache follows the history -----

  ghost function Fitting(sessions: seq<Session>, limit: nat): nat {
    if |sessions| <= limit then |sessions| else limit
  }

  /**
   * How many sessions the cache is short of the most recent ones that would fit.  A failed profile change opens
   * a gap if more sessions are in use than fit; using a session that is not cached closes one again.
   */
  ghost function Gap(history: seq<Event>, limit: nat): nat {
    if history == [] then 0
    else
      var before := history[..|history| - 1];
      NextGap(Recents(before), Gap(before, limit), history[|history| - 1], limit)
  }

  ghost function NextGap(recents: seq<Session>, gap: nat, event: Event, limit: nat): nat {
    if event.Cleared? then 0
    else if Kept(recents, gap, limit, event.session) then
      if event.Dropped? && |recents| > limit then gap + 1 else gap
    else if gap == 0 then 0
    else if event.Used? then
      if event.session !in recents && |recents| < limit then gap else gap - 1
    else
      if event.session in recents && |recents| <= limit then gap - 1 else gap
  }

  /** The session is one of the recent ones that are cached. */
  ghost predicate Kept(recents: seq<Session>, gap: nat, limit: nat, session: Session) {
    var count := Fitting(recents, limit) - gap;
    count > 0 && session in LastOf(recents, count)
  }

  /** The cache holds the most recently used sessions but the missing ones, each with the profile it last asked for. */
  ghost predicate Follows(cache: seq<Slot>, history: seq<Event>, limit: nat) {
    && EndsWith(Recents(history), Sessions(cache))
    && (forall slot :: slot in cache ==> slot.profile == LastProfile(history, slot.session))
    && |cache| == Fitting(Recents(history), limit) - Gap(history, limit)
  }

  /** A suffix is the last `limit` items exactly if it is that long or leaves nothing out. */
  lemma SuffixIsLast<T>(items: seq<T>, suffix: seq<T>, limit: nat)
    requires EndsWith(items, suffix) && |suffix| <= limit
    ensures suffix == LastOf(items, limit) <==> |suffix| == limit || |suffix| == |items|
  {
  }

  /** The cached sessions are exactly the most recent ones that fit if and only if there is no gap. */
  lemma CachesMostRecent(cache: seq<Slot>, history: seq<Event>, limit: nat)
    requires Follows(cache, history, limit)
    ensures Sessions(cache) == LastOf(Recents(history), limit) <==> Gap(history, limit) == 0
  {
    SuffixIsLast(Recents(history), Sessions(cache), limit);
  }

  /** Without failed profile changes no gap opens. */
  lemma {:induction false} NoGap(history: seq<Event>, limit: nat)
    requires NothingDropped(history)
    ensures Gap(history, limit) == 0
  {
    if history != [] {
      NoGap(history[..|history| - 1], limit);
      assert history[|history| - 1] in history;
    }
  }

  lemma GapStep(history: seq<Event>, event: Event, limit: nat)
    ensures Gap(history + [event], limit) == NextGap(Recents(history), Gap(history, limit), event, limit)
  {
    assert (history + [event])[..|history|] == history;
  }

  /** The last items of a list are a suffix of it, and the only one of their length. */
  lemma SuffixOf<T>(items: seq<T>, suffix: seq<T>)
    requires EndsWith(items, suffix)
    ensures suffix == LastOf(items, |suffix|)
  {
  }

  lemma KeptIsCached(cache: seq<Slot>, history: seq<Event>, limit: nat, session: Session)
    requires Follows(cache, history, limit)
    ensures Kept(Recents(history), Gap(history, limit), limit, session) <==> session in Sessions(cache)
  {
    SuffixOf(Recents(history), Sessions(cache));
  }

  /** `_context_for` as it changes the cache: the session's context goes last, and the first ones leave. */
  function WithUsed(cache: seq<Slot>, slot: Slot, limit: nat): seq<Slot> {
    LastOf(Others(cache, slot.session) + [slot], limit)
  }

  lemma RecentsStep(history: seq<Event>, event: Event)
    ensures Recents(history + [event]) ==
      if event.Cleared? then []
      else Remove(Recents(history), event.session) + if event.Used? then [event.session] else []
  {
    assert (history + [event])[..|history|] == history;
  }

  lemma EndsWithSplit<T>(items: seq<T>, suffix: seq<T>)
    requires EndsWith(items, suffix)
    ensures items == items[..|items| - |suffix|] + suffix
  {
  }

  lemma EndsWithAppended<T>(earlier: seq<T>, suffix: seq<T>, last: T)
    ensures EndsWith(earlier + suffix, suffix)
    ensures EndsWith((earlier + suffix) + [last], suffix + [last])
  {
  }

  /** The cache before anything leaves it is a suffix of the new recents. */
  lemma UsedSuffix(cache: seq<Slot>, history: seq<Event>, slot: Slot)
    requires EndsWith(Recents(history), Sessions(cache))
    ensures EndsWith(Recents(history + [Used(slot.session, slot.profile)]), Sessions(Others(cache, slot.session) + [slot]))
    ensures EndsWith(Remove(Recents(history), slot.session), Sessions(Others(cache, slot.session)))
    ensures Recents(history + [Used(slot.session, slot.profile)]) == Remove(Recents(history), slot.session) + [slot.session]
  {
    var event := Used(slot.session, slot.profile);
    var recents, cached := Recents(history), Sessions(cache);
    var earlier := recents[..|recents| - |cached|];
    RecentsStep(history, event);
    EndsWithSplit(recents, cached);
    RemoveAppend(earlier, cached, slot.session);
    OthersSessions(cache, slot.session);
    EndsWithAppended(Remove(earlier, slot.session), Remove(cached, slot.session), slot.session);
    assert Sessions(Others(cache, slot.session) + [slot]) == Sessions(Others(cache, slot.session)) + [slot.session];
  }

  lemma LastProfiles(cache: seq<Slot>, history: seq<Event>, event: Event)
    requires forall slot :: slot in cache ==> slot.profile == LastProfile(history, slot.session)
    ensures !event.Used? ==> forall slot :: slot in cache ==> slot.profile == LastProfile(history + [event], slot.session)
    ensures event.Used? ==> forall slot :: slot in cache && slot.session != event.session ==>
      slot.profile == LastProfile(history + [event], slot.session)
    ensures event.Used? ==> LastProfile(history + [event], event.session) == event.profile
  {
    assert (history + [event])[..|history|] == history;
  }

  lemma SessionsLastOf(cache: seq<Slot>, limit: nat)
    ensures Sessions(LastOf(cache, limit)) == LastOf(Sessions(cache), limit)
    ensures |LastOf(cache, limit)| == (if |cache| <= limit then |cache| else limit)
    ensures forall slot :: slot in LastOf(cache, limit) ==> slot in cache
  {
  }

  lemma ProfilesUsed(cache: seq<Slot>, history: seq<Event>, slot: Slot)
    requires forall cached :: cached in cache ==> cached.profile == LastProfile(history, cached.session)
    ensures forall cached :: cached in Others(cache, slot.session) + [slot] ==>
      cached.profile == LastProfile(history + [Used(slot.session, slot.profile)], cached.session)
  {
    OthersSessions(cache, slot.session);
    LastProfiles(cache, history, Used(slot.session, slot.profile));
  }

  lemma FollowsUsed(cache: seq<Slot>, history: seq<Event>, limit: nat, slot: Slot)
    requires Follows(cache, history, limit) && limit > 0
    ensures Follows(WithUsed(cache, slot, limit), history + [Used(slot.session, slot.profile)], limit)
  {
    KeptIsCached(cache, history, limit, slot.session);
    hide Others, Remove, LastProfile, Recents, Sessions, EndsWith, LastOf, Distinct, Gap, Kept;
    var event := Used(slot.session, slot.profile);
    var all := Others(cache, slot.session) + [slot];
    UsedSuffix(cache, history, slot);
    SessionsLastOf(all, limit);
    EndsWithLastOf(Recents(history + [event]), Sessions(all), limit);
    ProfilesUsed(cache, history, slot);
    GapStep(history, event, limit);
    Lengths(cache, history, slot.session);
  }

  /** What leaves the recent sessions and the cache when one session is taken out. */
  lemma Lengths(cache: seq<Slot>, history: seq<Event>, session: Session)
    requires EndsWith(Recents(history), Sessions(cache))
    ensures var recents := Recents(history);
      && |Remove(recents, session)| == |recents| - (if session in recents then 1 else 0)
      && |Others(cache, session)| == |cache| - (if session in Sessions(cache) then 1 else 0)
      && (session in Sessions(cache) ==> session in recents)
      && (|cache| == |recents| ==> (session in Sessions(cache) <==> session in recents))
  {
    var recents, cached := Recents(history), Sessions(cache);
    RecentsDistinct(history);
    SuffixDistinct(recents, cached);
    EndsWithSplit(recents, cached);
    RemoveMeans(recents, session);
    RemoveMeans(cached, session);
    OthersSessions(cache, session);
    SameLength(cache);
    SameLength(Others(cache, session));
    EndsWithAll(cached, recents);
  }

  lemma SuffixDistinct<T>(items: seq<T>, suffix: seq<T>)
    requires Distinct(items) && EndsWith(items, suffix)
    ensures Distinct(suffix)
  {
    assert forall i :: 0 <= i < |suffix| ==> suffix[i] == items[|items| - |suffix| + i];
  }

  lemma SameLength(cache: seq<Slot>)
    ensures |Sessions(cache)| == |cache|
  {
  }

  lemma FollowsDropped(cache: seq<Slot>, history: seq<Event>, limit: nat, session: Session)
    requires Follows(cache, history, limit)
    ensures Follows(Others(cache, session), history + [Dropped(session)], limit)
  {
    KeptIsCached(cache, history, limit, session);
    hide Others, Remove, LastProfile, Recents, Sessions, EndsWith, LastOf, Distinct, Gap, Kept;
    var event := Dropped(session);
    UsedSuffix(cache, history, Slot(session, 0, ""));
    RecentsStep(history, event);
    assert Remove(Recents(history), session) + [] == Remove(Recents(history), session);
    OthersSessions(cache, session);
    LastProfiles(cache, history, event);
    GapStep(history, event, limit);
    Lengths(cache, history, session);
  }

  /**
   * Where no gap was before, a failed change of profile leaves the most recent sessions cached exactly if no
   * more sessions are in use than fit.
   */
  lemma FailedChangeExact(cache: seq<Slot>, history: seq<Event>, limit: nat, session: Session)
    requires Follows(cache, history, limit) && session in Sessions(cache)
    requires Sessions(cache) == LastOf(Recents(history), limit)
    ensures Sessions(Others(cache, session)) == LastOf(Recents(history + [Dropped(session)]), limit)
      <==> |Recents(history)| <= limit
  {
    hide Others, Recents, Sessions, EndsWith, LastOf, Gap, Kept;
    CachesMostRecent(cache, history, limit);
    KeptIsCached(cache, history, limit, session);
    FollowsDropped(cache, history, limit, session);
    CachesMostRecent(Others(cache, session), history + [Dropped(session)], limit);
    GapStep(history, Dropped(session), limit);
  }

  lemma FollowsCleared(history: seq<Event>, limit: nat)
    ensures Follows([], history + [Cleared], limit)
  {
  }

  const THREE_USED := [Used("a", "")] + [Used("b", "")] + [Used("c", "")]

  lemma RemoveLast(sessions: seq<Session>, last: Session)
    requires last !in sessions
    ensures Remove(sessions + [last], last) == sessions
  {
    RemoveMeans(sessions, last);
    RemoveAppend(sessions, [last], last);
  }

  lemma RecentsOfThree()
    ensures Recents(THREE_USED) == ["a", "b", "c"]
    ensures Recents(THREE_USED + [Dropped("c")]) == ["a", "b"]
  {
    var one: seq<Event> := [Used("a", "")];
    var two := one + [Used("b", "")];
    assert [] + one == one;
    RecentsStep([], Used("a", ""));
    RecentsStep(one, Used("b", ""));
    RecentsStep(two, Used("c", ""));
    RecentsStep(THREE_USED, Dropped("c"));
    RemoveMeans(["a"], "b");
    RemoveMeans(["a", "b"], "c");
    RemoveLast(["a", "b"], "c");
    hide Recents, Remove;
    assert ["a", "b"] + ["c"] == ["a", "b", "c"];
  }

  /**
   * A failed profile change leaves fewer sessions cached than fit: after a, b and c with room for two, a
   * failed change of c leaves b alone, although a was used too.
   */
  lemma FailedChangeLeavesRoom(cache: seq<Slot>)
    requires Follows(cache, THREE_USED, 2)
    ensures var after := Others(cache, "c");
      && Follows(after, THREE_USED + [Dropped("c")], 2)
      && Sessions(after) == ["b"] && LastOf(Recents(THREE_USED + [Dropped("c")]), 2) == ["a", "b"]
  {
    RecentsOfThree();
    NoGap(THREE_USED, 2);
    hide Recents, Others, Remove, LastProfile, NothingDropped, Gap;
    CachesMostRecent(cache, THREE_USED, 2);
    assert Sessions(cache) == ["b"] + ["c"];
    FollowsDropped(cache, THREE_USED, 2, "c");
    OthersSessions(cache, "c");
    RemoveLast(["b"], "c");
  }
}
