/** One browser worker (`PlaywrightBrowserWorker`).  Opening and closing a context may fail at any time. */
module BrowserWorker {
  import opened ContextBook
  import opened ContextHistory
  import opened Sequences

  /** A context that was handed out, and whether the caller closes it. */
  datatype Handed = Raised | Handed(context: nat, ephemeral: bool)

  /** What goes wrong with one request: before a context is asked for, with the contexts, or on the page. */
  datatype Visit = Visit(refused: bool, closeRaises: bool, newRaises: bool, fails: bool)

  class PlaywrightBrowserWorker {
    const limit: nat
    var book: Book
    ghost var history: seq<Event>

    /** Between requests, and while one runs. */
    ghost predicate Valid()
      reads this
    {
      limit > 0 && Accounted(book) && Follows(book.cache, history, limit)
    }

    ghost predicate Idle()
      reads this
    {
      Valid() && book.inUse == []
    }

    constructor (sessions: int)
      ensures Idle() && history == [] && book.created == 0
      ensures limit == if sessions < 1 then 1 else if sessions > 64 then 64 else sessions
    {
      limit := if sessions < 1 then 1 else if sessions > 64 then 64 else sessions;
      book := Book([], 0, [], []);
      history := [];
      new;
      assert Numbers(0) == [];
    }

    method Find(session: Session) returns (index: int)
      ensures -1 <= index < |book.cache|
      ensures index >= 0 ==> book.cache[index].session == session
      ensures index < 0 ==> session !in Sessions(book.cache)
    {
      for i := 0 to |book.cache|
        invariant session !in Sessions(book.cache[..i])
      {
        if book.cache[i].session == session {
          return i;
        }
        assert Sessions(book.cache[..i + 1]) == Sessions(book.cache[..i]) + [book.cache[i].session];
      }
      assert book.cache[..|book.cache|] == book.cache;
      return -1;
    }

    /** While there are too many contexts, the least recently used one is closed; a failing close is logged. */
    method Evict()
      requires Accounted(book)
      modifies this`book
      ensures Accounted(book) && book.cache == LastOf(old(book.cache), limit)
      ensures book.created == old(book.created) && book.inUse == old(book.inUse)
    {
      hide Accounted;
      while |book.cache| > limit
        invariant Accounted(book) && LastOf(book.cache, limit) == LastOf(old(book.cache), limit)
        invariant book.created == old(book.created) && book.inUse == old(book.inUse)
      {
        AccountedEvicted(book);
        book := book.(cache := book.cache[1..], closed := book.closed + [book.cache[0].context]);
      }
    }

    lemma CacheDistinct()
      requires Valid()
      ensures Distinct(Sessions(book.cache))
    {
      RecentsDistinct(history);
      var recents, cached := Recents(history), Sessions(book.cache);
      assert forall i :: 0 <= i < |cached| ==> cached[i] == recents[|recents| - |cached| + i];
    }

    ghost predicate Cached(session: Session, profile: string)
      reads this
    {
      exists context :: Slot(session, context, profile) in book.cache
    }

    /** Distinct sessions: a session has one slot. */
    lemma OneSlot(index: nat, profile: string)
      requires Valid() && index < |book.cache|
      ensures Cached(book.cache[index].session, profile) <==> book.cache[index].profile == profile
    {
      CacheDistinct();
      var slot := book.cache[index];
      if Cached(slot.session, profile) {
        var context :| Slot(slot.session, context, profile) in book.cache;
        var other :| 0 <= other < |book.cache| && book.cache[other] == Slot(slot.session, context, profile);
        assert Sessions(book.cache)[other] == Sessions(book.cache)[index];
      }
      assert slot == Slot(slot.session, slot.context, slot.profile);
    }

    /** A new context is cached, and too old ones are closed. */
    method Install(slot: Slot)
      requires Accounted(book) && slot.context == book.created
      modifies this`book
      ensures Accounted(book) && book.cache == LastOf(old(book.cache) + [slot], limit)
      ensures book.created == old(book.created) + 1 && book.inUse == old(book.inUse)
    {
      hide Accounted, LastOf;
      AccountedCreated(book, slot);
      book := book.(cache := book.cache + [slot], created := book.created + 1);
      Evict();
    }

    /** The session's context is created and cached. */
    method Create(session: Session, profile: string, raises: bool) returns (result: Handed)
      requires Idle() && session !in Sessions(book.cache)
      modifies this
      ensures Idle()
      ensures raises ==> result == Raised && book == old(book) && history == old(history)
      ensures !raises ==>
        && result == Handed(old(book.created), false) && book.created == old(book.created) + 1
        && history == old(history) + [Used(session, profile)]
        && book.cache == WithUsed(old(book.cache), Slot(session, result.context, profile), limit)
    {
      hide Accounted, Follows, LastOf, Others;
      if raises {
        return Raised;
      }
      var slot := Slot(session, book.created, profile);
      NoOthers(book.cache, session);
      FollowsUsed(book.cache, history, limit, slot);
      Install(slot);
      history := history + [Used(session, profile)];
      return Handed(slot.context, false);
    }

    /** The profile changed: the old context is closed whatever happens, and a new one takes its place. */
    method Replace(slot: Slot, profile: string, closeRaises: bool, newRaises: bool) returns (result: Handed)
      requires Idle() && slot in book.cache
      modifies this
      ensures Idle()
      ensures closeRaises || newRaises ==>
        && result == Raised && book.created == old(book.created) && history == old(history) + [Dropped(slot.session)]
        && book.cache == Others(old(book.cache), slot.session)
      ensures !closeRaises && !newRaises ==>
        && result == Handed(old(book.created), false) && book.created == old(book.created) + 1
        && history == old(history) + [Used(slot.session, profile)]
        && book.cache == WithUsed(old(book.cache), Slot(slot.session, result.context, profile), limit)
    {
      CacheDistinct();
      hide Accounted, Follows, LastOf, Others;
      AccountedDropped(book, slot);
      book := book.(cache := Others(book.cache, slot.session), closed := book.closed + [slot.context]);
      if closeRaises || newRaises {
        FollowsDropped(old(book.cache), history, limit, slot.session);
        history := history + [Dropped(slot.session)];
        return Raised;
      }
      var replacement := Slot(slot.session, book.created, profile);
      FollowsUsed(old(book.cache), history, limit, replacement);
      Install(replacement);
      history := history + [Used(slot.session, profile)];
      return Handed(replacement.context, false);
    }

    /** The session's context is there with the profile asked for, and becomes the most recently used one. */
    method Reuse(slot: Slot) returns (result: Handed)
      requires Idle() && slot in book.cache
      modifies this
      ensures Idle() && result == Handed(slot.context, false) && book.created == old(book.created)
      ensures history == old(history) + [Used(slot.session, slot.profile)]
      ensures book.cache == WithUsed(old(book.cache), slot, limit)
    {
      CacheDistinct();
      hide Accounted, Follows, LastOf, Others;
      FollowsUsed(book.cache, history, limit, slot);
      AccountedMoved(book, slot);
      book := book.(cache := Others(book.cache, slot.session) + [slot]);
      Evict();
      history := history + [Used(slot.session, slot.profile)];
      return Handed(slot.context, false);
    }

    /** A request without a session gets a context of its own. */
    method OpenEphemeral(raises: bool) returns (result: Handed)
      requires Idle()
      modifies this`book
      ensures Valid() && book.cache == old(book.cache)
      ensures raises ==> result == Raised && book == old(book)
      ensures !raises ==>
        result == Handed(old(book.created), true) && book.inUse == [old(book.created)] && book == Opened(old(book))
    {
      hide Accounted, Follows;
      if raises {
        return Raised;
      }
      AccountedOpened(book);
      book := Opened(book);
      return Handed(book.created - 1, true);
    }

    /**
     * `_context_for`: a session's context is reused exactly if it is cached with the profile asked for, and
     * afterwards it is the most recently used one; only a failed change of profile loses it.
     */
    method ContextFor(session: Session, profile: string, closeRaises: bool, newRaises: bool) returns (result: Handed)
      requires Idle()
      modifies this
      ensures Valid() && (result.Handed? ==> (result.ephemeral <==> session == ""))
      ensures result.Raised? <==>
        if session == "" then newRaises
        else !old(Cached(session, profile)) && (newRaises || (closeRaises && session in Sessions(old(book.cache))))
      ensures session == "" ==>
        history == old(history) && book == if result.Raised? then old(book) else Opened(old(book))
      ensures book.inUse == if result.Handed? && result.ephemeral then [result.context] else []
      ensures session != "" && result.Handed? ==>
        && history == old(history) + [Used(session, profile)]
        && book.cache == WithUsed(old(book.cache), Slot(session, result.context, profile), limit)
      ensures result.Handed? ==>
        if session != "" && old(Cached(session, profile))
        then Slot(session, result.context, profile) in old(book.cache) && book.created == old(book.created)
        else result.context == old(book.created)
      ensures session != "" && result.Raised? ==>
        history == if session in Sessions(old(book.cache)) then old(history) + [Dropped(session)] else old(history)
    {
      hide Accounted, Follows, LastOf, Others;
      if session == "" {
        result := OpenEphemeral(newRaises);
        return;
      }
      var index := Find(session);
      if index < 0 {
        assert !Cached(session, profile) by { NotCached(session, profile); }
        result := Create(session, profile, newRaises);
        return;
      }
      OneSlot(index, profile);
      var slot := book.cache[index];
      assert Sessions(book.cache)[index] == session;
      if slot.profile == profile {
        result := Reuse(slot);
      } else {
        result := Replace(slot, profile, closeRaises, newRaises);
      }
    }

    lemma NotCached(session: Session, profile: string)
      requires session !in Sessions(book.cache)
      ensures !Cached(session, profile)
    {
      forall context ensures Slot(session, context, profile) !in book.cache {
        SessionListed(Slot(session, context, profile));
      }
    }

    lemma SessionListed(slot: Slot)
      ensures slot in book.cache ==> slot.session in Sessions(book.cache)
    {
      if slot in book.cache {
        var i :| 0 <= i < |book.cache| && book.cache[i] == slot;
        assert Sessions(book.cache)[i] == slot.session;
      }
    }

    /** A context is handed out to the request. */
    ghost predicate HandsOut(session: Session, profile: string, visit: Visit)
      reads this
    {
      && !visit.refused
      && (if session == "" then !visit.newRaises
          else Cached(session, profile) || !(visit.newRaises || (visit.closeRaises && session in Sessions(book.cache))))
    }

    /** What the request leaves in the worker's history. */
    ghost function Leaves(session: Session, profile: string, visit: Visit): seq<Event>
      reads this
    {
      if session == "" || visit.refused then []
      else if HandsOut(session, profile, visit) then [Used(session, profile)]
      else if session in Sessions(book.cache) then [Dropped(session)] else []
    }

    /** How many contexts of their own a request without a session opens, and closes again. */
    ghost function OpensOwn(profile: string, visit: Visit): nat
      reads this
    {
      if HandsOut("", profile, visit) then 1 else 0
    }

    /**
     * `fetch`: the runtime or the target check may refuse before a context is asked for, the page may fail
     * after, and a context of the request's own is closed in either case.
     */
    method Fetch(session: Session, profile: string, visit: Visit) returns (fetched: bool)
      requires Idle()
      modifies this
      ensures Idle()
      ensures fetched <==> old(HandsOut(session, profile, visit)) && !visit.fails
      ensures history == old(history) + old(Leaves(session, profile, visit))
      ensures visit.refused ==> book == old(book)
      ensures session == "" ==> book == if old(HandsOut(session, profile, visit))
        then old(book).(created := old(book.created) + 1, closed := old(book.closed) + [old(book.created)]) else old(book)
      ensures session != "" && old(HandsOut(session, profile, visit)) ==>
        && book.cache != []
        && var latest := book.cache[|book.cache| - 1]; latest.session == session && latest.profile == profile
    {
      hide Accounted, Follows;
      if visit.refused {
        assert history == history + [];
        return false;
      }
      var result := ContextFor(session, profile, visit.closeRaises, visit.newRaises);
      fetched := result.Handed? && !visit.fails;
      if result.Raised? {
        assert history == history + [];
      } else if result.ephemeral {
        AccountedReleased(book, result.context);
        book := book.(inUse := [], closed := book.closed + [result.context]);
        assert history == history + [];
      } else {
        LastUsed(old(book.cache), Slot(session, result.context, profile));
      }
    }

    lemma LastUsed(cache: seq<Slot>, slot: Slot)
      requires limit > 0
      ensures var after := WithUsed(cache, slot, limit); after != [] && after[|after| - 1] == slot
    {
    }

    /** `close`: every cached context is closed, failing or not. */
    method Close()
      requires Idle()
      modifies this
      ensures Idle() && book.cache == [] && history == old(history) + [Cleared]
      ensures book.created == old(book.created) && book.closed == old(book.closed) + Contexts(old(book.cache))
    {
      hide Accounted;
      var cached := book.cache;
      AccountedCleared(book);
      for i := 0 to |cached|
        invariant book == old(book).(closed := old(book.closed) + Contexts(cached[..i]))
        invariant history == old(history)
      {
        assert cached[..i + 1] == cached[..i] + [cached[i]];
        ContextsAppend(cached[..i], cached[i]);
        book := book.(closed := book.closed + [cached[i].context]);
      }
      assert cached[..|cached|] == cached;
      FollowsCleared(history, limit);
      book := book.(cache := []);
      history := history + [Cleared];
    }
  }
}
