/** Which browser contexts exist: every one is cached, closed, or in use by the request at hand. */
module ContextBook {
  import opened ContextHistory
  import opened Sequences

  /**
   * `closed` logs every call of a context's `close`, in order; `inUse` holds the contexts of requests
   * without a session until they are closed.
   */
  datatype Book = Book(cache: seq<Slot>, created: nat, closed: seq<nat>, inUse: seq<nat>)

  function Numbers(count: nat): seq<nat> {
    seq(count, i requires 0 <= i < count => i)
  }

  ghost predicate Accounted(book: Book) {
    multiset(Contexts(book.cache)) + multiset(book.closed) + multiset(book.inUse) == multiset(Numbers(book.created))
  }

  lemma {:induction false} EachNumberOnce(count: nat, number: nat)
    ensures multiset(Numbers(count))[number] == if number < count then 1 else 0
  {
    if count > 0 {
      EachNumberOnce(count - 1, number);
      NextNumber(count - 1);
    }
  }

  lemma NextNumber(count: nat)
    ensures multiset(Numbers(count + 1)) == multiset(Numbers(count)) + multiset{count}
  {
    assert Numbers(count + 1) == Numbers(count) + [count];
  }

  /** Every context ever created is exactly one of cached, closed once, or in use. */
  lemma ExactlyOnePlace(book: Book, context: nat)
    requires Accounted(book) && context < book.created
    ensures multiset(Contexts(book.cache))[context] + multiset(book.closed)[context] + multiset(book.inUse)[context] == 1
  {
    EachNumberOnce(book.created, context);
  }

  lemma ContextsAppend(cache: seq<Slot>, slot: Slot)
    ensures Contexts(cache + [slot]) == Contexts(cache) + [slot.context]
  {
  }

  lemma ContextsCons(first: Slot, rest: seq<Slot>)
    ensures Contexts([first] + rest) == [first.context] + Contexts(rest)
  {
  }

  lemma {:induction false} OthersContexts(cache: seq<Slot>, slot: Slot)
    requires Distinct(Sessions(cache)) && slot in cache
    ensures multiset(Contexts(Others(cache, slot.session))) + multiset{slot.context} == multiset(Contexts(cache))
  {
    var first, rest := cache[0], cache[1..];
    assert cache == [first] + rest;
    SessionsCons(first, rest);
    DistinctTail(first.session, Sessions(rest));
    ContextsCons(first, rest);
    ContextsCons(first, Others(rest, slot.session));
    if first == slot {
      NoOthers(rest, slot.session);
    } else {
      var i :| 0 <= i < |rest| && rest[i] == slot;
      assert Sessions(rest)[i] == slot.session;
      OthersContexts(rest, slot);
    }
  }

  lemma {:induction false} NoOthers(cache: seq<Slot>, session: Session)
    requires session !in Sessions(cache)
    ensures Others(cache, session) == cache
  {
    if cache != [] {
      assert Sessions(cache)[0] == cache[0].session;
      assert Sessions(cache[1..]) == Sessions(cache)[1..];
      NoOthers(cache[1..], session);
    }
  }

  // ----- The steps of `_context_for` -----

  function Opened(book: Book): Book {
    book.(created := book.created + 1, inUse := book.inUse + [book.created])
  }

  /** A context is opened, and closed again by the request that asked for it. */
  lemma AccountedOpened(book: Book)
    requires Accounted(book)
    ensures Accounted(Opened(book))
  {
    NextNumber(book.created);
    CountAppend(book.inUse, book.created);
  }

  lemma AccountedReleased(book: Book, context: nat)
    requires Accounted(book) && book.inUse == [context]
    ensures Accounted(book.(inUse := [], closed := book.closed + [context]))
  {
    CountAppend(book.closed, context);
  }

  lemma AccountedDropped(book: Book, slot: Slot)
    requires Accounted(book) && Distinct(Sessions(book.cache)) && slot in book.cache
    ensures Accounted(book.(cache := Others(book.cache, slot.session), closed := book.closed + [slot.context]))
  {
    OthersContexts(book.cache, slot);
    CountAppend(book.closed, slot.context);
  }

  lemma AccountedCreated(book: Book, slot: Slot)
    requires Accounted(book) && slot.context == book.created
    ensures Accounted(book.(cache := book.cache + [slot], created := book.created + 1))
  {
    NextNumber(book.created);
    ContextsAppend(book.cache, slot);
  }

  lemma AccountedMoved(book: Book, slot: Slot)
    requires Accounted(book) && Distinct(Sessions(book.cache)) && slot in book.cache
    ensures Accounted(book.(cache := Others(book.cache, slot.session) + [slot]))
  {
    OthersContexts(book.cache, slot);
    ContextsAppend(Others(book.cache, slot.session), slot);
  }

  lemma AccountedEvicted(book: Book)
    requires Accounted(book) && book.cache != []
    ensures Accounted(book.(cache := book.cache[1..], closed := book.closed + [book.cache[0].context]))
  {
    assert book.cache == [book.cache[0]] + book.cache[1..];
    ContextsCons(book.cache[0], book.cache[1..]);
    CountAppend(book.closed, book.cache[0].context);
  }

  lemma AccountedCleared(book: Book)
    requires Accounted(book)
    ensures Accounted(book.(cache := [], closed := book.closed + Contexts(book.cache)))
  {
    assert Contexts([]) == [];
  }

  /** Once everything is closed and nothing is in use, each context was closed exactly once. */
  lemma ClosedExactlyOnce(book: Book, context: nat)
    requires Accounted(book) && book.cache == [] && book.inUse == []
    ensures multiset(book.closed)[context] == if context < book.created then 1 else 0
  {
    EachNumberOnce(book.created, context);
    assert Contexts([]) == [];
  }
}
