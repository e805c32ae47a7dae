/** Manual verification tickets (`HumanVerificationCoordinator`); every call reads the clock once. */
module VerificationTickets {
  import opened Sequences

  datatype Kind = CaptchaPresent | BotChallengePresent | OtherKind

  datatype State = Pending | Approved | Rejected | Expired

  datatype Ticket = Ticket(target: string, kind: Kind, createdAt: real, expiresAt: real, state: State, operator: string)

  datatype Error = NotAChallenge | QueueFull | Unknown | AlreadyTerminal | OperatorRequired

  datatype Result<T> = Ok(value: T) | Err(error: Error)

  type Tickets = map<string, Ticket>

  /** `left` logs the tickets that left the pending state, `decidedAt` when an operator decided one. */
  datatype Records = Records(left: seq<string>, decidedAt: map<string, real>)

  ghost function PendingIds(tickets: Tickets): set<string> {
    set id | id in tickets && tickets[id].state.Pending?
  }

  predicate Lapsed(ticket: Ticket, now: real) {
    ticket.state.Pending? && ticket.expiresAt <= now
  }

  /** What the tickets are once the clock is read: those whose time is over have expired. */
  ghost function At(tickets: Tickets, now: real): Tickets {
    map id | id in tickets :: if Lapsed(tickets[id], now) then tickets[id].(state := Expired) else tickets[id]
  }

  /** Exactly the tickets that are no longer pending have left, each once. */
  ghost predicate LeftOnce(tickets: Tickets, left: seq<string>) {
    && Distinct(left)
    && forall id :: id in left <==> id in tickets && !tickets[id].state.Pending?
  }

  /** A decision was made before the ticket expired. */
  ghost predicate DecidedInTime(tickets: Tickets, decidedAt: map<string, real>) {
    forall id :: id in tickets && (tickets[id].state.Approved? || tickets[id].state.Rejected?) ==>
      id in decidedAt && decidedAt[id] < tickets[id].expiresAt
  }

  ghost predicate Listed(tickets: Tickets, order: seq<string>) {
    Distinct(order) && forall id :: id in order <==> id in tickets
  }

  /** A ticket that is no longer pending never changes again, and no ticket disappears. */
  ghost predicate Final(before: Tickets, after: Tickets) {
    forall id :: id in before ==>
      && id in after
      && (!before[id].state.Pending? ==> after[id] == before[id])
      && after[id].expiresAt == before[id].expiresAt
  }

  /** Once a ticket is approved, rejected or expired it stays exactly as it is, whatever is called later. */
  lemma {:induction false} FinalForever(states: seq<Tickets>, id: string)
    requires states != [] && id in states[0] && !states[0][id].state.Pending?
    requires forall k :: 0 < k < |states| ==> Final(states[k - 1], states[k])
    ensures id in states[|states| - 1] && states[|states| - 1][id] == states[0][id]
  {
    if |states| > 1 {
      var before := states[..|states| - 1];
      forall k | 0 < k < |before| ensures Final(before[k - 1], before[k]) {
        assert Final(states[k - 1], states[k]);
      }
      FinalForever(before, id);
      assert Final(states[|states| - 2], states[|states| - 1]);
    }
  }

  lemma AppendDistinct<T>(items: seq<T>, last: T)
    requires Distinct(items) && last !in items
    ensures Distinct(items + [last])
  {
  }

  /** A pending ticket gets another state. */
  lemma TicketLeaves(tickets: Tickets, left: seq<string>, id: string, ticket: Ticket)
    requires LeftOnce(tickets, left) && id in tickets && tickets[id].state.Pending? && !ticket.state.Pending?
    ensures LeftOnce(tickets[id := ticket], left + [id])
    ensures PendingIds(tickets[id := ticket]) == PendingIds(tickets) - {id}
  {
    AppendDistinct(left, id);
  }

  lemma TicketDecided(tickets: Tickets, records: Records, order: seq<string>, id: string, ticket: Ticket, now: real)
    requires LeftOnce(tickets, records.left) && DecidedInTime(tickets, records.decidedAt) && Listed(tickets, order)
    requires id in tickets && tickets[id].state.Pending? && !ticket.state.Pending? && now < ticket.expiresAt
    ensures LeftOnce(tickets[id := ticket], records.left + [id])
    ensures DecidedInTime(tickets[id := ticket], records.decidedAt[id := now])
    ensures Listed(tickets[id := ticket], order)
    ensures PendingIds(tickets[id := ticket]) == PendingIds(tickets) - {id}
    ensures |PendingIds(tickets) - {id}| <= |PendingIds(tickets)|
  {
    TicketLeaves(tickets, records.left, id, ticket);
    SubsetSize(PendingIds(tickets) - {id}, PendingIds(tickets));
  }

  lemma NewTicket(tickets: Tickets, records: Records, order: seq<string>, id: string, ticket: Ticket)
    requires LeftOnce(tickets, records.left) && DecidedInTime(tickets, records.decidedAt) && Listed(tickets, order)
    requires id !in tickets && ticket.state.Pending?
    ensures LeftOnce(tickets[id := ticket], records.left) && DecidedInTime(tickets[id := ticket], records.decidedAt)
    ensures Listed(tickets[id := ticket], order + [id])
    ensures PendingIds(tickets[id := ticket]) == PendingIds(tickets) + {id}
  {
    AppendDistinct(order, id);
  }

  lemma FewerPending(tickets: Tickets, now: real)
    ensures PendingIds(At(tickets, now)) <= PendingIds(tickets)
    ensures |PendingIds(At(tickets, now))| <= |PendingIds(tickets)|
    ensures Final(tickets, At(tickets, now))
  {
    SubsetSize(PendingIds(At(tickets, now)), PendingIds(tickets));
  }

  lemma {:induction false} SubsetSize<T>(some: set<T>, all: set<T>)
    requires some <= all
    ensures |some| <= |all|
    decreases |some|
  {
    if some != {} {
      var one :| one in some;
      SubsetSize(some - {one}, all - {one});
    }
  }

  class HumanVerificationCoordinator {
    const ttl: real
    const maxPending: nat
    var tickets: Tickets
    var pendingIds: set<string>
    var order: seq<string>
    ghost var records: Records

    ghost predicate Valid()
      reads this
    {
      && 30.0 <= ttl <= 86400.0 && 1 <= maxPending <= 100_000
      && pendingIds == PendingIds(tickets) && |pendingIds| <= maxPending
      && Listed(tickets, order)
      && LeftOnce(tickets, records.left) && DecidedInTime(tickets, records.decidedAt)
    }

    constructor (ttlSeconds: real, pending: int)
      ensures Valid() && tickets == map[]
      ensures ttl == if ttlSeconds < 30.0 then 30.0 else if ttlSeconds > 86400.0 then 86400.0 else ttlSeconds
      ensures maxPending == if pending < 1 then 1 else if pending > 100_000 then 100_000 else pending
    {
      ttl := if ttlSeconds < 30.0 then 30.0 else if ttlSeconds > 86400.0 then 86400.0 else ttlSeconds;
      maxPending := if pending < 1 then 1 else if pending > 100_000 then 100_000 else pending;
      tickets, pendingIds, order := map[], {}, [];
      records := Records([], map[]);
    }

    /** `_expire_locked` */
    method Expire(now: real)
      requires Valid()
      modifies this`tickets, this`pendingIds, this`records
      ensures Valid() && tickets == At(old(tickets), now) && Final(old(tickets), tickets)
      ensures tickets.Keys == old(tickets).Keys
      ensures forall id :: id in tickets ==>
        if old(tickets)[id].state.Pending? && old(tickets)[id].expiresAt <= now
        then tickets[id] == old(tickets)[id].(state := Expired) else tickets[id] == old(tickets)[id]
      ensures records.decidedAt == old(records.decidedAt)
    {
      var rest := pendingIds;
      while rest != {}
        invariant Valid() && rest <= pendingIds && records.decidedAt == old(records.decidedAt)
        invariant tickets.Keys == old(tickets).Keys
        invariant forall id :: id in tickets ==>
          tickets[id] == if id in rest then old(tickets)[id] else At(old(tickets), now)[id]
        decreases |rest|
      {
        var id :| id in rest;
        rest := rest - {id};
        if tickets[id].expiresAt <= now {
          ExpireOne(id);
        }
      }
    }

    method ExpireOne(id: string)
      requires Valid() && id in pendingIds
      modifies this`tickets, this`pendingIds, this`records
      ensures Valid() && tickets == old(tickets)[id := old(tickets)[id].(state := Expired)]
      ensures pendingIds == old(pendingIds) - {id} && records.decidedAt == old(records.decidedAt)
    {
      var ticket := tickets[id].(state := Expired);
      TicketLeaves(tickets, records.left, id, ticket);
      tickets, pendingIds := tickets[id := ticket], pendingIds - {id};
      records := records.(left := records.left + [id]);
    }

    /** `issue`; ids are never used twice. */
    method Issue(id: string, target: string, kind: Kind, now: real) returns (result: Result<Ticket>)
      requires Valid() && id !in tickets
      modifies this
      ensures Valid() && Final(old(tickets), tickets)
      ensures result == (
        if kind.OtherKind? then Err(NotAChallenge)
        else if |PendingIds(At(old(tickets), now))| >= maxPending then Err(QueueFull)
        else Ok(Ticket(target, kind, now, now + ttl, Pending, "")))
      ensures tickets == (
        if kind.OtherKind? then old(tickets)
        else if result.Ok? then At(old(tickets), now)[id := result.value]
        else At(old(tickets), now))
      ensures order == if result.Ok? then old(order) + [id] else old(order)
    {
      if kind.OtherKind? {
        return Err(NotAChallenge);
      }
      FewerPending(tickets, now);
      Expire(now);
      if |pendingIds| >= maxPending {
        return Err(QueueFull);
      }
      var ticket := Ticket(target, kind, now, now + ttl, Pending, "");
      NewTicket(tickets, records, order, id, ticket);
      tickets, pendingIds, order := tickets[id := ticket], pendingIds + {id}, order + [id];
      return Ok(ticket);
    }

    /** An operator decides a pending ticket whose time is not over. */
    method Decide(id: string, actor: string, approved: bool, now: real) returns (ticket: Ticket)
      requires Valid() && id in tickets && tickets[id].state.Pending? && now < tickets[id].expiresAt
      modifies this`tickets, this`pendingIds, this`records
      ensures Valid() && tickets == old(tickets)[id := ticket]
      ensures ticket == old(tickets)[id].(state := if approved then Approved else Rejected, operator := actor)
    {
      ticket := tickets[id].(operator := actor, state := if approved then Approved else Rejected);
      TicketDecided(tickets, records, order, id, ticket, now);
      hide LeftOnce, DecidedInTime, Listed, PendingIds;
      tickets, pendingIds := tickets[id := ticket], pendingIds - {id};
      records := Records(records.left + [id], records.decidedAt[id := now]);
    }

    /** `resolve`; `actor` is the operator's id without surrounding blanks. */
    method Resolve(id: string, actor: string, approved: bool, now: real) returns (result: Result<Ticket>)
      requires Valid()
      modifies this`tickets, this`pendingIds, this`records
      ensures Valid() && Final(old(tickets), tickets)
      ensures var current := At(old(tickets), now);
        if id !in current then result == Err(Unknown) && tickets == current
        else if !current[id].state.Pending? then result == Err(AlreadyTerminal) && tickets == current
        else if actor == "" then result == Err(OperatorRequired) && tickets == current
        else
          && now < current[id].expiresAt
          && result == Ok(current[id].(state := if approved then Approved else Rejected,
                                       operator := if |actor| <= 256 then actor else actor[..256]))
          && tickets == current[id := result.value]
    {
      FewerPending(tickets, now);
      Expire(now);
      if id !in tickets {
        return Err(Unknown);
      }
      if !tickets[id].state.Pending? {
        return Err(AlreadyTerminal);
      }
      if actor == "" {
        return Err(OperatorRequired);
      }
      assert now < tickets[id].expiresAt;
      hide Valid, At;
      var ticket := Decide(id, if |actor| <= 256 then actor else actor[..256], approved, now);
      return Ok(ticket);
    }

    /** `pending`: the pending tickets in the order they were issued. */
    method PendingTickets(now: real) returns (pending: seq<string>)
      requires Valid()
      modifies this`tickets, this`pendingIds, this`records
      ensures Valid() && tickets == At(old(tickets), now) && Final(old(tickets), tickets)
      ensures pending == Only(order, PendingIds(tickets))
      ensures Distinct(pending) && forall id :: id in pending <==> id in tickets && tickets[id].state.Pending?
      ensures forall id :: id in pending ==> now < tickets[id].expiresAt
    {
      Expire(now);
      OnlyMeans(order, pendingIds);
      pending := [];
      for i := 0 to |order|
        invariant pending == Only(order[..i], pendingIds)
        invariant Valid() && tickets == At(old(tickets), now)
      {
        assert order[..i + 1][..i] == order[..i];
        if order[i] in pendingIds {
          pending := pending + [order[i]];
        }
      }
      assert order[..|order|] == order;
    }
  }

  /** The wanted ids among these, in their order. */
  ghost function Only(ids: seq<string>, wanted: set<string>): seq<string> {
    if ids == [] then []
    else
      var last := ids[|ids| - 1];
      Only(ids[..|ids| - 1], wanted) + if last in wanted then [last] else []
  }

  lemma {:induction false} OnlyMeans(ids: seq<string>, wanted: set<string>)
    ensures forall id :: id in Only(ids, wanted) <==> id in ids && id in wanted
    ensures Distinct(ids) ==> Distinct(Only(ids, wanted))
  {
    if ids != [] {
      var before, last := ids[..|ids| - 1], ids[|ids| - 1];
      SplitLast(ids);
      OnlyMeans(before, wanted);
      if Distinct(ids) && last in wanted {
        assert forall i :: 0 <= i < |before| ==> before[i] == ids[i] && ids[i] != last;
        AppendDistinct(Only(before, wanted), last);
      }
    }
  }

  /** The tickets appear as they were issued: an earlier one first. */
  lemma {:induction false} OnlyOrdered(ids: seq<string>, wanted: set<string>, i: nat, j: nat)
    requires i < j < |Only(ids, wanted)|
    ensures exists k, l :: 0 <= k < l < |ids| && ids[k] == Only(ids, wanted)[i] && ids[l] == Only(ids, wanted)[j]
  {
    var before, last := ids[..|ids| - 1], ids[|ids| - 1];
    if j < |Only(before, wanted)| {
      OnlyOrdered(before, wanted, i, j);
      var k, l :| 0 <= k < l < |before| && before[k] == Only(before, wanted)[i] && before[l] == Only(before, wanted)[j];
      assert ids[k] == Only(ids, wanted)[i] && ids[l] == Only(ids, wanted)[j];
    } else {
      OnlyMeans(before, wanted);
      assert Only(before, wanted)[i] in before;
      var k :| 0 <= k < |before| && before[k] == Only(before, wanted)[i];
      assert ids[k] == Only(ids, wanted)[i] && ids[|before|] == Only(ids, wanted)[j];
    }
  }
}
