/** The order in which the requests of each host travel through the queues of a run. */
module HostQueues {
  import opened Sequences
  import opened RunLedger

  function Bucket(buckets: map<string, seq<Request>>, host: string): seq<Request> {
    if host in buckets then buckets[host] else []
  }

  /**
   * For every host: what was admitted, then what is deferred, then what is pending are the host's
   * requests in their original order.
   */
  ghost predicate InOrder(requests: seq<Request>, admitted: seq<Request>,
                          buckets: map<string, seq<Request>>, pending: seq<Request>)
  {
    forall host :: HostInOrder(requests, admitted, buckets, pending, host)
  }

  ghost predicate HostInOrder(requests: seq<Request>, admitted: seq<Request>,
                              buckets: map<string, seq<Request>>, pending: seq<Request>, host: string)
  {
    OfHost(requests, host) == OfHost(admitted, host) + Bucket(buckets, host) + OfHost(pending, host)
  }

  /** The host queue lists exactly the hosts that have a bucket, once each, and no bucket is empty. */
  ghost predicate Queued(hosts: seq<string>, buckets: map<string, seq<Request>>) {
    && Distinct(hosts)
    && (forall host :: host in hosts <==> host in buckets)
    && forall host :: host in buckets ==> buckets[host] != []
  }

  lemma BucketHost(requests: seq<Request>, admitted: seq<Request>,
                   buckets: map<string, seq<Request>>, pending: seq<Request>, host: string)
    requires InOrder(requests, admitted, buckets, pending)
    ensures forall request :: request in Bucket(buckets, host) ==> request.host == host
  {
    assert HostInOrder(requests, admitted, buckets, pending, host);
    OfHostMembers(requests, host);
    forall request | request in Bucket(buckets, host) ensures request.host == host {
      assert request in OfHost(requests, host);
    }
  }

  lemma AdmitFromBucket(requests: seq<Request>, admitted: seq<Request>,
                        buckets: map<string, seq<Request>>, pending: seq<Request>, host: string)
    requires InOrder(requests, admitted, buckets, pending)
    requires host in buckets && buckets[host] != []
    ensures var rest := buckets[host][1..];
      InOrder(requests, admitted + [buckets[host][0]], if rest == [] then buckets - {host} else buckets[host := rest], pending)
  {
    hide OfHost;
    var first, rest := buckets[host][0], buckets[host][1..];
    var after := if rest == [] then buckets - {host} else buckets[host := rest];
    BucketHost(requests, admitted, buckets, pending, host);
    forall other ensures HostInOrder(requests, admitted + [first], after, pending, other) {
      assert HostInOrder(requests, admitted, buckets, pending, other);
      OfHostAppend(admitted, first, other);
      if other == host {
        assert buckets[host] == [first] + rest && Bucket(after, host) == rest;
        ShiftFromMiddle(OfHost(admitted, host), first, rest, OfHost(pending, host));
      } else {
        assert Bucket(after, other) == Bucket(buckets, other);
        NothingAppended(OfHost(admitted, other));
      }
    }
  }

  lemma NothingAppended<T>(items: seq<T>)
    ensures items + [] == items == [] + items
  {
  }

  lemma AdmitFromPending(requests: seq<Request>, admitted: seq<Request>,
                         buckets: map<string, seq<Request>>, pending: seq<Request>)
    requires InOrder(requests, admitted, buckets, pending)
    requires pending != [] && pending[0].host !in buckets
    ensures InOrder(requests, admitted + [pending[0]], buckets, pending[1..])
  {
    hide OfHost;
    var first := pending[0];
    forall other ensures HostInOrder(requests, admitted + [first], buckets, pending[1..], other) {
      assert HostInOrder(requests, admitted, buckets, pending, other);
      OfHostAppend(admitted, first, other);
      OfHostFirst(pending, other);
      NothingAppended(OfHost(admitted, other));
      if other == first.host {
        ShiftToMiddle(OfHost(admitted, other), [], first, OfHost(pending[1..], other));
        ShiftFromMiddle(OfHost(admitted, other), first, [], OfHost(pending[1..], other));
        NothingAppended([first]);
      } else {
        NothingAppended(OfHost(pending[1..], other));
      }
    }
  }

  lemma DeferFromPending(requests: seq<Request>, admitted: seq<Request>,
                         buckets: map<string, seq<Request>>, pending: seq<Request>)
    requires InOrder(requests, admitted, buckets, pending)
    requires pending != []
    ensures var host := pending[0].host;
      InOrder(requests, admitted, buckets[host := Bucket(buckets, host) + [pending[0]]], pending[1..])
  {
    hide OfHost;
    var first := pending[0];
    var after := buckets[first.host := Bucket(buckets, first.host) + [first]];
    forall other ensures HostInOrder(requests, admitted, after, pending[1..], other) {
      assert HostInOrder(requests, admitted, buckets, pending, other);
      OfHostFirst(pending, other);
      if other == first.host {
        ShiftToMiddle(OfHost(admitted, other), Bucket(buckets, other), first, OfHost(pending[1..], other));
      } else {
        NothingAppended(OfHost(pending[1..], other));
        assert Bucket(after, other) == Bucket(buckets, other);
      }
    }
  }

  // ----- The host queue -----

  lemma QueuedBucket(hosts: seq<string>, buckets: map<string, seq<Request>>)
    requires Queued(hosts, buckets) && hosts != []
    ensures hosts[0] in buckets && buckets[hosts[0]] != []
  {
  }

  lemma RotateHost(hosts: seq<string>, buckets: map<string, seq<Request>>)
    requires Queued(hosts, buckets) && hosts != []
    ensures Queued(Rotate(hosts), buckets)
  {
    assert hosts == [hosts[0]] + hosts[1..];
  }

  lemma DropHost(hosts: seq<string>, buckets: map<string, seq<Request>>)
    requires Queued(hosts, buckets) && hosts != []
    ensures Queued(hosts[1..], buckets - {hosts[0]})
  {
    assert hosts == [hosts[0]] + hosts[1..];
  }

  lemma AddHost(hosts: seq<string>, buckets: map<string, seq<Request>>, host: string, bucket: seq<Request>)
    requires Queued(hosts, buckets) && bucket != []
    ensures Queued(if host in buckets then hosts else hosts + [host], buckets[host := bucket])
  {
  }

  // ----- The queues of a run as a whole -----

  datatype Queues = Queues(pending: seq<Request>, hosts: seq<string>, buckets: map<string, seq<Request>>)

  ghost predicate Orderly(requests: seq<Request>, admitted: seq<Request>, queues: Queues) {
    InOrder(requests, admitted, queues.buckets, queues.pending) && Queued(queues.hosts, queues.buckets)
  }

  /** The request that is tried next for the first deferred host. */
  function FirstDeferred(queues: Queues): Request
    requires queues.hosts != [] && queues.hosts[0] in queues.buckets && queues.buckets[queues.hosts[0]] != []
  {
    queues.buckets[queues.hosts[0]][0]
  }

  /** The first deferred host was admitted: its bucket shrinks, and it goes to the back or leaves. */
  function AdvanceHost(queues: Queues): Queues
    requires queues.hosts != [] && queues.hosts[0] in queues.buckets && queues.buckets[queues.hosts[0]] != []
  {
    var host := queues.hosts[0];
    var rest := queues.buckets[host][1..];
    if rest != [] then
      queues.(hosts := Rotate(queues.hosts), buckets := queues.buckets[host := rest])
    else
      queues.(hosts := queues.hosts[1..], buckets := queues.buckets - {host})
  }

  /** The first pending request joins the bucket of its host. */
  function DeferFirst(queues: Queues): Queues
    requires queues.pending != []
  {
    var host := queues.pending[0].host;
    Queues(queues.pending[1..],
           if host in queues.buckets then queues.hosts else queues.hosts + [host],
           queues.buckets[host := Bucket(queues.buckets, host) + [queues.pending[0]]])
  }

  lemma OrderlyFirst(requests: seq<Request>, admitted: seq<Request>, queues: Queues)
    requires Orderly(requests, admitted, queues) && queues.hosts != []
    ensures queues.hosts[0] in queues.buckets && queues.buckets[queues.hosts[0]] != []
    ensures FirstDeferred(queues).host == queues.hosts[0]
  {
    QueuedBucket(queues.hosts, queues.buckets);
    BucketHost(requests, admitted, queues.buckets, queues.pending, queues.hosts[0]);
    assert FirstDeferred(queues) in Bucket(queues.buckets, queues.hosts[0]);
  }

  lemma OrderlyRotate(requests: seq<Request>, admitted: seq<Request>, queues: Queues)
    requires Orderly(requests, admitted, queues) && queues.hosts != []
    ensures Orderly(requests, admitted, queues.(hosts := Rotate(queues.hosts)))
  {
    hide InOrder, Queued;
    RotateHost(queues.hosts, queues.buckets);
  }

  lemma OrderlyAdvance(requests: seq<Request>, admitted: seq<Request>, queues: Queues)
    requires Orderly(requests, admitted, queues) && queues.hosts != []
    requires queues.hosts[0] in queues.buckets && queues.buckets[queues.hosts[0]] != []
    ensures Orderly(requests, admitted + [FirstDeferred(queues)], AdvanceHost(queues))
  {
    hide InOrder, Queued;
    var host := queues.hosts[0];
    AdmitFromBucket(requests, admitted, queues.buckets, queues.pending, host);
    RotateHost(queues.hosts, queues.buckets);
    if queues.buckets[host][1..] != [] {
      AddHost(Rotate(queues.hosts), queues.buckets, host, queues.buckets[host][1..]);
    } else {
      DropHost(queues.hosts, queues.buckets);
    }
  }

  lemma OrderlyAdmit(requests: seq<Request>, admitted: seq<Request>, queues: Queues)
    requires Orderly(requests, admitted, queues) && queues.pending != [] && queues.pending[0].host !in queues.buckets
    ensures Orderly(requests, admitted + [queues.pending[0]], queues.(pending := queues.pending[1..]))
  {
    hide InOrder, Queued;
    AdmitFromPending(requests, admitted, queues.buckets, queues.pending);
  }

  lemma OrderlyDefer(requests: seq<Request>, admitted: seq<Request>, queues: Queues)
    requires Orderly(requests, admitted, queues) && queues.pending != []
    ensures Orderly(requests, admitted, DeferFirst(queues))
  {
    hide InOrder, Queued;
    var host := queues.pending[0].host;
    DeferFromPending(requests, admitted, queues.buckets, queues.pending);
    AddHost(queues.hosts, queues.buckets, host, Bucket(queues.buckets, host) + [queues.pending[0]]);
  }

  lemma OrderlyNew(requests: seq<Request>)
    ensures Orderly(requests, [], Queues(requests, [], map[]))
  {
    hide OfHost;
    forall host ensures HostInOrder(requests, [], map[], requests, host) {
      OfNoRequests(host);
      NothingAppended(OfHost(requests, host));
    }
  }

  // ----- What the order says about whole runs -----

  /** The requests of one host are admitted in their original order, whatever happens to the others. */
  lemma AdmittedInOrder(requests: seq<Request>, admitted: seq<Request>, queues: Queues, host: string)
    requires Orderly(requests, admitted, queues)
    ensures OfHost(admitted, host) <= OfHost(requests, host)
  {
    hide OfHost;
    assert HostInOrder(requests, admitted, queues.buckets, queues.pending, host);
  }

  ghost function Deferred(queues: Queues, request: Request): nat {
    multiset(Bucket(queues.buckets, request.host))[request]
  }

  /** Every request is pending, deferred by its own host, or admitted, exactly as often as it was asked for. */
  lemma EachInOnePlace(requests: seq<Request>, admitted: seq<Request>, queues: Queues, request: Request)
    requires Orderly(requests, admitted, queues)
    ensures multiset(requests)[request] ==
      multiset(queues.pending)[request] + Deferred(queues, request) + multiset(admitted)[request]
    ensures forall host :: host != request.host ==> request !in Bucket(queues.buckets, host)
  {
    hide OfHost;
    var host := request.host;
    assert HostInOrder(requests, admitted, queues.buckets, queues.pending, host);
    OfHostCount(requests, request);
    OfHostCount(admitted, request);
    OfHostCount(queues.pending, request);
    CountThree(OfHost(admitted, host), Bucket(queues.buckets, host), OfHost(queues.pending, host), request);
    forall other | other != host ensures request !in Bucket(queues.buckets, other) {
      BucketHost(requests, admitted, queues.buckets, queues.pending, other);
    }
  }

  lemma CountThree<T>(first: seq<T>, second: seq<T>, third: seq<T>, item: T)
    ensures multiset(first + second + third)[item] == multiset(first)[item] + multiset(second)[item] + multiset(third)[item]
  {
  }

  lemma AllAdmitted(requests: seq<Request>, admitted: seq<Request>, queues: Queues)
    requires Orderly(requests, admitted, queues) && queues.pending == [] && queues.hosts == []
    ensures multiset(admitted) == multiset(requests)
    ensures forall host :: OfHost(admitted, host) == OfHost(requests, host)
  {
    hide OfHost;
    forall request ensures multiset(requests)[request] == multiset(admitted)[request] {
      EachInOnePlace(requests, admitted, queues, request);
      assert request.host !in queues.hosts;
    }
    forall host ensures OfHost(admitted, host) == OfHost(requests, host) {
      assert HostInOrder(requests, admitted, queues.buckets, queues.pending, host);
      assert host !in queues.hosts;
      OfNoRequests(host);
    }
  }
}
