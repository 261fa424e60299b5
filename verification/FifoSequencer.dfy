/** Batches of requests, sorted by receive time and published to the exchange's queue. */
module FifoSequencers {
  import opened Types
  import opened LFQueues
  import ExchangeModel

  const MAX_PENDING_REQUESTS := 1024

  datatype Timed = Timed(receiveTimestamp: Int64, request: ClientRequest)

  // ----- sorting by receive time

  predicate InTimeOrder(s: seq<Timed>) {
    forall i, j :: 0 <= i < j < |s| ==> s[i].receiveTimestamp <= s[j].receiveTimestamp
  }

  /** `t` is what a sort of `s` may produce; `std::sort` promises no more. */
  predicate SortOf(s: seq<Timed>, t: seq<Timed>) {
    multiset(t) == multiset(s) && InTimeOrder(t)
  }

  function RequestsOf(s: seq<Timed>): seq<ClientRequest> {
    seq(|s|, i requires 0 <= i < |s| => s[i].request)
  }

  /** Requests received at the same time are the same request. */
  ghost predicate TiesAgree(s: seq<Timed>) {
    forall a, b :: a in s && b in s && a.receiveTimestamp == b.receiveTimestamp ==> a.request == b.request
  }

  function Inserted(x: Timed, s: seq<Timed>): seq<Timed> {
    if s == [] || x.receiveTimestamp <= s[0].receiveTimestamp then [x] + s else [s[0]] + Inserted(x, s[1..])
  }

  lemma {:induction false} InsertedMembers(x: Timed, s: seq<Timed>)
    ensures multiset(Inserted(x, s)) == multiset{x} + multiset(s)
  {
    if s != [] && x.receiveTimestamp > s[0].receiveTimestamp {
      InsertedMembers(x, s[1..]);
      assert s == [s[0]] + s[1..];
    }
  }

  lemma {:induction false} InsertedInOrder(x: Timed, s: seq<Timed>)
    requires InTimeOrder(s)
    ensures InTimeOrder(Inserted(x, s))
    ensures Inserted(x, s) != []
    ensures Inserted(x, s)[0].receiveTimestamp == x.receiveTimestamp
         || (s != [] && Inserted(x, s)[0].receiveTimestamp == s[0].receiveTimestamp)
  {
    if s != [] && x.receiveTimestamp > s[0].receiveTimestamp {
      InsertedInOrder(x, s[1..]);
      InOrderCons(s[0], Inserted(x, s[1..]));
    }
  }

  lemma {:induction false} InOrderCons(x: Timed, t: seq<Timed>)
    requires InTimeOrder(t) && (t == [] || x.receiveTimestamp <= t[0].receiveTimestamp)
    ensures InTimeOrder([x] + t)
  {}

  lemma {:induction false} InsertedIsSort(x: Timed, s: seq<Timed>)
    requires InTimeOrder(s)
    ensures SortOf([x] + s, Inserted(x, s))
  {
    InsertedMembers(x, s);
    InsertedInOrder(x, s);
  }

  lemma {:induction false} SortExists(s: seq<Timed>) returns (t: seq<Timed>)
    ensures SortOf(s, t)
  {
    if s == [] {
      t := [];
    } else {
      var u := SortExists(s[1..]);
      t := Inserted(s[0], u);
      InsertedIsSort(s[0], u);
      assert s == [s[0]] + s[1..];
    }
  }

  lemma {:induction false} HeadIsEarliest(t: seq<Timed>, y: Timed)
    requires InTimeOrder(t) && y in multiset(t)
    ensures t != [] && t[0].receiveTimestamp <= y.receiveTimestamp && y in t && t[0] in multiset(t)
  {
    var i :| 0 <= i < |t| && t[i] == y;
    assert i == 0 || t[0].receiveTimestamp <= t[i].receiveTimestamp;
  }

  lemma {:induction false} WithoutHead(t: seq<Timed>)
    requires t != []
    ensures multiset(t[1..]) == multiset(t) - multiset{t[0]} && t[0] in multiset(t)
  {
    assert t == [t[0]] + t[1..];
  }

  lemma {:induction false} SameHead(t: seq<Timed>, u: seq<Timed>)
    requires multiset(t) == multiset(u) && InTimeOrder(t) && InTimeOrder(u) && t != []
    requires TiesAgree(t)
    ensures u != [] && t[0] == u[0]
    ensures multiset(t[1..]) == multiset(u[1..])
  {
    WithoutHead(t);
    HeadIsEarliest(u, t[0]);
    HeadIsEarliest(t, u[0]);
    WithoutHead(u);
  }

  lemma {:induction false} TailInOrder(t: seq<Timed>)
    requires InTimeOrder(t) && t != []
    ensures InTimeOrder(t[1..]) && (TiesAgree(t) ==> TiesAgree(t[1..]))
  {
    assert forall a :: a in t[1..] ==> a in t;
  }

  lemma {:induction false} SortsAgree(t: seq<Timed>, u: seq<Timed>)
    requires multiset(t) == multiset(u) && InTimeOrder(t) && InTimeOrder(u) && TiesAgree(t)
    ensures t == u
  {
    hide InTimeOrder, TiesAgree;
    if t == [] {
      if u != [] {
        WithoutHead(u);
      }
    } else {
      SameHead(t, u);
      TailInOrder(t);
      TailInOrder(u);
      SortsAgree(t[1..], u[1..]);
      assert t == [t[0]] + t[1..] && u == [u[0]] + u[1..];
    }
  }

  lemma {:induction false} Swapped(t: seq<Timed>, i: nat, j: nat)
    requires i < j < |t| && InTimeOrder(t) && t[i].receiveTimestamp == t[j].receiveTimestamp
    ensures SortOf(t, t[i := t[j]][j := t[i]])
  {
    var u := t[i := t[j]][j := t[i]];
    assert multiset(u) == multiset(t);
  }

  lemma {:induction false} TiesCarryOver(s: seq<Timed>, t: seq<Timed>)
    requires TiesAgree(s) && multiset(t) == multiset(s)
    ensures TiesAgree(t)
  {
    forall a | a in t ensures a in s {
      assert a in multiset(t);
    }
  }

  lemma {:induction false} DisagreeingSorts(s: seq<Timed>) returns (t: seq<Timed>, u: seq<Timed>)
    requires !TiesAgree(s)
    ensures SortOf(s, t) && SortOf(s, u) && RequestsOf(t) != RequestsOf(u)
  {
    var a, b :| a in s && b in s && a.receiveTimestamp == b.receiveTimestamp && a.request != b.request;
    t := SortExists(s);
    assert a in multiset(s) && b in multiset(s);
    assert a in t && b in t;
    var i :| 0 <= i < |t| && t[i] == a;
    var j :| 0 <= j < |t| && t[j] == b;
    var lo, hi := if i < j then i else j, if i < j then j else i;
    Swapped(t, lo, hi);
    u := t[lo := t[hi]][hi := t[lo]];
    assert RequestsOf(t)[lo] == t[lo].request && RequestsOf(u)[lo] == t[hi].request;
  }

  /** What is published is settled by the batch exactly when requests that tie are the same. */
  lemma {:induction false} PublicationIsSettled(s: seq<Timed>)
    ensures (forall t, u :: SortOf(s, t) && SortOf(s, u) ==> RequestsOf(t) == RequestsOf(u)) <==> TiesAgree(s)
  {
    if TiesAgree(s) {
      forall t, u | SortOf(s, t) && SortOf(s, u) ensures RequestsOf(t) == RequestsOf(u) {
        TiesCarryOver(s, t);
        SortsAgree(t, u);
      }
    } else {
      var t, u := DisagreeingSorts(s);
    }
  }

  /**
   * The order of arrival within a batch does not show: whatever order the requests came in and
   * however ties are sorted, the exchange ends in the same books with the same messages.
   */
  lemma {:induction false} ArrivalOrderDoesNotShow(s: seq<Timed>, s': seq<Timed>, t: seq<Timed>, t': seq<Timed>,
                                                   m: ExchangeModel.Market)
    requires multiset(s) == multiset(s') && TiesAgree(s) && SortOf(s, t) && SortOf(s', t')
    requires ExchangeModel.AllKnown(m, RequestsOf(t))
    ensures RequestsOf(t) == RequestsOf(t')
    ensures ExchangeModel.ProcessAll(m, RequestsOf(t)) == ExchangeModel.ProcessAll(m, RequestsOf(t'))
  {
    TiesCarryOver(s, t);
    SortsAgree(t, t');
  }

  /** Stands for `std::sort`; callers are promised a sorted permutation and no more. */
  method Sort(s: seq<Timed>) returns (t: seq<Timed>)
    ensures SortOf(s, t) && multiset(t) == multiset(s)
    ensures forall i, j :: 0 <= i < j < |t| ==> t[i].receiveTimestamp <= t[j].receiveTimestamp
  {
    t := [];
    for i := |s| downto 0
      invariant SortOf(s[i..], t)
    {
      InsertedIsSort(s[i], t);
      assert s[i..] == [s[i]] + s[i + 1..];
      t := Inserted(s[i], t);
    }
  }

  class FifoSequencer {
    const requests: LFQueue<ClientRequest>
    const pendingRequests: array<Timed>
    var pendingRequestsIndex: nat

    ghost predicate Valid()
      reads this
    {
      pendingRequests.Length == MAX_PENDING_REQUESTS && pendingRequestsIndex <= MAX_PENDING_REQUESTS
    }

    ghost function Pending(): seq<Timed>
      reads this, pendingRequests
      requires Valid()
    {
      pendingRequests[..pendingRequestsIndex]
    }

    constructor (requests: LFQueue<ClientRequest>)
      ensures Valid() && Pending() == [] && fresh(pendingRequests) && this.requests == requests
    {
      this.requests := requests;
      pendingRequests := new Timed[MAX_PENDING_REQUESTS];
      pendingRequestsIndex := 0;
    }

    /** False when the batch is full, which is fatal for the process. */
    method AddRequest(request: ClientRequest, timestamp: Int64) returns (ok: bool)
      requires Valid()
      modifies this, pendingRequests
      ensures Valid()
      ensures ok <==> |old(Pending())| < 1024
      ensures Pending() == if ok then old(Pending()) + [Timed(timestamp, request)] else old(Pending())
    {
      if pendingRequestsIndex == MAX_PENDING_REQUESTS {
        return false;
      }
      pendingRequests[pendingRequestsIndex] := Timed(timestamp, request);
      pendingRequestsIndex := pendingRequestsIndex + 1;
      return true;
    }

    /** Publishes the whole batch in time order and empties it. */
    method SequenceAndPublish() returns (ghost sorted: seq<Timed>)
      requires Valid() && requests.Valid()
      modifies this, pendingRequests, requests`nextWriteIndex, requests`pushed, requests.data
      ensures Valid() && requests.Valid() && Pending() == []
      ensures SortOf(old(Pending()), sorted) && multiset(sorted) == multiset(old(Pending()))
      ensures forall i, j :: 0 <= i < j < |sorted| ==> sorted[i].receiveTimestamp <= sorted[j].receiveTimestamp
      ensures requests.pushed == old(requests.pushed) + RequestsOf(sorted)
      ensures forall i :: 0 <= i < |sorted| ==> requests.pushed[|old(requests.pushed)| + i] == sorted[i].request
    {
      var n := pendingRequestsIndex;
      var t := Sort(pendingRequests[..n]);
      assert |t| == |multiset(t)| == |multiset(pendingRequests[..n])| == n;
      forall i | 0 <= i < n {
        pendingRequests[i] := t[i];
      }
      sorted := t;
      assert pendingRequests[..n] == t;
      for i := 0 to n
        invariant Valid() && requests.Valid() && pendingRequestsIndex == n && pendingRequests[..n] == t
        invariant requests.pushed == old(requests.pushed) + RequestsOf(t)[..i]
      {
        assert RequestsOf(t)[..i + 1] == RequestsOf(t)[..i] + [t[i].request];
        requests.Push(pendingRequests[i].request);
      }
      assert RequestsOf(t)[..n] == RequestsOf(t);
      pendingRequestsIndex := 0;
    }
  }
}
