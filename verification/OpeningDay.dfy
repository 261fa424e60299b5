/** From `Open` on: an exchange with its initial tickers, and every run that is served from there. */
module OpeningDay {
  import opened Types
  import opened Matching
  import opened BookLaws
  import opened OrderLife
  import opened AsWritten
  import opened AsWrittenLaws
  import opened ExchangeModel
  import opened ExchangeAsWritten
  import opened ExchangeIds
  import opened ExchangeView
  import opened Ownership
  import opened Exchanges
  import opened LFQueues

  /** Trade number `i` of these updates has the id `1 + i`. */
  predicate NumberedFromOne(us: seq<MarketUpdate>) {
    forall i :: 0 <= i < |TradeIds(us)| ==> TradeIds(us)[i] == (1 + i) % 0x1_0000_0000
  }

  lemma {:induction false} OpensEmpty(tickers: seq<TickerId>)
    requires ListedAll(EMPTY_FLOOR, tickers).Some?
    ensures var f := ListedAll(EMPTY_FLOOR, tickers).value;
      && f.market.books.Keys == (set t | t in tickers) && f.market.nextOrderId == 1 && f.market.nextTradeId == 1
      && (forall t :: t in f.market.books && t in f.strays ==> DeskAt(f, t) == EMPTY_DESK) && FloorSound(f)
  {
    hide ListedAll, SoundDesk;
    ListedAllIsUnion(EMPTY_FLOOR, tickers);
    NothingIsSound();
  }

  lemma {:induction false} NothingIsSound()
    ensures SoundDesk(EMPTY_DESK)
  {}

  /**
   * Every run of an exchange that has just been opened, as far as it is served. Its trades are numbered 1, 2,
   * 3 and so on over all books. Its requests are answered in order, and the adds get the ids 1, 2, 3 and so
   * on. Until those wrap, every order on every desk and every message about an order is true to the request
   * that was given its id.
   */
  lemma {:induction false} EveryRunFromTheOpening(linked: bool, tickers: seq<TickerId>, rs: seq<ClientRequest>)
    returns (k: nat)
    requires ListedAll(EMPTY_FLOOR, tickers).Some?
    requires AllKnownOn(ListedAll(EMPTY_FLOOR, tickers).value, rs)
    ensures k <= |rs| && AllKnownOn(ListedAll(EMPTY_FLOOR, tickers).value, rs[..k])
    ensures var f := ListedAll(EMPTY_FLOOR, tickers).value;
      && ServeUntil(linked, f, rs) == ServeAll(linked, f, rs[..k])
      && (EndOf(linked, f, rs) == Carried ==> k == |rs|)
    ensures NumberedFromOne(ServeUntil(linked, ListedAll(EMPTY_FLOOR, tickers).value, rs).updates)
    ensures var f := ListedAll(EMPTY_FLOOR, tickers).value;
      var e := ServeUntil(linked, f, rs);
      forall i :: 0 <= i < k && rs[i].kind != InvalidRequest ==>
        && AllKnownOn(f, rs[..i])
        && var from := |ServeAll(linked, f, rs[..i]).responses|;
           from < |e.responses| && Answers(rs[i], (1 + Adds(rs[..i])) % 0x1_0000_0000, e.responses[from])
    ensures var f := ListedAll(EMPTY_FLOOR, tickers).value;
      var e, reg := ServeUntil(linked, f, rs), AllRegistered(map[], rs[..k], 1);
      Adds(rs) <= 0x1_0000_0000 ==> FloorOwned(reg, e.floor) && AllTold(reg, e.responses, e.updates)
  {
    hide ListedAll, ServeUntil, ServeAll, AllKnownOn, FloorSound, FloorOwned, AllTold, AllRegistered, Answers, EndOf;
    OpensEmpty(tickers);
    var f := ListedAll(EMPTY_FLOOR, tickers).value;
    k := UntilIsAPrefix(linked, f, rs);
    var e := ServeUntil(linked, f, rs);
    forall i | 0 <= i < |TradeIds(e.updates)| ensures TradeIds(e.updates)[i] == (1 + i) % 0x1_0000_0000 {
      TradesFromOne(linked, f, rs[..k], i);
    }
    forall i | 0 <= i < k && rs[i].kind != InvalidRequest
      ensures AllKnownOn(f, rs[..i])
      ensures var from := |ServeAll(linked, f, rs[..i]).responses|;
        from < |e.responses| && Answers(rs[i], (1 + Adds(rs[..i])) % 0x1_0000_0000, e.responses[from])
    {
      EveryRequestIsAnswered(linked, f, rs[..k], i);
      assert rs[..k][..i] == rs[..i] && rs[..k][i] == rs[i];
    }
    if Adds(rs) <= 0x1_0000_0000 {
      FewerAdds(rs, k);
      OwnedFromTheStart(linked, f, rs[..k]);
    }
  }

  lemma {:induction false} FewerAdds(rs: seq<ClientRequest>, k: nat)
    requires k <= |rs|
    ensures Adds(rs[..k]) <= Adds(rs)
  {
    if k > 0 {
      assert rs[..k][1..] == rs[1..][..k - 1];
      FewerAdds(rs[1..], k - 1);
    }
  }

  /**
   * The same on the class: opens an exchange and serves what waits in the queue. Whatever becomes of the run,
   * as far as it is served the trades are numbered from 1 and every message is true to the requests.
   */
  method OpenAndServe(requests: LFQueue<ClientRequest>, responses: LFQueue<ClientResponse>,
                      updates: LFQueue<MarketUpdate>, linked: bool, tickers: seq<TickerId>,
                      ghost rs: seq<ClientRequest>)
    returns (exchange: Exchange, ok: bool, fate: Fate, ghost k: nat)
    requires requests.Valid() && Ready(responses, updates) && responses.pushed == [] && updates.pushed == []
    requires requests.pushed[requests.taken..] == rs && |rs| < requests.data.Length && Adds(rs) <= 0x1_0000_0000
    requires forall i :: 0 <= i < |rs| ==> rs[i].kind != InvalidRequest ==> rs[i].tickerId in tickers
    modifies requests`nextReadIndex, requests`taken, responses, responses.data, updates, updates.data
    ensures ok <==> ListedAll(EMPTY_FLOOR, tickers).Some?
    ensures ok && fate == Carried ==> k == |rs|
    ensures ok && fate != Ended ==> k <= |rs| && NumberedFromOne(updates.pushed)
    ensures ok && fate != Ended ==> AllTold(AllRegistered(map[], rs[..k], 1), responses.pushed, updates.pushed)
  {
    hide ListedAll, ServeUntil, ServeAll, FloorSound, FloorOwned, AllTold, AllRegistered, Answers, EndOf,
         LFQueues.LFQueue.Valid, Exchanges.Exchange.Valid, Exchanges.Exchange.FloorNow;
    fate, k := Ended, 0;
    exchange, ok := Exchange.Open(requests, responses, updates, linked, tickers);
    if ok {
      OpensEmpty(tickers);
      KnownAtOpening(tickers, rs);
      ghost var p := ServeUntil(linked, ListedAll(EMPTY_FLOOR, tickers).value, rs);
      k := EveryRunFromTheOpening(linked, tickers, rs);
      assert exchange.Pending() == rs && NumberedFromOne(p.updates);
      fate := exchange.Drain();
      if fate != Ended {
        assert updates.pushed == [] + p.updates == p.updates && responses.pushed == [] + p.responses == p.responses;
      }
    }
  }

  lemma {:induction false} KnownAtOpening(tickers: seq<TickerId>, rs: seq<ClientRequest>)
    requires ListedAll(EMPTY_FLOOR, tickers).Some?
    requires forall i :: 0 <= i < |rs| ==> rs[i].kind != InvalidRequest ==> rs[i].tickerId in tickers
    ensures AllKnownOn(ListedAll(EMPTY_FLOOR, tickers).value, rs)
  {
    hide ListedAll;
    ListedAllIsUnion(EMPTY_FLOOR, tickers);
  }
}
