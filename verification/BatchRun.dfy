/** From the sequencer through the queue to the books: one batch, end to end. */
module BatchRuns {
  import opened AsWritten
  import opened LFQueues
  import opened FifoSequencers
  import opened Exchanges
  import opened ExchangeAsWritten

  /**
   * Publishes a batch and serves it. Whatever order its requests arrived in, the exchange ends where
   * serving them in time order ends, with those messages.
   */
  method ServeBatch(sequencer: FifoSequencer, exchange: Exchange, ghost inTime: seq<Timed>) returns (fate: Fate)
    requires sequencer.Valid() && exchange.Valid() && exchange.requests.Valid()
    requires Ready(exchange.responses, exchange.updates)
    requires sequencer.requests == exchange.requests && sequencer.pendingRequests !in exchange.repr
    requires sequencer !in exchange.repr && sequencer.pendingRequests != exchange.requests.data as object
    requires exchange.Pending() == [] && |sequencer.Pending()| < exchange.requests.data.Length
    requires TiesAgree(sequencer.Pending()) && SortOf(sequencer.Pending(), inTime)
    requires AllKnownOn(exchange.FloorNow(), RequestsOf(inTime))
    modifies sequencer, sequencer.pendingRequests, exchange.requests, exchange.requests.data
    modifies exchange, exchange.repr
    modifies exchange.responses, exchange.responses.data, exchange.updates, exchange.updates.data
    ensures fate == EndOf(exchange.linked, old(exchange.FloorNow()), RequestsOf(inTime))
    ensures fate == Carried ==> exchange.Valid()
    ensures var p := ServeUntil(exchange.linked, old(exchange.FloorNow()), RequestsOf(inTime));
      fate != Ended ==>
        && exchange.FloorNow() == p.floor
        && exchange.responses.pushed == old(exchange.responses.pushed) + p.responses
        && exchange.updates.pushed == old(exchange.updates.pushed) + p.updates
  {
    hide Exchanges.Exchange.Valid, Exchanges.Exchange.FloorNow, AllKnownOn, EndOf, ServeUntil, SortOf,
         TiesAgree, RequestsOf;
    exchange.QueuesOutside();
    ghost var batch := sequencer.Pending();
    ghost var sorted := sequencer.SequenceAndPublish();
    SortsPublishAlike(batch, inTime, sorted);
    fate := exchange.Drain();
  }

  lemma {:induction false} SortsPublishAlike(batch: seq<Timed>, t: seq<Timed>, u: seq<Timed>)
    requires TiesAgree(batch) && SortOf(batch, t) && SortOf(batch, u)
    ensures RequestsOf(t) == RequestsOf(u) && |RequestsOf(t)| == |batch|
  {
    PublicationIsSettled(batch);
    assert |multiset(t)| == |multiset(batch)|;
  }
}
