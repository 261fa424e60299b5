/** The laws of single books, carried over to every run of the whole exchange. */
module ExchangeLaws {
  import opened Types
  import opened Matching
  import opened BookLaws
  import opened Conservation
  import opened MarketData
  import opened AsWritten
  import opened AsWrittenLaws
  import opened ExchangeModel
  import opened ExchangeAsWritten

  /** Neither subscribers nor the accounts look at trade ids. */
  lemma {:induction false} IdsDoNotMatter(us: seq<MarketUpdate>, vs: seq<MarketUpdate>, feed: Feed)
    requires Unnumbered(us) == Unnumbered(vs)
    ensures Replay(feed, us) == Replay(feed, vs) && Volume(us) == Volume(vs)
    decreases |us|
  {
    if us != [] && vs != [] {
      assert Unnumbered(us)[0] == us[0].(tradeId := INVALID_UINT32);
      assert Unnumbered(vs)[0] == vs[0].(tradeId := INVALID_UINT32);
      assert Unnumbered(us)[1..] == Unnumbered(us[1..]) && Unnumbered(vs)[1..] == Unnumbered(vs[1..]);
      assert Apply(feed, us[0]) == Apply(feed, vs[0]);
      IdsDoNotMatter(us[1..], vs[1..], Apply(feed, us[0]));
    }
  }

  /** What a ticker's own messages say about a run of the exchange. */
  ghost predicate Accounted(before: Book, after: Book, ms: seq<ClientResponse>, us: seq<MarketUpdate>, id: OrderId) {
    Conserves(before, Outcome(after, ms, us, 0), id)
  }

  /**
   * Over every run of the exchange, however the tickers interleave: each book stays ordered and
   * uncrossed, the ticker's part of the update stream rebuilds it from a feed that mirrored it, and
   * the ticker's part of the messages accounts for every order.
   */
  lemma {:induction false} EveryRunOfTheExchange(m: Market, rs: seq<ClientRequest>, ticker: TickerId, feed: Feed,
                                                 id: OrderId)
    requires AllKnown(m, rs) && ticker in m.books
    requires WellFormed(m.books[ticker]) && Mirrors(feed, m.books[ticker])
    ensures var e := ProcessAll(m, rs);
      var us := UpdatesOf(e.updates, ticker);
      && ticker in e.market.books
      && WellFormed(e.market.books[ticker])
      && Mirrors(Replay(feed, us), e.market.books[ticker])
      && Accounted(m.books[ticker], e.market.books[ticker], ResponsesOf(e.responses, ticker), us, id)
  {
    hide ProcessAll, AllKnown, Run, Projected, ResponsesOf, UpdatesOf, Unnumbered, WellFormed, Mirrors, Replay, Told,
         FilledOn,
         Volume, InBook;
    var own := Projected(rs, ticker, m.nextOrderId);
    var alone := Run(ticker, m.books[ticker], own, 0);
    TickersAreIndependent(m, rs, ticker, 0);
    RunKeepsWellFormed(ticker, m.books[ticker], own, 0);
    RunReplay(ticker, m.books[ticker], own, 0, feed);
    RunConserves(ticker, m.books[ticker], own, 0, id);
    IdsDoNotMatter(UpdatesOf(ProcessAll(m, rs).updates, ticker), alone.updates, feed);
  }

  /**
   * The same for the code with or without the link, with what is stranded: the chains of each book
   * stay sound, and its part of the messages describes and accounts for the stranded orders too.
   */
  lemma {:induction false} EveryRunOfTheFloor(linked: bool, f: Floor, rs: seq<ClientRequest>, ticker: TickerId,
                                              feed: Feed, id: OrderId)
    requires AllKnownOn(f, rs) && ticker in f.market.books && ticker in f.strays
    requires var d := Desk(f.market.books[ticker], f.strays[ticker]); SoundDesk(d) && MirrorsDesk(feed, d)
    ensures var e := ServeAll(linked, f, rs);
      var us := UpdatesOf(e.updates, ticker);
      && ticker in e.floor.market.books && ticker in e.floor.strays
      && var d, d' := Desk(f.market.books[ticker], f.strays[ticker]),
                      Desk(e.floor.market.books[ticker], e.floor.strays[ticker]);
         && SoundDesk(d')
         && MirrorsDesk(Replay(feed, us), d')
         && ConservesDesk(d, DeskOutcome(d', ResponsesOf(e.responses, ticker), us, 0), id)
  {
    hide ServeAll, AllKnownOn, RunAsWritten, Projected, ResponsesOf, UpdatesOf, Unnumbered, SoundDesk, MirrorsDesk,
         Replay, Told, FilledOn, Volume, OnDesk;
    var d, own := Desk(f.market.books[ticker], f.strays[ticker]), Projected(rs, ticker, f.market.nextOrderId);
    TickersStandAlone(linked, f, rs, ticker, 0);
    EveryRunAsWritten(linked, ticker, d, own, 0, feed, id);
    IdsDoNotMatter(UpdatesOf(ServeAll(linked, f, rs).updates, ticker),
                   RunAsWritten(linked, ticker, d, own, 0).updates, feed);
  }
}
