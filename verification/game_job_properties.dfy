/**
  Properties of the price job: the comparator's priority and exclusivity, and
  what one cycle records and enqueues.
*/
module GameJobProperties {
  import opened Wrappers
  import opened Prices
  import opened GameJob

  // ---------------------------------------------------------------------------
  // Reading a trace
  // ---------------------------------------------------------------------------

  /** The values `pick` selects from `calls`, in call order. */
  function Collect<T>(calls: seq<Call>, pick: Call -> Option<T>): seq<T>
  {
    if calls == [] then []
    else (match pick(calls[0]) case None => [] case Some(x) => [x]) + Collect(calls[1..], pick)
  }

  lemma {:induction false} CollectAppend<T>(a: seq<Call>, b: seq<Call>, pick: Call -> Option<T>)
    ensures Collect(a + b, pick) == Collect(a, pick) + Collect(b, pick)
    decreases |a|
  {
    if a == [] {
      assert a + b == b;
    } else {
      assert (a + b)[1..] == a[1..] + b;
      CollectAppend(a[1..], b, pick);
    }
  }

  function InsertOf(c: Call): Option<CurrentPrices> {
    if c.InsertPrice? then Some(c.prices) else None
  }

  function EnqueueOf(c: Call): Option<NotifyData> {
    if c.Enqueue? then Some(c.data) else None
  }

  /** The snapshots a trace inserts. */
  function Inserts(calls: seq<Call>): seq<CurrentPrices> {
    Collect(calls, InsertOf)
  }

  /** The notification requests a trace enqueues. */
  function Enqueues(calls: seq<Call>): seq<NotifyData> {
    Collect(calls, EnqueueOf)
  }

  /** A trace made only of scraper calls inserts and enqueues nothing. */
  lemma {:induction false} ScrapesOnly(calls: seq<Call>)
    requires forall i :: 0 <= i < |calls| ==> calls[i].Scrape?
    ensures Inserts(calls) == [] && Enqueues(calls) == []
    decreases |calls|
  {
    if calls != [] {
      ScrapesOnly(calls[1..]);
    }
  }

  // ---------------------------------------------------------------------------
  // The comparator
  // ---------------------------------------------------------------------------

  /**
    Two storefronts cannot both satisfy their predicate: each would have to be
    strictly below the other's current price. So the priority order only
    decides which predicate is asked first, never between two winners.
  */
  lemma DropsAreExclusive(last: GamePrice, cur: CurrentPrices, p: Platform, q: Platform)
    requires Drop(last, cur, p) && Drop(last, cur, q)
    ensures p == q
  {
    if p != q {
      var x := CurrentAt(cur, p).value;
      var y := CurrentAt(cur, q).value;
      BelowAllAt(Fin(x), OtherCurrent(cur, p) + AllLast(last), Position(p, q));
      BelowAllAt(Fin(y), OtherCurrent(cur, q) + AllLast(last), Position(q, p));
      assert false;
    }
  }

  /** Where storefront `q`'s current price sits among `p`'s other current prices. */
  function Position(p: Platform, q: Platform): (i: nat)
    requires p != q
    ensures i < 2
    ensures forall cur :: OtherCurrent(cur, p)[i] == PriceOrInf(CurrentAt(cur, q))
  {
    if q == Steam || (p == Steam && q == Nuuvem) then 0 else 1
  }

  lemma BelowAllAt(x: Ext, ps: seq<Ext>, i: nat)
    requires BelowAll(x, ps) && i < |ps|
    ensures Less(x, ps[i])
  {
  }

  /** The winner, when there is one, satisfies its predicate and has a current price. */
  lemma WinnerDrops(last: GamePrice, cur: CurrentPrices)
    ensures Winner(last, cur).Some? ==> Drop(last, cur, Winner(last, cur).value)
    ensures Winner(last, cur).Some? <==> exists p :: Drop(last, cur, p)
  {
    if Winner(last, cur).None? {
      forall p ensures !Drop(last, cur, p) {
        match p
        case Steam =>
        case Nuuvem =>
        case GreenManGaming =>
      }
    }
  }

  /** A storefront with no current price is never the winner, for any game. */
  lemma NoCurrentPriceNeverWins(last: GamePrice, cur: CurrentPrices, game: Game, p: Platform)
    requires CurrentAt(cur, p).None?
    ensures Winner(last, cur) != Some(p)
    ensures Decide(last, cur, game).Some? ==> Decide(last, cur, game).value.platform != p
  {
  }

  /**
    A null last price for Nuuvem or GreenManGaming does not stop that
    storefront from winning: its predicate answers exactly as if the last
    price had been `Infinity`.
  */
  lemma NullLastPriceReadsAsInfinity(last: GamePrice, cur: CurrentPrices)
    requires last.nuuvemPrice.None? || last.greenManGamingPrice.None?
    ensures IsNuuvemPriceLower(last, cur).lower ==
            IsNuuvemPriceLower(last.(nuuvemPrice := FillNull(last.nuuvemPrice)), cur).lower
    ensures IsGreenManGamingPriceLower(last, cur).lower ==
            IsGreenManGamingPriceLower(last.(greenManGamingPrice := FillNull(last.greenManGamingPrice)), cur).lower
  {
    assert forall p :: LastAt(last.(nuuvemPrice := FillNull(last.nuuvemPrice)), p) == LastAt(last, p);
    assert forall p :: LastAt(last.(greenManGamingPrice := FillNull(last.greenManGamingPrice)), p) == LastAt(last, p);
    assert AllLast(last.(nuuvemPrice := FillNull(last.nuuvemPrice))) == AllLast(last);
    assert AllLast(last.(greenManGamingPrice := FillNull(last.greenManGamingPrice))) == AllLast(last);
  }

  /**
    The record the Steam predicate mutates is what the Nuuvem predicate reads,
    and that in turn is what the GreenManGaming predicate reads; because the
    substitution only ever replaces null by `Infinity`, each predicate answers
    as it would on the untouched record. Once the Steam predicate has filled
    the record, the later two leave it as it is.
  */
  lemma SharedRecordIsHarmless(last: GamePrice, cur: CurrentPrices)
    ensures var afterSteam := IsSteamPriceLower(last, cur).last;
            && IsNuuvemPriceLower(afterSteam, cur) == IsNuuvemPriceLower(last, cur)
            && IsGreenManGamingPriceLower(IsNuuvemPriceLower(afterSteam, cur).last, cur)
               == IsGreenManGamingPriceLower(last, cur)
    ensures var afterSteam := IsSteamPriceLower(last, cur).last;
            && IsNuuvemPriceLower(afterSteam, cur).last == afterSteam
            && IsGreenManGamingPriceLower(afterSteam, cur).last == afterSteam
  {
    var afterSteam := IsSteamPriceLower(last, cur).last;
    SubstitutedFilledIsSame(afterSteam, IsNuuvemPriceLower(afterSteam, cur).last);
    SubstitutedFilledIsSame(afterSteam, IsGreenManGamingPriceLower(afterSteam, cur).last);
  }

  // ---------------------------------------------------------------------------
  // One cycle
  // ---------------------------------------------------------------------------

  /** The Steam scraper gives a price, and no present storefront's scraper throws. */
  predicate ScrapesSucceed(data: JobData, env: Env) {
    && env.steamScraper(data.steamUrl).Got?
    && env.steamScraper(data.steamUrl).price.Some?
    && (data.nuuvemUrl.Some? ==> env.nuuvemScraper(data.nuuvemUrl.value).Got?)
    && (data.greenManGamingUrl.Some? ==> env.gmgScraper(data.greenManGamingUrl.value).Got?)
  }

  /** The price a storefront contributes: null without a URL, else what its scraper returned. */
  function ScrapedPrice(url: Option<Url>, scraper: Url -> ScrapeResult): Option<Price>
    requires url.Some? ==> scraper(url.value).Got?
  {
    match url
    case None => None
    case Some(u) => scraper(u).price
  }

  /** The current prices of a cycle whose scrapes succeed. */
  function Scraped(data: JobData, env: Env): CurrentPrices
    requires ScrapesSucceed(data, env)
  {
    CurrentPrices(
      env.steamScraper(data.steamUrl).price.value,
      ScrapedPrice(data.nuuvemUrl, env.nuuvemScraper),
      ScrapedPrice(data.greenManGamingUrl, env.gmgScraper))
  }

  /** The scraper calls of a cycle whose scrapes succeed. */
  function ScrapeCalls(data: JobData): seq<Call> {
    [Scrape(Steam, data.steamUrl)]
    + (match data.nuuvemUrl case None => [] case Some(u) => [Scrape(Nuuvem, u)])
    + (match data.greenManGamingUrl case None => [] case Some(u) => [Scrape(GreenManGaming, u)])
  }

  /** The run of a cycle whose scrapes succeed, written out call by call. */
  lemma SucceededRun(data: JobData, env: Env)
    requires ScrapesSucceed(data, env)
    ensures var cur := Scraped(data, env);
            var recorded := ScrapeCalls(data) + [GetPrice(data.gameId), InsertPrice(data.gameId, cur)];
            var looked := recorded + [FindGame(data.gameId)];
            var last := env.lastPrice(data.gameId);
            var game := env.findGame(data.gameId);
            ScrapePrice(data, env) ==
              if last.None? then Run(recorded, Returned)
              else if game.None? then Run(looked, Returned)
              else match Decide(last.value, cur, game.value)
                   case None => Run(looked, Returned)
                   case Some(n) => Run(looked + [Enqueue(n)], Returned)
  {
  }

  /**
    The order of a cycle whose scrapes succeed: it returns; the scraper calls
    come first and only there; the snapshot is inserted right after the last
    price is read; the game is looked up exactly when a last price exists, and
    right after the insert; an enqueue can only be the final call, and only
    for a game that exists.
  */
  lemma CycleShape(data: JobData, env: Env)
    requires ScrapesSucceed(data, env)
    ensures ScrapePrice(data, env).settled == Returned
    ensures var r := ScrapePrice(data, env);
            forall i :: 0 <= i < |r.calls| ==> (r.calls[i].Scrape? <==> i < |ScrapeCalls(data)|)
    ensures var r := ScrapePrice(data, env);
            forall i :: 0 <= i < |r.calls| && r.calls[i].InsertPrice? ==> 0 < i && r.calls[i - 1] == GetPrice(data.gameId)
    ensures FindGame(data.gameId) in ScrapePrice(data, env).calls <==> env.lastPrice(data.gameId).Some?
    ensures var r := ScrapePrice(data, env);
            forall i :: 0 <= i < |r.calls| && r.calls[i].FindGame? ==> 0 < i && r.calls[i - 1].InsertPrice?
    ensures var r := ScrapePrice(data, env);
            forall i :: 0 <= i < |r.calls| && r.calls[i].Enqueue? ==>
              i == |r.calls| - 1 && env.findGame(data.gameId).Some?
  {
    var tail := RunTail(data, env);
    TraceOrder(ScrapeCalls(data), data.gameId, Scraped(data, env), tail);
  }

  /**
    A cycle whose scrapes succeed is its scrapes, the read of the last price,
    the insert of the scraped prices, and then `tail`: nothing without a last
    price; otherwise the lookup, followed by an enqueue only when the game
    exists and the comparator decides.
  */
  lemma RunTail(data: JobData, env: Env) returns (tail: seq<Call>)
    requires ScrapesSucceed(data, env)
    ensures ScrapePrice(data, env).settled == Returned
    ensures ScrapePrice(data, env).calls
            == ScrapeCalls(data) + [GetPrice(data.gameId), InsertPrice(data.gameId, Scraped(data, env))] + tail
    ensures tail == [] <==> env.lastPrice(data.gameId).None?
    ensures tail == [] || tail == [FindGame(data.gameId)]
            || (|tail| == 2 && tail[0] == FindGame(data.gameId) && tail[1].Enqueue?)
    ensures |tail| == 2 ==>
              && env.lastPrice(data.gameId).Some?
              && env.findGame(data.gameId).Some?
              && Decide(env.lastPrice(data.gameId).value, Scraped(data, env), env.findGame(data.gameId).value).Some?
              && tail[1] == Enqueue(Decide(env.lastPrice(data.gameId).value, Scraped(data, env),
                                           env.findGame(data.gameId).value).value)
    ensures |tail| == 1 ==>
              || env.findGame(data.gameId).None?
              || Decide(env.lastPrice(data.gameId).value, Scraped(data, env), env.findGame(data.gameId).value).None?
  {
    SucceededRun(data, env);
    var cur := Scraped(data, env);
    var last := env.lastPrice(data.gameId);
    var game := env.findGame(data.gameId);
    tail :=
      if last.None? then []
      else if game.None? then [FindGame(data.gameId)]
      else match Decide(last.value, cur, game.value)
           case None => [FindGame(data.gameId)]
           case Some(n) => [FindGame(data.gameId), Enqueue(n)];
  }

  /**
    The order facts of a trace made of scraper calls, the read of the last
    price, the insert, and then nothing, a lookup, or a lookup and an enqueue.
  */
  lemma TraceOrder(sc: seq<Call>, id: GameId, cur: CurrentPrices, tail: seq<Call>)
    requires forall i :: 0 <= i < |sc| ==> sc[i].Scrape?
    requires tail == [] || tail == [FindGame(id)] || (|tail| == 2 && tail[0] == FindGame(id) && tail[1].Enqueue?)
    ensures var calls := sc + [GetPrice(id), InsertPrice(id, cur)] + tail;
            && (forall i :: 0 <= i < |calls| ==> (calls[i].Scrape? <==> i < |sc|))
            && (forall i :: 0 <= i < |calls| && calls[i].InsertPrice? ==> 0 < i && calls[i - 1] == GetPrice(id))
            && (FindGame(id) in calls <==> tail != [])
            && (forall i :: 0 <= i < |calls| && calls[i].FindGame? ==> 0 < i && calls[i - 1].InsertPrice?)
            && (forall i :: 0 <= i < |calls| && calls[i].Enqueue? ==> i == |calls| - 1 && |tail| == 2)
  {
    var calls := sc + [GetPrice(id), InsertPrice(id, cur)] + tail;
    assert forall i :: 0 <= i < |sc| ==> calls[i] == sc[i];
    assert calls[|sc|] == GetPrice(id) && calls[|sc| + 1] == InsertPrice(id, cur);
    assert forall i :: |sc| + 2 <= i < |calls| ==> calls[i] == tail[i - |sc| - 2];
  }

  /** Scenario: no Steam price ends the cycle after the Steam scrape, with nothing recorded. */
  lemma NoSteamPriceEndsCycle(data: JobData, env: Env)
    requires env.steamScraper(data.steamUrl) == Got(None)
    ensures ScrapePrice(data, env) == Run([Scrape(Steam, data.steamUrl)], Returned)
    ensures Inserts(ScrapePrice(data, env).calls) == []
    ensures Enqueues(ScrapePrice(data, env).calls) == []
  {
    ScrapesOnly([Scrape(Steam, data.steamUrl)]);
  }

  /** A scraper that throws aborts the cycle before anything is recorded. */
  lemma TransportErrorRecordsNothing(data: JobData, env: Env)
    requires !ScrapesSucceed(data, env)
    ensures var r := ScrapePrice(data, env);
            && Inserts(r.calls) == []
            && Enqueues(r.calls) == []
            && (r.settled == Rejected <==> env.steamScraper(data.steamUrl) != Got(None))
  {
    var r := ScrapePrice(data, env);
    assert forall i :: 0 <= i < |r.calls| ==> r.calls[i].Scrape?;
    ScrapesOnly(r.calls);
  }

  /** Nuuvem and GreenManGaming are scraped exactly when the Steam price is there and their URL is. */
  lemma ScrapedIffUrlPresent(data: JobData, env: Env)
    requires ScrapesSucceed(data, env)
    ensures forall u :: Scrape(Nuuvem, u) in ScrapePrice(data, env).calls <==> data.nuuvemUrl == Some(u)
    ensures forall u ::
      Scrape(GreenManGaming, u) in ScrapePrice(data, env).calls <==> data.greenManGamingUrl == Some(u)
    ensures data.nuuvemUrl.None? ==> Scraped(data, env).nuuvem.None?
    ensures data.greenManGamingUrl.None? ==> Scraped(data, env).greenManGaming.None?
  {
    SucceededRun(data, env);
  }

  /**
    Once Steam gives a price and no scraper throws, exactly one snapshot is
    inserted, carrying the three scraped prices, whether or not a previous
    snapshot exists; it is inserted right after the last price is read.
  */
  lemma OneInsertOfScrapedPrices(data: JobData, env: Env)
    requires ScrapesSucceed(data, env)
    ensures var r := ScrapePrice(data, env);
            && r.settled == Returned
            && Inserts(r.calls) == [Scraped(data, env)]
            && exists i :: 0 <= i < |r.calls| - 1 && r.calls[i] == GetPrice(data.gameId)
                             && r.calls[i + 1] == InsertPrice(data.gameId, Scraped(data, env))
  {
    var tail := RunTail(data, env);
    InsertsOfTrace(ScrapeCalls(data), data.gameId, Scraped(data, env), tail);
  }

  /** A trace of scraper calls, the read, the insert of `cur`, and a tail without inserts inserts `cur` once. */
  lemma InsertsOfTrace(sc: seq<Call>, id: GameId, cur: CurrentPrices, tail: seq<Call>)
    requires forall i :: 0 <= i < |sc| ==> sc[i].Scrape?
    requires forall i :: 0 <= i < |tail| ==> !tail[i].InsertPrice?
    ensures var calls := sc + [GetPrice(id), InsertPrice(id, cur)] + tail;
            && Inserts(calls) == [cur]
            && calls[|sc|] == GetPrice(id) && calls[|sc| + 1] == InsertPrice(id, cur)
  {
    var mid := [GetPrice(id), InsertPrice(id, cur)];
    ScrapesOnly(sc);
    CollectAppend([GetPrice(id)], [InsertPrice(id, cur)], InsertOf);
    CollectAppend(sc, mid, InsertOf);
    InsertsNone(tail);
    CollectAppend(sc + mid, tail, InsertOf);
  }

  lemma {:induction false} InsertsNone(calls: seq<Call>)
    requires forall i :: 0 <= i < |calls| ==> !calls[i].InsertPrice?
    ensures Inserts(calls) == []
    decreases |calls|
  {
    if calls != [] {
      InsertsNone(calls[1..]);
    }
  }

  lemma {:induction false} EnqueuesNone(calls: seq<Call>)
    requires forall i :: 0 <= i < |calls| ==> !calls[i].Enqueue?
    ensures Enqueues(calls) == []
    decreases |calls|
  {
    if calls != [] {
      EnqueuesNone(calls[1..]);
    }
  }

  /**
    What a cycle enqueues is the comparator's decision: nothing without a last
    price or without the game, otherwise the request for the winner, if any.
    So no cycle enqueues more than one request.
  */
  lemma EnqueuesTheDecision(data: JobData, env: Env)
    ensures var r := ScrapePrice(data, env);
            var last := env.lastPrice(data.gameId);
            var game := env.findGame(data.gameId);
            && |Enqueues(r.calls)| <= 1
            && (!ScrapesSucceed(data, env) || last.None? || game.None? ==> Enqueues(r.calls) == [])
            && (ScrapesSucceed(data, env) && last.Some? && game.Some? ==>
                  Enqueues(r.calls) ==
                    match Decide(last.value, Scraped(data, env), game.value)
                    case None => []
                    case Some(n) => [n])
  {
    var r := ScrapePrice(data, env);
    if !ScrapesSucceed(data, env) {
      TransportErrorRecordsNothing(data, env);
    } else {
      SucceededRun(data, env);
      var cur := Scraped(data, env);
      var tail := RunTail(data, env);
      var recorded := ScrapeCalls(data) + [GetPrice(data.gameId), InsertPrice(data.gameId, cur)];
      assert forall i :: 0 <= i < |recorded| ==> !recorded[i].Enqueue?;
      EnqueuesNone(recorded);
      CollectAppend(recorded, tail, EnqueueOf);
      if |tail| == 2 {
        CollectAppend([tail[0]], [tail[1]], EnqueueOf);
        assert tail == [tail[0]] + [tail[1]];
      } else {
        assert forall i :: 0 <= i < |tail| ==> !tail[i].Enqueue?;
        EnqueuesNone(tail);
      }
    }
  }

  // ---------------------------------------------------------------------------
  // Worked scenarios
  // ---------------------------------------------------------------------------

  /** Steam drops from 50 to 40 with no other storefront: Steam is notified. */
  lemma SteamDropScenario(game: Game)
    ensures Decide(GamePrice(50.0, None, None), CurrentPrices(40.0, None, None), game)
            == Some(NotifyData(40.0, Fin(50.0), game.title, Steam, Some(game.steamUrl)))
  {
  }

  /** Nuuvem drops from 45 to 30 while Steam stays at 50: Nuuvem is notified. */
  lemma NuuvemDropScenario(game: Game)
    ensures Decide(GamePrice(50.0, Some(Fin(45.0)), None), CurrentPrices(50.0, Some(30.0), None), game)
            == Some(NotifyData(30.0, Fin(45.0), game.title, Nuuvem, game.nuuvemUrl))
  {
  }

  /**
    Nuuvem had no previous price and now costs 20 against Steam's unchanged 50:
    Nuuvem wins, and the request's old price is the `Infinity` placeholder.
  */
  lemma NewStorefrontPriceScenario(game: Game)
    ensures Decide(GamePrice(50.0, None, None), CurrentPrices(50.0, Some(20.0), None), game)
            == Some(NotifyData(20.0, Infinity, game.title, Nuuvem, game.nuuvemUrl))
  {
  }

  /** Steam unchanged and no other current price: nothing to notify. */
  lemma NoDropScenario(game: Game)
    ensures Decide(GamePrice(50.0, Some(Fin(45.0)), None), CurrentPrices(50.0, None, None), game) == None
  {
  }

  /** The first snapshot of a game is inserted and nothing is enqueued. */
  lemma FirstSnapshotScenario(data: JobData, env: Env)
    requires ScrapesSucceed(data, env)
    requires env.lastPrice(data.gameId).None?
    ensures Inserts(ScrapePrice(data, env).calls) == [Scraped(data, env)]
    ensures Enqueues(ScrapePrice(data, env).calls) == []
    ensures FindGame(data.gameId) !in ScrapePrice(data, env).calls
  {
    OneInsertOfScrapedPrices(data, env);
    EnqueuesTheDecision(data, env);
    SucceededRun(data, env);
  }
}
