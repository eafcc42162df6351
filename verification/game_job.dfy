/**
  The per-game price job: scrape every storefront, record the new price
  snapshot, and enqueue at most one price-drop notification.

  Scrapers, the price repositories, the game lookup and the notification queue
  are oracles held in `Env`; a cycle is a function returning the trace of the
  calls it makes to them.
*/
module GameJob {
  import opened Wrappers
  import opened Prices

  type Url = string
  type GameId = int

  datatype Platform = Steam | Nuuvem | GreenManGaming

  /** The game record returned by the game lookup. */
  datatype Game = Game(
    id: GameId,
    title: string,
    steamUrl: Url,
    nuuvemUrl: Option<Url>,
    greenManGamingUrl: Option<Url>)

  /** The job payload: the game and the storefront URLs to scrape. */
  datatype JobData = JobData(
    gameId: GameId,
    steamUrl: Url,
    nuuvemUrl: Option<Url>,
    greenManGamingUrl: Option<Url>)

  /** The prices scraped in one cycle; exactly what the cycle inserts. */
  datatype CurrentPrices = CurrentPrices(
    steam: Price,
    nuuvem: Option<Price>,
    greenManGaming: Option<Price>)

  /**
    The last registered price record as the job holds it in memory. The
    predicates overwrite its null fields in place with `Infinity`, which is why
    those fields may hold any `Ext`.
  */
  datatype GamePrice = GamePrice(
    steamPrice: Price,
    nuuvemPrice: Option<Ext>,
    greenManGamingPrice: Option<Ext>)

  /** The notification request put on the queue. */
  datatype NotifyData = NotifyData(
    currentPrice: Price,
    oldPrice: Ext,
    gameTitle: string,
    platform: Platform,
    gameUrl: Option<Url>)

  // ---------------------------------------------------------------------------
  // Reference reading of the comparator: null is +∞, no mutation, no `Math.min`.
  // ---------------------------------------------------------------------------

  function CurrentAt(cur: CurrentPrices, p: Platform): Option<Price> {
    match p
    case Steam => Some(cur.steam)
    case Nuuvem => cur.nuuvem
    case GreenManGaming => cur.greenManGaming
  }

  function LastAt(last: GamePrice, p: Platform): Ext {
    match p
    case Steam => Fin(last.steamPrice)
    case Nuuvem => OrInf(last.nuuvemPrice)
    case GreenManGaming => OrInf(last.greenManGamingPrice)
  }

  function UrlAt(game: Game, p: Platform): Option<Url> {
    match p
    case Steam => Some(game.steamUrl)
    case Nuuvem => game.nuuvemUrl
    case GreenManGaming => game.greenManGamingUrl
  }

  /** The current prices of the two other storefronts, null read as +∞. */
  function OtherCurrent(cur: CurrentPrices, p: Platform): seq<Ext> {
    match p
    case Steam => [PriceOrInf(cur.nuuvem), PriceOrInf(cur.greenManGaming)]
    case Nuuvem => [Fin(cur.steam), PriceOrInf(cur.greenManGaming)]
    case GreenManGaming => [Fin(cur.steam), PriceOrInf(cur.nuuvem)]
  }

  /** All three last registered prices, null read as +∞. */
  function AllLast(last: GamePrice): seq<Ext> {
    [LastAt(last, Steam), LastAt(last, Nuuvem), LastAt(last, GreenManGaming)]
  }

  /**
    Storefront `p` has a current price, and it is strictly below the other
    current prices and below every last registered price.
  */
  predicate Drop(last: GamePrice, cur: CurrentPrices, p: Platform) {
    && CurrentAt(cur, p).Some?
    && BelowAll(Fin(CurrentAt(cur, p).value), OtherCurrent(cur, p) + AllLast(last))
  }

  /** The storefront to notify about, checked in the priority Steam, Nuuvem, GreenManGaming. */
  function Winner(last: GamePrice, cur: CurrentPrices): Option<Platform> {
    if Drop(last, cur, Steam) then Some(Steam)
    else if Drop(last, cur, Nuuvem) then Some(Nuuvem)
    else if Drop(last, cur, GreenManGaming) then Some(GreenManGaming)
    else None
  }

  // ---------------------------------------------------------------------------
  // The comparator as written: three predicates sharing one mutable record.
  // ---------------------------------------------------------------------------

  /** A predicate's answer, and the last-price record as the predicate leaves it. */
  datatype Check = Check(lower: bool, last: GamePrice)

  /** `if (field == null) field = Infinity` */
  function FillNull(p: Option<Ext>): Option<Ext> {
    Some(OrInf(p))
  }

  /** Both nullable fields of `after` hold a value (a price or `Infinity`). */
  predicate Filled(after: GamePrice) {
    after.nuuvemPrice.Some? && after.greenManGamingPrice.Some?
  }

  /**
    `after` is `before` with its nulls replaced by `Infinity`: it is filled and
    reads the same as `before` at every storefront.
  */
  predicate Substituted(before: GamePrice, after: GamePrice) {
    && Filled(after)
    && forall p :: LastAt(after, p) == LastAt(before, p)
  }

  /** Substituting the nulls of an already filled record changes nothing. */
  lemma SubstitutedFilledIsSame(before: GamePrice, after: GamePrice)
    requires Filled(before)
    requires Substituted(before, after)
    ensures after == before
  {
    assert LastAt(after, Steam) == LastAt(before, Steam);
    assert LastAt(after, Nuuvem) == LastAt(before, Nuuvem);
    assert LastAt(after, GreenManGaming) == LastAt(before, GreenManGaming);
  }

  function FillLast(last: GamePrice): GamePrice {
    last.(nuuvemPrice := FillNull(last.nuuvemPrice),
          greenManGamingPrice := FillNull(last.greenManGamingPrice))
  }

  /**
    `isSteamPriceLower`: true iff the current Steam price is strictly below the
    other two current prices and all three last prices, null read as +∞.
  */
  function IsSteamPriceLower(last: GamePrice, cur: CurrentPrices): (c: Check)
    ensures Substituted(last, c.last)
    ensures c.lower <==> Drop(last, cur, Steam)
  {
    var last' := FillLast(last);
    var curNuuvem := PriceOrInf(cur.nuuvem);
    var curGmg := PriceOrInf(cur.greenManGaming);
    var minCurrent := Min(curNuuvem, curGmg);
    var minLast := Min(Min(last'.nuuvemPrice.value, last'.greenManGamingPrice.value), Fin(last'.steamPrice));
    BelowMin(Fin(cur.steam), curNuuvem, curGmg);
    BelowMin(Fin(cur.steam), last'.nuuvemPrice.value, last'.greenManGamingPrice.value);
    BelowMin(Fin(cur.steam), Min(last'.nuuvemPrice.value, last'.greenManGamingPrice.value), Fin(last'.steamPrice));
    BelowAllFive(Fin(cur.steam), curNuuvem, curGmg, LastAt(last, Steam), LastAt(last, Nuuvem), LastAt(last, GreenManGaming));
    Check(Less(Fin(cur.steam), minCurrent) && Less(Fin(cur.steam), minLast), last')
  }

  /**
    `isNuuvemPriceLower`. The null check on the last Nuuvem price comes after
    that price has been replaced by `Infinity`, so it never fires: only a
    missing current Nuuvem price makes the predicate false outright.
  */
  function IsNuuvemPriceLower(last: GamePrice, cur: CurrentPrices): (c: Check)
    ensures Substituted(last, c.last)
    ensures c.lower <==> Drop(last, cur, Nuuvem)
  {
    var last' := FillLast(last);
    var curGmg := PriceOrInf(cur.greenManGaming);
    if cur.nuuvem.None? then Check(false, last')
    else if last'.nuuvemPrice.None? then Check(false, last')
    else
      var nuuvem := Fin(cur.nuuvem.value);
      var minCurrent := Min(Fin(cur.steam), curGmg);
      var minLast := Min(Min(Fin(last'.steamPrice), last'.greenManGamingPrice.value), last'.nuuvemPrice.value);
      BelowMin(nuuvem, Fin(cur.steam), curGmg);
      BelowMin(nuuvem, Fin(last'.steamPrice), last'.greenManGamingPrice.value);
      BelowMin(nuuvem, Min(Fin(last'.steamPrice), last'.greenManGamingPrice.value), last'.nuuvemPrice.value);
      BelowAllFive(nuuvem, Fin(cur.steam), curGmg, LastAt(last, Steam), LastAt(last, Nuuvem), LastAt(last, GreenManGaming));
      Check(Less(nuuvem, minCurrent) && Less(nuuvem, minLast), last')
  }

  /** `isGreenManGamingPriceLower`, symmetric to the Nuuvem predicate. */
  function IsGreenManGamingPriceLower(last: GamePrice, cur: CurrentPrices): (c: Check)
    ensures Substituted(last, c.last)
    ensures c.lower <==> Drop(last, cur, GreenManGaming)
  {
    var last' := FillLast(last);
    var curNuuvem := PriceOrInf(cur.nuuvem);
    if cur.greenManGaming.None? then Check(false, last')
    else if last'.greenManGamingPrice.None? then Check(false, last')
    else
      var gmg := Fin(cur.greenManGaming.value);
      var minCurrent := Min(Fin(cur.steam), curNuuvem);
      var minLast := Min(Min(Fin(last'.steamPrice), last'.greenManGamingPrice.value), last'.nuuvemPrice.value);
      BelowMin(gmg, Fin(cur.steam), curNuuvem);
      BelowMin(gmg, Fin(last'.steamPrice), last'.greenManGamingPrice.value);
      BelowMin(gmg, Min(Fin(last'.steamPrice), last'.greenManGamingPrice.value), last'.nuuvemPrice.value);
      BelowAllFive(gmg, Fin(cur.steam), curNuuvem, LastAt(last, Steam), LastAt(last, Nuuvem), LastAt(last, GreenManGaming));
      Check(Less(gmg, minCurrent) && Less(gmg, minLast), last')
  }

  /**
    The comparison at the end of `scrapePrice`: ask the three predicates in
    turn, each one handed the record the previous one mutated, and build the
    request for the first that holds.
  */
  function Decide(last: GamePrice, cur: CurrentPrices, game: Game): (n: Option<NotifyData>)
    ensures n.None? <==> Winner(last, cur).None?
    ensures n.Some? ==>
      var p := Winner(last, cur).value;
      && n.value.platform == p
      && CurrentAt(cur, p) == Some(n.value.currentPrice)
      && n.value.oldPrice == LastAt(last, p)
      && n.value.gameTitle == game.title
      && n.value.gameUrl == UrlAt(game, p)
  {
    var steam := IsSteamPriceLower(last, cur);
    if steam.lower then
      Some(NotifyData(cur.steam, Fin(steam.last.steamPrice), game.title, Steam, Some(game.steamUrl)))
    else
      var nuuvem := IsNuuvemPriceLower(steam.last, cur);
      assert Drop(steam.last, cur, Nuuvem) == Drop(last, cur, Nuuvem);
      if nuuvem.lower then
        Some(NotifyData(cur.nuuvem.value, nuuvem.last.nuuvemPrice.value, game.title, Nuuvem, game.nuuvemUrl))
      else
        var gmg := IsGreenManGamingPriceLower(nuuvem.last, cur);
        assert Drop(nuuvem.last, cur, GreenManGaming) == Drop(last, cur, GreenManGaming);
        if gmg.lower then
          Some(NotifyData(cur.greenManGaming.value, gmg.last.greenManGamingPrice.value,
                          game.title, GreenManGaming, game.greenManGamingUrl))
        else
          None
  }

  // ---------------------------------------------------------------------------
  // One scrape cycle as a trace of calls to the collaborators.
  // ---------------------------------------------------------------------------

  /** What a scraper call gives back: a price or null, or a transport error it throws. */
  datatype ScrapeResult = Got(price: Option<Price>) | TransportError

  /** The collaborators, as oracles. */
  datatype Env = Env(
    steamScraper: Url -> ScrapeResult,
    nuuvemScraper: Url -> ScrapeResult,
    gmgScraper: Url -> ScrapeResult,
    lastPrice: GameId -> Option<GamePrice>,
    findGame: GameId -> Option<Game>)

  /** One call made to a collaborator. */
  datatype Call =
    | Scrape(platform: Platform, url: Url)
    | GetPrice(gameId: GameId)
    | InsertPrice(gameId: GameId, prices: CurrentPrices)
    | FindGame(gameId: GameId)
    | Enqueue(data: NotifyData)

  /** How the cycle's promise settles: it returns, or a scraper's error propagates. */
  datatype Settled = Returned | Rejected

  datatype Run = Run(calls: seq<Call>, settled: Settled)

  /** The calls an optional scrape makes and what it yields. */
  datatype Attempt = Attempt(calls: seq<Call>, result: ScrapeResult)

  /** The `nuuvemUrl` and `greenManGamingUrl` guards of `scrapePrice`: a storefront is scraped only when its URL is not null. */
  function ScrapeIfPresent(p: Platform, url: Option<Url>, scraper: Url -> ScrapeResult): (a: Attempt)
    ensures url.None? ==> a == Attempt([], Got(None))
    ensures url.Some? ==> a == Attempt([Scrape(p, url.value)], scraper(url.value))
  {
    match url
    case None => Attempt([], Got(None))
    case Some(u) => Attempt([Scrape(p, u)], scraper(u))
  }

  /** `scrapePrice`: one monitoring cycle for one game. */
  function ScrapePrice(data: JobData, env: Env): (r: Run)
    ensures |r.calls| > 0 && r.calls[0] == Scrape(Steam, data.steamUrl)
    ensures forall u :: Scrape(Nuuvem, u) in r.calls ==> data.nuuvemUrl == Some(u)
    ensures forall u :: Scrape(GreenManGaming, u) in r.calls ==> data.greenManGamingUrl == Some(u)
  {
    var steamCall := [Scrape(Steam, data.steamUrl)];
    match env.steamScraper(data.steamUrl)
    case TransportError => Run(steamCall, Rejected)
    case Got(None) => Run(steamCall, Returned)
    case Got(Some(steam)) =>
      var nuuvem := ScrapeIfPresent(Nuuvem, data.nuuvemUrl, env.nuuvemScraper);
      if nuuvem.result.TransportError? then Run(steamCall + nuuvem.calls, Rejected)
      else
        var gmg := ScrapeIfPresent(GreenManGaming, data.greenManGamingUrl, env.gmgScraper);
        var scrapes := steamCall + nuuvem.calls + gmg.calls;
        if gmg.result.TransportError? then Run(scrapes, Rejected)
        else
          var cur := CurrentPrices(steam, nuuvem.result.price, gmg.result.price);
          var recorded := scrapes + [GetPrice(data.gameId), InsertPrice(data.gameId, cur)];
          var last := env.lastPrice(data.gameId);
          if last.None? then Run(recorded, Returned)
          else
            var looked := recorded + [FindGame(data.gameId)];
            var game := env.findGame(data.gameId);
            if game.None? then Run(looked, Returned)
            else
              match Decide(last.value, cur, game.value)
              case None => Run(looked, Returned)
              case Some(n) => Run(looked + [Enqueue(n)], Returned)
  }
}
