# Game price tracker — a Dafny model of its price-drop core

This project models the decision logic of a game price tracker. The tracker
scrapes a game's price on Steam, Nuuvem and GreenManGaming, records a price
snapshot, and enqueues a price-drop notification when one storefront's
current price beats every other known price, current or last registered. It
also models three smaller parts of the system:

- the notification service that hands a notification to an ordered list of
  notifiers;
- the page arithmetic of the game listing;
- the validator of the "add game" request.

Modules, one per component:

- `Wrappers`: `Option`, with `None` standing for JavaScript's `null`.
- `Prices`: prices as `real`. The comparator's `Infinity` placeholder is the
  `Ext.Infinity` value. `Less` and `Min` are JavaScript's `<` and `Math.min`
  on these values. `BelowAll` is the reference reading of "strictly below
  every other price".
- `GameJob`: the job processor (`GameJobProcessor`).
  - The three private predicates are modelled as written. Each returns its
    answer together with the last-price record as it leaves it. The source
    overwrites the record's null fields with `Infinity` in place, and the same
    object is passed from one predicate to the next. `Decide` makes that
    threading explicit.
  - `Drop` and `Winner` are the reference comparator: null read as +∞, no
    mutation, no `Math.min`.
  - `ScrapePrice` is one cycle for one game. The scrapers, repositories, game
    lookup and queue are oracles held in an `Env`. The cycle returns the trace
    of the calls it makes to them, which is where inserts and enqueues show up.
- `GameJobProperties`: what a cycle records and enqueues, the comparator's
  priority and exclusivity, and worked scenarios.
- `Notification`: `NotificationService.start`, `notify` and `stop`. One
  recursive walk, `InOrder`, invokes the notifiers in list order and halts at
  the first failure. A notifier is seen only through whether each of its
  operations succeeds.
- `FindGames`: `FindGamesRepository.find`.
  - Page size, page count and offset.
  - The page query and the count query, with their shared title filter.
  - The meaning of the two queries over a table of games: filter, order by
    title, then slice.
- `AddGameValidator`: `AddGameValidator.validate`. The three URL regular
  expressions are written by hand as matchers. They keep the start-only
  anchoring and the unescaped `.` wildcards.

## Behaviour of the code worth knowing

- **A storefront with no previous price can still win.** The Nuuvem and
  GreenManGaming predicates check whether their own last price is null
  (game.job.processor.ts lines 155 and 184), evidently to refuse a winner
  that has no previous price. But lines 150 and 179 have already set that
  field to `Infinity`, so the check never fires. The model keeps the dead
  check and follows the code.
  - Example: last prices {Steam 50, Nuuvem null}, current prices {Steam 50,
    Nuuvem 20}. The code notifies Nuuvem, with old price `Infinity`
    (`GameJobProperties.NewStorefrontPriceScenario`).
- **The priority order never decides between two winners.** Each predicate
  requires its storefront's current price to be strictly below the others'
  current prices, so at most one predicate can hold
  (`GameJobProperties.DropsAreExclusive`). Asking Steam first, then Nuuvem,
  then GreenManGaming only fixes the order of the questions.

## Model

| member | source | states |
|---|---|---|
| `GameJob.IsSteamPriceLower` | apps/backend/src/modules/workers/game/game.job.processor.ts:118-137 | true iff the current Steam price is strictly below both other current prices and all three last prices, null read as +∞; the returned record is the input with its null last prices replaced by `Infinity` and otherwise unchanged |
| `GameJob.IsNuuvemPriceLower` | apps/backend/src/modules/workers/game/game.job.processor.ts:145-166 | true iff there is a current Nuuvem price and it is strictly below the current Steam and GreenManGaming prices and all three last prices; a null last Nuuvem price counts as +∞ and does not make it false |
| `GameJob.IsGreenManGamingPriceLower` | apps/backend/src/modules/workers/game/game.job.processor.ts:174-195 | the same for GreenManGaming: false only for a missing current price or a price not strictly below every other one |
| `GameJob.Decide` | apps/backend/src/modules/workers/game/game.job.processor.ts:63-109 | the three predicates asked in order on the record each one mutates give a request exactly when the reference comparator names a winner; the request carries the winner's platform, its current price, its last price (possibly the `Infinity` placeholder), the game title and the winner's URL |
| `GameJob.ScrapePrice` | apps/backend/src/modules/workers/game/game.job.processor.ts:33-48 | a cycle always starts by scraping Steam, and scrapes Nuuvem or GreenManGaming only at the URL the job gives for it |
| `GameJob.ScrapeIfPresent` | apps/backend/src/modules/workers/game/game.job.processor.ts:40-48 | without a URL a storefront is not scraped and its price stays null; with one, it is scraped once at that URL and yields what the scraper gives |
| `GameJobProperties.NoSteamPriceEndsCycle` | apps/backend/src/modules/workers/game/game.job.processor.ts:37-38 | when Steam gives no price the cycle's only call is the Steam scrape: no other scrape, no insert, no enqueue |
| `GameJobProperties.TransportErrorRecordsNothing` | apps/backend/src/modules/workers/game/game.job.processor.ts:37-48 | when the Steam price is missing or a scraper throws, nothing is inserted or enqueued, and the cycle is rejected exactly when a scraper threw |
| `GameJobProperties.ScrapedIffUrlPresent` | apps/backend/src/modules/workers/game/game.job.processor.ts:34-48 | once Steam gives a price, Nuuvem (GreenManGaming) is scraped at a URL exactly when that is the job's URL for it, and without a URL its current price stays null |
| `GameJobProperties.CycleShape` | apps/backend/src/modules/workers/game/game.job.processor.ts:37-109 | a cycle whose scrapes succeed returns; its scraper calls come first and nowhere else; the insert comes right after the read of the last price; the game is looked up exactly when a last price exists, right after the insert; an enqueue can only be the final call and only for a game that exists |
| `GameJobProperties.OneInsertOfScrapedPrices` | apps/backend/src/modules/workers/game/game.job.processor.ts:50-56 | once Steam gives a price and no scraper throws, exactly one snapshot is inserted, carrying the three scraped prices, immediately after the last price is read, whether or not a last price exists |
| `GameJobProperties.EnqueuesTheDecision` | apps/backend/src/modules/workers/game/game.job.processor.ts:58-109 | every cycle enqueues at most one request; none without a last price or without the game; otherwise exactly the comparator's decision |
| `GameJobProperties.DropsAreExclusive` | apps/backend/src/modules/workers/game/game.job.processor.ts:131-134 | no two storefronts can satisfy their price-drop condition at once |
| `GameJobProperties.WinnerDrops` | apps/backend/src/modules/workers/game/game.job.processor.ts:63-109 | the comparator names a storefront exactly when some storefront's drop condition holds, and the named one satisfies it |
| `GameJobProperties.NoCurrentPriceNeverWins` | apps/backend/src/modules/workers/game/game.job.processor.ts:154-154 | a storefront without a current price is never the winner, and for every game never the platform of a request |
| `GameJobProperties.NullLastPriceReadsAsInfinity` | apps/backend/src/modules/workers/game/game.job.processor.ts:150-155 | a null last Nuuvem (GreenManGaming) price gives the same predicate answer as an `Infinity` one: the later null check is dead |
| `GameJobProperties.SharedRecordIsHarmless` | apps/backend/src/modules/workers/game/game.job.processor.ts:123-124 | the Nuuvem and GreenManGaming predicates answer on the record mutated by the earlier predicates exactly as on the untouched record, and once the Steam predicate has filled the record they leave it unchanged |
| `GameJobProperties.SteamDropScenario` | apps/backend/src/modules/workers/game/game.job.processor.ts:69-76 | Steam falling from 50 to 40 with no other storefront notifies Steam with old price 50 |
| `GameJobProperties.NuuvemDropScenario` | apps/backend/src/modules/workers/game/game.job.processor.ts:85-92 | Nuuvem falling from 45 to 30 under Steam's 50 notifies Nuuvem with old price 45 |
| `GameJobProperties.NewStorefrontPriceScenario` | apps/backend/src/modules/workers/game/game.job.processor.ts:85-92 | Nuuvem at 20 with no previous Nuuvem price and Steam unchanged at 50 notifies Nuuvem with old price `Infinity` |
| `GameJobProperties.NoDropScenario` | apps/backend/src/modules/workers/game/game.job.processor.ts:63-109 | an unchanged Steam price with no other current price notifies nothing |
| `GameJobProperties.FirstSnapshotScenario` | apps/backend/src/modules/workers/game/game.job.processor.ts:50-58 | the first snapshot of a game is inserted, the game is not looked up and nothing is enqueued |
| `Notification.InOrder` | apps/backend/src/modules/notification/notification.service.ts:24-26 | the invoked notifiers are a prefix of the list; success iff every notifier succeeds, and then all were invoked in order; a failure at index k means notifiers 0..k were invoked, 0..k-1 succeeded, k failed, and none after k was invoked |
| `Notification.StartAll` | apps/backend/src/modules/notification/notification.service.ts:38-47 | notifiers are started in list order; at the first failed start the error propagates and the later notifiers stay unstarted |
| `Notification.NotifyAll` | apps/backend/src/modules/notification/notification.service.ts:23-27 | each notifier is called once in list order when none fails; at the first failed delivery the error propagates and the later notifiers are never called |
| `Notification.StopAll` | apps/backend/src/modules/notification/notification.service.ts:56-62 | notifiers are stopped in list order, halting at the first failure |
| `Notification.SecondOfThreeFailsScenario` | apps/backend/src/modules/notification/notification.service.ts:23-27 | with three notifiers where the second fails, the first two are invoked, the failure at index 1 propagates, the third is not invoked |
| `FindGames.CeilDiv` | src/modules/api/controllers/findGames/repositories/findGames.repository.ts:25-25 | `Math.ceil(a / b)` is the integer r with r - 1 < a / b <= r, for either sign of b |
| `FindGames.PerPage` | src/modules/api/controllers/findGames/repositories/findGames.repository.ts:23-23 | a numeric limit is the page size as given; a NaN limit gives 10 |
| `FindGames.PageNumber` | src/modules/api/controllers/findGames/repositories/findGames.repository.ts:26-26 | a numeric page is the page number as given; a NaN page gives 1 |
| `FindGames.Offset` | src/modules/api/controllers/findGames/repositories/findGames.repository.ts:26-26 | the offset is 0 exactly for the first page or a zero page size, and is not negative for a page from 1 on with a non-negative page size |
| `FindGames.PageCount` | src/modules/api/controllers/findGames/repositories/findGames.repository.ts:25-25 | a non-zero page size gives an integer page count; a zero page size gives NaN for no rows and Infinity otherwise |
| `FindGames.PageCountBounds` | src/modules/api/controllers/findGames/repositories/findGames.repository.ts:25-25 | for a positive page size, pages * perPage >= total and (pages - 1) * perPage < total when total > 0; no rows means 0 pages for any non-zero page size |
| `FindGames.PageStartBeforeTotal` | src/modules/api/controllers/findGames/repositories/findGames.repository.ts:25-26 | for a positive page size, page k (k >= 1) starts before row `total` exactly when k is at most `Math.ceil(total / perPage)` |
| `FindGames.OffsetWithinRows` | src/modules/api/controllers/findGames/repositories/findGames.repository.ts:23-26 | for a positive page size and a page from 1 on, the offset lies inside the rows matching the title exactly when the page is at most `pages` |
| `FindGames.DefaultPageStartsAtZero` | src/modules/api/controllers/findGames/repositories/findGames.repository.ts:26-26 | without a numeric page the offset is 0 |
| `FindGames.Where` | src/modules/api/controllers/findGames/repositories/findGames.repository.ts:35-37 | the filtered rows are exactly the table's rows whose title contains the filter, each matching row as many times as in the table, and the whole table when the title is null |
| `FindGames.SortByTitle` | src/modules/api/controllers/findGames/repositories/findGames.repository.ts:34-34 | the rows come out in ascending title order and are a permutation of the input |
| `FindGames.Find` | src/modules/api/controllers/findGames/repositories/findGames.repository.ts:22-51 | the query fails exactly for a negative page size or offset; otherwise the results are in title order, at most `perPage` of them, each a table row matching the title filter, and the page count is that of the rows matching the same filter |
| `FindGames.FirstPagesArePrefix` | src/modules/api/controllers/findGames/repositories/findGames.repository.ts:26-33 | pages 1 to n concatenated are the first n * perPage ordered rows |
| `FindGames.EveryPageOfRows` | src/modules/api/controllers/findGames/repositories/findGames.repository.ts:25-33 | pages 1 to `pages` concatenated are all the rows |
| `FindGames.EveryFoundPageIsSlice` | src/modules/api/controllers/findGames/repositories/findGames.repository.ts:26-39 | the results `find` returns for page k (k >= 1) are the k-th run of `perPage` rows of the matching rows in title order |
| `FindGames.ReadingEveryPage` | src/modules/api/controllers/findGames/repositories/findGames.repository.ts:22-41 | the results `find` returns for pages 1 to `pages`, concatenated, are the games matching the title in title order, each as many times as it is in the table |
| `FindGames.PageOfRowsInRange` | src/modules/api/controllers/findGames/repositories/findGames.repository.ts:25-33 | the slice for page k is non-empty exactly when 1 <= k <= pages |
| `FindGames.PageInRange` | src/modules/api/controllers/findGames/repositories/findGames.repository.ts:22-41 | a requested page from 1 to `pages` has results, and one past `pages` has none |
| `AddGameValidator.DigitRun` | src/modules/http/routes/addGame/addGame.validator.ts:11-11 | the scanned run is all digits and stops at a non-digit or the end of the string |
| `AddGameValidator.SteamUrlMatches` | src/modules/http/routes/addGame/addGame.validator.ts:11-11 | one scan of the app id accepts exactly the strings the Steam expression matches, with its 1-to-7-digit backtracking |
| `AddGameValidator.ObjectIssues` | src/modules/http/routes/addGame/addGame.validator.ts:7-22 | for an object body, no issue exactly when every property passes; a property has an issue exactly when it fails its schema entry; at most four issues, each naming a property, in the schema's key order |
| `AddGameValidator.Validate` | src/modules/http/routes/addGame/addGame.validator.ts:6-26 | success iff the body is an object, the title is a string, the Steam URL matches, and each other URL is absent or matches; a failure has at least one issue; for an object body, a property has an issue exactly when it fails the schema, at most one issue per property, in key order; any other body fails with one type issue at the root |
| `AddGameValidator.SteamAppIdLength` | src/modules/http/routes/addGame/addGame.validator.ts:11-11 | a Steam store URL with a numeric app id matches iff the id has 1 to 7 digits and a non-space character follows the next `/`: an 8-digit id is rejected |
| `AddGameValidator.MatchIgnoresSuffix` | src/modules/http/routes/addGame/addGame.validator.ts:11-18 | each expression is anchored only at the start, so any suffix after a match is accepted |
| `AddGameValidator.LookalikeSteamHostAccepted` | src/modules/http/routes/addGame/addGame.validator.ts:11-11 | the unescaped dots match any character but a line terminator, read as a Unicode scalar value, so `storeXsteampoweredXcom` passes |
| `AddGameValidator.NuuvemNeedsItemPath` | src/modules/http/routes/addGame/addGame.validator.ts:18-18 | a Nuuvem URL passes only with `/br-en/item/` after the host |
| `AddGameValidator.AbsentOptionalUrlsRaiseNothing` | src/modules/http/routes/addGame/addGame.validator.ts:12-19 | absent GreenManGaming and Nuuvem URLs never cause or appear in a failure |

## Left out

- Scrapers: fetching a page and reading its price with HTML selectors is not
  modelled. Each scraper is an oracle giving a price, null, or a thrown
  transport error. It is assumed to return only finite prices; JavaScript's
  `Number("Infinity")` would be an exception to that.
- Failures of the price repositories, the game lookup and the queue are not
  modelled. Only scraper errors are. Logging is not modelled either.
- Concurrency between cycles for different games, and the durability and
  delivery of the notification queue, are outside this model.
- `GameJob.ScrapePrice`: a job URL that is `undefined` rather than `null`
  passes the `!== null` test and would be scraped. The model has a single
  "no URL" value and never scrapes it.
- `GameJob.Decide`: the `as number` / `as string` casts in the request are
  TypeScript-only. The model keeps the game's URL as an optional value, so a
  game row without that storefront's URL gives a request with no URL.
- `Notification.NotifyAll`: the rule that `start` must be called before
  `notify` is documentation only. Like the source, the model keeps no
  lifecycle state and gives `notify` no precondition. A notifier that fails
  because it was never started is covered by its abstract outcome.
- The Telegram notifier is not modelled. Any notifier is an abstract value:
  whether its start and stop succeed, and the finite set of notifications it
  fails to deliver.
- `FindGames.Find`: the following are not modelled.
  - `Number()` coercion is reduced to "an integer or NaN". Fractional and
    infinite limits or pages are not modelled.
  - A limit of `-0` is read as 0. In JavaScript `Number("-0")` keeps the
    sign, so with matching rows `pages` is `-Infinity`, not `Infinity`.
  - `perPage * (page - 1)` is exact in the model. JavaScript rounds it to the
    nearest double once it exceeds 2^53.
  - A negative limit or offset is taken to be rejected by the database.
  - `LIKE '%title%'` is modelled as case-sensitive substring containment.
    The title's own `%` and `_` are not treated as wildcards.
  - Titles are ordered by code point rather than by a database collation.
    Among equal titles, the order is the one the sort produces.
  - The raw count query interpolates the title into SQL unescaped. The model
    only gives the count query's meaning, which is the number of rows
    matching the same filter.
- `FindGames.PageCount`: a zero page size is always `+0`, so the `-Infinity`
  that a limit of `-0` gives in JavaScript is not produced.
- `FindGames.Offset`: exact integer product, without the rounding of a double
  above 2^53.
- `AddGameValidator.Validate`: only each issue's path and code are modelled.
  Issue messages and zod's other issue fields are not. Strings are sequences
  of Unicode scalar values, not UTF-16 code units.
- The HTTP client wrapper, the frontend (router, components, API client) and
  the database integration test are not part of this model.
