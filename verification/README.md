# Availability reconciliation of the product monitor

This project models, in Dafny, the availability reconciliation pass of a
product monitor: `monitorProducts` in `index.ts`. A pass reads the stored
`itemId -> inStock` table, fetches a product search, and narrows the list by
an optional case-insensitive name filter. It then stages an in-stock row for
every product left in the list and an out-of-stock row for every stored
in-stock item missing from it. It picks the products to notify about and
writes the staged rows as one insert-or-update batch keyed by item id.

The project has three modules:

- `catalog.dfy` (`Catalog`): the products table. Rows are `(itemId, inStock)`
  with unique ids. `ToMap` is the lookup map `getProducts` builds. `UpsertRow`
  and `UpsertRows` give the meaning of `INSERT ... ON CONFLICT (item_id) DO
  UPDATE SET in_stock = excluded.in_stock`. The class `Store` holds the rows
  and offers the full select and the batch write.
- `search.dfy` (`Search`): a product reduced to `(id, name)`, and the fetch
  outcome: the request threw, or the server answered with a status and a
  list. Also ASCII lower-casing, `includes`, and the name filter.
- `monitor.dfy` (`Monitor`): the two staging loops (method `Stage`), the
  whole pass as a function (`Pass`) and as a method on the `Store`
  (`MonitorProducts`), and the lemmas about them.

The table is kept as a sequence of rows in select order. A JavaScript `Map`
iterates in insertion order, so the second loop visits stored items in table
order. The model returns the write-set and the notify list in that order.

## Where the intended behaviour and the code differ

The model follows the code in each of these cases:

- **Absence is judged against the filtered list.** `foundProductIds` is built
  from the filtered list (index.ts:180). So with a filter set, a stored
  in-stock item that is still listed but fails the filter is staged out of
  stock. The intended rule judges absence against the whole fetched list,
  so that only items no longer listed at all are marked out of stock. `Monitor.FilteredOutItemStagedOutOfStock` proves the code's
  behaviour, and `Monitor.FilteredOutExample` shows it on a concrete input.
  The intended rule is given separately as `Monitor.StagedAgainstFullList`,
  with lemmas showing that it never flips a listed item and that the two
  agree when no filter is active.
- **Notifications come before the write.** `sendDiscordNotification` is fired
  inside the first loop, before the batch write (index.ts:197 against
  211-219). A pass whose write fails therefore still reports its notify list
  (outcome `WriteFailed`). The intended behaviour is to notify only after a
  successful write.

## Model

| member | source | states |
|---|---|---|
| Catalog.ToMapKeys | index.ts:81-85 | the lookup map has an entry for exactly the ids of the selected rows |
| Catalog.ToMapEntries | index.ts:84 | every entry of the lookup map is one of the selected rows |
| Catalog.ToMapAt | index.ts:84 | with unique item ids, each row's id maps to that row's own flag |
| Catalog.IndexOf | src/db/schema.ts:6 | the conflict lookup finds a row with the given id, or reports that no row has it |
| Catalog.UpsertRowEffect | index.ts:211-219 | one upsert keeps ids unique, keeps every existing row in place with its id, and changes the map only at the written id |
| Catalog.UpsertRowsEffect | index.ts:211-219 | a batch upsert keeps ids unique, never removes or moves a row, and leaves the old map overridden by the batch |
| Catalog.UpsertedValues | index.ts:211-219 | after the upsert each written id holds its written flag, every other stored id keeps its flag, and the id set only grows |
| Catalog.UpsertRowsUnchanged | index.ts:211-219 | a batch that only repeats stored flags leaves the table exactly as it was |
| Catalog.Store.SelectAll | index.ts:82 | the full select returns every row of the table, with unique ids |
| Catalog.Store.UpsertBatch | index.ts:211-219 | the batch write keeps ids unique, adds the batch to the stored map, and drops no id |
| Search.Lower | index.ts:165 | lower-casing keeps the length, turns each ASCII capital into its lower-case letter, and changes nothing else |
| Search.ContainsIsOccurrence | index.ts:165 | `includes` holds exactly when the needle occurs at some position of the text |
| Search.Narrow | index.ts:163-166 | the filtered list holds exactly the listed products whose lower-cased name contains the lower-cased filter |
| Search.NarrowConcat | index.ts:164-166 | filtering a concatenation is the concatenation of the filtered parts, so every matching product is kept, as often as it occurs and in list order |
| Search.NarrowSingle | index.ts:164-166 | a one-product list is kept exactly when its product matches the filter |
| Search.NarrowKeepsDistinct | index.ts:164-166 | filtering a list with distinct ids yields a list with distinct ids |
| Monitor.Pass | index.ts:146-176 | a failed fetch, an empty list and an empty filtered list end the pass with nothing staged and nobody notified; a write is attempted exactly when the fetch succeeded and the filtered list is not empty, and then the batch is not empty |
| Monitor.Stage | index.ts:178-209 | for a select result with unique ids (so its rows are the lookup map's entries), the two loops stage the found rows followed by the vanished rows, and collect the notify list, in list and table order |
| Monitor.MonitorProducts | index.ts:118-223 | the pass on the table returns what `Pass` describes, stores the staged rows only when the write succeeds, and otherwise leaves the table unchanged |
| Monitor.FoundRowsExactly | index.ts:183-187 | the first loop stages an in-stock row for each listed id and for nothing else |
| Monitor.NotifyExactly | index.ts:189-198 | a product is notified about exactly when it is listed, seed mode is off, and it is not stored as in stock |
| Monitor.VanishedShape | index.ts:202-208 | every row of the second loop is an out-of-stock row for a stored id outside the found ids |
| Monitor.VanishedExactly | index.ts:202-208 | the second loop stages false exactly for stored in-stock ids outside the found ids, never for ids stored as false, and no id twice |
| Monitor.StagedExactly | index.ts:180-209 | a staged row is in stock exactly for listed ids and out of stock exactly for stored in-stock ids that are not listed; other ids are never staged |
| Monitor.StagesDisjoint | index.ts:180-208 | the first loop stages exactly the found ids and the second only ids outside them |
| Monitor.StagedDistinct | index.ts:180-208 | with distinct listed ids, no id is staged twice |
| Monitor.PassStagesEachIdOnce | index.ts:161-209 | with distinct ids in the fetched list, a pass stages each id at most once |
| Monitor.StagedAsMap | index.ts:178-209 | as a map, the write-set sends listed ids to true and all its other ids to false, and covers every stored in-stock id not listed |
| Monitor.PassEffect | index.ts:161-219 | after a written pass every listed id is stored in stock, every other stored id is stored out of stock, and the id set grows only by the listed ids |
| Monitor.WrittenTable | index.ts:178-219 | the table a written pass leaves behind has unique ids and holds in stock exactly the listed ids |
| Monitor.NothingLeftToNotify | index.ts:189-198 | once every listed id is stored in stock, nobody is notified |
| Monitor.NothingLeftToVanish | index.ts:202-208 | once every stored in-stock id is listed, the second loop stages nothing |
| Monitor.RestagingChangesNothing | index.ts:183-219 | restaging listed ids that are already stored in stock changes no row |
| Monitor.SecondPassChangesNothing | index.ts:161-219 | a second pass on the same fetch result leaves the table exactly as the first left it and notifies about nothing |
| Monitor.FilteredOutItemStagedOutOfStock | index.ts:163-208 | with an active filter, a stored in-stock id none of whose listings match is staged out of stock, even when it is still listed |
| Monitor.FullListVariantKeepsListed | index.ts:201-208 | judged against the whole fetched list, no listed id is ever staged out of stock |
| Monitor.FullListVariantAgreesWithoutFilter | index.ts:163-208 | without an active filter, the code's absence rule and the whole-list rule stage the same rows |
| Monitor.ShoeFilterExample | index.ts:163-166 | the filter "shoe" keeps "Running Shoe" and drops "Hat" |
| Monitor.FilteredOutExample | index.ts:163-209 | a stored in-stock "Hat" that the filter "shoe" rejects is staged out of stock, "Running Shoe" is staged in stock and notified, and the whole-list rule would stage only "Running Shoe" |

## Left out

- Search.Lower: folds only the ASCII capitals A-Z. JavaScript's `toLowerCase` also folds other Unicode letters.
- Sending the notification is left out. This covers the Discord client login, the channel lookup, the embed with its URL, price text and thumbnail, and the early return when no channel is connected (index.ts:48-78, 88-116). The model records which products were sent to `sendDiscordNotification`, and in what order. It does not model delivery or its failure.
- The cron schedule and its no-overlap option (index.ts:67-73) are left out. Passes are modelled one at a time.
- The HTTP request is left out: its URL, headers, the one-second abort and JSON decoding (index.ts:122-150). Only the outcome is kept: the request threw, or it answered with a status and a product list.
- The SQL text, the Drizzle query builder and the PostgreSQL connection are left out. Only the map-level meaning of the select and the insert-or-update is kept.
- PostgreSQL rejects an `ON CONFLICT DO UPDATE` batch that touches one row twice. The model instead applies the batch row by row, so the last write wins. `Monitor.PassStagesEachIdOnce` shows that this case cannot arise when the fetched list has distinct ids.
- A select without `ORDER BY` may return rows in any order. The model takes the table's stored row order as the select order.
- A failure of the initial read (index.ts:119) is left out. That read sits outside the `try`, so its failure would reject the pass's promise.
- Command-line parsing, the required search query, seed-mode exit codes and the pm2 process file (index.ts:16-46, 226-238; pm2.config.js) are left out. The seed flag is kept only as an input to the notify decision.
- Logging is left out.
- The product fields other than `id` and `name` (types.ts) are left out, because the pass does not read them.
