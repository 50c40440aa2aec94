# Customer/region record store (`dataService`)

A Dafny model of the storage facade `dataService` of a small customer-relationship
web app. The facade keeps two collections in the browser's key/value storage,
customers under `crm_customers` and regions under `crm_regions`, each as one
JSON-encoded array. The first read of an absent key writes and returns the seed
data. Saves replace by id or append, deletes filter by id, a bulk import appends a
list, and the weekly reset sets every customer's visit status to NOT_DONE.

Layout:

- `wrappers.dfy`: `Option`, for a storage key that may be absent.
- `records.dfy`: `Customer`, `Region`, `VisitStatus`, the two seed collections, the
  key functions the facade matches on, and `Primitive`, a JavaScript number or
  string compared with strict equality.
- `lists.dfy`: the array operations applied to a loaded collection, generic over
  the record type and its key. `FindIndex` models `findIndex`, `Upsert` the
  replace-or-append of a save, and `Without` the `filter` of a delete. The lemmas
  about them cover order, length, the rest of the collection and the id invariant.
- `visits.dfy`: `ResetStatuses`, the `map` of the weekly reset, and its lemmas.
- `data_service.dfy`: class `Store`, with one `Option<seq<..>>` field per storage
  key and a ghost log of every write in order. Each facade function is a method
  that reads and writes those fields through the functions above. `Valid()` says
  each key holds what was last written to it. The file also holds the two
  scenarios that connect the methods.

`deleteRegion` accepts a string or a number, but compares it with `!==` to the
numeric `Region.id`. A string argument therefore never matches any region, and the
model follows the code here (`DeleteRegionByString`). `resetWeeklyVisits` falls back
to the seed without writing it first. The model keeps that asymmetry: its log
shows a single write, where the other operations on an empty store log the seed
write first.

## Model

| member | source | states |
|---|---|---|
| Records.SeedsHaveUniqueIds | services/dataService.ts:4-45 | the seed has 3 customers and 4 regions, and neither collection has a duplicate id |
| Lists.FindIndex | services/dataService.ts:65 | the result is -1 exactly when no element has the key; otherwise it is an index whose element has the key and no earlier element has it |
| Lists.Without | services/dataService.ts:77 | no element of the result has the deleted key, every element comes from the input, and the result is no longer than the input |
| Lists.Upsert | services/dataService.ts:65-71 | the saved record is in the result; length is unchanged when its id is present and grows by one when absent (its full meaning is carried by the Upsert lemmas below) |
| Lists.UpsertExisting | services/dataService.ts:65-68 | when the id is present, only the first record with that id is replaced, at its index; length and every other record, later duplicates included, are unchanged |
| Lists.UpsertNew | services/dataService.ts:69-71 | when the id is absent, the record becomes the last element, length grows by one, and the old collection is the prefix |
| Lists.UpsertThenFind | services/dataService.ts:63-72 | after a save, a lookup of the saved id finds the saved record, at the replaced record's index or at the end |
| Lists.UpsertOtherKey | services/dataService.ts:63-72 | a save leaves the first-match index of every other id, and the record there, unchanged |
| Lists.UpsertIdempotent | services/dataService.ts:63-72 | saving the same record twice equals saving it once |
| Lists.UpsertKeepsUnique | services/dataService.ts:63-72 | a save on a collection with unique ids keeps the ids unique |
| Lists.EmbedsTail | services/dataService.ts:77 | an order-preserving selection from the tail is one from the whole collection, with or without its head |
| Lists.TailIndices | services/dataService.ts:77 | indices kept in the tail, shifted by one, are the kept indices after the head |
| Lists.WithoutKeepsOrder | services/dataService.ts:75-79 | a delete keeps exactly the records whose id differs, at increasing original indices, so relative order is kept |
| Lists.WithoutUnchangedIff | services/dataService.ts:75-79 | a delete leaves the collection unchanged if and only if no record has that id |
| Lists.WithoutIdempotent | services/dataService.ts:75-79 | deleting an id twice equals deleting it once |
| Lists.WithoutConcat | services/dataService.ts:77 | filtering a concatenation is the concatenation of the filtered parts |
| Lists.WithoutKeepsUnique | services/dataService.ts:77 | a delete keeps a unique-id collection unique |
| Visits.ResetStatuses | services/dataService.ts:131-134 | same length; each record has status NOT_DONE and every other field of the record at the same index |
| Visits.ResetIdempotent | services/dataService.ts:118-137 | a second reset changes nothing |
| Visits.ResetUnchangedIff | services/dataService.ts:131-134 | a reset leaves the collection unchanged if and only if every status is already NOT_DONE |
| Visits.ResetConcat | services/dataService.ts:110-134 | resetting an appended collection resets both parts |
| Visits.ResetKeepsUnique | services/dataService.ts:131-134 | a reset keeps a unique-id collection unique |
| Visits.ResetCommutesWithDelete | services/dataService.ts:77-134 | deleting an id and resetting the visits give the same collection in either order |
| Visits.ResetSeed | services/dataService.ts:11-45 | the reset seed has 3 records; customer "1", DONE in the seed, becomes NOT_DONE with shop name "صيدلية الورد" kept; all other fields are kept |
| DataService.Store.constructor | services/dataService.ts:47-50 | a store in which neither key has been written |
| DataService.Store.CurrentCustomers | services/dataService.ts:55-60 | the collection a read of `crm_customers` yields: the stored one, or the seed when the key is absent (used in the method contracts below) |
| DataService.Store.CurrentRegions | services/dataService.ts:82-87 | the same choice for `crm_regions` |
| DataService.Store.PutCustomers | services/dataService.ts:72 | one `setItem` of the customers: the key holds the collection and the write is appended to the log |
| DataService.Store.PutRegions | services/dataService.ts:99 | one `setItem` of the regions: the key holds the collection and the write is appended to the log |
| DataService.Store.GetCustomers | services/dataService.ts:54-61 | on an absent key, returns the seed and logs one seed write, so the key then holds the seed; on a present key, returns the stored collection and writes nothing |
| DataService.Store.GetRegions | services/dataService.ts:81-88 | as GetCustomers, for the regions and their seed |
| DataService.Store.SaveCustomer | services/dataService.ts:63-73 | the customers become the upsert of the loaded collection (the seed when absent); the log has the seed write, when there was one, before the final write |
| DataService.Store.DeleteCustomer | services/dataService.ts:75-79 | the customers become the loaded collection without the records of that id; the seed is written first when the key was absent |
| DataService.Store.SaveRegion | services/dataService.ts:90-100 | the regions become the upsert of the loaded collection by numeric id; the seed is written first when the key was absent |
| DataService.Store.DeleteRegion | services/dataService.ts:102-106 | the regions become the loaded collection without the records whose id strictly equals the argument; the seed is written first when the key was absent |
| DataService.Store.BulkImportCustomers | services/dataService.ts:108-112 | the customers become the loaded collection followed by the list, so length grows by the list's length and the old collection is the prefix; the seed is written first when the key was absent |
| DataService.Store.ResetWeeklyVisits | services/dataService.ts:118-137 | the customers become the reset of the stored collection, or of the seed when absent; exactly one write is logged, even on an empty store |
| DataService.DeleteRegionByString | services/dataService.ts:102-104 | deleting regions with a string argument leaves them unchanged |
| DataService.DeleteRegionByNumber | services/dataService.ts:102-104 | deleting regions with a number removes exactly the regions with that numeric id |
| DataService.BulkImportUniqueIff | services/dataService.ts:108-111 | for all inputs, an append has unique ids if and only if both parts do and no imported id is already stored, so any shared id yields a duplicate |
| DataService.BulkImportKeepsDuplicates | services/dataService.ts:108-111 | appending a seed customer again produces a duplicate id |
| DataService.WeeklyResetScenario | services/dataService.ts:54-137 | on a fresh store: first read returns the seed, with customer "1" DONE; after the reset, a read returns 3 customers, with "1" NOT_DONE and its shop name kept |
| DataService.SaveThenGetScenario | services/dataService.ts:54-73 | on a fresh store, save then read finds the saved customer under its id; the collection has 3 records for a seed id and 4 otherwise, with the new record last |

## Left out

- The `localStorage` API and the JSON text encoding are not modelled. Each key is
  an optional field holding the decoded collection, and `JSON.stringify` followed
  by `JSON.parse` is taken as the identity. Decode faults and storage-quota faults
  are not modelled either, so every operation completes.
- The `async`/`Promise` wrappers are not modelled. Each operation is modelled as
  one atomic read-modify-write. In the code, `saveCustomer`, `deleteCustomer`,
  `saveRegion`, `deleteRegion` and `bulkImportCustomers` `await` the read before
  they write (services/dataService.ts:64, 76, 91, 103, 109), so other calls can run
  in between. Two concurrent saves can both read the same collection, and the
  second write then drops the first save. A reset issued while a save is suspended
  can be overwritten the same way. Such interleavings and lost updates are not
  captured.
- The `try`/`catch` in `resetWeeklyVisits` and its `console.log`/`console.error`
  logging are left out. They only log and rethrow.
- Seed aliasing is not modelled. `getCustomers` returns the seed constant itself,
  so a first `saveCustomer` mutates that constant in place (services/dataService.ts:58,
  68-70). The same holds for `getRegions` and `saveRegion`
  (services/dataService.ts:85, 95-97). Here both seeds are immutable values.
- Phone numbers, links, region names and the soft reference from a customer's
  regions to the Regions collection are not validated by the code, and the model
  keeps them as plain strings.
- Numeric region ids are mathematical integers, not IEEE doubles, so `NaN` and
  fractional ids are not modelled.
- `types.ts` (the `Customer`, `Region` and `VisitStatus` declarations) is not part
  of this model. The record fields follow the seed literals, and `VisitStatus` is
  its three values DONE, NOT_DONE and POSTPONED.
