# WeaviateService: a verified model of the record handling

This project models the part of `WeaviateService` (the data service of a
Telegram/n8n document assistant) that decides what ends up in, and comes back
out of, the vector store: the schema set-up done by `init`, inserting one
object with `addObject`, listing a collection with `getAllObjects`, and the
grouping by title that `semanticSearch` applies to the hits the store's fetch returns.

The remote store is modelled as its state: a map from collection name to a
collection (declared properties plus objects in enumeration order). The
service class holds that map in place of the client connection; the methods
that change the store (`Init`, `CreateCollection`, `AddObject`) have
`modifies` clauses and state the new map, and the ones that only read
(`GetAllObjects`, `SemanticSearch`) state their result.

Files:

- `records.dfy` (module `Records`): property values, stored objects, JavaScript
  truthiness, the string a value becomes as an object key, error outcomes.
- `grouping.dfy` (module `TitleGrouping`): the `reduce` fold of
  `semanticSearch`, a reference filter it is proved equal to, and the
  partition, order and key-set properties; also the fold as written against a
  plain `{}` accumulator (see Findings).
- `collections.dfy` (module `Collections`): collections, the two schemas, and
  `init`'s state transition with its lemmas.
- `service.dfy` (module `DataService`): the class `WeaviateService`.

Two consequences of the code are worth stating up front:

- Every group is keyed by title, and the code claims no order across groups:
  it accumulates into a plain object, whose keys enumerate integer-like keys
  first. The model returns a map.
- The schema step checks only `Documents`, and it throws on any failed
  create, including a `DocumentsMeta` that already exists. Once `Documents`
  exists without `DocumentsMeta`, no later `init` creates `DocumentsMeta`.

## Model

| member | source | states |
|---|---|---|
| `Records.Prop` | src/data-service/weaviate-service.js:111-113 | reading a property the object does not have yields undefined |
| `TitleGrouping.EffectiveTitle` | src/data-service/weaviate-service.js:129 | the group key is never empty: a falsy title (absent, null, empty, 0, false) gives "unknown", and a non-empty text title is the key itself |
| `TitleGrouping.AddToGroup` | src/data-service/weaviate-service.js:129-132 | (intended; see Findings) one fold step adds the hit's key if absent, leaves every other group as it was, and pushes the hit at the end of its own group, after that group's earlier members |
| `TitleGrouping.Group` | src/data-service/weaviate-service.js:128-133 | (intended; see Findings) the fold of the hits (its step applied to the fold of all but the last hit): no group is empty, and every member of group k has effective title k |
| `TitleGrouping.GroupIsMembers` | src/data-service/weaviate-service.js:128-133 | the fold's key set is exactly the set of effective titles of the hits, and the group under each key is the filter of the hits with that title, in the order the fetch returned them |
| `TitleGrouping.GroupPreservesOrder` | src/data-service/weaviate-service.js:130-131 | group k is the subsequence of the hits at strictly increasing positions, and those positions are exactly the ones titled k, so members keep the store's relative order |
| `TitleGrouping.GroupPlacesEachHitOnce` | src/data-service/weaviate-service.js:128-133 | every hit is in the group of its own effective title and in no other group |
| `TitleGrouping.GroupSizesSum` | src/data-service/weaviate-service.js:128-133 | the group sizes add up to the number of hits (the grouping is a partition) |
| `TitleGrouping.GroupAsWritten` | src/data-service/weaviate-service.js:128-133 | the fold over a plain `{}`: it never creates a group under an inherited `Object.prototype` key, and when it fails it is with a "push is not a function" error on such a key |
| `TitleGrouping.GroupAsWrittenFailsOnlyOnInheritedKeys` | src/data-service/weaviate-service.js:128-133 | the fold over a plain `{}` fails exactly when some hit's key names an inherited `Object.prototype` member; otherwise it equals the intended grouping `Group` |
| `TitleGrouping.GroupAsWrittenFailsAtFirstInherited` | src/data-service/weaviate-service.js:128-133 | the fold over a plain `{}` throws on the first hit whose key names an inherited `Object.prototype` member, and the error names that key; later hits are never reached |
| `TitleGrouping.ConstructorTitleThrows` | src/data-service/weaviate-service.js:130-131 | one hit titled "constructor" makes the fold as written throw, while the intended grouping gives it a group of its own |
| `Collections.CreateTransition` | src/data-service/weaviate-service.js:37-88 | `collections.create` succeeds exactly when the name is new and the store accepts it, then adds that collection empty with the given properties; it never alters an existing collection, and a failure changes nothing |
| `Collections.InitTransition` | src/data-service/weaviate-service.js:29-88 | `init` never alters or removes an existing collection, creates at most `Documents` and `DocumentsMeta`, and succeeds exactly when the existence check is answered and `Documents` existed or both could be created |
| `Collections.InitSkipsWhenDocumentsExists` | src/data-service/weaviate-service.js:29-35 | when `Documents` exists the store is unchanged and `init` succeeds, whether or not `DocumentsMeta` exists |
| `Collections.InitCreatesBoth` | src/data-service/weaviate-service.js:37-88 | from a store with neither collection, a successful `init` adds `Documents` (content, title, url, postedAt, page) and `DocumentsMeta` (title, url, postedAt), both empty |
| `Collections.InitCreatesDocumentsFirst` | src/data-service/weaviate-service.js:37-88 | `Documents` is created before `DocumentsMeta`: if the second create fails, `Documents` alone has been added and the error is thrown |
| `Collections.InitFailsCleanly` | src/data-service/weaviate-service.js:29-70 | if the existence check or the creation of `Documents` fails, nothing has been created and the error is thrown |
| `Collections.InitNeverRepairsMeta` | src/data-service/weaviate-service.js:29-35 | from a store holding `Documents` but not `DocumentsMeta` (what a failed second create leaves), any sequence of `init` calls, whatever the store's answers, leaves the store unchanged and never creates `DocumentsMeta` |
| `Collections.InitIdempotent` | src/data-service/weaviate-service.js:29-88 | with the same answers from the store, a second `init` leaves the store as the first left it; once `Documents` exists after the first call, a second call with any answers leaves the store unchanged, and succeeds whenever its existence check is answered |
| `DataService.WeaviateService.constructor` | src/data-service/weaviate-service.js:7-10 | the service starts over the given store state, which stands in for the client connection |
| `DataService.WeaviateService.CreateCollection` | src/data-service/weaviate-service.js:37-88 | creating a collection adds it empty with the given properties, and fails without change when the name exists or the store rejects it |
| `DataService.WeaviateService.Init` | src/data-service/weaviate-service.js:29-91 | the new store and the outcome are those of `InitTransition`; a failed existence check throws and changes nothing; with `Documents` present nothing changes |
| `DataService.WeaviateService.AddObject` | src/data-service/weaviate-service.js:95-104 | on success the target collection (default `Documents`) gains exactly `data` at the end, its properties and every other collection are unchanged; a missing collection or a rejected insert is returned as the error and changes nothing |
| `DataService.WeaviateService.GetAllObjects` | src/data-service/weaviate-service.js:106-118 | the listing succeeds exactly when the collection (default `DocumentsMeta`) exists and the store answers every request of the iteration, one per object plus the final one that finds the end (so an empty collection can fail too); it then has one entry per object, in enumeration order, holding exactly that object's title, url and postedAt; a store failure on any request is rethrown and no partial listing is returned |
| `DataService.WeaviateService.SemanticSearch` | src/data-service/weaviate-service.js:120-138 | only `Documents` is queried; a query error is rethrown; otherwise the hits are folded as the source does: with no title naming an inherited key the result is the title grouping `Group` of the hits, and otherwise the TypeError for the first hit whose title is an inherited key is rethrown; when the store returns at most `limit` hits (default 5) a result holds at most `limit` entries in all |

## Findings

| source | as written | input that shows it | evidently intended | confidence | as-written member | corrected member |
|---|---|---|---|---|---|---|
| src/data-service/weaviate-service.js:128-133 | the accumulator is a plain `{}` and a group is created only when `!groups[title]`; for a title naming an inherited member (`constructor`, `toString`, `__proto__`, ...) `groups[title]` is that truthy member, so no group is made and `groups[title].push` throws a TypeError, which `semanticSearch` rethrows | a single hit whose `title` is "constructor" | the hit is grouped under its title like any other | not executed | `TitleGrouping.GroupAsWritten` | `TitleGrouping.Group` |

`TitleGrouping.GroupAsWritten` is the fold as written, and `SemanticSearch`
runs it as the source does; `TitleGrouping.Group` is the corrected fold, whose
partition, order and key-set properties are proved, and `SemanticSearch`
returns exactly `Group` of the hits whenever no title names an inherited key.

## Left out

- Connection set-up, API-key header and timeouts (src/data-service/weaviate-service.js:13-25), and the `if (this.client)` guard that follows it: the model starts from a connected service.
- The collection descriptions, the vectorizer configuration and the console logging in `init`, `addObject` and `semanticSearch`: they do not affect the store state the model tracks.
- What the fetch at src/data-service/weaviate-service.js:124 returns: `SemanticSearch` takes it as a function parameter (`Query`) that sees only the objects of `Documents`, the text and the limit. The model claims nothing about how those hits are chosen or ordered.
- Each call into the store is modelled as one atomic step, and nothing else changes the store during a service call. Other clients' requests landing between the awaited calls are not modelled: for example, between the existence check and the creates in `init` (src/data-service/weaviate-service.js:29-71), or during the iteration of `getAllObjects` (line 109). So `InitFailsCleanly`, `CreateTransition` and `GetAllObjects` describe a store nobody else touches meanwhile.
- Store failures are inputs: `AddObject`'s `accepted` flag, `Init`'s `answered` flag and `rejected` names, and `GetAllObjects`'s `served` predicate stand for network or validation failures the store reports. Which failures occur is not modelled, only what the service does with them. A create of an existing name fails, and an insert into, listing of or query on a missing collection fails; the store's automatic schema creation on insert is not modelled.
- Enumeration order: a collection's objects are held in the order `getAllObjects` would see them, and `AddObject` places the new object last. The real store enumerates by object id, so the position of a new object in a listing is not captured.
- The paging that the store's iterator does internally: the model walks the whole collection at once, with one request per object and one more that finds the end. Which of the store's page requests fails is not modelled, only at which position of the listing the failure surfaces.
- Cross-group key order of the object `semanticSearch` returns: the result is a map (see above).
- Property values are undefined, null, text, integers and booleans. Fractional numbers and NaN are not modelled, and dates are carried as text.
- TitleGrouping.EffectiveTitle: an integer title becomes its full decimal digits as a key; JavaScript numbers are doubles, so integers above 2^53 are not exact and magnitudes from 10^21 up are written in exponent form (`1e+21`), which the key conversion does not reproduce.
- Every stored object has a property map in the model, both for the hits of the query and for the objects `getAllObjects` lists. So the `?.` guard on `chunk.properties` (line 129) reduces to reading an absent title, and the case where `item.properties` is missing and `item.properties.title` (lines 111-113) throws is not represented.
- `updateObject`, `deleteObject` and `getObjectById` (src/data-service/weaviate-service.js:140-181): thin wrappers over an older client API using the class name `Document`, which no collection of this schema has.
- data-service/weaviate-service.js, an older prototype of the same service, and src/index.js (the Telegram handlers, file download, PDF extraction, the HTTP endpoint and the webhook call): I/O and network glue.
