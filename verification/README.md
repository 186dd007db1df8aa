# CardDAV property index and contact search

A Dafny model of the database layer of the CardDAV back-end (`OCA\DAV\CardDAV\Database`). That layer keeps a search index, the `cards_properties` table, next to the `cards` table. The model covers four things:

- **Index derivation** (`updateProperties`). A parsed vCard, meaning its child properties, each with a name, a value and parameters, becomes one index row `(addressbookid, cardid, name, value, preferred)` per property whose name is on the fixed allow-list. The value is cut to 254 characters. `preferred` is 1 when a `TYPE` parameter has the value `pref` in any letter case (the vCard 3.0 "pref" type value of RFC 2426, sections 3.2.1, 3.3.1 and 3.3.2).
- **Replace semantics** (`purgeProperties`, then the inserts). All rows of the card are deleted, whatever their address book, and the new rows are appended. The card's index becomes exactly the new derivation, and no other card's rows change.
- **Search** (`searchContact`). The distinct `carddata` of every card that joins with an index row satisfying three conditions: the row is in the requested address book, its name is one of the requested fields, and its value contains the pattern as a literal substring.
- **Lookups** (`getCardUri`, `getCardId`, `getContact`). These are exact-match scans over `cards`. `getCardId` returns 0 on a miss.

Tables are sequences of immutable rows, and every operation is a pure function from tables and arguments to a result table or value. Modules:

- `CardTables` (`tables.dfy`): the row types, the parsed vCard, `RowsOf` (one card's rows in table order) and `FirstIndex` (the row a first `fetch` returns).
- `Text` (`text.dfy`): ASCII upper-casing, and the substring scan that `LIKE '%…%'` performs on an escaped pattern.
- `PropertyIndex` (`index.dfy`): the allow-list, truncation, the preferred flag, derivation, purge and update.
- `CardSearch` (`search.dfy`): the query. `SearchScenario`, in the same file, is a worked example: Jane Doe, address books 7 and 8.
- `CardLookup` (`lookup.dfy`): the three lookups.

Two points about the code that the model makes explicit:

- `getCardId` returns 0 on a miss, which cannot be told apart from a hit on a card whose id is 0. `getCardUri` returns null on a miss, modelled as `None`. `LookupCardId` is the same id lookup with an explicit miss, and `CardIdIsLookupOrZero` ties it to `GetCardId`.
- `searchContact` builds its OR group from the requested fields. What an empty field list does is left to the query builder, so `SearchContact` requires a non-empty list (see below).

## Model

| member | source | states |
|---|---|---|
| Text.ToUpper | apps/dav/lib/carddav/database.php:148 | `strtoupper` keeps the length and upper-cases each character independently |
| Text.ToUpperIsPref | apps/dav/lib/carddav/database.php:148 | a parameter value upper-cases to `PREF` exactly when it is `pref` in some mix of letter cases, so `pref`, `Pref` and `PREF` all count |
| Text.Contains | apps/dav/lib/carddav/database.php:177 | the `LIKE '%pattern%'` test on an escaped pattern is true exactly when the pattern occurs at some position of the value |
| Text.ContainsEmpty | apps/dav/lib/carddav/database.php:177 | the empty pattern (`'%%'`) matches every value |
| PropertyIndex.Preferred | apps/dav/lib/carddav/database.php:146-152 | the flag is 0 or 1, and it is 1 exactly when some parameter is named `TYPE` with a value that upper-cases to `PREF`; stopping at the first such parameter does not change the answer |
| PropertyIndex.Truncate | apps/dav/lib/carddav/database.php:154 | the stored value is the prefix of length min(length of the value, 254) of the property value, so values of up to 254 characters are stored unchanged |
| PropertyIndex.IndexedChildren | apps/dav/lib/carddav/database.php:142-145 | the children kept are exactly those whose name is on the allow-list, and no others |
| PropertyIndex.IndexedChildrenKeepsRepeats | apps/dav/lib/carddav/database.php:142-145 | nothing is de-duplicated: an allow-listed child is kept as many times as the vCard holds it, and any other child is dropped |
| PropertyIndex.IndexedChildrenAppend | apps/dav/lib/carddav/database.php:142-145 | the `foreach` keeps document order: the kept children of an earlier part of the vCard come before those of a later part |
| PropertyIndex.Derive | apps/dav/lib/carddav/database.php:142-157 | the insert loop; it has no contract of its own, and DeriveRowPerIndexedChild, DeriveRowsShape, DeriveCoversChildren and DeriveCountsPerName state what it inserts |
| PropertyIndex.DeriveRowPerIndexedChild | apps/dav/lib/carddav/database.php:128-157 | the k-th inserted row is the row of the k-th allow-listed child, so there is one row per allow-listed child, in document order |
| PropertyIndex.DeriveRowsShape | apps/dav/lib/carddav/database.php:139-140 | every inserted row, and each row by position, carries the given card id; every inserted row also carries the given address book id, an allow-listed name, a value of at most 254 characters and a 0/1 flag |
| PropertyIndex.DeriveCoversChildren | apps/dav/lib/carddav/database.php:142-145 | every allow-listed child has its row, and a child with any other name produces no row with that name |
| PropertyIndex.DeriveCountsPerName | apps/dav/lib/carddav/database.php:142-157 | nothing is de-duplicated: an allow-listed name gets as many rows as the vCard has children with that name, and any other name gets none |
| PropertyIndex.Purge | apps/dav/lib/carddav/database.php:195-201 | the row count drops by exactly the number of rows the card had; PurgeKeepsOtherCards and PurgeFrame state which rows remain |
| PropertyIndex.PurgeKeepsOtherCards | apps/dav/lib/carddav/database.php:195-201 | the remaining rows are exactly the rows of other cards |
| PropertyIndex.PurgeFrame | apps/dav/lib/carddav/database.php:195-201 | after a purge the card has no rows in any address book, and every other card has the same rows in the same order |
| PropertyIndex.UpdateProperties | apps/dav/lib/carddav/database.php:125-157 | the purge followed by the insert loop; it has no contract of its own, and UpdateRowCount, UpdateSetsCardRows, UpdateKeepsOtherCards, UpdateReplaces and UpdatePreservesWellFormed state what it does |
| PropertyIndex.UpdateRowCount | apps/dav/lib/carddav/database.php:125-157 | the table loses exactly the card's old rows and gains one row per allow-listed child |
| PropertyIndex.UpdateSetsCardRows | apps/dav/lib/carddav/database.php:125-157 | after an update the card's rows, in every address book, are exactly the new derivation: none of the old rows survives and nothing is merged |
| PropertyIndex.UpdateKeepsOtherCards | apps/dav/lib/carddav/database.php:125-157 | an update leaves every other card's rows unchanged and in their order |
| PropertyIndex.UpdateReplaces | apps/dav/lib/carddav/database.php:125-126 | replace, not merge: updating a card twice gives the same table as the second update alone |
| PropertyIndex.UpdatePreservesWellFormed | apps/dav/lib/carddav/database.php:142-155 | if every index row has an allow-listed name, a value of at most 254 characters and a 0/1 flag, that stays true after an update |
| CardSearch.OrGroup | apps/dav/lib/carddav/database.php:173-180 | the OR of the per-field `name = field AND value LIKE '%pattern%'` disjuncts holds exactly when the row's name is one of the fields and its value contains the pattern |
| CardSearch.MatchingData | apps/dav/lib/carddav/database.php:170-181 | before DISTINCT, a card's data is selected exactly when the card joins on `cp.cardid = c.id` with a row meeting the WHERE clause |
| CardSearch.Distinct | apps/dav/lib/carddav/database.php:170 | `DISTINCT` keeps the same set of values, each one once |
| CardSearch.SearchContact | apps/dav/lib/carddav/database.php:168-187 | a `carddata` value is returned exactly when some card with that data has an index row in the requested address book, under a requested name, whose value contains the pattern; no value is returned twice |
| CardSearch.SearchEmptyPattern | apps/dav/lib/carddav/database.php:177-181 | with the empty pattern, the search returns the data of every card that has a row under a requested name in the address book |
| CardSearch.SearchFindsIndexedValue | apps/dav/lib/carddav/database.php:125-186 | after a card is indexed, searching its address book for any substring of a stored allow-listed value, under that property's name, returns the card's data |
| CardSearch.SearchLongPatternFindsNothing | apps/dav/lib/carddav/database.php:154-177 | in a well-formed index, a pattern longer than 254 characters matches nothing |
| CardSearch.SearchUnindexedFieldsFindNothing | apps/dav/lib/carddav/database.php:143-176 | in a well-formed index, searching only names outside the allow-list returns nothing |
| SearchScenario.JaneScenario | apps/dav/lib/carddav/database.php:125-186 | a card with FN "Jane Doe", EMAIL "jane@x.com" (TYPE=PREF) and UID "abc-123" in book 7 gets three rows with only the e-mail preferred. Searching book 7 for "jane" under FN or EMAIL returns it once. Searching under UID or in book 8 returns nothing |
| CardLookup.GetCardUri | apps/dav/lib/carddav/database.php:68-79 | returns the uri of the first card with the id, and no uri exactly when no card has that id |
| CardLookup.GetCardId | apps/dav/lib/carddav/database.php:87-98 | returns the id of the first card with the uri, and 0 when no card has that uri |
| CardLookup.LookupCardId | apps/dav/lib/carddav/database.php:87-98 | the same lookup with an explicit miss: absent exactly when no card has the uri, and otherwise the id of a card with that uri |
| CardLookup.CardIdIsLookupOrZero | apps/dav/lib/carddav/database.php:97 | `getCardId` is the explicit lookup with a miss read as 0 |
| CardLookup.CardIdZeroIsAmbiguous | apps/dav/lib/carddav/database.php:97 | whenever the first card with the uri has id 0, `getCardId` returns what it returns for a miss, while the explicit lookup tells the two apart |
| CardLookup.GetContact | apps/dav/lib/carddav/database.php:106-116 | the rows returned are exactly the cards whose uri equals the argument |
| CardLookup.GetContactKeepsRows | apps/dav/lib/carddav/database.php:107-112 | `fetchAll` returns each matching row as often as the table holds it, and no other row |
| CardLookup.ContactAgreesWithCardId | apps/dav/lib/carddav/database.php:87-116 | the first row `getContact` returns carries the id `getCardId` returns, and an empty `getContact` means `getCardId` returns 0 |
| CardLookup.UriIdRoundTrip | apps/dav/lib/carddav/database.php:68-98 | when ids are unique (the primary key), the uri looked up from the id looked up from an existing uri is that uri |
| CardLookup.IdUriRoundTrip | apps/dav/lib/carddav/database.php:68-98 | when uris are unique, the id looked up from the uri looked up from an existing id is that id |

## Left out

- The query builder, SQL generation, parameter binding, cursors and `execute` are not modelled. Each query is a pure function on row sequences.
- Store failures and exceptions are not modelled: every operation succeeds.
- Atomicity and concurrency are not modelled. The purge and the inserts are separate, non-transactional statements in the code. The model applies them as one function and claims no isolation between them.
- CardSearch.SearchContact: requires a non-empty field list. With no fields, the result depends on how the query builder treats an empty OR group followed by `andWhere`, and that code is not part of this model.
- CardSearch.OrGroup: compares `cp.name` with each requested field by exact, case-sensitive equality. A collation that folds case in `=` would let `email` select the `EMAIL` rows, and then SearchUnindexedFieldsFindNothing would not hold.
- Text.Contains: exact, case-sensitive substring containment. The database collation of `LIKE` may fold case, and the internals of `escapeLikeParameter` are not modelled: the pattern is taken to be literal once escaped.
- PropertyIndex.Truncate: counts characters. The code's `substr` counts bytes, so a multi-byte value may be cut at a different point, or inside a character.
- Text.ToUpper: upper-cases the ASCII letters `a` to `z` only. `strtoupper` can depend on the locale in older PHP versions.
- Parsing vCards, and the way `getValue()` renders multi-valued properties such as `N` and `ADR`, are not modelled. A property's value and each parameter's value are given as single strings. A parameter such as `TYPE=WORK,PREF`, whose value renders as `WORK,PREF`, therefore does not mark the row preferred, as in the code.
- CardLookup.GetCardUri: the first `fetch` is taken to return the first matching row in table order. The store does not promise any order. The same holds for GetCardId.
- CardSearch.SearchContact: the result order is whatever the model's DISTINCT produces. The store leaves the order unspecified, so the contract states only membership and the absence of duplicates.
- PropertyIndex.Purge: order is stated per card, through PurgeFrame. The relative order of rows belonging to different cards is kept by the definition but not stated in a contract.
- The constructor and the table-name fields only hold configuration and are not modelled.
