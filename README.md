# DocumentManager in Dafny

A model of `DocumentManager`, an in-memory document store whose one piece of logic is
the upsert policy of `save`. The store holds a single map `documentStorage` from id to
`Document`. `save` rejects a null document; a document whose id is neither null nor
empty updates the stored entry when the id is present and is inserted as given when it
is not; a document with a null or empty id gets a generated id written into it and is
inserted under that id. On update the caller gets back a rebuilt document carrying the
stored `created`, while the store keeps the caller's raw input, its own `created`
included. The update throws "Document with ID <id> not found" when the stored
document's `created` is null, because the lookup maps the stored document to its
`created` through an `Optional`. `search` and `findById` are stubs in the code: they
return an empty list and an empty `Optional` for every argument, and the model keeps
them that way.

Layout:

- `wrappers.dfy`: `Option` (a nullable reference) and `Result` (a return or a throw).
- `documents.dfy`: the `Document`, `Author` and `SearchRequest` records, with every
  field nullable; `Instant` as an integer; the `IllegalArgument` error and its messages.
- `upsert.dfy`: the policy as functions from the old storage to the returned value and
  the new storage: one for the public `save` and one for each private helper that reads
  or writes the map (`OldCreationDate`, `PutNew`, `Update`, `UpsertDocument`, `Save`), with
  the pure predicate `IdIsNeitherNullNorEmpty`. The test `isDocumentPresentInStorage` is
  written inline there as membership in the map. The file also holds the invariant
  `WellKeyed`: every key is non-empty and is the id of the document stored under it.
- `properties.dfy`: one lemma per behaviour of a single `save`.
- `history.dfy`: any sequence of `save` calls, with induction lemmas over it.
- `manager.dfy`: the class `DocumentManager`, with the map as a field that its methods
  reassign. `Save`, `UpsertDocument`, `UpdateDocument`, `GetOldDocumentCreationDate` and
  `PutNewDocument` are each proved against the `Upsert` function of the same name or role;
  `Search` and `FindById` are proved to return their constant results;
  `IsDocumentPresentInStorage` is a function of the map. A client method replays the
  update test.

The code and the behaviour its tests and documentation expect differ in several places.
The model follows the code:

- `findById` does not look anything up and does not reject a null id.
- `search` applies no filter.
- The stored `created` of an id does change on update, to whatever the caller supplied.
- An update also fails when the id is present but its stored `created` is null, not only
  when the entry vanished.
- A generated id is not checked against the storage. If it collides, the entry is replaced.

`UpdateExistingDocumentScenario` shows that the update test's `findById("1")` finds
nothing in the code as written.

## Model

| member | source | states |
|---|---|---|
| Upsert.IdIsNeitherNullNorEmpty | src/main/java/tech/innovatelu/document_manager/DocumentManager.java:64-67 | definitional predicate, no contract: the id is non-null and not the empty string |
| DocumentManager.DocumentManager.IsDocumentPresentInStorage | src/main/java/tech/innovatelu/document_manager/DocumentManager.java:69-71 | definitional function, no contract: the id is a key of the storage |
| Documents.NotFoundMessage | src/main/java/tech/innovatelu/document_manager/DocumentManager.java:92-94 | definitional function, no contract: the message "Document with ID <id> not found" |
| Documents.NullDocumentMessage | src/main/java/tech/innovatelu/document_manager/DocumentManager.java:40 | constant, no contract: the message "Document cannot be null" |
| Documents.Document | src/main/java/tech/innovatelu/document_manager/DocumentManager.java:142-150 | record with every field nullable; `created` an integer instant |
| Documents.Author | src/main/java/tech/innovatelu/document_manager/DocumentManager.java:152-157 | record with every field nullable |
| Documents.SearchRequest | src/main/java/tech/innovatelu/document_manager/DocumentManager.java:132-140 | record with every field nullable; never read by the model, as by the code |
| Upsert.OldCreationDate | src/main/java/tech/innovatelu/document_manager/DocumentManager.java:89-95 | succeeds exactly when the id is stored and its stored `created` is non-null, returning that `created`; otherwise the error "Document with ID <id> not found" |
| Upsert.PutNew | src/main/java/tech/innovatelu/document_manager/DocumentManager.java:97-102 | returns the document; the new storage has the id added, maps it to the document, and keeps every other entry |
| Upsert.Update | src/main/java/tech/innovatelu/document_manager/DocumentManager.java:73-87 | fails exactly when the stored `created` is missing, leaving the storage unchanged; otherwise returns the input's id, title, content and author with the stored `created`, and stores the raw input under the id |
| Upsert.UpsertDocument | src/main/java/tech/innovatelu/document_manager/DocumentManager.java:45-67 | keys only grow, by at most the target key (own id if usable, else the generated id); every other entry is kept; a failure changes nothing; a returned document carries the target key as id, as does the stored one |
| Upsert.Save | src/main/java/tech/innovatelu/document_manager/DocumentManager.java:38-43 | a null document yields "Document cannot be null" with the storage unchanged; any failure leaves the storage unchanged; keys only grow, by at most the target key, and no other entry changes |
| SaveProperties.NullDocumentIsRejected | src/main/java/tech/innovatelu/document_manager/DocumentManager.java:38-40 | save(null) throws IllegalArgument "Document cannot be null" and the storage is unchanged |
| SaveProperties.NewIdIsInsertedAsGiven | src/main/java/tech/innovatelu/document_manager/DocumentManager.java:48-53 | a usable id not yet stored: the document is returned unchanged and the storage is the old one plus id -> document |
| SaveProperties.MissingIdIsGenerated | src/main/java/tech/innovatelu/document_manager/DocumentManager.java:55-59 | a null or empty id: the generated id is written into the document, which is returned with that non-empty id and stored under exactly that key |
| SaveProperties.GeneratedIdCollisionOverwrites | src/main/java/tech/innovatelu/document_manager/DocumentManager.java:55-59 | the generated id is not checked: if it is already a key, its entry is replaced and the storage does not grow |
| SaveProperties.UpdateReturnsStoredCreated | src/main/java/tech/innovatelu/document_manager/DocumentManager.java:73-86 | update with a stored non-null `created`: the result has the input's id, title, content and author, and the stored `created` whatever the caller supplied |
| SaveProperties.UpdateStoresRawInput | src/main/java/tech/innovatelu/document_manager/DocumentManager.java:83-85 | update stores the raw input; stored and returned documents agree except on `created`, and are equal exactly when the caller supplied the stored `created` |
| SaveProperties.UpdateFailsOnNullStoredCreated | src/main/java/tech/innovatelu/document_manager/DocumentManager.java:89-95 | a stored id whose stored `created` is null: save throws "Document with ID <id> not found" and the storage is unchanged |
| SaveProperties.SaveFailsExactly | src/main/java/tech/innovatelu/document_manager/DocumentManager.java:38-95 | save fails if and only if the document is null or it is an update of an entry with null `created` |
| SaveProperties.SaveChangesOneKey | src/main/java/tech/innovatelu/document_manager/DocumentManager.java:45-102 | a successful save adds at most its target key and changes no other entry; the new storage is the old one with only that key set |
| SaveProperties.SaveStoresReturnedIdentity | src/main/java/tech/innovatelu/document_manager/DocumentManager.java:45-102 | after a successful save, the returned id is stored, and the stored document equals the returned one except possibly in `created` |
| SaveProperties.SavePreservesWellKeyed | src/main/java/tech/innovatelu/document_manager/DocumentManager.java:45-102 | every save keeps every key non-empty and equal to the id of the document stored under it |
| SaveHistory.KeysOnlyGrow | src/main/java/tech/innovatelu/document_manager/DocumentManager.java:83-100 | over any sequence of saves no key is removed and at most as many keys are added in total as there are calls |
| SaveHistory.UntouchedKeyIsUnchanged | src/main/java/tech/innovatelu/document_manager/DocumentManager.java:83-100 | over any sequence of saves, an entry that no call targets is left exactly as it was |
| SaveHistory.HistoryPreservesWellKeyed | src/main/java/tech/innovatelu/document_manager/DocumentManager.java:45-102 | any sequence of saves from a well-keyed storage ends in a well-keyed storage |
| DocumentManager.DocumentManager.constructor | src/main/java/tech/innovatelu/document_manager/DocumentManager.java:25 | the storage starts empty and well keyed |
| DocumentManager.DocumentManager.Save | src/main/java/tech/innovatelu/document_manager/DocumentManager.java:38-43 | the returned value and new storage are those of `Upsert.Save` on the old storage; the invariant is kept |
| DocumentManager.DocumentManager.UpsertDocument | src/main/java/tech/innovatelu/document_manager/DocumentManager.java:45-62 | the returned value and new storage are those of `Upsert.UpsertDocument`; the invariant is kept |
| DocumentManager.DocumentManager.UpdateDocument | src/main/java/tech/innovatelu/document_manager/DocumentManager.java:73-87 | the returned value and new storage are those of `Upsert.Update`; the invariant is kept |
| DocumentManager.DocumentManager.GetOldDocumentCreationDate | src/main/java/tech/innovatelu/document_manager/DocumentManager.java:89-95 | reads only; returns `Upsert.OldCreationDate` of the current storage |
| DocumentManager.DocumentManager.PutNewDocument | src/main/java/tech/innovatelu/document_manager/DocumentManager.java:97-102 | returns the document, and the storage is that of `Upsert.PutNew`; the invariant is kept |
| DocumentManager.DocumentManager.Search | src/main/java/tech/innovatelu/document_manager/DocumentManager.java:116-119 | as written, returns the empty sequence for every request and changes nothing |
| DocumentManager.DocumentManager.FindById | src/main/java/tech/innovatelu/document_manager/DocumentManager.java:127-130 | as written, returns none for every id, null included, and changes nothing |
| DocumentManager.UpdateExistingDocumentScenario | src/test/java/tech/innovatelu/document_manager/DocumentManager_SaveMethodTest.java:85-114 | after the update of the test, the returned `created` is the first save's, the stored one is the caller's `now`, the two documents differ, and `findById("1")` returns none |

## Left out

- Search filters (title prefixes, content substrings, author ids, a date range): `search` has no implementation, so there is nothing to model.
- Lookup by id: `findById` has no implementation; the found document and the rejected null id that its tests expect are not in the code.
- Concurrency: the `ConcurrentHashMap` is a plain sequential map here. The race between `containsKey` and `get` in the update path is out of scope.
- UUID generation: `UUID.randomUUID()` is a library call. The model takes the generated id as a non-empty parameter, and it claims no uniqueness.
- Aliasing: documents are values. The store keeps the caller's object in Java, so a later setter call by the caller changes the stored entry and can break `WellKeyed`. The model does not capture this. `setId` writing the generated id into the caller's object appears only as the id of the returned and stored value.
- Lombok-generated getters, setters, builders and `equals`: these are datatype fields and structural equality.
- `java.time.Instant` internals: an integer is enough, since only equality is used.
- ConcurrentHashMap's null-key rejection: never reached, because every key the code uses is non-null.
