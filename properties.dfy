/** Properties of one call to `save`, case by case, stated against `Upsert.Save`. */
module SaveProperties {
  import opened Wrappers
  import opened Documents
  import opened Upsert

  /** A null document is rejected with "Document cannot be null"; nothing is stored. */
  lemma NullDocumentIsRejected(storage: Storage, generatedId: string)
    requires generatedId != ""
    ensures Save(storage, None, generatedId).result.Err?
    ensures Save(storage, None, generatedId).result.error.message == "Document cannot be null"
    ensures Save(storage, None, generatedId).storage == storage
  {
  }

  /** A document with a usable id that is not stored yet is stored and returned as given. */
  lemma NewIdIsInsertedAsGiven(storage: Storage, document: Document, generatedId: string)
    requires generatedId != ""
    requires IdIsNeitherNullNorEmpty(document.id) && document.id.value !in storage
    ensures Save(storage, Some(document), generatedId) == Saved(Ok(document), storage[document.id.value := document])
  {
  }

  /** A document whose id is null or empty gets the generated id written into it,
      is stored under exactly that key and returned with that (non-empty) id. */
  lemma MissingIdIsGenerated(storage: Storage, document: Document, generatedId: string)
    requires generatedId != ""
    requires !IdIsNeitherNullNorEmpty(document.id)
    ensures var s := Save(storage, Some(document), generatedId);
      && s.result.Ok?
      && s.result.value == document.(id := Some(generatedId))
      && s.result.value.id.Some? && s.result.value.id.value != ""
      && s.storage == storage[generatedId := s.result.value]
  {
  }

  /** The generated id is not checked against the storage: if it is already a key,
      its entry is silently replaced and the storage does not grow. */
  lemma GeneratedIdCollisionOverwrites(storage: Storage, document: Document, generatedId: string)
    requires generatedId != ""
    requires !IdIsNeitherNullNorEmpty(document.id) && generatedId in storage
    ensures var s := Save(storage, Some(document), generatedId);
      && s.result.Ok?
      && s.storage[generatedId] == document.(id := Some(generatedId))
      && |s.storage| == |storage|
  {
  }

  /** Update of a stored id whose stored `created` is present: the caller gets its own
      id, title, content and author back, with the stored `created` whatever it supplied. */
  lemma UpdateReturnsStoredCreated(storage: Storage, document: Document, generatedId: string)
    requires generatedId != ""
    requires IdIsNeitherNullNorEmpty(document.id) && document.id.value in storage
    requires storage[document.id.value].created.Some?
    ensures var s := Save(storage, Some(document), generatedId);
      && s.result.Ok?
      && s.result.value.id == document.id
      && s.result.value.title == document.title
      && s.result.value.content == document.content
      && s.result.value.author == document.author
      && s.result.value.created == storage[document.id.value].created
  {
  }

  /** Update stores the caller's raw input, its `created` included: the stored and the
      returned documents agree on every other field, and are equal exactly when the
      caller supplied the previously stored `created`. */
  lemma UpdateStoresRawInput(storage: Storage, document: Document, generatedId: string)
    requires generatedId != ""
    requires IdIsNeitherNullNorEmpty(document.id) && document.id.value in storage
    requires storage[document.id.value].created.Some?
    ensures var s := Save(storage, Some(document), generatedId);
      && s.result.Ok?
      && s.storage == storage[document.id.value := document]
      && SameExceptCreated(s.storage[document.id.value], s.result.value)
      && (s.storage[document.id.value] == s.result.value <==> document.created == storage[document.id.value].created)
  {
  }

  /** Update of a stored id whose stored `created` is null fails with
      "Document with ID <id> not found" although the id is stored; nothing is written. */
  lemma UpdateFailsOnNullStoredCreated(storage: Storage, document: Document, generatedId: string)
    requires generatedId != ""
    requires IdIsNeitherNullNorEmpty(document.id) && document.id.value in storage
    requires storage[document.id.value].created.None?
    ensures var s := Save(storage, Some(document), generatedId);
      && s.result == Err(IllegalArgument("Document with ID " + document.id.value + " not found"))
      && s.storage == storage
  {
  }

  /** A save fails exactly on a null document or on an update whose stored `created` is null. */
  lemma SaveFailsExactly(storage: Storage, document: Option<Document>, generatedId: string)
    requires generatedId != ""
    ensures Save(storage, document, generatedId).result.Err? <==>
      || document.None?
      || (&& IdIsNeitherNullNorEmpty(document.value.id)
          && document.value.id.value in storage
          && storage[document.value.id.value].created.None?)
  {
  }

  /** Every successful save changes at most one key, its target, and removes none. */
  lemma SaveChangesOneKey(storage: Storage, document: Document, generatedId: string)
    requires generatedId != ""
    requires Save(storage, Some(document), generatedId).result.Ok?
    ensures var s := Save(storage, Some(document), generatedId);
      var key := TargetKey(document, generatedId);
      && s.storage.Keys == storage.Keys + {key}
      && (forall k :: k in storage && k != key ==> s.storage[k] == storage[k])
      && s.storage == storage[key := s.storage[key]]
  {
  }

  /** What a successful save returns can be found under its own id afterwards,
      equal to the returned document on every field except possibly `created`. */
  lemma SaveStoresReturnedIdentity(storage: Storage, document: Option<Document>, generatedId: string)
    requires generatedId != ""
    requires Save(storage, document, generatedId).result.Ok?
    ensures var s := Save(storage, document, generatedId);
      && s.result.value.id.Some?
      && s.result.value.id.value in s.storage
      && SameExceptCreated(s.storage[s.result.value.id.value], s.result.value)
  {
  }

  /** Every save keeps the storage well keyed. */
  lemma SavePreservesWellKeyed(storage: Storage, document: Option<Document>, generatedId: string)
    requires generatedId != "" && WellKeyed(storage)
    ensures WellKeyed(Save(storage, document, generatedId).storage)
  {
  }
}
