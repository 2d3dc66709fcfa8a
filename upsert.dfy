/** The upsert policy of `DocumentManager.save`, as functions from the old storage
    to the returned value and the new storage. */
module Upsert {
  import opened Wrappers
  import opened Documents

  /** The contents of `documentStorage`: id to the document stored under it. */
  type Storage = map<string, Document>

  /** What one call yields: the returned document or the thrown error, and the storage afterwards. */
  datatype Saved = Saved(result: Result<Document, Error>, storage: Storage)

  /** The invariant every reachable storage keeps: keys are non-empty and each
      key is the id of the document stored under it. */
  predicate WellKeyed(storage: Storage) {
    forall k :: k in storage ==> k != "" && storage[k].id == Some(k)
  }

  predicate IdIsNeitherNullNorEmpty(id: Option<string>) {
    id.Some? && id.value != ""
  }

  /** The key a save of `document` writes under, if it writes at all. */
  function TargetKey(document: Document, generatedId: string): string {
    if IdIsNeitherNullNorEmpty(document.id) then document.id.value else generatedId
  }

  /** `Optional.ofNullable(get(id)).map(Document::getCreated).orElseThrow(...)`. */
  function OldCreationDate(storage: Storage, id: string): (r: Result<Instant, Error>)
    ensures r.Ok? <==> id in storage && storage[id].created.Some?
    ensures r.Ok? ==> r.value == storage[id].created.value
    ensures r.Err? ==> r.error == IllegalArgument(NotFoundMessage(id))
  {
    var stored := if id in storage then Some(storage[id]) else None;
    var created := match stored case None => None case Some(d) => d.created;
    match created
    case None => Err(IllegalArgument(NotFoundMessage(id)))
    case Some(t) => Ok(t)
  }

  /** `putNewDocument`: store the document under `id` and return it. */
  function PutNew(storage: Storage, id: string, document: Document): (s: Saved)
    ensures s.result == Ok(document)
    ensures s.storage.Keys == storage.Keys + {id} && s.storage[id] == document
    ensures forall k :: k in storage && k != id ==> s.storage[k] == storage[k]
  {
    Saved(Ok(document), storage[id := document])
  }

  /** `updateDocument`: return the input with the stored `created`, but store the raw input. */
  function Update(storage: Storage, document: Document): (s: Saved)
    requires IdIsNeitherNullNorEmpty(document.id)
    ensures s.result.Err? <==> !(document.id.value in storage && storage[document.id.value].created.Some?)
    ensures s.result.Err? ==> s.storage == storage
    ensures s.result.Ok? ==> SameExceptCreated(s.result.value, document)
    ensures s.result.Ok? ==> s.result.value.created == storage[document.id.value].created
    ensures s.result.Ok? ==> s.storage == storage[document.id.value := document]
  {
    var idOfDocument := document.id.value;
    match OldCreationDate(storage, idOfDocument)
    case Err(e) => Saved(Err(e), storage)
    case Ok(oldCreationDate) =>
      var updatedDocument := Document(Some(idOfDocument), document.title, document.content,
                                      document.author, Some(oldCreationDate));
      Saved(Ok(updatedDocument), storage[idOfDocument := document])
  }

  /** `upsertDocument`: update, insert under the document's own id, or insert under a generated id. */
  function UpsertDocument(storage: Storage, document: Document, generatedId: string): (s: Saved)
    requires generatedId != ""
    ensures storage.Keys <= s.storage.Keys <= storage.Keys + {TargetKey(document, generatedId)}
    ensures forall k :: k in storage && k != TargetKey(document, generatedId) ==> s.storage[k] == storage[k]
    ensures s.result.Err? ==> s.storage == storage
    ensures s.result.Ok? ==> s.result.value.id == Some(TargetKey(document, generatedId))
    ensures s.result.Ok? ==> s.storage.Keys == storage.Keys + {TargetKey(document, generatedId)}
    ensures s.result.Ok? ==> s.storage[TargetKey(document, generatedId)].id == Some(TargetKey(document, generatedId))
  {
    var id := document.id;
    if IdIsNeitherNullNorEmpty(id) then
      if id.value in storage then Update(storage, document)
      else PutNew(storage, id.value, document)
    else
      var withId := document.(id := Some(generatedId));
      PutNew(storage, generatedId, withId)
  }

  /** `save`: reject null, otherwise upsert. `generatedId` stands for the UUID the
      source would draw; it is only used when the document has no usable id. */
  function Save(storage: Storage, document: Option<Document>, generatedId: string): (s: Saved)
    requires generatedId != ""
    ensures document.None? ==> s == Saved(Err(IllegalArgument(NullDocumentMessage)), storage)
    ensures s.result.Err? ==> s.storage == storage
    ensures storage.Keys <= s.storage.Keys
    ensures document.Some? ==> s.storage.Keys <= storage.Keys + {TargetKey(document.value, generatedId)}
    ensures document.Some? ==>
      forall k :: k in storage && k != TargetKey(document.value, generatedId) ==> s.storage[k] == storage[k]
  {
    match document
    case None => Saved(Err(IllegalArgument(NullDocumentMessage)), storage)
    case Some(d) => UpsertDocument(storage, d, generatedId)
  }
}
