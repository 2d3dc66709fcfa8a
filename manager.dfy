/** The store object: one `documentStorage` map, updated in place by `save`. */
module DocumentManager {
  import opened Wrappers
  import opened Documents
  import opened Upsert

  /** The implementation over the mutable map; the functions of `Upsert` are its specification. */
  class DocumentManager {
    var documentStorage: Storage

    ghost predicate Valid()
      reads this
    {
      WellKeyed(documentStorage)
    }

    constructor ()
      ensures Valid() && documentStorage == map[]
    {
      documentStorage := map[];
    }

    function IsDocumentPresentInStorage(id: string): bool
      reads this
    {
      id in documentStorage
    }

    /** `save`: `generatedId` is the UUID drawn for a document without a usable id. */
    method Save(document: Option<Document>, generatedId: string) returns (r: Result<Document, Error>)
      requires Valid() && generatedId != ""
      modifies this
      ensures Valid()
      ensures Saved(r, documentStorage) == Upsert.Save(old(documentStorage), document, generatedId)
    {
      if document.None? {
        return Err(IllegalArgument(NullDocumentMessage));
      }
      r := UpsertDocument(document.value, generatedId);
    }

    method UpsertDocument(document: Document, generatedId: string) returns (r: Result<Document, Error>)
      requires Valid() && generatedId != ""
      modifies this
      ensures Valid()
      ensures Saved(r, documentStorage) == Upsert.UpsertDocument(old(documentStorage), document, generatedId)
    {
      var id := document.id;
      if IdIsNeitherNullNorEmpty(id) {
        if IsDocumentPresentInStorage(id.value) {
          r := UpdateDocument(document);
        } else {
          var saved := PutNewDocument(id.value, document);
          r := Ok(saved);
        }
      } else {
        var withId := document.(id := Some(generatedId));
        var saved := PutNewDocument(generatedId, withId);
        r := Ok(saved);
      }
    }

    method UpdateDocument(document: Document) returns (r: Result<Document, Error>)
      requires Valid() && IdIsNeitherNullNorEmpty(document.id)
      modifies this
      ensures Valid()
      ensures Saved(r, documentStorage) == Update(old(documentStorage), document)
    {
      var idOfDocument := document.id.value;
      var oldCreationDate := GetOldDocumentCreationDate(idOfDocument);
      if oldCreationDate.Err? {
        return Err(oldCreationDate.error);
      }
      var updatedDocument := Document(Some(idOfDocument), document.title, document.content,
                                      document.author, Some(oldCreationDate.value));
      documentStorage := documentStorage[idOfDocument := document];
      r := Ok(updatedDocument);
    }

    /** Reads only: the stored `created` of `id`, or the "not found" error. */
    method GetOldDocumentCreationDate(idOldDocument: string) returns (r: Result<Instant, Error>)
      ensures r == OldCreationDate(documentStorage, idOldDocument)
    {
      if idOldDocument in documentStorage && documentStorage[idOldDocument].created.Some? {
        r := Ok(documentStorage[idOldDocument].created.value);
      } else {
        r := Err(IllegalArgument(NotFoundMessage(idOldDocument)));
      }
    }

    method PutNewDocument(id: string, document: Document) returns (r: Document)
      requires Valid() && id != "" && document.id == Some(id)
      modifies this
      ensures Valid()
      ensures Saved(Ok(r), documentStorage) == PutNew(old(documentStorage), id, document)
    {
      documentStorage := documentStorage[id := document];
      r := document;
    }

    /** As written, `search` ignores the request and returns an empty list. */
    method Search(request: Option<SearchRequest>) returns (r: seq<Document>)
      ensures r == []
    {
      r := [];
    }

    /** As written, `findById` ignores the id (null included) and returns an empty Optional. */
    method FindById(id: Option<string>) returns (r: Option<Document>)
      ensures r == None
    {
      r := None;
    }
  }

  /** The scenario of the update test: store document "1" created at 2024-01-01T10:00:00Z,
      then re-save it with new fields and the caller's `now`. The caller gets the old
      `created` back, the store keeps `now`, and `findById("1")` finds nothing. */
  method UpdateExistingDocumentScenario(now: Instant)
    returns (saved: Result<Document, Error>, stored: Document, retrieved: Option<Document>)
    requires now != 1704103200
    ensures saved.Ok? && saved.value.id == Some("1") && saved.value.title == Some("Updated Document")
    ensures saved.value.created == Some(1704103200)
    ensures stored.created == Some(now) && stored != saved.value
    ensures retrieved == None
  {
    var authorOne := Some(Author(Some("A1"), Some("Author One")));
    var manager := new DocumentManager();
    var first := Document(Some("1"), Some("First Document"), Some("Content of the first document"),
                          authorOne, Some(1704103200));
    var _ := manager.Save(Some(first), "4b0e3c1e-0000-4000-8000-000000000001");
    var updated := Document(Some("1"), Some("Updated Document"), Some("Updated content"), authorOne, Some(now));
    saved := manager.Save(Some(updated), "4b0e3c1e-0000-4000-8000-000000000002");
    stored := manager.documentStorage["1"];
    retrieved := manager.FindById(Some("1"));
  }
}
