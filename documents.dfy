/** The records nested in DocumentManager: Document, Author and SearchRequest.
    Every field is a Java reference, so every field may be null. */
module Documents {
  import opened Wrappers

  /** `java.time.Instant`, reduced to a point on an integer time line (only equality is used). */
  type Instant = int

  datatype Author = Author(id: Option<string>, name: Option<string>)

  datatype Document = Document(
    id: Option<string>,
    title: Option<string>,
    content: Option<string>,
    author: Option<Author>,
    created: Option<Instant>)

  /** A search query; each filter may be null. The source never reads it. */
  datatype SearchRequest = SearchRequest(
    titlePrefixes: Option<seq<string>>,
    containsContents: Option<seq<string>>,
    authorIds: Option<seq<string>>,
    createdFrom: Option<Instant>,
    createdTo: Option<Instant>)

  /** The one exception kind the store throws, with its message. */
  datatype Error = IllegalArgument(message: string)

  const NullDocumentMessage := "Document cannot be null"

  function NotFoundMessage(id: string): string {
    "Document with ID " + id + " not found"
  }

  /** Two documents agree on every field except, possibly, `created`. */
  predicate SameExceptCreated(a: Document, b: Document) {
    a.id == b.id && a.title == b.title && a.content == b.content && a.author == b.author
  }
}
