/**
 * The request list JobScraper.update_google_doc sends to the Google Docs API, and an idealised
 * model of a document's body text to state what that list does to it.
 */
module DocsSync {
  import opened Wrappers

  /** The two request kinds the source sends (`deleteContentRange` and `insertText`). */
  datatype Request =
    | DeleteContentRange(startIndex: int, endIndex: int)
    | InsertText(index: int, text: string)

  /** A structural element of the fetched document's body; `endIndex` is None when the key is absent. */
  datatype StructuralElement = StructuralElement(endIndex: Option<int>)

  /**
   * What update_google_doc ends with: no document id (no API call at all); the document read
   * failed or its body has no elements (the error is caught, no update is sent); or the
   * `batchUpdate` sent for `documentId` with `requests`.
   */
  datatype SyncOutcome =
    | MissingDocumentId
    | DocumentUnreadable
    | BatchUpdate(documentId: string, requests: seq<Request>)

  /** `content[-1].get('endIndex', 1)`: the last element's end index, 1 when it has none. */
  function EndIndex(content: seq<StructuralElement>): int
    requires content != []
  {
    content[|content| - 1].endIndex.GetOr(1)
  }

  /** The batch for a full replace: delete `[1, endIndex - 1)`, then insert `content` at 1. */
  function ReplaceRequests(endIndex: int, content: string): seq<Request> {
    [DeleteContentRange(1, endIndex - 1), InsertText(1, content)]
  }

  // ---------------------------------------------------------------------------
  // Idealised document text: `body` is the body's text including the final newline every
  // document keeps; index 1 is its first character and the last element ends at |body| + 1.
  // A request outside the text, or a delete of an empty range, fails (None).
  // ---------------------------------------------------------------------------

  function Apply(body: string, request: Request): Option<string> {
    match request
    case DeleteContentRange(s, e) =>
      if 1 <= s < e <= |body| then Some(body[..s - 1] + body[e - 1..]) else None
    case InsertText(i, text) =>
      if 1 <= i <= |body| then Some(body[..i - 1] + text + body[i - 1..]) else None
  }

  /** A batch applies its requests in order and fails as a whole if one of them fails. */
  function ApplyAll(body: string, requests: seq<Request>): Option<string>
    decreases |requests|
  {
    if requests == [] then Some(body)
    else match Apply(body, requests[0])
      case None => None
      case Some(next) => ApplyAll(next, requests[1..])
  }

  /**
   * Full replace: whatever a document holds besides its final newline, the batch built from its
   * end index leaves exactly the new content followed by that newline.
   */
  lemma ReplaceOverwritesEverything(body: string, content: string)
    requires |body| >= 2 && body[|body| - 1] == '\n'
    ensures ApplyAll(body, ReplaceRequests(|body| + 1, content)) == Some(content + "\n")
  {
    var requests := ReplaceRequests(|body| + 1, content);
    assert requests[0] == DeleteContentRange(1, |body|);
    assert body[..0] + body[|body| - 1..] == "\n";
    assert Apply(body, requests[0]) == Some("\n");
    var newline: string := "\n";
    assert newline[..0] + content + newline[0..] == content + "\n";
    assert Apply("\n", requests[1]) == Some(content + "\n");
    assert requests[1..][0] == requests[1] && requests[1..][1..] == [];
    assert ApplyAll(content + "\n", requests[1..][1..]) == Some(content + "\n");
    assert ApplyAll("\n", requests[1..]) == Some(content + "\n");
  }

  /**
   * A document holding only its final newline (last element ending at 2) makes the delete range
   * [1, 1) empty, so the batch fails as a whole and the content is not written.
   */
  lemma ReplaceFailsOnEmptyDocument(content: string)
    ensures ApplyAll("\n", ReplaceRequests(2, content)).None?
  {
    var requests := ReplaceRequests(2, content);
    assert requests[0] == DeleteContentRange(1, 1);
  }
}
