/** `useDocumentStore` (apps/web/src/store/documentStore.ts): the open document, its key,
    title and URLs, and the counters the editor reports. */
module DocumentStore {
  import opened Wrappers
  import OnlyOffice

  /** The template every new document starts from, and the save callback
      (apps/web/src/lib/fileUtils.ts). */
  const SampleDocUrl := "/sample.docx"
  const CallbackUrl := "/api/docs/callback"
  const UntitledTitle := "Untitled Document"

  /** `DocumentMeta`; the modification date is a timestamp in milliseconds. */
  datatype DocumentMeta = DocumentMeta(id: string, title: string, url: string, key: string,
                                       lastModified: int, size: Option<int>)

  datatype DocumentState = DocumentState(
    currentDoc: Option<DocumentMeta>,
    documentKey: string,
    documentTitle: string,
    documentUrl: string,
    callbackUrl: string,
    wordCount: int,
    pageCount: int,
    currentPage: int,
    isDirty: bool)

  /** The state of the store when it is created and after `newDocument`, with the key made
      from the given UUID. */
  function Blank(uuid: string): (r: DocumentState)
    ensures r.currentDoc.None? && !r.isDirty
    ensures OnlyOffice.IsKeyFor(r.documentKey, uuid)
    ensures r.documentTitle == UntitledTitle && r.documentUrl == SampleDocUrl && r.callbackUrl == CallbackUrl
    ensures r.wordCount == 0 && r.pageCount == 1 && r.currentPage == 1
  {
    DocumentState(None, OnlyOffice.GenerateDocumentKey(uuid), UntitledTitle, SampleDocUrl, CallbackUrl,
                  0, 1, 1, false)
  }

  /** The counters the store keeps in range: no negative word count, pages from one. */
  predicate CountersValid(s: DocumentState) {
    s.wordCount >= 0 && s.pageCount >= 1 && s.currentPage >= 1
  }

  function Max(a: int, b: int): int {
    if a >= b then a else b
  }

  /** `setPageInfo(current, total)`: each number is raised to at least one, separately. */
  function PageInfo(s: DocumentState, current: int, total: int): (r: DocumentState)
    ensures r == s.(currentPage := r.currentPage, pageCount := r.pageCount)
    ensures r.currentPage >= 1 && r.pageCount >= 1
    ensures current >= 1 ==> r.currentPage == current
    ensures current < 1 ==> r.currentPage == 1
    ensures total >= 1 ==> r.pageCount == total
    ensures total < 1 ==> r.pageCount == 1
  {
    s.(currentPage := Max(1, current), pageCount := Max(1, total))
  }

  /** The current page is not kept within the page count. */
  lemma PageBeyondCount(s: DocumentState)
    ensures PageInfo(s, 5, 3).currentPage > PageInfo(s, 5, 3).pageCount
  {
  }

  class Store {
    var currentDoc: Option<DocumentMeta>
    var documentKey: string
    var documentTitle: string
    var documentUrl: string
    var callbackUrl: string
    var wordCount: int
    var pageCount: int
    var currentPage: int
    var isDirty: bool

    function State(): DocumentState
      reads this
    {
      DocumentState(currentDoc, documentKey, documentTitle, documentUrl, callbackUrl,
                    wordCount, pageCount, currentPage, isDirty)
    }

    ghost predicate Valid()
      reads this
    {
      CountersValid(State())
    }

    /** The store as created; `uuid` is the value `crypto.randomUUID` supplies. */
    constructor(uuid: string)
      ensures State() == Blank(uuid) && Valid()
    {
      currentDoc := None;
      documentKey := OnlyOffice.GenerateDocumentKey(uuid);
      documentTitle, documentUrl, callbackUrl := UntitledTitle, SampleDocUrl, CallbackUrl;
      wordCount, pageCount, currentPage := 0, 1, 1;
      isDirty := false;
    }

    /** Opening a document takes its title, URL and key; the callback URL, counters and
        dirty flag stay. */
    method SetDocument(doc: DocumentMeta)
      modifies this
      ensures State() == old(State()).(currentDoc := Some(doc), documentTitle := doc.title,
                                       documentUrl := doc.url, documentKey := doc.key)
      ensures old(Valid()) ==> Valid()
    {
      currentDoc := Some(doc);
      documentTitle, documentUrl, documentKey := doc.title, doc.url, doc.key;
    }

    method SetDocumentTitle(title: string)
      modifies this
      ensures State() == old(State()).(documentTitle := title)
      ensures old(Valid()) ==> Valid()
    {
      documentTitle := title;
    }

    /** A negative count is stored as zero. */
    method SetWordCount(count: int)
      modifies this
      ensures State() == old(State()).(wordCount := if count < 0 then 0 else count)
      ensures old(Valid()) ==> Valid()
    {
      wordCount := Max(0, count);
    }

    method SetPageInfo(current: int, total: int)
      modifies this
      ensures State() == PageInfo(old(State()), current, total)
      ensures old(Valid()) ==> Valid()
    {
      currentPage := Max(1, current);
      pageCount := Max(1, total);
    }

    method SetDirty(dirty: bool)
      modifies this
      ensures State() == old(State()).(isDirty := dirty)
      ensures old(Valid()) ==> Valid()
    {
      isDirty := dirty;
    }

    /** Everything is reset, whatever was open, and a fresh key is made; the document URL
        is the shared template again. */
    method NewDocument(uuid: string)
      modifies this
      ensures State() == Blank(uuid) && Valid()
    {
      currentDoc := None;
      documentKey := OnlyOffice.GenerateDocumentKey(uuid);
      documentTitle, documentUrl, callbackUrl := UntitledTitle, SampleDocUrl, CallbackUrl;
      wordCount, pageCount, currentPage := 0, 1, 1;
      isDirty := false;
    }
  }

  /** Two new documents made from different UUIDs get different keys but the same URL. */
  lemma BlankKeysDiffer(u1: string, u2: string)
    requires u1 != u2
    ensures Blank(u1).documentKey != Blank(u2).documentKey
    ensures Blank(u1).documentUrl == Blank(u2).documentUrl
  {
    OnlyOffice.DocumentKeysDistinct(u1, u2);
  }
}
