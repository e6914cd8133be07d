/** The New Document dialog (apps/web/src/components/FileManager/NewDocumentDialog.tsx):
    the store is reset to a new document and given the name typed in the field. */
module NewDocument {
  import DocumentStore

  /** `title || 'Untitled Document'`: only the empty string falls back. */
  function CreatedTitle(draft: string): (r: string)
    ensures r != ""
    ensures r == draft <==> draft != ""
  {
    if draft == "" then DocumentStore.UntitledTitle else draft
  }

  /** A blank name is kept as it is. */
  lemma BlankNameKept()
    ensures CreatedTitle("   ") == "   "
  {
  }

  /** The store after creating a document named by `draft` with the key made from `uuid`:
      a new blank document that differs from the reset only in its title. */
  function Created(uuid: string, draft: string): (r: DocumentStore.DocumentState)
    ensures r == DocumentStore.Blank(uuid).(documentTitle := r.documentTitle)
    ensures r.documentTitle == CreatedTitle(draft)
  {
    DocumentStore.Blank(uuid).(documentTitle := CreatedTitle(draft))
  }

  /** Whatever was open before, creating leaves no trace of it but the counters' reset. */
  lemma CreatedForgetsPrevious(uuid: string, draft: string)
    ensures Created(uuid, draft).currentDoc.None? && !Created(uuid, draft).isDirty
    ensures Created(uuid, draft).documentUrl == DocumentStore.SampleDocUrl
    ensures DocumentStore.CountersValid(Created(uuid, draft))
  {
  }

  class Dialog {
    /** The name field. */
    var title: string

    constructor()
      ensures title == DocumentStore.UntitledTitle
    {
      title := DocumentStore.UntitledTitle;
    }

    method SetTitle(value: string)
      modifies this
      ensures title == value
    {
      title := value;
    }

    /** `handleCreate`: reset the store, then set the title; close; reset the field. */
    method HandleCreate(doc: DocumentStore.Store, uuid: string) returns (open: bool)
      modifies this, doc
      ensures doc.State() == Created(uuid, old(title))
      ensures !open && title == DocumentStore.UntitledTitle
    {
      doc.NewDocument(uuid);
      doc.SetDocumentTitle(if title == "" then DocumentStore.UntitledTitle else title);
      open := false;
      title := DocumentStore.UntitledTitle;
    }

    /** Enter in the field is the Create button; other keys change nothing. */
    method HandleKeyDown(key: string, doc: DocumentStore.Store, uuid: string, wasOpen: bool)
      returns (open: bool)
      modifies this, doc
      ensures key == "Enter" ==>
        doc.State() == Created(uuid, old(title)) && !open && title == DocumentStore.UntitledTitle
      ensures key != "Enter" ==>
        doc.State() == old(doc.State()) && open == wasOpen && title == old(title)
    {
      open := wasOpen;
      if key == "Enter" {
        open := HandleCreate(doc, uuid);
      }
    }
  }
}
