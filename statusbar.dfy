/** The status bar (apps/web/src/components/StatusBar/StatusBar.tsx): the zoom buttons,
    slider and presets, and the in-place editor of the document title. */
module StatusBar {
  import opened Text
  import EditorStore
  import DocumentStore
  import OnlyOffice

  const MinZoom := 25
  const MaxZoom := 200
  const ZoomStep := 25
  /** The slider's step. */
  const SliderStep := 5
  const ZoomPresets: seq<int> := [75, 100, 125, 150, 200]

  function ZoomOut(z: int): (r: int)
    ensures r >= MinZoom
    ensures r == z - ZoomStep || (r == MinZoom && z - ZoomStep < MinZoom)
  {
    if z - ZoomStep >= MinZoom then z - ZoomStep else MinZoom
  }

  function ZoomIn(z: int): (r: int)
    ensures r <= MaxZoom
    ensures r == z + ZoomStep || (r == MaxZoom && z + ZoomStep > MaxZoom)
  {
    if z + ZoomStep <= MaxZoom then z + ZoomStep else MaxZoom
  }

  predicate InSliderRange(z: int) {
    MinZoom <= z <= MaxZoom
  }

  /** The buttons keep a zoom inside the slider's range inside it, and pull one from
      outside towards it. */
  lemma ZoomStaysInRange(z: int)
    ensures InSliderRange(z) ==> InSliderRange(ZoomIn(z)) && InSliderRange(ZoomOut(z))
    ensures z > MaxZoom ==> ZoomIn(z) == MaxZoom
    ensures z < MinZoom ==> ZoomOut(z) == MinZoom
  {
  }

  /** Zooming in then out returns to the start from 25 to 175; out then in from 50 to 200. */
  lemma ZoomRoundTrips(z: int)
    ensures MinZoom <= z <= MaxZoom - ZoomStep ==> ZoomOut(ZoomIn(z)) == z
    ensures MinZoom + ZoomStep <= z <= MaxZoom ==> ZoomIn(ZoomOut(z)) == z
  {
  }

  /** At the ends the round trip does not come back. */
  lemma ZoomRoundTripEnds()
    ensures ZoomOut(ZoomIn(MaxZoom)) == MaxZoom - ZoomStep
    ensures ZoomIn(ZoomOut(MinZoom)) == MinZoom + ZoomStep
  {
  }

  /** Every preset is a value the slider itself can take. */
  lemma PresetsOnSlider()
    ensures forall i :: 0 <= i < |ZoomPresets| ==>
      InSliderRange(ZoomPresets[i]) && ZoomPresets[i] % SliderStep == 0
  {
  }

  /** `applyZoom`: the store takes the zoom and the editor is sent `Zoom` with the same
      value, when a connector is cached. */
  method ApplyZoom(zoom: int, editor: EditorStore.Store, cache: OnlyOffice.ConnectorCache)
    modifies editor, cache
    ensures editor.State() == old(editor.State()).(zoomLevel := zoom)
    ensures cache.cached == old(cache.cached)
    ensures old(cache.cached).None? ==> cache.executed == old(cache.executed)
    ensures old(cache.cached).Some? ==>
      cache.executed == old(cache.executed) + [OnlyOffice.MethodCall(old(cache.cached).value, "Zoom", OnlyOffice.Number(zoom))]
  {
    editor.SetZoomLevel(zoom);
    cache.Exec("Zoom", OnlyOffice.Number(zoom));
  }

  /** The zoom-out button: `applyZoom` of the zoom lowered one step. */
  method ClickZoomOut(editor: EditorStore.Store, cache: OnlyOffice.ConnectorCache)
    modifies editor, cache
    ensures editor.State() == old(editor.State()).(zoomLevel := ZoomOut(old(editor.State().zoomLevel)))
    ensures cache.cached == old(cache.cached)
    ensures old(cache.cached).None? ==> cache.executed == old(cache.executed)
    ensures old(cache.cached).Some? ==>
      cache.executed == old(cache.executed) + [OnlyOffice.MethodCall(old(cache.cached).value, "Zoom", OnlyOffice.Number(ZoomOut(old(editor.State().zoomLevel))))]
  {
    ApplyZoom(ZoomOut(editor.State().zoomLevel), editor, cache);
  }

  /** The zoom-in button: `applyZoom` of the zoom raised one step. */
  method ClickZoomIn(editor: EditorStore.Store, cache: OnlyOffice.ConnectorCache)
    modifies editor, cache
    ensures editor.State() == old(editor.State()).(zoomLevel := ZoomIn(old(editor.State().zoomLevel)))
    ensures cache.cached == old(cache.cached)
    ensures old(cache.cached).None? ==> cache.executed == old(cache.executed)
    ensures old(cache.cached).Some? ==>
      cache.executed == old(cache.executed) + [OnlyOffice.MethodCall(old(cache.cached).value, "Zoom", OnlyOffice.Number(ZoomIn(old(editor.State().zoomLevel))))]
  {
    ApplyZoom(ZoomIn(editor.State().zoomLevel), editor, cache);
  }

  /** One of the preset buttons: `applyZoom` of that preset. */
  method ClickPreset(i: nat, editor: EditorStore.Store, cache: OnlyOffice.ConnectorCache)
    requires i < |ZoomPresets|
    modifies editor, cache
    ensures editor.State() == old(editor.State()).(zoomLevel := ZoomPresets[i])
    ensures InSliderRange(editor.State().zoomLevel)
    ensures cache.cached == old(cache.cached)
    ensures old(cache.cached).None? ==> cache.executed == old(cache.executed)
    ensures old(cache.cached).Some? ==>
      cache.executed == old(cache.executed) + [OnlyOffice.MethodCall(old(cache.cached).value, "Zoom", OnlyOffice.Number(ZoomPresets[i]))]
  {
    PresetsOnSlider();
    ApplyZoom(ZoomPresets[i], editor, cache);
  }

  /** The title `handleTitleCommit` leaves: the trimmed draft, unless that is empty. */
  function CommittedTitle(title: string, draft: string): (r: string)
    ensures Trim(draft) != "" ==> r == Trim(draft)
    ensures Trim(draft) == "" ==> r == title
  {
    if Trim(draft) != "" then Trim(draft) else title
  }

  /** A committed draft is trimmed, so committing it again changes nothing; an untouched
      draft (click, then commit) trims the title itself unless it is blank. */
  lemma CommitSettles(title: string, draft: string)
    ensures Trim(draft) != "" ==>
      var t := CommittedTitle(title, draft); Trim(t) == t && CommittedTitle(t, t) == t
    ensures CommittedTitle(title, title) == if Trim(title) == "" then title else Trim(title)
  {
    TrimIdempotent(draft);
  }

  /** The title editor's state. */
  class TitleEditor {
    var isEditingTitle: bool
    var titleDraft: string

    constructor(documentTitle: string)
      ensures !isEditingTitle && titleDraft == documentTitle
    {
      isEditingTitle := false;
      titleDraft := documentTitle;
    }

    /** Clicking the title starts editing a copy of it. */
    method Click(doc: DocumentStore.Store)
      modifies this
      ensures isEditingTitle && titleDraft == doc.documentTitle
    {
      titleDraft := doc.documentTitle;
      isEditingTitle := true;
    }

    method Change(value: string)
      modifies this
      ensures titleDraft == value && isEditingTitle == old(isEditingTitle)
    {
      titleDraft := value;
    }

    /** `handleTitleCommit`, on Enter or when the field loses focus: editing always
        ends, and the draft is kept. */
    method Commit(doc: DocumentStore.Store)
      modifies this, doc
      ensures doc.State() == old(doc.State()).(documentTitle := CommittedTitle(old(doc.documentTitle), titleDraft))
      ensures !isEditingTitle && titleDraft == old(titleDraft)
    {
      var trimmed := Trim(titleDraft);
      if trimmed != [] {
        doc.SetDocumentTitle(trimmed);
      }
      isEditingTitle := false;
    }

    /** Enter commits; Escape throws the draft away, leaving the title alone; any other
        key does nothing here. */
    method KeyDown(key: string, doc: DocumentStore.Store)
      modifies this, doc
      ensures key == "Enter" ==>
        doc.State() == old(doc.State()).(documentTitle := CommittedTitle(old(doc.documentTitle), old(titleDraft)))
        && !isEditingTitle && titleDraft == old(titleDraft)
      ensures key == "Escape" ==>
        doc.State() == old(doc.State()) && !isEditingTitle && titleDraft == doc.documentTitle
      ensures key != "Enter" && key != "Escape" ==>
        doc.State() == old(doc.State()) && isEditingTitle == old(isEditingTitle) && titleDraft == old(titleDraft)
    {
      if key == "Enter" {
        Commit(doc);
      }
      if key == "Escape" {
        titleDraft := doc.documentTitle;
        isEditingTitle := false;
      }
    }
  }
}
