/** `useEditorStore` (apps/web/src/store/editorStore.ts): the editor's status, interface
    state, zoom and the formatting of the current selection, held in one record whose
    fields the actions overwrite. */
module EditorStore {
  import opened Wrappers

  datatype Tab = Home | Insert | Layout | Review | View

  datatype Panel = Outline | Comments | Styles

  datatype Alignment = Left | Center | Right | Justify

  /** A snapshot of every field of the store. */
  datatype EditorState = EditorState(
    isEditorReady: bool,
    isEditorLoading: bool,
    editorError: Option<string>,
    activeRibbonTab: Tab,
    sidebarPanel: Option<Panel>,
    isCommandPaletteOpen: bool,
    isDarkMode: bool,
    isFindOpen: bool,
    isReplaceOpen: bool,
    zoomLevel: int,
    isBold: bool,
    isItalic: bool,
    isUnderline: bool,
    isStrikethrough: bool,
    fontFamily: string,
    fontSize: int,
    alignment: Alignment)

  /** The store as created. */
  const Initial := EditorState(false, false, None, Home, None, false, false, false, false, 100,
                               false, false, false, false, "Times New Roman", 12, Left)

  /** The formatting fields `setFormatState` may receive; an absent field is `None`. */
  datatype FormatPatch = FormatPatch(
    isBold: Option<bool>,
    isItalic: Option<bool>,
    isUnderline: Option<bool>,
    isStrikethrough: Option<bool>,
    fontFamily: Option<string>,
    fontSize: Option<int>,
    alignment: Option<Alignment>)

  /** `toggleSidebarPanel(panel)`: the open panel is closed when it is the one named (and
      naming no panel closes it too); otherwise the named panel is opened. */
  function ToggledPanel(current: Option<Panel>, panel: Option<Panel>): (r: Option<Panel>)
    ensures r.None? <==> current == panel || panel.None?
    ensures r.Some? ==> r == panel
  {
    if current == panel then None else panel
  }

  /** Toggling the same panel twice from a state where another panel (or none) is open
      closes the sidebar, not reopens the first one. */
  lemma ToggleTwiceCloses(current: Option<Panel>, panel: Panel)
    requires current != Some(panel)
    ensures ToggledPanel(ToggledPanel(current, Some(panel)), Some(panel)) == None
  {
  }

  /** `setFormatState(patch)`: the supplied fields take their new values; every other
      field of the store is kept. */
  function Patched(s: EditorState, p: FormatPatch): (r: EditorState)
    ensures r.isEditorReady == s.isEditorReady && r.isEditorLoading == s.isEditorLoading
    ensures r.editorError == s.editorError && r.activeRibbonTab == s.activeRibbonTab
    ensures r.sidebarPanel == s.sidebarPanel && r.isCommandPaletteOpen == s.isCommandPaletteOpen
    ensures r.isDarkMode == s.isDarkMode && r.isFindOpen == s.isFindOpen
    ensures r.isReplaceOpen == s.isReplaceOpen && r.zoomLevel == s.zoomLevel
    ensures r.isBold == (if p.isBold.Some? then p.isBold.value else s.isBold)
    ensures r.isItalic == (if p.isItalic.Some? then p.isItalic.value else s.isItalic)
    ensures r.isUnderline == (if p.isUnderline.Some? then p.isUnderline.value else s.isUnderline)
    ensures r.isStrikethrough == (if p.isStrikethrough.Some? then p.isStrikethrough.value else s.isStrikethrough)
    ensures r.fontFamily == (if p.fontFamily.Some? then p.fontFamily.value else s.fontFamily)
    ensures r.fontSize == (if p.fontSize.Some? then p.fontSize.value else s.fontSize)
    ensures r.alignment == (if p.alignment.Some? then p.alignment.value else s.alignment)
  {
    s.(isBold := p.isBold.GetOr(s.isBold),
       isItalic := p.isItalic.GetOr(s.isItalic),
       isUnderline := p.isUnderline.GetOr(s.isUnderline),
       isStrikethrough := p.isStrikethrough.GetOr(s.isStrikethrough),
       fontFamily := p.fontFamily.GetOr(s.fontFamily),
       fontSize := p.fontSize.GetOr(s.fontSize),
       alignment := p.alignment.GetOr(s.alignment))
  }

  /** An empty patch changes nothing, and a patch applied twice is applied once. */
  lemma PatchedIdempotent(s: EditorState, p: FormatPatch)
    ensures Patched(s, FormatPatch(None, None, None, None, None, None, None)) == s
    ensures Patched(Patched(s, p), p) == Patched(s, p)
  {
  }

  /** Zustand keeps the store's state as one object; `set(partial)` replaces it by a copy
      with the partial's fields merged in. */
  class Store {
    var state: EditorState

    function State(): EditorState
      reads this
    {
      state
    }

    /** The store's initial values: not ready, not loading, no error, the home tab, no
        sidebar, zoom 100, Times New Roman 12, left aligned. */
    constructor()
      ensures State() == Initial
    {
      state := Initial;
    }

    /** Ready implies not loading, and not ready implies loading. */
    method SetEditorReady(ready: bool)
      modifies this
      ensures State() == old(State()).(isEditorReady := ready, isEditorLoading := !ready)
    {
      state := state.(isEditorReady := ready, isEditorLoading := !ready);
    }

    method SetEditorLoading(loading: bool)
      modifies this
      ensures State() == old(State()).(isEditorLoading := loading)
    {
      state := state.(isEditorLoading := loading);
    }

    /** Recording an error, or clearing it, always ends loading. */
    method SetEditorError(error: Option<string>)
      modifies this
      ensures State() == old(State()).(editorError := error, isEditorLoading := false)
    {
      state := state.(editorError := error, isEditorLoading := false);
    }

    method SetActiveRibbonTab(tab: Tab)
      modifies this
      ensures State() == old(State()).(activeRibbonTab := tab)
    {
      state := state.(activeRibbonTab := tab);
    }

    method SetSidebarPanel(panel: Option<Panel>)
      modifies this
      ensures State() == old(State()).(sidebarPanel := panel)
    {
      state := state.(sidebarPanel := panel);
    }

    method ToggleSidebarPanel(panel: Option<Panel>)
      modifies this
      ensures State() == old(State()).(sidebarPanel := ToggledPanel(old(state.sidebarPanel), panel))
    {
      state := state.(sidebarPanel := ToggledPanel(state.sidebarPanel, panel));
    }

    method SetCommandPaletteOpen(open: bool)
      modifies this
      ensures State() == old(State()).(isCommandPaletteOpen := open)
    {
      state := state.(isCommandPaletteOpen := open);
    }

    method ToggleCommandPalette()
      modifies this
      ensures State() == old(State()).(isCommandPaletteOpen := !old(state.isCommandPaletteOpen))
    {
      state := state.(isCommandPaletteOpen := !state.isCommandPaletteOpen);
    }

    method ToggleDarkMode()
      modifies this
      ensures State() == old(State()).(isDarkMode := !old(state.isDarkMode))
    {
      state := state.(isDarkMode := !state.isDarkMode);
    }

    method SetDarkMode(dark: bool)
      modifies this
      ensures State() == old(State()).(isDarkMode := dark)
    {
      state := state.(isDarkMode := dark);
    }

    method SetFindOpen(open: bool)
      modifies this
      ensures State() == old(State()).(isFindOpen := open)
    {
      state := state.(isFindOpen := open);
    }

    /** The zoom is stored as given; clamping is the caller's business. */
    method SetZoomLevel(zoom: int)
      modifies this
      ensures State() == old(State()).(zoomLevel := zoom)
    {
      state := state.(zoomLevel := zoom);
    }

    method SetFormatState(patch: FormatPatch)
      modifies this
      ensures State() == Patched(old(State()), patch)
    {
      state := Patched(state, patch);
    }
  }

  /** Toggling the palette twice restores the store. */
  method TogglePaletteTwice(store: Store)
    modifies store
    ensures store.State() == old(store.State())
  {
    store.ToggleCommandPalette();
    store.ToggleCommandPalette();
  }

  /** Toggling dark mode twice restores the store. */
  method ToggleDarkModeTwice(store: Store)
    modifies store
    ensures store.State() == old(store.State())
  {
    store.ToggleDarkMode();
    store.ToggleDarkMode();
  }
}
