/** The global keydown handler (apps/web/src/hooks/useKeyboardShortcuts.ts): the first
    table entry the event matches decides, focus in a text field silences every shortcut
    but the palette and Escape, and the chosen action changes the editor store or calls
    the editor. */
module KeyboardShortcuts {
  import opened Wrappers
  import opened Shortcuts
  import EditorStore

  /** The outside call the action makes, into the embedded editor or the document. Whether
      an editor is present is not modelled: the call is the one attempted, which the
      optional chaining `window.editor?.` reduces to nothing when there is none. */
  datatype External =
    | NoCall
    | RequestSave
    | DownloadAs(format: string)
    | PrintCall
    | ExecCommand(command: string)
    | ExecFormat(command: string)

  /** The element the event is aimed at. */
  datatype Target = Target(tagName: string, isContentEditable: bool)

  predicate IsInputField(t: Target) {
    t.tagName == "INPUT" || t.tagName == "TEXTAREA" || t.isContentEditable
  }

  /** The two actions dispatched whatever has focus. */
  predicate AlwaysAllowed(a: Action) {
    a == CommandPalette || a == Close
  }

  /** The palette flag after `handleShortcut(a)`. */
  function PaletteAfter(open: bool, a: Action): bool {
    if a == CommandPalette then !open else if a == Close then false else open
  }

  /** The find flag after `handleShortcut(a)`. */
  function FindAfter(open: bool, a: Action): bool {
    if a == Find || a == Replace then true else if a == Close then false else open
  }

  /** The store after `handleShortcut(a)`: the switch sets only the palette and find flags. */
  function StoreAfter(s: EditorStore.EditorState, a: Action): EditorStore.EditorState {
    s.(isCommandPaletteOpen := PaletteAfter(s.isCommandPaletteOpen, a),
       isFindOpen := FindAfter(s.isFindOpen, a))
  }

  /** The outside call `handleShortcut(a)` makes. */
  function CallOf(a: Action): External {
    match a
    case Save => RequestSave
    case SaveAs => DownloadAs("docx")
    case PrintDocument => PrintCall
    case Undo => ExecCommand("undo")
    case Redo => ExecCommand("redo")
    case Bold => ExecFormat("bold")
    case Italic => ExecFormat("italic")
    case Underline => ExecFormat("underline")
    case AlignLeft => ExecFormat("justifyLeft")
    case AlignCenter => ExecFormat("justifyCenter")
    case AlignRight => ExecFormat("justifyRight")
    case AlignJustify => ExecFormat("justifyFull")
    case _ => NoCall
  }

  /** Only the four actions that name the palette or find change the store; find and
      replace both open find, Escape closes both, and the palette shortcut pressed twice
      restores the store. */
  lemma StoreEffects(s: EditorStore.EditorState, a: Action)
    ensures !(a == Find || a == Replace || a == CommandPalette || a == Close) ==> StoreAfter(s, a) == s
    ensures (a == Find || a == Replace) ==> StoreAfter(s, a) == s.(isFindOpen := true)
    ensures a == Close ==> StoreAfter(s, a) == s.(isCommandPaletteOpen := false, isFindOpen := false)
    ensures a == CommandPalette ==> StoreAfter(StoreAfter(s, a), a) == s
  {
  }

  /** An action either changes the store or calls out, never both; the font size and
      heading shortcuts do neither. */
  lemma EffectsDisjoint(s: EditorStore.EditorState, a: Action)
    ensures CallOf(a) != NoCall ==> StoreAfter(s, a) == s
    ensures (a == FontSizeUp || a == FontSizeDown || a == Heading1 || a == Heading2 || a == Heading3) ==>
              CallOf(a) == NoCall && StoreAfter(s, a) == s
  {
  }

  /** The action the handler dispatches for an event over the entries `t`; `None` when it
      dispatches nothing. */
  function Dispatch(t: seq<Shortcut>, e: KeyEvent, inInput: bool): Option<Action> {
    if t == [] then None
    else if Matches(e, t[0]) && (AlwaysAllowed(t[0].action) || !inInput) then Some(t[0].action)
    else Dispatch(t[1..], e, inInput)
  }

  /** When entry `i` is the only match, it alone decides. */
  lemma {:induction false} DispatchOfUnique(t: seq<Shortcut>, e: KeyEvent, inInput: bool, i: nat)
    requires i < |t| && Matches(e, t[i])
    requires forall j :: 0 <= j < |t| && j != i ==> !Matches(e, t[j])
    ensures Dispatch(t, e, inInput)
         == if AlwaysAllowed(t[i].action) || !inInput then Some(t[i].action) else None
  {
    if i > 0 {
      DispatchOfUnique(t[1..], e, inInput, i - 1);
    } else if !(AlwaysAllowed(t[0].action) || !inInput) {
      DispatchOfNone(t[1..], e, inInput);
    }
  }

  lemma {:induction false} DispatchOfNone(t: seq<Shortcut>, e: KeyEvent, inInput: bool)
    requires forall j :: 0 <= j < |t| ==> !Matches(e, t[j])
    ensures Dispatch(t, e, inInput) == None
  {
    if t != [] {
      DispatchOfNone(t[1..], e, inInput);
    }
  }

  /** Over the shortcut table the handler dispatches the entry the reference lookup finds
      for the event's chord, unless focus is in a text field and it is neither the palette
      nor Escape. */
  lemma DispatchByPosition(isMac: bool, e: KeyEvent, inInput: bool)
    ensures Position(isMac, EventChord(e)).None? ==> Dispatch(Table(isMac), e, inInput) == None
    ensures Position(isMac, EventChord(e)).Some? ==>
      var a := Table(isMac)[Position(isMac, EventChord(e)).value].action;
      Dispatch(Table(isMac), e, inInput) == if AlwaysAllowed(a) || !inInput then Some(a) else None
  {
    var t := Table(isMac);
    var p := Position(isMac, EventChord(e));
    if p.None? {
      forall j | 0 <= j < |t|
        ensures !Matches(e, t[j])
      {
        MatchesIffPosition(isMac, e, j);
      }
      DispatchOfNone(t, e, inInput);
    } else {
      PositionOnlyOfEntry(isMac, EventChord(e), p.value);
      MatchesIffPosition(isMac, e, p.value);
      forall j | 0 <= j < |t| && j != p.value
        ensures !Matches(e, t[j])
      {
        MatchesIffPosition(isMac, e, j);
      }
      DispatchOfUnique(t, e, inInput, p.value);
    }
  }

  /** In a text field only the palette and Escape get through. */
  lemma InputFieldSilences(t: seq<Shortcut>, e: KeyEvent)
    ensures Dispatch(t, e, true).Some? ==> AlwaysAllowed(Dispatch(t, e, true).value)
  {
    if t != [] && !(Matches(e, t[0]) && AlwaysAllowed(t[0].action)) {
      InputFieldSilences(t[1..], e);
    }
  }

  /** MOD+K toggles the palette even while typing in a field. */
  lemma PaletteFromInput(isMac: bool)
    ensures Dispatch(Table(isMac), KeyEvent("k", isMac, !isMac, false, false), true) == Some(CommandPalette)
  {
    var e := KeyEvent("k", isMac, !isMac, false, false);
    LowerOne('k');
    assert EventChord(e) == Chord("k", isMac, !isMac, false, false);
    assert Position(isMac, EventChord(e)) == Some(19);
    assert Table(isMac)[19].action == CommandPalette;
    DispatchByPosition(isMac, e, true);
  }

  /** Escape closes even while typing in a field. */
  lemma EscapeFromInput(isMac: bool)
    ensures Dispatch(Table(isMac), KeyEvent("Escape", false, false, false, false), true) == Some(Close)
  {
    LowerEscape();
    DispatchByPosition(isMac, KeyEvent("Escape", false, false, false, false), true);
  }

  /** The keydown handler, with `SHORTCUTS` for the platform. */
  method HandleKeyDown(isMac: bool, e: KeyEvent, target: Target, store: EditorStore.Store)
    returns (prevented: bool, dispatched: Option<Action>, call: External)
    modifies store
    ensures dispatched == Dispatch(Table(isMac), e, IsInputField(target))
    ensures prevented <==> dispatched.Some?
    ensures dispatched.None? ==> store.State() == old(store.State()) && call == NoCall
    ensures dispatched.Some? ==>
      store.State() == StoreAfter(old(store.State()), dispatched.value) && call == CallOf(dispatched.value)
  {
    prevented, dispatched, call := HandleKeyDownOver(Table(isMac), e, target, store);
  }

  /** The loop of the keydown handler over a table of shortcuts. The default action is
      prevented exactly when something is dispatched; the store and the outside call are
      those of the dispatched action. */
  method HandleKeyDownOver(shortcuts: seq<Shortcut>, e: KeyEvent, target: Target, store: EditorStore.Store)
    returns (prevented: bool, dispatched: Option<Action>, call: External)
    modifies store
    ensures dispatched == Dispatch(shortcuts, e, IsInputField(target))
    ensures prevented <==> dispatched.Some?
    ensures dispatched.None? ==> store.State() == old(store.State()) && call == NoCall
    ensures dispatched.Some? ==>
      store.State() == StoreAfter(old(store.State()), dispatched.value) && call == CallOf(dispatched.value)
  {
    var inInput := IsInputField(target);
    var i := 0;
    while i < |shortcuts|
      invariant 0 <= i <= |shortcuts|
      invariant Dispatch(shortcuts, e, inInput) == Dispatch(shortcuts[i..], e, inInput)
      invariant store.State() == old(store.State())
    {
      var shortcut := shortcuts[i];
      assert shortcuts[i..][0] == shortcut && shortcuts[i..][1..] == shortcuts[i + 1..];
      if Matches(e, shortcut) {
        if shortcut.action == CommandPalette || shortcut.action == Close {
          prevented := true;
          call := HandleShortcut(shortcut.action, store);
          dispatched := Some(shortcut.action);
          return;
        }
        if inInput {
          i := i + 1;
          continue;
        }
        prevented := true;
        call := HandleShortcut(shortcut.action, store);
        dispatched := Some(shortcut.action);
        return;
      }
      i := i + 1;
    }
    prevented, dispatched, call := false, None, NoCall;
  }

  /** `handleShortcut`. */
  method HandleShortcut(a: Action, store: EditorStore.Store) returns (call: External)
    modifies store
    ensures store.State() == StoreAfter(old(store.State()), a)
    ensures call == CallOf(a)
  {
    call := CallOf(a);
    if a == Find || a == Replace {
      store.SetFindOpen(true);
    } else if a == CommandPalette {
      store.ToggleCommandPalette();
    } else if a == Close {
      store.SetCommandPaletteOpen(false);
      store.SetFindOpen(false);
    }
  }
}
