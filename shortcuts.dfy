/** The keyboard shortcut table and its match rule (apps/web/src/lib/shortcuts.ts). */
module Shortcuts {
  import opened Wrappers
  import opened Text

  datatype Action =
    | Save | SaveAs | PrintDocument | Undo | Redo | Find | Replace
    | Bold | Italic | Underline | AlignCenter | AlignLeft | AlignRight | AlignJustify
    | FontSizeUp | FontSizeDown | Heading1 | Heading2 | Heading3
    | CommandPalette | Close

  datatype Category = File | Edit | Format | Styles | Navigation

  /** `ShortcutDef`; an absent modifier flag is `false`. */
  datatype Shortcut = Shortcut(key: string, meta: bool, ctrl: bool, shift: bool, alt: bool,
                               description: string, action: Action, category: Category)

  /** The parts of a `KeyboardEvent` the match reads. */
  datatype KeyEvent = KeyEvent(key: string, metaKey: bool, ctrlKey: bool, shiftKey: bool, altKey: bool)

  /** `isMac`: `platform` is `navigator.platform`, `None` when there is no `navigator`. */
  predicate IsMac(platform: Option<string>) {
    platform.Some? && Contains(Upper(platform.value), "MAC")
  }

  /** An entry that holds `MOD`: the Command key on a Mac, Control elsewhere. */
  function Mod(isMac: bool, key: string, shift: bool, description: string, action: Action,
               category: Category): Shortcut
  {
    Shortcut(key, isMac, !isMac, shift, false, description, action, category)
  }

  function AltKey(key: string, description: string, action: Action): Shortcut {
    Shortcut(key, false, false, false, true, description, action, Styles)
  }

  /** `SHORTCUTS`, for the platform `isMac` names. */
  function Table(isMac: bool): seq<Shortcut> {
    [ Mod(isMac, "s", false, "Save", Save, File),
      Mod(isMac, "s", true, "Save As", SaveAs, File),
      Mod(isMac, "p", false, "Print", PrintDocument, File),
      Mod(isMac, "z", false, "Undo", Undo, Edit),
      Mod(isMac, "y", false, "Redo", Redo, Edit),
      Mod(isMac, "f", false, "Find", Find, Edit),
      Mod(isMac, "h", false, "Find & Replace", Replace, Edit),
      Mod(isMac, "b", false, "Bold", Bold, Format),
      Mod(isMac, "i", false, "Italic", Italic, Format),
      Mod(isMac, "u", false, "Underline", Underline, Format),
      Mod(isMac, "e", false, "Center Align", AlignCenter, Format),
      Mod(isMac, "l", false, "Left Align", AlignLeft, Format),
      Mod(isMac, "r", false, "Right Align", AlignRight, Format),
      Mod(isMac, "j", false, "Justify", AlignJustify, Format),
      Mod(isMac, ".", true, "Increase Font Size", FontSizeUp, Format),
      Mod(isMac, ",", true, "Decrease Font Size", FontSizeDown, Format),
      AltKey("1", "Heading 1", Heading1),
      AltKey("2", "Heading 2", Heading2),
      AltKey("3", "Heading 3", Heading3),
      Mod(isMac, "k", false, "Command Palette", CommandPalette, Navigation),
      Shortcut("Escape", false, false, false, false, "Close / Cancel", Close, Navigation) ]
  }

  /** `matchesShortcut`: the keys agree when lower-cased (or exactly), and each of the four
      modifier flags equals the event's. */
  predicate Matches(e: KeyEvent, s: Shortcut) {
    (Lower(e.key) == Lower(s.key) || e.key == s.key)
    && s.meta == e.metaKey && s.ctrl == e.ctrlKey && s.shift == e.shiftKey && s.alt == e.altKey
  }

  /** What a match compares: the lower-cased key and the four modifiers. */
  datatype Chord = Chord(key: string, meta: bool, ctrl: bool, shift: bool, alt: bool)

  function EventChord(e: KeyEvent): Chord {
    Chord(Lower(e.key), e.metaKey, e.ctrlKey, e.shiftKey, e.altKey)
  }

  function EntryChord(s: Shortcut): Chord {
    Chord(Lower(s.key), s.meta, s.ctrl, s.shift, s.alt)
  }

  /** An event matches an entry exactly when their chords are equal, so case is ignored
      and every modifier must be as the entry says. */
  lemma MatchesIffChord(e: KeyEvent, s: Shortcut)
    ensures Matches(e, s) <==> EventChord(e) == EntryChord(s)
  {
  }

  /** The key comparison ignores case. */
  lemma MatchIgnoresCase(e: KeyEvent, s: Shortcut)
    ensures Matches(e, s) <==> Matches(e.(key := Lower(e.key)), s)
  {
    LowerIdempotent(e.key);
  }

  /** A reference lookup: the position in the table of the one entry with this chord,
      decided from the chord alone. */
  function Position(isMac: bool, c: Chord): (r: Option<nat>)
    ensures r.Some? ==> r.value < 21
  {
    if |c.key| == 1 && c.alt && !c.meta && !c.ctrl && !c.shift then
      match c.key[0]
      case '1' => Some(16)
      case '2' => Some(17)
      case '3' => Some(18)
      case _ => None
    else if |c.key| == 1 && !c.alt && c.meta == isMac && c.ctrl == !isMac && c.shift then
      match c.key[0]
      case 's' => Some(1)
      case '.' => Some(14)
      case ',' => Some(15)
      case _ => None
    else if |c.key| == 1 && !c.alt && c.meta == isMac && c.ctrl == !isMac then
      match c.key[0]
      case 's' => Some(0)
      case 'p' => Some(2)
      case 'z' => Some(3)
      case 'y' => Some(4)
      case 'f' => Some(5)
      case 'h' => Some(6)
      case 'b' => Some(7)
      case 'i' => Some(8)
      case 'u' => Some(9)
      case 'e' => Some(10)
      case 'l' => Some(11)
      case 'r' => Some(12)
      case 'j' => Some(13)
      case 'k' => Some(19)
      case _ => None
    else if c == Chord("escape", false, false, false, false) then Some(20)
    else None
  }

  lemma LowerOne(c: char)
    requires !('A' <= c <= 'Z')
    ensures Lower([c]) == [c]
  {
  }

  lemma LowerEscape()
    ensures Lower("Escape") == "escape"
  {
    assert Lower("Escape")[0] == LowerChar('E') == 'e';
  }

  /** The lookup finds every entry at its own position. */
  lemma {:induction false} PositionOfEntry(isMac: bool, i: nat)
    requires i < |Table(isMac)|
    ensures Position(isMac, EntryChord(Table(isMac)[i])) == Some(i)
  {
    var s := Table(isMac)[i];
    if i == 20 {
      LowerEscape();
    } else {
      assert |s.key| == 1 && !('A' <= s.key[0] <= 'Z');
      assert s.key == [s.key[0]];
      LowerOne(s.key[0]);
    }
  }

  /** The lookup gives a position only for the chord it was computed from. */
  lemma {:induction false} PositionDetermines(isMac: bool, c: Chord, i: nat)
    requires Position(isMac, c) == Some(i) && i != 20
    ensures Position(isMac, Chord([c.key[0]], c.meta, c.ctrl, c.shift, c.alt)) == Some(i)
    ensures c == Chord([c.key[0]], c.meta, c.ctrl, c.shift, c.alt)
  {
    assert c.key == [c.key[0]];
  }

  /** Two chords the lookup sends to the same position are equal. */
  lemma {:induction false} PositionInjective(isMac: bool, c: Chord, d: Chord)
    requires Position(isMac, c).Some? && Position(isMac, c) == Position(isMac, d)
    ensures c == d
  {
    var i := Position(isMac, c).value;
    if i != 20 {
      PositionDetermines(isMac, c, i);
      PositionDetermines(isMac, d, i);
    }
  }

  /** The lookup gives a position only for that entry's chord. */
  lemma {:induction false} PositionOnlyOfEntry(isMac: bool, c: Chord, i: nat)
    requires Position(isMac, c) == Some(i)
    ensures i < |Table(isMac)| && c == EntryChord(Table(isMac)[i])
  {
    PositionOfEntry(isMac, i);
    PositionInjective(isMac, c, EntryChord(Table(isMac)[i]));
  }

  /** An event matches entry `i` exactly when the reference lookup of its chord is `i`. */
  lemma MatchesIffPosition(isMac: bool, e: KeyEvent, i: nat)
    requires i < |Table(isMac)|
    ensures Matches(e, Table(isMac)[i]) <==> Position(isMac, EventChord(e)) == Some(i)
  {
    PositionOfEntry(isMac, i);
    if Position(isMac, EventChord(e)) == Some(i) {
      PositionOnlyOfEntry(isMac, EventChord(e), i);
    }
  }

  /** No event matches two entries. */
  lemma MatchUnique(isMac: bool, e: KeyEvent, i: nat, j: nat)
    requires i < |Table(isMac)| && j < |Table(isMac)|
    requires Matches(e, Table(isMac)[i]) && Matches(e, Table(isMac)[j])
    ensures i == j
  {
    MatchesIffPosition(isMac, e, i);
    MatchesIffPosition(isMac, e, j);
  }

  /** Every entry but the three headings and Escape holds exactly `MOD`: an event matching
      one of them has the platform's modifier down, the other one up, and no Alt. */
  lemma ModEntriesNeedMod(isMac: bool, e: KeyEvent, i: nat)
    requires i < |Table(isMac)| && Matches(e, Table(isMac)[i])
    requires i !in {16, 17, 18, 20}
    ensures e.metaKey == isMac && e.ctrlKey == !isMac && !e.altKey
  {
    MatchesIffPosition(isMac, e, i);
  }

  /** Escape matches only with no modifier held. */
  lemma EscapeNeedsNoModifier(isMac: bool, e: KeyEvent)
    requires Matches(e, Table(isMac)[20])
    ensures Table(isMac)[20].action == Close
    ensures !e.metaKey && !e.ctrlKey && !e.shiftKey && !e.altKey
  {
  }

  /** MOD+S, in either case, matches Save and nothing else; with Shift it matches Save As
      and nothing else. */
  lemma SaveChords(isMac: bool, key: string, shift: bool, i: nat)
    requires key == "s" || key == "S"
    requires i < |Table(isMac)|
    ensures Matches(KeyEvent(key, isMac, !isMac, shift, false), Table(isMac)[i])
        <==> i == (if shift then 1 else 0)
  {
    var e := KeyEvent(key, isMac, !isMac, shift, false);
    assert Lower(key)[0] == 's';
    assert Lower(key) == ['s'];
    MatchesIffPosition(isMac, e, i);
  }
}
