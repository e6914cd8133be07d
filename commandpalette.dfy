/** The command palette (apps/web/src/components/CommandPalette/CommandPalette.tsx): the
    commands grouped under their categories, the text each is searched by, and what
    selecting one does. The command list itself is an input. */
module CommandPalette {
  import opened Wrappers
  import opened Text
  import EditorStore
  import DocumentStore
  import KeyboardShortcuts

  /** The callbacks the palette hands to the command list; `Formatting` stands for the
      commands that call the editor's formatting directly. */
  datatype Callback =
    | SaveCb | SaveAsCb | PrintCb | FindCb | ToggleDarkModeCb
    | ToggleOutlineCb | ToggleCommentsCb | NewDocumentCb | SetZoomCb(zoom: int)
    | Formatting(command: string)

  /** `CommandItem`; `caption` is its `label`. */
  datatype Command = Command(id: string, caption: string, description: Option<string>,
                             shortcut: Option<string>, category: string, action: Callback,
                             keywords: Option<seq<string>>)

  // ---------------------------------------------------------------- grouping

  /** The categories in the order they first occur. */
  function Categories(cs: seq<Command>): (ks: seq<string>)
    ensures forall k :: k in ks ==> exists i :: 0 <= i < |cs| && cs[i].category == k
  {
    if cs == [] then []
    else
      var ks := Categories(cs[..|cs| - 1]);
      var k := cs[|cs| - 1].category;
      if k in ks then ks else ks + [k]
  }

  /** The commands of category `k`, in input order. */
  function Group(cs: seq<Command>, k: string): (g: seq<Command>)
    ensures |g| <= |cs|
    ensures forall j :: 0 <= j < |g| ==> g[j].category == k
  {
    if cs == [] then []
    else Group(cs[..|cs| - 1], k) + (if cs[|cs| - 1].category == k then [cs[|cs| - 1]] else [])
  }

  predicate Distinct(ks: seq<string>) {
    forall i, j :: 0 <= i < j < |ks| ==> ks[i] != ks[j]
  }

  /** Every category occurs once, and every command's category occurs. */
  lemma {:induction false} CategoriesExact(cs: seq<Command>)
    ensures Distinct(Categories(cs))
    ensures forall i :: 0 <= i < |cs| ==> cs[i].category in Categories(cs)
  {
    if cs != [] {
      var init := cs[..|cs| - 1];
      CategoriesExact(init);
      forall i | 0 <= i < |cs| - 1
        ensures cs[i].category in Categories(cs)
      {
        assert cs[i] == init[i];
      }
    }
  }

  /** Taking more commands only adds categories at the end: the order is that of first
      occurrence. */
  lemma {:induction false} CategoriesPrefix(cs: seq<Command>, n: nat)
    requires n <= |cs|
    ensures Categories(cs[..n]) <= Categories(cs)
    decreases |cs| - n
  {
    if n < |cs| {
      var m := cs[..n + 1];
      CategoriesPrefix(cs, n + 1);
      assert m[..|m| - 1] == cs[..n];
    } else {
      assert cs[..n] == cs;
    }
  }

  /** Filtering distributes over concatenation, so a group keeps the input order. */
  lemma {:induction false} GroupAppend(a: seq<Command>, b: seq<Command>, k: string)
    ensures Group(a + b, k) == Group(a, k) + Group(b, k)
    decreases |b|
  {
    if b == [] {
      assert a + b == a;
    } else {
      var b' := b[..|b| - 1];
      assert (a + b)[..|a + b| - 1] == a + b';
      GroupAppend(a, b', k);
    }
  }

  /** A category that occurs has a non-empty group, one that does not has none. */
  lemma {:induction false} GroupNonEmpty(cs: seq<Command>, k: string)
    ensures Group(cs, k) != [] <==> k in Categories(cs)
  {
    if cs != [] {
      GroupNonEmpty(cs[..|cs| - 1], k);
    }
  }

  /** Each command lies in the group of its own category and in no other. */
  lemma {:induction false} InOwnGroup(cs: seq<Command>, i: nat)
    requires i < |cs|
    ensures cs[i] in Group(cs, cs[i].category)
    ensures forall k :: k != cs[i].category ==> cs[i] !in Group(cs, k)
  {
    var init := cs[..|cs| - 1];
    if i < |cs| - 1 {
      InOwnGroup(init, i);
      assert cs[i] == init[i];
    }
  }

  function SumSizes(ks: seq<string>, cs: seq<Command>): nat {
    if ks == [] then 0 else |Group(cs, ks[0])| + SumSizes(ks[1..], cs)
  }

  /** Adding a command of category `k` grows only the size of `k`'s group. */
  lemma {:induction false} SumSizesSnoc(ks: seq<string>, cs: seq<Command>, c: Command)
    requires Distinct(ks)
    ensures SumSizes(ks, cs + [c]) == SumSizes(ks, cs) + (if c.category in ks then 1 else 0)
  {
    if ks != [] {
      assert (cs + [c])[..|cs + [c]| - 1] == cs;
      assert Distinct(ks[1..]) by {
        forall i, j | 0 <= i < j < |ks[1..]| ensures ks[1..][i] != ks[1..][j] {
          assert ks[1..][i] == ks[i + 1] && ks[1..][j] == ks[j + 1];
        }
      }
      SumSizesSnoc(ks[1..], cs, c);
      assert c.category in ks <==> c.category == ks[0] || c.category in ks[1..];
      if c.category == ks[0] {
        assert ks[0] !in ks[1..] by {
          forall j | 0 <= j < |ks[1..]| ensures ks[1..][j] != ks[0] { assert ks[1..][j] == ks[j + 1]; }
        }
      }
    }
  }

  lemma {:induction false} SumSizesAppendKey(ks: seq<string>, k: string, cs: seq<Command>)
    ensures SumSizes(ks + [k], cs) == SumSizes(ks, cs) + |Group(cs, k)|
  {
    if ks != [] {
      assert (ks + [k])[1..] == ks[1..] + [k];
      SumSizesAppendKey(ks[1..], k, cs);
    } else {
      assert [k][1..] == [];
    }
  }

  /** The group sizes add up to the number of commands. */
  lemma {:induction false} GroupSizesSum(cs: seq<Command>)
    ensures SumSizes(Categories(cs), cs) == |cs|
  {
    if cs != [] {
      var init := cs[..|cs| - 1];
      var c := cs[|cs| - 1];
      var ks := Categories(init);
      GroupSizesSum(init);
      CategoriesExact(init);
      assert init + [c] == cs;
      SumSizesSnoc(ks, init, c);
      if c.category !in ks {
        SumSizesAppendKey(ks, c.category, cs);
        GroupNonEmpty(init, c.category);
        assert Group(cs, c.category) == [c];
      }
    }
  }

  /** The `categories` loop: keys go into the map in first-occurrence order (kept here in
      `order`, as a `Map` iterates) and each command is pushed onto its category's list. */
  method BuildCategories(commands: seq<Command>) returns (order: seq<string>, groups: map<string, seq<Command>>)
    ensures order == Categories(commands)
    ensures forall k :: k in groups <==> k in order
    ensures forall k :: k in groups ==> groups[k] == Group(commands, k)
  {
    order, groups := [], map[];
    for i := 0 to |commands|
      invariant order == Categories(commands[..i])
      invariant forall k :: k in groups <==> k in order
      invariant forall k :: k in groups ==> groups[k] == Group(commands[..i], k)
    {
      var cmd := commands[i];
      assert commands[..i + 1][..i] == commands[..i];
      if cmd.category !in groups {
        groups := groups[cmd.category := []];
        order := order + [cmd.category];
        GroupNonEmpty(commands[..i], cmd.category);
      }
      groups := groups[cmd.category := groups[cmd.category] + [cmd]];
    }
    assert commands[..|commands|] == commands;
  }

  // ---------------------------------------------------------------- items

  /** An item's search value: `${label} ${keywords?.join(' ') ?? ''}`. */
  function ItemValue(c: Command): (r: string)
    ensures StartsWith(r, c.caption + " ")
  {
    var words := if c.keywords.Some? then Join(c.keywords.value, " ") else "";
    assert (c.caption + " " + words)[..|c.caption + " "|] == c.caption + " ";
    c.caption + " " + words
  }

  /** Without keywords (or with none listed) the value is the label and a space. */
  lemma ItemValueNoKeywords(c: Command)
    requires c.keywords.None? || c.keywords == Some([])
    ensures ItemValue(c) == c.caption + " "
  {
  }

  /** Keywords without spaces can be read back from the value. */
  lemma ItemValueKeywords(c: Command, ks: seq<string>)
    requires c.keywords == Some(ks) && |ks| >= 1 && NoneContain(ks, ' ')
    ensures Split(ItemValue(c)[|c.caption| + 1..], ' ') == ks
  {
    assert ItemValue(c)[|c.caption| + 1..] == Join(ks, " ");
    SplitJoin(ks, ' ');
  }

  // ---------------------------------------------------------------- selection

  /** The sidebar after a callback runs: the two sidebar commands toggle their panel. */
  function SidebarAfter(panel: Option<EditorStore.Panel>, cb: Callback): Option<EditorStore.Panel> {
    if cb == ToggleOutlineCb then EditorStore.ToggledPanel(panel, Some(EditorStore.Outline))
    else if cb == ToggleCommentsCb then EditorStore.ToggledPanel(panel, Some(EditorStore.Comments))
    else panel
  }

  /** The editor store after a callback runs: `find` opens find and closes the palette,
      and the dark mode, sidebar and zoom commands set their own field. */
  function EditorAfter(s: EditorStore.EditorState, cb: Callback): EditorStore.EditorState {
    s.(isFindOpen := s.isFindOpen || cb == FindCb,
       isCommandPaletteOpen := s.isCommandPaletteOpen && cb != FindCb,
       isDarkMode := if cb == ToggleDarkModeCb then !s.isDarkMode else s.isDarkMode,
       sidebarPanel := SidebarAfter(s.sidebarPanel, cb),
       zoomLevel := if cb.SetZoomCb? then cb.zoom else s.zoomLevel)
  }

  /** The call into the editor a callback makes. */
  function CallOf(cb: Callback): KeyboardShortcuts.External {
    match cb
    case SaveCb => KeyboardShortcuts.RequestSave
    case SaveAsCb => KeyboardShortcuts.DownloadAs("docx")
    case PrintCb => KeyboardShortcuts.PrintCall
    case Formatting(command) => KeyboardShortcuts.ExecFormat(command)
    case _ => KeyboardShortcuts.NoCall
  }

  /** Once the palette has closed, no command reopens it; `find` opens find and shuts it. */
  lemma PaletteStaysClosed(s: EditorStore.EditorState, cb: Callback)
    ensures !s.isCommandPaletteOpen ==> !EditorAfter(s, cb).isCommandPaletteOpen
    ensures EditorAfter(s, FindCb).isFindOpen && !EditorAfter(s, FindCb).isCommandPaletteOpen
    ensures cb.SetZoomCb? ==> EditorAfter(s, cb).zoomLevel == cb.zoom
  {
  }

  /** `runCommand`: the palette is closed first, and the action is scheduled to run 50 ms
      later. */
  method RunCommand(action: Callback, editor: EditorStore.Store) returns (scheduled: Callback, delayMs: nat)
    modifies editor
    ensures editor.State() == old(editor.State()).(isCommandPaletteOpen := false)
    ensures scheduled == action && delayMs == 50
  {
    editor.SetCommandPaletteOpen(false);
    scheduled, delayMs := action, 50;
  }

  /** The `find` callback. */
  method Find(editor: EditorStore.Store)
    modifies editor
    ensures editor.State() == old(editor.State()).(isFindOpen := true, isCommandPaletteOpen := false)
  {
    editor.SetFindOpen(true);
    editor.SetCommandPaletteOpen(false);
  }

  /** A scheduled callback running: `uuid` is the one a new document's key is made from. */
  method Perform(cb: Callback, editor: EditorStore.Store, doc: DocumentStore.Store, uuid: string)
    returns (call: KeyboardShortcuts.External)
    modifies editor, doc
    ensures editor.State() == EditorAfter(old(editor.State()), cb)
    ensures doc.State() == if cb == NewDocumentCb then DocumentStore.Blank(uuid) else old(doc.State())
    ensures call == CallOf(cb)
  {
    call := CallOf(cb);
    if cb == FindCb {
      Find(editor);
    } else if cb == ToggleDarkModeCb {
      editor.ToggleDarkMode();
    } else if cb == ToggleOutlineCb {
      editor.ToggleSidebarPanel(Some(EditorStore.Outline));
    } else if cb == ToggleCommentsCb {
      editor.ToggleSidebarPanel(Some(EditorStore.Comments));
    } else if cb == NewDocumentCb {
      doc.NewDocument(uuid);
    } else if cb.SetZoomCb? {
      editor.SetZoomLevel(cb.zoom);
    }
  }

  /** Selecting an item: the palette closes, then the command's callback runs. */
  method Select(c: Command, editor: EditorStore.Store, doc: DocumentStore.Store, uuid: string)
    returns (call: KeyboardShortcuts.External)
    modifies editor, doc
    ensures editor.State() == EditorAfter(old(editor.State()).(isCommandPaletteOpen := false), c.action)
    ensures !editor.State().isCommandPaletteOpen
    ensures doc.State() == if c.action == NewDocumentCb then DocumentStore.Blank(uuid) else old(doc.State())
    ensures call == CallOf(c.action)
  {
    var scheduled, _ := RunCommand(c.action, editor);
    call := Perform(scheduled, editor, doc, uuid);
    PaletteStaysClosed(old(editor.State()).(isCommandPaletteOpen := false), c.action);
  }
}
