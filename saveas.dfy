/** The Save As dialog (apps/web/src/components/FileManager/SaveAsDialog.tsx): the file
    name is cleaned up, becomes the document title when it is a new non-empty name, and a
    download in the chosen format is requested. */
module SaveAs {
  import opened Text
  import DocumentStore

  datatype ExportFormat = Docx | Pdf | Odt | Txt | Html

  function FormatValue(f: ExportFormat): string {
    match f
    case Docx => "docx"
    case Pdf => "pdf"
    case Odt => "odt"
    case Txt => "txt"
    case Html => "html"
  }

  /** The choices the dialog offers, in order. */
  const Formats: seq<(ExportFormat, string)> := [
    (Docx, "Word Document (.docx)"),
    (Pdf, "PDF Document (.pdf)"),
    (Odt, "OpenDocument Text (.odt)"),
    (Txt, "Plain Text (.txt)"),
    (Html, "Web Page (.html)")]

  const MaxNameLength := 255

  /** The characters `/[/\\<>:"|?*\x00-\x1f]/` removes: path separators, the characters
      Windows reserves, and the control characters 0x00 to 0x1F. */
  predicate IsReserved(c: char) {
    c == '/' || c == '\\' || c == '<' || c == '>' || c == ':' || c == '"' || c == '|'
    || c == '?' || c == '*' || c as int < 0x20
  }

  predicate NoReserved(s: string) {
    forall i :: 0 <= i < |s| ==> !IsReserved(s[i])
  }

  /** `s.replace(/…/g, '')`: every reserved character is dropped, the others kept in order. */
  function StripReserved(s: string): (r: string)
    ensures NoReserved(r) && |r| <= |s|
  {
    if s == [] then []
    else (if IsReserved(s[0]) then [] else [s[0]]) + StripReserved(s[1..])
  }

  /** Stripping works piece by piece. */
  lemma {:induction false} StripAppend(a: string, b: string)
    ensures StripReserved(a + b) == StripReserved(a) + StripReserved(b)
  {
    if a == [] {
      assert a + b == b;
    } else {
      var keep := if IsReserved(a[0]) then [] else [a[0]];
      assert (a + b)[0] == a[0] && (a + b)[1..] == a[1..] + b;
      assert StripReserved(a + b) == keep + StripReserved(a[1..] + b);
      StripAppend(a[1..], b);
      assert StripReserved(a) == keep + StripReserved(a[1..]);
    }
  }

  /** A string keeps its length under stripping exactly when it holds nothing reserved,
      and then it is unchanged. */
  lemma {:induction false} StripKeeps(s: string)
    ensures |StripReserved(s)| == |s| <==> NoReserved(s)
    ensures NoReserved(s) ==> StripReserved(s) == s
  {
    if s != [] {
      StripKeeps(s[1..]);
      if !IsReserved(s[0]) {
        assert [s[0]] + s[1..] == s;
        assert NoReserved(s) <==> NoReserved(s[1..]) by {
          forall i | 0 <= i < |s[1..]| ensures s[1..][i] == s[i + 1] { }
        }
      } else {
        assert !NoReserved(s) by { assert IsReserved(s[0]); }
      }
    }
  }

  /** `s.slice(0, n)` */
  function Take(s: string, n: nat): (r: string)
    ensures |r| == if |s| <= n then |s| else n
    ensures r == s[..|r|]
  {
    if |s| <= n then s else s[..n]
  }

  /** The name `handleSave` keeps: trimmed, then stripped, then cut to 255 characters. */
  function Sanitize(filename: string): (r: string)
    ensures NoReserved(r) && |r| <= MaxNameLength
  {
    Take(StripReserved(Trim(filename)), MaxNameLength)
  }

  /** A name passes through the sanitiser unchanged exactly when it is already clean: no
      reserved character, no white space at either end, at most 255 characters. */
  lemma SanitizeFixedPoints(name: string)
    ensures Sanitize(name) == name <==> NoReserved(name) && Trim(name) == name && |name| <= MaxNameLength
  {
    var t := Trim(name);
    var a, b := TrimShape(name);
    StripKeeps(t);
    if Sanitize(name) == name {
      assert |name| <= |StripReserved(t)| <= |t| <= |name|;
      assert t == name[a..b] && b - a == |name|;
      assert t == name;
    }
  }

  /** Because stripping comes after trimming, a control character can leave white space at
      the start of the name, and sanitising again changes it. */
  lemma SanitizeOrderMatters()
    ensures Sanitize("\U{1} a") == " a"
    ensures Sanitize(" a") == "a"
  {
    assert Trim("\U{1} a") == "\U{1} a" by {
      TrimStartOfNonSpace("\U{1} a");
      TrimEndOfNonSpace("\U{1} a");
    }
    assert StripReserved("\U{1} a") == " a" by {
      assert "\U{1} a"[1..] == " a";
      assert " a"[1..] == "a" && "a"[1..] == [];
    }
    assert Trim(" a") == "a" by {
      assert " a"[1..] == "a";
      TrimStartOfNonSpace("a");
      TrimEndOfNonSpace("a");
    }
    assert StripReserved("a") == "a" by {
      assert "a"[1..] == [];
    }
  }

  /** The dialog's own state. */
  class Dialog {
    var filename: string
    var format: ExportFormat

    /** The field starts with the document title and the format with Word. */
    constructor(documentTitle: string)
      ensures filename == documentTitle && format == Docx
    {
      filename := documentTitle;
      format := Docx;
    }

    method SetFilename(value: string)
      modifies this
      ensures filename == value && format == old(format)
    {
      filename := value;
    }

    method SetFormat(f: ExportFormat)
      modifies this
      ensures format == f && filename == old(filename)
    {
      format := f;
    }

    /** `handleSave`: the title changes only to a non-empty sanitised name that differs
        from it; the download in the selected format is requested whenever there is an
        editor, even for an empty name; the dialog is closed either way. */
    method HandleSave(doc: DocumentStore.Store, hasEditor: bool)
      returns (download: string, requested: bool, open: bool)
      modifies doc
      ensures var name := Sanitize(filename);
        doc.State() == if name != "" && name != old(doc.documentTitle)
                       then old(doc.State()).(documentTitle := name) else old(doc.State())
      ensures requested == hasEditor && download == FormatValue(format)
      ensures !open
    {
      var name := Sanitize(filename);
      if name != [] && name != doc.documentTitle {
        doc.SetDocumentTitle(name);
      }
      download, requested := FormatValue(format), hasEditor;
      open := false;
    }
  }
}
