/** Assigning an entry to a category folder by its extension: the extension
    is lower-cased and looked up in an ordered table of categories; the first
    category that lists it wins, and an extension that no category lists
    (the empty one included) goes to `Others`. */
module Classification {
  import opened PathExt
  import opened AsciiCase

  /** A category folder name and the extensions it collects, each with its
      leading dot and in lower case. */
  datatype Category = Category(folder: string, extensions: seq<string>)

  /** Categories in lookup order. */
  type Table = seq<Category>

  const Others: string := "Others"

  /** The table `organize_folder` uses, in its insertion order. */
  const DefaultTable: Table := [
    Category("Images", [".png", ".jpg", ".jpeg", ".webp", ".gif", ".svg"]),
    Category("Videos", [".mp4", ".mkv", ".mov", ".avi"]),
    Category("Documents", [".md", ".txt", ".pdf", ".docx", ".pptv", ".csv"]),
    Category("Archives", [".zip", ".7z", ".rar", ".tar"]),
    Category("Executables", [".exe", ".msi", ".sh", ".bat"]),
    Category("Music", [".mp3", ".wav"])
  ]

  /** No extension is listed by two categories of the built-in table, so
      there the order of the table never decides anything. */
  lemma DefaultTableUnambiguous()
    ensures forall i, j, e :: 0 <= i < j < |DefaultTable| && e in DefaultTable[i].extensions
              ==> e !in DefaultTable[j].extensions
  {
  }

  /** Category `i` is the first one in `table` that lists `ext`. */
  ghost predicate FirstListing(table: Table, ext: string, i: int) {
    && 0 <= i < |table|
    && ext in table[i].extensions
    && forall j :: 0 <= j < i ==> ext !in table[j].extensions
  }

  /** No category of `table` lists `ext`. */
  ghost predicate Unlisted(table: Table, ext: string) {
    forall j :: 0 <= j < |table| ==> ext !in table[j].extensions
  }

  /** The category loop: walk the table in order and stop at the first
      category listing `ext`; fall back to `Others`. */
  function Classify(table: Table, ext: string): (r: string)
    ensures Unlisted(table, ext) ==> r == Others
    ensures forall i :: FirstListing(table, ext, i) ==> r == table[i].folder
    decreases |table|
  {
    if |table| == 0 then Others
    else if ext in table[0].extensions then table[0].folder
    else
      assert forall i :: FirstListing(table, ext, i) ==> FirstListing(table[1..], ext, i - 1);
      Classify(table[1..], ext)
  }

  /** The category folder an entry named `name` is moved into, decided by
      its lower-cased extension alone. */
  function CategoryOf(table: Table, name: string): (r: string)
    ensures var ext := Lower(Ext(name));
      && (Unlisted(table, ext) ==> r == Others)
      && (forall i :: FirstListing(table, ext, i) ==> r == table[i].folder)
  {
    Classify(table, Lower(Ext(name)))
  }

  /** Every entry goes to one of the table's folders or to `Others`. */
  lemma CategoryInTable(table: Table, name: string)
    ensures var r := CategoryOf(table, name);
      r == Others || exists i :: 0 <= i < |table| && r == table[i].folder
  {
    ListedOrNot(table, Lower(Ext(name)));
  }

  /** Either some category lists the extension first, or none lists it; so
      the two clauses of `Classify`'s contract decide every result. */
  lemma {:induction false} ListedOrNot(table: Table, ext: string)
    ensures Unlisted(table, ext) || exists i :: FirstListing(table, ext, i)
    decreases |table|
  {
    if |table| > 0 && ext !in table[0].extensions {
      ListedOrNot(table[1..], ext);
      if !Unlisted(table[1..], ext) {
        var i :| FirstListing(table[1..], ext, i);
        assert FirstListing(table, ext, i + 1);
      }
    } else if |table| > 0 {
      assert FirstListing(table, ext, 0);
    }
  }

  /** Once a category of `front` lists the extension, the categories after
      it are never consulted: the loop has already stopped. When none of
      `front` lists it, the lookup continues in `back` unchanged. */
  lemma {:induction false} ClassifyStopsAtFirst(front: Table, back: Table, ext: string)
    ensures !Unlisted(front, ext) ==> Classify(front + back, ext) == Classify(front, ext)
    ensures Unlisted(front, ext) ==> Classify(front + back, ext) == Classify(back, ext)
    decreases |front|
  {
    if |front| > 0 {
      assert (front + back)[0] == front[0];
      assert (front + back)[1..] == front[1..] + back;
      if ext !in front[0].extensions {
        ClassifyStopsAtFirst(front[1..], back, ext);
        assert Unlisted(front, ext) <==> Unlisted(front[1..], ext);
      }
    } else {
      assert front + back == back;
    }
  }

  /** The table flattened into one lookup map from extension to label, built
      from the back so that an earlier category overrides a later one. */
  function ExtIndex(table: Table): (m: map<string, string>)
    decreases |table|
  {
    if |table| == 0 then map[]
    else ExtIndex(table[1..]) + map e | e in table[0].extensions :: table[0].folder
  }

  /** The category loop and a single lookup in `ExtIndex` agree on every
      extension: flattening the table keeps first-match-wins. */
  lemma {:induction false} ClassifyByIndex(table: Table, ext: string)
    ensures ext in ExtIndex(table) <==> !Unlisted(table, ext)
    ensures Classify(table, ext) == if ext in ExtIndex(table) then ExtIndex(table)[ext] else Others
    decreases |table|
  {
    if |table| > 0 {
      ClassifyByIndex(table[1..], ext);
      assert Unlisted(table, ext) <==> ext !in table[0].extensions && Unlisted(table[1..], ext);
    }
  }

  /** Classification looks only at the lower-cased extension: renaming an
      entry to its lower-case spelling leaves its category unchanged. */
  lemma CategoryIgnoresCase(table: Table, name: string)
    ensures CategoryOf(table, Lower(name)) == CategoryOf(table, name)
  {
    var (root, ext) := SplitExt(name);
    LowerSplit(name, root, ext);
    SplitUnique(Lower(name), Lower(root), Lower(ext), SplitExt(Lower(name)).0, SplitExt(Lower(name)).1);
    LowerIdempotent(ext);
  }

  /** Lower-casing a split name gives the split of the lower-cased name:
      dots, and so the extension boundary, stay where they were. */
  lemma LowerSplit(name: string, root: string, ext: string)
    requires IsSplit(name, root, ext)
    ensures IsSplit(Lower(name), Lower(root), Lower(ext))
  {
    LowerAppend(root, ext);
    LowerKeepsExtension(name);
    if ext != [] {
      LowerKeepsExtShape(ext);
    }
  }

  lemma LowerKeepsExtension(name: string)
    ensures HasExtension(Lower(name)) <==> HasExtension(name)
  {
    var l := Lower(name);
    if HasExtension(name) {
      var i, j :| 0 <= j < i < |name| && name[i] == ExtSep && name[j] != ExtSep;
      LowerKeepsDot(name, i);
      LowerKeepsDot(name, j);
      assert l[i] == ExtSep && l[j] != ExtSep;
    }
    if HasExtension(l) {
      var i, j :| 0 <= j < i < |l| && l[i] == ExtSep && l[j] != ExtSep;
      LowerKeepsDot(name, i);
      LowerKeepsDot(name, j);
      assert name[i] == ExtSep && name[j] != ExtSep;
    }
  }

  lemma LowerKeepsExtShape(ext: string)
    requires ext != [] && ext[0] == ExtSep && ExtSep !in ext[1..]
    ensures Lower(ext)[0] == ExtSep && ExtSep !in Lower(ext)[1..]
  {
    var le := Lower(ext);
    LowerKeepsDot(ext, 0);
    forall k | 0 <= k < |le| - 1
      ensures le[1..][k] != ExtSep
    {
      LowerKeepsDot(ext, k + 1);
      assert ext[1..][k] == ext[k + 1];
    }
  }
}
