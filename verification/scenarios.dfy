/** Concrete cases of the organiser with its built-in table. */
module Scenarios {
  import opened PathExt
  import opened AsciiCase
  import opened Classification
  import opened Organizer
  import opened Sweep

  /** `os.path.splitext` on names whose leading dots are not separators. */
  lemma SplitExtLeadingDots()
    ensures SplitExt(".env") == (".env", "")
    ensures SplitExt("..a") == ("..a", "")
    ensures SplitExt("README") == ("README", "")
  {
  }

  /** Only the last dot separates; a trailing dot is an extension of its
      own. */
  lemma SplitExtLastDot()
    ensures SplitExt("a.tar.gz") == ("a.tar", ".gz")
  {
    var s := "a.tar.gz";
    assert RFind(s, '.') == 5;
    assert s[..5] == "a.tar" && s[5..] == ".gz";
    assert s[..5][0] != '.';
  }

  lemma SplitExtTrailingDot()
    ensures SplitExt("a.") == ("a", ".")
  {
    var t := "a.";
    assert RFind(t, '.') == 1;
    assert t[..1] == "a" && t[1..] == ".";
    assert t[..1][0] != '.';
  }

  /** A name that does not start with a dot has, as extension, everything
      from its last dot on. */
  lemma ExtFromLastDot(name: string, dot: int)
    requires 0 < dot < |name| && name[dot] == '.' && name[0] != '.'
    requires forall k :: dot < k < |name| ==> name[k] != '.'
    ensures SplitExt(name).1 == name[dot..]
  {
    assert HasExtension(name) by {
      assert name[dot] == ExtSep && name[0] != ExtSep;
    }
    assert name[..dot] + name[dot..] == name;
    assert ExtSep !in name[dot..][1..] by {
      forall k | 0 <= k < |name| - dot - 1
        ensures name[dot..][1..][k] != ExtSep
      {
        assert name[dot..][1..][k] == name[dot + 1 + k];
      }
    }
    SplitUnique(name, SplitExt(name).0, SplitExt(name).1, name[..dot], name[dot..]);
  }

  /** The category of a name under the built-in table, reached through
      its lower-cased extension. */
  lemma CategoryVia(name: string, ext: string, lowered: string, folder: string)
    requires SplitExt(name).1 == ext
    requires Lower(ext) == lowered
    requires Classify(DefaultTable, lowered) == folder
    ensures CategoryOf(DefaultTable, name) == folder
  {
  }

  // Lookups in the built-in table, one extension at a time: each is a
  // lemma of its own so that the scenarios using them stay small.

  lemma JpgIsImage() ensures Classify(DefaultTable, ".jpg") == "Images" {}
  lemma TxtIsDocument() ensures Classify(DefaultTable, ".txt") == "Documents" {
    assert FirstListing(DefaultTable, ".txt", 2) by {
      assert DefaultTable[2].extensions[1] == ".txt";
      forall j | 0 <= j < 2
        ensures ".txt" !in DefaultTable[j].extensions
      {
        assert |".txt"| == 4;
      }
    }
  }
  lemma TarIsArchive() ensures Classify(DefaultTable, ".tar") == "Archives" {
    assert FirstListing(DefaultTable, ".tar", 3) by {
      assert DefaultTable[3].extensions[3] == ".tar";
      forall j | 0 <= j < 3
        ensures ".tar" !in DefaultTable[j].extensions
      {
        assert |".tar"| == 4;
      }
    }
  }

  lemma GzIsOther()
    ensures Classify(DefaultTable, ".gz") == Others
  {
    assert Unlisted(DefaultTable, ".gz") by {
      forall j | 0 <= j < |DefaultTable|
        ensures ".gz" !in DefaultTable[j].extensions
      {
        assert |".gz"| == 3;
      }
    }
  }

  lemma EmptyIsOther()
    ensures Classify(DefaultTable, "") == Others
  {
    assert Unlisted(DefaultTable, "") by {
      forall j | 0 <= j < |DefaultTable|
        ensures "" !in DefaultTable[j].extensions
      {
      }
    }
  }

  lemma LowerJpg() ensures Lower(".JPG") == ".jpg" {}
  lemma LowerTxt() ensures Lower(".txt") == ".txt" {}
  lemma LowerTar() ensures Lower(".tar") == ".tar" {}
  lemma LowerGz() ensures Lower(".gz") == ".gz" {}

  /** Classification goes by the lower-cased extension. */
  lemma UpperCaseImage()
    ensures CategoryOf(DefaultTable, "photo.JPG") == "Images"
  {
    ExtFromLastDot("photo.JPG", 5);
    assert "photo.JPG"[5..] == ".JPG";
    LowerJpg();
    JpgIsImage();
    CategoryVia("photo.JPG", ".JPG", ".jpg", "Images");
  }

  lemma TextIsDocument()
    ensures CategoryOf(DefaultTable, "notes.txt") == "Documents"
  {
    ExtFromLastDot("notes.txt", 5);
    assert "notes.txt"[5..] == ".txt";
    LowerTxt();
    TxtIsDocument();
    CategoryVia("notes.txt", ".txt", ".txt", "Documents");
  }

  /** Only the last extension counts: `.tar` is an archive, `.tar.gz` is
      not listed. */
  lemma TarAndTarGz()
    ensures CategoryOf(DefaultTable, "backup.tar") == "Archives"
    ensures CategoryOf(DefaultTable, "a.tar.gz") == Others
  {
    assert CategoryOf(DefaultTable, "backup.tar") == "Archives" by {
      ExtFromLastDot("backup.tar", 6);
      assert "backup.tar"[6..] == ".tar";
      LowerTar();
      TarIsArchive();
      CategoryVia("backup.tar", ".tar", ".tar", "Archives");
    }
    assert CategoryOf(DefaultTable, "a.tar.gz") == Others by {
      SplitExtLastDot();
      LowerGz();
      GzIsOther();
      CategoryVia("a.tar.gz", ".gz", ".gz", Others);
    }
  }

  /** A dotfile has the empty extension, which no category lists. */
  lemma DotfileIsOther()
    ensures CategoryOf(DefaultTable, ".env") == Others
  {
    SplitExtLeadingDots();
    EmptyIsOther();
    CategoryVia(".env", "", "", Others);
  }

  /** With an extension listed twice, the earlier category takes it. */
  lemma FirstCategoryWins()
    ensures Classify([Category("Pictures", [".jpg"]), Category("Images", [".png", ".jpg"])], ".jpg") == "Pictures"
    ensures Classify([Category("Pictures", [".jpg"]), Category("Images", [".png", ".jpg"])], ".png") == "Images"
  {
  }

  // A run over a small directory: two files to sort, a dotfile, the
  // script, and an `Images` folder that already holds a picture.

  function Before(): Dir {
    map[
      "photo.JPG" := File([1]),
      "Images" := Folder(map["old.png" := File([5])]),
      "notes.txt" := File([2]),
      "sweep.py" := File([4]),
      ".env" := File([3])
    ]
  }

  function After(): Dir {
    map[
      "Images" := Folder(map["old.png" := File([5]), "photo.JPG" := File([1])]),
      "Documents" := Folder(map["notes.txt" := File([2])]),
      "sweep.py" := File([4]),
      "Others" := Folder(map[".env" := File([3])])
    ]
  }

  /** The file `f` of `d` can move into folder `c` without a clash. */
  ghost predicate Movable(d: Dir, f: string, c: string) {
    && f in d && f != Script && d[f].File?
    && (c in d ==> d[c].Folder?)
    && f !in Contents(d, c)
  }

  /** One move of the scenario, with its category known. */
  lemma MoveInto(d: Dir, f: string, c: string, d': Dir)
    requires CategoryOf(DefaultTable, f) == c
    requires Movable(d, f, c) && MovedInto(d, f, c) == d'
    ensures MoveEntry(CategoryBy(DefaultTable), d, f) == Success(d')
  {
    MoveEntryMoves(CategoryBy(DefaultTable), d, f);
  }

  function AfterPhoto(): Dir {
    map[
      "Images" := Folder(map["old.png" := File([5]), "photo.JPG" := File([1])]),
      "notes.txt" := File([2]),
      "sweep.py" := File([4]),
      ".env" := File([3])
    ]
  }

  function AfterNotes(): Dir {
    map[
      "Images" := Folder(map["old.png" := File([5]), "photo.JPG" := File([1])]),
      "Documents" := Folder(map["notes.txt" := File([2])]),
      "sweep.py" := File([4]),
      ".env" := File([3])
    ]
  }

  lemma PhotoMoved()
    ensures Movable(Before(), "photo.JPG", "Images")
    ensures MovedInto(Before(), "photo.JPG", "Images") == AfterPhoto()
  {
    assert Contents(Before(), "Images") == map["old.png" := File([5])];
  }

  lemma NotesMoved()
    ensures Movable(AfterPhoto(), "notes.txt", "Documents")
    ensures MovedInto(AfterPhoto(), "notes.txt", "Documents") == AfterNotes()
  {
    assert Contents(AfterPhoto(), "Documents") == map[];
  }

  lemma DotfileMoved()
    ensures Movable(AfterNotes(), ".env", Others)
    ensures MovedInto(AfterNotes(), ".env", Others) == After()
  {
    assert Contents(AfterNotes(), Others) == map[];
  }

  lemma MovePhoto()
    ensures MoveEntry(CategoryBy(DefaultTable), Before(), "photo.JPG") == Success(AfterPhoto())
  {
    PhotoMoved();
    UpperCaseImage();
    MoveInto(Before(), "photo.JPG", "Images", AfterPhoto());
  }

  lemma MoveNotes()
    ensures MoveEntry(CategoryBy(DefaultTable), AfterPhoto(), "notes.txt") == Success(AfterNotes())
  {
    NotesMoved();
    TextIsDocument();
    MoveInto(AfterPhoto(), "notes.txt", "Documents", AfterNotes());
  }

  lemma MoveDotfile()
    ensures MoveEntry(CategoryBy(DefaultTable), AfterNotes(), ".env") == Success(After())
  {
    DotfileMoved();
    DotfileIsOther();
    MoveInto(AfterNotes(), ".env", Others, After());
  }

  /** A move that succeeds hands its result to the rest of the listing. */
  lemma Then(d: Dir, f: string, rest: seq<string>, d': Dir)
    requires MoveEntry(CategoryBy(DefaultTable), d, f) == Success(d')
    ensures OrganizeDefault(d, [f] + rest) == OrganizeDefault(d', rest)
  {
    OrganizeFolderStep(CategoryBy(DefaultTable), d, [f] + rest);
    assert ([f] + rest)[1..] == rest;
  }

  lemma SkipFolder()
    ensures MoveEntry(CategoryBy(DefaultTable), AfterPhoto(), "Images") == Success(AfterPhoto())
  {
    assert Skipped(AfterPhoto(), "Images");
  }

  lemma SkipScript()
    ensures MoveEntry(CategoryBy(DefaultTable), AfterNotes(), Script) == Success(AfterNotes())
  {
  }

  /** The existing `Images` folder is reused and keeps its picture; the
      upper-case `photo.JPG` joins it under its own name; `Documents` and
      `Others` are created; the script and the folder stay. */
  lemma BasicRun()
    ensures OrganizeDefault(Before(), ["photo.JPG", "Images", "notes.txt", "sweep.py", ".env"]) == Success(After())
  {
    MovePhoto();
    Then(Before(), "photo.JPG", ["Images", "notes.txt", "sweep.py", ".env"], AfterPhoto());
    SkipFolder();
    Then(AfterPhoto(), "Images", ["notes.txt", "sweep.py", ".env"], AfterPhoto());
    MoveNotes();
    Then(AfterPhoto(), "notes.txt", ["sweep.py", ".env"], AfterNotes());
    SkipScript();
    Then(AfterNotes(), "sweep.py", [".env"], AfterNotes());
    MoveDotfile();
    Then(AfterNotes(), ".env", [], After());
  }

  // A file named like a category: the outcome depends on the listing order.

  function Clash(): Dir {
    map["Images" := File([7]), "a.jpg" := File([8])]
  }

  function ClashSorted(): Dir {
    map[
      "Others" := Folder(map["Images" := File([7])]),
      "Images" := Folder(map["a.jpg" := File([8])])
    ]
  }

  lemma PictureIsImage()
    ensures CategoryOf(DefaultTable, "a.jpg") == "Images"
  {
    ExtFromLastDot("a.jpg", 1);
    assert "a.jpg"[1..] == ".jpg";
    JpgIsImage();
    CategoryVia("a.jpg", ".jpg", ".jpg", "Images");
  }

  lemma NoDotIsOther()
    ensures CategoryOf(DefaultTable, "Images") == Others
  {
    assert SplitExt("Images").1 == "";
    EmptyIsOther();
    CategoryVia("Images", "", "", Others);
  }

  /** When the picture comes first, its move finds a file where the
      `Images` folder should be and raises. */
  lemma ClashPictureFirst()
    ensures OrganizeDefault(Clash(), ["a.jpg", "Images"]) == Fail(NotAFolder("Images"))
  {
    PictureIsImage();
    assert MoveEntry(CategoryBy(DefaultTable), Clash(), "a.jpg") == Fail(NotAFolder("Images"));
  }

  lemma ClashFileMoved()
    ensures Movable(Clash(), "Images", Others)
    ensures MovedInto(Clash(), "Images", Others) == map["Others" := Folder(map["Images" := File([7])]), "a.jpg" := File([8])]
  {
    assert Contents(Clash(), Others) == map[];
  }

  lemma ClashPictureMoved()
    ensures Movable(map["Others" := Folder(map["Images" := File([7])]), "a.jpg" := File([8])], "a.jpg", "Images")
    ensures MovedInto(map["Others" := Folder(map["Images" := File([7])]), "a.jpg" := File([8])], "a.jpg", "Images") == ClashSorted()
  {
    assert Contents(map["Others" := Folder(map["Images" := File([7])]), "a.jpg" := File([8])], "Images") == map[];
  }

  /** When the file `Images` comes first it is moved to `Others`, after
      which the picture gets a fresh `Images` folder and the run completes:
      the clash is not a property of the directory alone. */
  lemma ClashFileFirst()
    ensures OrganizeDefault(Clash(), ["Images", "a.jpg"]) == Success(ClashSorted())
  {
    var mid := map["Others" := Folder(map["Images" := File([7])]), "a.jpg" := File([8])];
    ClashFileMoved();
    NoDotIsOther();
    MoveInto(Clash(), "Images", Others, mid);
    Then(Clash(), "Images", ["a.jpg"], mid);
    ClashPictureMoved();
    PictureIsImage();
    MoveInto(mid, "a.jpg", "Images", ClashSorted());
    Then(mid, "a.jpg", [], ClashSorted());
  }
}
