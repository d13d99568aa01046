# sweep.py organiser — a Dafny model

`organize_folder(path)` tidies one directory. It lists the top-level entries once. It skips the script itself (`sweep.py`) and every sub-folder. Every other entry is moved into a folder named after its category, under the same name, and that folder is created if nothing of that name exists yet. The category comes from the entry's extension, as `os.path.splitext` splits it and lower-cased. The extension is looked up in an ordered table of six categories (Images, Videos, Documents, Archives, Executables, Music). The first category listing it wins; anything unlisted, the empty extension included, goes to `Others`.

The model is split into five modules:

- `PathExt` (path_ext.dfy): `os.path.splitext` on a bare entry name. `SplitExt` follows the library's steps: find the last dot, then split there unless only dots precede it. It is proved equal to a declarative characterisation, `IsSplit`, which has exactly one solution (`SplitUnique`).
- `AsciiCase` (ascii_case.dfy): `str.lower()` restricted to ASCII.
- `Classification` (classification.dfy): the category table as an ordered sequence of `Category(folder, extensions)` values. It holds the first-match lookup `Classify`, the built-in `DefaultTable`, and `CategoryOf(table, name)`. `ExtIndex` is an independent reference lookup: one map built from the table in which earlier categories override later ones.
- `Organizer` (organizer.dfy): the directory is an immutable map from top-level names to `File(data)` or `Folder(children)` nodes. Names are relative to the organised directory; that is how the model stands in for the `os.chdir` call. The classifier is a parameter `cat`. `MoveEntry` is one iteration of the loop and `OrganizeFolder` is the fold over the listing. Where the source would raise, the fold stops with a `MoveError`. `Layout`/`Planned` describe the end state without the loop. The main theorem, `OrganizeFollowsPlan`, says that on an organisable directory every listing order reaches that state.
- `Sweep` (sweep.dfy): the loop with the table's classifier plugged in (`Organize`, `OrganizeDefault`).
- `Scenarios` (scenarios.dfy): concrete cases with the built-in table.

A dotfile such as `.env` has the empty extension and lands in `Others/.env` (`DotfileIsOther`, `SplitExtLeadingDots`).

## Model

| member | source | states |
|---|---|---|
| PathExt.SplitExt | sweep.py:24 | the root and extension concatenate back to the name; the extension is non-empty exactly when some dot follows a non-dot character; a non-empty extension is one dot followed by dot-free text |
| PathExt.SplitUnique | sweep.py:24 | those three conditions admit only one split, so they fully specify `splitext` on a bare name |
| PathExt.ExtStartsAtLastDot | sweep.py:24 | a non-empty extension starts at the last dot of the name |
| AsciiCase.Lower | sweep.py:25 | the result has the same length, contains no upper-case ASCII letter, keeps every other character, and turns each upper-case letter into its lower-case partner |
| AsciiCase.LowerKeepsDot | sweep.py:25 | lower-casing neither creates nor removes a dot |
| Classification.Classify | sweep.py:27-30 | the result is the folder of the first category whose list contains the extension, and `Others` when no category lists it |
| Classification.ListedOrNot | sweep.py:44 | every extension is either listed first by some category or listed by none, so the fallback covers exactly the unmatched case |
| Classification.ClassifyStopsAtFirst | sweep.py:28-41 | once a category in the front part of the table lists the extension, categories after it never affect the result; otherwise the lookup continues in the rest unchanged |
| Classification.ClassifyByIndex | sweep.py:6-13 | the category loop agrees on every extension with a single lookup in a flattened extension-to-folder map in which earlier categories win |
| Classification.CategoryOf | sweep.py:24-30 | the folder for an entry is decided by its lower-cased extension alone: the first category listing that extension, or `Others` when none does |
| Classification.CategoryInTable | sweep.py:28-47 | every entry goes to one of the table's folders or to `Others`, never anywhere else |
| Classification.CategoryIgnoresCase | sweep.py:24-25 | an entry and its lower-cased name always get the same category |
| Classification.LowerSplit | sweep.py:24-25 | lower-casing a name keeps the extension boundary: the split of the lower-cased name is the lower-cased split |
| Organizer.SkippedIffUnchanged | sweep.py:21 | one iteration leaves the directory exactly as it was if and only if the name is the script or a folder; any other name is moved away or raises |
| Organizer.MoveEntry | sweep.py:21-50 | the script and folders are skipped unchanged. A missing entry, a category name taken by a file, and a category folder that already holds the name each fail. Otherwise the entry leaves the top level for its category folder, that folder keeps its old contents (or is created empty), and every other entry is unchanged |
| Organizer.OrganizeFolder | sweep.py:18-50 | whatever the listing, a completed run keeps every skipped entry (files unchanged, folders keep their old contents) and adds only folders |
| Organizer.OrganizeFollowsPlan | sweep.py:18-50 | on an organisable directory, for any order of the listing, the run succeeds and ends in the planned layout |
| Organizer.StepFollowsPlan | sweep.py:21-36 | handling one more listed name takes the planned state for the names done so far to the planned state with that name done |
| Organizer.RunFollowsPlan | sweep.py:18 | the rest of the listing takes the planned state to the plan with all remaining names done |
| Organizer.MoveFollowsLayout | sweep.py:33-36 | one move takes the layout with some entries gone to the layout with one more entry gone |
| Organizer.OrganizeMovesEachEntry | sweep.py:36 | every entry other than the script and folders leaves the top level and appears unchanged, under the same name, in its category folder |
| Organizer.OrganizeKeepsSkipped | sweep.py:21 | the script stays unchanged; an existing folder stays and holds its old entries plus exactly the entries moved into it, so it is reused rather than recreated |
| Organizer.OrganizeAddsOnlyCategories | sweep.py:46-49 | every top-level name after the run was a skipped entry or is the category of a moved entry, and a newly created folder holds exactly the entries moved into it |
| Organizer.OrganizeOrderIrrelevant | sweep.py:18 | on an organisable directory, two listing orders give the same result |
| Organizer.SkippedOnlyIsNoOp | sweep.py:21 | a listing made only of skipped entries changes nothing |
| Organizer.RunLeavesOnlySkipped | sweep.py:18-49 | a completed run over a listing that names every entry to be moved leaves only the script and folders at the top level, on any directory |
| Organizer.OrganizeIdempotent | sweep.py:18-21 | after any completed run only the script and folders remain at the top level, so organising the result again changes nothing |
| Organizer.ClashRaises | sweep.py:33-36 | an entry whose category name is taken by a file makes the run fail when that entry comes first, since nothing is created and the move cannot go into a file |
| Sweep.Organize | sweep.py:4-50 | a completed run keeps the script unchanged, keeps every folder in place with at least its old entries, and adds only folders |
| Sweep.OrganizeDefault | sweep.py:4-50 | with the built-in table, a completed run keeps the script unchanged, keeps every folder in place with at least its old entries, and adds only folders |
| Sweep.MovedByExtension | sweep.py:24-49 | each moved entry keeps its name, case included. It lands in the first category listing its lower-cased extension, or in `Others` when none lists it |
| Sweep.DefaultSortsByExtension | sweep.py:6-49 | with the built-in table, on an organisable directory, each moved entry leaves the top level and lands unchanged in the category listing its lower-cased extension, or in `Others` when none lists it |
| Scenarios.SplitExtLeadingDots | sweep.py:24 | `.env` and `..a` have no extension, and neither does a name without a dot |
| Scenarios.SplitExtLastDot | sweep.py:24 | `a.tar.gz` splits as `a.tar` and `.gz` |
| Scenarios.SplitExtTrailingDot | sweep.py:24 | `a.` splits as `a` and `.` |
| Scenarios.UpperCaseImage | sweep.py:24-30 | `photo.JPG` is an image |
| Scenarios.TarAndTarGz | sweep.py:10 | `.tar` is an archive; `a.tar.gz` goes to `Others` |
| Scenarios.DotfileIsOther | sweep.py:44-49 | `.env` goes to `Others` |
| Classification.DefaultTableUnambiguous | sweep.py:6-13 | no extension appears in two categories of the built-in table |
| Scenarios.FirstCategoryWins | sweep.py:28-41 | with `.jpg` listed by two categories, the earlier one takes it |
| Scenarios.BasicRun | sweep.py:18-50 | a concrete run: `photo.JPG` joins an existing `Images` folder beside its old picture; `Documents` and `Others` are created for `notes.txt` and `.env`; the script and the folder stay |
| Scenarios.ClashPictureFirst | sweep.py:33-36 | with a file called `Images`, listing the picture first makes its move fail |
| Scenarios.ClashFileFirst | sweep.py:18-49 | listing the file `Images` first moves it to `Others`, after which the picture gets a fresh `Images` folder and the run completes |

## Left out

- `os.chdir` (sweep.py:16) is process state. All names are relative to the organised directory instead.
- `print` logging (sweep.py:39, 50, 55) and the `__main__` entry (sweep.py:52-54) are console glue.
- `os.listdir` order is arbitrary. The listing is a parameter; `IsListing` states what it must be (every name once).
- Organizer.MoveEntry: stops with `DestinationTaken` when the category folder already holds the name; `shutil.move` does not stop there. It overwrites an existing file `category/name`, by a replacing rename on POSIX or by copy-then-delete where the rename refuses. It moves the entry inside an existing folder `category/name`. The main theorems assume no such clash (`Organizable`).
- Organizer.OrganizeFolder: on failure the model returns the failure alone. The source leaves the moves already made (and a folder created just before a failing move) in place.
- Organizer.OrganizeFollowsPlan: `Organizable` is sufficient, not necessary. A file named like a category can still succeed if the listing puts it first (`ClashFileFirst`); `ClashRaises` shows that a category name taken by a file makes the run fail when the clashing entry comes first.
- AsciiCase.Lower: models ASCII lower-casing only, not Python's full Unicode `str.lower()`.
- PathExt.SplitExt: models the POSIX `splitext` on a bare name. Listed names never contain a separator, and the Windows variant (backslash, drive letters) is not modelled.
- Organizer.ClashRaises: its second case, a category folder that already holds the entry's name, fails only because the model stops with `DestinationTaken` there; in the source `shutil.move` overwrites or nests instead (see `MoveEntry` above).
- Names are compared exactly, as on a case-sensitive filesystem. On a case-insensitive one (the macOS and Windows defaults), an existing folder `images` satisfies `os.path.exists("Images")`, so no `Images` folder is created and the entry goes into `images`. The model instead adds a separate `Images` entry.
- Symbolic links, permissions and other filesystem errors are not modelled. `os.path.isdir` is taken to mean "is a folder" in the directory map.
- File contents are opaque bytes that moves never inspect.
