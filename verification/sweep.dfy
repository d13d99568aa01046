/** `organize_folder` as a whole: the loop of `Organizer` with the category
    of each entry computed from its lower-cased extension by the ordered
    category table. */
module Sweep {
  import opened PathExt
  import opened AsciiCase
  import opened Classification
  import opened Organizer

  /** The classifier the loop uses for a given table. */
  function CategoryBy(table: Table): string -> string {
    name => CategoryOf(table, name)
  }

  /** `organize_folder` on a directory whose listing, taken once at the
      start, is `listing`. */
  function Organize(table: Table, d: Dir, listing: seq<string>): (r: Result<Dir>)
    ensures r.Success? && Script in d ==> Script in r.value && Kept(d[Script], r.value[Script])
    ensures r.Success? ==> forall n :: n in d && d[n].Folder? ==> n in r.value && Kept(d[n], r.value[n])
    ensures r.Success? ==> forall n :: n in r.value && n !in d ==> r.value[n].Folder?
  {
    OrganizeFolder(CategoryBy(table), d, listing)
  }

  /** The source's own run: the built-in table. */
  function OrganizeDefault(d: Dir, listing: seq<string>): (r: Result<Dir>)
    ensures r.Success? && Script in d ==> Script in r.value && Kept(d[Script], r.value[Script])
    ensures r.Success? ==> forall n :: n in d && d[n].Folder? ==> n in r.value && Kept(d[n], r.value[n])
    ensures r.Success? ==> forall n :: n in r.value && n !in d ==> r.value[n].Folder?
  {
    Organize(DefaultTable, d, listing)
  }

  /** Folder `c` of `r` holds `node` under the name `f`. */
  ghost predicate FiledUnder(r: Dir, c: string, f: string, node: Node) {
    c in r && r[c].Folder? && f in r[c].children && r[c].children[f] == node
  }

  /** Each moved entry keeps its name, letter case included, and lands in
      the folder the table assigns to its lower-cased extension: the first
      category listing that extension, or `Others`. */
  lemma MovedByExtension(table: Table, d: Dir, listing: seq<string>, f: string)
    requires IsListing(d, listing)
    requires Organizable(CategoryBy(table), d)
    requires f in d && !Skipped(d, f)
    ensures Organize(table, d, listing).Success?
    ensures var r := Organize(table, d, listing).value;
      var ext := Lower(SplitExt(f).1);
      && f !in r
      && (Unlisted(table, ext) ==> FiledUnder(r, Others, f, d[f]))
      && (forall i :: FirstListing(table, ext, i) ==> FiledUnder(r, table[i].folder, f, d[f]))
  {
    var cat := CategoryBy(table);
    OrganizeMovesEntry(cat, d, listing, f);
    assert cat(f) == Classify(table, Lower(SplitExt(f).1));
  }

  /** With the built-in table, where no extension is listed twice, an entry
      lands in the category listing its lower-cased extension, whichever
      that is, and in `Others` when none does. */
  lemma DefaultSortsByExtension(d: Dir, listing: seq<string>, f: string)
    requires IsListing(d, listing)
    requires Organizable(CategoryBy(DefaultTable), d)
    requires f in d && !Skipped(d, f)
    ensures OrganizeDefault(d, listing).Success?
    ensures var r := OrganizeDefault(d, listing).value;
      var ext := Lower(SplitExt(f).1);
      && f !in r
      && (Unlisted(DefaultTable, ext) ==> FiledUnder(r, Others, f, d[f]))
      && (forall i :: 0 <= i < |DefaultTable| && ext in DefaultTable[i].extensions ==>
            FiledUnder(r, DefaultTable[i].folder, f, d[f]))
  {
    MovedByExtension(DefaultTable, d, listing, f);
    DefaultTableUnambiguous();
    var ext := Lower(SplitExt(f).1);
    forall i | 0 <= i < |DefaultTable| && ext in DefaultTable[i].extensions
      ensures FirstListing(DefaultTable, ext, i)
    {
    }
  }
}
