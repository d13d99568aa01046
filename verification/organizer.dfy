/** `organize_folder`: one pass over the listing of a directory taken at the
    start, moving every top-level entry except the organiser script and the
    sub-folders into the folder of its category, creating that folder when
    nothing of that name exists yet.

    The directory is the map from its top-level names to nodes; names are
    relative to it, which stands for the working directory the source
    switches into. */
module Organizer {
  /** The organiser's own file name, never moved. */
  const Script: string := "sweep.py"

  /** A directory entry: a file with its contents, or a folder with its
      entries. */
  datatype Node = File(data: seq<bv8>) | Folder(children: map<string, Node>)

  /** The top level of the directory being organised. */
  type Dir = map<string, Node>

  /** How a move can go wrong, where the source would raise. */
  datatype MoveError =
    | Missing(name: string)
      // the listed entry is no longer there
    | NotAFolder(folder: string)
      // the category name is taken by something that is not a folder
    | DestinationTaken(folder: string, name: string)
      // the category folder already holds an entry of the same name

  datatype Result<T> = Success(value: T) | Fail(error: MoveError)

  /** The skip test of the loop: the script itself and every folder. */
  predicate Skipped(d: Dir, f: string) {
    f == Script || (f in d && d[f].Folder?)
  }

  /** What a category folder holds before anything is moved into it; a name
      that is absent, or not a folder, holds nothing. */
  function Contents(d: Dir, c: string): map<string, Node> {
    if c in d && d[c].Folder? then d[c].children else map[]
  }

  /** `d` once its entry `f` has left the top level for the folder `c`,
      which keeps what it held. */
  function MovedInto(d: Dir, f: string, c: string): Dir
    requires f in d
  {
    (d - {f})[c := Folder(Contents(d, c)[f := d[f]])]
  }

  /** One iteration of the loop for the listed name `f`: skip it, or create
      its category folder if the name is free and move `f` into it under
      the same name. */
  function MoveEntry(cat: string -> string, d: Dir, f: string): (r: Result<Dir>)
    ensures Skipped(d, f) ==> r == Success(d)
    ensures !Skipped(d, f) && f !in d ==> r == Fail(Missing(f))
    ensures !Skipped(d, f) && f in d ==>
      var c := cat(f);
      if c in d && d[c].File? then r == Fail(NotAFolder(c))
      else if f in Contents(d, c) then r == Fail(DestinationTaken(c, f))
      else
        && r.Success?
        && r.value.Keys == d.Keys - {f} + {c}
        && r.value[c] == Folder(Contents(d, c)[f := d[f]])
        && forall n :: n in d && n != f && n != c ==> r.value[n] == d[n]
  {
    if Skipped(d, f) then Success(d)
    else if f !in d then Fail(Missing(f))
    else
      var c := cat(f);
      var d1 := if c in d then d else d[c := Folder(map[])];
      if d1[c].File? then Fail(NotAFolder(c))
      else if f in d1[c].children then Fail(DestinationTaken(c, f))
      else Success((d1 - {f})[c := Folder(d1[c].children[f := d[f]])])
  }

  /** An entry present before a run is kept by it: a file unchanged, a
      folder still a folder with at least its old entries. */
  ghost predicate Kept(before: Node, after: Node) {
    && (before.File? ==> after == before)
    && (before.Folder? ==> after.Folder? && before.children.Items <= after.children.Items)
  }

  /** The loop over the listing, stopping at the first move that raises.
      Whatever the listing, a completed run has kept every skipped entry
      and added nothing but folders. */
  function OrganizeFolder(cat: string -> string, d: Dir, listing: seq<string>): (r: Result<Dir>)
    ensures r.Success? ==> forall n :: n in d && Skipped(d, n) ==> n in r.value && Kept(d[n], r.value[n])
    ensures r.Success? ==> forall n :: n in r.value && n !in d ==> r.value[n].Folder?
    decreases |listing|
  {
    if |listing| == 0 then Success(d)
    else
      match MoveEntry(cat, d, listing[0])
      case Fail(e) => Fail(e)
      case Success(d') =>
        MoveKeepsSkipped(cat, d, listing[0]);
        OrganizeFolder(cat, d', listing[1..])
  }

  /** The loop's first iteration, when it raises nothing, hands its result
      to the rest of the loop. */
  lemma OrganizeFolderStep(cat: string -> string, d: Dir, listing: seq<string>)
    requires |listing| > 0 && MoveEntry(cat, d, listing[0]).Success?
    ensures OrganizeFolder(cat, d, listing)
         == OrganizeFolder(cat, MoveEntry(cat, d, listing[0]).value, listing[1..])
  {
  }

  /** A successful move keeps every skipped entry and adds only a folder. */
  lemma MoveKeepsSkipped(cat: string -> string, d: Dir, f: string)
    requires MoveEntry(cat, d, f).Success?
    ensures var d' := MoveEntry(cat, d, f).value;
      && (forall n :: n in d && Skipped(d, n) ==> n in d' && Skipped(d', n) && Kept(d[n], d'[n]))
      && (forall n :: n in d' && n !in d ==> d'[n].Folder?)
  {
  }

  /** The skip test picks out exactly the names one iteration leaves the
      directory alone for: any other name is moved away or raises. */
  lemma SkippedIffUnchanged(cat: string -> string, d: Dir, f: string)
    ensures MoveEntry(cat, d, f) == Success(d) <==> Skipped(d, f)
  {
    if !Skipped(d, f) && f in d && MoveEntry(cat, d, f).Success? {
      assert cat(f) != f;
      assert f !in MoveEntry(cat, d, f).value;
    }
  }

  // ---------------------------------------------------------------------
  // The outcome of a run, stated without the loop.

  /** `listing` is what `os.listdir` returns for `d`: every top-level name
      exactly once, in some order. */
  ghost predicate IsListing(d: Dir, listing: seq<string>) {
    && (forall i, j :: 0 <= i < j < |listing| ==> listing[i] != listing[j])
    && (forall n :: n in listing <==> n in d)
  }

  /** No move of the run can clash, in whatever order the entries come:
      the category of every entry to be moved is either free or a folder
      that does not yet hold an entry of that name. */
  ghost predicate Organizable(cat: string -> string, d: Dir) {
    forall f :: f in d && !Skipped(d, f) ==>
      var c := cat(f);
      c in d ==> d[c].Folder? && f !in d[c].children
  }

  /** The entries of `d` among `done` that the loop moves. */
  function Moving(d: Dir, done: set<string>): set<string> {
    set f | f in done && f in d && !Skipped(d, f)
  }

  /** The category folders the entries `moved` go to. */
  function Targets(cat: string -> string, d: Dir, moved: set<string>): set<string> {
    set f | f in moved && f in d :: cat(f)
  }

  /** The entries of `moved` that land in folder `c`, under their own names. */
  function Arrivals(cat: string -> string, d: Dir, moved: set<string>, c: string): map<string, Node> {
    map f | f in moved && f in d && cat(f) == c :: d[f]
  }

  /** The directory once the entries `moved` have gone: each has left the
      top level for its category folder; every other entry is as it was. */
  function Layout(cat: string -> string, d: Dir, moved: set<string>): Dir {
    map n | n in (d.Keys - moved) + Targets(cat, d, moved) ::
      if n in Targets(cat, d, moved) then Folder(Contents(d, n) + Arrivals(cat, d, moved, n))
      else d[n]
  }

  /** The directory once the listed names `done` have been handled. */
  function Planned(cat: string -> string, d: Dir, done: set<string>): Dir {
    Layout(cat, d, Moving(d, done))
  }

  lemma PlannedNothingDone(cat: string -> string, d: Dir)
    ensures Planned(cat, d, {}) == d
  {
    assert Moving(d, {}) == {};
    assert Targets(cat, d, {}) == {};
  }

  /** Handling one more listed name of an organisable directory takes the
      planned state for the names done so far to the planned state with that
      name done too. */
  lemma StepFollowsPlan(cat: string -> string, d: Dir, done: set<string>, f: string)
    requires Organizable(cat, d)
    requires f in d && f !in done
    ensures MoveEntry(cat, Planned(cat, d, done), f) == Success(Planned(cat, d, done + {f}))
  {
    var M := Moving(d, done);
    if Skipped(d, f) {
      assert Moving(d, done + {f}) == M;
      var cur := Layout(cat, d, M);
      assert f == Script || (f in cur && cur[f].Folder?) by {
        if f != Script {
          assert f !in M;
        }
      }
    } else {
      assert Moving(d, done + {f}) == M + {f};
      MoveFollowsLayout(cat, d, M, f);
    }
  }

  /** Moving one more entry, as the loop does, takes the layout with `moved`
      gone to the layout with that entry gone too. */
  lemma MoveFollowsLayout(cat: string -> string, d: Dir, moved: set<string>, f: string)
    requires Organizable(cat, d)
    requires forall g :: g in moved ==> g in d && !Skipped(d, g)
    requires f in d && !Skipped(d, f) && f !in moved
    ensures MoveEntry(cat, Layout(cat, d, moved), f) == Success(Layout(cat, d, moved + {f}))
  {
    var cur := Layout(cat, d, moved);
    var next := Layout(cat, d, moved + {f});
    var c := cat(f);
    NotATarget(cat, d, moved, f);
    assert f in cur && cur[f] == d[f];
    LayoutFolder(cat, d, moved, f);
    MoveEntryMoves(cat, cur, f);
    var moved' := MovedInto(cur, f, c);
    LayoutKeysStep(cat, d, moved, f);
    LayoutAtCategory(cat, d, moved, f);
    forall n | n in next && n != c
      ensures moved'[n] == next[n]
    {
      LayoutElsewhere(cat, d, moved, f, n);
    }
    assert moved' == next;
  }

  /** One more move takes its entry off the top level and puts its
      category there. */
  lemma LayoutKeysStep(cat: string -> string, d: Dir, moved: set<string>, f: string)
    requires Organizable(cat, d)
    requires forall g :: g in moved ==> g in d && !Skipped(d, g)
    requires f in d && !Skipped(d, f) && f !in moved
    ensures Layout(cat, d, moved + {f}).Keys == Layout(cat, d, moved).Keys - {f} + {cat(f)}
  {
    NotATarget(cat, d, moved, f);
    assert Targets(cat, d, moved + {f}) == Targets(cat, d, moved) + {cat(f)};
  }

  /** One more move fills its category folder with the moved entry on top
      of what the folder held in the layout before. */
  lemma LayoutAtCategory(cat: string -> string, d: Dir, moved: set<string>, f: string)
    requires Organizable(cat, d)
    requires forall g :: g in moved ==> g in d && !Skipped(d, g)
    requires f in d && !Skipped(d, f) && f !in moved
    ensures cat(f) in Layout(cat, d, moved + {f})
    ensures Layout(cat, d, moved + {f})[cat(f)]
         == Folder(Contents(Layout(cat, d, moved), cat(f))[f := d[f]])
  {
    var c := cat(f);
    LayoutFolder(cat, d, moved, f);
    ArrivalsStep(cat, d, moved, f, c);
    var A, B := Contents(d, c), Arrivals(cat, d, moved, c);
    assert c in Targets(cat, d, moved + {f});
    assert (A + B)[f := d[f]] == A + B[f := d[f]];
  }

  /** A move that raises nothing: the entry leaves the top level for its
      category folder, which keeps what it held. */
  lemma MoveEntryMoves(cat: string -> string, d: Dir, f: string)
    requires f in d && !Skipped(d, f)
    requires cat(f) in d ==> d[cat(f)].Folder?
    requires f !in Contents(d, cat(f))
    ensures MoveEntry(cat, d, f) == Success(MovedInto(d, f, cat(f)))
  {
    var c := cat(f);
    if c !in d {
      var d1 := d[c := Folder(map[])];
      assert (d1 - {f})[c := Folder(map[f := d[f]])] == (d - {f})[c := Folder(map[f := d[f]])];
    }
  }

  /** Away from the moved entry and its category, one more move leaves the
      layout as it was. */
  lemma LayoutElsewhere(cat: string -> string, d: Dir, moved: set<string>, f: string, n: string)
    requires f in d && f !in moved
    requires n != f && n != cat(f)
    requires n in Layout(cat, d, moved + {f})
    ensures n in Layout(cat, d, moved)
    ensures Layout(cat, d, moved)[n] == Layout(cat, d, moved + {f})[n]
  {
    assert n in Targets(cat, d, moved + {f}) <==> n in Targets(cat, d, moved);
    ArrivalsStep(cat, d, moved, f, n);
  }

  /** Moving `f` adds it to the arrivals of its own category only. */
  lemma ArrivalsStep(cat: string -> string, d: Dir, moved: set<string>, f: string, n: string)
    requires f in d && f !in moved
    ensures Arrivals(cat, d, moved + {f}, n)
         == if n == cat(f) then Arrivals(cat, d, moved, n)[f := d[f]]
            else Arrivals(cat, d, moved, n)
  {
    var a, b := Arrivals(cat, d, moved + {f}, n), Arrivals(cat, d, moved, n);
    var c := cat(f);
    var b' := if n == c then b[f := d[f]] else b;
    forall g | g in a
      ensures g in b' && a[g] == b'[g]
    {
    }
    forall g | g in b'
      ensures g in a
    {
    }
  }

  /** In the layout, the category folder of a still-unmoved entry is absent
      or a folder holding its old entries and the arrivals so far, and not
      that entry's name. */
  lemma LayoutFolder(cat: string -> string, d: Dir, moved: set<string>, f: string)
    requires Organizable(cat, d)
    requires forall g :: g in moved ==> g in d && !Skipped(d, g)
    requires f in d && !Skipped(d, f) && f !in moved
    ensures var cur := Layout(cat, d, moved);
      var c := cat(f);
      && (c in cur ==> cur[c].Folder?)
      && Contents(cur, c) == Contents(d, c) + Arrivals(cat, d, moved, c)
      && f !in Contents(cur, c)
  {
    var c := cat(f);
    var cur := Layout(cat, d, moved);
    if c !in Targets(cat, d, moved) {
      assert Arrivals(cat, d, moved, c) == map[];
    }
  }

  /** An entry that is not skipped is never a category folder of the plan,
      since in an organisable directory every category name present is a
      folder. */
  lemma NotATarget(cat: string -> string, d: Dir, moved: set<string>, f: string)
    requires Organizable(cat, d)
    requires forall g :: g in moved ==> g in d && !Skipped(d, g)
    requires f in d && !Skipped(d, f)
    ensures f !in Targets(cat, d, moved)
  {
    forall g | g in moved
      ensures cat(g) != f
    {
      assert !Skipped(d, g);
    }
  }

  /** The rest of the listing takes the planned state to the plan with every
      remaining name done. */
  lemma {:induction false} RunFollowsPlan(cat: string -> string, d: Dir, done: set<string>, rest: seq<string>)
    requires Organizable(cat, d)
    requires forall i, j :: 0 <= i < j < |rest| ==> rest[i] != rest[j]
    requires forall n :: n in rest ==> n in d && n !in done
    ensures OrganizeFolder(cat, Planned(cat, d, done), rest)
         == Success(Planned(cat, d, done + set n | n in rest))
    decreases |rest|
  {
    if |rest| == 0 {
      assert done + (set n | n in rest) == done;
    } else {
      var f, tail := rest[0], rest[1..];
      var here, there := Planned(cat, d, done), Planned(cat, d, done + {f});
      var all := done + set n | n in rest;
      forall n | n in tail
        ensures n in d && n !in done + {f}
      {
        var k :| 0 <= k < |tail| && tail[k] == n;
        assert rest[k + 1] == n;
      }
      forall i, j | 0 <= i < j < |tail|
        ensures tail[i] != tail[j]
      {
        assert tail[i] == rest[i + 1] && tail[j] == rest[j + 1];
      }
      assert (done + {f}) + (set n | n in tail) == all by {
        assert forall n :: n in rest <==> n == f || n in tail;
      }
      calc {
        OrganizeFolder(cat, here, rest);
        { StepFollowsPlan(cat, d, done, f);
          OrganizeFolderStep(cat, here, rest); }
        OrganizeFolder(cat, there, tail);
        { RunFollowsPlan(cat, d, done + {f}, tail); }
        Success(Planned(cat, d, all));
      }
    }
  }

  /** A run over a listing of an organisable directory succeeds and ends in
      the planned state with every entry done, whatever the listing order. */
  lemma OrganizeFollowsPlan(cat: string -> string, d: Dir, listing: seq<string>)
    requires IsListing(d, listing)
    requires Organizable(cat, d)
    ensures OrganizeFolder(cat, d, listing) == Success(Planned(cat, d, d.Keys))
  {
    PlannedNothingDone(cat, d);
    RunFollowsPlan(cat, d, {}, listing);
    assert {} + (set n | n in listing) == d.Keys;
  }

  // ---------------------------------------------------------------------
  // What a completed run promises, in the directory's own terms.

  /** The entries of `d` that a whole run moves into folder `c`, by name. */
  function Incoming(cat: string -> string, d: Dir, c: string): map<string, Node> {
    Arrivals(cat, d, Moving(d, d.Keys), c)
  }

  /** Every entry that is neither the script nor a folder leaves the top
      level and sits, under its own name and unchanged, in the folder of its
      category. */
  lemma OrganizeMovesEachEntry(cat: string -> string, d: Dir, listing: seq<string>)
    requires IsListing(d, listing)
    requires Organizable(cat, d)
    ensures OrganizeFolder(cat, d, listing).Success?
    ensures var r := OrganizeFolder(cat, d, listing).value;
      forall f :: f in d && !Skipped(d, f) ==>
        && f !in r
        && cat(f) in r && r[cat(f)].Folder?
        && f in r[cat(f)].children && r[cat(f)].children[f] == d[f]
  {
    OrganizeFollowsPlan(cat, d, listing);
    forall f | f in d && !Skipped(d, f)
      ensures f !in Layout(cat, d, Moving(d, d.Keys))
      ensures cat(f) in Targets(cat, d, Moving(d, d.Keys))
      ensures f in Arrivals(cat, d, Moving(d, d.Keys), cat(f))
    {
      NotATarget(cat, d, Moving(d, d.Keys), f);
    }
  }

  /** `OrganizeMovesEachEntry` for one entry. */
  lemma OrganizeMovesEntry(cat: string -> string, d: Dir, listing: seq<string>, f: string)
    requires IsListing(d, listing)
    requires Organizable(cat, d)
    requires f in d && !Skipped(d, f)
    ensures OrganizeFolder(cat, d, listing).Success?
    ensures var r := OrganizeFolder(cat, d, listing).value;
      && f !in r
      && cat(f) in r && r[cat(f)].Folder?
      && f in r[cat(f)].children && r[cat(f)].children[f] == d[f]
  {
    OrganizeMovesEachEntry(cat, d, listing);
  }

  /** The script and the folders stay where they are: the script untouched,
      a folder holding its old entries plus exactly those moved into it. */
  lemma OrganizeKeepsSkipped(cat: string -> string, d: Dir, listing: seq<string>)
    requires IsListing(d, listing)
    requires Organizable(cat, d)
    ensures OrganizeFolder(cat, d, listing).Success?
    ensures var r := OrganizeFolder(cat, d, listing).value;
      forall n :: n in d && Skipped(d, n) ==>
        && n in r
        && (d[n].File? ==> r[n] == d[n])
        && (d[n].Folder? ==> r[n] == Folder(d[n].children + Incoming(cat, d, n)))
  {
    OrganizeFollowsPlan(cat, d, listing);
    forall n | n in d && Skipped(d, n)
      ensures var L := Layout(cat, d, Moving(d, d.Keys));
        && n in L
        && (d[n].File? ==> L[n] == d[n])
        && (d[n].Folder? ==> L[n] == Folder(d[n].children + Incoming(cat, d, n)))
    {
      LayoutKeepsSkipped(cat, d, n);
    }
  }

  /** `OrganizeKeepsSkipped` for one entry, on the final layout. */
  lemma LayoutKeepsSkipped(cat: string -> string, d: Dir, n: string)
    requires Organizable(cat, d)
    requires n in d && Skipped(d, n)
    ensures var L := Layout(cat, d, Moving(d, d.Keys));
      && n in L
      && (d[n].File? ==> L[n] == d[n])
      && (d[n].Folder? ==> L[n] == Folder(d[n].children + Incoming(cat, d, n)))
  {
    var M := Moving(d, d.Keys);
    if d[n].File? {
      forall g | g in M
        ensures cat(g) != n
      {
        assert !Skipped(d, g);
      }
      assert n !in Targets(cat, d, M);
    } else if n !in Targets(cat, d, M) {
      assert Incoming(cat, d, n) == map[];
    }
  }

  /** Nothing else appears: every name at the top level after the run was a
      skipped entry before it or is the category of a moved entry, and a
      category folder that did not exist holds just the entries moved into
      it. */
  lemma OrganizeAddsOnlyCategories(cat: string -> string, d: Dir, listing: seq<string>)
    requires IsListing(d, listing)
    requires Organizable(cat, d)
    ensures OrganizeFolder(cat, d, listing).Success?
    ensures var r := OrganizeFolder(cat, d, listing).value;
      && (forall n :: n in r ==> (n in d && Skipped(d, n)) || exists f :: f in d && !Skipped(d, f) && cat(f) == n)
      && (forall n :: n in r && n !in d ==> r[n] == Folder(Incoming(cat, d, n)))
  {
    OrganizeFollowsPlan(cat, d, listing);
    var r := Layout(cat, d, Moving(d, d.Keys));
    forall n | n in r
      ensures (n in d && Skipped(d, n)) || exists f :: f in d && !Skipped(d, f) && cat(f) == n
      ensures n !in d ==> r[n] == Folder(Incoming(cat, d, n))
    {
      LayoutOrigin(cat, d, n);
    }
  }

  /** `OrganizeAddsOnlyCategories` for one name, on the final layout. */
  lemma LayoutOrigin(cat: string -> string, d: Dir, n: string)
    requires n in Layout(cat, d, Moving(d, d.Keys))
    ensures (n in d && Skipped(d, n)) || exists f :: f in d && !Skipped(d, f) && cat(f) == n
    ensures n !in d ==> Layout(cat, d, Moving(d, d.Keys))[n] == Folder(Incoming(cat, d, n))
  {
    var M := Moving(d, d.Keys);
    if n in Targets(cat, d, M) {
      var f :| f in M && f in d && cat(f) == n;
      assert f in d && !Skipped(d, f);
    }
    if n !in d {
      assert Contents(d, n) == map[];
    }
  }

  /** The order `os.listdir` happens to return does not matter. */
  lemma OrganizeOrderIrrelevant(cat: string -> string, d: Dir, listing1: seq<string>, listing2: seq<string>)
    requires IsListing(d, listing1) && IsListing(d, listing2)
    requires Organizable(cat, d)
    ensures OrganizeFolder(cat, d, listing1) == OrganizeFolder(cat, d, listing2)
  {
    OrganizeFollowsPlan(cat, d, listing1);
    OrganizeFollowsPlan(cat, d, listing2);
  }

  /** A listing of skipped entries only leaves the directory as it is. */
  lemma {:induction false} SkippedOnlyIsNoOp(cat: string -> string, d: Dir, listing: seq<string>)
    requires forall i :: 0 <= i < |listing| ==> Skipped(d, listing[i])
    ensures OrganizeFolder(cat, d, listing) == Success(d)
    decreases |listing|
  {
    if |listing| > 0 {
      OrganizeFolderStep(cat, d, listing);
      SkippedOnlyIsNoOp(cat, d, listing[1..]);
    }
  }

  /** A completed run over the rest of a listing that names every entry
      still to be moved leaves only the script and folders at the top
      level, whether or not the directory is organisable. */
  lemma {:induction false} RunLeavesOnlySkipped(cat: string -> string, d: Dir, rest: seq<string>)
    requires forall n :: n in d ==> Skipped(d, n) || n in rest
    requires OrganizeFolder(cat, d, rest).Success?
    ensures forall n :: n in OrganizeFolder(cat, d, rest).value ==> Skipped(OrganizeFolder(cat, d, rest).value, n)
    decreases |rest|
  {
    if |rest| > 0 {
      var f := rest[0];
      var d' := MoveEntry(cat, d, f).value;
      OrganizeFolderStep(cat, d, rest);
      forall n | n in d'
        ensures Skipped(d', n) || n in rest[1..]
      {
        if !Skipped(d', n) {
          assert n in d && n != f && !Skipped(d, n);
          assert n in rest;
        }
      }
      RunLeavesOnlySkipped(cat, d', rest[1..]);
    }
  }

  /** Running the organiser again after a completed run changes nothing:
      only the script and folders are left at the top level. */
  lemma OrganizeIdempotent(cat: string -> string, d: Dir, listing: seq<string>, relisting: seq<string>)
    requires IsListing(d, listing)
    requires OrganizeFolder(cat, d, listing).Success?
    requires IsListing(OrganizeFolder(cat, d, listing).value, relisting)
    ensures forall n :: n in OrganizeFolder(cat, d, listing).value ==> Skipped(OrganizeFolder(cat, d, listing).value, n)
    ensures OrganizeFolder(cat, OrganizeFolder(cat, d, listing).value, relisting)
         == OrganizeFolder(cat, d, listing)
  {
    RunLeavesOnlySkipped(cat, d, listing);
    var r := OrganizeFolder(cat, d, listing).value;
    forall i | 0 <= i < |relisting|
      ensures Skipped(r, relisting[i])
    {
      assert relisting[i] in r;
    }
    SkippedOnlyIsNoOp(cat, r, relisting);
  }

  /** The organisability condition is tight entry by entry: an entry whose
      category name is taken by a file, or whose category folder already
      holds its name, makes the run raise when it comes first. */
  lemma ClashRaises(cat: string -> string, d: Dir, listing: seq<string>)
    requires |listing| > 0
    requires var f := listing[0];
      && f in d && !Skipped(d, f) && cat(f) in d
      && (d[cat(f)].File? || f in d[cat(f)].children)
    ensures OrganizeFolder(cat, d, listing).Fail?
  {
  }
}
