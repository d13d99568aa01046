/** Extension splitting as Python's `os.path.splitext` performs it on a bare
    entry name (a name returned by `os.listdir`, which never holds a path
    separator). Leading dots belong to the name, never to the extension, so
    `.env` has no extension, `a.tar.gz` has `.gz` and `a.` has `.`. */
module PathExt {

  const ExtSep: char := '.'

  /** Python's `str.rfind` for one character: the index of the last `c` in
      `s`, or -1 when there is none. */
  function RFind(s: string, c: char): (r: int)
    ensures -1 <= r < |s|
    ensures 0 <= r ==> s[r] == c
    ensures forall k :: r < k < |s| ==> s[k] != c
    decreases |s|
  {
    if |s| == 0 then -1
    else if s[|s| - 1] == c then |s| - 1
    else RFind(s[..|s| - 1], c)
  }

  predicate AllDots(s: string) {
    forall k :: 0 <= k < |s| ==> s[k] == ExtSep
  }

  /** Some dot of `name` has a character other than a dot before it. */
  ghost predicate HasExtension(name: string) {
    exists i, j :: 0 <= j < i < |name| && name[i] == ExtSep && name[j] != ExtSep
  }

  /** `root` and `ext` are the split of `name`: they concatenate back to it;
      the extension is present exactly when some dot follows a non-dot; and
      a present extension is one dot followed by dot-free text. */
  ghost predicate IsSplit(name: string, root: string, ext: string) {
    && root + ext == name
    && (ext == [] <==> !HasExtension(name))
    && (ext != [] ==> ext[0] == ExtSep && ExtSep !in ext[1..])
  }

  /** `os.path.splitext(name)`: find the last dot; it separates an
      extension unless only dots come before it. */
  function SplitExt(name: string): (r: (string, string))
    ensures IsSplit(name, r.0, r.1)
  {
    var dot := RFind(name, ExtSep);
    if 0 <= dot && !AllDots(name[..dot]) then
      var j :| 0 <= j < dot && name[j] != ExtSep;
      assert name[..dot] + name[dot..] == name;
      assert HasExtension(name) by {
        assert 0 <= j < dot < |name| && name[dot] == ExtSep && name[j] != ExtSep;
      }
      (name[..dot], name[dot..])
    else
      assert !HasExtension(name) by {
        forall i, j | 0 <= j < i < |name| && name[i] == ExtSep
          ensures name[j] == ExtSep
        {
          assert i <= dot;
          assert name[..dot][j] == name[j];
        }
      }
      (name, [])
  }

  /** The extension part of `name`, possibly empty. */
  function Ext(name: string): string {
    SplitExt(name).1
  }

  /** A present extension starts at the last dot of the name. */
  lemma ExtStartsAtLastDot(name: string, root: string, ext: string)
    requires IsSplit(name, root, ext)
    requires ext != []
    ensures |root| == RFind(name, ExtSep)
  {
    assert name[|root|] == ext[0];
    forall k | |root| < k < |name|
      ensures name[k] != ExtSep
    {
      assert name[k] == ext[1..][k - |root| - 1];
    }
  }

  /** The split of a name is unique: `IsSplit` is a complete specification
      of `os.path.splitext` on a bare name. */
  lemma SplitUnique(name: string, root1: string, ext1: string, root2: string, ext2: string)
    requires IsSplit(name, root1, ext1)
    requires IsSplit(name, root2, ext2)
    ensures root1 == root2 && ext1 == ext2
  {
    if ext1 != [] {
      ExtStartsAtLastDot(name, root1, ext1);
      ExtStartsAtLastDot(name, root2, ext2);
      assert ext1 == name[|root1|..] == ext2;
    }
    assert root1 == name[..|root1|] == name[..|root2|] == root2;
  }
}
