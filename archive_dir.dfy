/** Choosing the run directory: `<cwd>\<date>` when that name is free,
    otherwise `<cwd>\<date>__<n>` for the first free n counting from 1. */
module ArchiveDir {
  import opened Files
  import opened Decimal

  /** The candidate directory with collision number `n`. */
  function Suffixed(cwd: Path, today: string, n: nat): Path
  {
    Join(cwd, today + "__" + Dec(n))
  }

  /** A candidate is the current directory, a separator, the date, then `__` and the number. */
  lemma SuffixedShape(cwd: Path, today: string, n: nat)
    ensures var p := Suffixed(cwd, today, n);
      && |p| == |cwd| + 1 + |today| + 2 + |Dec(n)|
      && p[..|cwd| + 1 + |today|] == cwd + [Sep] + today
      && p[|cwd| + 1 + |today|..] == "__" + Dec(n)
  {
  }

  /** Distinct collision numbers name distinct directories. */
  lemma SuffixedDistinct(cwd: Path, today: string, a: nat, b: nat)
    requires a != b
    ensures Suffixed(cwd, today, a) != Suffixed(cwd, today, b)
  {
    var k := |cwd| + 1 + |today| + 2;
    assert Suffixed(cwd, today, a)[k..] == Dec(a);
    assert Suffixed(cwd, today, b)[k..] == Dec(b);
    DecDistinct(a, b);
  }

  /** `dir` is the directory the search settles on when the names in `taken`
      already exist: the plain date when it is free, otherwise the suffixed
      name with the smallest free collision number. */
  ghost predicate FirstFree(cwd: Path, today: string, taken: set<Path>, dir: Path)
  {
    && dir !in taken
    && (Join(cwd, today) !in taken ==> dir == Join(cwd, today))
    && (Join(cwd, today) in taken ==>
          exists n: nat :: 1 <= n && dir == Suffixed(cwd, today, n) &&
            forall m :: 1 <= m < n ==> Suffixed(cwd, today, m) in taken)
  }

  /** The search has one answer: whatever is taken, at most one name is the first free one. */
  lemma FirstFreeUnique(cwd: Path, today: string, taken: set<Path>, d1: Path, d2: Path)
    requires FirstFree(cwd, today, taken, d1) && FirstFree(cwd, today, taken, d2)
    ensures d1 == d2
  {
    if Join(cwd, today) in taken {
      var n1: nat :| 1 <= n1 && d1 == Suffixed(cwd, today, n1) &&
        forall m :: 1 <= m < n1 ==> Suffixed(cwd, today, m) in taken;
      var n2: nat :| 1 <= n2 && d2 == Suffixed(cwd, today, n2) &&
        forall m :: 1 <= m < n2 ==> Suffixed(cwd, today, m) in taken;
      assert n1 < n2 ==> Suffixed(cwd, today, n1) in taken;
      assert n2 < n1 ==> Suffixed(cwd, today, n2) in taken;
    }
  }

  /** The suffixed names the search has found taken before trying number `n`. */
  function Tried(cwd: Path, today: string, n: nat): set<Path>
    decreases n
  {
    if n <= 1 then {} else Tried(cwd, today, n - 1) + {Suffixed(cwd, today, n - 1)}
  }

  /** A number not yet tried has a name outside the tried set. */
  lemma {:induction false} NotTried(cwd: Path, today: string, n: nat, k: nat)
    requires k >= n
    ensures Suffixed(cwd, today, k) !in Tried(cwd, today, n)
    decreases n
  {
    if n > 1 {
      SuffixedDistinct(cwd, today, k, n - 1);
      NotTried(cwd, today, n - 1, k);
    }
  }

  /** Before trying number `n` the search has tried n - 1 distinct names. */
  lemma {:induction false} TriedSize(cwd: Path, today: string, n: nat)
    requires n >= 1
    ensures |Tried(cwd, today, n)| == n - 1
    decreases n
  {
    if n > 1 {
      TriedSize(cwd, today, n - 1);
      NotTried(cwd, today, n - 1, n - 1);
    }
  }

  /** Every number below `n` has been tried. */
  lemma {:induction false} InTried(cwd: Path, today: string, n: nat, m: nat)
    requires 1 <= m < n
    ensures Suffixed(cwd, today, m) in Tried(cwd, today, n)
    decreases n
  {
    if m < n - 1 {
      InTried(cwd, today, n - 1, m);
    }
  }

  lemma SubsetSize(a: set<Path>, b: set<Path>)
    requires a <= b
    ensures |a| <= |b|
  {
    assert b == a + (b - a);
  }

  /** The run directory has no separator in the part after `cwd`, so it lies directly in `cwd`. */
  lemma SuffixedInCwd(cwd: Path, today: string, n: nat)
    requires Sep !in today
    ensures Parent(Suffixed(cwd, today, n)) == cwd
  {
    var name := today + "__" + Dec(n);
    assert forall i :: 0 <= i < |name| ==> name[i] != Sep by {
      forall i | 0 <= i < |name|
        ensures name[i] != Sep
      {
        if i >= |today| + 2 {
          assert name[i] == Dec(n)[i - |today| - 2];
        }
      }
    }
    ParentOfJoin(cwd, name);
  }

  /** Creates the run directory: tries `<cwd>\<today>`, then `<cwd>\<today>__1`,
      `<cwd>\<today>__2`, ... and makes the first one that does not exist. */
  method MakeArchiveDir(fs: FileSystem, cwd: Path, today: string) returns (dir: Path)
    requires fs.Valid()
    requires cwd in fs.dirs && Sep !in today
    modifies fs
    ensures fs.Valid()
    ensures FirstFree(cwd, today, old(fs.dirs) + old(fs.files).Keys, dir)
    ensures fs.dirs == old(fs.dirs) + {dir} && fs.files == old(fs.files)
    ensures Parent(dir) == cwd
  {
    ghost var taken := fs.dirs + fs.files.Keys;
    dir := Join(cwd, today);
    var found := fs.Exists(dir);
    if !found {
      ParentOfJoin(cwd, today);
      fs.MakeDir(dir);
      return;
    }
    var n: nat := 1;
    while true
      invariant fs.Valid() && fs.dirs + fs.files.Keys == taken
      invariant fs.dirs == old(fs.dirs) && fs.files == old(fs.files)
      invariant 1 <= n
      invariant Tried(cwd, today, n) <= taken
      decreases |taken| - (n - 1)
    {
      TriedSize(cwd, today, n);
      dir := Suffixed(cwd, today, n);
      found := fs.Exists(dir);
      if !found {
        SuffixedInCwd(cwd, today, n);
        forall m | 1 <= m < n
          ensures Suffixed(cwd, today, m) in taken
        {
          InTried(cwd, today, n, m);
        }
        fs.MakeDir(dir);
        break;
      }
      assert dir in taken;
      NotTried(cwd, today, n, n);
      assert Tried(cwd, today, n + 1) == Tried(cwd, today, n) + {dir};
      TriedSize(cwd, today, n + 1);
      SubsetSize(Tried(cwd, today, n + 1), taken);
      n := n + 1;
    }
  }
}
