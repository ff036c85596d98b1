/** The archive filesystem the script writes to: Windows-style paths, a set of
    existing directories and a map from file path to content. The operating
    system calls the script makes (`os.path.exists`, `os.mkdir`, `os.remove`,
    `open(..., "wb")` and `open(..., "a+")`) are the methods of `FileSystem`. */
module Files {

  /** The path separator the script joins paths with. */
  const Sep: char := '\\'

  type Path = string

  newtype byte = b: int | 0 <= b < 256

  /** What a file holds: the downloaded archive bytes, or the text of the log. */
  datatype Data = Binary(bytes: seq<byte>) | Text(text: string)

  /** `os.path.join(dir, name)` on Windows, for a `dir` that does not end in a separator. */
  function Join(dir: Path, name: string): Path
  {
    dir + [Sep] + name
  }

  /** The directory part of a path: everything before its last separator. */
  function Parent(p: Path): Path
    decreases |p|
  {
    if |p| == 0 then []
    else if p[|p| - 1] == Sep then p[..|p| - 1]
    else Parent(p[..|p| - 1])
  }

  /** The directory a joined path lies in is the directory it was joined to. */
  lemma {:induction false} ParentOfJoin(dir: Path, name: string)
    requires Sep !in name
    ensures Parent(Join(dir, name)) == dir
    decreases |name|
  {
    if name != [] {
      var short := name[..|name| - 1];
      assert Join(dir, name)[..|Join(dir, name)| - 1] == Join(dir, short);
      assert Join(dir, name)[|Join(dir, name)| - 1] == name[|name| - 1];
      ParentOfJoin(dir, short);
    } else {
      assert Join(dir, name)[..|Join(dir, name)| - 1] == dir;
    }
  }

  /** The content of `files` after appending `s` to the text file at `p`
      (creating it when absent), as a write to a file opened with "a+" does. */
  function Appended(files: map<Path, Data>, p: Path, s: string): (r: map<Path, Data>)
    requires p in files ==> files[p].Text?
    ensures p in r && r[p].Text?
    ensures r[p].text == (if p in files then files[p].text + s else s)
    ensures forall q :: q != p ==> (q in r <==> q in files)
    ensures forall q :: q != p && q in files ==> r[q] == files[q]
  {
    files[p := Text((if p in files then files[p].text else "") + s)]
  }

  class FileSystem {
    var dirs: set<Path>
    var files: map<Path, Data>

    /** Every file lies in an existing directory and is not itself a directory;
        every directory below a separator lies in an existing directory. */
    ghost predicate Valid()
      reads this
    {
      && (forall d :: d in dirs && Sep in d ==> Parent(d) in dirs)
      && (forall p :: p in files ==> Parent(p) in dirs && p !in dirs)
    }

    constructor (dirs: set<Path>, files: map<Path, Data>)
      ensures this.dirs == dirs && this.files == files
    {
      this.dirs := dirs;
      this.files := files;
    }

    /** `os.path.exists(p)`: true for a directory and for a file. */
    method Exists(p: Path) returns (b: bool)
      ensures b <==> p in dirs || p in files
    {
      b := p in dirs || p in files;
    }

    /** `os.mkdir(p)`, which the script calls only on a path that does not
        exist, inside a directory that does. */
    method MakeDir(p: Path)
      requires Valid()
      requires p !in dirs && p !in files
      requires Sep in p ==> Parent(p) in dirs
      modifies this
      ensures Valid()
      ensures dirs == old(dirs) + {p} && files == old(files)
    {
      dirs := dirs + {p};
    }

    /** `os.remove(p)`: succeeds on a file, raises on a directory or a missing path. */
    method Remove(p: Path) returns (ok: bool)
      requires Valid()
      modifies this
      ensures Valid()
      ensures ok <==> p in old(files)
      ensures dirs == old(dirs) && files == old(files) - {p}
    {
      ok := p in files;
      files := files - {p};
    }

    /** `open(p, "wb").write(bytes)`: raises when `p` is a directory or its
        directory does not exist; otherwise `p` holds exactly `bytes`. */
    method WriteBytes(p: Path, bytes: seq<byte>) returns (ok: bool)
      requires Valid()
      modifies this
      ensures Valid()
      ensures ok <==> Parent(p) in dirs && p !in dirs
      ensures dirs == old(dirs)
      ensures files == if ok then old(files)[p := Binary(bytes)] else old(files)
    {
      ok := Parent(p) in dirs && p !in dirs;
      if ok {
        files := files[p := Binary(bytes)];
      }
    }

    /** `open(p, "a+").write(s)` on a path that holds no binary data: raises
        when `p` is a directory or its directory does not exist; otherwise
        appends `s`, creating the file when absent. */
    method AppendText(p: Path, s: string) returns (ok: bool)
      requires Valid()
      requires p in files ==> files[p].Text?
      modifies this
      ensures Valid()
      ensures ok <==> Parent(p) in dirs && p !in dirs
      ensures dirs == old(dirs)
      ensures files == if ok then Appended(old(files), p, s) else old(files)
    {
      ok := Parent(p) in dirs && p !in dirs;
      if ok {
        files := Appended(files, p, s);
      }
    }
  }
}
