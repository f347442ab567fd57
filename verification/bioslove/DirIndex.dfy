/** One model folder and everything below it, looked up by lower-cased path. File contents are
    abstracted to a map from the on-disk name to its text. */
module DirIndex {
  import opened Wrappers
  import opened Text

  datatype FileMeta = FileMeta(name: string, size: nat)

  datatype Dir = Dir(
    files: map<string, FileMeta>,
    dirs: map<string, string>,
    texts: map<string, string>)

  // ----- Paths -----

  /** Directory part of a relative path; the root is the empty path. */
  function Parent(path: string): (r: string)
    ensures |r| < |path| || path == r == ""
  {
    match RFind(path, '/')
    case None => ""
    case Some(i) => path[..i]
  }

  /** `path` and every directory above it, nearest first, the root last. */
  function Ancestors(path: string): (r: seq<string>)
    ensures r != []
    decreases |path|
  {
    if path == "" then [""] else [path] + Ancestors(Parent(path))
  }

  function Under(base: string, name: string): string {
    if base == "" then name else base + "/" + name
  }

  function NormalName(name: string): string {
    Lower(TrimStart(ReplaceChar(name, '\\', '/'), c => c == '/'))
  }

  /** The lookup key for `name` in each directory from `cwd` up to the root. */
  function KeysFrom(cwd: string, name: string): seq<string> {
    KeysOf(cwd, NormalName(name))
  }

  function KeysOf(cwd: string, key: string): seq<string>
    decreases |cwd|
  {
    if cwd == "" then [key] else [Lower(cwd) + "/" + key] + KeysOf(Parent(cwd), key)
  }

  /** Each key is the name under the matching directory. */
  ghost predicate KeysUnder(keys: seq<string>, dirs: seq<string>, key: string) {
    |keys| == |dirs| && forall i :: 0 <= i < |dirs| ==> keys[i] == Under(Lower(dirs[i]), key)
  }

  lemma {:induction false} OneMoreKey(keys: seq<string>, dirs: seq<string>, key: string, first: string, dir: string)
    requires KeysUnder(keys, dirs, key) && first == Under(Lower(dir), key)
    ensures KeysUnder([first] + keys, [dir] + dirs, key)
  {
  }

  lemma {:induction false} KeysFollowAncestors(cwd: string, key: string)
    ensures KeysUnder(KeysOf(cwd, key), Ancestors(cwd), key)
    decreases |cwd|
  {
    if cwd != "" {
      KeysFollowAncestors(Parent(cwd), key);
      OneMoreKey(KeysOf(Parent(cwd), key), Ancestors(Parent(cwd)), key, Lower(cwd) + "/" + key, cwd);
    }
  }

  /** The source's loop over a shrinking base path. */
  method CollectKeys(cwd: string, name: string) returns (out: seq<string>)
    ensures out == KeysFrom(cwd, name)
  {
    var key := Lower(TrimStart(ReplaceChar(name, '\\', '/'), c => c == '/'));
    out := [];
    var base := cwd;
    while base != ""
      invariant out + KeysOf(base, key) == KeysOf(cwd, key)
      decreases |base|
    {
      ghost var rest := KeysOf(Parent(base), key);
      assert out + ([Lower(base) + "/" + key] + rest) == (out + [Lower(base) + "/" + key]) + rest;
      out := out + [Lower(base) + "/" + key];
      base := Parent(base);
    }
    out := out + [key];
  }

  // ----- Lookup -----

  function FirstHit<V>(keys: seq<string>, m: map<string, V>): Option<V> {
    if keys == [] then None
    else if keys[0] in m then Some(m[keys[0]])
    else FirstHit(keys[1..], m)
  }

  /** `i` is the first of `keys` that `m` has. */
  ghost predicate FirstIndex<V>(keys: seq<string>, m: map<string, V>, i: nat) {
    i < |keys| && keys[i] in m && forall j :: 0 <= j < i ==> keys[j] !in m
  }

  lemma {:induction false} FirstHitIs<V>(keys: seq<string>, m: map<string, V>)
    ensures FirstHit(keys, m).None? ==> forall i :: 0 <= i < |keys| ==> keys[i] !in m
    ensures FirstHit(keys, m).Some? ==>
      exists i: nat :: FirstIndex(keys, m, i) && FirstHit(keys, m).value == m[keys[i]]
  {
    if keys != [] {
      if keys[0] in m {
        assert FirstIndex(keys, m, 0);
      } else {
        FirstHitIs(keys[1..], m);
        if FirstHit(keys, m).Some? {
          var i: nat :| FirstIndex(keys[1..], m, i) && FirstHit(keys[1..], m).value == m[keys[1..][i]];
          assert FirstIndex(keys, m, i + 1);
        }
      }
    }
  }

  function GetIn(d: Dir, cwd: string, name: string): Option<FileMeta> {
    FirstHit(KeysFrom(cwd, name), d.files)
  }

  function Get(d: Dir, name: string): Option<FileMeta> { GetIn(d, "", name) }

  function SubdirIn(d: Dir, cwd: string, name: string): Option<string> {
    FirstHit(KeysFrom(cwd, name), d.dirs)
  }

  function ExtensionOrder(preferEfi: bool): seq<string> {
    if preferEfi then [".efi", ".exe", ".com"] else [".exe", ".com", ".efi"]
  }

  function FirstExtension(d: Dir, cwd: string, name: string, exts: seq<string>): Option<FileMeta> {
    if exts == [] then None
    else
      var r := GetIn(d, cwd, name + exts[0]);
      if r.Some? then r else FirstExtension(d, cwd, name, exts[1..])
  }

  function ResolveExecIn(d: Dir, cwd: string, name: string, preferEfi: bool): Option<FileMeta> {
    var direct := GetIn(d, cwd, name);
    if direct.Some? then direct
    else if '.' in name then None
    else FirstExtension(d, cwd, name, ExtensionOrder(preferEfi))
  }

  function ReadText(d: Dir, name: string): Option<string> {
    match Get(d, name)
    case None => None
    case Some(meta) => if meta.name in d.texts then Some(d.texts[meta.name]) else None
  }

  /** Lower-cased names of every indexed file. */
  function Names(d: Dir): set<string> {
    set k | k in d.files :: Lower(d.files[k].name)
  }

  /** The directory `i` steps above `cwd` holds `name`. */
  ghost predicate HoldsAt(d: Dir, cwd: string, name: string, i: nat) {
    i < |Ancestors(cwd)| && Under(Lower(Ancestors(cwd)[i]), NormalName(name)) in d.files
  }

  /** `i` is the fewest steps up from `cwd` to a directory that holds `name`. */
  ghost predicate NearestAt(d: Dir, cwd: string, name: string, i: nat) {
    HoldsAt(d, cwd, name, i) && forall j :: 0 <= j < i ==> !HoldsAt(d, cwd, name, j)
  }

  /** A lookup returns the file from the nearest directory, from the working directory up to
      the root, that has it, and fails exactly when none has it. */
  lemma NearestDirectoryWins(d: Dir, cwd: string, name: string)
    ensures GetIn(d, cwd, name).None? <==> forall i :: 0 <= i < |Ancestors(cwd)| ==> !HoldsAt(d, cwd, name, i)
    ensures forall i: nat :: NearestAt(d, cwd, name, i) ==>
      GetIn(d, cwd, name) == Some(d.files[Under(Lower(Ancestors(cwd)[i]), NormalName(name))])
  {
    var keys := KeysFrom(cwd, name);
    KeysFollowAncestors(cwd, NormalName(name));
    FirstHitIs(keys, d.files);
    if GetIn(d, cwd, name).Some? {
      var k: nat :| FirstIndex(keys, d.files, k) && GetIn(d, cwd, name).value == d.files[keys[k]];
      assert HoldsAt(d, cwd, name, k);
      forall i: nat | NearestAt(d, cwd, name, i) ensures i == k {
        if k < i {
          assert false;
        } else if i < k {
          assert false;
        }
      }
    } else {
      forall i | 0 <= i < |Ancestors(cwd)| ensures !HoldsAt(d, cwd, name, i) {
        assert keys[i] !in d.files;
      }
    }
  }

  lemma GetInIsIndexed(d: Dir, cwd: string, name: string)
    ensures GetIn(d, cwd, name).Some? ==>
      GetIn(d, cwd, name).value in d.files.Values && Lower(GetIn(d, cwd, name).value.name) in Names(d)
  {
    FirstHitIs(KeysFrom(cwd, name), d.files);
  }

  // ----- Indexing a directory tree -----

  /** A directory as the file system lists it. */
  datatype Node =
    | File(name: string, size: nat)
    | Folder(name: string, entries: seq<Node>)

  const MAX_DEPTH := 2

  predicate PlainName(name: string) { name != "" && '/' !in name }

  predicate PlainNames(entries: seq<Node>) {
    forall e :: e in entries ==> PlainName(e.name) && (e.Folder? ==> PlainNames(e.entries))
  }

  datatype Tables = Tables(files: map<string, FileMeta>, dirs: map<string, string>)

  /** The root or an indexed directory, in lower case. */
  predicate KnownDir(dirs: map<string, string>, path: string) { path == "" || path in dirs }

  /** Every indexed directory's parent is the root or indexed, and every key is the lower-cased
      spelling it stands for. */
  ghost predicate DirsClosed(dirs: map<string, string>) {
    forall k :: k in dirs ==> Lower(dirs[k]) == k && k != "" && KnownDir(dirs, Parent(k))
  }

  ghost predicate FilesKeyed(files: map<string, FileMeta>) {
    forall k :: k in files ==> Lower(files[k].name) == k
  }

  ghost predicate Consistent(t: Tables) { FilesKeyed(t.files) && DirsClosed(t.dirs) }

  function AddFiles(files: map<string, FileMeta>, entries: seq<Node>, rel: string): map<string, FileMeta>
    decreases |entries|
  {
    if entries == [] then files
    else if entries[0].File? then
      var path := Under(rel, entries[0].name);
      AddFiles(files[Lower(path) := FileMeta(path, entries[0].size)], entries[1..], rel)
    else AddFiles(files, entries[1..], rel)
  }

  function AddDirs(dirs: map<string, string>, entries: seq<Node>, rel: string): map<string, string>
    decreases |entries|
  {
    if entries == [] then dirs
    else if entries[0].Folder? then
      var path := Under(rel, entries[0].name);
      AddDirs(dirs[Lower(path) := path], entries[1..], rel)
    else AddDirs(dirs, entries[1..], rel)
  }

  /** The tables after indexing the listing `entries` of directory `rel`. */
  function Absorbed(t: Tables, entries: seq<Node>, rel: string, depth: nat): Tables
    decreases entries, 1
  {
    if depth < MAX_DEPTH then
      Descended(Tables(AddFiles(t.files, entries, rel), AddDirs(t.dirs, entries, rel)), entries, rel, depth)
    else Tables(AddFiles(t.files, entries, rel), t.dirs)
  }

  function Descended(t: Tables, entries: seq<Node>, rel: string, depth: nat): Tables
    decreases entries, 0
  {
    if entries == [] then t
    else if entries[0].Folder? then
      var sub := entries[0];
      Descended(Absorbed(t, sub.entries, Under(rel, sub.name), depth + 1), entries[1..], rel, depth)
    else Descended(t, entries[1..], rel, depth)
  }

  function Folders(entries: seq<Node>): seq<Node> {
    if entries == [] then []
    else (if entries[0].Folder? then [entries[0]] else []) + Folders(entries[1..])
  }

  lemma FoldersSnoc(entries: seq<Node>, e: Node)
    ensures Folders(entries + [e]) == Folders(entries) + if e.Folder? then [e] else []
  {
    if entries != [] {
      assert (entries + [e])[1..] == entries[1..] + [e];
    }
  }

  lemma {:induction false} DescendSkipsFiles(t: Tables, entries: seq<Node>, rel: string, depth: nat)
    ensures Descended(t, Folders(entries), rel, depth) == Descended(t, entries, rel, depth)
    decreases |entries|
  {
    if entries != [] {
      var e := entries[0];
      if e.Folder? {
        assert Folders(entries)[1..] == Folders(entries[1..]);
        DescendSkipsFiles(Absorbed(t, e.entries, Under(rel, e.name), depth + 1), entries[1..], rel, depth);
      } else {
        assert Folders(entries) == Folders(entries[1..]);
        DescendSkipsFiles(t, entries[1..], rel, depth);
      }
    }
  }

  class Indexer {
    var files: map<string, FileMeta>
    var dirs: map<string, string>

    constructor ()
      ensures files == map[] && dirs == map[]
    {
      files, dirs := map[], map[];
    }

    function State(): Tables
      reads this
    {
      Tables(files, dirs)
    }

    /** Enter the files of one listing and, while the depth allows, the names of its
        subdirectories. */
    method EnterListing(entries: seq<Node>, rel: string, descends: bool) returns (subdirs: seq<Node>)
      modifies this
      ensures files == AddFiles(old(files), entries, rel)
      ensures dirs == if descends then AddDirs(old(dirs), entries, rel) else old(dirs)
      ensures subdirs == if descends then Folders(entries) else []
    {
      subdirs := [];
      for i := 0 to |entries|
        invariant AddFiles(files, entries[i..], rel) == AddFiles(old(files), entries, rel)
        invariant descends ==> AddDirs(dirs, entries[i..], rel) == AddDirs(old(dirs), entries, rel)
        invariant !descends ==> dirs == old(dirs)
        invariant subdirs == if descends then Folders(entries[..i]) else []
      {
        var entry := entries[i];
        assert entries[i..][0] == entry && entries[i..][1..] == entries[i + 1..];
        assert entries[..i + 1] == entries[..i] + [entry];
        FoldersSnoc(entries[..i], entry);
        var path := Under(rel, entry.name);
        if entry.File? {
          files := files[Lower(path) := FileMeta(path, entry.size)];
        } else if descends {
          dirs := dirs[Lower(path) := path];
          subdirs := subdirs + [entry];
        }
      }
      assert entries[..|entries|] == entries;
    }

    /** Index one listing: its files, then, while the depth allows, its subdirectories. */
    method Absorb(entries: seq<Node>, rel: string, depth: nat)
      modifies this
      ensures State() == Absorbed(old(State()), entries, rel, depth)
      decreases entries, 1
    {
      var subdirs := EnterListing(entries, rel, depth < MAX_DEPTH);
      ListingIsEntered(old(State()), State(), entries, rel, depth, subdirs);
      FoldersAreEntries(entries);
      AbsorbAll(entries, subdirs, rel, depth);
    }

    method AbsorbAll(ghost entries: seq<Node>, subdirs: seq<Node>, rel: string, depth: nat)
      requires forall sub :: sub in subdirs ==> sub in entries && sub.Folder?
      modifies this
      ensures State() == Descended(old(State()), subdirs, rel, depth)
      decreases entries, 0
    {
      ghost var goal := Descended(State(), subdirs, rel, depth);
      assert subdirs[0..] == subdirs;
      for j := 0 to |subdirs|
        invariant Descended(State(), subdirs[j..], rel, depth) == goal
      {
        var sub := subdirs[j];
        DescendOnce(State(), subdirs, j, rel, depth);
        Absorb(sub.entries, Under(rel, sub.name), depth + 1);
      }
      assert subdirs[|subdirs|..] == [];
    }
  }

  /** After a listing is entered, descending into its subdirectories is all that is left to do. */
  lemma {:induction false} ListingIsEntered(
    before: Tables, listed: Tables, entries: seq<Node>, rel: string, depth: nat, subdirs: seq<Node>)
    requires listed.files == AddFiles(before.files, entries, rel)
    requires listed.dirs == if depth < MAX_DEPTH then AddDirs(before.dirs, entries, rel) else before.dirs
    requires subdirs == if depth < MAX_DEPTH then Folders(entries) else []
    ensures Descended(listed, subdirs, rel, depth) == Absorbed(before, entries, rel, depth)
  {
    if depth < MAX_DEPTH {
      DescendSkipsFiles(listed, entries, rel, depth);
    }
  }

  lemma DescendOnce(t: Tables, subdirs: seq<Node>, j: nat, rel: string, depth: nat)
    requires j < |subdirs| && subdirs[j].Folder?
    ensures var sub := subdirs[j];
      Descended(t, subdirs[j..], rel, depth)
        == Descended(Absorbed(t, sub.entries, Under(rel, sub.name), depth + 1), subdirs[j + 1..], rel, depth)
  {
    assert subdirs[j..][0] == subdirs[j] && subdirs[j..][1..] == subdirs[j + 1..];
  }

  lemma {:induction false} FoldersAreEntries(entries: seq<Node>)
    ensures forall sub :: sub in Folders(entries) ==> sub in entries && sub.Folder?
    decreases |entries|
  {
    if entries != [] {
      FoldersAreEntries(entries[1..]);
    }
  }

  // ----- What indexing establishes -----

  lemma ParentOfUnder(base: string, name: string)
    requires PlainName(name)
    ensures Parent(Under(base, name)) == base
  {
    if base != "" {
      var p := Under(base, name);
      assert p[|base|] == '/' && p[|base| + 1..] == name;
      assert forall k :: |base| < k < |p| ==> p[k] == name[k - |base| - 1];
      RFindIs(p, '/', |base|);
      assert p[..|base|] == base;
    } else {
      RFindFacts(name, '/');
    }
  }

  lemma LowerParent(s: string)
    ensures Lower(Parent(s)) == Parent(Lower(s))
  {
    forall i | 0 <= i < |s| ensures Lower(s)[i] == '/' <==> s[i] == '/' {
      LowerAt(s, i);
    }
    RFindFacts(s, '/');
    RFindFacts(Lower(s), '/');
    match RFind(s, '/')
    case None =>
    case Some(i) =>
      LowerSlice(s, i);
      RFindIs(Lower(s), '/', i);
  }

  lemma {:induction false} AddFilesKeepsKeys(files: map<string, FileMeta>, entries: seq<Node>, rel: string)
    requires FilesKeyed(files)
    ensures FilesKeyed(AddFiles(files, entries, rel))
    decreases |entries|
  {
    if entries != [] {
      var path := Under(rel, entries[0].name);
      var next := if entries[0].File? then files[Lower(path) := FileMeta(path, entries[0].size)] else files;
      AddFilesKeepsKeys(next, entries[1..], rel);
    }
  }

  lemma {:induction false} AddDirsStaysClosed(dirs: map<string, string>, entries: seq<Node>, rel: string)
    requires DirsClosed(dirs) && PlainNames(entries) && KnownDir(dirs, Lower(rel))
    ensures DirsClosed(AddDirs(dirs, entries, rel)) && dirs.Keys <= AddDirs(dirs, entries, rel).Keys
    ensures forall e :: e in entries && e.Folder? ==> Lower(Under(rel, e.name)) in AddDirs(dirs, entries, rel)
    decreases |entries|
  {
    if entries != [] {
      assert forall e :: e in entries[1..] ==> e in entries;
      if entries[0].Folder? {
        var path := Under(rel, entries[0].name);
        ParentOfUnder(rel, entries[0].name);
        LowerParent(path);
        AddDirsStaysClosed(dirs[Lower(path) := path], entries[1..], rel);
      } else {
        AddDirsStaysClosed(dirs, entries[1..], rel);
      }
      forall e | e in entries && e.Folder?
        ensures Lower(Under(rel, e.name)) in AddDirs(dirs, entries, rel)
      {
        assert e == entries[0] || e in entries[1..];
      }
    }
  }

  /** Indexing any directory tree keeps the directory table closed under parents and every
      table key the lower-cased spelling of what it names. */
  lemma {:induction false} AbsorbedIsConsistent(t: Tables, entries: seq<Node>, rel: string, depth: nat)
    requires Consistent(t) && PlainNames(entries) && KnownDir(t.dirs, Lower(rel))
    ensures Consistent(Absorbed(t, entries, rel, depth))
    ensures t.dirs.Keys <= Absorbed(t, entries, rel, depth).dirs.Keys
    decreases entries, 1
  {
    AddFilesKeepsKeys(t.files, entries, rel);
    if depth < MAX_DEPTH {
      AddDirsStaysClosed(t.dirs, entries, rel);
      var t' := Tables(AddFiles(t.files, entries, rel), AddDirs(t.dirs, entries, rel));
      DescendedIsConsistent(t', entries, rel, depth);
    }
  }

  lemma {:induction false} DescendedIsConsistent(t: Tables, entries: seq<Node>, rel: string, depth: nat)
    requires Consistent(t) && PlainNames(entries)
    requires forall e :: e in entries && e.Folder? ==> Lower(Under(rel, e.name)) in t.dirs
    ensures Consistent(Descended(t, entries, rel, depth))
    ensures t.dirs.Keys <= Descended(t, entries, rel, depth).dirs.Keys
    decreases entries, 0
  {
    if entries != [] {
      var e := entries[0];
      assert e in entries && forall x :: x in entries[1..] ==> x in entries;
      if e.Folder? {
        AbsorbedIsConsistent(t, e.entries, Under(rel, e.name), depth + 1);
        DescendedIsConsistent(Absorbed(t, e.entries, Under(rel, e.name), depth + 1), entries[1..], rel, depth);
      } else {
        DescendedIsConsistent(t, entries[1..], rel, depth);
      }
    }
  }
}
