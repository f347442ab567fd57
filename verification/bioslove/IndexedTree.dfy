/** What an indexed folder holds: exactly the files and folders that can be reached in it. */
module IndexedTree {
  import opened Text
  import opened DirIndex

  // ----- Reaching files and folders -----

  /** The listing has this file behind the folders `way`, one below the other. */
  ghost predicate FileAt(entries: seq<Node>, way: seq<string>, name: string, size: nat)
    decreases |way|
  {
    if way == [] then File(name, size) in entries
    else exists e :: e in entries && IsFolder(e, way[0]) && FileAt(e.entries, way[1..], name, size)
  }

  predicate IsFolder(e: Node, name: string) { e.Folder? && e.name == name }

  /** The listing has the last folder of `way` behind the others. */
  ghost predicate FolderAt(entries: seq<Node>, way: seq<string>)
    decreases |way|
  {
    way != [] && exists e :: e in entries && IsFolder(e, way[0]) && (|way| == 1 || FolderAt(e.entries, way[1..]))
  }

  /** The path of the last of the folders `way`, below `rel`. */
  function PathOf(rel: string, way: seq<string>): string
    decreases |way|
  {
    if way == [] then rel else PathOf(Under(rel, way[0]), way[1..])
  }

  /** `m` is a file at most `2 - depth` folders down, under its whole path. */
  ghost predicate Reaches(entries: seq<Node>, rel: string, depth: nat, m: FileMeta) {
    exists way: seq<string>, name: string :: ReachesBy(entries, rel, depth, m, way, name)
  }

  ghost predicate ReachesBy(
    entries: seq<Node>, rel: string, depth: nat, m: FileMeta, way: seq<string>, name: string)
  {
    && (way == [] || depth + |way| <= 2)
    && FileAt(entries, way, name, m.size) && m.name == Under(PathOf(rel, way), name)
  }

  /** `path` is a folder at most `2 - depth` folders down. */
  ghost predicate ReachesFolder(entries: seq<Node>, rel: string, depth: nat, path: string) {
    exists way: seq<string> :: ReachesFolderBy(entries, rel, depth, path, way)
  }

  ghost predicate ReachesFolderBy(entries: seq<Node>, rel: string, depth: nat, path: string, way: seq<string>) {
    depth + |way| <= 2 && FolderAt(entries, way) && path == PathOf(rel, way)
  }

  // ----- The same in the order of the walk -----

  function FilesHere(entries: seq<Node>, rel: string): seq<FileMeta> {
    if entries == [] then []
    else
      (if entries[0].File? then [FileMeta(Under(rel, entries[0].name), entries[0].size)] else [])
      + FilesHere(entries[1..], rel)
  }

  function FilesBelow(entries: seq<Node>, rel: string, depth: nat): seq<FileMeta>
    decreases entries, 1
  {
    FilesHere(entries, rel) + if depth < MAX_DEPTH then FilesInside(entries, rel, depth) else []
  }

  function FilesInside(entries: seq<Node>, rel: string, depth: nat): seq<FileMeta>
    decreases entries, 0
  {
    if entries == [] then []
    else
      (if entries[0].Folder? then FilesBelow(entries[0].entries, Under(rel, entries[0].name), depth + 1) else [])
      + FilesInside(entries[1..], rel, depth)
  }

  function FoldersHere(entries: seq<Node>, rel: string): seq<string> {
    if entries == [] then []
    else
      (if entries[0].Folder? then [Under(rel, entries[0].name)] else []) + FoldersHere(entries[1..], rel)
  }

  function FoldersBelow(entries: seq<Node>, rel: string, depth: nat): seq<string>
    decreases entries, 1
  {
    if depth < MAX_DEPTH then FoldersHere(entries, rel) + FoldersInside(entries, rel, depth) else []
  }

  function FoldersInside(entries: seq<Node>, rel: string, depth: nat): seq<string>
    decreases entries, 0
  {
    if entries == [] then []
    else
      (if entries[0].Folder? then FoldersBelow(entries[0].entries, Under(rel, entries[0].name), depth + 1) else [])
      + FoldersInside(entries[1..], rel, depth)
  }

  // ----- The walk reaches what can be reached -----

  lemma {:induction false} FilesHereAre(entries: seq<Node>, rel: string, m: FileMeta)
    ensures m in FilesHere(entries, rel) <==>
      exists name: string :: FileAt(entries, [], name, m.size) && m.name == Under(rel, name)
    decreases |entries|
  {
    if entries != [] {
      var e := entries[0];
      FilesHereAre(entries[1..], rel, m);
      assert entries == [e] + entries[1..];
      if m in FilesHere(entries[1..], rel) {
        var name: string :| FileAt(entries[1..], [], name, m.size) && m.name == Under(rel, name);
        assert FileAt(entries, [], name, m.size);
      } else if m in FilesHere(entries, rel) {
        assert FileAt(entries, [], e.name, m.size);
      }
      forall name: string | FileAt(entries, [], name, m.size) && m.name == Under(rel, name)
        ensures m in FilesHere(entries, rel)
      {
        assert File(name, m.size) == e || FileAt(entries[1..], [], name, m.size);
      }
    }
  }

  lemma {:induction false} FoldersHereAre(entries: seq<Node>, rel: string, path: string)
    ensures path in FoldersHere(entries, rel) <==> exists e :: e in entries && e.Folder? && path == Under(rel, e.name)
    decreases |entries|
  {
    if entries != [] {
      FoldersHereAre(entries[1..], rel, path);
      assert entries == [entries[0]] + entries[1..];
    }
  }

  /** Behind one of the folders of a listing. */
  ghost predicate ReachesInside(entries: seq<Node>, rel: string, depth: nat, m: FileMeta) {
    exists e :: e in entries && e.Folder? && Reaches(e.entries, Under(rel, e.name), depth + 1, m)
  }

  lemma {:induction false} ReachesSplits(entries: seq<Node>, rel: string, depth: nat, m: FileMeta)
    ensures Reaches(entries, rel, depth, m) <==>
      || (exists name: string :: FileAt(entries, [], name, m.size) && m.name == Under(rel, name))
      || (depth < 2 && ReachesInside(entries, rel, depth, m))
  {
    if Reaches(entries, rel, depth, m) {
      var way: seq<string>, name: string :| ReachesBy(entries, rel, depth, m, way, name);
      if way != [] {
        var e :| e in entries && IsFolder(e, way[0]) && FileAt(e.entries, way[1..], name, m.size);
        assert ReachesBy(e.entries, Under(rel, e.name), depth + 1, m, way[1..], name);
      }
    }
    if name: string :| FileAt(entries, [], name, m.size) && m.name == Under(rel, name) {
      assert ReachesBy(entries, rel, depth, m, [], name);
    }
    if depth < 2 && ReachesInside(entries, rel, depth, m) {
      var e :| e in entries && e.Folder? && Reaches(e.entries, Under(rel, e.name), depth + 1, m);
      var way: seq<string>, name: string :|
        ReachesBy(e.entries, Under(rel, e.name), depth + 1, m, way, name);
      var longer := [e.name] + way;
      assert longer[1..] == way && IsFolder(e, longer[0]);
      assert ReachesBy(entries, rel, depth, m, longer, name);
    }
  }

  lemma {:induction false} FilesBelowAre(entries: seq<Node>, rel: string, depth: nat, m: FileMeta)
    ensures m in FilesBelow(entries, rel, depth) <==> Reaches(entries, rel, depth, m)
    decreases entries, 1
  {
    FilesHereAre(entries, rel, m);
    ReachesSplits(entries, rel, depth, m);
    FilesInsideAre(entries, rel, depth, m);
  }

  lemma {:induction false} FilesInsideAre(entries: seq<Node>, rel: string, depth: nat, m: FileMeta)
    ensures m in FilesInside(entries, rel, depth) <==> ReachesInside(entries, rel, depth, m)
    decreases entries, 0
  {
    if entries != [] {
      var e := entries[0];
      FilesInsideAre(entries[1..], rel, depth, m);
      assert forall x :: x in entries <==> x == e || x in entries[1..];
      if e.Folder? {
        FilesBelowAre(e.entries, Under(rel, e.name), depth + 1, m);
      }
    }
  }

  ghost predicate ReachesFolderInside(entries: seq<Node>, rel: string, depth: nat, path: string) {
    exists e :: e in entries && e.Folder? && ReachesFolder(e.entries, Under(rel, e.name), depth + 1, path)
  }

  ghost predicate ReachesFolderHere(entries: seq<Node>, rel: string, path: string) {
    exists e :: e in entries && e.Folder? && path == Under(rel, e.name)
  }

  lemma {:induction false} ReachedFolderSplits(
    entries: seq<Node>, rel: string, depth: nat, path: string, way: seq<string>)
    requires ReachesFolderBy(entries, rel, depth, path, way)
    ensures ReachesFolderHere(entries, rel, path) || ReachesFolderInside(entries, rel, depth, path)
  {
    var e :| e in entries && IsFolder(e, way[0]) && (|way| == 1 || FolderAt(e.entries, way[1..]));
    if |way| > 1 {
      assert ReachesFolderBy(e.entries, Under(rel, e.name), depth + 1, path, way[1..]);
    } else {
      assert PathOf(Under(rel, way[0]), []) == Under(rel, way[0]) && way[1..] == [];
    }
  }

  lemma {:induction false} ReachesFolderSplits(entries: seq<Node>, rel: string, depth: nat, path: string)
    ensures ReachesFolder(entries, rel, depth, path) <==>
      depth < 2 && (ReachesFolderHere(entries, rel, path) || ReachesFolderInside(entries, rel, depth, path))
  {
    if ReachesFolder(entries, rel, depth, path) {
      var way: seq<string> :| ReachesFolderBy(entries, rel, depth, path, way);
      ReachedFolderSplits(entries, rel, depth, path, way);
    }
    if depth < 2 && ReachesFolderHere(entries, rel, path) {
      var e :| e in entries && e.Folder? && path == Under(rel, e.name);
      assert IsFolder(e, [e.name][0]) && [e.name][1..] == [];
      assert ReachesFolderBy(entries, rel, depth, path, [e.name]);
    }
    if depth < 2 && ReachesFolderInside(entries, rel, depth, path) {
      var e :| e in entries && e.Folder? && ReachesFolder(e.entries, Under(rel, e.name), depth + 1, path);
      var way: seq<string> :| ReachesFolderBy(e.entries, Under(rel, e.name), depth + 1, path, way);
      var longer := [e.name] + way;
      assert longer[1..] == way && IsFolder(e, longer[0]);
      assert ReachesFolderBy(entries, rel, depth, path, longer);
    }
  }

  lemma {:induction false} FoldersBelowAre(entries: seq<Node>, rel: string, depth: nat, path: string)
    ensures path in FoldersBelow(entries, rel, depth) <==> ReachesFolder(entries, rel, depth, path)
    decreases entries, 1
  {
    FoldersHereAre(entries, rel, path);
    ReachesFolderSplits(entries, rel, depth, path);
    FoldersInsideAre(entries, rel, depth, path);
  }

  lemma {:induction false} FoldersInsideAre(entries: seq<Node>, rel: string, depth: nat, path: string)
    ensures path in FoldersInside(entries, rel, depth) <==> ReachesFolderInside(entries, rel, depth, path)
    decreases entries, 0
  {
    if entries != [] {
      var e := entries[0];
      FoldersInsideAre(entries[1..], rel, depth, path);
      assert forall x :: x in entries <==> x == e || x in entries[1..];
      if e.Folder? {
        FoldersBelowAre(e.entries, Under(rel, e.name), depth + 1, path);
      }
    }
  }

  // ----- The tables are entered in that order -----

  function EnterFiles(files: map<string, FileMeta>, found: seq<FileMeta>): map<string, FileMeta>
    decreases |found|
  {
    if found == [] then files else EnterFiles(files[Lower(found[0].name) := found[0]], found[1..])
  }

  function EnterFolders(dirs: map<string, string>, found: seq<string>): map<string, string>
    decreases |found|
  {
    if found == [] then dirs else EnterFolders(dirs[Lower(found[0]) := found[0]], found[1..])
  }

  lemma {:induction false} EnterFilesConcat(files: map<string, FileMeta>, a: seq<FileMeta>, b: seq<FileMeta>)
    ensures EnterFiles(files, a + b) == EnterFiles(EnterFiles(files, a), b)
    decreases |a|
  {
    if a == [] {
      assert a + b == b;
    } else {
      assert (a + b)[0] == a[0] && (a + b)[1..] == a[1..] + b;
      EnterFilesConcat(files[Lower(a[0].name) := a[0]], a[1..], b);
    }
  }

  lemma {:induction false} EnterFoldersConcat(dirs: map<string, string>, a: seq<string>, b: seq<string>)
    ensures EnterFolders(dirs, a + b) == EnterFolders(EnterFolders(dirs, a), b)
    decreases |a|
  {
    if a == [] {
      assert a + b == b;
    } else {
      assert (a + b)[0] == a[0] && (a + b)[1..] == a[1..] + b;
      EnterFoldersConcat(dirs[Lower(a[0]) := a[0]], a[1..], b);
    }
  }

  lemma {:induction false} ListedFiles(files: map<string, FileMeta>, entries: seq<Node>, rel: string)
    ensures AddFiles(files, entries, rel) == EnterFiles(files, FilesHere(entries, rel))
    decreases |entries|
  {
    if entries != [] {
      var e := entries[0];
      var rest := FilesHere(entries[1..], rel);
      if e.File? {
        var m := FileMeta(Under(rel, e.name), e.size);
        assert ([m] + rest)[1..] == rest;
        ListedFiles(files[Lower(m.name) := m], entries[1..], rel);
      } else {
        assert [] + rest == rest;
        ListedFiles(files, entries[1..], rel);
      }
    }
  }

  lemma {:induction false} ListedFolders(dirs: map<string, string>, entries: seq<Node>, rel: string)
    ensures AddDirs(dirs, entries, rel) == EnterFolders(dirs, FoldersHere(entries, rel))
    decreases |entries|
  {
    if entries != [] {
      var e := entries[0];
      var rest := FoldersHere(entries[1..], rel);
      if e.Folder? {
        var path := Under(rel, e.name);
        assert ([path] + rest)[1..] == rest;
        ListedFolders(dirs[Lower(path) := path], entries[1..], rel);
      } else {
        assert [] + rest == rest;
        ListedFolders(dirs, entries[1..], rel);
      }
    }
  }

  /** `after` is `before` with these files and folders entered. */
  ghost predicate Entered(before: Tables, after: Tables, files: seq<FileMeta>, folders: seq<string>) {
    after.files == EnterFiles(before.files, files) && after.dirs == EnterFolders(before.dirs, folders)
  }

  lemma {:induction false} EnteredThen(
    a: Tables, b: Tables, c: Tables, files: seq<FileMeta>, folders: seq<string>,
    more: seq<FileMeta>, moreFolders: seq<string>)
    requires Entered(a, b, files, folders) && Entered(b, c, more, moreFolders)
    ensures Entered(a, c, files + more, folders + moreFolders)
  {
    EnterFilesConcat(a.files, files, more);
    EnterFoldersConcat(a.dirs, folders, moreFolders);
  }

  lemma {:induction false} AbsorbedEnters(t: Tables, entries: seq<Node>, rel: string, depth: nat)
    ensures Entered(t, Absorbed(t, entries, rel, depth),
      FilesBelow(entries, rel, depth), FoldersBelow(entries, rel, depth))
    decreases entries, 1
  {
    var files, folders := FilesHere(entries, rel), FoldersHere(entries, rel);
    ListedFiles(t.files, entries, rel);
    ListedFolders(t.dirs, entries, rel);
    if depth < MAX_DEPTH {
      var listed := Tables(AddFiles(t.files, entries, rel), AddDirs(t.dirs, entries, rel));
      DescendedEnters(listed, entries, rel, depth);
      EnteredThen(t, listed, Absorbed(t, entries, rel, depth), files, folders,
        FilesInside(entries, rel, depth), FoldersInside(entries, rel, depth));
    } else {
      assert files + [] == files;
    }
  }

  lemma {:induction false} DescendedEnters(t: Tables, entries: seq<Node>, rel: string, depth: nat)
    ensures Entered(t, Descended(t, entries, rel, depth),
      FilesInside(entries, rel, depth), FoldersInside(entries, rel, depth))
    decreases entries, 0
  {
    if entries != [] {
      var e, rest := entries[0], entries[1..];
      if e.Folder? {
        var below := Under(rel, e.name);
        var next := Absorbed(t, e.entries, below, depth + 1);
        AbsorbedEnters(t, e.entries, below, depth + 1);
        DescendedEnters(next, rest, rel, depth);
        EnteredThen(t, next, Descended(next, rest, rel, depth),
          FilesBelow(e.entries, below, depth + 1), FoldersBelow(e.entries, below, depth + 1),
          FilesInside(rest, rel, depth), FoldersInside(rest, rel, depth));
      } else {
        DescendedEnters(t, rest, rel, depth);
        assert [] + FilesInside(rest, rel, depth) == FilesInside(rest, rel, depth);
        assert [] + FoldersInside(rest, rel, depth) == FoldersInside(rest, rel, depth);
      }
    }
  }

  // ----- What the tables then hold -----

  lemma {:induction false} EnteredFileIs(files: map<string, FileMeta>, found: seq<FileMeta>, k: string)
    ensures k in EnterFiles(files, found) <==> k in files || exists m :: m in found && Lower(m.name) == k
    ensures k in EnterFiles(files, found) ==>
      var m := EnterFiles(files, found)[k];
      if exists x :: x in found && Lower(x.name) == k then m in found && Lower(m.name) == k
      else k in files && m == files[k]
    decreases |found|
  {
    if found != [] {
      EnteredFileIs(files[Lower(found[0].name) := found[0]], found[1..], k);
      assert forall x :: x in found <==> x == found[0] || x in found[1..];
    }
  }

  lemma {:induction false} EnteredFolderIs(dirs: map<string, string>, found: seq<string>, k: string)
    ensures k in EnterFolders(dirs, found) <==> k in dirs || exists p :: p in found && Lower(p) == k
    ensures k in EnterFolders(dirs, found) ==>
      var p := EnterFolders(dirs, found)[k];
      if exists x :: x in found && Lower(x) == k then p in found && Lower(p) == k else k in dirs && p == dirs[k]
    decreases |found|
  {
    if found != [] {
      EnteredFolderIs(dirs[Lower(found[0]) := found[0]], found[1..], k);
      assert forall x :: x in found <==> x == found[0] || x in found[1..];
    }
  }

  ghost predicate SomeFile(entries: seq<Node>, rel: string, depth: nat, k: string) {
    exists m :: Reaches(entries, rel, depth, m) && Lower(m.name) == k
  }

  ghost predicate SomeFolder(entries: seq<Node>, rel: string, depth: nat, k: string) {
    exists path :: ReachesFolder(entries, rel, depth, path) && Lower(path) == k
  }

  /** Indexing a listing adds to the file table exactly the files that can be reached, each under its
      lower-cased path, with its own spelling and size or those of another that folds to the same path; what
      was there before stays under every other key. */
  lemma {:induction false} IndexedFilesAre(t: Tables, entries: seq<Node>, rel: string, depth: nat, k: string)
    ensures var files := Absorbed(t, entries, rel, depth).files;
      && (k in files <==> k in t.files || SomeFile(entries, rel, depth, k))
      && (k in files && SomeFile(entries, rel, depth, k) ==>
            Reaches(entries, rel, depth, files[k]) && Lower(files[k].name) == k)
      && (k in files && !SomeFile(entries, rel, depth, k) ==> files[k] == t.files[k])
  {
    var found := FilesBelow(entries, rel, depth);
    AbsorbedEnters(t, entries, rel, depth);
    EnteredFileIs(t.files, found, k);
    forall m: FileMeta
      ensures m in found <==> Reaches(entries, rel, depth, m)
    {
      FilesBelowAre(entries, rel, depth, m);
    }
    assert SomeFile(entries, rel, depth, k) <==> exists m :: m in found && Lower(m.name) == k;
  }

  /** So a file no other folds together with is found with its own spelling and size. */
  lemma {:induction false} ReachedFileIsIndexed(t: Tables, entries: seq<Node>, rel: string, depth: nat, m: FileMeta)
    requires Reaches(entries, rel, depth, m)
    requires forall x :: Reaches(entries, rel, depth, x) && Lower(x.name) == Lower(m.name) ==> x == m
    ensures var files := Absorbed(t, entries, rel, depth).files;
      Lower(m.name) in files && files[Lower(m.name)] == m
  {
    assert SomeFile(entries, rel, depth, Lower(m.name));
    IndexedFilesAre(t, entries, rel, depth, Lower(m.name));
  }

  /** The same for folders. */
  lemma {:induction false} IndexedFoldersAre(t: Tables, entries: seq<Node>, rel: string, depth: nat, k: string)
    ensures var dirs := Absorbed(t, entries, rel, depth).dirs;
      && (k in dirs <==> k in t.dirs || SomeFolder(entries, rel, depth, k))
      && (k in dirs && SomeFolder(entries, rel, depth, k) ==>
            ReachesFolder(entries, rel, depth, dirs[k]) && Lower(dirs[k]) == k)
      && (k in dirs && !SomeFolder(entries, rel, depth, k) ==> dirs[k] == t.dirs[k])
  {
    var found := FoldersBelow(entries, rel, depth);
    AbsorbedEnters(t, entries, rel, depth);
    EnteredFolderIs(t.dirs, found, k);
    forall path: string
      ensures path in found <==> ReachesFolder(entries, rel, depth, path)
    {
      FoldersBelowAre(entries, rel, depth, path);
    }
    assert SomeFolder(entries, rel, depth, k) <==> exists path :: path in found && Lower(path) == k;
  }
}
