/**
 The directory walk that collects the files of an application (helpers/tar.go).

 A directory tree stands for the file system; `filepath.Walk` visits it depth first and calls back for every
 entry.  Paths are sequences of names below the application's directory.
 */
module TarWalk {
  import opened IgnoreMatcher
  import opened Strings
  import opened Wrappers

  const GIT_FILES := [".git", ".gitignore", ".gitmodules", ".gitconfig", ".git-credentials"]
  const IGNORE_FILE := ".epinioignore"

  /** An entry as Walk sees it.  NoInfo is one whose file information cannot be had. */
  datatype Node =
    | File(name: string)
    | Dir(name: string, readable: bool, children: seq<Node>)
    | NoInfo(name: string)

  /** Names of entries are never empty, never the dot of the directory itself, and free of slashes. */
  predicate ProperName(name: string) {
    name != "" && name != "." && '/' !in name
  }

  predicate Proper(node: Node) {
    node.Dir? ==> forall c :: c in node.children ==> ProperName(c.name) && Proper(c)
  }

  /** filepath.Rel of a path below the directory. */
  function Rel(names: seq<string>): string {
    if names == [] then "." else Join(names, "/")
  }

  /** filepath.Base of such a path. */
  function BaseName(rel: string): string {
    var parts := Split(rel, "/");
    parts[|parts| - 1]
  }

  /** What filepath.Join puts before a name below a directory that is in the form filepath.Clean leaves. */
  function Prefix(dir: string): string {
    if dir == "/" then "/" else if dir == "." then "" else dir + "/"
  }

  /** The full path Walk reports. */
  function FullPath(dir: string, rel: string): string {
    if rel == "." then dir else Prefix(dir) + rel
  }

  // ---- Which files belong into the tarball

  /** There is a file under these names, and every directory on the way can be read. */
  ghost predicate FileAt(node: Node, names: seq<string>)
    decreases |names|
  {
    if names == [] then node.File?
    else node.Dir? && node.readable && exists c :: c in node.children && c.name == names[0] && FileAt(c, names[1..])
  }

  /** The entry under these names is neither a git file nor ignored. */
  ghost predicate Passes(g: Glob, patterns: seq<Pattern>, names: seq<string>, isDir: bool) {
    names == [] || (names[|names| - 1] !in GIT_FILES && !Ignored(g, patterns, Some(Rel(names)), isDir))
  }

  /** From the entry under the first `from` names on, all on the way to the file pass: directories, then the file. */
  ghost predicate PassesFrom(g: Glob, patterns: seq<Pattern>, names: seq<string>, from: nat) {
    && (forall k :: from <= k < |names| ==> Passes(g, patterns, names[..k], true))
    && Passes(g, patterns, names, false)
    && (names != [] ==> names[|names| - 1] != IGNORE_FILE)
  }

  /** The file belongs into the tarball. */
  ghost predicate Wanted(g: Glob, patterns: seq<Pattern>, root: Node, names: seq<string>) {
    FileAt(root, names) && PassesFrom(g, patterns, names, 0)
  }

  /** What the walk below `node`, reached under `names`, contributes. */
  ghost predicate Contributes(g: Glob, patterns: seq<Pattern>, node: Node, names: seq<string>, rel: string) {
    exists tail :: FileAt(node, tail) && PassesFrom(g, patterns, names + tail, |names|) && rel == Rel(names + tail)
  }

  lemma FullPathInjective(dir: string, r1: string, r2: string)
    requires FullPath(dir, r1) == FullPath(dir, r2) && r1 != "" && r2 != ""
    ensures r1 == r2
  {
    var prefix := Prefix(dir);
    assert (prefix + r1)[|prefix|..] == r1 && (prefix + r2)[|prefix|..] == r2;
  }

  lemma BaseNameOfRel(names: seq<string>)
    requires forall n :: n in names ==> ProperName(n)
    ensures BaseName(Rel(names)) == if names == [] then "." else names[|names| - 1]
    ensures names != [] ==> Rel(names) != "." && Rel(names) != ""
  {
    if names == [] {
      IndexOfAbsent(".", '/');
    } else {
      SplitOfJoin(names, '/');
      assert names[0] in names;
      if Rel(names) == "." || Rel(names) == "" {
        IndexOfAbsent(Rel(names), '/');
      }
    }
  }

  /** The callback's tests on path and base name are those on the names. */
  lemma PassesByPath(g: Glob, patterns: seq<Pattern>, names: seq<string>, isDir: bool)
    requires forall n :: n in names ==> ProperName(n)
    ensures Passes(g, patterns, names, isDir) <==>
      BaseName(Rel(names)) !in GIT_FILES && !Ignored(g, patterns, Some(Rel(names)), isDir)
    ensures BaseName(Rel(names)) == IGNORE_FILE <==> names != [] && names[|names| - 1] == IGNORE_FILE
  {
    BaseNameOfRel(names);
  }

  lemma PassesFromNext(g: Glob, patterns: seq<Pattern>, names: seq<string>, from: nat)
    requires from < |names|
    ensures PassesFrom(g, patterns, names, from) <==>
      Passes(g, patterns, names[..from], true) && PassesFrom(g, patterns, names, from + 1)
  {
  }

  lemma ChildContributes(g: Glob, patterns: seq<Pattern>, node: Node, names: seq<string>, c: Node, rel: string)
    requires node.Dir? && node.readable && Passes(g, patterns, names, true)
    requires c in node.children && Contributes(g, patterns, c, names + [c.name], rel)
    ensures Contributes(g, patterns, node, names, rel)
  {
    var tail :| FileAt(c, tail) && PassesFrom(g, patterns, names + [c.name] + tail, |names + [c.name]|)
      && rel == Rel(names + [c.name] + tail);
    var full := [c.name] + tail;
    assert names + [c.name] + tail == names + full && (names + full)[..|names|] == names;
    assert full[1..] == tail && FileAt(node, full);
    PassesFromNext(g, patterns, names + full, |names|);
  }

  lemma ContributedByChild(g: Glob, patterns: seq<Pattern>, node: Node, names: seq<string>,
      rel: string) returns (c: Node)
    requires node.Dir? && Contributes(g, patterns, node, names, rel)
    ensures c in node.children && Contributes(g, patterns, c, names + [c.name], rel)
    ensures Passes(g, patterns, names, true)
  {
    var tail :| FileAt(node, tail) && PassesFrom(g, patterns, names + tail, |names|) && rel == Rel(names + tail);
    c :| c in node.children && c.name == tail[0] && FileAt(c, tail[1..]);
    assert names + tail == names + [c.name] + tail[1..] && (names + tail)[..|names|] == names;
    PassesFromNext(g, patterns, names + tail, |names|);
  }

  /** A directory that passes contributes what its children contribute, any other directory nothing. */
  lemma DirContributes(g: Glob, patterns: seq<Pattern>, node: Node, names: seq<string>, rel: string)
    requires node.Dir? && node.readable
    ensures Contributes(g, patterns, node, names, rel) <==>
      Passes(g, patterns, names, true) && exists c :: c in node.children && Contributes(g, patterns, c, names + [c.name], rel)
  {
    if Contributes(g, patterns, node, names, rel) {
      var c := ContributedByChild(g, patterns, node, names, rel);
    }
    if Passes(g, patterns, names, true) {
      forall c | c in node.children && Contributes(g, patterns, c, names + [c.name], rel)
        ensures Contributes(g, patterns, node, names, rel)
      {
        ChildContributes(g, patterns, node, names, c, rel);
      }
    }
  }

  lemma FileContributes(g: Glob, patterns: seq<Pattern>, node: Node, names: seq<string>, rel: string)
    requires node.File?
    ensures Contributes(g, patterns, node, names, rel) <==> PassesFrom(g, patterns, names, |names|) && rel == Rel(names)
  {
    assert names + [] == names;
    assert FileAt(node, []);
  }

  // ---- The walk

  class Collector {
    const g: Glob
    const patterns: seq<Pattern>
    const dir: string
    var sources: map<string, string>

    constructor (g: Glob, patterns: seq<Pattern>, dir: string)
      ensures this.g == g && this.patterns == patterns && this.dir == dir && sources == map[]
    {
      this.g, this.patterns, this.dir := g, patterns, dir;
      sources := map[];
    }

    /** Every file is kept under its full path. */
    ghost predicate Valid()
      reads this
    {
      forall path :: path in sources ==> sources[path] != "" && path == FullPath(dir, sources[path])
    }

    ghost predicate Collected(rel: string)
      reads this
    {
      FullPath(dir, rel) in sources && sources[FullPath(dir, rel)] == rel
    }

    /** The callback for an entry that could be read; it answers whether to skip the directory. */
    method Visit(node: Node, names: seq<string>) returns (skip: bool)
      requires Valid() && !node.NoInfo? && forall n :: n in names ==> ProperName(n)
      modifies this
      ensures Valid()
      ensures node.Dir? ==> sources == old(sources) && skip == !Passes(g, patterns, names, true)
      ensures node.File? ==> !skip
      ensures node.File? && PassesFrom(g, patterns, names, |names|) ==> sources == old(sources)[FullPath(dir, Rel(names)) := Rel(names)]
      ensures node.File? && !PassesFrom(g, patterns, names, |names|) ==> sources == old(sources)
    {
      PassesByPath(g, patterns, names, node.Dir?);
      BaseNameOfRel(names);
      var rel := Rel(names);
      var baseName := BaseName(rel);
      if baseName in GIT_FILES {
        return node.Dir?;
      }
      var ignored := ShouldIgnore(g, patterns, Some(rel), node.Dir?);
      if ignored {
        return node.Dir?;
      }
      if baseName == IGNORE_FILE {
        return false;
      }
      if node.Dir? {
        return false;
      }
      sources := sources[FullPath(dir, rel) := rel];
      return false;
    }

    /** Depth first below `node`, which has been reached under `names`. */
    method Walk(node: Node, names: seq<string>)
      requires Valid() && Proper(node) && forall n :: n in names ==> ProperName(n)
      modifies this
      ensures Valid()
      ensures forall rel :: Collected(rel) <==> old(Collected(rel)) || Contributes(g, patterns, node, names, rel)
      decreases node
    {
      if node.NoInfo? || (node.Dir? && !node.readable) {
        assert forall tail :: !FileAt(node, tail);
        return;
      }
      var skip := Visit(node, names);
      if node.File? {
        forall rel ensures Collected(rel) <==> old(Collected(rel)) || Contributes(g, patterns, node, names, rel) {
          FileContributes(g, patterns, node, names, rel);
          BaseNameOfRel(names);
          if old(Collected(rel)) && FullPath(dir, rel) == FullPath(dir, Rel(names)) {
            FullPathInjective(dir, rel, Rel(names));
          }
        }
        return;
      }
      if skip {
        forall rel ensures !Contributes(g, patterns, node, names, rel) {
          DirContributes(g, patterns, node, names, rel);
        }
        return;
      }
      for i := 0 to |node.children|
        invariant Valid()
        invariant forall rel :: Collected(rel) <==>
          old(Collected(rel)) || exists c :: c in node.children[..i] && Contributes(g, patterns, c, names + [c.name], rel)
      {
        var c := node.children[i];
        assert node.children[..i + 1] == node.children[..i] + [c];
        Walk(c, names + [c.name]);
      }
      assert node.children[..|node.children|] == node.children;
      forall rel ensures Collected(rel) <==> old(Collected(rel)) || Contributes(g, patterns, node, names, rel) {
        DirContributes(g, patterns, node, names, rel);
      }
    }
  }

  /** The relative path is that of a wanted file. */
  ghost predicate Belongs(g: Glob, patterns: seq<Pattern>, root: Node, rel: string) {
    exists names :: Wanted(g, patterns, root, names) && rel == Rel(names)
  }

  lemma RootContributes(g: Glob, patterns: seq<Pattern>, root: Node, rel: string)
    ensures Contributes(g, patterns, root, [], rel) <==> Belongs(g, patterns, root, rel)
  {
    assert forall names: seq<string> :: [] + names == names;
  }

  /** The map has the pair of paths exactly when they are those of a wanted file. */
  ghost predicate IsHeld(sources: map<string, string>, g: Glob, patterns: seq<Pattern>, dir: string, root: Node,
      path: string, rel: string) {
    path in sources && sources[path] == rel <==> path == FullPath(dir, rel) && Belongs(g, patterns, root, rel)
  }

  /** The map holds exactly the wanted files, each under its full path with its relative one. */
  ghost predicate HoldsWanted(sources: map<string, string>, g: Glob, patterns: seq<Pattern>, dir: string, root: Node) {
    forall path, rel :: IsHeld(sources, g, patterns, dir, root, path, rel)
  }

  lemma HeldAt(g: Glob, patterns: seq<Pattern>, dir: string, root: Node, found: map<string, string>, path: string,
      rel: string)
    requires path in found ==> path == FullPath(dir, found[path])
    requires FullPath(dir, rel) in found && found[FullPath(dir, rel)] == rel <==> Contributes(g, patterns, root, [], rel)
    ensures IsHeld(found, g, patterns, dir, root, path, rel)
  {
    RootContributes(g, patterns, root, rel);
  }

  /** What holds of the relative paths holds of the whole map. */
  lemma CollectedHoldsWanted(g: Glob, patterns: seq<Pattern>, dir: string, root: Node, found: map<string, string>)
    requires forall path :: path in found ==> path == FullPath(dir, found[path])
    requires forall rel :: FullPath(dir, rel) in found && found[FullPath(dir, rel)] == rel <==>
      Contributes(g, patterns, root, [], rel)
    ensures HoldsWanted(found, g, patterns, dir, root)
  {
    forall path, rel ensures IsHeld(found, g, patterns, dir, root, path, rel) {
      HeldAt(g, patterns, dir, root, found, path, rel);
    }
  }

  method CollectFiles(g: Glob, patterns: seq<Pattern>, dir: string, root: Node) returns (sources: map<string, string>)
    requires Proper(root)
    ensures HoldsWanted(sources, g, patterns, dir, root)
  {
    var collector := new Collector(g, patterns, dir);
    collector.Walk(root, []);
    sources := collector.sources;
    forall rel ensures FullPath(dir, rel) in sources && sources[FullPath(dir, rel)] == rel <==>
      Contributes(g, patterns, root, [], rel)
    {
      assert collector.Collected(rel) <==> Contributes(g, patterns, root, [], rel);
    }
    CollectedHoldsWanted(g, patterns, dir, root, sources);
  }

  /** For every tree: exactly the wanted files are collected, as judged by manifest and file patterns together. */
  method TarSources(g: Glob, manifest: seq<string>, file: IgnoreFile, dir: string, root: Node)
    returns (sources: Result<map<string, string>>)
    requires Proper(root)
    ensures sources.Err? <==> file.OpenFails? || (file.Content? && file.readFails)
    ensures sources.Ok? ==>
      var patterns := Parsed(manifest) + (if file.Content? then Parsed(file.lines) else []);
      HoldsWanted(sources.value, g, patterns, dir, root)
  {
    var loaded := LoadIgnoreMatcher(manifest, file);
    if loaded.Err? {
      return Err;
    }
    var found := CollectFiles(g, loaded.value, dir, root);
    return Ok(found);
  }

  // ---- What is in the tarball

  /** No entry on the way to the file, nor the file itself, is a git file or is ignored, and it is not the ignore file. */
  ghost predicate WayIsClear(g: Glob, patterns: seq<Pattern>, names: seq<string>) {
    && (forall n :: n in names ==> n !in [".git", ".gitignore", ".gitmodules", ".gitconfig", ".git-credentials"])
    && (forall k :: 0 < k < |names| ==> !LastMatchIgnores(g, patterns, Join(names[..k], "/"), true))
    && !LastMatchIgnores(g, patterns, Join(names, "/"), false)
    && (names != [] ==> names[|names| - 1] != ".epinioignore")
  }

  lemma PassesMeans(g: Glob, patterns: seq<Pattern>, names: seq<string>, isDir: bool)
    requires names != [] && forall n :: n in names ==> ProperName(n)
    ensures Passes(g, patterns, names, isDir) <==>
      names[|names| - 1] !in GIT_FILES && !LastMatchIgnores(g, patterns, Join(names, "/"), isDir)
  {
    BaseNameOfRel(names);
  }

  lemma ClearMeans(g: Glob, patterns: seq<Pattern>, names: seq<string>)
    requires names != [] && forall n :: n in names ==> ProperName(n)
    ensures PassesFrom(g, patterns, names, 0) <==> WayIsClear(g, patterns, names)
  {
    forall k | 0 < k < |names|
      ensures Passes(g, patterns, names[..k], true) <==>
        names[k - 1] !in GIT_FILES && !LastMatchIgnores(g, patterns, Join(names[..k], "/"), true)
    {
      assert names[..k][k - 1] == names[k - 1] && forall n :: n in names[..k] ==> n in names;
      PassesMeans(g, patterns, names[..k], true);
    }
    PassesMeans(g, patterns, names, false);
    if PassesFrom(g, patterns, names, 0) {
      forall i | 0 <= i < |names| ensures names[i] !in GIT_FILES {
        assert i + 1 < |names| ==> Passes(g, patterns, names[..i + 1], true);
      }
    }
    if WayIsClear(g, patterns, names) {
      forall k | 0 <= k < |names| ensures Passes(g, patterns, names[..k], true) {
        assert k > 0 ==> names[k - 1] in names;
        assert names[..0] == [];
      }
      assert names[|names| - 1] in names;
    }
  }

  lemma {:induction false} NamesProper(node: Node, names: seq<string>)
    requires Proper(node) && FileAt(node, names)
    ensures forall n :: n in names ==> ProperName(n)
    decreases |names|
  {
    if names != [] {
      var c :| c in node.children && c.name == names[0] && FileAt(c, names[1..]);
      NamesProper(c, names[1..]);
      assert names == [names[0]] + names[1..];
    }
  }

  /** There is such a file, with nothing in its way, and these are its paths: the relative one and, behind the
      application's directory, the full one. */
  ghost predicate IsFile(g: Glob, patterns: seq<Pattern>, dir: string, root: Node, names: seq<string>, path: string,
      rel: string) {
    && names != [] && FileAt(root, names) && WayIsClear(g, patterns, names)
    && rel == Join(names, "/") && path == (if dir == "/" then "/" + rel else if dir == "." then rel else dir + "/" + rel)
  }

  /** The tarball of a directory holds exactly the files with nothing in their way. */
  lemma TarballMeans(sources: map<string, string>, g: Glob, patterns: seq<Pattern>, dir: string, root: Node,
      path: string, rel: string)
    requires HoldsWanted(sources, g, patterns, dir, root) && Proper(root) && root.Dir?
    ensures path in sources && sources[path] == rel <==>
      exists names :: IsFile(g, patterns, dir, root, names, path, rel)
  {
    forall names | FileAt(root, names)
      ensures names != [] && Rel(names) == Join(names, "/") && Rel(names) != "."
      ensures PassesFrom(g, patterns, names, 0) <==> WayIsClear(g, patterns, names)
    {
      NamesProper(root, names);
      ClearMeans(g, patterns, names);
      BaseNameOfRel(names);
    }
    assert IsHeld(sources, g, patterns, dir, root, path, rel);
    if path in sources && sources[path] == rel {
      var names :| Wanted(g, patterns, root, names) && rel == Rel(names);
      assert IsFile(g, patterns, dir, root, names, path, rel);
    }
    if names :| IsFile(g, patterns, dir, root, names, path, rel) {
      assert Wanted(g, patterns, root, names) && rel == Rel(names);
      assert Belongs(g, patterns, root, rel);
    }
  }
}
