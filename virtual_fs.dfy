/** The virtual directory tree that stages real files under chosen paths and
    modes (TarTask.php's TarVirtualFS). The vfsStream tree is a map from a
    node's path (its list of segment names below the root) to the node; the
    root is the empty path. */
module VirtualFS {
  import opened Strings
  import opened FileContent

  /** `vfsStream::SCHEME . '://'`. */
  const Scheme: string := "vfs://"
  /** 0777, the permission of every directory `addFile` creates. */
  const DirectoryPerms: nat := 0x1FF

  /** The `$realPath` argument of `addFile`: `false` or a path string. */
  datatype Source = NoSource | RealPath(path: string)

  /** PHP truthiness of `$realPath`: `false`, "" and "0" are false. */
  predicate IsTruthy(s: Source) {
    s.RealPath? && s.path != "" && s.path != "0"
  }

  datatype Content = EmptyContent | Proxy(proxy: ReadOnlyFileContent)

  datatype Node = Directory(perms: nat) | RegularFile(mode: nat, content: Content)

  type Path = seq<string>
  type Tree = map<Path, Node>

  /** The record `addFile` keeps under `$this->files['file']`. */
  datatype Registration = Registration(source: Source, mode: nat)

  predicate IsDirAt(t: Tree, p: Path) {
    p in t && t[p].Directory?
  }

  predicate IsFileAt(t: Tree, p: Path) {
    p in t && t[p].RegularFile?
  }

  /** `k` lies strictly inside the subtree rooted at `p`. */
  predicate Below(p: Path, k: Path) {
    |p| < |k| && k[..|p|] == p
  }

  /** A tree whose root is a directory and every other node hangs under a
      directory. */
  ghost predicate WellFormed(t: Tree) {
    && IsDirAt(t, [])
    && forall p :: p in t && p != [] ==> IsDirAt(t, p[..|p| - 1])
  }

  function RootOnly(): (t: Tree)
    ensures WellFormed(t)
  {
    map[[] := Directory(DirectoryPerms)]
  }

  predicate NoSlashAfterFirst(name: string) {
    forall j :: 1 <= j < |name| ==> name[j] != '/'
  }

  /** How `addFile` cuts its target path: at each '/' found from offset 1 of
      what is left, so a leading '/' stays in the first name. All names but
      the last are directories; the last is the file. */
  function Segments(s: string): seq<string>
    decreases |s|
  {
    var r := IndexOfFrom(s, '/', 1);
    if r.None? then [s] else [s[..r.value]] + Segments(s[r.value + 1..])
  }

  /** No name holds a '/' after its first character; in particular the
      file's own name does not. There is at least one name, and every name but the last is non-empty, so a
      path has one cut only. The first name starts with the path's first
      character, so a leading '/' stays in it. */
  lemma {:induction false} SegmentsHaveNoSlash(s: string)
    ensures |Segments(s)| >= 1
    ensures forall i :: 0 <= i < |Segments(s)| ==> NoSlashAfterFirst(Segments(s)[i])
    ensures forall i :: 0 <= i < |Segments(s)| - 1 ==> Segments(s)[i] != []
    ensures s != [] ==> Segments(s)[0] != [] && Segments(s)[0][0] == s[0]
    decreases |s|
  {
    IndexOfFromFinds(s, '/', 1);
    match IndexOfFrom(s, '/', 1)
    case None =>
    case Some(pos) =>
      SegmentsHaveNoSlash(s[pos + 1..]);
      assert Segments(s)[1..] == Segments(s[pos + 1..]);
  }

  /** The path below the root that a list of names spells, each name
      preceded by '/'. */
  function JoinSlash(segs: seq<string>): string {
    if segs == [] then "" else "/" + segs[0] + JoinSlash(segs[1..])
  }

  /** Cutting a path into names loses nothing: joining the names again gives
      the path back. */
  lemma {:induction false} SegmentsJoin(s: string)
    ensures JoinSlash(Segments(s)) == "/" + s
    decreases |s|
  {
    IndexOfFromFinds(s, '/', 1);
    match IndexOfFrom(s, '/', 1)
    case None =>
    case Some(pos) =>
      var rest := s[pos + 1..];
      SegmentsJoin(rest);
      assert Segments(s)[1..] == Segments(rest);
      assert s == s[..pos] + "/" + rest;
  }

  /** The directory part of `addFile`'s loop: one step per '/' found, reusing
      a child of that name or creating it with 0777. A child that is a
      regular file stops the walk: it has no `getChild`/`addChild`, so PHP
      raises an Error there. */
  datatype Walk = Reached(tree: Tree, dir: Path, name: string) | Blocked(tree: Tree)

  function WalkFrom(t: Tree, dir: Path, rest: string): Walk
    decreases |rest|
  {
    match IndexOfFrom(rest, '/', 1)
    case None => Reached(t, dir, rest)
    case Some(pos) =>
      var child := dir + [rest[..pos]];
      if IsFileAt(t, child) then Blocked(t)
      else WalkFrom(if child in t then t else t[child := Directory(DirectoryPerms)], child, rest[pos + 1..])
  }

  /** `$dir->addChild($file)`: the child of that name is replaced, and the
      subtree of a replaced directory goes with it. */
  function Attach(t: Tree, p: Path, leaf: Node): (r: Tree)
    ensures p in r && r[p] == leaf
    ensures forall k :: k in r <==> k == p || (k in t && !Below(p, k))
    ensures forall k :: k in r && k != p ==> r[k] == t[k]
  {
    (map k | k in t && !Below(p, k) :: t[k])[p := leaf]
  }

  datatype Outcome = Placed(tree: Tree, path: Path) | Failed(tree: Tree)

  /** The tree after `addFile` registers `leaf` under target path `file`. */
  function Place(t: Tree, file: string, leaf: Node): Outcome {
    match WalkFrom(t, [], file)
    case Reached(t', d, n) => Placed(Attach(t', d + [n], leaf), d + [n])
    case Blocked(t') => Failed(t')
  }

  /** Some directory name on the path, not the last name, is already a
      regular file. */
  predicate BlockedBy(t: Tree, dir: Path, segs: seq<string>) {
    exists i :: 1 <= i < |segs| && IsFileAt(t, dir + segs[..i])
  }

  lemma {:induction false} WalkPath(t: Tree, dir: Path, rest: string)
    ensures var w := WalkFrom(t, dir, rest);
            w.Reached? ==> w.dir + [w.name] == dir + Segments(rest)
    decreases |rest|
  {
    match IndexOfFrom(rest, '/', 1)
    case None =>
    case Some(pos) =>
      var child := dir + [rest[..pos]];
      if !IsFileAt(t, child) {
        var t' := if child in t then t else t[child := Directory(DirectoryPerms)];
        WalkPath(t', child, rest[pos + 1..]);
        assert dir + Segments(rest) == child + Segments(rest[pos + 1..]);
      }
  }

  /** The walk only adds: every node already there keeps its value, and the
      new nodes are 0777 directories on the way to the target. */
  lemma WalkStep(t: Tree, dir: Path, rest: string, pos: nat)
    requires IndexOfFrom(rest, '/', 1) == Some(pos)
    ensures var child := dir + [rest[..pos]];
            WalkFrom(t, dir, rest) ==
              if IsFileAt(t, child) then Blocked(t)
              else WalkFrom(if child in t then t else t[child := Directory(DirectoryPerms)], child, rest[pos + 1..])
  {
  }

  lemma SegmentsStep(rest: string, pos: nat)
    requires IndexOfFrom(rest, '/', 1) == Some(pos)
    ensures pos <= |rest| && Segments(rest) == [rest[..pos]] + Segments(rest[pos + 1..])
  {
  }

  /** The walk only adds: a node already there keeps its value. */
  lemma {:induction false} WalkKeeps(t: Tree, dir: Path, rest: string, k: Path)
    requires k in t
    ensures k in WalkFrom(t, dir, rest).tree && WalkFrom(t, dir, rest).tree[k] == t[k]
    decreases |rest|
  {
    match IndexOfFrom(rest, '/', 1)
    case None =>
    case Some(pos) =>
      var child := dir + [rest[..pos]];
      WalkStep(t, dir, rest, pos);
      if !IsFileAt(t, child) {
        var t' := if child in t then t else t[child := Directory(DirectoryPerms)];
        WalkKeeps(t', child, rest[pos + 1..], k);
      }
  }

  /** A node the walk adds is a 0777 directory strictly above the target. */
  lemma {:induction false} WalkAdds(t: Tree, dir: Path, rest: string, k: Path)
    requires k in WalkFrom(t, dir, rest).tree && k !in t
    ensures Below(k, dir + Segments(rest)) && |dir| < |k|
    ensures WalkFrom(t, dir, rest).tree[k] == Directory(DirectoryPerms)
    decreases |rest|
  {
    match IndexOfFrom(rest, '/', 1)
    case None =>
    case Some(pos) =>
      var child := dir + [rest[..pos]];
      WalkStep(t, dir, rest, pos);
      var t' := if child in t then t else t[child := Directory(DirectoryPerms)];
      var rest' := rest[pos + 1..];
      var whole := child + Segments(rest');
      SegmentsStep(rest, pos);
      assert dir + Segments(rest) == whole;
      if k == child {
        WalkKeeps(t', child, rest', k);
        assert whole[..|child|] == child;
      } else {
        WalkAdds(t', child, rest', k);
      }
  }

  lemma {:induction false} WalkWellFormed(t: Tree, dir: Path, rest: string)
    requires WellFormed(t) && IsDirAt(t, dir)
    ensures var w := WalkFrom(t, dir, rest);
            WellFormed(w.tree) && (w.Reached? ==> IsDirAt(w.tree, w.dir))
    decreases |rest|
  {
    match IndexOfFrom(rest, '/', 1)
    case None =>
    case Some(pos) =>
      var child := dir + [rest[..pos]];
      if !IsFileAt(t, child) {
        var t' := if child in t then t else t[child := Directory(DirectoryPerms)];
        assert child[..|child| - 1] == dir;
        assert WellFormed(t');
        WalkWellFormed(t', child, rest[pos + 1..]);
      }
  }

  /** The walk fails exactly when a directory name on the way already names
      a regular file. */
  lemma {:induction false} WalkBlocked(t: Tree, dir: Path, rest: string)
    ensures WalkFrom(t, dir, rest).Blocked? <==> BlockedBy(t, dir, Segments(rest))
    decreases |rest|
  {
    var segs := Segments(rest);
    match IndexOfFrom(rest, '/', 1)
    case None =>
    case Some(pos) =>
      var child := dir + [rest[..pos]];
      var rest' := rest[pos + 1..];
      var segs' := Segments(rest');
      assert segs == [rest[..pos]] + segs';
      assert segs[..1] == [rest[..pos]];
      if IsFileAt(t, child) {
        assert dir + segs[..1] == child;
      } else {
        var t' := if child in t then t else t[child := Directory(DirectoryPerms)];
        WalkBlocked(t', child, rest');
        forall i | 1 <= i < |segs'|
          ensures dir + segs[..i + 1] == child + segs'[..i]
          ensures IsFileAt(t', child + segs'[..i]) == IsFileAt(t, dir + segs[..i + 1])
        {
          assert segs[..i + 1] == [rest[..pos]] + segs'[..i];
        }
        if BlockedBy(t, dir, segs) {
          var i :| 1 <= i < |segs| && IsFileAt(t, dir + segs[..i]);
          assert i != 1;
          assert IsFileAt(t', child + segs'[..i - 1]);
        }
        if BlockedBy(t', child, segs') {
          var i :| 1 <= i < |segs'| && IsFileAt(t', child + segs'[..i]);
          assert IsFileAt(t, dir + segs[..i + 1]);
        }
      }
  }

  lemma AttachWellFormed(t: Tree, p: Path, leaf: Node)
    requires WellFormed(t) && p != [] && IsDirAt(t, p[..|p| - 1])
    ensures WellFormed(Attach(t, p, leaf))
  {
    var r := Attach(t, p, leaf);
    forall k | k in r && k != []
      ensures IsDirAt(r, k[..|k| - 1])
    {
      var parent := k[..|k| - 1];
      if k != p {
        assert parent == p ==> Below(p, k);
        assert IsDirAt(t, parent);
      }
    }
  }

  /** Registering keeps the tree well formed. */
  lemma PlaceWellFormed(t: Tree, file: string, leaf: Node)
    requires WellFormed(t)
    ensures WellFormed(Place(t, file, leaf).tree)
  {
    WalkWellFormed(t, [], file);
    var w := WalkFrom(t, [], file);
    if w.Reached? {
      var p := w.dir + [w.name];
      assert p[..|p| - 1] == w.dir;
      AttachWellFormed(w.tree, p, leaf);
    }
  }

  /** A successful registration puts the leaf at the path its target names,
      and every name before the last is a directory. */
  lemma PlaceLeaf(t: Tree, file: string, leaf: Node)
    requires WellFormed(t)
    ensures var o := Place(t, file, leaf);
            o.Placed? ==>
              && o.path == Segments(file)
              && o.path in o.tree && o.tree[o.path] == leaf
              && forall i :: 0 <= i < |o.path| ==> IsDirAt(o.tree, o.path[..i])
  {
    WalkPath(t, [], file);
    WalkWellFormed(t, [], file);
    PlaceWellFormed(t, file, leaf);
    var o := Place(t, file, leaf);
    if o.Placed? {
      forall i | 0 <= i < |o.path|
        ensures IsDirAt(o.tree, o.path[..i])
      {
        DirectoriesAbove(o.tree, o.path, i);
      }
    }
  }

  lemma {:induction false} DirectoriesAbove(t: Tree, p: Path, i: nat)
    requires WellFormed(t) && p in t && i < |p|
    ensures IsDirAt(t, p[..i])
    decreases |p| - i
  {
    var parent := p[..|p| - 1];
    assert IsDirAt(t, parent);
    if i < |parent| {
      DirectoriesAbove(t, parent, i);
      assert parent[..i] == p[..i];
    }
  }

  /** Registration fails exactly when a directory name of the target is
      already a regular file. */
  lemma PlaceFailsIff(t: Tree, file: string, leaf: Node)
    ensures Place(t, file, leaf).Failed? <==> BlockedBy(t, [], Segments(file))
  {
    WalkBlocked(t, [], file);
  }

  /** Get-or-create: every node already in the tree outside the target's own
      place keeps its value (an existing directory is reused, not replaced);
      the only new nodes are 0777 directories above the target and the target
      itself. A failed registration has still created the directories it got
      through. */
  lemma PlaceReuses(t: Tree, file: string, leaf: Node)
    ensures var o := Place(t, file, leaf);
            && (o.Placed? ==> forall k :: k in t && k != o.path && !Below(o.path, k) ==> k in o.tree && o.tree[k] == t[k])
            && (o.Failed? ==> forall k :: k in t ==> k in o.tree && o.tree[k] == t[k])
            && (forall k :: k in o.tree && k !in t ==>
                  k == Segments(file) || (Below(k, Segments(file)) && k != [] && o.tree[k] == Directory(DirectoryPerms)))
  {
    WalkPath(t, [], file);
    var w := WalkFrom(t, [], file);
    var o := Place(t, file, leaf);
    assert [] + Segments(file) == Segments(file);
    forall k | k in t
      ensures k in w.tree && w.tree[k] == t[k]
    {
      WalkKeeps(t, [], file, k);
    }
    forall k | k in o.tree && k !in t
      ensures k == Segments(file) || (Below(k, Segments(file)) && k != [] && o.tree[k] == Directory(DirectoryPerms))
    {
      if w.Reached? && k == w.dir + [w.name] {
      } else {
        WalkAdds(t, [], file, k);
      }
    }
  }

  /** Attaching where nothing lies below replaces nothing but the leaf. */
  lemma AttachLeaf(t: Tree, p: Path, leaf: Node)
    requires forall k :: k in t ==> !Below(p, k)
    ensures Attach(t, p, leaf) == t[p := leaf]
  {
  }

  function TreeAB(): Tree {
    map[[] := Directory(DirectoryPerms), ["a"] := Directory(DirectoryPerms), ["a", "b"] := Directory(DirectoryPerms)]
  }

  /** The walk of "a/b/" followed by a plain name, from a tree where "a" and
      "a/b" are missing or directories, ends in "a/b" with both present. */
  lemma WalkAB(t: Tree, name: string)
    requires |name| >= 1 && forall j :: 0 <= j < |name| ==> name[j] != '/'
    requires !IsFileAt(t, ["a"]) && !IsFileAt(t, ["a", "b"])
    ensures var t1 := if ["a"] in t then t else t[["a"] := Directory(DirectoryPerms)];
            var t2 := if ["a", "b"] in t1 then t1 else t1[["a", "b"] := Directory(DirectoryPerms)];
            WalkFrom(t, [], "a/b/" + name) == Reached(t2, ["a", "b"], name)
  {
    var s := "a/b/" + name;
    assert IndexOfFrom(s, '/', 1) == Some(1);
    assert s[..1] == "a" && s[2..] == "b/" + name;
    var s' := "b/" + name;
    assert IndexOfFrom(s', '/', 1) == Some(1);
    assert s'[..1] == "b" && s'[2..] == name;
    IndexOfFromFinds(name, '/', 1);
    WalkStep(t, [], s, 1);
    assert [] + ["a"] == ["a"];
    var t1 := if ["a"] in t then t else t[["a"] := Directory(DirectoryPerms)];
    WalkStep(t1, ["a"], s', 1);
    assert ["a"] + ["b"] == ["a", "b"];
  }

  lemma PlaceFirst(x: Node)
    ensures Place(RootOnly(), "a/b/x.txt", x) == Placed(TreeAB()[["a", "b", "x.txt"] := x], ["a", "b", "x.txt"])
  {
    var px := ["a", "b", "x.txt"];
    assert "a/b/" + "x.txt" == "a/b/x.txt";
    WalkAB(RootOnly(), "x.txt");
    assert RootOnly()[["a"] := Directory(DirectoryPerms)][["a", "b"] := Directory(DirectoryPerms)] == TreeAB();
    assert ["a", "b"] + ["x.txt"] == px;
    AttachLeaf(TreeAB(), px, x);
  }

  lemma PlaceSecond(x: Node, y: Node)
    ensures var t1 := TreeAB()[["a", "b", "x.txt"] := x];
            Place(t1, "a/b/y.txt", y) == Placed(t1[["a", "b", "y.txt"] := y], ["a", "b", "y.txt"])
  {
    var t1 := TreeAB()[["a", "b", "x.txt"] := x];
    var py := ["a", "b", "y.txt"];
    assert "a/b/" + "y.txt" == "a/b/y.txt";
    WalkAB(t1, "y.txt");
    assert ["a", "b"] + ["y.txt"] == py;
    forall k | k in t1
      ensures !Below(py, k)
    {
    }
    AttachLeaf(t1, py, y);
  }

  /** Registering "a/b/x.txt" and then "a/b/y.txt" leaves one "a" and one
      "a/b" directory holding both files. */
  lemma SharedAncestors(x: Node, y: Node)
    ensures var t1 := Place(RootOnly(), "a/b/x.txt", x);
            var t2 := Place(t1.tree, "a/b/y.txt", y);
            && t1.Placed? && t2.Placed?
            && t2.tree == TreeAB()[["a", "b", "x.txt"] := x][["a", "b", "y.txt"] := y]
            && t2.tree.Keys == {[], ["a"], ["a", "b"], ["a", "b", "x.txt"], ["a", "b", "y.txt"]}
  {
    PlaceFirst(x);
    PlaceSecond(x, y);
  }

  class TarVirtualFS {
    /** What `getPrefix` reports after the scheme; `setPrefix` rewrites it. */
    var prefix: string
    /** The name the root directory was created with; node URLs start with it. */
    const rootName: string
    var files: map<string, Registration>
    var nodes: Tree

    ghost predicate Valid()
      reads this
    {
      WellFormed(nodes) && files.Keys <= {"file"}
    }

    /** `vfsStream::setup($prefix)`: a tree of one root directory named after
        the namespace, which is an argument of the model. */
    constructor (namespace: string)
      ensures Valid()
      ensures prefix == namespace && rootName == namespace
      ensures files == map[] && nodes == RootOnly()
    {
      prefix := namespace;
      rootName := namespace;
      files := map[];
      nodes := RootOnly();
    }

    /** Changes what `GetPrefix` reports; the root directory keeps its name,
        so the URLs `AddFile` returns do not change. */
    method SetPrefix(p: string)
      modifies this
      ensures prefix == p && files == old(files) && nodes == old(nodes)
    {
      prefix := p;
    }

    /** The scheme followed by the prefix, which a reader recovers by dropping
        the scheme. */
    function GetPrefix(): (r: string)
      reads this
      ensures StartsWith(r, Scheme) && r[|Scheme|..] == prefix
    {
      Scheme + prefix
    }

    /** The URL of the root directory: the scheme followed by the name the
        root was created with. */
    function RootUrl(): (r: string)
      ensures StartsWith(r, Scheme) && r[|Scheme|..] == rootName
    {
      Scheme + rootName
    }

    /** Registers a file node with `mode` under the target path `file`,
        creating the missing directories, and returns its URL: the scheme, the
        root directory's name, '/' and the target path. The node's content proxies `realPath` when
        that is truthy and is empty otherwise. On failure (a directory name
        that is a regular file) there is no URL; the directories created so
        far and the `files` record remain. */
    method AddFile(fs: FileSystem, realPath: Source, file: string, mode: nat)
      returns (url: Option<string>, ghost leaf: Node)
      requires Valid()
      modifies this
      ensures Valid()
      ensures prefix == old(prefix)
      ensures files == old(files)["file" := Registration(realPath, mode)]
      ensures leaf.RegularFile? && leaf.mode == mode
      ensures nodes == Place(old(nodes), file, leaf).tree
      ensures url.Some? <==> Place(old(nodes), file, leaf).Placed?
      ensures url.Some? ==> url.value == RootUrl() + "/" + file
      ensures url.Some? ==> (leaf.content.Proxy? <==> IsTruthy(realPath))
      ensures url.Some? && leaf.content.Proxy? ==>
                var c := leaf.content.proxy;
                fresh(c) && c.path == realPath.path && c.fs == fs && c.handle == Unset && c.offset == 0
    {
      ghost var t0 := nodes;
      files := files["file" := Registration(realPath, mode)];
      var dir, rest, blocked := MakeDirectories(file);
      if blocked {
        leaf := RegularFile(mode, EmptyContent);
        return None, leaf;
      }
      ghost var t1 := nodes;
      var u;
      u, leaf := AttachFile(fs, realPath, mode, dir, rest);
      PlaceAtWalkEnd(t0, file, t1, dir, rest, leaf);
      NodeUrl(RootUrl(), dir + [rest], file);
      url := Some(u);
    }

    /** The end of `addFile`: the new file node, its content a proxy of
        `realPath` when that is truthy, replaces the child `rest` of `dir`. */
    method AttachFile(fs: FileSystem, realPath: Source, mode: nat, dir: Path, rest: string)
      returns (url: string, leaf: Node)
      modifies this
      ensures prefix == old(prefix) && files == old(files)
      ensures nodes == Attach(old(nodes), dir + [rest], leaf)
      ensures url == RootUrl() + JoinSlash(dir + [rest])
      ensures leaf.RegularFile? && leaf.mode == mode
      ensures leaf.content.Proxy? <==> IsTruthy(realPath)
      ensures leaf.content.Proxy? ==>
                var c := leaf.content.proxy;
                fresh(c) && c.path == realPath.path && c.fs == fs && c.handle == Unset && c.offset == 0
    {
      var content := NewContent(fs, realPath);
      leaf := RegularFile(mode, content);
      nodes := Attach(nodes, dir + [rest], leaf);
      url := RootUrl() + JoinSlash(dir + [rest]);
    }

    /** The loop of `addFile`: walks the directory names of `file` from the
        root, creating each missing one, and stops at a name that is a
        regular file (`blocked`) or at the last name, the file's, in `rest`
        below `dir`. */
    method MakeDirectories(file: string) returns (dir: Path, rest: string, blocked: bool)
      requires WellFormed(nodes)
      modifies this
      ensures WellFormed(nodes) && prefix == old(prefix) && files == old(files)
      ensures blocked ==> WalkFrom(old(nodes), [], file) == Blocked(nodes)
      ensures !blocked ==> WalkFrom(old(nodes), [], file) == Reached(nodes, dir, rest) && IsDirAt(nodes, dir)
    {
      dir := [];
      rest := file;
      var pos := IndexOfFrom(rest, '/', 1);
      while pos.Some?
        invariant WellFormed(nodes) && IsDirAt(nodes, dir)
        invariant WalkFrom(nodes, dir, rest) == WalkFrom(old(nodes), [], file)
        invariant pos == IndexOfFrom(rest, '/', 1)
        invariant prefix == old(prefix) && files == old(files)
        decreases |rest|
      {
        var child := dir + [rest[..pos.value]];
        WalkStep(nodes, dir, rest, pos.value);
        if child in nodes {
          if nodes[child].RegularFile? {
            return dir, rest, true;
          }
        } else {
          AddDirectoryWellFormed(nodes, dir, rest[..pos.value]);
          nodes := nodes[child := Directory(DirectoryPerms)];
        }
        dir := child;
        rest := rest[pos.value + 1..];
        pos := IndexOfFrom(rest, '/', 1);
      }
      blocked := false;
    }
  }

  /** A prefix set after setup changes what `getPrefix` reports but not the
      root directory's URL, which starts the URL of every file added later. */
  method PrefixKeepsUrls() returns (reported: string, rootUrl: string)
    ensures reported == "vfs://p"
    ensures rootUrl == "vfs://ns"
  {
    var vfs := new TarVirtualFS("ns");
    vfs.SetPrefix("p");
    reported := vfs.GetPrefix();
    rootUrl := vfs.RootUrl();
  }

  /** `$realPath ? new ReadOnlyFileContent($realPath) : ''`: a fresh, unopened
      proxy of the real file when the path is truthy, no content otherwise. */
  method NewContent(fs: FileSystem, realPath: Source) returns (content: Content)
    ensures content.Proxy? <==> IsTruthy(realPath)
    ensures content.Proxy? ==>
              var c := content.proxy;
              fresh(c) && c.path == realPath.path && c.fs == fs && c.handle == Unset && c.offset == 0
  {
    content := EmptyContent;
    if IsTruthy(realPath) {
      var c := new ReadOnlyFileContent(realPath.path, fs);
      content := Proxy(c);
    }
  }

  lemma AddDirectoryWellFormed(t: Tree, dir: Path, name: string)
    requires WellFormed(t) && IsDirAt(t, dir)
    ensures WellFormed(t[dir + [name] := Directory(DirectoryPerms)])
  {
    var child := dir + [name];
    assert child[..|child| - 1] == dir;
  }

  lemma NodeUrl(base: string, p: Path, file: string)
    requires JoinSlash(p) == "/" + file
    ensures base + JoinSlash(p) == base + "/" + file
  {
  }

  /** Where the walk of `file` ends, `Place` attaches the leaf, the tree stays
      well formed, and the leaf's path spells '/' and the target. */
  lemma PlaceAtWalkEnd(t0: Tree, file: string, t: Tree, dir: Path, rest: string, leaf: Node)
    requires WalkFrom(t0, [], file) == Reached(t, dir, rest)
    requires WellFormed(t) && IsDirAt(t, dir)
    ensures Place(t0, file, leaf) == Placed(Attach(t, dir + [rest], leaf), dir + [rest])
    ensures WellFormed(Attach(t, dir + [rest], leaf))
    ensures JoinSlash(dir + [rest]) == "/" + file
  {
    var p := dir + [rest];
    assert p[..|p| - 1] == dir;
    AttachWellFormed(t, p, leaf);
    WalkPath(t0, [], file);
    SegmentsJoin(file);
    assert [] + Segments(file) == p;
  }
}
