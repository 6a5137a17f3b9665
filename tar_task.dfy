/** The tar task's own staging logic (TarTask.php): the compression name, the
    separator rewrite of `normalizePath`, the remove-prefix normalisation and
    stripping of `addFiles`, and the loop that stages every file in a fresh
    TarVirtualFS before the archive writer is called. */
module Tar {
  import opened Strings
  import opened FileContent
  import opened VirtualFS

  /** The archive writer's name for a compression mode: "gz" for "gzip",
      "bz2" for "bzip2", and none (PHP's `null`) for "none" and every other
      name. */
  function CompressionFor(mode: string): (r: Option<string>)
    ensures r == Some("gz") <==> mode == "gzip"
    ensures r == Some("bz2") <==> mode == "bzip2"
    ensures r.None? <==> mode != "gzip" && mode != "bzip2"
  {
    if mode == "gzip" then Some("gz")
    else if mode == "bzip2" then Some("bz2")
    else None
  }

  /** The names `setCompression` accepts without a warning. */
  predicate IsKnownCompression(mode: string) {
    mode == "gzip" || mode == "bzip2" || mode == "none"
  }

  predicate HasBackslash(s: string) {
    exists i :: 0 <= i < |s| && s[i] == '\\'
  }

  /** PHP's `strtr($path, '\\', '/')`: every backslash becomes a slash. */
  function SwapSeparators(s: string): (r: string)
    ensures |r| == |s|
    ensures forall i :: 0 <= i < |s| ==> r[i] == if s[i] == '\\' then '/' else s[i]
  {
    if s == [] then [] else [if s[0] == '\\' then '/' else s[0]] + SwapSeparators(s[1..])
  }

  /** The test `normalizePath` makes before rewriting: the first backslash
      lies after position 0, or the first character is a backslash. */
  predicate WindowsGuard(path: string) {
    || (match IndexOfFrom(path, '\\', 0) case Some(i) => i > 0 case None => false)
    || (path != [] && path[0] == '\\')
  }

  /** `normalizePath`: on Windows (the `OS_WINDOWS` constant, a parameter
      here) a path with a backslash has its separators rewritten; the second
      argument callers pass is not read. */
  function NormalizePath(path: string, osWindows: bool): string {
    if osWindows && WindowsGuard(path) then SwapSeparators(path) else path
  }

  /** The two-part test is a roundabout "contains a backslash". */
  lemma GuardIffBackslash(path: string)
    ensures WindowsGuard(path) <==> HasBackslash(path)
  {
    IndexOfFromFinds(path, '\\', 0);
  }

  /** On Windows every backslash becomes '/', and every other character and
      the length stay; elsewhere nothing changes. */
  lemma NormalizePathMaps(path: string, osWindows: bool)
    ensures var r := NormalizePath(path, osWindows);
            && |r| == |path|
            && forall i :: 0 <= i < |path| ==> r[i] == if osWindows && path[i] == '\\' then '/' else path[i]
  {
    GuardIffBackslash(path);
  }

  /** The path comes back unchanged exactly when the system is not Windows or
      the path has no backslash. */
  lemma NormalizePathUnchangedIff(path: string, osWindows: bool)
    ensures NormalizePath(path, osWindows) == path <==> !osWindows || !HasBackslash(path)
  {
    NormalizePathMaps(path, osWindows);
    if osWindows && HasBackslash(path) {
      var i :| 0 <= i < |path| && path[i] == '\\';
      assert NormalizePath(path, osWindows)[i] != path[i];
    }
  }

  /** On Windows no backslash survives. */
  lemma NormalizePathNoBackslash(path: string)
    ensures !HasBackslash(NormalizePath(path, true))
  {
    NormalizePathMaps(path, true);
  }

  lemma NormalizePathIdempotent(path: string, osWindows: bool)
    ensures NormalizePath(NormalizePath(path, osWindows), osWindows) == NormalizePath(path, osWindows)
  {
    if osWindows {
      NormalizePathNoBackslash(path);
    }
    NormalizePathUnchangedIff(NormalizePath(path, osWindows), osWindows);
  }

  /** The remove-prefix of the set-mode branch: normalised, then given a
      trailing '/' unless it is empty or already ends with one. */
  function NormalizeRemovePrefix(removePrefix: string, osWindows: bool): string {
    var n := NormalizePath(removePrefix, osWindows);
    if n != "" && n[|n| - 1] != '/' then n + "/" else n
  }

  /** An empty remove-prefix stays empty and only an empty one is empty; a
      non-empty one ends with '/' and is the normalised prefix with at most a
      '/' added. */
  lemma RemovePrefixShape(removePrefix: string, osWindows: bool)
    ensures var r := NormalizeRemovePrefix(removePrefix, osWindows);
            var n := NormalizePath(removePrefix, osWindows);
            && (r == "" <==> removePrefix == "")
            && (r != "" ==> r[|r| - 1] == '/')
            && (r == n || r == n + "/")
  {
    NormalizePathMaps(removePrefix, osWindows);
  }

  /** Normalising an already normalised remove-prefix changes nothing. */
  lemma RemovePrefixStable(removePrefix: string, osWindows: bool)
    ensures var r := NormalizeRemovePrefix(removePrefix, osWindows);
            NormalizeRemovePrefix(r, osWindows) == r
  {
    var n := NormalizePath(removePrefix, osWindows);
    var r := NormalizeRemovePrefix(removePrefix, osWindows);
    RemovePrefixShape(removePrefix, osWindows);
    if osWindows {
      NormalizePathNoBackslash(removePrefix);
      assert !HasBackslash(r) by {
        if r != n {
          assert r == n + "/";
          forall i | 0 <= i < |r|
            ensures r[i] != '\\'
          {
            if i < |n| {
              assert r[i] == n[i];
            }
          }
        }
      }
    }
    NormalizePathUnchangedIff(r, osWindows);
  }

  /** The prefix is cut off exactly when it is non-empty and the path starts
      with it; what remains is the rest of the path. */
  function StripPrefix(file: string, removePrefix: string): (r: string)
    ensures |removePrefix| > 0 && StartsWith(file, removePrefix) ==> removePrefix + r == file
    ensures r == file <==> !(|removePrefix| > 0 && StartsWith(file, removePrefix))
  {
    if |removePrefix| > 0 && StartsWith(file, removePrefix) then file[|removePrefix|..] else file
  }

  /** The target path a file is staged under: normalised, then stripped of
      the (normalised) remove-prefix. */
  function StagedPath(file: string, removePrefix: string, osWindows: bool): string {
    StripPrefix(NormalizePath(file, osWindows), removePrefix)
  }

  /** A file under the remove-prefix directory is staged under its path
      relative to that directory, whichever separators spelled either. */
  lemma StagedPathRelative(dir: string, relative: string)
    requires dir != "" && dir[|dir| - 1] != '/' && dir[|dir| - 1] != '\\'
    ensures var rp := NormalizeRemovePrefix(dir, true);
            StagedPath(dir + "\\" + relative, rp, true) == NormalizePath(relative, true)
  {
    var n := NormalizePath(dir, true);
    var rp := NormalizeRemovePrefix(dir, true);
    var file := dir + "\\" + relative;
    var nf := NormalizePath(file, true);
    NormalizePathMaps(dir, true);
    NormalizePathMaps(file, true);
    NormalizePathMaps(relative, true);
    assert n[|n| - 1] != '/';
    assert rp == n + "/";
    assert nf == rp + NormalizePath(relative, true) by {
      forall i | 0 <= i < |nf|
        ensures nf[i] == (rp + NormalizePath(relative, true))[i]
      {
        if i < |dir| {
          assert file[i] == dir[i];
        } else if i > |dir| {
          assert file[i] == relative[i - |dir| - 1];
        }
      }
    }
    assert StartsWith(nf, rp) by {
      assert nf[..|rp|] == rp;
    }
    assert nf[|rp|..] == NormalizePath(relative, true);
  }

  /** The options array `addFiles` receives; a missing key is None. */
  datatype Options = Options(addPrefix: Option<string>, removePrefix: Option<string>, setMode: Option<nat>)

  /** The arguments handed to the archive writer's `addModify`. */
  datatype AddModify = AddModify(files: seq<string>, addPrefix: string, removePrefix: string)

  /** `isset($options[k]) ? $options[k] : ''`. */
  function OrEmpty(o: Option<string>): (r: string)
    ensures o.Some? ==> r == o.value
    ensures o.None? ==> r == ""
  {
    if o.Some? then o.value else ""
  }

  class TarTask {
    /** The archive writer's compression argument; None is PHP's `null`. */
    var compression: Option<string>

    constructor ()
      ensures compression == None
    {
      compression := None;
    }

    /** Stores the compression for `mode` and reports whether the name was
        unknown, the case in which the task logs a warning. */
    method SetCompression(mode: string) returns (warned: bool)
      modifies this
      ensures compression == CompressionFor(mode)
      ensures warned <==> !IsKnownCompression(mode)
    {
      compression := CompressionFor(mode);
      warned := !IsKnownCompression(mode);
    }

    /** Stages `files` and returns what `addModify` is called with. Without a
        mode the lists pass through. With one, every file is registered in a
        fresh TarVirtualFS under its staged path and replaced, at its own
        index, by the URL of its virtual node, and the remove-prefix becomes
        the scheme followed by the namespace (`getPrefix`). A registration that fails raises an Error in
        PHP, so `addModify` is not called (None). */
    method AddFiles(fs: FileSystem, files: seq<string>, options: Options, osWindows: bool, namespace: string)
      returns (call: Option<AddModify>, vfs: TarVirtualFS)
      ensures fresh(vfs) && vfs.Valid() && vfs.prefix == namespace && vfs.rootName == namespace
      ensures options.setMode.None? ==>
                && call == Some(AddModify(files, OrEmpty(options.addPrefix), OrEmpty(options.removePrefix)))
                && vfs.nodes == RootOnly() && vfs.files == map[]
      ensures call.None? ==> options.setMode.Some?
      ensures options.setMode.Some? && call.Some? ==>
                var rp := NormalizeRemovePrefix(OrEmpty(options.removePrefix), osWindows);
                && |call.value.files| == |files|
                && (forall i :: 0 <= i < |files| ==>
                      call.value.files[i] == Scheme + namespace + "/" + StagedPath(files[i], rp, osWindows))
                && call.value.addPrefix == OrEmpty(options.addPrefix)
                && call.value.removePrefix == Scheme + namespace
      ensures options.setMode.Some? && call.Some? && |files| > 0 ==>
                vfs.files == map["file" := Registration(RealPath(files[|files| - 1]), options.setMode.value)]
    {
      var addPrefix := OrEmpty(options.addPrefix);
      var removePrefix := OrEmpty(options.removePrefix);
      vfs := new TarVirtualFS(namespace);
      if options.setMode.None? {
        call := Some(AddModify(files, addPrefix, removePrefix));
        return;
      }
      removePrefix := NormalizeRemovePrefix(removePrefix, osWindows);
      var staged := StageFiles(vfs, fs, files, removePrefix, options.setMode.value, osWindows);
      if staged.None? {
        return None, vfs;
      }
      call := Some(AddModify(staged.value, addPrefix, vfs.GetPrefix()));
    }

    /** The set-mode loop of `addFiles`: each file, normalised and stripped,
        is registered in `vfs` and its entry replaced by the node's URL. */
    method StageFiles(vfs: TarVirtualFS, fs: FileSystem, files: seq<string>, removePrefix: string, mode: nat, osWindows: bool)
      returns (out: Option<seq<string>>)
      requires vfs.Valid() && vfs.files == map[]
      modifies vfs
      ensures vfs.Valid() && vfs.prefix == old(vfs.prefix)
      ensures out.Some? ==>
                && |out.value| == |files|
                && forall i :: 0 <= i < |files| ==>
                     out.value[i] == vfs.RootUrl() + "/" + StagedPath(files[i], removePrefix, osWindows)
      ensures out.Some? && |files| > 0 ==> vfs.files == map["file" := Registration(RealPath(files[|files| - 1]), mode)]
      ensures out.Some? && |files| == 0 ==> vfs.files == map[] && vfs.nodes == old(vfs.nodes)
    {
      var result := [];
      var base := vfs.RootUrl() + "/";
      var i := 0;
      while i < |files|
        invariant 0 <= i <= |files| && |result| == i
        invariant vfs.Valid() && vfs.prefix == old(vfs.prefix) && base == vfs.RootUrl() + "/"
        invariant forall j :: 0 <= j < i ==> result[j] == base + StagedPath(files[j], removePrefix, osWindows)
        invariant i > 0 ==> vfs.files == map["file" := Registration(RealPath(files[i - 1]), mode)]
        invariant i == 0 ==> vfs.files == map[] && vfs.nodes == old(vfs.nodes)
      {
        var url := StageFile(vfs, fs, files[i], removePrefix, mode, osWindows);
        if url.None? {
          return None;
        }
        result := result + [url.value];
        i := i + 1;
      }
      out := Some(result);
    }

    /** One pass of the loop: `$file` is the real path; its staged path is
        registered and the node's URL returned. */
    method StageFile(vfs: TarVirtualFS, fs: FileSystem, file: string, removePrefix: string, mode: nat, osWindows: bool)
      returns (url: Option<string>)
      requires vfs.Valid()
      modifies vfs
      ensures vfs.Valid() && vfs.prefix == old(vfs.prefix)
      ensures vfs.files == map["file" := Registration(RealPath(file), mode)]
      ensures url.Some? ==> url.value == vfs.RootUrl() + "/" + StagedPath(file, removePrefix, osWindows)
    {
      var target := StagedPath(file, removePrefix, osWindows);
      ghost var before := vfs.files;
      ghost var leaf;
      url, leaf := vfs.AddFile(fs, RealPath(file), target, mode);
      SoleRegistration(before, RealPath(file), mode);
    }
  }

  /** `files` only ever holds the key "file", so recording a registration
      leaves that one alone. */
  lemma SoleRegistration(m: map<string, Registration>, source: Source, mode: nat)
    requires m.Keys <= {"file"}
    ensures m["file" := Registration(source, mode)] == map["file" := Registration(source, mode)]
  {
  }

  /** With remove-prefix "/src", "/src/a.php" is staged as "a.php" and
      "/lib/a.php", which lies outside it, keeps its whole path. */
  lemma StagedExample()
    ensures NormalizeRemovePrefix("/src", false) == "/src/"
    ensures StagedPath("/src/a.php", "/src/", false) == "a.php"
    ensures StagedPath("/lib/a.php", "/src/", false) == "/lib/a.php"
  {
    assert "/src" + "/" == "/src/";
    assert "/src/a.php"[..5] == "/src/";
    assert "/src/a.php"[5..] == "a.php";
    assert "/lib/a.php"[..5][1] != "/src/"[1];
  }
}
