# phing-virtual-tar, modelled in Dafny

This project models the core of chazer/phing-virtual-tar. The extension is a
Phing tar task that stages the files it archives in a vfsStream virtual tree
first, so that every file can get the permission bits its fileset asks for.
Two pieces are modelled:

- **Path and mode staging** (`TarTask.php`):
  - the fileset mode computed from an octal string (`TarFileSet`);
  - the compression names (`setCompression`);
  - the Windows separator rewrite (`normalizePath`);
  - the remove-prefix normalisation and stripping loop of `addFiles`;
  - the virtual tree of `TarVirtualFS`. Its `addFile` cuts a target path at
    each '/', gets or creates one 0777 directory per name, and attaches a
    file node with the requested mode. The node's content is either empty
    or a proxy for the real file.
- **The read-only content proxy** (`ReadOnlyFileContent.php`). It holds at
  most one handle on the real file:
  - it opens lazily and idempotently;
  - it releases the handle when end of stream is seen;
  - it reads clipped byte slices;
  - it ignores writes and refuses truncation.

Modules:

| module | file | models |
|---|---|---|
| `Strings` | `strings.dfy` | `Option`, the prefix test, and `strpos` with a one-character needle |
| `Permissions` | `permissions.dfy` | `octdec`, bitwise or, and the `TarFileSet` class |
| `FileContent` | `file_content.dfy` | the real file system (a map from path to bytes) and the `ReadOnlyFileContent` class |
| `VirtualFS` | `virtual_fs.dfy` | the vfsStream tree and the `TarVirtualFS` class |
| `Tar` | `tar_task.dfy` | compression, `normalizePath`, the remove-prefix, and `addFiles` |

### How the tree is represented

The vfsStream tree is a map from a node's path to the node. A path is the
list of names from the root, and the root is the empty path.

- `getChild` is a lookup in that map.
- `addChild` replaces the node at that path, and the whole subtree below it
  goes too (`Attach`).
- A directory name that already names a regular file stops the walk. In PHP
  that calls `getChild`/`addChild` on a `vfsStreamFile`, which raises an
  Error. The model returns no URL and keeps the tree as it stood at that
  point: the directories already created and the `files['file']` record
  stay.
- The root directory is created with the namespace as its name (`rootName`),
  and a node's URL is "vfs://", that name and the node's path. `setPrefix`
  changes only the `prefix` field that `getPrefix` reports, so it does not
  move the URLs.

### How PHP's values are modelled

- `$realPath` follows PHP truthiness: `false`, `""` and `"0"` all give empty
  content.
- A `false` handle (failed `fopen`) and a `null` handle are kept apart. A
  missing file has no size: `filesize` gives `false`. The inherited `eof()`
  is then true, because PHP compares a bool with an int as two bools, so
  `false <= n` holds for every `n`.

## Model

| member | source | states |
|---|---|---|
| Strings.StartsWith | src/PhingVirtualTar/TarTask.php:296 | `strpos($file, $removePrefix) === 0` for a non-empty prefix; its meaning is carried by `Tar.StripPrefix` |
| Strings.IndexOfFrom | src/PhingVirtualTar/TarTask.php:422 | `strpos($file, '/', 1)`: a found position lies between the offset and the end |
| Strings.IndexOfFromFinds | src/PhingVirtualTar/TarTask.php:422 | the position found holds the needle and is the first at or after the offset; when nothing is found, no position from the offset on holds it |
| Permissions.OctDec | src/PhingVirtualTar/TarTask.php:358 | `octdec`: the octal digits read left to right, other characters skipped; its meaning is carried by `OctDecOfOctalDigits`, `OctDecSkipsNonDigit` and `ThreeDigitValue` |
| Permissions.BitOr | src/PhingVirtualTar/TarTask.php:359 | PHP's `\|` on non-negative integers; its meaning is carried by `BitOfBitOr` |
| Permissions.ModeOf | src/PhingVirtualTar/TarTask.php:359 | `0100000 \| octdec(s)`, the mode `setMode` stores; its meaning is carried by `ModeBits`, `ModeOfThreeDigits` and `ModeExamples` |
| Permissions.OctDecOfOctalDigits | src/PhingVirtualTar/TarTask.php:358 | `octdec` reads back every number written in octal digits |
| Permissions.OctDecSkipsNonDigit | src/PhingVirtualTar/TarTask.php:358 | `octdec` ignores a non-octal character wherever it stands |
| Permissions.ThreeDigitValue | src/PhingVirtualTar/TarTask.php:351-358 | three octal digits give 64·d0 + 8·d1 + d2, which is below 0o1000 |
| Permissions.BitOfBitOr | src/PhingVirtualTar/TarTask.php:359 | a bit of `a \| b` is set exactly when it is set in `a` or in `b` |
| Permissions.ModeBits | src/PhingVirtualTar/TarTask.php:359 | in `0100000 \| octdec(s)` bit 15 is always set, and every other bit is the bit of `octdec(s)` |
| Permissions.ModeOfThreeDigits | src/PhingVirtualTar/TarTask.php:356-360 | for a 3-digit octal string the mode is 0o100000 plus the permission, and its low nine bits are the permission |
| Permissions.ModeExamples | src/PhingVirtualTar/TarTask.php:348-360 | "755" gives 0o100755, and "644" gives the default 0o100644 |
| Permissions.TarFileSet.constructor | src/PhingVirtualTar/TarTask.php:348 | the mode starts at 0o100644, and bit 15 is set |
| Permissions.TarFileSet.SetMode | src/PhingVirtualTar/TarTask.php:356-360 | the stored mode is `0100000 \| octdec(s)`, and the regular-file bit stays set |
| Permissions.TarFileSet.GetMode | src/PhingVirtualTar/TarTask.php:365-368 | returns the stored mode, which marks a regular file |
| FileContent.AfterOpen | src/PhingVirtualTar/ReadOnlyFileContent.php:27-32 | afterwards a resource is held exactly when one was held or the file exists; a held resource is kept; the handle is never left unset |
| FileContent.AfterClose | src/PhingVirtualTar/ReadOnlyFileContent.php:34-40 | afterwards no resource is held; a handle that was not a resource is left as it was |
| FileContent.OpenIsIdempotent | src/PhingVirtualTar/ReadOnlyFileContent.php:27-32 | opening twice is opening once |
| FileContent.CloseIsIdempotent | src/PhingVirtualTar/ReadOnlyFileContent.php:34-40 | closing twice is closing once |
| FileContent.Slice | src/PhingVirtualTar/ReadOnlyFileContent.php:69 | `stream_get_contents` with a length gives min(count, bytes left) bytes, each one the file's byte at offset + i, and none past the end |
| FileContent.LegacyStreamGetContents | src/PhingVirtualTar/ReadOnlyFileContent.php:89-102 | `stream_get_contents` as PHP before 8.0 runs it, where a `null` length is read as 0; its meaning is carried by `LegacyContentReadsNothing` |
| FileContent.RestFrom | src/PhingVirtualTar/ReadOnlyFileContent.php:89-102 | a `null` length on PHP 8 reads from the offset to the end of the file |
| FileContent.LegacyContentReadsNothing | src/PhingVirtualTar/ReadOnlyFileContent.php:89-102 | on PHP before 8.0 both `null`-length calls give the empty string, even for a non-empty file |
| FileContent.ReadOnlyFileContent.constructor | src/PhingVirtualTar/ReadOnlyFileContent.php:22-25 | remembers the path; no handle is held and the cursor is 0 |
| FileContent.ReadOnlyFileContent.Open | src/PhingVirtualTar/ReadOnlyFileContent.php:27-32 | the new handle is `AfterOpen` of the old one; the cursor is kept |
| FileContent.ReadOnlyFileContent.Close | src/PhingVirtualTar/ReadOnlyFileContent.php:34-40 | the new handle is `AfterClose` of the old one; the cursor is kept |
| FileContent.ReadOnlyFileContent.ParentEof | src/PhingVirtualTar/ReadOnlyFileContent.php:44 | `parent::eof()`, that is `size() <= bytesRead()`, true for a missing file; `Eof` returns it and `FullReadReleasesHandle` shows it after a full read |
| FileContent.ReadOnlyFileContent.Eof | src/PhingVirtualTar/ReadOnlyFileContent.php:42-48 | returns the inherited end-of-stream result unchanged; when it is true the handle has been released, and otherwise the handle is untouched |
| FileContent.ReadOnlyFileContent.Size | src/PhingVirtualTar/ReadOnlyFileContent.php:55-58 | present exactly when the file exists, and then equal to the file's current length |
| FileContent.ReadOnlyFileContent.DoRead | src/PhingVirtualTar/ReadOnlyFileContent.php:66-70 | opens first; gives data exactly when a resource is held, and that data is the clipped slice; the handle stays open |
| FileContent.ReadOnlyFileContent.Read | src/PhingVirtualTar/ReadOnlyFileContent.php:66-70 | the inherited `read`: `doRead` at the cursor, after which the cursor moves on by `count` |
| FileContent.ReadOnlyFileContent.DoWrite | src/PhingVirtualTar/ReadOnlyFileContent.php:79-82 | changes neither the proxy nor the file system |
| FileContent.ReadOnlyFileContent.Content | src/PhingVirtualTar/ReadOnlyFileContent.php:89-92 | needs a held resource and then gives the whole file from byte 0, whatever the cursor |
| FileContent.ReadOnlyFileContent.Truncate | src/PhingVirtualTar/ReadOnlyFileContent.php:94-97 | always refuses |
| FileContent.ReadOnlyFileContent.ReadUntilEnd | src/PhingVirtualTar/ReadOnlyFileContent.php:99-102 | needs a held resource and then gives the bytes from the cursor to the end |
| FileContent.FullReadReleasesHandle | src/PhingVirtualTar/ReadOnlyFileContent.php:42-70 | reading `size()` bytes gives the whole file; the next `eof()` is true and releases the handle; a later read opens it again |
| FileContent.SizeIsLive | src/PhingVirtualTar/ReadOnlyFileContent.php:55-102 | `size()` follows a file that grows; `content()` ignores the cursor and `readUntilEnd()` starts at it |
| VirtualFS.RootOnly | src/PhingVirtualTar/TarTask.php:404 | `vfsStream::setup` gives a well-formed tree holding only the root |
| VirtualFS.Segments | src/PhingVirtualTar/TarTask.php:422-427 | how the loop cuts a path into names; its meaning is carried by `SegmentsHaveNoSlash` and `SegmentsJoin` |
| VirtualFS.SegmentsHaveNoSlash | src/PhingVirtualTar/TarTask.php:422-427 | there is at least one name; no name, the file's own name included, has a '/' after its first character; every name but the last is non-empty, so "a//b" cannot be cut as "a", "", "b"; the first name starts with the path's first character, so a leading '/' stays in it |
| VirtualFS.SegmentsJoin | src/PhingVirtualTar/TarTask.php:422-427 | joining the names with '/' gives back '/' followed by the path, so no character is lost |
| VirtualFS.IsTruthy | src/PhingVirtualTar/TarTask.php:429 | PHP truthiness of `$realPath`; `TarVirtualFS.AddFile` makes a proxy exactly when it holds |
| VirtualFS.WalkFrom | src/PhingVirtualTar/TarTask.php:421-426 | the directory loop of `addFile`: get or create one 0777 directory per name, stopping at a regular file; its meaning is carried by `WalkPath`, `WalkKeeps`, `WalkAdds`, `WalkWellFormed` and `WalkBlocked` |
| VirtualFS.Place | src/PhingVirtualTar/TarTask.php:421-431 | the tree after one `addFile`: the walk, then the leaf attached; its meaning is carried by `PlaceWellFormed`, `PlaceLeaf`, `PlaceFailsIff` and `PlaceReuses`, and `TarVirtualFS.AddFile` is proved equal to it |
| VirtualFS.Attach | src/PhingVirtualTar/TarTask.php:427-428 | `addChild`: the leaf is at its path; the other nodes are the old ones outside the replaced subtree, with their old values |
| VirtualFS.WalkPath | src/PhingVirtualTar/TarTask.php:421-426 | a walk that gets through ends in the directory above the last name, at the path the names spell |
| VirtualFS.WalkKeeps | src/PhingVirtualTar/TarTask.php:424 | get-or-create: every node already there keeps its value |
| VirtualFS.WalkAdds | src/PhingVirtualTar/TarTask.php:424 | a node the walk adds is a 0777 directory strictly above the target |
| VirtualFS.WalkWellFormed | src/PhingVirtualTar/TarTask.php:421-426 | the walk keeps the tree well formed and ends in a directory |
| VirtualFS.WalkBlocked | src/PhingVirtualTar/TarTask.php:424 | the walk stops exactly when a directory name on the way is a regular file |
| VirtualFS.AttachWellFormed | src/PhingVirtualTar/TarTask.php:427-428 | attaching under a directory keeps the tree well formed |
| VirtualFS.PlaceWellFormed | src/PhingVirtualTar/TarTask.php:421-429 | registering a file keeps the tree well formed |
| VirtualFS.PlaceLeaf | src/PhingVirtualTar/TarTask.php:421-429 | after a successful registration the leaf sits at the path the names spell, and every node above it is a directory |
| VirtualFS.PlaceFailsIff | src/PhingVirtualTar/TarTask.php:421-429 | registration fails exactly when a directory name of the target is already a regular file |
| VirtualFS.PlaceReuses | src/PhingVirtualTar/TarTask.php:421-429 | existing nodes outside the target's place keep their values, so a directory is reused and never duplicated; the only new nodes are the target and 0777 directories above it; a failed registration keeps every old node |
| VirtualFS.PlaceAtWalkEnd | src/PhingVirtualTar/TarTask.php:427-431 | where the walk ends the leaf is attached, the tree stays well formed, and the leaf's path spells '/' and the target |
| VirtualFS.WalkAB | src/PhingVirtualTar/TarTask.php:421-426 | walking "a/b/name" reuses "a" and "a/b" when present and creates them otherwise |
| VirtualFS.PlaceFirst | src/PhingVirtualTar/TarTask.php:421-429 | "a/b/x.txt" in an empty tree creates "a" and "a/b" and puts the file under them |
| VirtualFS.PlaceSecond | src/PhingVirtualTar/TarTask.php:421-429 | "a/b/y.txt" afterwards adds only its own file |
| VirtualFS.SharedAncestors | src/PhingVirtualTar/TarTask.php:421-429 | after "a/b/x.txt" and then "a/b/y.txt" there is exactly one "a" and one "a/b", holding both files |
| VirtualFS.TarVirtualFS.constructor | src/PhingVirtualTar/TarTask.php:401-405 | the prefix and the root directory's name are both the namespace, no file is recorded, and the tree is the root alone |
| VirtualFS.TarVirtualFS.SetPrefix | src/PhingVirtualTar/TarTask.php:388-391 | replaces the prefix and nothing else; the root directory keeps the name it was created with, so only `GetPrefix` changes, not the URLs of nodes |
| VirtualFS.TarVirtualFS.GetPrefix | src/PhingVirtualTar/TarTask.php:396-399 | the result starts with "vfs://", and dropping the scheme gives the prefix |
| VirtualFS.TarVirtualFS.RootUrl | src/PhingVirtualTar/TarTask.php:404 | the URL of the root directory starts with "vfs://", and dropping the scheme gives the name the root was created with |
| VirtualFS.TarVirtualFS.AddFile | src/PhingVirtualTar/TarTask.php:414-432 | records `files['file']` as its only entry. The new tree is the one `Place` computes. There is a URL exactly when the registration succeeds, and it is the scheme, the root directory's name (not the current prefix), '/' and the target. The leaf carries the caller's mode; its content is a fresh, unopened proxy for a truthy real path and empty otherwise. |
| VirtualFS.TarVirtualFS.MakeDirectories | src/PhingVirtualTar/TarTask.php:421-426 | the directory loop of `addFile` ends where `WalkFrom` ends: blocked, with the tree as it stands, or at the last name below a directory; the tree stays well formed. The loop ends because what is left of the path shrinks each time |
| VirtualFS.TarVirtualFS.AttachFile | src/PhingVirtualTar/TarTask.php:427-431 | the new file node carries the mode, replaces the child of the same name, and its URL is the root's URL followed by its path |
| VirtualFS.NewContent | src/PhingVirtualTar/TarTask.php:429 | a fresh, unopened proxy of the real path exactly when the path is truthy |
| VirtualFS.PrefixKeepsUrls | src/PhingVirtualTar/TarTask.php:388-405 | set up as "ns" and then given the prefix "p", the object reports "vfs://p" from `getPrefix` while its root directory's URL stays "vfs://ns" |
| Tar.CompressionFor | src/PhingVirtualTar/TarTask.php:126-142 | "gzip" gives "gz" and only it does; "bzip2" gives "bz2" and only it does; every other name gives null |
| Tar.SwapSeparators | src/PhingVirtualTar/TarTask.php:331 | `strtr`: the length is kept, every backslash becomes '/', and every other character stays |
| Tar.GuardIffBackslash | src/PhingVirtualTar/TarTask.php:330 | the two-part test holds exactly when the path contains a backslash |
| Tar.NormalizePathMaps | src/PhingVirtualTar/TarTask.php:325-335 | on Windows every backslash becomes '/' while the length and every other character stay; elsewhere nothing changes |
| Tar.NormalizePathUnchangedIff | src/PhingVirtualTar/TarTask.php:325-335 | the path comes back unchanged exactly when the system is not Windows or the path has no backslash |
| Tar.NormalizePathNoBackslash | src/PhingVirtualTar/TarTask.php:327-332 | on Windows no backslash survives |
| Tar.NormalizePathIdempotent | src/PhingVirtualTar/TarTask.php:325-335 | normalising twice is normalising once |
| Tar.RemovePrefixShape | src/PhingVirtualTar/TarTask.php:286-289 | the remove-prefix is empty exactly when it was empty; a non-empty one ends with '/'; it is the normalised prefix with at most one '/' added |
| Tar.RemovePrefixStable | src/PhingVirtualTar/TarTask.php:286-289 | normalising a normalised remove-prefix changes nothing |
| Tar.NormalizePath | src/PhingVirtualTar/TarTask.php:325-335 | `normalizePath` with its literal two-part test; its meaning is carried by `GuardIffBackslash`, `NormalizePathMaps`, `NormalizePathUnchangedIff`, `NormalizePathNoBackslash` and `NormalizePathIdempotent` |
| Tar.NormalizeRemovePrefix | src/PhingVirtualTar/TarTask.php:286-289 | the remove-prefix of the set-mode branch; its meaning is carried by `RemovePrefixShape` and `RemovePrefixStable` |
| Tar.StagedPath | src/PhingVirtualTar/TarTask.php:295-298 | the target a file is staged under, normalised and then stripped; its meaning is carried by `StripPrefix`, `StagedPathRelative` and `StagedExample` |
| Tar.StripPrefix | src/PhingVirtualTar/TarTask.php:296-298 | the path is changed exactly when the prefix is non-empty and the path starts with it; then the prefix followed by the result is the path |
| Tar.StagedPathRelative | src/PhingVirtualTar/TarTask.php:286-298 | on Windows, a file `dir\rel` under the remove-prefix `dir` is staged as the normalised `rel` |
| Tar.StagedExample | src/PhingVirtualTar/TarTask.php:286-298 | with remove-prefix "/src", "/src/a.php" is staged as "a.php", and "/lib/a.php" keeps its whole path |
| Tar.OrEmpty | src/PhingVirtualTar/TarTask.php:278-279 | a missing option reads as the empty string |
| Tar.TarTask.constructor | src/PhingVirtualTar/TarTask.php:52 | there is no compression to begin with |
| Tar.TarTask.SetCompression | src/PhingVirtualTar/TarTask.php:126-142 | stores the mapped compression, and warns exactly for a name other than gzip, bzip2 and none |
| Tar.TarTask.AddFiles | src/PhingVirtualTar/TarTask.php:276-317 | without a mode, the files and both prefixes go to `addModify` unchanged and the tree holds only the root. With a mode, on success the list keeps its length and order, and entry i is the URL of file i's staged path under a fresh virtual root. The remove-prefix becomes `getPrefix()`, the scheme followed by the namespace. `files['file']` holds the last file. Only the set-mode branch can fail |
| Tar.TarTask.StageFiles | src/PhingVirtualTar/TarTask.php:293-301 | each entry is replaced, at its own index, by the URL of its staged path; the last file is the one recorded |
| Tar.TarTask.StageFile | src/PhingVirtualTar/TarTask.php:294-300 | one pass: the real path is recorded, and the URL is the root directory's URL, '/' and the normalised, stripped path |

## Left out

- `main` and `isArchiveUpToDate` are left out. They orchestrate Phing filesets, check that files exist and are writable, compare timestamps, and drive `Archive_Tar`/`PEAR` error objects, all of which is code outside this model.
- The `addModify` call on the archive writer is not modelled as an operation. `Tar.TarTask.AddFiles` returns the arguments it would receive.
- The debug loop in `addFiles` that prints `file_exists`, `stat` and `file_get_contents` for every URL is left out, because it is output only.
- The namespace `md5(microtime(true))` depends on the clock and on hashing. It is a parameter of `TarVirtualFS`'s constructor and of `AddFiles`.
- `OS_WINDOWS` is a global constant in PHP. Here it is the `osWindows` parameter.
- The real `fopen`, `fclose` and `filesize` are replaced by a map from path to bytes. A handle sees the file as it is at each call. POSIX semantics of reading through a handle after the file is removed or replaced are not modelled.
- PHP's stat cache is not modelled: `filesize` always sees the current length.
- The internals of vfsStream are left out: `setup`, the stream wrapper, the name checks of `newDirectory`/`newFile`, and `getChild`'s resolution of names that contain '/'. `newDirectory` dropping a leading '/' from a name is also not modelled. A name is kept exactly as `addFile` cuts it. In vfsStream a directory made from "/a" is stored as "a", so `getChild("/a")` does not find it and a second target under "/a/" replaces that directory, and the first target's file with it; the model reuses the directory instead. Targets that `main` builds are relative to the base directory, so this case does not arise from it.
- `url()` percent-encodes each name in real vfsStream. Here the URL is the plain join of the root directory's URL and the target path.
- The parent `SeekableFileContent` is kept only as the `offset` cursor, its `read` (`Read`) and its `eof`. Its `seek` and its write paths are left out.
- `register`/`unregister` are empty in the source and are not modelled. `virtualFiles`, which no core path calls, is not modelled. `setPrefix` is modelled; it changes only what `getPrefix` returns, because node URLs come from the root directory, which keeps the name it was created with.
- Logging, the setters, and `createTarFileSet`/`createFileSet` are left out, because they are boilerplate.
- `setMode` and `octdec` use unbounded integers. PHP's 64-bit integers, and the float `octdec` returns on overflow, are not modelled.
- `setCompression` takes a string. The loose `switch` comparison with a value that is not a string is not modelled.
- `strpos` with an offset past the end of the string gives "not found" here, as in PHP 7. PHP 8 raises a ValueError there instead. The offset is 1, so this only matters for an empty remaining path.
- `substr($s, strlen($s))` gives `false` in PHP 5 and "" from PHP 7.0 on. The model gives "". This happens for a target ending in '/', or for one equal to the remove-prefix.
- Tar.TarTask.AddFiles: does not say for which inputs a registration fails. Each call's condition is given by `VirtualFS.PlaceFailsIff` on the tree as it then stands, but the contract does not carry the chain of trees.
- Tar.TarTask.StageFile and Tar.TarTask.StageFiles: state the URLs and the file record, but not the tree. The tree after each registration is stated by `VirtualFS.TarVirtualFS.AddFile`.
- The URLs are stated, but the file mode is not read back through them: vfsStream's `stat` is left out.

## Findings

| source | as written | input that shows it | evidently intended | confidence | as-written member | corrected member |
|---|---|---|---|---|---|---|
| src/PhingVirtualTar/ReadOnlyFileContent.php:89-102 | `content()` and `readUntilEnd()` pass `null` as the length to `stream_get_contents`. Before PHP 8.0 that parameter is a plain integer, so `null` becomes 0 and nothing is read | a real file holding "abc", on PHP 7: `content()` gives "" | the whole file for `content()`, and the bytes from the cursor to the end for `readUntilEnd()`; from PHP 8.0 on `null` means "no limit" | medium; depends on the PHP version; not executed | FileContent.LegacyContentReadsNothing | FileContent.ReadOnlyFileContent.Content |
