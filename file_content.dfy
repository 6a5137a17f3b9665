/** The read-only content proxy that a staged file node hands to the archive
    writer (ReadOnlyFileContent.php). It holds at most one handle on the real
    file, opens it lazily, releases it when end-of-stream is observed, and
    refuses every change to the file. */
module FileContent {
  import opened Strings

  /** The real files the proxies read, by path. Code outside the model may
      change it between two calls. */
  class FileSystem {
    var files: map<string, seq<bv8>>

    constructor (files: map<string, seq<bv8>>)
      ensures this.files == files
    {
      this.files := files;
    }
  }

  /** PHP's `$handle`: `null`, the `false` that a failed `fopen` returns, or an
      open stream resource (`is_resource` holds only of the last). */
  datatype Handle = Unset | OpenFailed | Resource

  /** The handle after `open()`: a held resource is kept, anything else is
      replaced by what `fopen` gives. */
  function AfterOpen(h: Handle, fileExists: bool): (r: Handle)
    ensures r == Resource <==> (h == Resource || fileExists)
    ensures h == Resource ==> r == h
    ensures r != Unset
  {
    if h == Resource then h else if fileExists then Resource else OpenFailed
  }

  /** The handle after `close()`: a resource is released, anything else is
      left as it was. */
  function AfterClose(h: Handle): (r: Handle)
    ensures r != Resource
    ensures h != Resource ==> r == h
  {
    if h == Resource then Unset else h
  }

  lemma OpenIsIdempotent(h: Handle, fileExists: bool)
    ensures AfterOpen(AfterOpen(h, fileExists), fileExists) == AfterOpen(h, fileExists)
  {
  }

  lemma CloseIsIdempotent(h: Handle)
    ensures AfterClose(AfterClose(h)) == AfterClose(h)
  {
  }

  function Min(a: nat, b: nat): nat {
    if a <= b then a else b
  }

  /** What `stream_get_contents($handle, $count, $offset)` reads from a plain
      file: up to `count` bytes from byte `offset`, cut at the end of the
      file; nothing when `offset` is at or past the end. */
  function Slice(data: seq<bv8>, offset: nat, count: nat): (r: seq<bv8>)
    ensures |r| == if offset >= |data| then 0 else Min(count, |data| - offset)
    ensures forall i :: 0 <= i < |r| ==> r[i] == data[offset + i]
  {
    if offset >= |data| then [] else data[offset..Min(offset + count, |data|)]
  }

  /** What `stream_get_contents($handle, null, $offset)` reads on PHP 8,
      where a `null` length means "to the end": the bytes from `offset` on. */
  function RestFrom(data: seq<bv8>, offset: nat): (r: seq<bv8>)
    ensures offset <= |data| ==> r == data[offset..]
    ensures offset > |data| ==> r == []
  {
    if offset >= |data| then [] else data[offset..]
  }

  /** `stream_get_contents($handle, $maxLength, $offset)` as PHP before 8.0
      runs it: a `null` passed for the integer length is read as 0, a length
      of 0 reads nothing, -1 reads to the end, and any other negative length
      fails. */
  function LegacyStreamGetContents(data: seq<bv8>, maxLength: Option<int>, offset: nat): Option<seq<bv8>> {
    var length := if maxLength.None? then 0 else maxLength.value;
    if length < -1 then None
    else if length == -1 then Some(RestFrom(data, offset))
    else Some(Slice(data, offset, length as nat))
  }

  /** On PHP before 8.0, `content()` (`stream_get_contents($h, null, 0)`) and
      `readUntilEnd()` (`stream_get_contents($h, null, bytesRead())`) give the
      empty string, whatever the file holds. */
  lemma LegacyContentReadsNothing(data: seq<bv8>, offset: nat)
    requires data != []
    ensures LegacyStreamGetContents(data, None, 0) == Some([])
    ensures LegacyStreamGetContents(data, None, 0) != Some(data)
    ensures LegacyStreamGetContents(data, None, offset) == Some([])
  {
  }

  class ReadOnlyFileContent {
    /** The real file's path. */
    const path: string
    const fs: FileSystem
    var handle: Handle
    /** The parent SeekableFileContent's cursor, `bytesRead()`. */
    var offset: nat

    constructor (path: string, fs: FileSystem)
      ensures this.path == path && this.fs == fs
      ensures handle == Unset && offset == 0
    {
      this.path := path;
      this.fs := fs;
      handle := Unset;
      offset := 0;
    }

    predicate FileExists()
      reads fs
    {
      path in fs.files
    }

    /** The real file's bytes as they are now (none for a missing file). */
    function Data(): seq<bv8>
      reads fs
    {
      if path in fs.files then fs.files[path] else []
    }

    method Open()
      modifies this
      ensures handle == AfterOpen(old(handle), FileExists())
      ensures offset == old(offset)
    {
      if handle != Resource {
        handle := if path in fs.files then Resource else OpenFailed;
      }
    }

    method Close()
      modifies this
      ensures handle == AfterClose(old(handle))
      ensures offset == old(offset)
    {
      if handle == Resource {
        handle := Unset;
      }
    }

    /** The parent's `eof()`: `size() <= bytesRead()`. For a missing file
        `size()` is `false`; PHP compares a bool with an integer as two
        bools, and `false <= b` holds for every bool, so this is true. */
    predicate ParentEof()
      reads this, fs
    {
      path !in fs.files || |fs.files[path]| <= offset
    }

    /** End of stream as the parent reports it; when it holds, the handle has
        been released. */
    method Eof() returns (eof: bool)
      modifies this
      ensures eof == old(ParentEof())
      ensures handle == if eof then AfterClose(old(handle)) else old(handle)
      ensures offset == old(offset)
    {
      eof := ParentEof();
      if eof {
        Close();
      }
    }

    /** `filesize`, asked of the file system on every call: the current
        length, or `false` (None) when the file does not exist. */
    function Size(): (n: Option<nat>)
      reads fs
      ensures n.Some? <==> FileExists()
      ensures n.Some? ==> n.value == |Data()|
    {
      if path in fs.files then Some(|fs.files[path]|) else None
    }

    /** Opens the handle if needed and reads `count` bytes from `from`; the
        handle stays open. A failed `fopen` makes the read fail (None). */
    method DoRead(from: nat, count: nat) returns (data: Option<seq<bv8>>)
      modifies this
      ensures handle == AfterOpen(old(handle), FileExists())
      ensures offset == old(offset)
      ensures data.Some? <==> handle == Resource
      ensures data.Some? ==> data.value == Slice(Data(), from, count)
    {
      Open();
      if handle == Resource {
        data := Some(Slice(Data(), from, count));
      } else {
        data := None;
      }
    }

    /** The parent's `read($count)`: `doRead` at the cursor, then the cursor
        moves on by `count`. */
    method Read(count: nat) returns (data: Option<seq<bv8>>)
      modifies this
      ensures handle == AfterOpen(old(handle), FileExists())
      ensures offset == old(offset) + count
      ensures data.Some? <==> handle == Resource
      ensures data.Some? ==> data.value == Slice(Data(), old(offset), count)
    {
      data := DoRead(offset, count);
      offset := offset + count;
    }

    /** Writing is accepted and ignored. */
    method DoWrite(data: seq<bv8>, at: nat, length: nat)
      ensures unchanged(this) && unchanged(fs)
    {
    }

    /** The whole file from byte 0, whatever the cursor; it needs the handle
        to be open and fails otherwise. */
    method Content() returns (data: Option<seq<bv8>>)
      ensures data.Some? <==> handle == Resource
      ensures data.Some? ==> data.value == Data()
    {
      if handle == Resource {
        data := Some(RestFrom(Data(), 0));
      } else {
        data := None;
      }
    }

    /** Truncation is always refused. */
    method Truncate(size: int) returns (ok: bool)
      ensures !ok
    {
      ok := false;
    }

    /** The bytes from the cursor to the end of the file, through the open
        handle. */
    method ReadUntilEnd() returns (data: Option<seq<bv8>>)
      ensures data.Some? <==> handle == Resource
      ensures data.Some? && offset <= |Data()| ==> data.value == Data()[offset..]
      ensures data.Some? && offset > |Data()| ==> data.value == []
    {
      if handle == Resource {
        data := Some(RestFrom(Data(), offset));
      } else {
        data := None;
      }
    }
  }

  /** A full read followed by the end-of-stream check leaves no handle
      behind, without an explicit close; the bytes read are the file's, and a
      later read opens the file again. */
  method FullReadReleasesHandle(fs: FileSystem, path: string)
    returns (whole: Option<seq<bv8>>, eof: bool, released: bool, after: Option<seq<bv8>>, reopened: bool)
    requires path in fs.files
    ensures whole == Some(fs.files[path])
    ensures eof && released
    ensures after == Some([]) && reopened
  {
    var c := new ReadOnlyFileContent(path, fs);
    var size := c.Size();
    whole := c.Read(size.value);
    assert Slice(c.Data(), 0, size.value) == fs.files[path][0..|fs.files[path]|] == fs.files[path];
    eof := c.Eof();
    released := c.handle != Resource;
    after := c.Read(1);
    reopened := c.handle == Resource;
  }

  /** `size()` follows the file as it changes, and `content()` ignores the
      cursor while `readUntilEnd()` starts at it. */
  method SizeIsLive(fs: FileSystem, path: string)
    returns (first: Option<seq<bv8>>, whole: Option<seq<bv8>>, rest: Option<seq<bv8>>, size: Option<nat>)
    modifies fs
    ensures first == Some([1, 2]) && whole == Some([1, 2, 3]) && rest == Some([3])
    ensures size == Some(5)
  {
    fs.files := fs.files[path := [1, 2, 3]];
    var c := new ReadOnlyFileContent(path, fs);
    first := c.Read(2);
    assert Slice([1, 2, 3], 0, 2) == [1, 2];
    whole := c.Content();
    rest := c.ReadUntilEnd();
    fs.files := fs.files[path := [1, 2, 3, 4, 5]];
    size := c.Size();
  }
}
