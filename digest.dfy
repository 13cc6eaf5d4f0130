/** The digest engine: `calculate_md5`, which streams a file through an
    MD5 accumulator in fixed-size chunks and turns a failed `open` or `read`
    into `None`. */
module Digest {
  import opened Common

  /** The size passed to every `file.read` call. */
  const ChunkSize: nat := 4096

  /** The exceptions `open` and `read` can raise. */
  datatype IoError =
    | NotFound               // the path vanished after the walk
    | AccessDenied           // permission denied, or the path is a directory
    | ReadFault(offset: nat) // an I/O error while reading the byte at `offset`

  datatype Result<T> = Ok(value: T) | Err(error: IoError)

  /** What the filesystem holds at a path when it is opened. A regular file
      has its bytes and, optionally, the offset of a byte whose read fails. */
  datatype FileNode =
    | Regular(content: seq<byte>, fault: Option<nat>)
    | Unreadable

  type FileSystem = map<Path, FileNode>

  /** The faulty offset, if any, lies in `[lo, hi)`. */
  predicate FaultWithin(fault: Option<nat>, lo: int, hi: int) {
    fault.Some? && lo <= fault.value < hi
  }

  /** The bytes of a list of chunks, one after the other. */
  function Concat(chunks: seq<seq<byte>>): seq<byte> {
    if chunks == [] then [] else chunks[0] + Concat(chunks[1..])
  }

  lemma {:induction false} ConcatAppend(xs: seq<seq<byte>>, ys: seq<seq<byte>>)
    ensures Concat(xs + ys) == Concat(xs) + Concat(ys)
  {
    if xs == [] {
      assert xs + ys == ys;
    } else {
      assert (xs + ys)[1..] == xs[1..] + ys;
      ConcatAppend(xs[1..], ys);
    }
  }

  /** The successive non-empty results of `file.read(n)` on the bytes `s`:
      together they are exactly `s`, in order. */
  function Chunks(s: seq<byte>, n: nat): (chunks: seq<seq<byte>>)
    requires n > 0
    ensures Concat(chunks) == s
    decreases |s|
  {
    if |s| == 0 then []
    else if |s| <= n then
      assert Concat([s]) == s + Concat([]);
      [s]
    else
      var rest := Chunks(s[n..], n);
      assert ([s[..n]] + rest)[1..] == rest;
      assert s[..n] + s[n..] == s;
      [s[..n]] + rest
  }

  /** Every chunk is non-empty and at most `n` bytes long, and all but the
      last are exactly `n` bytes long: no read returns a short chunk before
      the end of the file. */
  lemma {:induction false} ChunkSizes(s: seq<byte>, n: nat)
    requires n > 0
    ensures forall i | 0 <= i < |Chunks(s, n)| :: 0 < |Chunks(s, n)[i]| <= n
    ensures forall i | 0 <= i < |Chunks(s, n)| - 1 :: |Chunks(s, n)[i]| == n
    decreases |s|
  {
    if |s| > n {
      ChunkSizes(s[n..], n);
      var rest := Chunks(s[n..], n);
      assert Chunks(s, n) == [s[..n]] + rest;
      forall i | 0 < i < |Chunks(s, n)| ensures Chunks(s, n)[i] == rest[i - 1] { }
    }
  }

  /** Taking one chunk off the front of the unread bytes. */
  lemma ChunksStep(s: seq<byte>, pos: nat, n: nat)
    requires n > 0 && pos < |s|
    ensures Chunks(s[pos..], n) == [s[pos..Min(pos + n, |s|)]] + Chunks(s[Min(pos + n, |s|)..], n)
  {
    if |s| - pos > n {
      assert s[pos..][..n] == s[pos..pos + n];
      assert s[pos..][n..] == s[pos + n..];
    } else {
      assert s[pos..Min(pos + n, |s|)] == s[pos..];
      assert s[Min(pos + n, |s|)..] == [];
    }
  }

  /** A file object from `open(path, "rb")`: its bytes, the offset whose read
      fails (if any) and the current read position. */
  class BinaryFile {
    const content: seq<byte>
    const fault: Option<nat>
    var pos: nat

    ghost predicate Valid()
      reads this
    {
      pos <= |content|
    }

    constructor (content: seq<byte>, fault: Option<nat>)
      ensures Valid()
      ensures this.content == content && this.fault == fault && pos == 0
    {
      this.content := content;
      this.fault := fault;
      pos := 0;
    }

    /** `file.read(size)`: up to `size` bytes from the current position, the
        empty sequence at end of file, or an exception when the faulty byte
        is among those it would return (the position then stays put). */
    method Read(size: nat) returns (r: Result<seq<byte>>)
      requires Valid()
      modifies this
      ensures Valid()
      ensures var end := Min(old(pos) + size, |content|);
        if FaultWithin(fault, old(pos), end)
        then r == Err(ReadFault(fault.value)) && pos == old(pos)
        else r == Ok(content[old(pos)..end]) && pos == end
    {
      var end := Min(pos + size, |content|);
      if FaultWithin(fault, pos, end) {
        r := Err(ReadFault(fault.value));
      } else {
        r := Ok(content[pos..end]);
        pos := end;
      }
    }
  }

  /** `open(path, "rb")` against the filesystem as it is at hashing time. */
  method Open(fs: FileSystem, path: Path) returns (r: Result<BinaryFile>)
    ensures r.Ok? <==> path in fs && fs[path].Regular?
    ensures r.Err? ==> r.error == (if path in fs then AccessDenied else NotFound)
    ensures r.Ok? ==> fresh(r.value) && r.value.Valid() && r.value.pos == 0
                      && r.value.content == fs[path].content && r.value.fault == fs[path].fault
  {
    if path !in fs {
      return Err(NotFound);
    }
    match fs[path]
    case Unreadable =>
      r := Err(AccessDenied);
    case Regular(content, fault) =>
      var file := new BinaryFile(content, fault);
      r := Ok(file);
  }

  /** A `hashlib.md5()` object. Its state is abstracted as the bytes it has
      absorbed; `md5` is the digest of a whole message, whose internals are
      not modelled. `updates` records every chunk passed to `update`. */
  class Md5Hasher {
    const md5: seq<byte> -> Checksum
    var absorbed: seq<byte>
    ghost var updates: seq<seq<byte>>

    ghost predicate Valid()
      reads this
    {
      absorbed == Concat(updates)
    }

    constructor (md5: seq<byte> -> Checksum)
      ensures Valid()
      ensures this.md5 == md5 && absorbed == [] && updates == []
    {
      this.md5 := md5;
      absorbed := [];
      updates := [];
    }

    /** `hash_md5.update(chunk)` */
    method Update(chunk: seq<byte>)
      requires Valid()
      modifies this
      ensures Valid()
      ensures absorbed == old(absorbed) + chunk && updates == old(updates) + [chunk]
    {
      ConcatAppend(updates, [chunk]);
      assert Concat([chunk]) == chunk + Concat([]);
      absorbed := absorbed + chunk;
      updates := updates + [chunk];
    }

    /** `hash_md5.hexdigest()`: the digest of every chunk passed to
        `update`, joined in the order they were passed. */
    function HexDigest(): (d: Checksum)
      requires Valid()
      reads this
      ensures d == md5(Concat(updates))
    {
      md5(absorbed)
    }
  }

  /** The loop `for chunk in iter(lambda: file.read(4096), b""): hash_md5.update(chunk)`.
      It succeeds exactly when no unread byte is faulty; then every chunk of
      the unread bytes has been fed, in order, and the file is at its end. */
  method HashChunks(file: BinaryFile, hasher: Md5Hasher) returns (r: Result<()>)
    requires file.Valid() && hasher.Valid()
    modifies file, hasher
    ensures file.Valid() && hasher.Valid()
    ensures r.Ok? <==> !FaultWithin(file.fault, old(file.pos), |file.content|)
    ensures r.Err? ==> r.error == ReadFault(file.fault.value)
    ensures r.Ok? ==> file.pos == |file.content|
    ensures r.Ok? ==> hasher.updates == old(hasher.updates) + Chunks(file.content[old(file.pos)..], ChunkSize)
    ensures r.Ok? ==> hasher.absorbed == old(hasher.absorbed) + file.content[old(file.pos)..]
  {
    ghost var start, fed, hashed := file.pos, hasher.updates, hasher.absorbed;
    var content := file.content;
    while true
      invariant file.Valid() && hasher.Valid()
      invariant start <= file.pos
      invariant !FaultWithin(file.fault, start, file.pos)
      invariant hasher.updates + Chunks(content[file.pos..], ChunkSize) == fed + Chunks(content[start..], ChunkSize)
      invariant hasher.absorbed == hashed + content[start..file.pos]
      decreases |content| - file.pos
    {
      ghost var before := file.pos;
      var chunk := file.Read(ChunkSize);
      if chunk.Err? {
        return Err(chunk.error);
      }
      if chunk.value == [] {
        EndOfFile(content, start, file.pos);
        return Ok(());
      }
      ChunksStep(content, before, ChunkSize);
      FedOneChunk(hasher.updates, content, start, before, file.pos);
      hasher.Update(chunk.value);
    }
  }

  /** At end of file the unread part is empty and the read part is everything. */
  lemma EndOfFile(content: seq<byte>, start: nat, pos: nat)
    requires start <= pos == |content|
    ensures content[pos..] == [] && content[start..pos] == content[start..]
  {
  }

  /** Feeding the chunk `content[before..after]` moves it from the unread
      chunks to the fed ones, and extends the read bytes by it. */
  lemma FedOneChunk(updates: seq<seq<byte>>, content: seq<byte>, start: nat, before: nat, after: nat)
    requires start <= before < after <= |content|
    requires Chunks(content[before..], ChunkSize) == [content[before..after]] + Chunks(content[after..], ChunkSize)
    ensures updates + Chunks(content[before..], ChunkSize)
            == (updates + [content[before..after]]) + Chunks(content[after..], ChunkSize)
    ensures content[start..after] == content[start..before] + content[before..after]
  {
  }

  /** The checksum `calculate_md5` is to return for `path`: the digest of the
      whole file when it opens and every byte reads, `None` otherwise. */
  function Md5Of(fs: FileSystem, path: Path, md5: seq<byte> -> Checksum): Option<Checksum> {
    if path in fs && fs[path].Regular? && !FaultWithin(fs[path].fault, 0, |fs[path].content|)
    then Some(md5(fs[path].content))
    else None
  }

  /** `calculate_md5(file_path)`: open, feed 4096-byte chunks until the empty
      read, return the hex digest; an exception from `open` or `read` yields `None`. */
  method CalculateMd5(fs: FileSystem, path: Path, md5: seq<byte> -> Checksum) returns (r: Option<Checksum>)
    ensures r == Md5Of(fs, path, md5)
  {
    var handle := Open(fs, path);
    if handle.Err? {
      return None;
    }
    var file := handle.value;
    assert file.pos == 0 && file.content == fs[path].content && file.fault == fs[path].fault;
    var hasher := new Md5Hasher(md5);
    var streamed := HashChunks(file, hasher);
    if streamed.Err? {
      assert FaultWithin(fs[path].fault, 0, |fs[path].content|);
      return None;
    }
    assert file.content[0..] == file.content;
    assert hasher.absorbed == fs[path].content;
    r := Some(hasher.HexDigest());
  }

  /** The checksum depends on the bytes alone, not on the path: two readable
      files with the same content get the same checksum. */
  lemma SameContentSameChecksum(fs: FileSystem, p: Path, q: Path, md5: seq<byte> -> Checksum)
    requires p in fs && q in fs && fs[p].Regular? && fs[q].Regular?
    requires !FaultWithin(fs[p].fault, 0, |fs[p].content|) && !FaultWithin(fs[q].fault, 0, |fs[q].content|)
    requires fs[p].content == fs[q].content
    ensures Md5Of(fs, p, md5).Some? && Md5Of(fs, p, md5) == Md5Of(fs, q, md5)
  {
  }
}
