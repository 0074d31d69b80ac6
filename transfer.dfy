/** `DatasetFile.download` (proteome_exchange/dataset.py): stream one file's
    bytes from its URI into a writable handle, 64 KiB at a time. The network
    response and the file handle are reduced to what the copy loop sees of
    them: a sequence of read results and a growable byte buffer. */
module Transfer {
  import opened Wrappers
  import Records

  newtype byte = x: int | 0 <= x < 256

  /** `chunk_size = 2 ** 16`. */
  const CHUNK_SIZE: nat := 65536

  /** The exceptions a download can raise: `URLError` (`HTTPError` is one) and
      any other (`OSError` from the file or the socket, `IncompleteRead`, ...). */
  datatype FetchError = UrlError | OtherError

  /** How one call of `DatasetFile.download` ended. */
  datatype Outcome = Done | Failed(error: FetchError)

  /** What one `source.read(chunk_size)` gives: bytes (none at the end of the
      stream), or the exception it raised. */
  datatype ReadResult = Bytes(data: seq<byte>) | ReadFailed(error: FetchError)

  /** The response object `urlopen(self.uri)` returns. `results` are the
      results of its successive reads; once they are used up, every read
      returns no bytes. */
  class Response {
    const results: seq<ReadResult>
    var next: nat

    /** A read returns at most `CHUNK_SIZE` bytes. */
    ghost predicate Valid()
      reads this
    {
      next <= |results| &&
      forall i :: 0 <= i < |results| && results[i].Bytes? ==> |results[i].data| <= CHUNK_SIZE
    }

    constructor (results: seq<ReadResult>)
      requires forall i :: 0 <= i < |results| && results[i].Bytes? ==> |results[i].data| <= CHUNK_SIZE
      ensures Valid() && this.results == results && next == 0
    {
      this.results := results;
      next := 0;
    }

    /** `source.read(chunk_size)`. */
    method Read() returns (r: ReadResult)
      requires Valid()
      modifies this
      ensures Valid()
      ensures r == ReadAt(results, old(next))
      ensures next == if old(next) < |results| then old(next) + 1 else old(next)
    {
      r := ReadAt(results, next);
      if next < |results| {
        next := next + 1;
      }
    }
  }

  /** The result of the read at position `p`; no bytes past the end. */
  function ReadAt(results: seq<ReadResult>, p: nat): ReadResult {
    if p < |results| then results[p] else Bytes([])
  }

  /** The file handle `open(destination, 'wb')` gives, or the writable
      object passed in as `destination`. Its writes always succeed. */
  class Sink {
    var written: seq<byte>
    var closed: bool

    constructor ()
      ensures written == [] && !closed
    {
      written := [];
      closed := false;
    }

    /** `fh.write(chunk)`. */
    method Write(chunk: seq<byte>)
      requires !closed
      modifies this
      ensures written == old(written) + chunk && !closed
    {
      written := written + chunk;
    }

    /** Leaving `with fh:`. */
    method Close()
      modifies this
      ensures closed && written == old(written)
    {
      closed := true;
    }
  }

  /** The chunks the copy loop writes, and the exception it stops on, if any. */
  function Copied(results: seq<ReadResult>): (r: (seq<seq<byte>>, Option<FetchError>))
    ensures |r.0| <= |results|
  {
    if results == [] then ([], None)
    else match results[0]
      case ReadFailed(e) => ([], Some(e))
      case Bytes(d) =>
        if d == [] then ([], None)
        else
          var rest := Copied(results[1..]);
          ([d] + rest.0, rest.1)
  }

  /** The copy writes the leading non-empty chunks, in order, and stops at the
      first read that returns no bytes or raises; it fails exactly when it
      stopped at a read that raised, with that read's exception. */
  lemma {:induction false} CopiedSpec(results: seq<ReadResult>)
    ensures var r := Copied(results);
      |r.0| <= |results| &&
      (forall i :: 0 <= i < |r.0| ==> results[i] == Bytes(r.0[i]) && r.0[i] != []) &&
      (r.1.Some? <==> |r.0| < |results| && results[|r.0|].ReadFailed?) &&
      (r.1.Some? ==> results[|r.0|] == ReadFailed(r.1.value)) &&
      (r.1.None? ==> |r.0| == |results| || results[|r.0|] == Bytes([]))
  {
    if results != [] && results[0].Bytes? && results[0].data != [] {
      CopiedSpec(results[1..]);
    }
  }

  /** The bytes of a sequence of chunks, in order. */
  function Concat(chunks: seq<seq<byte>>): seq<byte> {
    if chunks == [] then [] else Concat(chunks[..|chunks| - 1]) + chunks[|chunks| - 1]
  }

  /** Appending a chunk appends its bytes. */
  lemma ConcatSnoc(chunks: seq<seq<byte>>, c: seq<byte>)
    ensures Concat(chunks + [c]) == Concat(chunks) + c
  {
    assert (chunks + [c])[..|chunks|] == chunks;
  }

  /** A stream without empty chunks or failures is copied whole. */
  lemma {:induction false} CopiedWholeStream(results: seq<ReadResult>)
    requires forall i :: 0 <= i < |results| ==> results[i].Bytes? && results[i].data != []
    ensures Copied(results).1.None?
    ensures |Copied(results).0| == |results|
  {
    CopiedSpec(results);
  }

  /** The copy writes at most `CHUNK_SIZE` bytes per chunk. */
  lemma {:induction false} ConcatBound(chunks: seq<seq<byte>>)
    requires forall i :: 0 <= i < |chunks| ==> |chunks[i]| <= CHUNK_SIZE
    ensures |Concat(chunks)| <= CHUNK_SIZE * |chunks|
  {
    if chunks != [] {
      ConcatBound(chunks[..|chunks| - 1]);
    }
  }

  /** What follows the first empty chunk is never read. */
  lemma {:induction false} CopyStopsAtEmptyChunk(before: seq<ReadResult>, after: seq<ReadResult>)
    requires forall i :: 0 <= i < |before| ==> before[i].Bytes? && before[i].data != []
    ensures Copied(before + [Bytes([])] + after) == Copied(before)
  {
    if before != [] {
      CopyStopsAtEmptyChunk(before[1..], after);
      assert (before + [Bytes([])] + after)[1..] == before[1..] + [Bytes([])] + after;
    }
  }

  /** A non-empty chunk is written and the copy goes on with the next read. */
  lemma CopiedStep(results: seq<ReadResult>, p: nat)
    requires p < |results| && results[p].Bytes? && results[p].data != []
    ensures Copied(results[p..]) == ([results[p].data] + Copied(results[p + 1..]).0, Copied(results[p + 1..]).1)
  {
    assert results[p..][0] == results[p];
    assert results[p..][1..] == results[p + 1..];
  }

  /** A read with no bytes, or one that raises, ends the copy. */
  lemma CopiedStop(results: seq<ReadResult>, p: nat)
    requires p <= |results|
    requires ReadAt(results, p) == Bytes([]) || ReadAt(results, p).ReadFailed?
    ensures Copied(results[p..]).0 == []
    ensures Copied(results[p..]).1 == if ReadAt(results, p).ReadFailed? then Some(ReadAt(results, p).error) else None
  {
    if p < |results| {
      assert results[p..][0] == results[p];
    }
  }

  /** The body of `with fh:`: read chunk after chunk and write each one until
      a read returns no bytes; the handle is closed at the end of the stream
      and when a read raises. Writes never raise here. */
  method CopyChunks(source: Response, fh: Sink) returns (r: Outcome)
    requires source.Valid() && source.next == 0 && !fh.closed
    modifies source, fh
    ensures fh.closed
    ensures fh.written == old(fh.written) + Concat(Copied(source.results).0)
    ensures r == if Copied(source.results).1.Some? then Failed(Copied(source.results).1.value) else Done
  {
    ghost var results := source.results;
    ghost var done: seq<seq<byte>> := [];
    ghost var p: nat := 0;
    var chunk := source.Read();
    assert results[0..] == results;
    assert [] + Copied(results).0 == Copied(results).0;
    while chunk.Bytes? && chunk.data != []
      invariant source.Valid() && source.results == results && !fh.closed
      invariant p < |results| ==> source.next == p + 1
      invariant p <= |results| && chunk == ReadAt(results, p)
      invariant Copied(results) == (done + Copied(results[p..]).0, Copied(results[p..]).1)
      invariant fh.written == old(fh.written) + Concat(done)
      decreases |results| - p
    {
      CopiedStep(results, p);
      fh.Write(chunk.data);
      ConcatSnoc(done, chunk.data);
      assert (done + [chunk.data]) + Copied(results[p + 1..]).0 == done + ([chunk.data] + Copied(results[p + 1..]).0);
      done := done + [chunk.data];
      p := p + 1;
      chunk := source.Read();
    }
    CopiedStop(results, p);
    assert done + [] == done;
    fh.Close();
    if chunk.ReadFailed? {
      r := Failed(chunk.error);
    } else {
      r := Done;
    }
  }

  /** The path the file is written to: `destination`, or the file's own name
      when none is given. */
  function TargetPath(file: Records.DatasetFile, destination: Option<string>): (r: string)
    ensures destination.None? ==> r == file.name
    ensures destination.Some? ==> r == destination.value
  {
    destination.GetOr(file.name)
  }

  /** `DatasetFile.download` once the handle `fh` is open: `urlopen` gives a
      response or raises. The handle is opened before `urlopen` runs and
      only the `with` block closes it, so when `urlopen` raises the handle is
      left open and empty. */
  method Download(fh: Sink, response: Result<Response, FetchError>) returns (r: Outcome)
    requires !fh.closed
    requires response.Ok? ==> response.value.Valid() && response.value.next == 0
    modifies fh, if response.Ok? then {response.value} else {}
    ensures response.Err? ==> r == Failed(response.error) && !fh.closed && fh.written == old(fh.written)
    ensures response.Ok? ==> fh.closed
    ensures response.Ok? ==> fh.written == old(fh.written) + Concat(Copied(response.value.results).0)
    ensures response.Ok? ==>
              r == if Copied(response.value.results).1.Some? then Failed(Copied(response.value.results).1.value) else Done
  {
    if response.Err? {
      return Failed(response.error);
    }
    r := CopyChunks(response.value, fh);
  }
}
