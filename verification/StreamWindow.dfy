/** Streaming a blob into an open file through one fixed window. */
module StreamWindow {
  import opened Wrappers
  import opened Sequences
  import opened MutationGate

  type Byte = bv8

  /** One write the operating system carried out: how much was offered and how much was taken. */
  datatype Write = Write(position: nat, offered: nat, taken: nat)

  function Taken(log: seq<Write>): nat {
    if log == [] then 0 else Taken(log[..|log| - 1]) + log[|log| - 1].taken
  }

  /** Every write starts where the ones before it ended and offers at most one window. */
  ghost predicate Contiguous(log: seq<Write>, window: nat) {
    forall i :: 0 <= i < |log| ==> log[i].position == Taken(log[..i]) && log[i].taken <= log[i].offered <= window
  }

  lemma ContiguousStep(log: seq<Write>, w: Write, window: nat)
    requires Contiguous(log, window) && w.position == Taken(log) && w.taken <= w.offered <= window
    ensures Contiguous(log + [w], window) && Taken(log + [w]) == Taken(log) + w.taken
  {
    var after := log + [w];
    assert after[..|log|] == log;
    forall i | 0 <= i < |after| ensures after[i].position == Taken(after[..i]) {
      if i < |log| { assert after[..i] == log[..i]; }
    }
  }

  function Zeros(n: nat): (r: seq<Byte>)
    ensures |r| == n
  {
    seq(n, _ => 0)
  }

  /** File content after writing at a position, padding any gap with zeros. */
  function WrittenAt(content: seq<Byte>, data: seq<Byte>, position: nat): seq<Byte> {
    if |content| < position then content + Zeros(position - |content|) + data
    else content[..position] + data + if position + |data| <= |content| then content[position + |data|..] else []
  }

  lemma WrittenAtEnd(content: seq<Byte>, data: seq<Byte>)
    ensures WrittenAt(content, data, |content|) == content + data
  {
    assert content[..|content|] == content;
  }

  class FileHandle {
    var content: seq<Byte>
    ghost var log: seq<Write>

    constructor ()
      ensures content == [] && log == []
    {
      content, log := [], [];
    }

    /** The operating system may take any prefix, nothing at all, or fail. */
    method WriteSome(data: seq<Byte>, position: nat) returns (taken: Option<nat>)
      modifies this
      ensures taken.None? ==> content == old(content) && log == old(log)
      ensures taken.Some? ==> taken.value <= |data| && content == WrittenAt(old(content), data[..taken.value], position)
      ensures taken.Some? ==> log == old(log) + [Write(position, |data|, taken.value)]
    {
      var fails: bool := *;
      if fails { return None; }
      var n: int := *;
      if n < 0 || n > |data| { n := 0; }
      content := WrittenAt(content, data[..n], position);
      log := log + [Write(position, |data|, n)];
      return Some(n);
    }
  }

  datatype StreamError = NotAuthorized(cause: Cause) | WriteFailed | ZeroByteWrite | ReaderFailed | Mismatch

  /** The chunks a reader delivers and how it ends: with its decoded length, or by failing. */
  datatype Reader = Reader(chunks: seq<seq<Byte>>, decodedLength: Option<nat>)

  class BlobStream {
    const handle: FileHandle
    const gate: Gate
    const window: array<Byte>
    var byteLength: nat
    var writtenLength: nat
    var bufferedLength: nat
    ghost var consumed: seq<Byte>

    ghost predicate Valid() reads this, handle, gate, gate.lease, window {
      && gate.Valid() && window.Length > 0
      && bufferedLength <= window.Length && byteLength == |consumed|
      && handle.content + window[..bufferedLength] == consumed
      && writtenLength == |handle.content| == Taken(handle.log)
      && Contiguous(handle.log, window.Length)
    }

    constructor (handle: FileHandle, gate: Gate, window: array<Byte>)
      requires gate.Valid() && window.Length > 0 && handle.content == [] && handle.log == []
      ensures Valid() && this.handle == handle && this.gate == gate && this.window == window
      ensures consumed == [] && bufferedLength == 0
    {
      this.handle, this.gate, this.window := handle, gate, window;
      byteLength, writtenLength, bufferedLength, consumed := 0, 0, 0, [];
    }

    /** Offer the rest to the system once, through the gate. */
    method WriteRest(rest: seq<Byte>, position: nat) returns (r: Result<nat, StreamError>)
      requires gate.Valid() && position == |handle.content| == Taken(handle.log) && rest != []
      requires |rest| <= window.Length && Contiguous(handle.log, window.Length)
      modifies handle, gate, gate.lease
      ensures gate.Valid() && Contiguous(handle.log, window.Length) && r != Err(Mismatch)
      ensures r.Ok? ==> gate.state.Authorized?
      ensures r.Ok? ==> 0 < r.value <= |rest| && handle.content == old(handle.content) + rest[..r.value]
      ensures r.Ok? ==> Taken(handle.log) == |handle.content|
    {
      var callback: Callback, held: Option<Cause> := *, *;
      var refused := gate.ContinueMutation(callback, held);
      if refused.Some? { return Err(NotAuthorized(refused.value)); }
      gate.Mutate();
      ghost var log := handle.log;
      var taken := handle.WriteSome(rest, position);
      if taken.None? { return Err(WriteFailed); }
      ContiguousStep(log, Write(position, |rest|, taken.value), window.Length);
      WrittenAtEnd(old(handle.content), rest[..taken.value]);
      if taken.value == 0 { return Err(ZeroByteWrite); }
      return Ok(taken.value);
    }

    /** Keep writing what the system has not taken yet; a write that takes nothing is an error. */
    method WriteAll(data: seq<Byte>, position: nat) returns (failure: Option<StreamError>)
      requires gate.Valid() && position == |handle.content| == Taken(handle.log)
      requires |data| <= window.Length && Contiguous(handle.log, window.Length)
      modifies handle, gate, gate.lease
      ensures gate.Valid() && Contiguous(handle.log, window.Length) && failure != Some(Mismatch)
      ensures failure.None? ==> gate.state == old(gate.state) || gate.state.Authorized?
      ensures failure.None? ==> handle.content == old(handle.content) + data && Taken(handle.log) == |handle.content|
    {
      var offset := 0;
      while offset < |data|
        invariant 0 <= offset <= |data| && gate.Valid() && Contiguous(handle.log, window.Length)
        invariant gate.state == old(gate.state) || gate.state.Authorized?
        invariant handle.content == old(handle.content) + data[..offset] && Taken(handle.log) == |handle.content|
      {
        var written := WriteRest(data[offset..], position + offset);
        if written.Err? { return Some(written.error); }
        assert data[..offset] + data[offset..][..written.value] == data[..offset + written.value];
        offset := offset + written.value;
      }
      return None;
    }

    method WriteOut(data: seq<Byte>) returns (failure: Option<StreamError>)
      requires gate.Valid() && writtenLength == |handle.content| == Taken(handle.log)
      requires |data| <= window.Length && Contiguous(handle.log, window.Length)
      modifies this`writtenLength, handle, gate, gate.lease
      ensures gate.Valid() && Contiguous(handle.log, window.Length) && failure != Some(Mismatch)
      ensures failure.None? ==> gate.state == old(gate.state) || gate.state.Authorized?
      ensures failure.None? ==> handle.content == old(handle.content) + data
      ensures failure.None? ==> writtenLength == |handle.content| == Taken(handle.log)
    {
      failure := WriteAll(data, writtenLength);
      if failure.Some? { return; }
      writtenLength := writtenLength + |data|;
    }

    method Flush() returns (failure: Option<StreamError>)
      requires Valid()
      modifies this`writtenLength, this`bufferedLength, handle, gate, gate.lease
      ensures gate.Valid() && Contiguous(handle.log, window.Length) && failure != Some(Mismatch)
      ensures failure.None? ==> gate.state == old(gate.state) || gate.state.Authorized?
      ensures failure.None? ==> Valid() && bufferedLength == 0 && handle.content == consumed
    {
      if bufferedLength == 0 { return None; }
      failure := WriteOut(window[..bufferedLength]);
      if failure.Some? { return; }
      bufferedLength := 0;
    }

    /** Copy into the window whatever of the chunk still fits. */
    method Fill(part: seq<Byte>)
      requires Valid() && bufferedLength + |part| <= window.Length
      modifies this, window
      ensures Valid() && bufferedLength == old(bufferedLength) + |part| && consumed == old(consumed) + part
    {
      ghost var before := window[..bufferedLength];
      forall k | 0 <= k < |part| { window[bufferedLength + k] := part[k]; }
      assert window[..bufferedLength + |part|] == before + part;
      bufferedLength := bufferedLength + |part|;
      byteLength, consumed := byteLength + |part|, consumed + part;
    }

    /** Write one whole window of the chunk without buffering it. */
    method Direct(part: seq<Byte>) returns (failure: Option<StreamError>)
      requires Valid() && bufferedLength == 0 && |part| == window.Length
      modifies this, handle, gate, gate.lease
      ensures gate.Valid() && Contiguous(handle.log, window.Length) && failure != Some(Mismatch)
      ensures failure.None? ==> gate.state == old(gate.state) || gate.state.Authorized?
      ensures failure.None? ==> Valid() && bufferedLength == 0 && consumed == old(consumed) + part
    {
      failure := WriteOut(part);
      if failure.Some? { return; }
      byteLength, consumed := byteLength + |part|, consumed + part;
    }

    /** The next piece of a chunk: a whole window straight through, or what fits into the buffer. */
    method SinkPart(chunk: seq<Byte>, offset: nat) returns (next: nat, failure: Option<StreamError>)
      requires Valid() && bufferedLength < window.Length && offset < |chunk|
      modifies this, handle, gate, gate.lease, window
      ensures gate.Valid() && Contiguous(handle.log, window.Length) && failure != Some(Mismatch)
      ensures failure.None? ==> gate.state == old(gate.state) || gate.state.Authorized?
      ensures offset < next <= |chunk|
      ensures failure.None? ==> Valid() && bufferedLength < window.Length && consumed == old(consumed) + chunk[offset..next]
    {
      var remaining := |chunk| - offset;
      if bufferedLength == 0 && remaining >= window.Length {
        next := offset + window.Length;
        failure := Direct(chunk[offset..next]);
        return;
      }
      var room := window.Length - bufferedLength;
      next := offset + if remaining < room then remaining else room;
      Fill(chunk[offset..next]);
      if bufferedLength == window.Length {
        failure := Flush();
      } else {
        failure := None;
      }
    }

    /** One chunk of any length: whole windows go straight through, the rest is buffered. */
    method Sink(chunk: seq<Byte>) returns (failure: Option<StreamError>)
      requires Valid() && bufferedLength < window.Length
      modifies this, handle, gate, gate.lease, window
      ensures gate.Valid() && Contiguous(handle.log, window.Length) && failure != Some(Mismatch)
      ensures failure.None? ==> gate.state == old(gate.state) || gate.state.Authorized?
      ensures failure.None? ==> Valid() && bufferedLength < window.Length && consumed == old(consumed) + chunk
    {
      var offset := 0;
      while offset < |chunk|
        invariant 0 <= offset <= |chunk| && Valid() && bufferedLength < window.Length
        invariant consumed == old(consumed) + chunk[..offset]
        invariant gate.state == old(gate.state) || gate.state.Authorized?
      {
        var next;
        next, failure := SinkPart(chunk, offset);
        if failure.Some? { return; }
        assert chunk[..offset] + chunk[offset..next] == chunk[..next];
        offset := next;
      }
      assert chunk[..offset] == chunk;
      return None;
    }
  }

  /**
   * Whatever the chunking and whatever short writes occur, a stream that succeeds leaves exactly
   * the blob in the file, written in order with no gap and no overlap, and the content has the wanted id.
   */
  method StreamBlobIntoHandle(handle: FileHandle, oid: nat, reader: Reader, window: array<Byte>, gate: Gate,
                              digest: seq<Byte> -> nat)
    returns (r: Result<nat, StreamError>)
    requires gate.Valid() && window.Length > 0 && handle.content == [] && handle.log == []
    modifies handle, gate, gate.lease, window
    ensures gate.Valid() && Contiguous(handle.log, window.Length)
    ensures r.Ok? ==> gate.state == old(gate.state) || gate.state.Authorized?
    ensures r.Ok? ==> handle.content == Concat(reader.chunks) && Taken(handle.log) == |handle.content|
    ensures r.Ok? ==> r.value == |handle.content| && reader.decodedLength == Some(r.value)
    ensures r.Ok? ==> digest(handle.content) == oid
    ensures r == Err(Mismatch) ==> handle.content == Concat(reader.chunks) && reader.decodedLength.Some?
    ensures r == Err(Mismatch) ==> reader.decodedLength.value != |handle.content| || digest(handle.content) != oid
  {
    var stream := new BlobStream(handle, gate, window);
    for i := 0 to |reader.chunks|
      invariant stream.Valid() && stream.bufferedLength < window.Length
      invariant stream.handle == handle && stream.gate == gate && stream.window == window
      invariant fresh(stream) && stream.consumed == Concat(reader.chunks[..i])
      invariant gate.state == old(gate.state) || gate.state.Authorized?
    {
      var failure := stream.Sink(reader.chunks[i]);
      if failure.Some? { return Err(failure.value); }
      assert reader.chunks[..i + 1][..i] == reader.chunks[..i];
    }
    assert reader.chunks[..|reader.chunks|] == reader.chunks;
    if reader.decodedLength.None? { return Err(ReaderFailed); }
    var failure := stream.Flush();
    if failure.Some? { return Err(failure.value); }
    if reader.decodedLength.value != stream.byteLength || digest(handle.content) != oid { return Err(Mismatch); }
    return Ok(stream.byteLength);
  }
}
