/** Splitting a byte stream into records of four NUL-terminated fields. */
module RecordFramer {
  import opened Sequences

  type Byte = b: nat | b < 0x100
  type Bytes = seq<Byte>
  type Record = seq<Bytes>

  const FIELDS: nat := 4

  /** Finished fields of the open record, and the bytes of the open field. */
  datatype Frame = Frame(fields: Record, current: Bytes)

  function Empty(): Frame { Frame([], []) }

  datatype Fed = Fed(frame: Frame, records: seq<Record>)

  function Step(f: Frame, b: Byte): Fed {
    if b != 0 then Fed(Frame(f.fields, f.current + [b]), [])
    else if |f.fields| + 1 == FIELDS then Fed(Empty(), [f.fields + [f.current]])
    else Fed(Frame(f.fields + [f.current], []), [])
  }

  function Feed(f: Frame, bytes: Bytes): Fed {
    if bytes == [] then Fed(f, [])
    else
      var front := Feed(f, bytes[..|bytes| - 1]);
      var last := Step(front.frame, bytes[|bytes| - 1]);
      Fed(last.frame, front.records + last.records)
  }

  /** Feeding is insensitive to where the stream is cut. */
  lemma {:induction false} FeedConcat(f: Frame, a: Bytes, b: Bytes)
    ensures Feed(f, a + b).frame == Feed(Feed(f, a).frame, b).frame
    ensures Feed(f, a + b).records == Feed(f, a).records + Feed(Feed(f, a).frame, b).records
  {
    if b == [] {
      assert a + b == a;
    } else {
      var front := b[..|b| - 1];
      assert (a + b)[..|a + b| - 1] == a + front;
      FeedConcat(f, a, front);
    }
  }

  function FeedAll(f: Frame, chunks: seq<Bytes>): Fed {
    if chunks == [] then Fed(f, [])
    else
      var front := FeedAll(f, chunks[..|chunks| - 1]);
      var last := Feed(front.frame, chunks[|chunks| - 1]);
      Fed(last.frame, front.records + last.records)
  }

  /** Two chunkings of one stream give the same records and the same fragment. */
  lemma {:induction false} ChunkingIrrelevant(f: Frame, chunks: seq<Bytes>)
    ensures FeedAll(f, chunks) == Feed(f, Concat(chunks))
  {
    if chunks != [] {
      ChunkingIrrelevant(f, chunks[..|chunks| - 1]);
      FeedConcat(f, Concat(chunks[..|chunks| - 1]), chunks[|chunks| - 1]);
    }
  }

  // ---- Records and their wire form ----

  predicate NulFree(field: Bytes) {
    forall i :: 0 <= i < |field| ==> field[i] != 0
  }

  predicate WireRecord(r: Record) {
    |r| == FIELDS && forall i :: 0 <= i < |r| ==> NulFree(r[i])
  }

  function EncodeFields(fields: Record): Bytes {
    if fields == [] then [] else EncodeFields(fields[..|fields| - 1]) + fields[|fields| - 1] + [0]
  }

  function EncodeRecords(records: seq<Record>): Bytes {
    if records == [] then [] else EncodeRecords(records[..|records| - 1]) + EncodeFields(records[|records| - 1])
  }

  lemma {:induction false} FeedField(f: Frame, field: Bytes)
    requires NulFree(field)
    ensures Feed(f, field) == Fed(Frame(f.fields, f.current + field), [])
  {
    if field != [] { FeedField(f, field[..|field| - 1]); }
  }

  lemma EncodeFieldsSnoc(front: Record, last: Bytes)
    ensures EncodeFields(front + [last]) == EncodeFields(front) + (last + [0])
  {
    assert (front + [last])[..|front|] == front;
    assert EncodeFields(front) + last + [0] == EncodeFields(front) + (last + [0]);
  }

  lemma EncodeRecordsSnoc(front: seq<Record>, last: Record)
    ensures EncodeRecords(front + [last]) == EncodeRecords(front) + EncodeFields(last)
  {
    assert (front + [last])[..|front|] == front;
  }

  /** Feeding a stream in two parts whose results are known. */
  lemma FeedParts(f: Frame, a: Bytes, b: Bytes, first: Fed, second: Fed)
    requires Feed(f, a) == first && Feed(first.frame, b) == second
    ensures Feed(f, a + b) == Fed(second.frame, first.records + second.records)
  {
    FeedConcat(f, a, b);
  }

  lemma {:induction false} FeedFields(fields: Record)
    requires |fields| < FIELDS && forall i :: 0 <= i < |fields| ==> NulFree(fields[i])
    ensures Feed(Empty(), EncodeFields(fields)) == Fed(Frame(fields, []), [])
  {
    if fields != [] {
      var front, last := fields[..|fields| - 1], fields[|fields| - 1];
      assert fields == front + [last];
      FeedFields(front);
      FeedTerminated(Frame(front, []), last);
      assert [] + last == last;
      EncodeFieldsSnoc(front, last);
      FeedParts(Empty(), EncodeFields(front), last + [0], Fed(Frame(front, []), []), Fed(Frame(fields, []), []));
    }
  }

  lemma FeedTerminated(f: Frame, field: Bytes)
    requires NulFree(field)
    ensures Feed(f, field + [0]) == Step(Frame(f.fields, f.current + field), 0)
  {
    FeedField(f, field);
    assert (field + [0])[..|field|] == field;
  }

  /** Only the record's last terminator emits it. */
  lemma FeedRecord(r: Record)
    requires WireRecord(r)
    ensures Feed(Empty(), EncodeFields(r)) == Fed(Empty(), [r])
    ensures EncodeFields(r) != []
    ensures Feed(Empty(), EncodeFields(r)[..|EncodeFields(r)| - 1]).records == []
  {
    var front, last := r[..FIELDS - 1], r[FIELDS - 1];
    assert r == front + [last] && [] + last == last;
    var head := EncodeFields(front);
    FeedFields(front);
    FeedTerminated(Frame(front, []), last);
    FeedField(Frame(front, []), last);
    EncodeFieldsSnoc(front, last);
    FeedParts(Empty(), head, last + [0], Fed(Frame(front, []), []), Fed(Empty(), [r]));
    FeedParts(Empty(), head, last, Fed(Frame(front, []), []), Fed(Frame(front, last), []));
    assert EncodeFields(r)[..|EncodeFields(r)| - 1] == head + last;
  }

  /** Round trip: an encoded response yields its records and leaves no fragment. */
  lemma {:induction false} FeedRecords(records: seq<Record>)
    requires forall i :: 0 <= i < |records| ==> WireRecord(records[i])
    ensures Feed(Empty(), EncodeRecords(records)) == Fed(Empty(), records)
  {
    if records != [] {
      var front, last := records[..|records| - 1], records[|records| - 1];
      assert records == front + [last];
      FeedRecords(front);
      FeedRecord(last);
      EncodeRecordsSnoc(front, last);
      FeedParts(Empty(), EncodeRecords(front), EncodeFields(last), Fed(Empty(), front), Fed(Empty(), [last]));
    }
  }

  lemma LastRecordEncoded(records: seq<Record>)
    requires records != []
    ensures EncodeRecords(records) == EncodeRecords(records[..|records| - 1]) + EncodeFields(records[|records| - 1])
  { }

  /** The last record is emitted by the last byte, not before. */
  lemma LastByteEmits(records: seq<Record>)
    requires records != [] && forall i :: 0 <= i < |records| ==> WireRecord(records[i])
    ensures EncodeRecords(records) != []
    ensures Feed(Empty(), EncodeRecords(records)[..|EncodeRecords(records)| - 1]).records == records[..|records| - 1]
  {
    var front, last := records[..|records| - 1], records[|records| - 1];
    LastRecordEncoded(records);
    FeedRecords(front);
    FeedRecord(last);
    BeforeLastByte(EncodeRecords(front), EncodeFields(last), front);
  }

  lemma BeforeLastByte(a: Bytes, b: Bytes, front: seq<Record>)
    requires Feed(Empty(), a) == Fed(Empty(), front) && b != [] && Feed(Empty(), b[..|b| - 1]).records == []
    ensures Feed(Empty(), (a + b)[..|a + b| - 1]).records == front
  {
    assert (a + b)[..|a + b| - 1] == a + b[..|b| - 1];
    FeedParts(Empty(), a, b[..|b| - 1], Fed(Empty(), front), Feed(Empty(), b[..|b| - 1]));
  }

  /** A frame is reachable when its fields are short and free of NULs. */
  ghost predicate Reachable(f: Frame) {
    |f.fields| < FIELDS && NulFree(f.current) && forall i :: 0 <= i < |f.fields| ==> NulFree(f.fields[i])
  }

  lemma {:induction false} FeedStaysReachable(f: Frame, bytes: Bytes)
    requires Reachable(f)
    ensures Reachable(Feed(f, bytes).frame)
    ensures forall r :: r in Feed(f, bytes).records ==> WireRecord(r)
  {
    if bytes != [] { FeedStaysReachable(f, bytes[..|bytes| - 1]); }
  }

  /** What a framer state stands for on the wire. */
  function Wire(r: Fed): Bytes {
    EncodeRecords(r.records) + EncodeFields(r.frame.fields) + r.frame.current
  }

  lemma WireStep(r: Fed, b: Byte)
    requires Reachable(r.frame)
    ensures var next := Step(r.frame, b); Wire(Fed(next.frame, r.records + next.records)) == Wire(r) + [b]
  {
    var f := r.frame;
    var head, open := EncodeRecords(r.records), EncodeFields(f.fields);
    if b != 0 {
      assert r.records + [] == r.records;
      assert head + open + (f.current + [b]) == head + open + f.current + [b];
    } else {
      var closed := f.fields + [f.current];
      EncodeFieldsSnoc(f.fields, f.current);
      assert head + (open + (f.current + [0])) == head + open + f.current + [0];
      if |closed| == FIELDS {
        EncodeRecordsSnoc(r.records, closed);
        assert head + EncodeFields(closed) + [] + [] == head + EncodeFields(closed);
      } else {
        assert r.records + [] == r.records;
        assert head + EncodeFields(closed) + [] == head + EncodeFields(closed);
      }
    }
  }

  /** The framer reads any stream as the encoding of its records followed by the open fragment. */
  lemma {:induction false} FeedInverts(bytes: Bytes)
    ensures Wire(Feed(Empty(), bytes)) == bytes
  {
    if bytes != [] {
      var n := |bytes| - 1;
      FeedInverts(bytes[..n]);
      FeedStaysReachable(Empty(), bytes[..n]);
      WireStep(Feed(Empty(), bytes[..n]), bytes[n]);
      assert bytes == bytes[..n] + [bytes[n]];
    }
  }

  predicate HasFragmentIn(f: Frame) {
    f.fields != [] || f.current != []
  }

  /** No fragment exactly at record boundaries. */
  lemma NoFragmentAtBoundaries(bytes: Bytes)
    ensures !HasFragmentIn(Feed(Empty(), bytes).frame) <==>
            exists records :: (forall i :: 0 <= i < |records| ==> WireRecord(records[i])) && bytes == EncodeRecords(records)
  {
    FeedInverts(bytes);
    FeedStaysReachable(Empty(), bytes);
    var r := Feed(Empty(), bytes);
    if !HasFragmentIn(r.frame) {
      forall i | 0 <= i < |r.records| ensures WireRecord(r.records[i]) { assert r.records[i] in r.records; }
      assert bytes == EncodeRecords(r.records);
    }
    if records :| (forall i :: 0 <= i < |records| ==> WireRecord(records[i])) && bytes == EncodeRecords(records) {
      FeedRecords(records);
    }
  }

  // ---- The stateful framer ----

  class NulRecordFramer {
    var fieldChunks: seq<Bytes>
    var recordFields: seq<Bytes>
    var fieldBytes: nat

    ghost predicate Valid()
      reads this
    {
      && fieldBytes == |Concat(fieldChunks)|
      && |recordFields| < FIELDS
    }

    function Open(): Frame
      reads this
    {
      Frame(recordFields, Concat(fieldChunks))
    }

    constructor ()
      ensures Valid() && Open() == Empty()
    {
      fieldChunks, recordFields, fieldBytes := [], [], 0;
    }

    method Append(bytes: Bytes)
      requires Valid()
      modifies this
      ensures Valid() && Open() == Frame(old(recordFields), Concat(old(fieldChunks)) + bytes)
    {
      if |bytes| == 0 { return; }
      assert (fieldChunks + [bytes])[..|fieldChunks|] == fieldChunks;
      fieldChunks := fieldChunks + [bytes];
      fieldBytes := fieldBytes + |bytes|;
    }

    method FinishField() returns (field: Bytes)
      requires Valid()
      modifies this
      ensures Valid() && field == Concat(old(fieldChunks)) && Open() == Frame(old(recordFields), [])
    {
      if |fieldChunks| == 0 {
        field := [];
      } else if |fieldChunks| == 1 {
        assert fieldChunks[..0] == [] && Concat(fieldChunks[..0]) == [];
        field := fieldChunks[0];
        assert Concat(fieldChunks) == [] + field;
      } else {
        field := Concat(fieldChunks);
      }
      fieldChunks, fieldBytes := [], 0;
    }

    /** A NUL ends the field, and with it the record once it has all its fields. */
    method EndField(piece: Bytes) returns (emitted: seq<Record>)
      requires Valid()
      modifies this
      ensures Valid() && Concat(fieldChunks) == []
      ensures Fed(Open(), emitted) == Step(Frame(old(recordFields), Concat(old(fieldChunks)) + piece), 0)
    {
      emitted := [];
      Append(piece);
      var field := FinishField();
      recordFields := recordFields + [field];
      if |recordFields| == FIELDS {
        emitted := [recordFields];
        recordFields := [];
      }
    }

    method Push(chunk: Bytes) returns (records: seq<Record>)
      requires Valid()
      modifies this
      ensures Valid() && Fed(Open(), records) == Feed(old(Open()), chunk)
    {
      records := [];
      var start := 0;
      ghost var before := Open();
      for index := 0 to |chunk|
        invariant Valid() && 0 <= start <= index
        invariant Feed(before, chunk[..index]) ==
                  Fed(Frame(recordFields, Concat(fieldChunks) + chunk[start..index]), records)
      {
        assert chunk[..index + 1][..index] == chunk[..index];
        assert chunk[start..index + 1] == chunk[start..index] + [chunk[index]];
        if chunk[index] == 0 {
          var emitted := EndField(chunk[start..index]);
          records := records + emitted;
          start := index + 1;
        }
      }
      assert chunk[..|chunk|] == chunk;
      Append(chunk[start..]);
    }

    method HasFragment() returns (r: bool)
      requires Valid()
      ensures r <==> HasFragmentIn(Open())
    {
      r := |recordFields| != 0 || fieldBytes != 0;
    }
  }
}
