/** One ignore query at a time against a child process that answers in records. */
module OracleProtocol {
  import opened Wrappers
  import opened Sequences
  import opened RecordFramer

  const MAX_RESPONSE_BYTES: nat := 64 * 1024 * 1024
  const MAX_WRITE_CHUNK_BYTES: nat := 64 * 1024

  datatype Query = Query(expected: seq<Bytes>, results: seq<bool>, responseBytes: nat)

  datatype State = State(frame: Frame, pending: Option<Query>, failed: bool, resolved: Option<seq<bool>>)

  predicate PositiveDecimal(line: Bytes) {
    && line != []
    && (forall i :: 0 <= i < |line| ==> 0x30 <= line[i] <= 0x39)
    && (exists i :: 0 <= i < |line| && line[i] != 0x30)
  }

  method IsPositiveDecimalLine(line: Bytes) returns (r: bool)
    ensures r <==> PositiveDecimal(line)
  {
    if |line| == 0 { return false; }
    var positive := false;
    for i := 0 to |line|
      invariant forall j :: 0 <= j < i ==> 0x30 <= line[j] <= 0x39
      invariant positive <==> exists j :: 0 <= j < i && line[j] != 0x30
    {
      if line[i] < 0x30 || line[i] > 0x39 { return false; }
      if line[i] != 0x30 { positive := true; }
    }
    return positive;
  }

  /** Source, line, pattern and path of one answer. */
  predicate ValidRecord(r: Record, path: Bytes) {
    && |r| == FIELDS
    && r[3] == path
    && if r[0] == [] then r[1] == [] && r[2] == [] else PositiveDecimal(r[1]) && r[2] != []
  }

  /** Unmatched paths and negated patterns are managed. */
  predicate Managed(r: Record) {
    |r| == FIELDS && (r[0] == [] || (r[2] != [] && r[2][0] == 0x21))
  }

  /** Answers once more records arrive, or nothing when one is malformed or unexpected. */
  function Answer(expected: seq<Bytes>, results: seq<bool>, records: seq<Record>): Option<seq<bool>>
    decreases |records|
  {
    if records == [] then Some(results)
    else if |results| < |expected| && ValidRecord(records[0], expected[|results|])
    then Answer(expected, results + [Managed(records[0])], records[1..])
    else None
  }

  function OnChunk(st: State, chunk: Bytes): State {
    if st.failed then st
    else if st.pending.None? then st.(failed := true)
    else
      var q := st.pending.value;
      if q.responseBytes + |chunk| > MAX_RESPONSE_BYTES
      then st.(failed := true, pending := Some(q.(responseBytes := q.responseBytes + |chunk|)))
      else Absorb(q, chunk, Feed(st.frame, chunk), st.resolved)
  }

  /** After a chunk's records: fail, wait for more, or resolve the query at a record boundary. */
  function Settle(q: Query, frame: Frame, answers: Option<seq<bool>>, resolved: Option<seq<bool>>): State {
    match answers
    case None => State(frame, Some(q), true, resolved)
    case Some(results) =>
      if |results| < |q.expected| then State(frame, Some(q.(results := results)), false, resolved)
      else if HasFragmentIn(frame) then State(frame, Some(q.(results := results)), true, resolved)
      else State(frame, None, false, Some(results))
  }

  function OnChunks(st: State, chunks: seq<Bytes>): State {
    if chunks == [] then st
    else OnChunk(OnChunks(st, chunks[..|chunks| - 1]), chunks[|chunks| - 1])
  }

  lemma {:induction false} AnswersBounded(expected: seq<Bytes>, results: seq<bool>, records: seq<Record>)
    requires |results| <= |expected| && Answer(expected, results, records).Some?
    ensures |Answer(expected, results, records).value| <= |expected|
    decreases |records|
  {
    if records != [] { AnswersBounded(expected, results + [Managed(records[0])], records[1..]); }
  }

  /** Whatever arrives, a query that is no longer pending was resolved with one answer for each expected path. */
  lemma {:induction false} ResolvedInFull(expected: seq<Bytes>, resolved: Option<seq<bool>>, frame: Frame, chunks: seq<Bytes>)
    ensures var st := OnChunks(State(frame, Some(Query(expected, [], 0)), false, resolved), chunks);
            if st.pending.Some? then st.pending.value.expected == expected && (st.failed || |st.pending.value.results| <= |expected|)
            else st.resolved.Some? && |st.resolved.value| == |expected|
    decreases |chunks|
  {
    if chunks != [] {
      var front, last := chunks[..|chunks| - 1], chunks[|chunks| - 1];
      ResolvedInFull(expected, resolved, frame, front);
      var st := OnChunks(State(frame, Some(Query(expected, [], 0)), false, resolved), front);
      if !st.failed && st.pending.Some? {
        var records := Feed(st.frame, last).records;
        if Answer(expected, st.pending.value.results, records).Some? {
          AnswersBounded(expected, st.pending.value.results, records);
        }
      }
    }
  }

  // ---- A complete response gives the same answers under every chunking ----

  function Answers(records: seq<Record>): seq<bool> {
    seq(|records|, i requires 0 <= i < |records| => Managed(records[i]))
  }

  /** Exactly the expected records, each for its own path. */
  ghost predicate Complete(expected: seq<Bytes>, records: seq<Record>) {
    && |records| == |expected|
    && forall i :: 0 <= i < |records| ==> WireRecord(records[i]) && ValidRecord(records[i], expected[i])
  }

  lemma {:induction false} AnswerMore(expected: seq<Bytes>, records: seq<Record>, k: nat, m: nat)
    requires Complete(expected, records) && k <= m <= |records|
    ensures Answer(expected, Answers(records[..k]), records[k..m]) == Some(Answers(records[..m]))
    decreases m - k
  {
    if k < m {
      AnswerMore(expected, records, k + 1, m);
      assert records[k..m][1..] == records[k + 1..m];
      assert Answers(records[..k + 1]) == Answers(records[..k]) + [Managed(records[k])];
    }
  }

  /** What the framer has emitted and holds after the first `n` bytes. */
  function Upto(stream: Bytes, n: nat): Fed
    requires n <= |stream|
  {
    Feed(Empty(), stream[..n])
  }

  lemma UptoAdvances(stream: Bytes, n: nat, m: nat)
    requires n <= m <= |stream|
    ensures var next := Feed(Upto(stream, n).frame, stream[n..m]);
            Upto(stream, m) == Fed(next.frame, Upto(stream, n).records + next.records)
  {
    FeedConcat(Empty(), stream[..n], stream[n..m]);
    assert stream[..m] == stream[..n] + stream[n..m];
  }

  lemma TakesPrefix<T>(whole: seq<T>, a: seq<T>, b: seq<T>)
    requires whole == a + b
    ensures |a| <= |whole| && a == whole[..|a|]
  {
  }

  /** A proper prefix of a complete response holds a proper prefix of its records. */
  lemma PrefixRecords(records: seq<Record>, n: nat) returns (k: nat)
    requires records != [] && forall i :: 0 <= i < |records| ==> WireRecord(records[i])
    requires n <= |EncodeRecords(records)|
    ensures k <= |records| && Upto(EncodeRecords(records), n).records == records[..k]
    ensures n < |EncodeRecords(records)| ==> k < |records|
    ensures n == |EncodeRecords(records)| ==> k == |records| && Upto(EncodeRecords(records), n).frame == Empty()
  {
    var stream := EncodeRecords(records);
    FeedRecords(records);
    assert stream[..|stream|] == stream;
    UptoAdvances(stream, n, |stream|);
    k := |Upto(stream, n).records|;
    TakesPrefix(records, Upto(stream, n).records, Feed(Upto(stream, n).frame, stream[n..]).records);
    if n < |stream| {
      LastByteEmits(records);
      UptoAdvances(stream, n, |stream| - 1);
    }
  }

  /** The query's state after the first `n` bytes of a complete response. */
  ghost predicate MidResponse(st: State, expected: seq<Bytes>, records: seq<Record>, n: nat, k: nat, resolved: Option<seq<bool>>)
    requires Complete(expected, records) && n <= |EncodeRecords(records)| && k <= |records|
  {
    && Upto(EncodeRecords(records), n).records == records[..k]
    && st == State(Upto(EncodeRecords(records), n).frame, Some(Query(expected, Answers(records[..k]), n)), false, resolved)
  }

  /** The response is all read and the query answered; bytes that came after it failed the connection. */
  function Over(records: seq<Record>, failed: bool): State {
    State(Empty(), None, failed, Some(Answers(records)))
  }

  /** What one chunk of a complete response brings: more records, all answered. */
  lemma ChunkAnswers(expected: seq<Bytes>, records: seq<Record>, n: nat, m: nat, k: nat) returns (l: nat)
    requires Complete(expected, records) && records != []
    requires n < m <= |EncodeRecords(records)| && k <= |records|
    requires Upto(EncodeRecords(records), n).records == records[..k]
    ensures k <= l <= |records| && Upto(EncodeRecords(records), m).records == records[..l]
    ensures var fed := Feed(Upto(EncodeRecords(records), n).frame, EncodeRecords(records)[n..m]);
            fed == Fed(Upto(EncodeRecords(records), m).frame, records[k..l])
    ensures Answer(expected, Answers(records[..k]), records[k..l]) == Some(Answers(records[..l]))
    ensures m < |EncodeRecords(records)| ==> l < |records|
    ensures m == |EncodeRecords(records)| ==> l == |records| && Upto(EncodeRecords(records), m).frame == Empty()
  {
    var stream := EncodeRecords(records);
    l := PrefixRecords(records, m);
    UptoAdvances(stream, n, m);
    var fed := Feed(Upto(stream, n).frame, stream[n..m]);
    ArrivedAre(records, k, l, fed.records);
    AnswerMore(expected, records, k, l);
  }

  /** The state after a chunk within the response limit. */
  function Absorb(q: Query, chunk: Bytes, fed: Fed, resolved: Option<seq<bool>>): State {
    Settle(q.(responseBytes := q.responseBytes + |chunk|), fed.frame, Answer(q.expected, q.results, fed.records), resolved)
  }

  /** A chunk within the limit, whose records are all answered: wait for more, or resolve the query. */
  lemma ChunkSettles(st: State, q: Query, chunk: Bytes, frame: Frame, records: seq<Record>, answers: seq<bool>)
    requires st == State(st.frame, Some(q), false, st.resolved) && Feed(st.frame, chunk) == Fed(frame, records)
    requires q.responseBytes + |chunk| <= MAX_RESPONSE_BYTES
    requires Answer(q.expected, q.results, records) == Some(answers)
    ensures |answers| < |q.expected| ==>
              OnChunk(st, chunk) == State(frame, Some(Query(q.expected, answers, q.responseBytes + |chunk|)), false, st.resolved)
    ensures |answers| == |q.expected| && !HasFragmentIn(frame) ==>
              OnChunk(st, chunk) == State(frame, None, false, Some(answers))
  { }

  lemma ChunkAdvances(st: State, expected: seq<Bytes>, records: seq<Record>, n: nat, m: nat, k: nat, resolved: Option<seq<bool>>)
    returns (l: nat)
    requires Complete(expected, records) && records != []
    requires n < m <= |EncodeRecords(records)| <= MAX_RESPONSE_BYTES && k <= |records|
    requires MidResponse(st, expected, records, n, k, resolved)
    ensures l <= |records|
    ensures m < |EncodeRecords(records)| ==>
              MidResponse(OnChunk(st, EncodeRecords(records)[n..m]), expected, records, m, l, resolved)
    ensures m == |EncodeRecords(records)| ==> OnChunk(st, EncodeRecords(records)[n..m]) == Over(records, false)
  {
    var chunk := EncodeRecords(records)[n..m];
    l := ChunkAnswers(expected, records, n, m, k);
    ChunkSettles(st, Query(expected, Answers(records[..k]), n), chunk, Upto(EncodeRecords(records), m).frame,
                 records[k..l], Answers(records[..l]));
    assert records[..|records|] == records;
  }

  lemma ArrivedAre(records: seq<Record>, k: nat, l: nat, arrived: seq<Record>)
    requires k <= |records| && l <= |records| && records[..l] == records[..k] + arrived
    ensures k <= l && arrived == records[k..l]
  {
    assert records[..l][k..] == arrived;
  }

  /** While answers are outstanding, an empty chunk changes nothing. */
  lemma EmptyChunkWaits(st: State, expected: seq<Bytes>, records: seq<Record>, n: nat, k: nat, resolved: Option<seq<bool>>)
    requires Complete(expected, records) && n < |EncodeRecords(records)| <= MAX_RESPONSE_BYTES && k < |records|
    requires MidResponse(st, expected, records, n, k, resolved)
    ensures OnChunk(st, []) == st
  { }

  /** The query after `n` bytes: still waiting for some answers, or over; `late` says whether a chunk came after the last byte. */
  ghost predicate Follows(st: State, expected: seq<Bytes>, records: seq<Record>, n: nat, k: nat, resolved: Option<seq<bool>>,
                          late: bool)
    requires Complete(expected, records) && n <= |EncodeRecords(records)|
  {
    if n < |EncodeRecords(records)| then k < |records| && MidResponse(st, expected, records, n, k, resolved)
    else st == Over(records, late)
  }

  lemma OneMoreChunk(st: State, expected: seq<Bytes>, records: seq<Record>, n: nat, m: nat, k: nat, resolved: Option<seq<bool>>,
                     late: bool)
    returns (l: nat)
    requires Complete(expected, records) && records != []
    requires n <= m <= |EncodeRecords(records)| <= MAX_RESPONSE_BYTES
    requires Follows(st, expected, records, n, k, resolved, late)
    ensures Follows(OnChunk(st, EncodeRecords(records)[n..m]), expected, records, m, l, resolved, n == m)
  {
    var stream := EncodeRecords(records);
    l := k;
    if n == m {
      assert stream[n..m] == [];
      if n < |stream| { EmptyChunkWaits(st, expected, records, n, k, resolved); }
    } else {
      l := ChunkAdvances(st, expected, records, n, m, k, resolved);
      if m < |stream| {
        var j := PrefixRecords(records, m);
        assert |records[..l]| == |records[..j]|;
      }
    }
  }

  /** However a complete response is cut into chunks, the query's state follows the bytes. */
  lemma {:induction false} ChunksAdvance(expected: seq<Bytes>, records: seq<Record>, chunks: seq<Bytes>,
                                         resolved: Option<seq<bool>>, done: nat) returns (k: nat)
    requires Complete(expected, records) && records != [] && EncodeRecords(records) != []
    requires |EncodeRecords(records)| <= MAX_RESPONSE_BYTES
    requires done <= |chunks| && Concat(chunks) == EncodeRecords(records)
    ensures |Concat(chunks[..done])| <= |EncodeRecords(records)|
    ensures Follows(OnChunks(Asked(expected, resolved), chunks[..done]), expected, records, |Concat(chunks[..done])|, k, resolved,
                    done > 0 && chunks[done - 1] == [])
  {
    ConcatPrefix(chunks, done);
    if done == 0 {
      k := 0;
      StartIsMidResponse(expected, records, resolved);
      assert chunks[..0] == [];
    } else {
      k := ChunksAdvance(expected, records, chunks, resolved, done - 1);
      NextChunk(chunks, done - 1);
      var st, n := OnChunks(Asked(expected, resolved), chunks[..done - 1]), |Concat(chunks[..done - 1])|;
      k := OneMoreChunk(st, expected, records, n, |Concat(chunks[..done])|, k, resolved, done > 1 && chunks[done - 2] == []);
      OnChunksLast(Asked(expected, resolved), chunks, done);
    }
  }

  lemma OnChunksLast(st: State, chunks: seq<Bytes>, n: nat)
    requires 0 < n <= |chunks|
    ensures OnChunks(st, chunks[..n]) == OnChunk(OnChunks(st, chunks[..n - 1]), chunks[n - 1])
  {
    assert chunks[..n][..n - 1] == chunks[..n - 1];
  }

  /** A query just asked over an empty framer. */
  function Asked(expected: seq<Bytes>, resolved: Option<seq<bool>>): State {
    State(Empty(), Some(Query(expected, [], 0)), false, resolved)
  }

  lemma StartIsMidResponse(expected: seq<Bytes>, records: seq<Record>, resolved: Option<seq<bool>>)
    requires Complete(expected, records)
    ensures MidResponse(Asked(expected, resolved), expected, records, 0, 0, resolved)
  {
    assert EncodeRecords(records)[..0] == [] && records[..0] == [];
    assert Answers([]) == [];
  }

  /** Each chunk is the stretch of the stream between two positions. */
  lemma NextChunk(chunks: seq<Bytes>, i: nat)
    requires i < |chunks|
    ensures |Concat(chunks[..i + 1])| == |Concat(chunks[..i])| + |chunks[i]| <= |Concat(chunks)|
    ensures chunks[i] == Concat(chunks)[|Concat(chunks[..i])|..|Concat(chunks[..i + 1])|]
  {
    ConcatPrefix(chunks, i + 1);
    assert chunks[..i + 1][..i] == chunks[..i];
  }

  /**
   * A complete response resolves its query with the same answers under every chunking. An empty chunk after the
   * last byte counts as unsolicited output: the query keeps its answers and the connection fails.
   */
  lemma CompleteResponseAnswers(expected: seq<Bytes>, records: seq<Record>, chunks: seq<Bytes>, resolved: Option<seq<bool>>)
    requires Complete(expected, records) && records != []
    requires |EncodeRecords(records)| <= MAX_RESPONSE_BYTES
    requires Concat(chunks) == EncodeRecords(records)
    ensures chunks != []
    ensures var st := OnChunks(Asked(expected, resolved), chunks);
            && st.pending.None? && st.resolved == Some(Answers(records)) && st.frame == Empty()
            && (st.failed <==> chunks[|chunks| - 1] == [])
  {
    LastByteEmits(records);
    assert chunks[..|chunks|] == chunks;
    var k := ChunksAdvance(expected, records, chunks, resolved, |chunks|);
  }

  // ---- A query resolves on nothing else ----

  /** Four NUL-free fields for this path: no source, line or pattern, or a source with a positive line and a pattern. */
  ghost predicate Proper(r: Record, path: Bytes) {
    && |r| == 4 && (forall i :: 0 <= i < 4 ==> 0 !in r[i]) && r[3] == path
    && if r[0] == [] then r[1] == r[2] == []
       else r[2] != [] && r[1] != [] && (forall b :: b in r[1] ==> 0x30 <= b <= 0x39) && exists b :: b in r[1] && b > 0x30
  }

  /** One proper record for each path, in order, within the response limit. */
  ghost predicate IsResponse(expected: seq<Bytes>, records: seq<Record>) {
    && |records| == |expected| && (forall i :: 0 <= i < |records| ==> Proper(records[i], expected[i]))
    && |EncodeRecords(records)| <= MAX_RESPONSE_BYTES
  }

  /** No pattern matched, or the one that did begins with an exclamation mark. */
  ghost predicate Kept(r: Record)
    requires |r| == 4
  {
    r[0] == [] || (r[2] != [] && r[2][0] == 0x21)
  }

  /** Each path is managed exactly if its record keeps it. */
  ghost predicate Verdicts(answers: seq<bool>, records: seq<Record>) {
    && |answers| == |records|
    && forall i :: 0 <= i < |records| ==> |records[i]| == 4 && (answers[i] <==> Kept(records[i]))
  }

  lemma ProperMeans(r: Record, path: Bytes)
    ensures Proper(r, path) <==> WireRecord(r) && ValidRecord(r, path)
  {
    if Proper(r, path) {
      forall i | 0 <= i < |r| ensures NulFree(r[i]) {}
      if r[0] != [] {
        var b :| b in r[1] && b > 0x30;
        forall i | 0 <= i < |r[1]| ensures 0x30 <= r[1][i] <= 0x39 { assert r[1][i] in r[1]; }
      }
    }
    if WireRecord(r) && ValidRecord(r, path) {
      forall i | 0 <= i < 4 ensures 0 !in r[i] { assert NulFree(r[i]); }
      if r[0] != [] {
        var i :| 0 <= i < |r[1]| && r[1][i] != 0x30;
        assert r[1][i] in r[1] && r[1][i] > 0x30;
      }
    }
  }

  lemma ResponseIsComplete(expected: seq<Bytes>, records: seq<Record>)
    ensures IsResponse(expected, records) <==>
            Complete(expected, records) && |EncodeRecords(records)| <= MAX_RESPONSE_BYTES
  {
    if |records| == |expected| {
      forall i | 0 <= i < |records|
        ensures Proper(records[i], expected[i]) <==> WireRecord(records[i]) && ValidRecord(records[i], expected[i])
      {
        ProperMeans(records[i], expected[i]);
      }
    }
  }

  lemma AnswersAreVerdicts(records: seq<Record>)
    requires forall i :: 0 <= i < |records| ==> |records[i]| == FIELDS
    ensures Verdicts(Answers(records), records)
  { }

  ghost predicate ValidAt(expected: seq<Bytes>, i: nat, r: Record) {
    i < |expected| && ValidRecord(r, expected[i])
  }

  /** Each record is valid for its own path, counted from the `start`-th. */
  ghost predicate ValidFrom(expected: seq<Bytes>, start: nat, records: seq<Record>) {
    forall i :: 0 <= i < |records| ==> ValidAt(expected, start + i, records[i])
  }

  lemma AnswersJoin(a: seq<Record>, b: seq<Record>)
    ensures Answers(a + b) == Answers(a) + Answers(b)
  { }

  /** Records that were all answered were all valid, and their answers come in order. */
  lemma {:induction false} AnsweredWereValid(expected: seq<Bytes>, results: seq<bool>, records: seq<Record>)
    requires Answer(expected, results, records).Some?
    ensures ValidFrom(expected, |results|, records) && Answer(expected, results, records) == Some(results + Answers(records))
    decreases |records|
  {
    if records == [] {
      assert results + Answers(records) == results;
    } else {
      var first, rest := records[0], records[1..];
      AnsweredWereValid(expected, results + [Managed(first)], rest);
      forall i | 0 <= i < |records| ensures ValidAt(expected, |results| + i, records[i]) {
        if i > 0 { assert ValidAt(expected, |results| + 1 + (i - 1), rest[i - 1]); }
      }
      assert records == [first] + rest;
      AnswersJoin([first], rest);
      assert Answers([first]) == [Managed(first)];
      assert results + [Managed(first)] + Answers(rest) == results + Answers(records);
    }
  }

  lemma ValidTogether(expected: seq<Bytes>, before: seq<Record>, arrived: seq<Record>)
    requires ValidFrom(expected, 0, before) && ValidFrom(expected, |before|, arrived)
    ensures ValidFrom(expected, 0, before + arrived)
    ensures |before + arrived| <= |expected|
  {
    var records := before + arrived;
    forall i | 0 <= i < |records| ensures ValidAt(expected, 0 + i, records[i]) {
      if i < |before| {
        assert ValidAt(expected, 0 + i, before[i]);
      } else {
        assert ValidAt(expected, |before| + (i - |before|), arrived[i - |before|]);
      }
    }
    if records != [] { assert ValidAt(expected, 0 + (|records| - 1), records[|records| - 1]); }
  }

  /** What an unresolved query has read so far: fewer records than expected, each for its own path. */
  ghost predicate Reading(st: State, expected: seq<Bytes>, stream: Bytes, resolved: Option<seq<bool>>) {
    var fed := Feed(Empty(), stream);
    && |fed.records| < |expected| && ValidFrom(expected, 0, fed.records)
    && st == State(fed.frame, Some(Query(expected, Answers(fed.records), |stream|)), false, resolved)
  }

  /** The response was complete after some chunk; any later one failed the connection. */
  ghost predicate ResolvedAfter(st: State, expected: seq<Bytes>, chunks: seq<Bytes>, n: nat, records: seq<Record>)
    requires n <= |chunks|
  {
    && IsResponse(expected, records) && Concat(chunks[..n]) == EncodeRecords(records)
    && st == Over(records, n < |chunks|)
  }

  /** The framer's view of one more chunk. */
  lemma ChunkFeeds(stream: Bytes, chunk: Bytes)
    ensures var before, fed := Feed(Empty(), stream), Feed(Feed(Empty(), stream).frame, chunk);
            Feed(Empty(), stream + chunk) == Fed(fed.frame, before.records + fed.records)
  {
    FeedConcat(Empty(), stream, chunk);
  }

  /** What reading one more chunk may lead to. */
  ghost predicate ReadsOn(after: State, expected: seq<Bytes>, stream: Bytes, resolved: Option<seq<bool>>) {
    var records := Feed(Empty(), stream).records;
    || Reading(after, expected, stream, resolved)
    || (after.failed && after.pending.Some?)
    || (IsResponse(expected, records) && stream == EncodeRecords(records) && after == Over(records, false))
  }

  lemma AnsweredReadsOn(st: State, expected: seq<Bytes>, stream: Bytes, chunk: Bytes, resolved: Option<seq<bool>>,
                        records: seq<Record>)
    requires |stream| + |chunk| <= MAX_RESPONSE_BYTES && ValidFrom(expected, 0, records) && |records| <= |expected|
    requires Feed(Empty(), stream + chunk) == Fed(Feed(st.frame, chunk).frame, records)
    requires st.pending.Some? && st.pending.value.expected == expected && st.pending.value.responseBytes == |stream|
    requires st == State(st.frame, st.pending, false, resolved)
    requires Answer(expected, st.pending.value.results, Feed(st.frame, chunk).records) == Some(Answers(records))
    ensures ReadsOn(OnChunk(st, chunk), expected, stream + chunk, resolved)
  {
    var frame, total := Feed(st.frame, chunk).frame, |stream| + |chunk|;
    assert OnChunk(st, chunk) == Settle(Query(expected, st.pending.value.results, total), frame, Some(Answers(records)), resolved);
    assert |stream + chunk| == total;
    SettledReadsOn(expected, stream + chunk, resolved, records, frame, st.pending.value.results);
  }

  lemma SettledReadsOn(expected: seq<Bytes>, stream: Bytes, resolved: Option<seq<bool>>, records: seq<Record>, frame: Frame,
                       before: seq<bool>)
    requires |stream| <= MAX_RESPONSE_BYTES && ValidFrom(expected, 0, records) && |records| <= |expected|
    requires Feed(Empty(), stream) == Fed(frame, records)
    ensures ReadsOn(Settle(Query(expected, before, |stream|), frame, Some(Answers(records)), resolved), expected, stream, resolved)
  {
    if |records| == |expected| && !HasFragmentIn(frame) { EndsAtRecords(expected, stream); }
  }

  lemma ReadingMore(st: State, expected: seq<Bytes>, stream: Bytes, chunk: Bytes, resolved: Option<seq<bool>>)
    requires Reading(st, expected, stream, resolved)
    ensures ReadsOn(OnChunk(st, chunk), expected, stream + chunk, resolved)
  {
    var before, arrived := Feed(Empty(), stream).records, Feed(st.frame, chunk).records;
    if |stream| + |chunk| > MAX_RESPONSE_BYTES || Answer(expected, Answers(before), arrived).None? {
      assert OnChunk(st, chunk).failed && OnChunk(st, chunk).pending.Some?;
      return;
    }
    ChunkFeeds(stream, chunk);
    AnsweredWereValid(expected, Answers(before), arrived);
    ValidTogether(expected, before, arrived);
    AnswersJoin(before, arrived);
    AnsweredReadsOn(st, expected, stream, chunk, resolved, before + arrived);
  }

  /** A stream within the limit whose records are all valid and that ends at a record boundary is a response. */
  lemma EndsAtRecords(expected: seq<Bytes>, stream: Bytes)
    requires |stream| <= MAX_RESPONSE_BYTES && !HasFragmentIn(Feed(Empty(), stream).frame)
    requires |Feed(Empty(), stream).records| == |expected| && ValidFrom(expected, 0, Feed(Empty(), stream).records)
    ensures var records := Feed(Empty(), stream).records;
            IsResponse(expected, records) && stream == EncodeRecords(records) && Feed(Empty(), stream).frame == Empty()
  {
    var records := Feed(Empty(), stream).records;
    FeedInverts(stream);
    FeedStaysReachable(Empty(), stream);
    forall i | 0 <= i < |records| ensures WireRecord(records[i]) && ValidRecord(records[i], expected[i]) {
      assert records[i] in records && ValidAt(expected, 0 + i, records[i]);
    }
    assert stream == EncodeRecords(records);
    ResponseIsComplete(expected, records);
  }

  /** Where a query stands after some chunks: still reading, failed, or resolved by a complete response. */
  ghost predicate Stands(st: State, expected: seq<Bytes>, chunks: seq<Bytes>, resolved: Option<seq<bool>>) {
    || Reading(st, expected, Concat(chunks), resolved)
    || (st.failed && st.pending.Some?)
    || exists n, records :: 0 <= n <= |chunks| && ResolvedAfter(st, expected, chunks, n, records)
  }

  lemma StandsStep(st: State, expected: seq<Bytes>, chunks: seq<Bytes>, chunk: Bytes, resolved: Option<seq<bool>>)
    requires Stands(st, expected, chunks, resolved)
    ensures Stands(OnChunk(st, chunk), expected, chunks + [chunk], resolved)
  {
    var more, after := chunks + [chunk], OnChunk(st, chunk);
    ConcatSnoc(chunks, chunk);
    if Reading(st, expected, Concat(chunks), resolved) {
      ReadingMore(st, expected, Concat(chunks), chunk, resolved);
      var records := Feed(Empty(), Concat(more)).records;
      assert more[..|more|] == more;
      if after == Over(records, false) && IsResponse(expected, records) && Concat(more) == EncodeRecords(records) {
        assert ResolvedAfter(after, expected, more, |more|, records);
      }
    } else if n, records :| 0 <= n <= |chunks| && ResolvedAfter(st, expected, chunks, n, records) {
      assert more[..n] == chunks[..n] && after == Over(records, true);
      assert ResolvedAfter(after, expected, more, n, records);
    } else {
      assert after == st;
    }
  }

  lemma {:induction false} OnlyResponsesResolve(expected: seq<Bytes>, chunks: seq<Bytes>, resolved: Option<seq<bool>>)
    requires expected != []
    ensures Stands(OnChunks(Asked(expected, resolved), chunks), expected, chunks, resolved)
  {
    if chunks == [] {
      assert Answers([]) == [];
      assert Reading(Asked(expected, resolved), expected, [], resolved);
    } else {
      var k := |chunks| - 1;
      OnlyResponsesResolve(expected, chunks[..k], resolved);
      StandsStep(OnChunks(Asked(expected, resolved), chunks[..k]), expected, chunks[..k], chunks[k], resolved);
      assert chunks == chunks[..k] + [chunks[k]];
    }
  }

  /** Once resolved, a query stays resolved with the same answers. */
  lemma {:induction false} ResolvedStays(st: State, chunks: seq<Bytes>)
    requires st.pending.None?
    ensures OnChunks(st, chunks) == st.(failed := st.failed || chunks != [])
  {
    if chunks != [] { ResolvedStays(st, chunks[..|chunks| - 1]); }
  }

  lemma {:induction false} OnChunksJoin(st: State, a: seq<Bytes>, b: seq<Bytes>)
    ensures OnChunks(st, a + b) == OnChunks(OnChunks(st, a), b)
    decreases |b|
  {
    if b == [] {
      assert a + b == a;
    } else {
      assert (a + b)[..|a + b| - 1] == a + b[..|b| - 1];
      OnChunksJoin(st, a, b[..|b| - 1]);
    }
  }

  /** The chunks begin with a complete response. */
  ghost predicate StartsWithResponse(expected: seq<Bytes>, chunks: seq<Bytes>, n: nat, records: seq<Record>)
    requires n <= |chunks|
  {
    IsResponse(expected, records) && Concat(chunks[..n]) == EncodeRecords(records)
  }

  ghost predicate BeginsWithResponse(expected: seq<Bytes>, chunks: seq<Bytes>) {
    exists n, records :: 0 <= n <= |chunks| && StartsWithResponse(expected, chunks, n, records)
  }

  /** Resolved with the verdicts of a response the chunks begin with; anything after it failed the connection. */
  ghost predicate ResolvedByResponse(st: State, expected: seq<Bytes>, chunks: seq<Bytes>) {
    exists n, records ::
      && 0 <= n <= |chunks| && StartsWithResponse(expected, chunks, n, records)
      && st.resolved.Some? && Verdicts(st.resolved.value, records) && (st.failed <==> n < |chunks|)
  }

  lemma ResolvedIsByResponse(st: State, expected: seq<Bytes>, chunks: seq<Bytes>, n: nat, records: seq<Record>)
    requires n <= |chunks| && ResolvedAfter(st, expected, chunks, n, records)
    ensures BeginsWithResponse(expected, chunks) && ResolvedByResponse(st, expected, chunks)
  {
    assert StartsWithResponse(expected, chunks, n, records);
    AnswersAreVerdicts(records);
  }

  lemma ResponseResolves(expected: seq<Bytes>, chunks: seq<Bytes>, resolved: Option<seq<bool>>, n: nat, records: seq<Record>)
    requires expected != [] && n <= |chunks| && StartsWithResponse(expected, chunks, n, records)
    ensures OnChunks(Asked(expected, resolved), chunks).pending.None?
  {
    ResponseIsComplete(expected, records);
    CompleteResponseAnswers(expected, records, chunks[..n], resolved);
    assert chunks == chunks[..n] + chunks[n..];
    OnChunksJoin(Asked(expected, resolved), chunks[..n], chunks[n..]);
    ResolvedStays(OnChunks(Asked(expected, resolved), chunks[..n]), chunks[n..]);
  }

  /**
   * A query resolves exactly when the chunks begin with a complete response, cut anyhow, and its answers are that
   * response's verdicts. Malformed, misdirected, missing or trailing records never resolve it.
   */
  lemma ResolvesExactly(expected: seq<Bytes>, chunks: seq<Bytes>, resolved: Option<seq<bool>>)
    requires expected != []
    ensures var st := OnChunks(Asked(expected, resolved), chunks);
            && (st.pending.None? <==> BeginsWithResponse(expected, chunks))
            && (st.pending.None? ==> ResolvedByResponse(st, expected, chunks))
  {
    var st := OnChunks(Asked(expected, resolved), chunks);
    OnlyResponsesResolve(expected, chunks, resolved);
    if st.pending.None? {
      var n, records :| 0 <= n <= |chunks| && ResolvedAfter(st, expected, chunks, n, records);
      ResolvedIsByResponse(st, expected, chunks, n, records);
    }
    if BeginsWithResponse(expected, chunks) {
      var n, records :| 0 <= n <= |chunks| && StartsWithResponse(expected, chunks, n, records);
      ResponseResolves(expected, chunks, resolved, n, records);
    }
  }

  /** One unmatched path's answer, whole, after an empty chunk, and followed by one. */
  lemma EmptyChunkAfterCompletionFails()
    ensures var path, records := [0x61], [[[], [], [], [0x61]]];
            && OnChunks(Asked([path], None), [EncodeRecords(records)]) == Over(records, false)
            && OnChunks(Asked([path], None), [[], EncodeRecords(records)]) == Over(records, false)
            && OnChunks(Asked([path], None), [EncodeRecords(records), []]) == Over(records, true)
  {
    var path: Bytes, records: seq<Record> := [0x61], [[[], [], [], [0x61]]];
    var stream := EncodeRecords(records);
    SmallResponse(records[0]);
    assert Complete([path], records);
    var none: seq<Bytes> := [];
    assert none + [stream] == [stream] && none + [[]] == [[]];
    ConcatSnoc(none, stream);
    ConcatSnoc(none, []);
    ConcatSnoc([[]], stream);
    ConcatSnoc([stream], []);
    CompleteResponseAnswers([path], records, [stream], None);
    CompleteResponseAnswers([path], records, [[], stream], None);
    CompleteResponseAnswers([path], records, [stream, []], None);
  }

  /** One more field of a record. */
  lemma OneMoreField(front: Record, before: Bytes, field: Bytes, fields: Record, bytes: Bytes)
    requires EncodeFields(front) == before && fields == front + [field] && bytes == before + (field + [0])
    ensures EncodeFields(fields) == bytes
  {
    EncodeFieldsSnoc(front, field);
  }

  lemma SmallRecord(r: Record)
    requires r == [[], [], [], [0x61]]
    ensures WireRecord(r) && EncodeFields(r) == [0, 0, 0, 0x61, 0]
  {
    OneMoreField([], [], [], [[]], [0]);
    OneMoreField([[]], [0], [], [[], []], [0, 0]);
    OneMoreField([[], []], [0, 0], [], [[], [], []], [0, 0, 0]);
    OneMoreField([[], [], []], [0, 0, 0], [0x61], r, [0, 0, 0, 0x61, 0]);
  }

  lemma SmallResponse(r: Record)
    requires r == [[], [], [], [0x61]]
    ensures WireRecord(r) && EncodeRecords([r]) == [0, 0, 0, 0x61, 0]
  {
    var before: seq<Record> := [];
    assert before + [r] == [r];
    EncodeRecordsSnoc(before, r);
    SmallRecord(r);
  }
}
