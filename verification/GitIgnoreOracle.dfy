/** The oracle connection: writing a query, receiving its response, placing the answers. */
module GitIgnoreOracle {
  import opened Wrappers
  import opened Sequences
  import opened RecordFramer
  import opened OracleProtocol

  class OracleConnection {
    const framer: NulRecordFramer
    var pending: Option<Query>
    var failed: bool
    var resolved: Option<seq<bool>>

    ghost predicate Valid()
      reads this, framer
    {
      framer.Valid()
    }

    function Current(): State
      reads this, framer
    {
      State(framer.Open(), pending, failed, resolved)
    }

    constructor ()
      ensures Valid() && fresh(framer) && Current() == State(Empty(), None, false, None)
    {
      framer := new NulRecordFramer();
      pending, failed, resolved := None, false, None;
    }

    /** A query starts only when the previous one left nothing behind. */
    method StartQuery(expected: seq<Bytes>) returns (ok: bool)
      requires Valid()
      modifies this`pending
      ensures Valid()
      ensures ok <==> !failed && old(pending).None? && !HasFragmentIn(framer.Open())
      ensures Current() == if ok then old(Current()).(pending := Some(Query(expected, [], 0))) else old(Current())
    {
      var fragment := framer.HasFragment();
      ok := !failed && pending.None? && !fragment;
      if ok { pending := Some(Query(expected, [], 0)); }
    }

    method OnStdout(chunk: Bytes)
      requires Valid()
      modifies this, framer
      ensures Valid() && Current() == OnChunk(old(Current()), chunk)
    {
      if failed { return; }
      if pending.None? {
        failed := true;
        return;
      }
      var q := pending.value;
      pending := Some(q.(responseBytes := q.responseBytes + |chunk|));
      if q.responseBytes + |chunk| > MAX_RESPONSE_BYTES {
        failed := true;
        return;
      }
      var records := framer.Push(chunk);
      var answers := CheckRecords(q.expected, q.results, records);
      if answers.None? {
        failed := true;
        return;
      }
      pending := Some(Query(q.expected, answers.value, q.responseBytes + |chunk|));
      if |answers.value| >= |q.expected| {
        var fragment := framer.HasFragment();
        if fragment {
          failed := true;
        } else {
          pending, resolved := None, answers;
        }
      }
    }

    /** Ask, feed every chunk of the response, and take the answers if the query resolved, even if the connection failed later. */
    method Ask(expected: seq<Bytes>, chunks: seq<Bytes>, ghost records: seq<Record>) returns (answers: Option<seq<bool>>)
      requires Valid() && expected != []
      modifies this, framer
      ensures Valid() && (answers.Some? ==> |answers.value| == |expected|)
      ensures old(Idle()) && WholeResponse(expected, records, chunks) ==>
                answers == Some(Answers(records)) && (Idle() <==> chunks[|chunks| - 1] != [])
      ensures old(Idle()) ==> (answers.Some? <==> BeginsWithResponse(expected, chunks))
      ensures old(Idle()) && answers.Some? ==> AnsweredBy(answers.value, expected, chunks)
    {
      var ok := StartQuery(expected);
      if !ok { return None; }
      ghost var start := Current();
      for i := 0 to |chunks|
        invariant Valid() && Current() == OnChunks(start, chunks[..i])
      {
        assert chunks[..i + 1][..i] == chunks[..i];
        OnStdout(chunks[i]);
      }
      assert chunks[..|chunks|] == chunks;
      if WholeResponse(expected, records, chunks) { CompleteResponseAnswers(expected, records, chunks, start.resolved); }
      ResolvedInFull(expected, start.resolved, start.frame, chunks);
      ResolvesExactly(expected, chunks, start.resolved);
      if pending.Some? { return None; }
      return resolved;
    }

    /** Ready for a query, with nothing left over from the last one. */
    ghost predicate Idle()
      reads this, framer
    {
      !failed && pending.None? && framer.Open() == Empty()
    }

    /** One batch of paths, from delegation to placement. */
    method ManagedPaths(paths: seq<Bytes>, representable: seq<bool>, chunks: seq<Bytes>, ghost records: seq<Record>)
      returns (results: Option<seq<bool>>)
      requires Valid() && |paths| == |representable|
      modifies this, framer
      ensures Valid()
      ensures old(Idle()) && WholeResponse(Delegated(paths, representable), records, chunks) && records != [] ==>
                && results.Some? && Placed(results.value, paths, representable, records)
                && (Idle() <==> chunks[|chunks| - 1] != [])
      ensures old(Idle()) && Indexes(representable) != [] ==>
                && (results.Some? <==> BeginsWithResponse(Delegated(paths, representable), chunks))
                && (results.Some? ==> PlacedFrom(results.value, paths, representable, chunks))
      ensures Indexes(representable) == [] ==>
                results.Some? && |results.value| == |paths| && forall i :: 0 <= i < |paths| ==> !results.value[i]
    {
      var delegated, indexes := Delegate(paths, representable);
      if delegated == [] {
        var unasked := PlaceAnswers(|paths|, indexes, []);
        return Some(unasked[..]);
      }
      var answers := Ask(delegated, chunks, records);
      if answers.None? { return None; }
      var placed := PlaceVerdicts(paths, representable, delegated, indexes, chunks, answers.value, records);
      return Some(placed);
    }
  }

  /** Each answer goes to the path it is for. */
  method PlaceVerdicts(paths: seq<Bytes>, representable: seq<bool>, delegated: seq<Bytes>, indexes: seq<nat>,
                       ghost chunks: seq<Bytes>, answers: seq<bool>, ghost records: seq<Record>)
    returns (results: seq<bool>)
    requires |paths| == |representable| && |answers| == |delegated| == |indexes| && indexes == Indexes(representable)
    requires delegated == Delegated(paths, representable)
    requires forall i, j :: 0 <= i < j < |indexes| ==> indexes[i] < indexes[j]
    requires forall k :: k in indexes <==> 0 <= k < |paths| && representable[k]
    requires forall j :: 0 <= j < |indexes| ==> indexes[j] < |paths| && delegated[j] == paths[indexes[j]]
    ensures |results| == |paths|
    ensures WholeResponse(delegated, records, chunks) && answers == Answers(records) ==>
              Placed(results, paths, representable, records)
    ensures AnsweredBy(answers, delegated, chunks) ==> PlacedFrom(results, paths, representable, chunks)
  {
    var placed := PlaceAnswers(|paths|, indexes, answers);
    results := placed[..];
    if WholeResponse(delegated, records, chunks) && answers == Answers(records) {
      AnswersArePlaced(paths, representable, delegated, indexes, records, answers, results);
    }
    if AnsweredBy(answers, delegated, chunks) {
      VerdictsArePlaced(paths, representable, delegated, indexes, chunks, answers, results);
    }
  }

  lemma AnswersArePlaced(paths: seq<Bytes>, representable: seq<bool>, delegated: seq<Bytes>, indexes: seq<nat>,
                         records: seq<Record>, answers: seq<bool>, results: seq<bool>)
    requires |paths| == |representable| == |results| && indexes == Indexes(representable) && |delegated| == |indexes|
    requires forall k :: k in indexes <==> 0 <= k < |paths| && representable[k]
    requires forall j :: 0 <= j < |indexes| ==> indexes[j] < |paths| && delegated[j] == paths[indexes[j]]
    requires Complete(delegated, records) && answers == Answers(records)
    requires forall j :: 0 <= j < |indexes| ==> results[indexes[j]] == answers[j]
    requires forall k :: 0 <= k < |paths| && k !in indexes ==> !results[k]
    ensures Placed(results, paths, representable, records)
  { }

  lemma VerdictsArePlaced(paths: seq<Bytes>, representable: seq<bool>, delegated: seq<Bytes>, indexes: seq<nat>,
                          chunks: seq<Bytes>, answers: seq<bool>, results: seq<bool>)
    requires |paths| == |representable| == |results| && indexes == Indexes(representable) && |delegated| == |indexes|
    requires delegated == Delegated(paths, representable) && AnsweredBy(answers, delegated, chunks)
    requires forall k :: k in indexes <==> 0 <= k < |paths| && representable[k]
    requires forall j :: 0 <= j < |indexes| ==> indexes[j] < |paths| && delegated[j] == paths[indexes[j]]
    requires |answers| == |indexes| && forall j :: 0 <= j < |indexes| ==> results[indexes[j]] == answers[j]
    requires forall k :: 0 <= k < |paths| && k !in indexes ==> !results[k]
    ensures PlacedFrom(results, paths, representable, chunks)
  {
    var n, records :|
      0 <= n <= |chunks| && StartsWithResponse(delegated, chunks, n, records) && Verdicts(answers, records);
    forall j | 0 <= j < |records|
      ensures records[j][3] == paths[indexes[j]] && (results[indexes[j]] <==> Kept(records[j]))
    {
      assert Proper(records[j], delegated[j]);
    }
    assert Placed(results, paths, representable, records);
  }

  /** The answers are the verdicts of a response that the chunks begin with. */
  ghost predicate AnsweredBy(answers: seq<bool>, expected: seq<Bytes>, chunks: seq<Bytes>) {
    exists n, records :: 0 <= n <= |chunks| && StartsWithResponse(expected, chunks, n, records) && Verdicts(answers, records)
  }

  ghost predicate PlacedFrom(results: seq<bool>, paths: seq<Bytes>, representable: seq<bool>, chunks: seq<Bytes>)
    requires |paths| == |representable|
  {
    exists n, records ::
      && 0 <= n <= |chunks| && StartsWithResponse(Delegated(paths, representable), chunks, n, records)
      && Placed(results, paths, representable, records)
  }

  /** A response with exactly the expected records, however it is cut. */
  ghost predicate WholeResponse(expected: seq<Bytes>, records: seq<Record>, chunks: seq<Bytes>) {
    && Complete(expected, records) && |EncodeRecords(records)| <= MAX_RESPONSE_BYTES
    && Concat(chunks) == EncodeRecords(records) && chunks != []
  }

  /** Each path Git was asked about has its own record's answer; the others are not managed. */
  ghost predicate Placed(results: seq<bool>, paths: seq<Bytes>, representable: seq<bool>, records: seq<Record>) {
    && |results| == |paths| == |representable| && |records| == |Indexes(representable)|
    && (forall j :: 0 <= j < |records| ==>
          var i := Indexes(representable)[j];
          i < |paths| && |records[j]| == 4 && records[j][3] == paths[i] && (results[i] <==> Kept(records[j])))
    && (forall i :: 0 <= i < |paths| && !representable[i] ==> !results[i])
  }

  method CheckRecords(expected: seq<Bytes>, results: seq<bool>, records: seq<Record>) returns (r: Option<seq<bool>>)
    ensures r == Answer(expected, results, records)
  {
    var answers := results;
    assert records[0..] == records;
    for i := 0 to |records|
      invariant Answer(expected, answers, records[i..]) == Answer(expected, results, records)
    {
      assert records[i..][1..] == records[i + 1..];
      var decimal := |records[i]| == FIELDS;
      if decimal { decimal := IsPositiveDecimalLine(records[i][1]); }
      if |answers| >= |expected| || |records[i]| != FIELDS { return None; }
      var nonMatch := records[i][0] == [];
      var validNonMatch := nonMatch && records[i][1] == [] && records[i][2] == [];
      var validMatch := !nonMatch && decimal && records[i][2] != [];
      if records[i][3] != expected[|answers|] || (!validNonMatch && !validMatch) { return None; }
      var negated := !nonMatch && records[i][2][0] == 0x21;
      answers := answers + [nonMatch || negated];
    }
    return Some(answers);
  }

  /** After a complete response the connection accepts the next query. */
  lemma NextQueryStartsClean(st: State, records: seq<Record>)
    requires st == Over(records, false)
    ensures !st.failed && st.pending.None? && !HasFragmentIn(st.frame)
    ensures st.resolved == Some(Answers(records))
  {
  }

  function EncodePaths(paths: seq<Bytes>): Bytes {
    if paths == [] then [] else EncodePaths(paths[..|paths| - 1]) + (paths[|paths| - 1] + [0])
  }

  /** Within the chunk limit, or one path on its own. */
  predicate FitsOneWrite(chunk: Bytes, paths: seq<Bytes>) {
    |chunk| <= MAX_WRITE_CHUNK_BYTES || exists i :: 0 <= i < |paths| && chunk == paths[i] + [0]
  }

  ghost predicate GoodChunks(chunks: seq<Bytes>, paths: seq<Bytes>) {
    forall i :: 0 <= i < |chunks| ==> chunks[i] != [] && FitsOneWrite(chunks[i], paths)
  }

  /** Paths are written in bounded, non-empty chunks that never split a path. */
  method WriteInput(paths: seq<Bytes>) returns (chunks: seq<Bytes>)
    ensures Concat(chunks) == EncodePaths(paths) && GoodChunks(chunks, paths)
  {
    chunks := [];
    var open: Bytes := [];
    for i := 0 to |paths|
      invariant Concat(chunks) + open == EncodePaths(paths[..i])
      invariant GoodChunks(chunks, paths) && FitsOneWrite(open, paths)
    {
      chunks, open := AppendPath(chunks, open, paths, i);
      assert paths[..i + 1][..i] == paths[..i];
    }
    assert paths[..|paths|] == paths;
    if open != [] {
      ConcatSnoc(chunks, open);
      chunks := chunks + [open];
    }
  }

  method AppendPath(chunks: seq<Bytes>, open: Bytes, paths: seq<Bytes>, i: nat)
    returns (r: seq<Bytes>, rest: Bytes)
    requires i < |paths| && GoodChunks(chunks, paths) && FitsOneWrite(open, paths)
    ensures Concat(r) + rest == Concat(chunks) + open + (paths[i] + [0])
    ensures GoodChunks(r, paths) && FitsOneWrite(rest, paths)
  {
    r, rest := chunks, open;
    if |open| > 0 && |open| + |paths[i]| + 1 > MAX_WRITE_CHUNK_BYTES {
      ConcatSnoc(chunks, open);
      r, rest := chunks + [open], [];
    }
    if rest == [] { assert rest + (paths[i] + [0]) == paths[i] + [0]; }
    rest := rest + (paths[i] + [0]);
  }

  /** The positions Git can be asked about, in order. */
  function Indexes(representable: seq<bool>): seq<nat> {
    if representable == [] then []
    else
      var n := |representable| - 1;
      Indexes(representable[..n]) + if representable[n] then [n] else []
  }

  /** The paths at those positions. */
  function Delegated(paths: seq<Bytes>, representable: seq<bool>): seq<Bytes>
    requires |paths| == |representable|
  {
    if paths == [] then []
    else
      var n := |paths| - 1;
      Delegated(paths[..n], representable[..n]) + if representable[n] then [paths[n]] else []
  }

  lemma {:induction false} IndexesAscend(representable: seq<bool>)
    ensures forall j :: 0 <= j < |Indexes(representable)| ==> Indexes(representable)[j] < |representable|
    ensures forall i, j :: 0 <= i < j < |Indexes(representable)| ==> Indexes(representable)[i] < Indexes(representable)[j]
  {
    if representable != [] { IndexesAscend(representable[..|representable| - 1]); }
  }

  lemma {:induction false} IndexListed(representable: seq<bool>, k: nat)
    ensures k in Indexes(representable) <==> k < |representable| && representable[k]
  {
    if representable != [] { IndexListed(representable[..|representable| - 1], k); }
  }

  lemma {:induction false} DelegatedAt(paths: seq<Bytes>, representable: seq<bool>, j: nat)
    requires |paths| == |representable|
    ensures |Delegated(paths, representable)| == |Indexes(representable)|
    ensures j < |Indexes(representable)| ==>
              Indexes(representable)[j] < |paths| && Delegated(paths, representable)[j] == paths[Indexes(representable)[j]]
  {
    if paths != [] { DelegatedAt(paths[..|paths| - 1], representable[..|paths| - 1], j); }
  }

  /** Paths Git can be asked about, with their positions in the query. */
  method Delegate(paths: seq<Bytes>, representable: seq<bool>) returns (delegated: seq<Bytes>, indexes: seq<nat>)
    requires |paths| == |representable|
    ensures |delegated| == |indexes| && indexes == Indexes(representable) && delegated == Delegated(paths, representable)
    ensures forall i, j :: 0 <= i < j < |indexes| ==> indexes[i] < indexes[j]
    ensures forall k :: k in indexes <==> 0 <= k < |paths| && representable[k]
    ensures forall j :: 0 <= j < |indexes| ==> indexes[j] < |paths| && delegated[j] == paths[indexes[j]]
  {
    delegated, indexes := [], [];
    for i := 0 to |paths|
      invariant indexes == Indexes(representable[..i]) && delegated == Delegated(paths[..i], representable[..i])
    {
      assert representable[..i + 1][..i] == representable[..i] && paths[..i + 1][..i] == paths[..i];
      if representable[i] {
        delegated, indexes := delegated + [paths[i]], indexes + [i];
      }
    }
    assert representable[..|paths|] == representable && paths[..|paths|] == paths;
    IndexesAscend(representable);
    forall k: nat ensures k in indexes <==> k < |paths| && representable[k] { IndexListed(representable, k); }
    DelegatedAt(paths, representable, 0);
    forall j | 0 <= j < |indexes| ensures indexes[j] < |paths| && delegated[j] == paths[indexes[j]] {
      DelegatedAt(paths, representable, j);
    }
  }

  /** Each answer lands at its own query's index; unrepresentable paths are not managed. */
  method PlaceAnswers(count: nat, indexes: seq<nat>, answers: seq<bool>) returns (results: array<bool>)
    requires |answers| == |indexes|
    requires forall i, j :: 0 <= i < j < |indexes| ==> indexes[i] < indexes[j]
    requires forall j :: 0 <= j < |indexes| ==> indexes[j] < count
    ensures fresh(results) && results.Length == count
    ensures forall j :: 0 <= j < |indexes| ==> results[indexes[j]] == answers[j]
    ensures forall k :: 0 <= k < count && k !in indexes ==> !results[k]
  {
    results := new bool[count](_ => false);
    for j := 0 to |answers|
      invariant forall i :: 0 <= i < j ==> results[indexes[i]] == answers[i]
      invariant forall k :: 0 <= k < count && k !in indexes ==> !results[k]
    {
      results[indexes[j]] := answers[j];
    }
  }
}
