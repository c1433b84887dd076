/** The batched candidate loop: up to eight reads pending, flushed before anything that could observe them. */
module WorkspaceScan {
  import opened Wrappers
  import opened ScanLaws
  import opened ScanModel

  const SCAN_CONCURRENCY: nat := 8

  /** Settle pending reads in order. */
  function FlushAll(s: Scan, pending: seq<Candidate>, limits: Limits): Scanning
    requires forall c :: c in pending ==> c.body.Regular?
  {
    if pending == [] then Ok(s)
    else
      match FlushAll(s, pending[..|pending| - 1], limits)
      case Err(e) => Err(e)
      case Ok(before) => TakeRead(before, pending[|pending| - 1], limits)
  }

  function Keys(candidates: seq<Candidate>): set<string> {
    set c | c in candidates :: c.key
  }

  function Sizes(pending: seq<Candidate>): nat
    requires forall c :: c in pending ==> c.body.Regular?
  {
    if pending == [] then 0 else Sizes(pending[..|pending| - 1]) + pending[|pending| - 1].body.size
  }

  /** Regular files that have reached a read, whose keys nobody holds. */
  ghost predicate Deferred(s: Scan, pending: seq<Candidate>, limits: Limits) {
    && (forall c :: c in pending ==>
          c.managed && c.sameDevice && c.body.Regular? && c.body.nlink <= 1 && c.body.size <= limits.maxFileBytes)
    && (forall c :: c in pending ==> c.key !in s.owners)
    && (forall i, j :: 0 <= i < j < |pending| ==> pending[i].key != pending[j].key)
  }

  function Then(q: Scanning, c: Candidate, limits: Limits): Scanning {
    match q case Err(e) => Err(e) case Ok(s) => HandleOne(s, c, limits)
  }

  method Flush(s: Scan, pending: seq<Candidate>, limits: Limits) returns (r: Scanning)
    requires forall c :: c in pending ==> c.body.Regular?
    ensures if r.Ok? then r == FlushAll(s, pending, limits) else FlushAll(s, pending, limits).Err?
  {
    var scan := s;
    for i := 0 to |pending|
      invariant FlushAll(s, pending[..i], limits) == Ok(scan)
    {
      assert pending[..i + 1][..i] == pending[..i];
      var next := TakeRead(scan, pending[i], limits);
      if next.Err? {
        FlushErrs(s, pending, i + 1, limits);
        return next;
      }
      scan := next.value;
    }
    assert pending[..|pending|] == pending;
    return Ok(scan);
  }

  lemma {:induction false} FlushErrs(s: Scan, pending: seq<Candidate>, n: nat, limits: Limits)
    requires forall c :: c in pending ==> c.body.Regular?
    requires n <= |pending| && FlushAll(s, pending[..n], limits).Err?
    ensures FlushAll(s, pending, limits).Err?
    decreases |pending| - n
  {
    if n < |pending| {
      assert pending[..n + 1][..n] == pending[..n];
      FlushErrs(s, pending, n + 1, limits);
    } else {
      assert pending[..n] == pending;
    }
  }

  /** A finished read claims at most its own key and takes none away. */
  lemma ReadOwners(s: Scan, c: Candidate, limits: Limits)
    requires c.body.Regular? && c.key !in s.owners
    ensures var r := TakeRead(s, c, limits);
            r.Ok? ==> && r.value.owners.Keys <= s.owners.Keys + {c.key}
                      && forall k :: k in s.owners ==> k in r.value.owners && r.value.owners[k] == s.owners[k]
  { }

  /** A flush claims only pending keys, so other owners stand. */
  lemma {:induction false} FlushOwners(s: Scan, pending: seq<Candidate>, limits: Limits)
    requires Deferred(s, pending, limits)
    ensures var r := FlushAll(s, pending, limits);
            r.Ok? ==> && r.value.owners.Keys <= s.owners.Keys + Keys(pending)
                      && forall k :: k in s.owners ==> k in r.value.owners && r.value.owners[k] == s.owners[k]
  {
    if pending != [] {
      var front, last := pending[..|pending| - 1], pending[|pending| - 1];
      assert pending == front + [last];
      FlushOwners(s, front, limits);
      var before := FlushAll(s, front, limits);
      if before.Ok? && last.key !in before.value.owners { ReadOwners(before.value, last, limits); }
    }
  }

  lemma TakeReadRespects(a: Scan, b: Scan, c: Candidate, limits: Limits)
    requires SameScan(a, b) && c.body.Regular?
    ensures Same(TakeRead(a, c, limits), TakeRead(b, c, limits))
  {
  }

  /** A problem noted before a read could as well be noted after it. */
  lemma ProblemAfterRead(s: Scan, c: Candidate, path: string, kind: ProblemKind, limits: Limits)
    requires c.body.Regular?
    ensures var a, b := TakeRead(WithProblem(s, path, kind), c, limits), TakeRead(s, c, limits);
            if b.Ok? then a.Ok? && SameScan(a.value, WithProblem(b.value, path, kind)) else a.Err?
  {
  }

  lemma {:induction false} FlushIgnoresProblems(s: Scan, pending: seq<Candidate>, path: string, kind: ProblemKind, limits: Limits)
    requires forall c :: c in pending ==> c.body.Regular?
    ensures var a, b := FlushAll(WithProblem(s, path, kind), pending, limits), FlushAll(s, pending, limits);
            if b.Ok? then a.Ok? && SameScan(a.value, WithProblem(b.value, path, kind)) else a.Err?
  {
    if pending != [] {
      var front, last := pending[..|pending| - 1], pending[|pending| - 1];
      FlushIgnoresProblems(s, front, path, kind, limits);
      var a, b := FlushAll(WithProblem(s, path, kind), front, limits), FlushAll(s, front, limits);
      if b.Ok? {
        TakeReadRespects(a.value, WithProblem(b.value, path, kind), last, limits);
        ProblemAfterRead(b.value, last, path, kind, limits);
      }
    }
  }

  /** Deferring a readable file is handling it now. */
  lemma DeferRead(s: Scan, pending: seq<Candidate>, c: Candidate, q: Scanning, limits: Limits)
    requires Deferred(s, pending + [c], limits)
    requires Deferred(s, pending, limits) && Same(FlushAll(s, pending, limits), q)
    ensures Same(FlushAll(s, pending + [c], limits), Then(q, c, limits))
  {
    assert (pending + [c])[..|pending|] == pending;
    var flushed := FlushAll(s, pending, limits);
    FlushOwners(s, pending, limits);
    assert c in pending + [c];
    assert c.key !in Keys(pending) by {
      forall p | p in pending ensures p.key != c.key {
        var i :| 0 <= i < |pending| && pending[i] == p;
        assert (pending + [c])[i] == p && (pending + [c])[|pending|] == c;
      }
    }
    if flushed.Ok? {
      assert HandleOne(flushed.value, c, limits) == TakeRead(flushed.value, c, limits);
      HandleOneRespects(flushed.value, q.value, c, limits);
    }
  }

  /** A collision with a settled owner may be noted before the pending reads. */
  lemma DeferCollision(s: Scan, pending: seq<Candidate>, c: Candidate, q: Scanning, limits: Limits)
    requires Deferred(s, pending, limits) && Same(FlushAll(s, pending, limits), q)
    requires c.managed && c.sameDevice && c.key in s.owners
    ensures Same(FlushAll(WithProblem(s, c.path, Collision(s.owners[c.key])), pending, limits), Then(q, c, limits))
  {
    FlushIgnoresProblems(s, pending, c.path, Collision(s.owners[c.key]), limits);
    FlushOwners(s, pending, limits);
  }

  /** Why a candidate needs the preceding path claims settled first. */
  predicate NeedsFlush(s: Scan, pending: seq<Candidate>, pendingBytes: nat, c: Candidate, limits: Limits) {
    || !c.managed
    || !c.body.Regular?
    || !c.sameDevice
    || c.body.nlink > 1
    || c.body.size > limits.maxFileBytes
    || c.key in Keys(pending)
    || c.body.size > limits.maxSnapshotBytes - s.totalBytes - pendingBytes
  }

  /** The loop's variables between two candidates. */
  datatype Loop = Loop(scan: Scan, pending: seq<Candidate>, pendingBytes: nat)

  /** The loop's state stands for the sequential result `q`, with fewer than eight reads pending. */
  ghost predicate StandsFor(l: Loop, q: Scanning, limits: Limits) {
    && Deferred(l.scan, l.pending, limits)
    && Same(FlushAll(l.scan, l.pending, limits), q)
    && |l.pending| < SCAN_CONCURRENCY && l.pendingBytes == Sizes(l.pending)
  }

  /**
   * The batched scan agrees with handling one candidate at a time, up to the order of problems. From no owners it
   * accounts for every candidate reached, or ends where one raised or went over the limit.
   */
  method Walk(start: Scan, candidates: seq<Candidate>, limits: Limits) returns (r: Scanning)
    ensures Same(r, HandleAll(start, candidates, limits))
    ensures start.owners == map[] ==>
              if r.Ok? then Accounted(start, candidates, limits, r.value) else EndsBadly(start, candidates, limits)
    decreases candidates, 0
  {
    if start.owners == map[] { ScanAccounts(start, candidates, limits); }
    var loop := Loop(start, [], 0);
    for i := 0 to |candidates|
      invariant StandsFor(loop, HandleAll(start, candidates[..i], limits), limits)
    {
      assert candidates[..i + 1][..i] == candidates[..i];
      var next := ScanStep(loop, candidates[i], limits, HandleAll(start, candidates[..i], limits));
      if next.Err? {
        HandleErrs(start, candidates, i + 1, limits);
        return Err(());
      }
      loop := next.value;
    }
    assert candidates[..|candidates|] == candidates;
    r := Flush(loop.scan, loop.pending, limits);
    if start.owners == map[] && r.Ok? {
      SameAccounts(start, candidates, limits, r.value, HandleAll(start, candidates, limits).value);
    }
  }

  method ScanStep(loop: Loop, c: Candidate, limits: Limits, ghost q: Scanning) returns (r: Result<Loop, ()>)
    requires StandsFor(loop, q, limits)
    ensures r.Err? ==> Then(q, c, limits).Err?
    ensures r.Ok? ==> StandsFor(r.value, Then(q, c, limits), limits)
    decreases c, 1
  {
    var room := MakeRoom(loop, c, limits, q);
    if room.Err? { return Err(()); }
    var l := room.value;
    var settled, deferred := HandleNow(l.scan, l.pending, c, limits, q);
    if settled.Err? { return Err(()); }
    if !deferred { return Ok(l.(scan := settled.value)); }
    r := Enqueue(l, c, limits, Then(q, c, limits));
  }

  /** Settle the pending reads first when the candidate must not overtake them. */
  method MakeRoom(loop: Loop, c: Candidate, limits: Limits, ghost q: Scanning) returns (r: Result<Loop, ()>)
    requires StandsFor(loop, q, limits)
    ensures r.Err? ==> q.Err?
    ensures r.Ok? ==> StandsFor(r.value, q, limits)
    ensures r.Ok? && r.value.pending != [] ==> !NeedsFlush(r.value.scan, r.value.pending, r.value.pendingBytes, c, limits)
  {
    if !NeedsFlush(loop.scan, loop.pending, loop.pendingBytes, c, limits) { return Ok(loop); }
    var flushed := Flush(loop.scan, loop.pending, limits);
    if flushed.Err? { return Err(()); }
    return Ok(Loop(flushed.value, [], 0));
  }

  /** Leave one more read pending; a full batch is settled at once. */
  method Enqueue(l: Loop, c: Candidate, limits: Limits, ghost q: Scanning) returns (r: Result<Loop, ()>)
    requires Deferred(l.scan, l.pending, limits) && l.pendingBytes == Sizes(l.pending)
    requires c.body.Regular? && |l.pending| < SCAN_CONCURRENCY
    requires Deferred(l.scan, l.pending + [c], limits) && Same(FlushAll(l.scan, l.pending + [c], limits), q)
    ensures r.Err? ==> q.Err?
    ensures r.Ok? ==> StandsFor(r.value, q, limits)
  {
    var pending := l.pending + [c];
    assert pending[..|l.pending|] == l.pending;
    if |pending| < SCAN_CONCURRENCY { return Ok(Loop(l.scan, pending, l.pendingBytes + c.body.size)); }
    var flushed := Flush(l.scan, pending, limits);
    if flushed.Err? { return Err(()); }
    return Ok(Loop(flushed.value, [], 0));
  }

  lemma {:induction false} HandleErrs(start: Scan, candidates: seq<Candidate>, n: nat, limits: Limits)
    requires n <= |candidates| && HandleAll(start, candidates[..n], limits).Err?
    ensures HandleAll(start, candidates, limits).Err?
    decreases |candidates| - n
  {
    if n < |candidates| {
      assert candidates[..n + 1][..n] == candidates[..n];
      HandleErrs(start, candidates, n + 1, limits);
    } else {
      assert candidates[..n] == candidates;
    }
  }

  /** One candidate after any flush: handled at once, or left pending as a read. */
  method HandleNow(s: Scan, pending: seq<Candidate>, c: Candidate, limits: Limits, ghost q: Scanning)
    returns (r: Scanning, deferred: bool)
    requires Deferred(s, pending, limits) && Same(FlushAll(s, pending, limits), q)
    requires pending == [] || (c.managed && c.sameDevice && c.body.Regular? && c.body.nlink <= 1
                               && c.body.size <= limits.maxFileBytes && c.key !in Keys(pending))
    ensures r.Err? ==> Then(q, c, limits).Err?
    ensures deferred ==> r == Ok(s) && Deferred(s, pending + [c], limits)
                         && Same(FlushAll(s, pending + [c], limits), Then(q, c, limits))
    ensures r.Ok? && !deferred ==> Deferred(r.value, pending, limits)
                                   && Same(FlushAll(r.value, pending, limits), Then(q, c, limits))
    decreases c, 0
  {
    deferred := false;
    if pending == [] && q.Ok? { HandleOneRespects(s, q.value, c, limits); }
    if !c.managed { return Ok(s.(excluded := s.excluded + [c.path])), false; }
    if !c.sameDevice { return Ok(WithProblem(s, c.path, CrossDevice)), false; }
    if c.key in s.owners {
      DeferCollision(s, pending, c, q, limits);
      return Ok(WithProblem(s, c.path, Collision(s.owners[c.key]))), false;
    }
    match c.body
    case Directory(children) =>
      r := Walk(s.(owners := s.owners[c.key := c.path]), children, limits);
    case Symlink(LinkScanned(bytes)) => r := WithEntry(s, c, SymlinkEntry(c.path, bytes), limits);
    case Symlink(LinkFailed) => r := Ok(WithProblem(s, c.path, FailedRead));
    case Symlink(LinkUnsupported) => r := Ok(WithProblem(s, c.path, Unsupported));
    case Special => r := Ok(WithProblem(s, c.path, Unsupported));
    case Regular(nlink, size, _) =>
      if nlink > 1 { return Ok(WithProblem(s, c.path, HardLink)), false; }
      if size > limits.maxFileBytes { return Ok(WithProblem(s, c.path, TooLarge)), false; }
      forall p | p in pending ensures p.key != c.key { assert p.key in Keys(pending); }
      assert Deferred(s, pending + [c], limits);
      DeferRead(s, pending, c, q, limits);
      return Ok(s), true;
  }
}
