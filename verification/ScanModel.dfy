/** One-at-a-time handling of directory candidates: what the batched scan must agree with. */
module ScanModel {
  import opened Wrappers

  /** What reading a regular file yields; a raised scan error ends the scan. */
  datatype ReadOutcome = Scanned(bytes: nat) | ReadTooLarge | ReadFailed | ReadRaised

  datatype LinkOutcome = LinkScanned(bytes: nat) | LinkFailed | LinkUnsupported

  datatype Body =
    | Directory(children: seq<Candidate>)
    | Regular(nlink: nat, size: nat, read: ReadOutcome)
    | Symlink(link: LinkOutcome)
    | Special

  /** `key` is the path's portable key, whose folding is not modelled. */
  datatype Candidate = Candidate(path: string, key: string, managed: bool, sameDevice: bool, body: Body)

  datatype ProblemKind = CrossDevice | Collision(owner: string) | FailedRead | Unsupported | HardLink | TooLarge

  datatype Problem = Problem(path: string, kind: ProblemKind)

  datatype Entry = RegularEntry(path: string, bytes: nat) | SymlinkEntry(path: string, bytes: nat)

  datatype Scan = Scan(
    entries: seq<Entry>,
    owners: map<string, string>,
    excluded: seq<string>,
    problems: seq<Problem>,
    totalBytes: nat)

  datatype Limits = Limits(maxFileBytes: nat, maxSnapshotBytes: nat)

  /** A raised scan error discards everything. */
  type Scanning = Result<Scan, ()>

  function WithProblem(s: Scan, path: string, kind: ProblemKind): Scan {
    s.(problems := s.problems + [Problem(path, kind)])
  }

  /** Claim the key, record the entry, and charge its bytes against the snapshot quota. */
  function WithEntry(s: Scan, c: Candidate, e: Entry, limits: Limits): Scanning {
    var total := s.totalBytes + e.bytes;
    if total > limits.maxSnapshotBytes then Err(())
    else Ok(s.(entries := s.entries + [e], owners := s.owners[c.key := c.path], totalBytes := total))
  }

  function TakeRead(s: Scan, c: Candidate, limits: Limits): Scanning
    requires c.body.Regular?
  {
    match c.body.read
    case ReadRaised => Err(())
    case ReadFailed => Ok(WithProblem(s, c.path, FailedRead))
    case ReadTooLarge => Ok(WithProblem(s, c.path, TooLarge))
    case Scanned(bytes) => WithEntry(s, c, RegularEntry(c.path, bytes), limits)
  }

  function HandleOne(s: Scan, c: Candidate, limits: Limits): Scanning
    decreases c
  {
    if !c.managed then Ok(s.(excluded := s.excluded + [c.path]))
    else if !c.sameDevice then Ok(WithProblem(s, c.path, CrossDevice))
    else if c.key in s.owners then Ok(WithProblem(s, c.path, Collision(s.owners[c.key])))
    else
      match c.body
      case Directory(children) => HandleAll(s.(owners := s.owners[c.key := c.path]), children, limits)
      case Symlink(LinkScanned(bytes)) => WithEntry(s, c, SymlinkEntry(c.path, bytes), limits)
      case Symlink(LinkFailed) => Ok(WithProblem(s, c.path, FailedRead))
      case Symlink(LinkUnsupported) => Ok(WithProblem(s, c.path, Unsupported))
      case Special => Ok(WithProblem(s, c.path, Unsupported))
      case Regular(nlink, size, _) =>
        if nlink > 1 then Ok(WithProblem(s, c.path, HardLink))
        else if size > limits.maxFileBytes then Ok(WithProblem(s, c.path, TooLarge))
        else TakeRead(s, c, limits)
  }

  function HandleAll(s: Scan, candidates: seq<Candidate>, limits: Limits): Scanning
    decreases candidates
  {
    if candidates == [] then Ok(s)
    else
      match HandleAll(s, candidates[..|candidates| - 1], limits)
      case Err(e) => Err(e)
      case Ok(before) => HandleOne(before, candidates[|candidates| - 1], limits)
  }

  /** Equal but for the order in which problems were noted. */
  ghost predicate SameScan(a: Scan, b: Scan) {
    && a.entries == b.entries && a.owners == b.owners && a.excluded == b.excluded
    && a.totalBytes == b.totalBytes && multiset(a.problems) == multiset(b.problems)
  }

  ghost predicate Same(a: Scanning, b: Scanning) {
    if a.Ok? && b.Ok? then SameScan(a.value, b.value) else a.Err? && b.Err?
  }

  /** Handling does not look at the problems already noted. */
  lemma {:induction false} HandleOneRespects(a: Scan, b: Scan, c: Candidate, limits: Limits)
    requires SameScan(a, b)
    ensures Same(HandleOne(a, c, limits), HandleOne(b, c, limits))
    decreases c
  {
    if c.managed && c.sameDevice && c.key !in a.owners && c.body.Directory? {
      HandleAllRespects(a.(owners := a.owners[c.key := c.path]), b.(owners := b.owners[c.key := c.path]),
                        c.body.children, limits);
    }
  }

  lemma {:induction false} HandleAllRespects(a: Scan, b: Scan, candidates: seq<Candidate>, limits: Limits)
    requires SameScan(a, b)
    ensures Same(HandleAll(a, candidates, limits), HandleAll(b, candidates, limits))
    decreases candidates
  {
    if candidates != [] {
      var front := candidates[..|candidates| - 1];
      HandleAllRespects(a, b, front, limits);
      var x, y := HandleAll(a, front, limits), HandleAll(b, front, limits);
      if x.Ok? {
        HandleOneRespects(x.value, y.value, candidates[|candidates| - 1], limits);
      }
    }
  }

  /** Claimed keys stay claimed by their first claimant. */
  lemma {:induction false} FirstClaimantWins(s: Scan, candidates: seq<Candidate>, limits: Limits)
    ensures var r := HandleAll(s, candidates, limits);
            r.Ok? ==> forall k :: k in s.owners ==> k in r.value.owners && r.value.owners[k] == s.owners[k]
    decreases candidates, 1
  {
    if candidates != [] {
      var front, last := candidates[..|candidates| - 1], candidates[|candidates| - 1];
      FirstClaimantWins(s, front, limits);
      var before := HandleAll(s, front, limits);
      if before.Ok? && last.managed && last.sameDevice && last.key !in before.value.owners && last.body.Directory? {
        FirstClaimantWins(before.value.(owners := before.value.owners[last.key := last.path]), last.body.children, limits);
      }
    }
  }
}
