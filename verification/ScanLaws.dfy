/** What a scan's result means: which candidates were reached, in which order, and what became of each. */
module ScanLaws {
  import opened Wrappers
  import opened ScanModel

  /** What becomes of a reached candidate; the last two end the scan. */
  datatype Fate = LeftOut | Enters | Records(entry: Entry) | Reports(kind: ProblemKind) | Raises | OverQuota

  datatype Event = Event(candidate: Candidate, fate: Fate)

  /** Entered directories and recorded entries hold their candidate's key. */
  predicate Claims(e: Event) {
    e.fate.Enters? || e.fate.Records?
  }

  predicate Ends(e: Event) {
    e.fate.Raises? || e.fate.OverQuota?
  }

  /** Among the first `n` events, the candidate at `owner` claimed the key. */
  ghost predicate ClaimedBy(events: seq<Event>, n: nat, key: string, owner: string)
    requires n <= |events|
  {
    exists i :: 0 <= i < n && Claims(events[i]) && events[i].candidate.key == key && events[i].candidate.path == owner
  }

  function EntriesOf(events: seq<Event>): seq<Entry> {
    if events == [] then []
    else
      var last := events[|events| - 1].fate;
      EntriesOf(events[..|events| - 1]) + if last.Records? then [last.entry] else []
  }

  function ExcludedIn(events: seq<Event>): seq<string> {
    if events == [] then []
    else
      var last := events[|events| - 1];
      ExcludedIn(events[..|events| - 1]) + if last.fate.LeftOut? then [last.candidate.path] else []
  }

  function ProblemsIn(events: seq<Event>): seq<Problem> {
    if events == [] then []
    else
      var last := events[|events| - 1];
      ProblemsIn(events[..|events| - 1])
      + if last.fate.Reports? then [Problem(last.candidate.path, last.fate.kind)] else []
  }

  function BytesIn(events: seq<Event>): nat {
    if events == [] then 0
    else
      var last := events[|events| - 1].fate;
      BytesIn(events[..|events| - 1]) + if last.Records? then last.entry.bytes else 0
  }

  /** Each candidate is visited once, in order, and a directory's children right after it is entered. */
  ghost predicate Visits(events: seq<Event>, candidates: seq<Candidate>)
    decreases candidates
  {
    if candidates == [] then events == []
    else
      var front, last := candidates[..|candidates| - 1], candidates[|candidates| - 1];
      exists n :: 0 <= n <= |events| && Visits(events[..n], front) && VisitsOne(events[n..], last)
  }

  ghost predicate VisitsOne(events: seq<Event>, c: Candidate)
    decreases c
  {
    && events != [] && events[0].candidate == c
    && if events[0].fate.Enters? then c.body.Directory? && Visits(events[1..], c.body.children) else |events| == 1
  }

  /** The same, up to the last event. */
  ghost predicate BeginsVisit(events: seq<Event>, candidates: seq<Candidate>)
    decreases candidates
  {
    exists m, n :: 0 <= m < |candidates| && 0 <= n <= |events|
                   && Visits(events[..n], candidates[..m]) && BeginsOne(events[n..], candidates[m])
  }

  ghost predicate BeginsOne(events: seq<Event>, c: Candidate)
    decreases c
  {
    && events != [] && events[0].candidate == c
    && (|events| == 1 || (events[0].fate.Enters? && c.body.Directory? && BeginsVisit(events[1..], c.body.children)))
  }

  /** A readable entry is recorded while the snapshot stays within its limit. */
  ghost predicate Takes(fate: Fate, entry: Entry, total: nat, limits: Limits) {
    fate == if total + entry.bytes <= limits.maxSnapshotBytes then Records(entry) else OverQuota
  }

  /** What the body alone decides. */
  ghost predicate ByBody(c: Candidate, fate: Fate, total: nat, limits: Limits) {
    match c.body
    case Directory(_) => fate == Enters
    case Symlink(LinkScanned(bytes)) => Takes(fate, SymlinkEntry(c.path, bytes), total, limits)
    case Symlink(LinkFailed) => fate == Reports(FailedRead)
    case Symlink(LinkUnsupported) => fate == Reports(Unsupported)
    case Special => fate == Reports(Unsupported)
    case Regular(nlink, size, read) =>
      if nlink > 1 then fate == Reports(HardLink)
      else if size > limits.maxFileBytes then fate == Reports(TooLarge)
      else match read
        case Scanned(bytes) => Takes(fate, RegularEntry(c.path, bytes), total, limits)
        case ReadTooLarge => fate == Reports(TooLarge)
        case ReadFailed => fate == Reports(FailedRead)
        case ReadRaised => fate == Raises
  }

  /** Unmanaged, on another device, colliding with the first claimant of its key, or decided by its body. */
  ghost predicate Judged(events: seq<Event>, i: nat, before: nat, limits: Limits)
    requires i < |events|
  {
    var Event(c, fate) := events[i];
    && (fate.LeftOut? <==> !c.managed)
    && (fate == Reports(CrossDevice) <==> c.managed && !c.sameDevice)
    && (forall owner :: fate == Reports(Collision(owner)) <==>
                        c.managed && c.sameDevice && ClaimedBy(events, i, c.key, owner))
    && (c.managed && c.sameDevice && (forall owner :: !ClaimedBy(events, i, c.key, owner)) ==>
          ByBody(c, fate, before + BytesIn(events[..i]), limits))
  }

  ghost predicate AllJudged(events: seq<Event>, before: nat, limits: Limits) {
    forall i :: 0 <= i < |events| ==> Judged(events, i, before, limits)
  }

  predicate Owns(owners: map<string, string>, key: string, owner: string) {
    key in owners && owners[key] == owner
  }

  /** The owners are exactly the claimants among the first `n` events. */
  ghost predicate Match(owners: map<string, string>, events: seq<Event>, n: nat)
    requires n <= |events|
  {
    forall key, owner :: Owns(owners, key, owner) <==> ClaimedBy(events, n, key, owner)
  }

  /** No key is claimed twice, and the owners are exactly the claimants. */
  ghost predicate OwnersAre(events: seq<Event>, owners: map<string, string>) {
    && (forall i, j :: 0 <= i < j < |events| && Claims(events[i]) && Claims(events[j]) ==>
          events[i].candidate.key != events[j].candidate.key)
    && Match(owners, events, |events|)
  }

  /** The result of a scan that ends well, read off its events. */
  ghost predicate Results(start: Scan, events: seq<Event>, r: Scan) {
    && r.entries == start.entries + EntriesOf(events) && r.excluded == start.excluded + ExcludedIn(events)
    && multiset(r.problems) == multiset(start.problems + ProblemsIn(events))
    && r.totalBytes == start.totalBytes + BytesIn(events)
  }

  /** Nothing ends the scan. */
  ghost predicate GoesOn(events: seq<Event>) {
    forall i :: 0 <= i < |events| ==> !Ends(events[i])
  }

  /** Only the last event ends it. */
  ghost predicate EndsLast(events: seq<Event>) {
    events != [] && forall i :: 0 <= i < |events| ==> (Ends(events[i]) <==> i == |events| - 1)
  }

  /** Every candidate reached is accounted for once, and the result is what became of them. */
  ghost predicate Accounted(start: Scan, candidates: seq<Candidate>, limits: Limits, r: Scan) {
    exists events ::
      && Visits(events, candidates) && AllJudged(events, start.totalBytes, limits) && GoesOn(events)
      && OwnersAre(events, r.owners) && Results(start, events, r)
  }

  /** Some visit reached a read that raised, or an entry over the snapshot limit. */
  ghost predicate EndsBadly(start: Scan, candidates: seq<Candidate>, limits: Limits) {
    exists events ::
      BeginsVisit(events, candidates) && AllJudged(events, start.totalBytes, limits) && EndsLast(events)
  }

  // ---- Every scan is so accounted for ----

  /** One event's effect on a scan. */
  function Apply(s: Scan, e: Event): Scan {
    match e.fate
    case LeftOut => s.(excluded := s.excluded + [e.candidate.path])
    case Enters => s.(owners := s.owners[e.candidate.key := e.candidate.path])
    case Records(entry) =>
      s.(entries := s.entries + [entry], owners := s.owners[e.candidate.key := e.candidate.path],
         totalBytes := s.totalBytes + entry.bytes)
    case Reports(kind) => WithProblem(s, e.candidate.path, kind)
    case _ => s
  }

  function Replay(s: Scan, events: seq<Event>): Scan {
    if events == [] then s else Apply(Replay(s, events[..|events| - 1]), events[|events| - 1])
  }

  lemma {:induction false} ReplayJoins(s: Scan, a: seq<Event>, b: seq<Event>)
    ensures Replay(s, a + b) == Replay(Replay(s, a), b)
    decreases |b|
  {
    if b == [] {
      assert a + b == a;
    } else {
      var n := |b| - 1;
      assert (a + b)[..|a + b| - 1] == a + b[..n] && (a + b)[|a + b| - 1] == b[n];
      ReplayJoins(s, a, b[..n]);
    }
  }

  /** The right fate for a candidate that finds the scan like this. */
  ghost predicate Fits(s: Scan, e: Event, limits: Limits) {
    var Event(c, fate) := e;
    if !c.managed then fate == LeftOut
    else if !c.sameDevice then fate == Reports(CrossDevice)
    else if c.key in s.owners then fate == Reports(Collision(s.owners[c.key]))
    else ByBody(c, fate, s.totalBytes, limits)
  }

  ghost predicate AllFit(s: Scan, events: seq<Event>, limits: Limits) {
    forall i :: 0 <= i < |events| ==> FitsAt(s, events, i, limits)
  }

  ghost predicate FitsAt(s: Scan, events: seq<Event>, i: nat, limits: Limits)
    requires i < |events|
  {
    Fits(Replay(s, events[..i]), events[i], limits)
  }

  lemma FitsJoin(s: Scan, a: seq<Event>, b: seq<Event>, limits: Limits)
    requires AllFit(s, a, limits) && AllFit(Replay(s, a), b, limits)
    ensures AllFit(s, a + b, limits)
  {
    forall i | 0 <= i < |a + b| ensures FitsAt(s, a + b, i, limits) {
      if i < |a| {
        assert (a + b)[..i] == a[..i] && FitsAt(s, a, i, limits);
      } else {
        assert (a + b)[..i] == a + b[..i - |a|] && FitsAt(Replay(s, a), b, i - |a|, limits);
        ReplayJoins(s, a, b[..i - |a|]);
      }
    }
  }

  /** The events of one candidate: all of them when handling it ends well, else those up to the one that ends the scan. */
  ghost predicate TracesOne(s: Scan, c: Candidate, limits: Limits, r: Scanning, events: seq<Event>) {
    && AllFit(s, events, limits)
    && if r.Ok? then VisitsOne(events, c) && GoesOn(events) && r.value == Replay(s, events)
       else BeginsOne(events, c) && EndsLast(events)
  }

  ghost predicate TracesAll(s: Scan, candidates: seq<Candidate>, limits: Limits, r: Scanning, events: seq<Event>) {
    && AllFit(s, events, limits)
    && if r.Ok? then Visits(events, candidates) && GoesOn(events) && r.value == Replay(s, events)
       else BeginsVisit(events, candidates) && EndsLast(events)
  }

  lemma SingleReplay(s: Scan, e: Event)
    ensures Replay(s, [e]) == Apply(s, e)
  {
    assert [e][..0] == [] && Replay(s, []) == s;
  }

  lemma TraceLeaf(s: Scan, c: Candidate, limits: Limits, fate: Fate)
    requires Fits(s, Event(c, fate), limits) && !fate.Enters?
    requires !c.body.Directory? || !c.managed || !c.sameDevice || c.key in s.owners
    ensures TracesOne(s, c, limits, HandleOne(s, c, limits), [Event(c, fate)])
  {
    var events := [Event(c, fate)];
    assert events[..0] == [];
    assert FitsAt(s, events, 0, limits);
    SingleReplay(s, Event(c, fate));
  }

  /** The fate of a candidate that enters no directory. */
  ghost function LeafFate(s: Scan, c: Candidate, limits: Limits): (fate: Fate)
    requires !c.body.Directory? || !c.managed || !c.sameDevice || c.key in s.owners
    ensures Fits(s, Event(c, fate), limits) && !fate.Enters?
  {
    if !c.managed then LeftOut
    else if !c.sameDevice then Reports(CrossDevice)
    else if c.key in s.owners then Reports(Collision(s.owners[c.key]))
    else
      match c.body
      case Symlink(LinkScanned(bytes)) => Charged(SymlinkEntry(c.path, bytes), s.totalBytes, limits)
      case Symlink(LinkFailed) => Reports(FailedRead)
      case Symlink(LinkUnsupported) => Reports(Unsupported)
      case Special => Reports(Unsupported)
      case Regular(nlink, size, read) =>
        if nlink > 1 then Reports(HardLink)
        else if size > limits.maxFileBytes then Reports(TooLarge)
        else match read
          case Scanned(bytes) => Charged(RegularEntry(c.path, bytes), s.totalBytes, limits)
          case ReadTooLarge => Reports(TooLarge)
          case ReadFailed => Reports(FailedRead)
          case ReadRaised => Raises
  }

  ghost function Charged(entry: Entry, total: nat, limits: Limits): Fate {
    if total + entry.bytes <= limits.maxSnapshotBytes then Records(entry) else OverQuota
  }

  lemma TraceDirectory(s: Scan, c: Candidate, limits: Limits, inner: seq<Event>)
    requires c.managed && c.sameDevice && c.key !in s.owners && c.body.Directory?
    requires var inside := Apply(s, Event(c, Enters));
             TracesAll(inside, c.body.children, limits, HandleAll(inside, c.body.children, limits), inner)
    ensures TracesOne(s, c, limits, HandleOne(s, c, limits), [Event(c, Enters)] + inner)
  {
    var first := [Event(c, Enters)];
    var events := first + inner;
    assert first[..0] == [] && events[1..] == inner;
    assert FitsAt(s, first, 0, limits);
    SingleReplay(s, Event(c, Enters));
    FitsJoin(s, first, inner, limits);
    ReplayJoins(s, first, inner);
  }

  lemma {:induction false} TraceOne(s: Scan, c: Candidate, limits: Limits) returns (events: seq<Event>)
    ensures TracesOne(s, c, limits, HandleOne(s, c, limits), events)
    decreases c
  {
    if c.body.Directory? && c.managed && c.sameDevice && c.key !in s.owners {
      var inner := TraceAll(Apply(s, Event(c, Enters)), c.body.children, limits);
      TraceDirectory(s, c, limits, inner);
      events := [Event(c, Enters)] + inner;
    } else {
      TraceLeaf(s, c, limits, LeafFate(s, c, limits));
      events := [Event(c, LeafFate(s, c, limits))];
    }
  }

  lemma TraceSnoc(s: Scan, candidates: seq<Candidate>, limits: Limits, before: Scan, front: seq<Event>, r: Scanning,
                  last: seq<Event>)
    requires candidates != []
    requires TracesAll(s, candidates[..|candidates| - 1], limits, Ok(before), front)
    requires TracesOne(before, candidates[|candidates| - 1], limits, r, last)
    ensures TracesAll(s, candidates, limits, r, front + last)
  {
    var events := front + last;
    assert events[..|front|] == front && events[|front|..] == last;
    FitsJoin(s, front, last, limits);
    ReplayJoins(s, front, last);
  }

  lemma TraceStopped(s: Scan, candidates: seq<Candidate>, limits: Limits, events: seq<Event>)
    requires candidates != [] && TracesAll(s, candidates[..|candidates| - 1], limits, Err(()), events)
    ensures TracesAll(s, candidates, limits, Err(()), events)
  {
    var front := candidates[..|candidates| - 1];
    var m, n :| 0 <= m < |front| && 0 <= n <= |events| && Visits(events[..n], front[..m]) && BeginsOne(events[n..], front[m]);
    assert front[..m] == candidates[..m] && front[m] == candidates[m];
  }

  lemma {:induction false} TraceAll(s: Scan, candidates: seq<Candidate>, limits: Limits) returns (events: seq<Event>)
    ensures TracesAll(s, candidates, limits, HandleAll(s, candidates, limits), events)
    decreases candidates
  {
    if candidates == [] { return []; }
    var front, last := candidates[..|candidates| - 1], candidates[|candidates| - 1];
    var before := HandleAll(s, front, limits);
    events := TraceAll(s, front, limits);
    if before.Err? {
      TraceStopped(s, candidates, limits, events);
    } else {
      var rest := TraceOne(before.value, last, limits);
      TraceSnoc(s, candidates, limits, before.value, events, HandleOne(before.value, last, limits), rest);
      events := events + rest;
    }
  }

  // ---- Reading the events ----

  lemma {:induction false} ReplayResults(s: Scan, events: seq<Event>)
    ensures var r := Replay(s, events);
            && r.entries == s.entries + EntriesOf(events) && r.excluded == s.excluded + ExcludedIn(events)
            && r.problems == s.problems + ProblemsIn(events) && r.totalBytes == s.totalBytes + BytesIn(events)
  {
    if events != [] { ReplayResults(s, events[..|events| - 1]); }
  }

  /** The owners after some events are the claimants among them. */
  lemma {:induction false} ReplayOwners(s: Scan, events: seq<Event>, limits: Limits, n: nat)
    requires s.owners == map[] && AllFit(s, events, limits) && n <= |events|
    ensures Match(Replay(s, events[..n]).owners, events, n)
    ensures forall i, j :: 0 <= i < j < n && Claims(events[i]) && Claims(events[j]) ==>
              events[i].candidate.key != events[j].candidate.key
  {
    if n > 0 {
      ReplayOwners(s, events, limits, n - 1);
      assert events[..n][..n - 1] == events[..n - 1] && events[..n][n - 1] == events[n - 1];
      assert FitsAt(s, events, n - 1, limits);
      OwnersStep(Replay(s, events[..n - 1]), events, n, limits);
    }
  }

  lemma OwnersStep(before: Scan, events: seq<Event>, n: nat, limits: Limits)
    requires 0 < n <= |events| && Fits(before, events[n - 1], limits)
    requires Match(before.owners, events, n - 1)
    ensures Claims(events[n - 1]) ==> forall i :: 0 <= i < n - 1 && Claims(events[i]) ==>
              events[i].candidate.key != events[n - 1].candidate.key
    ensures Match(Apply(before, events[n - 1]).owners, events, n)
  {
    var e, after := events[n - 1], Apply(before, events[n - 1]);
    if Claims(e) {
      assert forall owner :: !Owns(before.owners, e.candidate.key, owner);
      forall i | 0 <= i < n - 1 && Claims(events[i]) ensures events[i].candidate.key != e.candidate.key {
        assert ClaimedBy(events, n - 1, events[i].candidate.key, events[i].candidate.path);
      }
    }
    forall key, owner
      ensures Owns(after.owners, key, owner) <==> ClaimedBy(events, n, key, owner)
    {
      assert Owns(before.owners, key, owner) <==> ClaimedBy(events, n - 1, key, owner);
      assert ClaimedBy(events, n, key, owner) <==>
             ClaimedBy(events, n - 1, key, owner) || (Claims(e) && e.candidate.key == key && e.candidate.path == owner);
    }
  }

  lemma FitsIsJudged(s: Scan, events: seq<Event>, limits: Limits, i: nat)
    requires s.owners == map[] && AllFit(s, events, limits) && i < |events|
    ensures Judged(events, i, s.totalBytes, limits)
  {
    ReplayOwners(s, events, limits, i);
    ReplayResults(s, events[..i]);
    assert FitsAt(s, events, i, limits);
    JudgedFrom(Replay(s, events[..i]), events, limits, i, s.totalBytes);
  }

  lemma JudgedFrom(found: Scan, events: seq<Event>, limits: Limits, i: nat, before: nat)
    requires i < |events| && Fits(found, events[i], limits) && found.totalBytes == before + BytesIn(events[..i])
    requires Match(found.owners, events, i)
    ensures Judged(events, i, before, limits)
  {
    var Event(c, fate) := events[i];
    if c.key in found.owners {
      assert Owns(found.owners, c.key, found.owners[c.key]);
    } else {
      assert forall owner :: !Owns(found.owners, c.key, owner);
    }
  }

  /** From no owners, a scan that ends well is accounted for, and one that does not ends at its cause. */
  lemma ScanAccounts(start: Scan, candidates: seq<Candidate>, limits: Limits)
    requires start.owners == map[]
    ensures var r := HandleAll(start, candidates, limits);
            if r.Ok? then Accounted(start, candidates, limits, r.value) else EndsBadly(start, candidates, limits)
  {
    var events := TraceAll(start, candidates, limits);
    forall i | 0 <= i < |events| ensures Judged(events, i, start.totalBytes, limits) {
      FitsIsJudged(start, events, limits, i);
    }
    assert events[..|events|] == events;
    ReplayOwners(start, events, limits, |events|);
    ReplayResults(start, events);
  }

  /** The order of problems does not matter. */
  lemma SameAccounts(start: Scan, candidates: seq<Candidate>, limits: Limits, a: Scan, b: Scan)
    requires SameScan(a, b) && Accounted(start, candidates, limits, b)
    ensures Accounted(start, candidates, limits, a)
  {
    var events :|
      && Visits(events, candidates) && AllJudged(events, start.totalBytes, limits) && GoesOn(events)
      && OwnersAre(events, b.owners) && Results(start, events, b);
    assert Results(start, events, a);
  }
}
