/** The host's append-only entry log: what a well-formed log is, and its parent graph. */
module SessionGraph {
  import opened Wrappers

  datatype Entry = Entry(id: string, parent: Option<string>, kind: string, role: Option<string>)

  /** Labels are the only known entry kind that is not a checkpoint coordinate. */
  predicate IsTransparent(e: Entry) {
    e.kind == "label"
  }

  ghost predicate DistinctIds(log: seq<Entry>) {
    forall i, j :: 0 <= i < j < |log| ==> log[i].id != log[j].id
  }

  predicate HasId(log: seq<Entry>, id: string) {
    exists e :: e in log && e.id == id
  }

  ghost predicate ParentsKnown(log: seq<Entry>) {
    forall i :: 0 <= i < |log| && log[i].parent.Some? ==> HasId(log, log[i].parent.value)
  }

  /** The parent, if any, is an earlier entry. */
  predicate ParentBefore(log: seq<Entry>, i: nat)
    requires i < |log|
  {
    log[i].parent.Some? ==> HasId(log[..i], log[i].parent.value)
  }

  /** Every entry is new, and names an earlier entry as its parent. */
  ghost predicate WellFormed(log: seq<Entry>) {
    DistinctIds(log) && forall i :: 0 <= i < |log| ==> ParentBefore(log, i)
  }

  /** Position of the entry with an id; the log's length when there is none. */
  function IndexOf(log: seq<Entry>, id: string): (i: nat)
    ensures i <= |log|
    ensures i < |log| <==> HasId(log, id)
    ensures i < |log| ==> log[i].id == id
  {
    if log == [] then 0
    else if log[0].id == id then 0
    else
      assert log == [log[0]] + log[1..];
      1 + IndexOf(log[1..], id)
  }

  lemma IndexOfDistinct(log: seq<Entry>, i: nat)
    requires DistinctIds(log) && i < |log|
    ensures IndexOf(log, log[i].id) == i
  {
    assert log[i] in log;
  }

  /** Parent position of an entry in a log whose parents are all known. */
  function ParentAt(log: seq<Entry>, i: nat): Option<nat>
    requires i < |log|
  {
    if log[i].parent.None? then None else Some(IndexOf(log, log[i].parent.value))
  }

  /** The entry `n` parent steps above another, while there is one. */
  ghost function Climb(log: seq<Entry>, i: nat, n: nat): Option<nat>
    requires ParentsKnown(log) && i < |log|
    decreases n
  {
    if n == 0 then Some(i)
    else
      match ParentAt(log, i)
      case None => None
      case Some(p) => Climb(log, p, n - 1)
  }

  ghost predicate HasCycle(log: seq<Entry>)
    requires ParentsKnown(log)
  {
    exists i, n :: 0 <= i < |log| && n > 0 && Climb(log, i, n) == Some(i)
  }

  ghost predicate HasForwardParent(log: seq<Entry>) {
    exists i :: 0 <= i < |log| && ParentAt(log, i).Some? && ParentAt(log, i).value >= i
  }

  /** A rank that drops at every parent step rules out cycles. */
  lemma {:induction false} RankDrops(log: seq<Entry>, rank: seq<nat>, i: nat, n: nat)
    requires ParentsKnown(log) && |rank| == |log| && i < |log|
    requires forall k :: 0 <= k < |log| && ParentAt(log, k).Some? ==> rank[ParentAt(log, k).value] < rank[k]
    ensures n > 0 && Climb(log, i, n).Some? ==>
              Climb(log, i, n).value < |log| && rank[Climb(log, i, n).value] < rank[i]
    decreases n
  {
    if n > 1 && ParentAt(log, i).Some? {
      RankDrops(log, rank, ParentAt(log, i).value, n - 1);
    }
  }

  /** Ranked logs are acyclic. */
  lemma RankedHasNoCycle(log: seq<Entry>, rank: seq<nat>)
    requires ParentsKnown(log) && |rank| == |log|
    requires forall k :: 0 <= k < |log| && ParentAt(log, k).Some? ==> rank[ParentAt(log, k).value] < rank[k]
    ensures !HasCycle(log)
  {
    forall i, n | 0 <= i < |log| && n > 0 ensures Climb(log, i, n) != Some(i) {
      RankDrops(log, rank, i, n);
    }
  }

  /** Past the other checks, a log is well formed exactly when no parent follows its child. */
  lemma WellFormedMeans(log: seq<Entry>)
    ensures WellFormed(log) <==> DistinctIds(log) && ParentsKnown(log) && !HasForwardParent(log)
  {
    if WellFormed(log) {
      forall i | 0 <= i < |log| && log[i].parent.Some?
        ensures HasId(log, log[i].parent.value) && ParentAt(log, i).value < i
      {
        assert ParentBefore(log, i);
        var e :| e in log[..i] && e.id == log[i].parent.value;
        var j :| 0 <= j < i && log[j] == e;
        IndexOfDistinct(log, j);
      }
    }
    if DistinctIds(log) && ParentsKnown(log) && !HasForwardParent(log) {
      forall i | 0 <= i < |log| ensures ParentBefore(log, i) {
        if log[i].parent.Some? {
          var j := ParentAt(log, i).value;
          assert j < i && log[j] in log[..i];
        }
      }
    }
  }

  /** Append order alone already excludes cycles. */
  lemma OrderedHasNoCycle(log: seq<Entry>)
    requires ParentsKnown(log)
    ensures HasCycle(log) ==> HasForwardParent(log)
  {
    if !HasForwardParent(log) {
      RankedHasNoCycle(log, seq(|log|, i => i));
    }
  }
}
