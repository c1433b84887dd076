/** What a planned collection leaves standing in each pack class, and why an accepted tier merge shrinks it. */
module GcConvergence {
  import opened GcModel
  import opened GcSelection
  import opened GcTiers

  datatype ClassMetrics = ClassMetrics(packs: nat, bytes: nat)

  function Other(c: PackClass): PackClass {
    if c == Data then Metadata else Data
  }

  datatype PlanMetrics = PlanMetrics(data: ClassMetrics, metadata: ClassMetrics) {
    function Of(c: PackClass): ClassMetrics {
      if c == Data then data else metadata
    }

    /** With some more packs of one class. */
    function Plus(c: PackClass, packs: nat, bytes: nat): PlanMetrics {
      if c == Data then PlanMetrics(ClassMetrics(data.packs + packs, data.bytes + bytes), metadata)
      else PlanMetrics(data, ClassMetrics(metadata.packs + packs, metadata.bytes + bytes))
    }
  }

  function NoPacks(): PlanMetrics { PlanMetrics(ClassMetrics(0, 0), ClassMetrics(0, 0)) }

  /** One planned replacement pack. */
  datatype Batch = Batch(packClass: PackClass, bytes: nat)

  function Measured(batches: seq<Batch>): PlanMetrics {
    if batches == [] then NoPacks()
    else Measured(batches[..|batches| - 1]).Plus(batches[|batches| - 1].packClass, 1, batches[|batches| - 1].bytes)
  }

  method MeasurePlan(batches: seq<Batch>) returns (metrics: PlanMetrics)
    ensures metrics == Measured(batches)
  {
    metrics := NoPacks();
    for i := 0 to |batches|
      invariant metrics == Measured(batches[..i])
    {
      assert batches[..i + 1][..i] == batches[..i];
      metrics := metrics.Plus(batches[i].packClass, 1, batches[i].bytes);
    }
    assert batches[..|batches|] == batches;
  }

  /** Reduces the pack count of one class without growing it, and leaves the other class's plan alone. */
  predicate RewriteIsConvergent(baseline: PlanMetrics, candidate: PlanMetrics, packClass: PackClass,
                                sourcePacks: nat, sourceBytes: nat) {
    && sourcePacks == SIZE_TIER_FAN_IN
    && sourceBytes > 0
    && candidate.Of(Other(packClass)) == baseline.Of(Other(packClass))
    && candidate.Of(packClass).packs - baseline.Of(packClass).packs < sourcePacks
    && candidate.Of(packClass).bytes - baseline.Of(packClass).bytes <= sourceBytes
  }

  /** The packs that stay once `gone` are removed. */
  function Standing(packs: seq<Pack>, gone: set<string>): PlanMetrics {
    if packs == [] then NoPacks()
    else
      var rest, last := Standing(packs[..|packs| - 1], gone), packs[|packs| - 1];
      if last.id in gone then rest else rest.Plus(last.packClass, 1, last.size)
  }

  lemma {:induction false} StandingSame(packs: seq<Pack>, gone: set<string>, id: string)
    requires forall p :: p in packs ==> p.id != id
    ensures Standing(packs, gone + {id}) == Standing(packs, gone)
  {
    if packs != [] { StandingSame(packs[..|packs| - 1], gone, id); }
  }

  lemma {:induction false} StandingWithout(packs: seq<Pack>, gone: set<string>, pack: Pack)
    requires DistinctPackIds(packs) && pack in packs && pack.id !in gone
    ensures Standing(packs, gone) == Standing(packs, gone + {pack.id}).Plus(pack.packClass, 1, pack.size)
  {
    var front, last := packs[..|packs| - 1], packs[|packs| - 1];
    if last == pack {
      StandingSame(front, gone, pack.id);
    } else {
      assert pack in front && pack.id != last.id;
      StandingWithout(front, gone, pack);
    }
  }

  /** Some standing packs of one class: all there, none of them gone yet. */
  ghost predicate StandingGroup(group: seq<Pack>, packs: seq<Pack>, gone: set<string>, c: PackClass) {
    DistinctPackIds(group) && forall p :: p in group ==> p in packs && p.id !in gone && p.packClass == c
  }

  lemma PlusTwice(m: PlanMetrics, c: PackClass, packs: nat, bytes: nat, size: nat)
    ensures m.Plus(c, 1, size).Plus(c, packs, bytes) == m.Plus(c, packs + 1, bytes + size)
  { }

  /** The last of a standing group stands still once the others are gone. */
  lemma LastStands(group: seq<Pack>, packs: seq<Pack>, gone: set<string>, c: PackClass)
    requires StandingGroup(group, packs, gone, c) && group != []
    ensures var front, last := group[..|group| - 1], group[|group| - 1];
            && StandingGroup(front, packs, gone, c) && last in packs && last.packClass == c
            && last.id !in gone + PackIds(front)
            && gone + PackIds(front) + {last.id} == gone + PackIds(group)
  {
    assert group == group[..|group| - 1] + [group[|group| - 1]];
  }

  lemma {:induction false} StandingWithoutGroup(packs: seq<Pack>, gone: set<string>, group: seq<Pack>, c: PackClass)
    requires DistinctPackIds(packs) && StandingGroup(group, packs, gone, c)
    ensures Standing(packs, gone) == Standing(packs, gone + PackIds(group)).Plus(c, |group|, SizeOf(group))
  {
    if group == [] {
      assert gone + PackIds(group) == gone;
    } else {
      var front, last := group[..|group| - 1], group[|group| - 1];
      LastStands(group, packs, gone, c);
      StandingWithoutGroup(packs, gone, front, c);
      StandingWithout(packs, gone + PackIds(front), last);
      PlusTwice(Standing(packs, gone + PackIds(group)), c, |front|, SizeOf(front), last.size);
    }
  }

  function Replaced(sel: Selection): set<string> {
    sel.fullyDead + sel.partial + sel.redundant
  }

  /** Packs and bytes of one class once the selected packs are gone and the planned ones are written. */
  function Footprint(packs: seq<Pack>, sel: Selection, batches: seq<Batch>, c: PackClass): ClassMetrics {
    var kept, planned := Standing(packs, Replaced(sel)).Of(c), Measured(batches).Of(c);
    ClassMetrics(kept.packs + planned.packs, kept.bytes + planned.bytes)
  }

  /** Fewer packs and no more bytes in one class, and the other as it was. */
  ghost predicate Shrinks(packs: seq<Pack>, sel: Selection, baseline: seq<Batch>, r: Selection, candidate: seq<Batch>,
                          c: PackClass)
  {
    && Footprint(packs, r, candidate, c).packs < Footprint(packs, sel, baseline, c).packs
    && Footprint(packs, r, candidate, c).bytes <= Footprint(packs, sel, baseline, c).bytes
    && Footprint(packs, r, candidate, Other(c)) == Footprint(packs, sel, baseline, Other(c))
  }

  /** A full group's merge is accepted exactly when it shrinks the class it merges. */
  lemma ConvergentRewriteShrinks(packs: seq<Pack>, sel: Selection, r: Selection, group: seq<Pack>, c: PackClass,
                                 baseline: seq<Batch>, candidate: seq<Batch>)
    requires DistinctPackIds(packs) && StandingGroup(group, packs, Replaced(sel), c)
    requires r.fullyDead == sel.fullyDead && r.redundant == sel.redundant && r.partial == sel.partial + PackIds(group)
    ensures RewriteIsConvergent(Measured(baseline), Measured(candidate), c, |group|, SizeOf(group)) <==>
            |group| == SIZE_TIER_FAN_IN && SizeOf(group) > 0 && Shrinks(packs, sel, baseline, r, candidate, c)
  {
    StandingWithoutGroup(packs, Replaced(sel), group, c);
    assert Replaced(r) == Replaced(sel) + PackIds(group);
  }

  lemma {:induction false} TierListDistinct(packs: seq<Pack>, packClass: PackClass, tier: nat,
                                            sel: Selection, mark: Mark, graceMs: int, now: int)
    requires DistinctPackIds(packs)
    ensures DistinctPackIds(TierList(packs, packClass, tier, sel, mark, graceMs, now))
  {
    if packs != [] {
      var front := packs[..|packs| - 1];
      TierListDistinct(front, packClass, tier, sel, mark, graceMs, now);
      TierListMembers(front, packClass, tier, sel, mark, graceMs, now);
    }
  }
}
