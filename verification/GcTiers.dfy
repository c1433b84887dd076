/** Merging small clean packs of one size tier into one larger pack. */
module GcTiers {
  import opened Wrappers
  import opened GcModel
  import opened GcOwners
  import opened GcSelection

  const SIZE_TIER_FAN_IN: nat := 4

  function TargetBytes(packClass: PackClass): nat {
    if packClass == Data then 32 * 1024 * 1024 else 4 * 1024 * 1024
  }

  function Pow2(n: nat): nat {
    if n == 0 then 1 else 2 * Pow2(n - 1)
  }

  function Tier(bytes: nat): nat {
    if bytes <= 1 then 0 else 1 + Tier(bytes / 2)
  }

  /** The tier is the floor of the binary logarithm. */
  lemma {:induction false} TierBounds(bytes: nat)
    requires bytes > 0
    ensures Pow2(Tier(bytes)) <= bytes < Pow2(Tier(bytes) + 1)
  {
    if bytes > 1 { TierBounds(bytes / 2); }
  }

  lemma {:induction false} TierBelow(bytes: nat, n: nat)
    requires 0 < bytes < Pow2(n)
    ensures Tier(bytes) < n
  {
    if bytes > 1 { TierBelow(bytes / 2, n - 1); }
  }

  method PhysicalSizeTier(bytes: nat) returns (tier: nat)
    requires bytes > 0
    ensures tier == Tier(bytes)
  {
    tier := 0;
    var remaining := bytes;
    while remaining > 1
      invariant remaining > 0 && tier + Tier(remaining) == Tier(bytes)
    {
      remaining := remaining / 2;
      tier := tier + 1;
    }
  }

  /** A small, old, fully live pack that no other rewrite touches. */
  predicate Mergeable(pack: Pack, sel: Selection, mark: Mark, graceMs: int, now: int) {
    && pack.id !in sel.fullyDead + sel.partial + sel.redundant + sel.opportunistic
    && pack.size * SIZE_TIER_FAN_IN < TargetBytes(pack.packClass)
    && Expired(pack.mtime, graceMs, now)
    && pack.entries != []
    && (forall e :: e in pack.entries ==> e.key in mark.liveKeys)
    && LivePackKeys(pack, mark) !! sel.replacementKeys
  }

  /** Smaller than its share of a full pack, past the grace period, all of it live, and nothing of it selected yet. */
  ghost predicate SmallOldAndClean(pack: Pack, sel: Selection, mark: Mark, graceMs: int, now: int) {
    && 4 * pack.size < (if pack.packClass == Data then 33554432 else 4194304)
    && pack.mtime < now - graceMs && pack.entries != []
    && (forall e :: e in pack.entries ==> e.key in mark.liveKeys && e.key !in sel.replacementKeys)
    && pack.id !in sel.fullyDead && pack.id !in sel.partial && pack.id !in sel.redundant && pack.id !in sel.opportunistic
  }

  lemma MergeableMeans(pack: Pack, sel: Selection, mark: Mark, graceMs: int, now: int)
    ensures Mergeable(pack, sel, mark, graceMs, now) <==> SmallOldAndClean(pack, sel, mark, graceMs, now)
  {
    if forall e :: e in pack.entries ==> e.key in mark.liveKeys {
      assert forall e :: e in pack.entries ==> e.key in LivePackKeys(pack, mark);
    }
  }

  /** Mergeable packs of one class and tier, in inventory order. */
  function TierList(packs: seq<Pack>, packClass: PackClass, tier: nat,
                    sel: Selection, mark: Mark, graceMs: int, now: int): seq<Pack> {
    if packs == [] then []
    else
      var last := packs[|packs| - 1];
      TierList(packs[..|packs| - 1], packClass, tier, sel, mark, graceMs, now)
      + if last.packClass == packClass && Mergeable(last, sel, mark, graceMs, now) && Tier(last.size) == tier
        then [last] else []
  }

  lemma {:induction false} TierListMembers(packs: seq<Pack>, packClass: PackClass, tier: nat,
                                           sel: Selection, mark: Mark, graceMs: int, now: int)
    ensures forall p :: p in TierList(packs, packClass, tier, sel, mark, graceMs, now) <==>
              p in packs && p.packClass == packClass && Mergeable(p, sel, mark, graceMs, now) && Tier(p.size) == tier
  {
    if packs != [] {
      TierListMembers(packs[..|packs| - 1], packClass, tier, sel, mark, graceMs, now);
      assert packs == packs[..|packs| - 1] + [packs[|packs| - 1]];
    }
  }

  datatype TierGroup = TierGroup(packClass: PackClass, packs: seq<Pack>, inputBytes: nat)

  function SizeOf(packs: seq<Pack>): nat {
    if packs == [] then 0 else SizeOf(packs[..|packs| - 1]) + packs[|packs| - 1].size
  }

  method SumSizes(packs: seq<Pack>) returns (bytes: nat)
    ensures bytes == SizeOf(packs)
  {
    bytes := 0;
    for i := 0 to |packs|
      invariant bytes == SizeOf(packs[..i])
    {
      assert packs[..i + 1][..i] == packs[..i];
      bytes := bytes + packs[i].size;
    }
    assert packs[..|packs|] == packs;
  }

  const TIER_LIMIT: nat := 23

  /** Tiers past the limit hold packs too large to merge. */
  lemma NoHighTier(packs: seq<Pack>, packClass: PackClass, tier: nat,
                   sel: Selection, mark: Mark, graceMs: int, now: int)
    requires forall p :: p in packs ==> p.size > 0
    requires tier >= TIER_LIMIT
    ensures TierList(packs, packClass, tier, sel, mark, graceMs, now) == []
  {
    var list := TierList(packs, packClass, tier, sel, mark, graceMs, now);
    TierListMembers(packs, packClass, tier, sel, mark, graceMs, now);
    if list != [] {
      assert list[0] in list;
      assert Pow2(6) == 64 && Pow2(12) == 4096 && Pow2(18) == 262144 && Pow2(23) == 8388608;
      TierBelow(list[0].size, TIER_LIMIT);
      assert false;
    }
  }

  /** The first fan-in packs of the lowest tier that has enough; none means that no tier has. */
  ghost predicate LowestGroup(packClass: PackClass, packs: seq<Pack>, sel: Selection, mark: Mark, graceMs: int, now: int,
                              group: Option<TierGroup>)
  {
    match group
    case None => forall t: nat :: |TierList(packs, packClass, t, sel, mark, graceMs, now)| < SIZE_TIER_FAN_IN
    case Some(g) =>
      && g.packClass == packClass && g.inputBytes == SizeOf(g.packs)
      && exists t: nat ::
           && |TierList(packs, packClass, t, sel, mark, graceMs, now)| >= SIZE_TIER_FAN_IN
           && g.packs == TierList(packs, packClass, t, sel, mark, graceMs, now)[..SIZE_TIER_FAN_IN]
           && forall u: nat :: u < t ==> |TierList(packs, packClass, u, sel, mark, graceMs, now)| < SIZE_TIER_FAN_IN
  }

  /** The lowest tier of a class with enough mergeable packs gives one group of them. */
  method GroupFor(packClass: PackClass, packs: seq<Pack>, sel: Selection, mark: Mark, graceMs: int, now: int)
    returns (group: Option<TierGroup>)
    requires forall p :: p in packs ==> p.size > 0
    ensures LowestGroup(packClass, packs, sel, mark, graceMs, now, group)
  {
    for t := 0 to TIER_LIMIT
      invariant forall u: nat :: u < t ==>
                  |TierList(packs, packClass, u, sel, mark, graceMs, now)| < SIZE_TIER_FAN_IN
    {
      var list: seq<Pack> := [];
      for i := 0 to |packs|
        invariant list == TierList(packs[..i], packClass, t, sel, mark, graceMs, now)
      {
        assert packs[..i + 1][..i] == packs[..i];
        var pack := packs[i];
        var tier := PhysicalSizeTier(pack.size);
        if pack.packClass == packClass && Mergeable(pack, sel, mark, graceMs, now) && tier == t {
          list := list + [pack];
        }
      }
      assert packs[..|packs|] == packs;
      if |list| >= SIZE_TIER_FAN_IN {
        var inputBytes := SumSizes(list[..SIZE_TIER_FAN_IN]);
        return Some(TierGroup(packClass, list[..SIZE_TIER_FAN_IN], inputBytes));
      }
    }
    forall t: nat ensures |TierList(packs, packClass, t, sel, mark, graceMs, now)| < SIZE_TIER_FAN_IN {
      if t >= TIER_LIMIT { NoHighTier(packs, packClass, t, sel, mark, graceMs, now); }
    }
    return None;
  }

  function EntryKeys(pack: Pack): set<Key> {
    set e | e in pack.entries :: e.key
  }

  function GroupKeys(packs: seq<Pack>): set<Key> {
    set p, e | p in packs && e in p.entries :: e.key
  }

  method GroupRequirements(group: seq<Pack>, ghost packs: seq<Pack>)
    returns (requirements: map<string, set<Key>>)
    requires DistinctPackIds(packs) && forall p :: p in group ==> p in packs
    ensures requirements.Keys == PackIds(group)
    ensures forall p :: p in group ==> requirements[p.id] == EntryKeys(p)
  {
    requirements := map[];
    for i := 0 to |group|
      invariant requirements.Keys == PackIds(group[..i])
      invariant forall p :: p in group[..i] ==> requirements[p.id] == EntryKeys(p)
    {
      SameIdSamePack(packs, group[i]);
      assert group[..i + 1] == group[..i] + [group[i]];
      requirements := requirements[group[i].id := EntryKeys(group[i])];
    }
    assert group[..|group|] == group;
  }

  /** Add a group's packs to the rewrites, or decline when its keys exceed the budgets. */
  method ExtendWithGroup(sel: Selection, group: seq<Pack>, maximum: nat, bytesFit: bool,
                         ghost packs: seq<Pack>, ghost mark: Mark)
    returns (r: Option<Selection>)
    requires Sound(sel, packs, mark) && DistinctPackIds(packs)
    requires |sel.replacementKeys| <= maximum
    requires forall p :: p in group ==> p in packs
    ensures r.Some? <==> bytesFit && |GroupKeys(group) - sel.replacementKeys| <= maximum - |sel.replacementKeys|
    ensures r.Some? ==> Sound(r.value, packs, mark) && |r.value.replacementKeys| <= maximum
    ensures r.Some? ==> r.value.partial == sel.partial + PackIds(group)
    ensures r.Some? ==> r.value.replacementKeys == sel.replacementKeys + GroupKeys(group)
    ensures r.Some? ==> r.value == sel.(partial := r.value.partial, replacementKeys := r.value.replacementKeys,
                                        requirements := r.value.requirements)
  {
    var requirements := GroupRequirements(group, packs);
    var additions := GroupKeys(group) - sel.replacementKeys;
    if !bytesFit || |additions| > maximum - |sel.replacementKeys| { return None; }
    var extended := sel.(
      partial := sel.partial + PackIds(group),
      replacementKeys := sel.replacementKeys + additions,
      requirements := sel.requirements + requirements);
    assert extended.replacementKeys == sel.replacementKeys + GroupKeys(group);
    GroupKeepsSound(sel, extended, requirements, group, packs, mark);
    r := Some(extended);
  }

  /** A merged pack requires all its records, so it owns nothing that is not required. */
  lemma GroupKeepsSound(sel: Selection, r: Selection, added: map<string, set<Key>>, group: seq<Pack>,
                        packs: seq<Pack>, mark: Mark)
    requires Sound(sel, packs, mark) && DistinctPackIds(packs)
    requires forall p :: p in group ==> p in packs
    requires added.Keys == PackIds(group) && forall p :: p in group ==> added[p.id] == EntryKeys(p)
    requires r.fullyDead == sel.fullyDead && r.redundant == sel.redundant
    requires r.partial == sel.partial + PackIds(group)
    requires r.replacementKeys == sel.replacementKeys + GroupKeys(group)
    requires r.requirements == sel.requirements + added
    ensures Sound(r, packs, mark)
  {
    forall p | p in packs && p.id in r.partial
      ensures OwnedLive(p, packs, mark) <= r.requirements[p.id]
    {
      if p.id in PackIds(group) {
        var q :| q in group && q.id == p.id;
        SameIdSamePack(packs, q);
        assert LivePackKeys(p, mark) <= EntryKeys(p);
      }
    }
    forall id | id in r.partial ensures r.requirements[id] <= r.replacementKeys {
      if id in PackIds(group) {
        var q :| q in group && q.id == id;
        assert EntryKeys(q) <= GroupKeys(group);
      }
    }
  }
}
