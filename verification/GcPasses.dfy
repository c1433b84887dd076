/** The passes that narrow or extend a selection before anything is published. */
module GcPasses {
  import opened Wrappers
  import opened GcModel
  import opened GcSelection

  const MAX_SAFE_INTEGER := 9007199254740991

  /** A selected record and its decoded length, when the inventory knows one. */
  datatype Candidate = Candidate(key: Key, decodedLength: Option<int>)

  predicate UsableLength(c: Candidate) {
    c.decodedLength.Some? && 0 <= c.decodedLength.value <= MAX_SAFE_INTEGER
  }

  function KeysOf(candidates: seq<Candidate>): set<Key> {
    set c | c in candidates :: c.key
  }

  function TotalLength(candidates: seq<Candidate>): int
    requires forall c :: c in candidates ==> UsableLength(c)
  {
    if candidates == [] then 0
    else
      var last := candidates[|candidates| - 1];
      assert last in candidates && UsableLength(last);
      TotalLength(candidates[..|candidates| - 1]) + last.decodedLength.value
  }

  predicate DistinctKeys(candidates: seq<Candidate>) {
    forall i, j :: 0 <= i < j < |candidates| ==> candidates[i].key != candidates[j].key
  }

  /** Whatever is usable and was not admitted no longer fits. */
  ghost predicate RestTooLarge(candidates: seq<Candidate>, keys: set<Key>, room: int) {
    forall c :: c in candidates && UsableLength(c) && c.key !in keys ==> c.decodedLength.value > room
  }

  lemma AdmitOne(admitted: seq<Candidate>, c: Candidate)
    requires (forall x :: x in admitted ==> UsableLength(x)) && DistinctKeys(admitted)
    requires UsableLength(c) && c.key !in KeysOf(admitted)
    ensures DistinctKeys(admitted + [c]) && KeysOf(admitted + [c]) == KeysOf(admitted) + {c.key}
    ensures TotalLength(admitted + [c]) == TotalLength(admitted) + c.decodedLength.value
  {
    assert (admitted + [c])[..|admitted|] == admitted;
    forall i | 0 <= i < |admitted| ensures admitted[i].key != c.key {
      assert admitted[i] in admitted;
    }
  }

  /** Whole records are admitted greedily; `admitted` is the list that was let in. */
  method SelectWithinBudget(candidates: seq<Candidate>, maximum: nat)
    returns (admitted: seq<Candidate>)
    ensures forall c :: c in admitted ==> c in candidates && UsableLength(c)
    ensures DistinctKeys(admitted) && TotalLength(admitted) <= maximum
    ensures RestTooLarge(candidates, KeysOf(admitted), maximum - TotalLength(admitted))
  {
    admitted := [];
    var keys: set<Key> := {};
    var bytes := 0;
    for i := 0 to |candidates|
      invariant forall c :: c in admitted ==> c in candidates && UsableLength(c)
      invariant DistinctKeys(admitted) && keys == KeysOf(admitted) && bytes == TotalLength(admitted) <= maximum
      invariant RestTooLarge(candidates[..i], keys, maximum - bytes)
    {
      var c := candidates[i];
      assert candidates[..i + 1] == candidates[..i] + [c];
      if c.key !in keys && UsableLength(c) && c.decodedLength.value <= maximum - bytes {
        AdmitOne(admitted, c);
        admitted, keys, bytes := admitted + [c], keys + {c.key}, bytes + c.decodedLength.value;
      }
    }
    assert candidates[..|candidates|] == candidates;
  }

  /** Rewrites whose whole requirement is still republished. */
  function StillBacked(sel: Selection, keys: set<Key>): set<string> {
    set id | id in sel.partial && id in sel.requirements && sel.requirements[id] <= keys
  }

  /** The admitted records are usable, fit together, and every other usable record no longer fits beside them. */
  ghost predicate FillsBudget(admitted: seq<Candidate>, keys: set<Key>, lengths: map<Key, int>, maximum: nat) {
    && (forall c :: c in admitted ==>
          c.key in keys && c.key in lengths && c.decodedLength == Some(lengths[c.key]) && UsableLength(c))
    && DistinctKeys(admitted) && TotalLength(admitted) <= maximum
    && (forall k :: k in keys && k in lengths && 0 <= lengths[k] <= MAX_SAFE_INTEGER && k !in KeysOf(admitted) ==>
          lengths[k] > maximum - TotalLength(admitted))
  }

  /** Records are cut to the decoded budget, and exactly the rewrites that lost one of theirs are dropped. */
  ghost predicate Bounds(sel: Selection, lengths: map<Key, int>, maximum: nat, r: Selection) {
    && (exists admitted :: FillsBudget(admitted, sel.replacementKeys, lengths, maximum) && KeysOf(admitted) == r.replacementKeys)
    && r.partial == StillBacked(sel, r.replacementKeys)
    && r.requirements.Keys == r.partial
    && (forall id :: id in r.partial ==> id in sel.requirements && r.requirements[id] == sel.requirements[id])
    && r == sel.(replacementKeys := r.replacementKeys, partial := r.partial, requirements := r.requirements)
  }

  /** One candidate for each selected record. */
  method CandidatesOf(keys: set<Key>, lengths: map<Key, int>) returns (candidates: seq<Candidate>)
    ensures forall c :: c in candidates <==>
              c.key in keys && c.decodedLength == if c.key in lengths then Some(lengths[c.key]) else None
  {
    candidates := [];
    var rest := keys;
    while rest != {}
      invariant rest <= keys
      invariant forall c :: c in candidates <==>
                  c.key in keys - rest && c.decodedLength == if c.key in lengths then Some(lengths[c.key]) else None
    {
      var k :| k in rest;
      candidates := candidates + [Candidate(k, if k in lengths then Some(lengths[k]) else None)];
      rest := rest - {k};
    }
  }

  /** Drop records over the decoded budget, then every rewrite that lost one. */
  method BoundDecodedBytes(sel: Selection, lengths: map<Key, int>, maximum: nat,
                           ghost packs: seq<Pack>, ghost mark: Mark)
    returns (r: Selection)
    requires Classified(sel, packs, mark)
    ensures Sound(r, packs, mark) && Bounds(sel, lengths, maximum, r)
    ensures r.replacementKeys <= sel.replacementKeys
  {
    var candidates := CandidatesOf(sel.replacementKeys, lengths);
    var admitted := SelectWithinBudget(candidates, maximum);
    var keys := KeysOf(admitted);
    forall k | k in sel.replacementKeys && k in lengths && 0 <= lengths[k] <= MAX_SAFE_INTEGER && k !in keys
      ensures lengths[k] > maximum - TotalLength(admitted)
    {
      assert Candidate(k, Some(lengths[k])) in candidates;
    }
    assert FillsBudget(admitted, sel.replacementKeys, lengths, maximum);
    var partial: set<string> := {};
    var requirements: map<string, set<Key>> := map[];
    var ids := sel.partial;
    while ids != {}
      invariant ids <= sel.partial
      invariant partial == StillBacked(sel, keys) - ids == requirements.Keys
      invariant forall id :: id in partial ==> requirements[id] == sel.requirements[id]
    {
      var id :| id in ids;
      if id in sel.requirements && sel.requirements[id] <= keys {
        partial := partial + {id};
        requirements := requirements[id := sel.requirements[id]];
      }
      ids := ids - {id};
    }
    r := sel.(replacementKeys := keys, partial := partial, requirements := requirements);
  }

  /** Contents whose conversion was skipped are not republished after all. */
  function OmitReplacementKeys(sel: Selection, omitted: set<string>): Selection {
    sel.(replacementKeys := set k | k in sel.replacementKeys && (k.kind != Content || k.id !in omitted))
  }

  lemma OmitKeepsClassified(sel: Selection, omitted: set<string>, packs: seq<Pack>, mark: Mark)
    requires Classified(sel, packs, mark)
    ensures Classified(OmitReplacementKeys(sel, omitted), packs, mark)
    ensures forall k :: k in OmitReplacementKeys(sel, omitted).replacementKeys <==>
              k in sel.replacementKeys && !(k.kind == Content && k.id in omitted)
    ensures Backed(sel) && !Backed(OmitReplacementKeys(sel, omitted)) ==>
              exists id, k :: id in sel.partial && k in sel.requirements[id]
                              && k.kind == Content && k.id in omitted
  {
    var r := OmitReplacementKeys(sel, omitted);
    if Backed(sel) && !Backed(r) {
      var id :| id in r.partial && !(r.requirements[id] <= r.replacementKeys);
      var k :| k in r.requirements[id] && k !in r.replacementKeys;
      assert id in sel.partial && k in sel.requirements[id];
    }
  }

  /** The fallback when nothing additive fits: only removals that need no replacement stay. */
  function WithoutReplacementWork(sel: Selection): Selection {
    sel.(partial := {}, replacementKeys := {}, requirements := map[], opportunistic := {}, addedKeys := map[])
  }

  lemma WithoutWorkIsSound(sel: Selection, packs: seq<Pack>, mark: Mark)
    requires Classified(sel, packs, mark)
    ensures Sound(WithoutReplacementWork(sel), packs, mark)
  {
  }

  const MAX_REWRITE_TO_SAVINGS_RATIO := 4

  /** A delta rewrite fails when its pack is unknown, added nothing, or saved too little. */
  predicate RewriteFailed(id: string, sel: Selection, packs: seq<Pack>, saved: map<string, nat>) {
    || (forall p :: p in packs ==> p.id != id)
    || id !in sel.addedKeys
    || sel.addedKeys[id] == {}
    || id !in saved
    || saved[id] == 0
    || (exists p :: p in packs && p.id == id && p.size > saved[id] * MAX_REWRITE_TO_SAVINGS_RATIO)
  }

  function FailedRewrites(sel: Selection, packs: seq<Pack>, saved: map<string, nat>): set<string> {
    set id | id in sel.opportunistic && RewriteFailed(id, sel, packs, saved)
  }

  function Added(sel: Selection, ids: set<string>): set<Key> {
    set id, k | id in ids && id in sel.addedKeys && k in sel.addedKeys[id] :: k
  }

  function Required(requirements: map<string, set<Key>>): set<Key> {
    set id, k | id in requirements && k in requirements[id] :: k
  }

  /** A delta rewrite pays if its pack is known, it added records, and it saved at least a quarter of the pack. */
  lemma RewritePays(id: string, sel: Selection, packs: seq<Pack>, saved: map<string, nat>)
    requires DistinctPackIds(packs)
    ensures !RewriteFailed(id, sel, packs, saved) <==>
              exists p :: p in packs && p.id == id && id in sel.addedKeys && sel.addedKeys[id] != {}
                          && id in saved && saved[id] > 0 && p.size <= 4 * saved[id]
  {
    if p :| p in packs && p.id == id { SameIdSamePack(packs, p); }
  }

  /** The failed rewrites are gone, with the records only they added; everything else stands. */
  ghost predicate Prunes(sel: Selection, packs: seq<Pack>, saved: map<string, nat>, r: Selection) {
    var failed := FailedRewrites(sel, packs, saved);
    && r.fullyDead == sel.fullyDead && r.redundant == sel.redundant
    && r.partial == sel.partial - failed && r.opportunistic == sel.opportunistic - failed
    && r.requirements == sel.requirements - failed
    && r.replacementKeys == sel.replacementKeys
                            - (if failed == {} then {} else Added(sel, failed) - Required(r.requirements))
  }

  /** Cancel delta rewrites that did not pay, keeping keys another rewrite requires. */
  method PruneUnproductive(sel: Selection, packs: seq<Pack>, mark: Mark, saved: map<string, nat>)
    returns (r: Selection)
    requires Sound(sel, packs, mark)
    ensures Sound(r, packs, mark)
    ensures r.replacementKeys <= sel.replacementKeys && Prunes(sel, packs, saved, r)
  {
    var failed := FailedRewrites(sel, packs, saved);
    if failed == {} { return sel; }
    var requirements := sel.requirements - failed;
    var dropped := Added(sel, failed) - Required(requirements);
    r := sel.(
      partial := sel.partial - failed,
      replacementKeys := sel.replacementKeys - dropped,
      requirements := requirements,
      opportunistic := sel.opportunistic - failed,
      addedKeys := sel.addedKeys - failed);
  }
}
