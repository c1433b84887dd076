/** One owner per duplicated live record, chosen from where it occurs in the packs. */
module GcOwners {
  import opened Wrappers
  import opened GcModel

  datatype Occurrence = Occurrence(pack: Pack, entry: PackEntry)

  /** Occurrences of `k` among the first entries of one pack, in entry order. */
  function InEntries(pack: Pack, entries: seq<PackEntry>, k: Key): seq<Occurrence> {
    if entries == [] then []
    else
      InEntries(pack, entries[..|entries| - 1], k)
      + (if entries[|entries| - 1].key == k then [Occurrence(pack, entries[|entries| - 1])] else [])
  }

  function Occurrences(packs: seq<Pack>, k: Key): seq<Occurrence> {
    if packs == [] then []
    else
      Occurrences(packs[..|packs| - 1], k)
      + InEntries(packs[|packs| - 1], packs[|packs| - 1].entries, k)
  }

  /** The occurrence marking read, when it read one of the packed copies of a content. */
  predicate IsSelected(o: Occurrence, mark: Mark) {
    && o.entry.key.kind == Content
    && o.entry.key.id in mark.selected
    && mark.selected[o.entry.key.id].InPack?
    && mark.selected[o.entry.key.id].packId == o.pack.id
    && mark.selected[o.entry.key.id].ordinal == o.entry.ordinal
  }

  function FirstSelected(occurrences: seq<Occurrence>, mark: Mark): Option<Occurrence> {
    if occurrences == [] then None
    else if IsSelected(occurrences[0], mark) then Some(occurrences[0])
    else FirstSelected(occurrences[1..], mark)
  }

  /** Only records with several occurrences have an assigned owner. */
  function OwnerAmong(occurrences: seq<Occurrence>, mark: Mark): Option<string> {
    if |occurrences| <= 1 then None
    else
      match FirstSelected(occurrences, mark)
      case Some(o) => Some(o.pack.id)
      case None => Some(occurrences[0].pack.id)
  }

  function OwnerOf(packs: seq<Pack>, mark: Mark, k: Key): Option<string> {
    OwnerAmong(Occurrences(packs, k), mark)
  }

  /** Live records of `pack` that no other pack is responsible for. */
  function OwnedLive(pack: Pack, packs: seq<Pack>, mark: Mark): set<Key> {
    set k | k in LivePackKeys(pack, mark)
            && (OwnerOf(packs, mark, k) == None || OwnerOf(packs, mark, k) == Some(pack.id))
  }

  lemma {:induction false} InEntriesSound(pack: Pack, entries: seq<PackEntry>, k: Key)
    ensures forall o :: o in InEntries(pack, entries, k) ==>
              o.pack == pack && o.entry in entries && o.entry.key == k
    ensures forall e :: e in entries && e.key == k ==>
              Occurrence(pack, e) in InEntries(pack, entries, k)
  {
    if entries != [] {
      var front, last := entries[..|entries| - 1], entries[|entries| - 1];
      InEntriesSound(pack, front, k);
      assert entries == front + [last];
    }
  }

  /** `Occurrences` lists exactly the packed copies of a record. */
  lemma {:induction false} OccurrencesSound(packs: seq<Pack>, k: Key)
    ensures forall o :: o in Occurrences(packs, k) <==>
              o.pack in packs && o.entry in o.pack.entries && o.entry.key == k
  {
    if packs != [] {
      var front, last := packs[..|packs| - 1], packs[|packs| - 1];
      OccurrencesSound(front, k);
      InEntriesSound(last, last.entries, k);
      assert packs == front + [last];
    }
  }

  lemma {:induction false} FirstSelectedFound(occurrences: seq<Occurrence>, mark: Mark)
    ensures FirstSelected(occurrences, mark).Some? ==>
              FirstSelected(occurrences, mark).value in occurrences
              && IsSelected(FirstSelected(occurrences, mark).value, mark)
    ensures FirstSelected(occurrences, mark).None? ==>
              forall o :: o in occurrences ==> !IsSelected(o, mark)
  {
    if occurrences != [] {
      FirstSelectedFound(occurrences[1..], mark);
      assert occurrences == [occurrences[0]] + occurrences[1..];
    }
  }

  ghost predicate Holds(p: Pack, k: Key) {
    exists e :: e in p.entries && e.key == k
  }

  /** The first pack, in order, that holds the record. */
  ghost predicate FirstHolder(packs: seq<Pack>, k: Key, p: Pack) {
    exists n :: 0 <= n < |packs| && packs[n] == p && Holds(p, k) && forall m :: 0 <= m < n ==> !Holds(packs[m], k)
  }

  lemma {:induction false} FirstOccurrence(packs: seq<Pack>, k: Key)
    ensures Occurrences(packs, k) == [] <==> forall m :: 0 <= m < |packs| ==> !Holds(packs[m], k)
    ensures Occurrences(packs, k) != [] ==> FirstHolder(packs, k, Occurrences(packs, k)[0].pack)
  {
    if packs != [] {
      var front, last := packs[..|packs| - 1], packs[|packs| - 1];
      FirstOccurrence(front, k);
      InEntriesSound(last, last.entries, k);
      if Occurrences(front, k) != [] {
        var n :| 0 <= n < |front| && front[n] == Occurrences(front, k)[0].pack && Holds(front[n], k)
                 && forall m :: 0 <= m < n ==> !Holds(front[m], k);
        assert packs[n] == front[n] && forall m :: 0 <= m < n ==> packs[m] == front[m];
      } else {
        assert forall m :: 0 <= m < |front| ==> packs[m] == front[m];
        var here := InEntries(last, last.entries, k);
        if here != [] {
          assert here[0] in here;
          assert Holds(last, k);
        }
        if e :| e in last.entries && e.key == k { assert Occurrence(last, e) in here; }
      }
    }
  }

  /** Marking read the record at this pack. */
  ghost predicate ReadAt(p: Pack, k: Key, mark: Mark) {
    && k.kind == Content && k.id in mark.selected && mark.selected[k.id].InPack? && mark.selected[k.id].packId == p.id
    && exists e :: e in p.entries && e.key == k && e.ordinal == mark.selected[k.id].ordinal
  }

  /** An assigned owner is the pack marking read the record at, or else the first pack that holds it. */
  lemma OwnerIsSelectedOrFirst(packs: seq<Pack>, mark: Mark, k: Key)
    requires OwnerOf(packs, mark, k).Some?
    ensures exists p :: p in packs && OwnerOf(packs, mark, k) == Some(p.id)
                        && (ReadAt(p, k, mark)
                            || (FirstHolder(packs, k, p) && forall q :: q in packs ==> !ReadAt(q, k, mark)))
  {
    var occ := Occurrences(packs, k);
    OccurrencesSound(packs, k);
    FirstSelectedFound(occ, mark);
    FirstOccurrence(packs, k);
    match FirstSelected(occ, mark)
    case Some(o) =>
      assert ReadAt(o.pack, k, mark);
    case None =>
      assert occ[0] in occ;
      forall q | q in packs ensures !ReadAt(q, k, mark) {
        if ReadAt(q, k, mark) {
          var e :| e in q.entries && e.key == k && e.ordinal == mark.selected[k.id].ordinal;
          assert Occurrence(q, e) in occ && IsSelected(Occurrence(q, e), mark);
        }
      }
  }

  /** Every packed live record has one pack that owns it. */
  lemma OwnerExists(packs: seq<Pack>, mark: Mark, k: Key, holder: Pack) returns (owner: Pack)
    requires holder in packs && k in LivePackKeys(holder, mark)
    ensures owner in packs && k in OwnedLive(owner, packs, mark)
    ensures OwnerOf(packs, mark, k) == None ==> owner == holder
    ensures k.kind == Content && k.id in mark.selected && mark.selected[k.id].InPack?
            && LocationPresent(Inventory([], packs), k.id, mark.selected[k.id])
            ==> owner.id == mark.selected[k.id].packId
  {
    var occ := Occurrences(packs, k);
    OccurrencesSound(packs, k);
    FirstSelectedFound(occ, mark);
    var e :| e in holder.entries && e.key == k;
    assert Occurrence(holder, e) in occ;
    if |occ| <= 1 {
      owner := holder;
      assert forall o :: o in occ ==> o == Occurrence(holder, e);
    } else {
      var o := match FirstSelected(occ, mark) case Some(o) => o case None => occ[0];
      owner := o.pack;
      assert o in occ && o.entry in owner.entries && o.entry.key == k;
    }
    if k.kind == Content && k.id in mark.selected && mark.selected[k.id].InPack?
       && LocationPresent(Inventory([], packs), k.id, mark.selected[k.id])
    {
      var location := mark.selected[k.id];
      var p, e' :| p in packs && p.id == location.packId && e' in p.entries
                   && e'.key == Key(Content, k.id) && e'.ordinal == location.ordinal
                   && e'.encoding == location.encoding;
      assert k == Key(Content, k.id);
      assert Occurrence(p, e') in occ && IsSelected(Occurrence(p, e'), mark);
    }
  }

  /** Occurrences in all of `before`, then in the first entries of `pack`. */
  function Listed(before: seq<Pack>, pack: Pack, entries: seq<PackEntry>, k: Key): seq<Occurrence> {
    Occurrences(before, k) + InEntries(pack, entries, k)
  }

  /** `groups` holds, for exactly the live keys that occur, the listed occurrences. */
  ghost predicate Groups(groups: map<Key, seq<Occurrence>>, mark: Mark,
                         before: seq<Pack>, pack: Pack, entries: seq<PackEntry>) {
    && (forall k :: k in groups ==> k in mark.liveKeys)
    && (forall k :: k in mark.liveKeys ==>
          Listed(before, pack, entries, k) == if k in groups then groups[k] else [])
  }

  lemma ListedStep(before: seq<Pack>, pack: Pack, j: nat, k: Key)
    requires j < |pack.entries|
    ensures Listed(before, pack, pack.entries[..j + 1], k)
         == Listed(before, pack, pack.entries[..j], k)
            + (if pack.entries[j].key == k then [Occurrence(pack, pack.entries[j])] else [])
  {
    assert pack.entries[..j + 1][..j] == pack.entries[..j];
  }

  method NoteEntry(groups: map<Key, seq<Occurrence>>, mark: Mark,
                   ghost before: seq<Pack>, pack: Pack, j: nat)
    returns (r: map<Key, seq<Occurrence>>)
    requires j < |pack.entries| && Groups(groups, mark, before, pack, pack.entries[..j])
    ensures Groups(r, mark, before, pack, pack.entries[..j + 1])
  {
    var entry := pack.entries[j];
    r := groups;
    if entry.key in mark.liveKeys {
      var seen := if entry.key in groups then groups[entry.key] else [];
      r := groups[entry.key := seen + [Occurrence(pack, entry)]];
    }
    forall k | k in mark.liveKeys
      ensures Listed(before, pack, pack.entries[..j + 1], k) == if k in r then r[k] else []
    {
      ListedStep(before, pack, j, k);
    }
  }

  method GroupOccurrences(packs: seq<Pack>, mark: Mark) returns (groups: map<Key, seq<Occurrence>>)
    ensures forall k :: k in groups ==> k in mark.liveKeys
    ensures forall k :: k in mark.liveKeys ==>
              Occurrences(packs, k) == if k in groups then groups[k] else []
  {
    groups := map[];
    for i := 0 to |packs|
      invariant forall k :: k in groups ==> k in mark.liveKeys
      invariant forall k :: k in mark.liveKeys ==>
                  Occurrences(packs[..i], k) == if k in groups then groups[k] else []
    {
      var pack := packs[i];
      for j := 0 to |pack.entries|
        invariant Groups(groups, mark, packs[..i], pack, pack.entries[..j])
      {
        groups := NoteEntry(groups, mark, packs[..i], pack, j);
      }
      assert pack.entries[..|pack.entries|] == pack.entries;
      assert packs[..i + 1][..i] == packs[..i];
    }
    assert packs[..|packs|] == packs;
  }

  /** The selection's two loops: group occurrences by key, then pick an owner where there are several. */
  method AssignOwners(packs: seq<Pack>, mark: Mark) returns (owners: map<Key, string>)
    ensures forall k :: k in mark.liveKeys ==>
              OwnerOf(packs, mark, k) == if k in owners then Some(owners[k]) else None
    ensures owners.Keys <= mark.liveKeys
  {
    var groups := GroupOccurrences(packs, mark);
    owners := map[];
    var keys := groups.Keys;
    while keys != {}
      invariant keys <= groups.Keys && owners.Keys <= groups.Keys - keys
      invariant forall k :: k in groups.Keys - keys ==>
                  OwnerAmong(groups[k], mark) == if k in owners then Some(owners[k]) else None
    {
      var k :| k in keys;
      if |groups[k]| > 1 {
        owners := owners[k := OwnerAmong(groups[k], mark).value];
      }
      keys := keys - {k};
    }
  }
}
