/**
 The store as garbage collection sees it: loose objects, packs of logical
 records, and the mark that says which logical records are live.
 */
module GcModel {
  import opened Wrappers

  datatype RecordKind = Content | Recipe | TreeRoot | TreeNode | Scope

  /** The source's `kind:id` text; the kind has no colon, so the pair is the same key. */
  datatype Key = Key(kind: RecordKind, id: string)

  datatype Encoding = Raw | Full | Delta1 | ChunkedV1

  datatype PackEntry =
    PackEntry(key: Key, ordinal: nat, encoding: Encoding, length: nat, decodedLength: nat)

  datatype PackClass = Data | Metadata

  datatype Pack =
    Pack(id: string, packClass: PackClass, entries: seq<PackEntry>, size: nat, mtime: int)

  datatype ObjectKind = LegacyBlob | LooseContent | LooseRecipe | LooseStructural

  datatype StoreObject =
    StoreObject(path: string, kind: ObjectKind, id: Option<string>, temporary: bool,
                byteLength: nat, modifiedAt: int)

  /** Where marking read one logical content. */
  datatype Location =
    | InPack(packId: string, ordinal: nat, encoding: Encoding)
    | InLegacyBlob
    | InLooseContent(encoding: Encoding)

  datatype Mark =
    Mark(liveKeys: set<Key>, structuralKinds: map<string, set<RecordKind>>,
         selected: map<string, Location>)

  datatype Inventory = Inventory(objects: seq<StoreObject>, packs: seq<Pack>)

  predicate Expired(modifiedAt: int, graceMs: int, now: int) {
    modifiedAt < now - graceMs
  }

  /** Pack ids are digests of their bytes, so no two packs share one. */
  ghost predicate DistinctPackIds(packs: seq<Pack>) {
    forall i, j :: 0 <= i < j < |packs| ==> packs[i].id != packs[j].id
  }

  function PackIds(packs: seq<Pack>): set<string> {
    set p | p in packs :: p.id
  }

  function ObjectKeys(obj: StoreObject, mark: Mark): set<Key> {
    if obj.temporary || obj.id.None? then {}
    else
      match obj.kind
      case LegacyBlob => {Key(Content, obj.id.value)}
      case LooseContent => {Key(Content, obj.id.value)}
      case LooseRecipe => {Key(Recipe, obj.id.value)}
      case LooseStructural =>
        if obj.id.value in mark.structuralKinds
        then set kind | kind in mark.structuralKinds[obj.id.value] :: Key(kind, obj.id.value)
        else {}
  }

  predicate ObjectIsLive(obj: StoreObject, mark: Mark) {
    ObjectKeys(obj, mark) * mark.liveKeys != {}
  }

  function LivePackKeys(pack: Pack, mark: Mark): set<Key> {
    set e | e in pack.entries && e.key in mark.liveKeys :: e.key
  }

  function EncodingAt(location: Location): Encoding {
    match location
    case InPack(_, _, encoding) => encoding
    case InLegacyBlob => Raw
    case InLooseContent(encoding) => encoding
  }

  /** Whether one pack entry may stand for its live key at the coverage fence. */
  predicate EntryCovers(entry: PackEntry, mark: Mark) {
    && entry.key in mark.liveKeys
    && (entry.key.kind == Content && entry.encoding == ChunkedV1 ==>
          && entry.key.id in mark.selected
          && EncodingAt(mark.selected[entry.key.id]) == ChunkedV1)
  }

  predicate PackCovers(pack: Pack, key: Key, mark: Mark) {
    exists e :: e in pack.entries && e.key == key && EntryCovers(e, mark)
  }

  /** A representation of `key` that is in neither removal set. */
  ghost predicate Covered(inv: Inventory, mark: Mark, key: Key,
                          goneObjects: set<StoreObject>, gonePacks: set<string>) {
    || (exists o :: o in inv.objects && o !in goneObjects && key in ObjectKeys(o, mark))
    || (exists p :: p in inv.packs && p.id !in gonePacks && PackCovers(p, key, mark))
  }

  /** The location marking chose for a content exists in the inventory. */
  ghost predicate LocationPresent(inv: Inventory, id: string, location: Location) {
    match location
    case InPack(packId, ordinal, encoding) =>
      exists p, e :: p in inv.packs && p.id == packId && e in p.entries
                     && e.key == Key(Content, id) && e.ordinal == ordinal && e.encoding == encoding
    case InLegacyBlob =>
      exists o :: o in inv.objects && o.kind == LegacyBlob && !o.temporary && o.id == Some(id)
    case InLooseContent(_) =>
      exists o :: o in inv.objects && o.kind == LooseContent && !o.temporary && o.id == Some(id)
  }

  /**
   What marking establishes under the workspace lock: every live content was read at a
   location that exists, and every other live record has some representation.
   */
  ghost predicate MarkAuthentic(inv: Inventory, mark: Mark) {
    forall k :: k in mark.liveKeys ==>
      if k.kind == Content
      then k.id in mark.selected && LocationPresent(inv, k.id, mark.selected[k.id])
      else Covered(inv, mark, k, {}, {})
  }
}
