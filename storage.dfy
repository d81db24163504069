/** The browser storage entry under the key "announcements": a serialised object
    mapping an announcement id to its "seen" flag. */
module Storage {

  /** What `localStorage.getItem('announcements')` yields: nothing at all (no item,
      or the empty string), or a parsed object from id to "seen" flag. */
  datatype StoredItem = Absent | Json(seen: map<string, bool>)

  /** The parsed "seen" map, reading a missing item as the empty object `{}`. */
  function SeenMap(item: StoredItem): (m: map<string, bool>)
    ensures item.Absent? ==> m == map[]
    ensures item.Json? ==> m == item.seen
  {
    match item
    case Absent => map[]
    case Json(seen) => seen
  }

  /** Whether the stored map flags announcement `id` as seen. Ids are own keys of
      the stored object: an id with no entry reads as not seen. */
  predicate IsSeen(item: StoredItem, id: string)
    ensures IsSeen(item, id) ==> item.Json? && id in item.seen
    ensures item.Json? && id in item.seen ==> (IsSeen(item, id) <==> item.seen[id])
  {
    var seen := SeenMap(item);
    id in seen && seen[id]
  }

  /** The item written back after marking `id` as seen: read the map (empty when
      absent), set `id` to true, store the whole map again. */
  function MarkSeen(item: StoredItem, id: string): (r: StoredItem)
    ensures r.Json?
    ensures r.seen.Keys == SeenMap(item).Keys + {id}
    ensures id in r.seen && r.seen[id]
    ensures forall k :: k in SeenMap(item) && k != id ==> r.seen[k] == SeenMap(item)[k]
  {
    Json(SeenMap(item)[id := true])
  }

  /** Marking an id seen makes it seen, whatever was stored before. */
  lemma MarkSeenIsSeen(item: StoredItem, id: string)
    ensures IsSeen(MarkSeen(item, id), id)
  {
  }

  /** Marking one id leaves the "seen" status of every other id as it was. */
  lemma MarkSeenKeepsOthers(item: StoredItem, id: string, other: string)
    requires other != id
    ensures IsSeen(MarkSeen(item, id), other) == IsSeen(item, other)
  {
  }

  /** A seen id stays seen when another (or the same) id is marked. */
  lemma MarkSeenKeepsSeen(item: StoredItem, id: string, k: string)
    requires IsSeen(item, k)
    ensures IsSeen(MarkSeen(item, id), k)
  {
  }

  /** Marking the same id twice writes the same item as marking it once. */
  lemma MarkSeenIdempotent(item: StoredItem, id: string)
    ensures MarkSeen(MarkSeen(item, id), id) == MarkSeen(item, id)
  {
  }

  /** The browser's local storage, reduced to the one key the gate uses. It
      outlives every component instance that reads or writes it. */
  class LocalStorage {
    var announcements: StoredItem

    /** Storage in which nothing has been saved under "announcements" yet. */
    constructor ()
      ensures announcements == Absent
    {
      announcements := Absent;
    }
  }
}
