/** Sequences of mounts and "continue" clicks of one announcement over one shared
    storage: a fresh instance resets the session flag but reads the same storage,
    and "continue" marks the id seen and sets the flag. */
module Sessions {
  import opened Storage
  import opened AnnouncementGate

  /** A new component instance is mounted, or the user clicks "continue". */
  datatype Event = Mount | Continue

  /** The state one slot of the page is in: the shared stored item and the
      session flag of the instance currently mounted. */
  datatype Page = Page(item: StoredItem, shouldViewNext: bool)

  /** One event: a mount keeps storage and clears the flag; "continue" marks the
      id seen and sets the flag. */
  function Step(p: Page, e: Event, id: string): (r: Page)
    ensures r.shouldViewNext <==> e == Continue
    ensures e == Mount ==> r.item == p.item
    ensures e == Continue ==> IsSeen(r.item, id)
  {
    match e
    case Mount => Page(p.item, false)
    case Continue => Page(MarkSeen(p.item, id), true)
  }

  /** The page after a whole history of events, in order. Storage is written
      only by "continue", and the final flag records whether the last event was
      a "continue". */
  function Run(p: Page, events: seq<Event>, id: string): (r: Page)
    ensures Continue !in events ==> r.item == p.item
    ensures events != [] ==> (r.shouldViewNext <==> events[|events| - 1] == Continue)
    decreases |events|
  {
    if events == [] then p else Run(Step(p, events[0], id), events[1..], id)
  }

  /** What the mounted instance renders in mode `visibility`. */
  function Shown(visibility: Visibility, p: Page, id: string): View
  {
    Choose(visibility, p.shouldViewNext, p.item, id)
  }

  /** Running two traces one after the other is running their concatenation. */
  lemma {:induction false} RunConcat(p: Page, first: seq<Event>, second: seq<Event>, id: string)
    ensures Run(p, first + second, id) == Run(Run(p, first, id), second, id)
    decreases |first|
  {
    if first == [] {
      assert first + second == second;
    } else {
      assert (first + second)[0] == first[0];
      assert (first + second)[1..] == first[1..] + second;
      RunConcat(Step(p, first[0], id), first[1..], second, id);
    }
  }

  /** The stored map only grows: no id is ever removed, and no id flagged as
      seen is ever unflagged, whatever happens. */
  lemma {:induction false} SeenOnlyGrows(p: Page, events: seq<Event>, id: string, k: string)
    ensures k in SeenMap(p.item) ==> k in SeenMap(Run(p, events, id).item)
    ensures IsSeen(p.item, k) ==> IsSeen(Run(p, events, id).item, k)
    decreases |events|
  {
    if events != [] {
      SeenOnlyGrows(Step(p, events[0], id), events[1..], id, k);
    }
  }

  /** The entry of every other announcement id is left exactly as it was. */
  lemma {:induction false} OtherIdsUntouched(p: Page, events: seq<Event>, id: string, k: string)
    requires k != id
    ensures k in SeenMap(Run(p, events, id).item) <==> k in SeenMap(p.item)
    ensures k in SeenMap(p.item) ==> SeenMap(Run(p, events, id).item)[k] == SeenMap(p.item)[k]
    decreases |events|
  {
    if events != [] {
      OtherIdsUntouched(Step(p, events[0], id), events[1..], id, k);
    }
  }

  /** Mode 'once' ends on the next view exactly when the id was already seen or
      "continue" was clicked at some point, across any number of remounts. */
  lemma {:induction false} OnceDismissedIff(p: Page, events: seq<Event>, id: string)
    ensures Shown(Once, Run(p, events, id), id) == ShowNext <==> IsSeen(p.item, id) || Continue in events
    decreases |events|
  {
    if events != [] {
      var q := Step(p, events[0], id);
      OnceDismissedIff(q, events[1..], id);
      assert events == [events[0]] + events[1..];
      assert Continue in events <==> events[0] == Continue || Continue in events[1..];
      if events[0] == Continue {
        MarkSeenIsSeen(p.item, id);
      }
    }
  }

  /** Without a remount the session flag is set once "continue" has been
      clicked, and only then. */
  lemma {:induction false} FlagWithinSession(p: Page, events: seq<Event>, id: string)
    requires Mount !in events
    ensures Run(p, events, id).shouldViewNext <==> p.shouldViewNext || Continue in events
    decreases |events|
  {
    if events != [] {
      assert events == [events[0]] + events[1..];
      FlagWithinSession(Step(p, events[0], id), events[1..], id);
    }
  }

  /** Mode 'always', after the last mount: the next view is shown exactly when
      "continue" has been clicked since that mount. A mount forgets every
      earlier click. */
  lemma AlwaysSinceLastMount(p: Page, before: seq<Event>, after: seq<Event>, id: string)
    requires Mount !in after
    ensures Shown(Always, Run(p, before + [Mount] + after, id), id) == ShowNext <==> Continue in after
  {
    RunConcat(p, before + [Mount], after, id);
    RunConcat(p, before, [Mount], id);
    FlagWithinSession(Run(p, before + [Mount], id), after, id);
  }

  /** Replays a history on the component itself: an instance is mounted first,
      each `Mount` mounts a fresh instance over the same storage, and each
      `Continue` calls `Proceed` on the current one. The storage and the flag of
      the last instance are exactly what `Run` computes. */
  method Replay(storage: LocalStorage, visibility: Visibility, id: string, events: seq<Event>)
    returns (a: Announcement)
    modifies storage
    ensures a.storage == storage && a.id == id && a.visibility == visibility
    ensures Page(storage.announcements, a.shouldViewNext) == Run(Page(old(storage.announcements), false), events, id)
    ensures a.Render() == Shown(visibility, Run(Page(old(storage.announcements), false), events, id), id)
  {
    ghost var start := Page(storage.announcements, false);
    a := new Announcement(id, visibility, storage);
    var i := 0;
    while i < |events|
      invariant 0 <= i <= |events|
      invariant fresh(a)
      invariant a.storage == storage && a.id == id && a.visibility == visibility
      invariant Page(storage.announcements, a.shouldViewNext) == Run(start, events[..i], id)
    {
      RunConcat(start, events[..i], [events[i]], id);
      assert events[..i + 1] == events[..i] + [events[i]];
      if events[i] == Mount {
        a := new Announcement(id, visibility, storage);
      } else {
        a.Proceed();
      }
      i := i + 1;
    }
    assert events[..i] == events;
  }
}
