/** The announcement gate: a component that either shows an interstitial
    announcement or goes straight to the view it wraps, depending on its
    visibility mode, a per-instance session flag and the persisted "seen" map. */
module AnnouncementGate {
  import opened Storage

  /** When the announcement is shown: never, until it has been dismissed once
      (remembered in storage), or on every mount until dismissed in that mount. */
  datatype Visibility = None | Once | Always

  /** What the gate renders: the announcement panel, or the wrapped next view. */
  datatype View = ShowAnnouncement | ShowNext

  /** The render decision, as a function of the visibility mode, the instance's
      session flag, the stored item and the announcement id. */
  function Choose(visibility: Visibility, shouldViewNext: bool, item: StoredItem, id: string): (v: View)
    ensures v == ShowAnnouncement ==> visibility != None
    ensures shouldViewNext && IsSeen(item, id) ==> v == ShowNext
  {
    match visibility
    case Always => if shouldViewNext then ShowNext else ShowAnnouncement
    case Once => if IsSeen(item, id) then ShowNext else ShowAnnouncement
    case None => ShowNext
  }

  /** Mode 'none' goes to the next view whatever is stored and whatever the
      session flag says. */
  lemma NoneShowsNext(shouldViewNext: bool, item: StoredItem, id: string)
    ensures Choose(None, shouldViewNext, item, id) == ShowNext
  {
  }

  /** Mode 'always' shows the announcement exactly when the session flag is
      unset, and never consults storage. */
  lemma AlwaysFollowsSession(shouldViewNext: bool, item: StoredItem, other: StoredItem, id: string)
    ensures Choose(Always, shouldViewNext, item, id) == ShowAnnouncement <==> !shouldViewNext
    ensures Choose(Always, shouldViewNext, item, id) == Choose(Always, shouldViewNext, other, id)
  {
  }

  /** Mode 'once' goes to the next view exactly when storage flags the id as
      seen; the session flag plays no part. */
  lemma OnceFollowsStorage(shouldViewNext: bool, item: StoredItem, id: string)
    ensures Choose(Once, shouldViewNext, item, id) == ShowNext <==> IsSeen(item, id)
    ensures Choose(Once, shouldViewNext, item, id) == Choose(Once, !shouldViewNext, item, id)
  {
  }

  /** With nothing stored, or with no entry for the id, mode 'once' shows the
      announcement. */
  lemma OnceUnseenShowsAnnouncement(shouldViewNext: bool, item: StoredItem, id: string)
    requires item.Absent? || id !in item.seen
    ensures Choose(Once, shouldViewNext, item, id) == ShowAnnouncement
  {
  }

  /** After continuing (flag set, id marked seen) every mode shows the next view. */
  lemma ProceededShowsNext(visibility: Visibility, item: StoredItem, id: string)
    ensures Choose(visibility, true, MarkSeen(item, id), id) == ShowNext
  {
  }

  /** A fresh instance (flag unset) over storage in which the id was marked seen:
      'once' stays dismissed, 'always' shows the announcement again. */
  lemma RemountAfterProceed(item: StoredItem, id: string)
    ensures Choose(Once, false, MarkSeen(item, id), id) == ShowNext
    ensures Choose(Always, false, MarkSeen(item, id), id) == ShowAnnouncement
  {
  }

  /** Continuing on announcement `id` does not change what a gate for another
      announcement `other` renders in mode 'once'. */
  lemma ProceedLeavesOtherGates(shouldViewNext: bool, item: StoredItem, id: string, other: string)
    requires other != id
    ensures Choose(Once, shouldViewNext, MarkSeen(item, id), other) == Choose(Once, shouldViewNext, item, other)
  {
  }

  /** One mounted instance of the announcement component. Its props are fixed;
      its state is the session flag; the storage it reads and writes is shared
      with every other instance. */
  class Announcement {
    const id: string
    const visibility: Visibility
    const storage: LocalStorage
    var shouldViewNext: bool

    /** Mounting starts with the session flag unset, so 'always' shows the
        announcement again and 'once' follows what storage says. */
    constructor (id: string, visibility: Visibility, storage: LocalStorage)
      ensures this.id == id && this.visibility == visibility && this.storage == storage
      ensures !shouldViewNext
      ensures visibility == Always ==> Render() == ShowAnnouncement
      ensures visibility == Once ==> (Render() == ShowNext <==> IsSeen(storage.announcements, id))
    {
      this.id := id;
      this.visibility := visibility;
      this.storage := storage;
      shouldViewNext := false;
    }

    /** What the component renders in the current state. */
    function Render(): (v: View)
      reads this, storage
      ensures visibility == None ==> v == ShowNext
      ensures visibility == Always ==> (v == ShowAnnouncement <==> !shouldViewNext)
      ensures visibility == Once ==> (v == ShowNext <==> IsSeen(storage.announcements, id))
    {
      Choose(visibility, shouldViewNext, storage.announcements, id)
    }

    /** The "continue" action: read the stored map (empty when absent), set this
        id to true, write the map back, and set the session flag. */
    method Proceed()
      modifies this, storage
      ensures storage.announcements == MarkSeen(old(storage.announcements), id)
      ensures shouldViewNext
      ensures Render() == ShowNext
    {
      var seen := SeenMap(storage.announcements);
      seen := seen[id := true];
      storage.announcements := Json(seen);
      shouldViewNext := true;
    }
  }
}
