# Announcement gate

A model of the `Announcement` component of the eth2dai landing page. The
component wraps a "next view". Before showing that view it may show an
interstitial announcement with a "continue" button. Three things decide which
one is rendered:

- the `visibility` prop: `'none'`, `'once'` or `'always'`;
- the component's session state `shouldViewNext`, which starts false on every mount;
- a "seen" map from announcement id to boolean, kept in browser storage under the
  key `announcements`. A missing item reads as the empty object `{}`.

"Continue" reads the whole map, sets `map[id] = true`, writes the map back, and
sets `shouldViewNext`.

Files:

- `storage.dfy` (module `Storage`): the stored item (`Absent` or a parsed map),
  the `{}` default, the "seen" test, the read-modify-write `MarkSeen`, and the
  `LocalStorage` object that outlives component instances.
- `announcement.dfy` (module `AnnouncementGate`): the visibility modes, the two
  possible views, the render decision `Choose`, and the `Announcement` class. The
  class has the constructor, `Render` and the imperative `Proceed`. Lemmas give
  the per-mode behaviour.
- `sessions.dfy` (module `Sessions`): any sequence of remounts and "continue"
  clicks over one shared storage. Inductive lemmas show what each mode renders
  after such a history. `Replay` runs a history on the `Announcement` class and
  proves it reaches the same state, so the lemmas apply to the class.

## Model

| member | source | states |
|---|---|---|
| `AnnouncementGate.Choose` | src/landingPage/Announcement.tsx:70-90 | the announcement is shown only in 'once' or 'always', and never once both the session flag is set and the id is seen |
| `AnnouncementGate.Announcement.Render` | src/landingPage/Announcement.tsx:70-90 | 'none' renders the next view; 'always' shows the announcement iff the session flag is unset; 'once' renders the next view iff storage flags the id |
| `Storage.SeenMap` | src/landingPage/Announcement.tsx:93 | a missing item reads as the empty map; a parsed item reads as its own map |
| `Storage.IsSeen` | src/landingPage/Announcement.tsx:92-95 | an id is seen only if the item is present and has an entry for it, and then exactly when that entry is true |
| `Storage.LocalStorage.constructor` | src/landingPage/Announcement.tsx:93 | storage in which nothing was saved holds no `announcements` item |
| `Sessions.Step` | src/landingPage/Announcement.tsx:63-104 | after an event the flag is set iff the event was continue; a mount leaves storage as it was; continue leaves the id seen |
| `Sessions.Run` | src/landingPage/Announcement.tsx:63-104 | over a history, storage changes only if continue occurs, and the final flag is set iff the last event was continue |
| `Sessions.Replay` | src/landingPage/Announcement.tsx:63-104 | mounting instances and calling `Proceed` on the class gives exactly the storage, flag and rendered view that `Run` computes |
| `AnnouncementGate.NoneShowsNext` | src/landingPage/Announcement.tsx:86-87 | mode 'none' renders the next view whatever the storage and session flag |
| `AnnouncementGate.AlwaysFollowsSession` | src/landingPage/Announcement.tsx:74-79 | mode 'always' shows the announcement exactly when `shouldViewNext` is false, and its result does not depend on storage |
| `AnnouncementGate.OnceFollowsStorage` | src/landingPage/Announcement.tsx:80-95 | mode 'once' renders the next view exactly when the stored map has `id ↦ true`, and the session flag plays no part |
| `AnnouncementGate.OnceUnseenShowsAnnouncement` | src/landingPage/Announcement.tsx:92-95 | with no stored item, or no entry for the id, mode 'once' shows the announcement |
| `AnnouncementGate.ProceededShowsNext` | src/landingPage/Announcement.tsx:97-103 | after continue (flag set and id marked), every mode renders the next view |
| `AnnouncementGate.RemountAfterProceed` | src/landingPage/Announcement.tsx:63-85 | a fresh instance over storage where the id was marked: 'once' stays on the next view, 'always' shows the announcement again |
| `AnnouncementGate.ProceedLeavesOtherGates` | src/landingPage/Announcement.tsx:97-102 | continuing on one id does not change what a 'once' gate for any other id renders |
| `AnnouncementGate.Announcement.constructor` | src/landingPage/Announcement.tsx:63-68 | a new instance has `shouldViewNext` false; in 'always' it renders the announcement, in 'once' it renders the next view iff storage flags the id |
| `AnnouncementGate.Announcement.Proceed` | src/landingPage/Announcement.tsx:97-104 | the stored item becomes the old map (empty if absent) with `id := true`; the session flag is set; render then yields the next view |
| `Storage.MarkSeen` | src/landingPage/Announcement.tsx:98-102 | the written map has the old keys plus `id`, maps `id` to true, and keeps every other entry's value |
| `Storage.MarkSeenIsSeen` | src/landingPage/Announcement.tsx:100 | after marking, the id reads as seen, whatever was stored before |
| `Storage.MarkSeenKeepsOthers` | src/landingPage/Announcement.tsx:98-102 | marking one id leaves the seen status of every other id unchanged |
| `Storage.MarkSeenKeepsSeen` | src/landingPage/Announcement.tsx:98-102 | an id that was seen stays seen when any id is marked |
| `Storage.MarkSeenIdempotent` | src/landingPage/Announcement.tsx:97-104 | marking twice writes the same item as marking once |
| `Sessions.SeenOnlyGrows` | src/landingPage/Announcement.tsx:97-104 | over any history of mounts and clicks, no key is removed from the stored map and no seen flag is cleared |
| `Sessions.OtherIdsUntouched` | src/landingPage/Announcement.tsx:98-102 | over any history, the entries of other ids are exactly as they were |
| `Sessions.OnceDismissedIff` | src/landingPage/Announcement.tsx:63-103 | mode 'once' ends on the next view iff the id was already seen or continue was clicked at some point, across any number of remounts |
| `Sessions.FlagWithinSession` | src/landingPage/Announcement.tsx:65-103 | without a remount, the session flag is set iff it was set already or continue was clicked |
| `Sessions.AlwaysSinceLastMount` | src/landingPage/Announcement.tsx:63-103 | mode 'always' renders the next view iff continue was clicked since the last mount; a mount forgets earlier clicks |

## Left out

- React rendering, JSX, the `AnnouncementView` panel, styles, `Button`, `Panel` and `react-jazzicon` (lines 1-10 and 30-59). The rendered result is the two-valued `View`. The headline, content and button label props are not modelled.
- `JSON.parse`, `JSON.stringify` and `localStorage` themselves. The item is either `Absent` (no item, or an empty string, which `|| '{}'` also replaces) or a parsed map. Malformed stored JSON makes the source throw; that path is not modelled.
- Ids are assumed to be ordinary own keys of the stored object, and the stored value is assumed to be a JSON object. The source looks ids up through the object's prototype chain, so an id naming an `Object.prototype` member (`constructor`, `toString`, `__proto__`, ...) reads as seen with nothing stored, and `__proto__` is never written back. A stored `null` makes the lookup throw, and a stored array loses the id when it is written back. None of this is modelled. A `getItem` or `setItem` that throws (storage unavailable, quota exceeded) is not modelled either.
- Stored values are modelled as booleans. The source tests the JavaScript truthiness of whatever value is stored under the id; a hand-edited non-boolean value is not modelled.
- The `console.log` call in `proceed` (line 99).
- `setState` is asynchronous in React. The model applies the flag update at once, as the next render observes it.
- Props are fixed for the life of an instance (`const` fields). A parent re-rendering with a different `id` or `visibility` is not modelled.
- Races between browser tabs on the read-modify-write of the storage key. This is concurrency, and the source does not guard against it.
- The `Sessions` traces allow "continue" in any state, even when the announcement is not on screen. The proved properties therefore cover every history the UI can produce, and more.
- `src/exchange/priceChart/pricechart.ts`: RxJS stream composition with switch-latest cancellation, the `vulcan0x` network query, `moment` date arithmetic and the clock, `Number(...)` float coercion, and the constant `groupModeMapper` table. None of it is modelled.
