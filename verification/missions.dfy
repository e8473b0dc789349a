/**
 * The mission list: the records kept in local storage, the list shown to the user,
 * the active mission and the remembered active id. Each operation reads the stored
 * list, transforms it and writes it back, and the shown list becomes the stored one;
 * only loading merges in the remote rows, and only into the shown list.
 *
 * Timestamps and ids are opaque values supplied by the caller; `createdAt` is an
 * integer so that the list can be ordered by it.
 */
module Missions {
  import opened Wrappers

  datatype SyncStatus = Pending | Synced | SyncError

  datatype Mission = Mission(
    id: string,
    name: string,
    description: Option<string>,
    createdAt: int,
    userId: Option<string>,
    isActive: bool,
    isPaused: bool,
    startedAt: int,
    finishedAt: Option<int>,
    pausedAt: Option<int>,
    resumedAt: Option<int>,
    totalPausedMs: Option<int>,
    durationMs: Option<int>,
    lastSyncedAt: Option<int>,
    syncStatus: SyncStatus,
    updatedAt: int)

  predicate HasId(list: seq<Mission>, id: string) {
    exists k :: 0 <= k < |list| && list[k].id == id
  }

  predicate UniqueIds(list: seq<Mission>) {
    forall i, j :: 0 <= i < j < |list| ==> list[i].id != list[j].id
  }

  /** The single-active invariant: no two missions are active at once. */
  predicate AtMostOneActive(list: seq<Mission>) {
    forall i, j :: 0 <= i < j < |list| && list[i].isActive ==> !list[j].isActive
  }

  // ---------------------------------------------------------------------------------
  // Creating

  /** `createMission`: the new mission, prepended to the stored list. An empty description is stored as `null`. */
  function Create(list: seq<Mission>, id: string, name: string, description: string,
                  userId: Option<string>, now: int): (r: seq<Mission>)
    ensures |r| == |list| + 1 && r[1..] == list
    ensures r[0].id == id && r[0].name == name && r[0].createdAt == now && r[0].userId == userId
    ensures !r[0].isActive && !r[0].isPaused && r[0].syncStatus == Pending
    ensures r[0].totalPausedMs == Some(0) && r[0].durationMs.None? && r[0].finishedAt.None?
    ensures r[0].description == (if description == [] then None else Some(description))
    ensures r[0].startedAt == now && r[0].updatedAt == now
    ensures r[0].pausedAt.None? && r[0].resumedAt.None? && r[0].lastSyncedAt.None?
  {
    [Mission(id, name, if description == [] then None else Some(description), now, userId,
             false, false, now, None, None, None, Some(0), None, None, Pending, now)] + list
  }

  /** A new mission keeps the list free of duplicate ids when its id is fresh, and never adds an active one. */
  lemma CreateKeepsInvariants(list: seq<Mission>, id: string, name: string, description: string,
                              userId: Option<string>, now: int)
    requires UniqueIds(list) && AtMostOneActive(list) && !HasId(list, id)
    ensures UniqueIds(Create(list, id, name, description, userId, now))
    ensures AtMostOneActive(Create(list, id, name, description, userId, now))
  {
    var r := Create(list, id, name, description, userId, now);
    forall i, j | 0 <= i < j < |r| ensures r[i].id != r[j].id {
      if i == 0 {
        assert r[j] == list[j - 1];
      } else {
        assert r[i] == list[i - 1] && r[j] == list[j - 1];
      }
    }
    forall i, j | 0 <= i < j < |r| && r[i].isActive ensures !r[j].isActive {
      assert r[i] == list[i - 1] && r[j] == list[j - 1];
    }
  }

  // ---------------------------------------------------------------------------------
  // Per-mission updates

  /** `list.map(m => m.id === id ? f(m) : m)`. */
  function MapMatching(list: seq<Mission>, id: string, f: Mission -> Mission): (r: seq<Mission>)
    ensures |r| == |list|
    ensures forall k :: 0 <= k < |r| ==> r[k] == (if list[k].id == id then f(list[k]) else list[k])
  {
    seq(|list|, k requires 0 <= k < |list| => if list[k].id == id then f(list[k]) else list[k])
  }

  function MarkPaused(m: Mission, now: int): Mission {
    m.(isPaused := true, pausedAt := Some(now), updatedAt := now, syncStatus := Pending)
  }

  function MarkResumed(m: Mission, now: int): Mission {
    m.(isPaused := false, resumedAt := Some(now), updatedAt := now, syncStatus := Pending)
  }

  function MarkFinished(m: Mission, now: int): Mission {
    m.(isActive := false, finishedAt := Some(now), updatedAt := now, syncStatus := Pending)
  }

  function MarkSynced(m: Mission, now: int): Mission {
    m.(lastSyncedAt := Some(now), syncStatus := Synced, updatedAt := now)
  }

  /** `pauseMission`: the matching missions are paused at `now`; every other record is untouched. */
  function Pause(list: seq<Mission>, id: string, now: int): (r: seq<Mission>)
    ensures |r| == |list|
    ensures forall k :: 0 <= k < |r| && list[k].id != id ==> r[k] == list[k]
    ensures forall k :: 0 <= k < |r| && list[k].id == id ==>
              r[k] == list[k].(isPaused := true, pausedAt := Some(now), updatedAt := now, syncStatus := Pending)
  {
    MapMatching(list, id, m => MarkPaused(m, now))
  }

  /** `resumeMission`: the matching missions are resumed at `now`; every other record is untouched. */
  function Resume(list: seq<Mission>, id: string, now: int): (r: seq<Mission>)
    ensures |r| == |list|
    ensures forall k :: 0 <= k < |r| && list[k].id != id ==> r[k] == list[k]
    ensures forall k :: 0 <= k < |r| && list[k].id == id ==>
              r[k] == list[k].(isPaused := false, resumedAt := Some(now), updatedAt := now, syncStatus := Pending)
  {
    MapMatching(list, id, m => MarkResumed(m, now))
  }

  /** `finishMission`: the matching missions are inactive and finished at `now`; every other record is untouched. */
  function Finish(list: seq<Mission>, id: string, now: int): (r: seq<Mission>)
    ensures |r| == |list|
    ensures forall k :: 0 <= k < |r| && list[k].id != id ==> r[k] == list[k]
    ensures forall k :: 0 <= k < |r| && list[k].id == id ==>
              r[k] == list[k].(isActive := false, finishedAt := Some(now), updatedAt := now, syncStatus := Pending)
  {
    MapMatching(list, id, m => MarkFinished(m, now))
  }

  /** `syncMission`: the matching missions are marked synced at `now`; every other record is untouched. */
  function Sync(list: seq<Mission>, id: string, now: int): (r: seq<Mission>)
    ensures |r| == |list|
    ensures forall k :: 0 <= k < |r| && list[k].id != id ==> r[k] == list[k]
    ensures forall k :: 0 <= k < |r| && list[k].id == id ==>
              r[k] == list[k].(lastSyncedAt := Some(now), syncStatus := Synced, updatedAt := now)
  {
    MapMatching(list, id, m => MarkSynced(m, now))
  }

  /** Pausing and then resuming a mission leaves it unpaused, with its other records and every other mission as they were. */
  lemma PauseThenResume(list: seq<Mission>, id: string, t1: int, t2: int)
    ensures var r := Resume(Pause(list, id, t1), id, t2);
            forall k :: 0 <= k < |list| ==>
              if list[k].id == id
              then r[k] == list[k].(isPaused := false, pausedAt := Some(t1), resumedAt := Some(t2),
                                    updatedAt := t2, syncStatus := Pending)
              else r[k] == list[k]
  {
  }

  /** None of pause, resume, finish and sync can make a second mission active, and none changes an id. */
  lemma UpdatesKeepSingleActive(list: seq<Mission>, id: string, now: int)
    requires AtMostOneActive(list) && UniqueIds(list)
    ensures AtMostOneActive(Pause(list, id, now)) && UniqueIds(Pause(list, id, now))
    ensures AtMostOneActive(Resume(list, id, now)) && UniqueIds(Resume(list, id, now))
    ensures AtMostOneActive(Finish(list, id, now)) && UniqueIds(Finish(list, id, now))
    ensures AtMostOneActive(Sync(list, id, now)) && UniqueIds(Sync(list, id, now))
  {
    var p, q, f, s := Pause(list, id, now), Resume(list, id, now), Finish(list, id, now), Sync(list, id, now);
    forall i, j | 0 <= i < j < |list|
      ensures p[i].id != p[j].id && q[i].id != q[j].id && f[i].id != f[j].id && s[i].id != s[j].id
    {
    }
    forall i, j | 0 <= i < j < |list| && p[i].isActive ensures !p[j].isActive {
    }
    forall i, j | 0 <= i < j < |list| && q[i].isActive ensures !q[j].isActive {
    }
    forall i, j | 0 <= i < j < |list| && f[i].isActive ensures !f[j].isActive {
      assert list[i].isActive;
    }
    forall i, j | 0 <= i < j < |list| && s[i].isActive ensures !s[j].isActive {
    }
  }

  // ---------------------------------------------------------------------------------
  // Activating

  /** The record of the mission being activated: a fresh start at `now`, with the pause and finish history cleared. */
  function MarkActivated(m: Mission, now: int): Mission {
    m.(isActive := true, isPaused := false, startedAt := now, finishedAt := None, pausedAt := None,
       resumedAt := None, totalPausedMs := Some(0), durationMs := None, updatedAt := now,
       syncStatus := Pending)
  }

  /** Every other mission: inactive, touched at `now`, and a synced one becomes pending again. */
  function MarkDeactivated(m: Mission, now: int): Mission {
    m.(isActive := false, updatedAt := now, syncStatus := if m.syncStatus == Synced then Pending else m.syncStatus)
  }

  /** The list update of `setActiveMission`. */
  function Activate(list: seq<Mission>, id: string, now: int): (r: seq<Mission>)
    ensures |r| == |list|
    ensures forall k :: 0 <= k < |r| ==> r[k].id == list[k].id && (r[k].isActive <==> list[k].id == id)
    ensures forall k :: 0 <= k < |r| && list[k].id == id ==>
              r[k] == list[k].(isActive := true, isPaused := false, startedAt := now, finishedAt := None,
                               pausedAt := None, resumedAt := None, totalPausedMs := Some(0), durationMs := None,
                               updatedAt := now, syncStatus := Pending)
    ensures forall k :: 0 <= k < |r| && list[k].id != id ==>
              r[k] == list[k].(isActive := false, updatedAt := now,
                               syncStatus := if list[k].syncStatus == Synced then Pending else list[k].syncStatus)
  {
    seq(|list|, k requires 0 <= k < |list| => if list[k].id == id then MarkActivated(list[k], now) else MarkDeactivated(list[k], now))
  }

  /** With distinct ids, activation leaves exactly one active mission when the id is listed and none otherwise. */
  lemma ActivateSingleActive(list: seq<Mission>, id: string, now: int)
    requires UniqueIds(list)
    ensures AtMostOneActive(Activate(list, id, now)) && UniqueIds(Activate(list, id, now))
    ensures HasId(list, id) <==> exists k :: 0 <= k < |list| && Activate(list, id, now)[k].isActive
  {
    var r := Activate(list, id, now);
    forall i, j | 0 <= i < j < |r| && r[i].isActive ensures !r[j].isActive {
      assert list[i].id == id && list[i].id != list[j].id;
    }
    if HasId(list, id) {
      var k :| 0 <= k < |list| && list[k].id == id;
      assert r[k].isActive;
    }
  }

  // ---------------------------------------------------------------------------------
  // Deleting

  /** `list.filter(m => m.id !== id)`. */
  function Delete(list: seq<Mission>, id: string): (r: seq<Mission>)
    ensures forall m :: m in r <==> m in list && m.id != id
    ensures !HasId(r, id)
    ensures |r| <= |list|
  {
    if list == [] then []
    else
      var rest := Delete(list[1..], id);
      var r := if list[0].id == id then rest else [list[0]] + rest;
      assert forall m :: m in list <==> m == list[0] || m in list[1..];
      assert HasId(r, id) ==> exists k :: 0 <= k < |r| && r[k] in r && r[k].id == id;
      r
  }

  /** Deleting an id that is not listed changes nothing. */
  lemma {:induction false} DeleteAbsent(list: seq<Mission>, id: string)
    requires !HasId(list, id)
    ensures Delete(list, id) == list
  {
    if list != [] {
      assert list[0].id != id;
      assert !HasId(list[1..], id) by {
        forall k | 0 <= k < |list[1..]| ensures list[1..][k].id != id {
          assert list[1..][k] == list[k + 1];
        }
      }
      DeleteAbsent(list[1..], id);
      assert list == [list[0]] + list[1..];
    }
  }

  /** Deletion works piecewise: the survivors keep their relative order. */
  lemma {:induction false} DeleteConcat(a: seq<Mission>, b: seq<Mission>, id: string)
    ensures Delete(a + b, id) == Delete(a, id) + Delete(b, id)
  {
    if a != [] {
      assert (a + b)[1..] == a[1..] + b;
      DeleteConcat(a[1..], b, id);
    } else {
      assert a + b == b;
    }
  }

  /** Deleting a mission that was just created gives back the list it was created in. */
  lemma DeleteUndoesCreate(list: seq<Mission>, id: string, name: string, description: string,
                           userId: Option<string>, now: int)
    requires !HasId(list, id)
    ensures Delete(Create(list, id, name, description, userId, now), id) == list
  {
    var c := Create(list, id, name, description, userId, now);
    assert c[1..] == list;
    DeleteAbsent(list, id);
  }

  // ---------------------------------------------------------------------------------
  // Selecting the active mission

  /** The first mission satisfying `p`, as `Array.prototype.find`. */
  function FindFirst(list: seq<Mission>, p: Mission -> bool): (r: Option<Mission>)
    ensures r.Some? <==> exists k :: 0 <= k < |list| && p(list[k])
    ensures r.Some? ==> exists k :: 0 <= k < |list| && list[k] == r.value && p(list[k]) &&
                                    forall i :: 0 <= i < k ==> !p(list[i])
  {
    if list == [] then None
    else if p(list[0]) then Some(list[0])
    else
      var r := FindFirst(list[1..], p);
      assert forall k :: 0 < k < |list| ==> list[k] == list[1..][k - 1];
      r
  }

  /** `loadMissions`' choice: the first active mission, else the one with the remembered id, else none. */
  function SelectActive(list: seq<Mission>, storedId: Option<string>): (r: Option<Mission>)
    ensures r.Some? ==> r.value in list
    ensures (exists k :: 0 <= k < |list| && list[k].isActive) ==> r.Some? && r.value.isActive
    ensures r.Some? && r.value.isActive ==>
              exists k :: 0 <= k < |list| && list[k] == r.value && forall i :: 0 <= i < k ==> !list[i].isActive
    ensures r.Some? && !r.value.isActive ==>
              storedId.Some? && r.value.id == storedId.value &&
              exists k :: 0 <= k < |list| && list[k] == r.value && forall i :: 0 <= i < k ==> list[i].id != storedId.value
    ensures r.None? <==> (forall k :: 0 <= k < |list| ==> !list[k].isActive) &&
                         (storedId.None? || !HasId(list, storedId.value))
  {
    var byFlag := FindFirst(list, (m: Mission) => m.isActive);
    if byFlag.Some? then byFlag
    else if storedId.Some? then FindFirst(list, (m: Mission) => m.id == storedId.value)
    else None
  }

  /** After an activation the flag alone picks the activated mission, whatever id is remembered. */
  lemma SelectAfterActivate(list: seq<Mission>, id: string, now: int, storedId: Option<string>)
    requires UniqueIds(list) && HasId(list, id)
    ensures SelectActive(Activate(list, id, now), storedId).Some?
    ensures SelectActive(Activate(list, id, now), storedId).value.id == id
  {
    ActivateSingleActive(list, id, now);
  }

  // ---------------------------------------------------------------------------------
  // Merging local and remote lists

  /** `list.some(m => m.id === id)` read through membership. */
  lemma HasIdMember(list: seq<Mission>, id: string)
    ensures HasId(list, id) <==> exists m :: m in list && m.id == id
  {
    if HasId(list, id) {
      var k :| 0 <= k < |list| && list[k].id == id;
      assert list[k] in list;
    }
  }

  /** Appending a row adds its id and nothing else. */
  lemma HasIdAppend(list: seq<Mission>, m: Mission, id: string)
    ensures HasId(list + [m], id) <==> HasId(list, id) || m.id == id
  {
    var t := list + [m];
    if HasId(list, id) {
      var k :| 0 <= k < |list| && list[k].id == id;
      assert t[k] == list[k];
    }
    if HasId(t, id) && m.id != id {
      var k :| 0 <= k < |t| && t[k].id == id;
      assert k < |list| && list[k] == t[k];
    }
    assert t[|list|] == m;
  }

  /** Two orderings of the same rows list the same ids. */
  lemma PermutationHasId(a: seq<Mission>, b: seq<Mission>, id: string)
    requires multiset(a) == multiset(b)
    ensures HasId(a, id) <==> HasId(b, id)
  {
    HasIdMember(a, id);
    HasIdMember(b, id);
    forall m ensures m in a <==> m in b {
      assert m in a <==> m in multiset(a);
      assert m in b <==> m in multiset(b);
    }
  }

  /** The last entry with the given id: the one a `Map` keyed by id ends up holding. */
  function LastWithId(list: seq<Mission>, id: string): (r: Option<Mission>)
    ensures r.Some? <==> HasId(list, id)
    ensures r.Some? ==> r.value in list && r.value.id == id
  {
    if list == [] then None
    else if list[|list| - 1].id == id then Some(list[|list| - 1])
    else
      var r := LastWithId(list[..|list| - 1], id);
      assert forall k :: 0 <= k < |list| - 1 ==> list[k] == list[..|list| - 1][k];
      r
  }

  /** A later row for an id replaces the earlier ones. */
  lemma LastWithIdAppend(list: seq<Mission>, m: Mission, id: string)
    ensures LastWithId(list + [m], id) == if m.id == id then Some(m) else LastWithId(list, id)
  {
    assert (list + [m])[..|list|] == list;
  }

  /** Setting the rows of `a` and then those of `b`: an id that `b` lists takes `b`'s last row. */
  lemma {:induction false} LastWithIdConcat(a: seq<Mission>, b: seq<Mission>, id: string)
    ensures LastWithId(a + b, id) == if HasId(b, id) then LastWithId(b, id) else LastWithId(a, id)
    decreases |b|
  {
    if b == [] {
      assert a + b == a;
    } else {
      var init := b[..|b| - 1];
      var m := b[|b| - 1];
      assert b == init + [m];
      assert a + b == (a + init) + [m];
      LastWithIdAppend(a + init, m, id);
      LastWithIdAppend(init, m, id);
      HasIdAppend(init, m, id);
      LastWithIdConcat(a, init, id);
    }
  }

  /** The merged record for an id: the remote row when there is one (it carries every column), else the local record. */
  function Winner(remote: seq<Mission>, local: seq<Mission>, id: string): Option<Mission> {
    if HasId(remote, id) then LastWithId(remote, id) else LastWithId(local, id)
  }

  /** `map.set(m.id, m)` on the map's values in insertion order: an existing key keeps its place, a new one goes last. */
  function MapSet(entries: seq<Mission>, m: Mission): (r: seq<Mission>)
    requires UniqueIds(entries)
    ensures UniqueIds(r)
    ensures forall id :: HasId(r, id) <==> HasId(entries, id) || id == m.id
    ensures forall k :: 0 <= k < |r| ==> r[k] == m || (r[k] in entries && r[k].id != m.id)
  {
    if HasId(entries, m.id) then
      var r := MapMatching(entries, m.id, _ => m);
      assert forall k :: 0 <= k < |r| ==> r[k].id == entries[k].id;
      r
    else
      var r := entries + [m];
      assert forall id :: HasId(r, id) <==> HasId(entries, id) || id == m.id by {
        forall id ensures HasId(r, id) <==> HasId(entries, id) || id == m.id {
          HasIdAppend(entries, m, id);
        }
      }
      assert forall k :: 0 <= k < |entries| ==> r[k] == entries[k];
      r
  }

  /** `entries` is what a `Map` keyed by id holds once every row of `src` has been set in turn. */
  ghost predicate MapOf(entries: seq<Mission>, src: seq<Mission>) {
    && UniqueIds(entries)
    && (forall id :: HasId(entries, id) <==> HasId(src, id))
    && (forall k :: 0 <= k < |entries| ==> LastWithId(src, entries[k].id) == Some(entries[k]))
  }

  /** Setting one more row keeps the entries in step with the rows set so far. */
  lemma MapSetStep(entries: seq<Mission>, src: seq<Mission>, m: Mission)
    requires MapOf(entries, src)
    ensures MapOf(MapSet(entries, m), src + [m])
  {
    var r := MapSet(entries, m);
    forall id ensures HasId(r, id) <==> HasId(src + [m], id) {
      HasIdAppend(src, m, id);
    }
    forall k | 0 <= k < |r| ensures LastWithId(src + [m], r[k].id) == Some(r[k]) {
      LastWithIdAppend(src, m, r[k].id);
      if r[k] != m {
        var t :| 0 <= t < |entries| && entries[t] == r[k];
      }
    }
  }

  predicate SortedDesc(list: seq<Mission>) {
    forall i, j :: 0 <= i < j < |list| ==> list[i].createdAt >= list[j].createdAt
  }

  /** Inserts `x` before the first entry that is not newer than it. */
  function Insert(x: Mission, sorted: seq<Mission>): (r: seq<Mission>)
    ensures |r| == |sorted| + 1
    ensures multiset(r) == multiset(sorted) + multiset{x}
  {
    if sorted == [] || sorted[0].createdAt <= x.createdAt then
      [x] + sorted
    else
      assert sorted == [sorted[0]] + sorted[1..];
      [sorted[0]] + Insert(x, sorted[1..])
  }

  /** No entry of `list` is newer than `t`. */
  predicate NotNewerThan(list: seq<Mission>, t: int) {
    forall k :: 0 <= k < |list| ==> list[k].createdAt <= t
  }

  /** An entry at least as new as everything after it keeps a newest-first list newest first. */
  lemma ConsSorted(h: Mission, tail: seq<Mission>)
    requires SortedDesc(tail) && NotNewerThan(tail, h.createdAt)
    ensures SortedDesc([h] + tail)
  {
    var r := [h] + tail;
    forall i, j | 0 <= i < j < |r| ensures r[i].createdAt >= r[j].createdAt {
      assert r[j] == tail[j - 1];
      if i > 0 {
        assert r[i] == tail[i - 1];
      }
    }
  }

  /** A reordering of the entries has the same newest entry. */
  lemma NotNewerThanPermutation(a: seq<Mission>, b: seq<Mission>, t: int)
    requires multiset(a) == multiset(b) && NotNewerThan(a, t)
    ensures NotNewerThan(b, t)
  {
    forall k | 0 <= k < |b| ensures b[k].createdAt <= t {
      assert b[k] in multiset(a);
      var u :| 0 <= u < |a| && a[u] == b[k];
    }
  }

  /** Insertion keeps a newest-first list newest first. */
  lemma {:induction false} InsertSorted(x: Mission, sorted: seq<Mission>)
    requires SortedDesc(sorted)
    ensures SortedDesc(Insert(x, sorted))
    decreases |sorted|
  {
    if sorted == [] || sorted[0].createdAt <= x.createdAt {
      assert NotNewerThan(sorted, x.createdAt) by {
        forall k | 0 <= k < |sorted| ensures sorted[k].createdAt <= x.createdAt {
          if k > 0 {
            assert sorted[0].createdAt >= sorted[k].createdAt;
          }
        }
      }
      ConsSorted(x, sorted);
    } else {
      var h, s := sorted[0], sorted[1..];
      assert SortedDesc(s) by {
        assert forall k :: 0 <= k < |s| ==> s[k] == sorted[k + 1];
      }
      InsertSorted(x, s);
      var rest := Insert(x, s);
      assert NotNewerThan(s + [x], h.createdAt) by {
        forall k | 0 <= k < |s| ensures s[k].createdAt <= h.createdAt {
          assert s[k] == sorted[k + 1];
        }
      }
      assert multiset(s + [x]) == multiset(rest);
      NotNewerThanPermutation(s + [x], rest, h.createdAt);
      ConsSorted(h, rest);
    }
  }

  /** No entry of `list` has the id `id`. */
  predicate IdAbsent(list: seq<Mission>, id: string) {
    forall k :: 0 <= k < |list| ==> list[k].id != id
  }

  /** An entry whose id does not occur after it keeps the ids distinct. */
  lemma ConsUnique(h: Mission, tail: seq<Mission>)
    requires UniqueIds(tail) && IdAbsent(tail, h.id)
    ensures UniqueIds([h] + tail)
  {
    var r := [h] + tail;
    forall i, j | 0 <= i < j < |r| ensures r[i].id != r[j].id {
      assert r[j] == tail[j - 1];
      if i > 0 {
        assert r[i] == tail[i - 1];
      }
    }
  }

  /** A reordering of the entries holds the same ids. */
  lemma IdAbsentPermutation(a: seq<Mission>, b: seq<Mission>, id: string)
    requires multiset(a) == multiset(b) && IdAbsent(a, id)
    ensures IdAbsent(b, id)
  {
    forall k | 0 <= k < |b| ensures b[k].id != id {
      assert b[k] in multiset(a);
      var u :| 0 <= u < |a| && a[u] == b[k];
    }
  }

  /** Insertion of a row whose id is not yet listed keeps the ids distinct. */
  lemma {:induction false} InsertUnique(x: Mission, sorted: seq<Mission>)
    requires UniqueIds(sorted)
    requires forall m :: m in sorted ==> m.id != x.id
    ensures UniqueIds(Insert(x, sorted))
    decreases |sorted|
  {
    if sorted == [] || sorted[0].createdAt <= x.createdAt {
      assert IdAbsent(sorted, x.id) by {
        forall k | 0 <= k < |sorted| ensures sorted[k].id != x.id {
          assert sorted[k] in sorted;
        }
      }
      ConsUnique(x, sorted);
    } else {
      var h, s := sorted[0], sorted[1..];
      assert UniqueIds(s) && (forall m :: m in s ==> m.id != x.id) by {
        assert forall k :: 0 <= k < |s| ==> s[k] == sorted[k + 1];
      }
      InsertUnique(x, s);
      var rest := Insert(x, s);
      assert IdAbsent(s + [x], h.id) by {
        assert h in sorted;
        forall k | 0 <= k < |s| ensures s[k].id != h.id {
          assert s[k] == sorted[k + 1];
        }
      }
      assert multiset(s + [x]) == multiset(rest);
      IdAbsentPermutation(s + [x], rest, h.id);
      ConsUnique(h, rest);
    }
  }

  /** The newest-first order of `sort((a, b) => b.createdAt - a.createdAt)`, as an insertion sort. */
  function SortDesc(list: seq<Mission>): (r: seq<Mission>)
    ensures |r| == |list|
    ensures multiset(r) == multiset(list)
  {
    if list == [] then []
    else
      assert list == [list[0]] + list[1..];
      Insert(list[0], SortDesc(list[1..]))
  }

  /** The sort orders newest first. */
  lemma {:induction false} SortDescSorted(list: seq<Mission>)
    ensures SortedDesc(SortDesc(list))
    decreases |list|
  {
    if list != [] {
      SortDescSorted(list[1..]);
      InsertSorted(list[0], SortDesc(list[1..]));
    }
  }

  /** The sort keeps the ids distinct. */
  lemma {:induction false} SortDescUnique(list: seq<Mission>)
    requires UniqueIds(list)
    ensures UniqueIds(SortDesc(list))
    decreases |list|
  {
    if list != [] {
      var t := list[1..];
      assert forall k :: 0 <= k < |t| ==> t[k] == list[k + 1];
      SortDescUnique(t);
      forall m | m in SortDesc(t) ensures m.id != list[0].id {
        assert m in multiset(SortDesc(t));
        var k :| 0 <= k < |t| && t[k] == m;
      }
      InsertUnique(list[0], SortDesc(t));
    }
  }

  /** The entries created at instant `t`, in list order. */
  function CreatedAt(list: seq<Mission>, t: int): seq<Mission> {
    if list == [] then []
    else (if list[0].createdAt == t then [list[0]] else []) + CreatedAt(list[1..], t)
  }

  /** The instant filter of an entry followed by a list. */
  lemma CreatedAtCons(h: Mission, tail: seq<Mission>, t: int)
    ensures CreatedAt([h] + tail, t) == (if h.createdAt == t then [h] else []) + CreatedAt(tail, t)
  {
    assert ([h] + tail)[1..] == tail;
  }

  /** Insertion puts a new entry ahead of the entries created at the same instant and keeps their order. */
  lemma {:induction false} InsertCreatedAt(x: Mission, sorted: seq<Mission>, t: int)
    ensures CreatedAt(Insert(x, sorted), t) == (if x.createdAt == t then [x] else []) + CreatedAt(sorted, t)
    decreases |sorted|
  {
    if sorted == [] || sorted[0].createdAt <= x.createdAt {
      CreatedAtCons(x, sorted, t);
    } else {
      var h, s := sorted[0], sorted[1..];
      assert sorted == [h] + s;
      InsertCreatedAt(x, s, t);
      CreatedAtCons(h, Insert(x, s), t);
      CreatedAtCons(h, s, t);
      var hx := if h.createdAt == t then [h] else [];
      var xx := if x.createdAt == t then [x] else [];
      assert hx == [] || xx == [];
      assert hx + (xx + CreatedAt(s, t)) == xx + (hx + CreatedAt(s, t));
    }
  }

  /**
   * The sort is stable, as ES2019 requires of `Array.prototype.sort`: the entries created
   * at any one instant keep their input order. With `SortDescSorted` this fixes the result.
   */
  lemma {:induction false} SortDescStable(list: seq<Mission>, t: int)
    ensures CreatedAt(SortDesc(list), t) == CreatedAt(list, t)
    decreases |list|
  {
    if list != [] {
      SortDescStable(list[1..], t);
      InsertCreatedAt(list[0], SortDesc(list[1..]), t);
    }
  }

  /**
   * `mergeMissions`: the local records, then the remote rows, are put into a map keyed
   * by id (a remote row overrides a local record, a later row an earlier one), and the
   * map's values are ordered newest first.
   */
  method MergeMissions(remote: seq<Mission>, local: seq<Mission>) returns (r: seq<Mission>)
    ensures UniqueIds(r)
    ensures forall id :: HasId(r, id) <==> HasId(local, id) || HasId(remote, id)
    ensures forall k :: 0 <= k < |r| ==> Some(r[k]) == Winner(remote, local, r[k].id)
    ensures SortedDesc(r)
    ensures forall t :: CreatedAt(r, t) == CreatedAt(MapValues(local + remote), t)
  {
    assert MapOf([], []);
    var entries := SetAll([], [], local);
    assert [] + local == local;
    entries := SetAll(entries, local, remote);
    r := SortDesc(entries);
    SortedMapFacts(entries, local, remote);
    forall t ensures CreatedAt(r, t) == CreatedAt(MapValues(local + remote), t) {
      SortDescStable(entries, t);
    }
  }

  /**
   * The values of a `Map` keyed by id once every row of `src` has been set in turn, in the
   * map's iteration order: a key keeps the place of its first insertion.
   */
  ghost function MapValues(src: seq<Mission>): (r: seq<Mission>)
    ensures MapOf(r, src)
    decreases |src|
  {
    if src == [] then
      assert MapOf([], []);
      []
    else
      var init, last := src[..|src| - 1], src[|src| - 1];
      assert src == init + [last];
      MapSetStep(MapValues(init), init, last);
      MapSet(MapValues(init), last)
  }

  /** `rows.forEach(m => map.set(m.id, m))` on a map that holds the rows `src` set before. */
  method SetAll(entries: seq<Mission>, ghost src: seq<Mission>, rows: seq<Mission>) returns (r: seq<Mission>)
    requires MapOf(entries, src)
    ensures MapOf(r, src + rows)
    ensures entries == MapValues(src) ==> r == MapValues(src + rows)
  {
    r := entries;
    var i := 0;
    assert src + rows[..0] == src;
    while i < |rows|
      invariant 0 <= i <= |rows|
      invariant MapOf(r, src + rows[..i])
      invariant entries == MapValues(src) ==> r == MapValues(src + rows[..i])
    {
      assert src + rows[..i + 1] == (src + rows[..i]) + [rows[i]];
      assert (src + rows[..i + 1])[..|src| + i] == src + rows[..i];
      MapSetStep(r, src + rows[..i], rows[i]);
      r := MapSet(r, rows[i]);
      i := i + 1;
    }
    assert rows[..i] == rows;
  }

  /** Ordering the map's values keeps the ids, the winners and makes the list newest first. */
  lemma SortedMapFacts(entries: seq<Mission>, local: seq<Mission>, remote: seq<Mission>)
    requires MapOf(entries, local + remote)
    ensures UniqueIds(SortDesc(entries)) && SortedDesc(SortDesc(entries))
    ensures forall id :: HasId(SortDesc(entries), id) <==> HasId(local, id) || HasId(remote, id)
    ensures forall k :: 0 <= k < |SortDesc(entries)| ==>
              Some(SortDesc(entries)[k]) == Winner(remote, local, SortDesc(entries)[k].id)
  {
    var r := SortDesc(entries);
    SortDescSorted(entries);
    SortDescUnique(entries);
    forall id ensures HasId(r, id) <==> HasId(local, id) || HasId(remote, id) {
      PermutationHasId(entries, r, id);
      LastWithIdConcat(local, remote, id);
    }
    forall k | 0 <= k < |r| ensures Some(r[k]) == Winner(remote, local, r[k].id) {
      assert r[k] in multiset(entries);
      var t :| 0 <= t < |entries| && entries[t] == r[k];
      LastWithIdConcat(local, remote, r[k].id);
    }
  }

  // ---------------------------------------------------------------------------------
  // The store

  /**
   * What the hook keeps: the stored list, the shown list, the active mission and the
   * remembered active id.
   */
  datatype Store = Store(local: seq<Mission>, shown: seq<Mission>, active: Option<Mission>, storedActiveId: Option<string>)

  /** `setActiveMission`: the stored and shown lists are activated, the active mission is the listed one with that id, and the id is remembered even when it is not listed. */
  function SetActiveMission(st: Store, id: string, now: int): (r: Store)
    ensures r.local == r.shown == Activate(st.local, id, now)
    ensures r.storedActiveId == Some(id)
    ensures r.active.Some? <==> HasId(st.local, id)
    ensures r.active.Some? ==> r.active.value.id == id && r.active.value.isActive && r.active.value in r.local
  {
    var updated := Activate(st.local, id, now);
    var found := FindFirst(updated, (m: Mission) => m.id == id);
    assert HasId(st.local, id) ==> exists k :: 0 <= k < |updated| && updated[k].id == id;
    Store(updated, updated, found, Some(id))
  }

  /** `deleteMission`: removed from the stored list; the active mission is dropped only when its id was the remembered one. */
  function DeleteMission(st: Store, id: string): (r: Store)
    ensures r.local == r.shown == Delete(st.local, id)
    ensures st.storedActiveId == Some(id) ==> r.active.None? && r.storedActiveId.None?
    ensures st.storedActiveId != Some(id) ==> r.active == st.active && r.storedActiveId == st.storedActiveId
  {
    var updated := Delete(st.local, id);
    if st.storedActiveId == Some(id) then Store(updated, updated, None, None)
    else Store(updated, updated, st.active, st.storedActiveId)
  }

  /** `loadMissions`: the shown list is the merge; the stored list is not rewritten. */
  method LoadMissions(st: Store, remote: seq<Mission>) returns (r: Store)
    ensures r.local == st.local
    ensures forall id :: HasId(r.shown, id) <==> HasId(st.local, id) || HasId(remote, id)
    ensures SortedDesc(r.shown) && UniqueIds(r.shown)
    ensures forall k :: 0 <= k < |r.shown| ==> Some(r.shown[k]) == Winner(remote, st.local, r.shown[k].id)
    ensures r.active == SelectActive(r.shown, st.storedActiveId)
    ensures r.storedActiveId == (if r.active.Some? then Some(r.active.value.id) else None)
  {
    var merged := MergeMissions(remote, st.local);
    var active := SelectActive(merged, st.storedActiveId);
    r := Store(st.local, merged, active, if active.Some? then Some(active.value.id) else None);
  }
}
