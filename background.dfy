/** The background service: one randomized refresh timer and one countdown per
    active tracking, duplicate-start suppression, the storage-change diff, and
    the persisted-record updates that follow a detected change. */
module Background {
  import opened Js
  import opened Registry

  /** Snapshots kept per tracking. */
  const MaxSnapshots: nat := 20
  /** A capture whose data URL is shorter than this is taken to be blank. */
  const MinCaptureLength: nat := 1000

  // ---------------------------------------------------------------------------
  // Interval choice

  /** `Math.floor(Math.random() * (max - min + 1) + min)`, with `r` the value
      Math.random() returned. */
  function IntervalSeconds(min: int, max: int, r: real): (s: int)
    requires 0.0 <= r < 1.0
    ensures min <= max ==> min <= s <= max
    ensures max < min ==> max + 1 <= s <= min
  {
    var n := (max - min + 1) as real;
    ScaledRandom(r, n);
    (r * n + min as real).Floor
  }

  /** A value in [0, 1) scales a width `n` into [0, n), or into [n, 0] when n <= 0. */
  lemma ScaledRandom(r: real, n: real)
    requires 0.0 <= r < 1.0
    ensures n > 0.0 ==> 0.0 <= r * n < n
    ensures n <= 0.0 ==> n <= r * n <= 0.0
  {
    if n > 0.0 {
      assert n - r * n == (1.0 - r) * n;
    } else {
      assert r * n - n == (1.0 - r) * (0.0 - n);
    }
  }

  // ---------------------------------------------------------------------------
  // Snapshot history: push, then shift once when over the cap

  /** `snapshots.push(s); if (snapshots.length > 20) snapshots.shift()` */
  function Pushed(snaps: seq<Snapshot>, s: Snapshot): (r: seq<Snapshot>)
    ensures |r| >= 1 && r[|r| - 1] == s
    ensures r[..|r| - 1] == (if |snaps| < MaxSnapshots then snaps else snaps[1..])
    ensures |snaps| <= MaxSnapshots ==> |r| <= MaxSnapshots
  {
    var q := snaps + [s];
    if |q| > MaxSnapshots then
      assert q[1..] == snaps[1..] + [s];
      q[1..]
    else
      q
  }

  /** Saving each of `xs` in turn. */
  function PushAll(snaps: seq<Snapshot>, xs: seq<Snapshot>): seq<Snapshot>
    decreases |xs|
  {
    if xs == [] then snaps else Pushed(PushAll(snaps, xs[..|xs| - 1]), xs[|xs| - 1])
  }

  /** The last `n` elements of `s` (all of them when there are fewer). */
  function Newest<T>(s: seq<T>, n: nat): (r: seq<T>)
    ensures |r| == if |s| <= n then |s| else n
  {
    if |s| <= n then s else s[|s| - n..]
  }

  /** Starting from at most 20 snapshots, the history is always the 20 newest of
      everything saved: the oldest is evicted first. */
  lemma {:induction false} PushAllKeepsNewest(snaps: seq<Snapshot>, xs: seq<Snapshot>)
    requires |snaps| <= MaxSnapshots
    ensures PushAll(snaps, xs) == Newest(snaps + xs, MaxSnapshots)
    decreases |xs|
  {
    if xs == [] {
      assert snaps + xs == snaps;
    } else {
      var xs', x := xs[..|xs| - 1], xs[|xs| - 1];
      PushAllKeepsNewest(snaps, xs');
      var all := snaps + xs;
      assert all == (snaps + xs') + [x];
      if |snaps + xs'| >= MaxSnapshots {
        var k := |snaps + xs'| - MaxSnapshots;
        assert Newest(snaps + xs', MaxSnapshots) == (snaps + xs')[k..];
        assert (snaps + xs')[k..][1..] + [x] == all[k + 1..];
      }
    }
  }

  /** Twenty-five saves into an empty history leave twenty, starting with the sixth. */
  lemma TwentyFiveSaves()
    ensures
      var xs := seq(25, i requires 0 <= i => Snapshot(i, "test", ""));
      |PushAll([], xs)| == 20 && PushAll([], xs)[0].timestamp == 5
  {
    var xs := seq(25, i requires 0 <= i => Snapshot(i, "test", ""));
    PushAllKeepsNewest([], xs);
    assert [] + xs == xs;
  }

  /** `saveSnapshot` on the registry: the first record with the id gets the
      snapshot appended to its history and its `lastRefresh` set. */
  function WithSnapshot(ts: seq<Tracking>, id: string, s: Snapshot): seq<Tracking>
  {
    UpdateById(ts, id, (t: Tracking) => t.(snapshots := Some(Pushed(SnapshotsOf(t), s)),
                                          lastRefresh := Some(s.timestamp)))
  }

  lemma WithSnapshotEffect(ts: seq<Tracking>, id: string, s: Snapshot)
    ensures |WithSnapshot(ts, id, s)| == |ts|
    ensures FindById(ts, id).None? ==> WithSnapshot(ts, id, s) == ts
    ensures FindById(ts, id).Some? ==>
      var i := FindById(ts, id).value;
      var t := WithSnapshot(ts, id, s)[i];
      && t == ts[i].(snapshots := t.snapshots, lastRefresh := Some(s.timestamp))
      && t.snapshots == Some(Pushed(SnapshotsOf(ts[i]), s))
      && (|SnapshotsOf(ts[i])| <= MaxSnapshots ==> |SnapshotsOf(t)| <= MaxSnapshots)
      && (forall j | 0 <= j < |ts| && j != i :: WithSnapshot(ts, id, s)[j] == ts[j])
    ensures TotalChanges(WithSnapshot(ts, id, s)) == TotalChanges(ts)
    ensures ActiveCount(WithSnapshot(ts, id, s)) == ActiveCount(ts)
  {
    var edit := (t: Tracking) => t.(snapshots := Some(Pushed(SnapshotsOf(t), s)),
                                   lastRefresh := Some(s.timestamp));
    UpdateByIdFrame(ts, id, edit);
    if i :| FindById(ts, id) == Some(i) {
      ActiveCountUpdate(ts, i, edit(ts[i]));
      TotalChangesUpdate(ts, i, edit(ts[i]));
    }
  }

  /** The checks `captureSnapshot` makes before saving: no platform error, and a
      data URL of at least 1000 characters (an empty one is falsy). */
  predicate CaptureAccepted(failed: bool, dataUrl: Option<string>)
  {
    !failed && dataUrl.Some? && dataUrl.value != "" && |dataUrl.value| >= MinCaptureLength
  }

  // ---------------------------------------------------------------------------
  // Storage-change diff

  /** An old record that was active and is now missing or inactive. */
  predicate ShouldStop(o: Tracking, news: seq<Tracking>)
  {
    o.isTracking &&
    match FindById(news, o.id)
    case None => true
    case Some(k) => !news[k].isTracking
  }

  /** A new record that is active and was missing or inactive before. */
  predicate ShouldStart(n: Tracking, olds: seq<Tracking>)
  {
    n.isTracking &&
    match FindById(olds, n.id)
    case None => true
    case Some(k) => !olds[k].isTracking
  }

  /** Ids to stop, in the order of the old list. */
  function StopIds(olds: seq<Tracking>, news: seq<Tracking>): seq<string>
    decreases |olds|
  {
    if olds == [] then []
    else
      var o, rest := olds[|olds| - 1], StopIds(olds[..|olds| - 1], news);
      if ShouldStop(o, news) then rest + [o.id] else rest
  }

  /** Exactly the ids of the old records that went inactive are stopped. */
  lemma {:induction false} StopIdsMeaning(olds: seq<Tracking>, news: seq<Tracking>)
    ensures forall k | 0 <= k < |olds| && ShouldStop(olds[k], news) :: olds[k].id in StopIds(olds, news)
    ensures forall x | x in StopIds(olds, news) ::
      exists k | 0 <= k < |olds| :: olds[k].id == x && ShouldStop(olds[k], news)
    decreases |olds|
  {
    if olds != [] {
      var prefix := olds[..|olds| - 1];
      StopIdsMeaning(prefix, news);
      assert forall k | 0 <= k < |prefix| :: prefix[k] == olds[k];
    }
  }

  /** Ids to start, in the order of the new list: those to start that have no timer. */
  function StartIds(news: seq<Tracking>, olds: seq<Tracking>, live: set<string>): seq<string>
    decreases |news|
  {
    if news == [] then []
    else
      var n, rest := news[|news| - 1], StartIds(news[..|news| - 1], olds, live);
      if ShouldStart(n, olds) && n.id !in live then rest + [n.id] else rest
  }

  /** Exactly the ids of the new records that became active and have no timer are started. */
  lemma {:induction false} StartIdsMeaning(news: seq<Tracking>, olds: seq<Tracking>, live: set<string>)
    ensures forall k | 0 <= k < |news| && ShouldStart(news[k], olds) && news[k].id !in live ::
      news[k].id in StartIds(news, olds, live)
    ensures forall x | x in StartIds(news, olds, live) :: x !in live
    ensures forall x | x in StartIds(news, olds, live) ::
      exists k | 0 <= k < |news| :: news[k].id == x && ShouldStart(news[k], olds)
    decreases |news|
  {
    if news != [] {
      var prefix := news[..|news| - 1];
      StartIdsMeaning(prefix, olds, live);
      assert forall k | 0 <= k < |prefix| :: prefix[k] == news[k];
    }
  }

  /** Ids of the active records not in `live`, in registry order (`loadTrackings`). */
  function ActiveIdsOutside(ts: seq<Tracking>, live: set<string>): seq<string>
    decreases |ts|
  {
    if ts == [] then []
    else
      var t, rest := ts[|ts| - 1], ActiveIdsOutside(ts[..|ts| - 1], live);
      if t.isTracking && t.id !in live then rest + [t.id] else rest
  }

  lemma {:induction false} ActiveIdsOutsideMeaning(ts: seq<Tracking>, live: set<string>)
    ensures forall k | 0 <= k < |ts| && ts[k].isTracking && ts[k].id !in live ::
      ts[k].id in ActiveIdsOutside(ts, live)
    ensures forall x | x in ActiveIdsOutside(ts, live) :: x !in live
    ensures forall x | x in ActiveIdsOutside(ts, live) ::
      exists k | 0 <= k < |ts| :: ts[k].id == x && ts[k].isTracking
    decreases |ts|
  {
    if ts != [] {
      var prefix := ts[..|ts| - 1];
      ActiveIdsOutsideMeaning(prefix, live);
      assert forall k | 0 <= k < |prefix| :: prefix[k] == ts[k];
    }
  }

  /** The timeLeft clears (`updateTrackingTimeLeft(id, null)`) of a run of stops, in order. */
  function ClearTimeLefts(ts: seq<Tracking>, ids: seq<string>): seq<Tracking>
    decreases |ids|
  {
    if ids == [] then ts
    else SetTimeLeft(ClearTimeLefts(ts, ids[..|ids| - 1]), ids[|ids| - 1], None)
  }

  /** Clearing timers' countdowns in storage keeps the ids, the active count and the total. */
  lemma {:induction false} ClearTimeLeftsKeeps(ts: seq<Tracking>, ids: seq<string>)
    ensures |ClearTimeLefts(ts, ids)| == |ts| && Ids(ClearTimeLefts(ts, ids)) == Ids(ts)
    ensures ActiveCount(ClearTimeLefts(ts, ids)) == ActiveCount(ts)
    ensures TotalChanges(ClearTimeLefts(ts, ids)) == TotalChanges(ts)
    decreases |ids|
  {
    if ids != [] {
      ClearTimeLeftsKeeps(ts, ids[..|ids| - 1]);
      SetTimeLeftEffect(ClearTimeLefts(ts, ids[..|ids| - 1]), ids[|ids| - 1], None);
    }
  }

  /** No two records share an id. */
  predicate UniqueIds(ts: seq<Tracking>)
  {
    forall i, j | 0 <= i < j < |ts| :: ts[i].id != ts[j].id
  }

  /** A write that keeps every record's id and flag in place gives the listener
      nothing to stop and nothing to start, when ids are unique. */
  lemma {:induction false} ListenerIgnoresRecordEdits(olds: seq<Tracking>, news: seq<Tracking>,
                                                      live: set<string>)
    requires |news| == |olds| && UniqueIds(olds)
    requires forall k | 0 <= k < |olds| ::
      news[k].id == olds[k].id && news[k].isTracking == olds[k].isTracking
    ensures StopIds(olds, news) == []
    ensures StartIds(news, olds, live) == []
  {
    forall k | 0 <= k < |olds|
      ensures FindById(news, olds[k].id) == Some(k) && FindById(olds, olds[k].id) == Some(k)
    {
      var r := FindById(news, olds[k].id);
      assert news[k].id == olds[k].id;
      assert r.Some?;
      assert olds[r.value].id == olds[k].id;
      var q := FindById(olds, olds[k].id);
      assert q.Some?;
    }
    assert forall k | 0 <= k < |olds| :: !ShouldStop(olds[k], news);
    assert forall k | 0 <= k < |news| :: !ShouldStart(news[k], olds);
    StopIdsMeaning(olds, news);
    if StopIds(olds, news) != [] {
      assert StopIds(olds, news)[0] in StopIds(olds, news);
      assert false;
    }
    StartIdsMeaning(news, olds, live);
    if StartIds(news, olds, live) != [] {
      assert StartIds(news, olds, live)[0] in StartIds(news, olds, live);
      assert false;
    }
  }

  /** The service's own record edits (`updateTrackingTimeLeft`, `incrementChangeCount`,
      `saveSnapshot`) fire the storage listener too; over unique ids it stops and
      starts nothing. */
  lemma ServiceWritesAreSilent(ts: seq<Tracking>, id: string, v: Option<int>, s: Snapshot,
                               live: set<string>)
    requires UniqueIds(ts)
    ensures StopIds(ts, SetTimeLeft(ts, id, v)) == [] && StartIds(SetTimeLeft(ts, id, v), ts, live) == []
    ensures StopIds(ts, ChangeCountBumped(ts, id)) == [] &&
            StartIds(ChangeCountBumped(ts, id), ts, live) == []
    ensures StopIds(ts, WithSnapshot(ts, id, s)) == [] && StartIds(WithSnapshot(ts, id, s), ts, live) == []
  {
    SetTimeLeftEffect(ts, id, v);
    ListenerIgnoresRecordEdits(ts, SetTimeLeft(ts, id, v), live);
    ChangeCountBumpedEffect(ts, id);
    ListenerIgnoresRecordEdits(ts, ChangeCountBumped(ts, id), live);
    WithSnapshotEffect(ts, id, s);
    ListenerIgnoresRecordEdits(ts, WithSnapshot(ts, id, s), live);
  }

  // ---------------------------------------------------------------------------
  // Migration on install

  /** The install handler as written: the guard `!oldData.trackings` reads a key
      the storage read never asked for, so the stored registry `ts` plays no part
      and the registry is replaced whenever a legacy URL is present. */
  function InstalledMigrationAsWritten(ts: seq<Tracking>, legacy: Legacy, host: string,
                                       now: int): (w: Option<seq<Tracking>>)
    ensures w.Some? <==> Truthy(legacy.currentTrackedUrl)
  {
    if Truthy(legacy.currentTrackedUrl) then Some([MigratedRecord(legacy, host, now, 0, [])])
    else None
  }

  /** As written, a registry of any size is overwritten by the single migrated record. */
  lemma InstalledMigrationAsWrittenLosesTrackings(ts: seq<Tracking>, legacy: Legacy,
                                                  host: string, now: int)
    requires ts != [] && Truthy(legacy.currentTrackedUrl)
    ensures InstalledMigrationAsWritten(ts, legacy, host, now) ==
            Some([MigratedRecord(legacy, host, now, 0, [])])
    ensures |ts| >= 2 ==> |InstalledMigrationAsWritten(ts, legacy, host, now).value| < |ts|
  {
  }

  /** As written, the storage listener that follows the overwrite stops every active
      tracking of the replaced registry other than one sharing the migrated id. */
  lemma {:induction false} InstalledMigrationAsWrittenStopsActive(ts: seq<Tracking>, legacy: Legacy,
                                                                  host: string, now: int)
    requires Truthy(legacy.currentTrackedUrl)
    ensures forall k | 0 <= k < |ts| && ts[k].isTracking && ts[k].id != NewId(now) ::
      ts[k].id in StopIds(ts, InstalledMigrationAsWritten(ts, legacy, host, now).value)
  {
    var news := InstalledMigrationAsWritten(ts, legacy, host, now).value;
    StopIdsMeaning(ts, news);
    forall k | 0 <= k < |ts| && ts[k].isTracking && ts[k].id != NewId(now)
      ensures ShouldStop(ts[k], news)
    {
      assert FindById(news, ts[k].id).None?;
    }
  }

  /** The install handler as intended: migrate only when there is no registry yet. */
  function InstalledMigration(ts: seq<Tracking>, legacy: Legacy, host: string,
                              now: int): (w: Option<seq<Tracking>>)
    ensures ts != [] ==> w == None
    ensures w.Some? <==> ts == [] && Truthy(legacy.currentTrackedUrl)
    ensures w.Some? ==> |w.value| == 1 && w.value[0].url == legacy.currentTrackedUrl.value
  {
    if ts == [] && Truthy(legacy.currentTrackedUrl) then
      Some([MigratedRecord(legacy, host, now, 0, [])])
    else None
  }

  // ---------------------------------------------------------------------------
  // The scheduler

  /** The scheduler's own record of an active tracking. */
  datatype Scheduled = Scheduled(id: string, url: string, tabId: int,
                                 minInterval: int, maxInterval: int, isTracking: bool)

  /** `if (!tabId)`: a tab id was obtained and is not 0. */
  predicate HasTab(tabId: Option<int>)
  {
    tabId.Some? && tabId.value != 0
  }

  /** One refresh timer (setTimeout) and its countdown ticker (setInterval),
      with the countdown closure's captured variables. */
  class TimerPair {
    const id: string
    /** url of the tracking captured by the refresh closure */
    const url: string
    /** milliseconds */
    const interval: int
    const startTime: int
    var timerPending: bool
    var countdownRunning: bool
    var timeLeft: int
    var lastUpdateTime: int

    predicate Live()
      reads this
    {
      timerPending || countdownRunning
    }

    constructor (id: string, url: string, seconds: int, now: int)
      ensures this.id == id && this.url == url && interval == seconds * 1000 && startTime == now
      ensures timerPending && countdownRunning && timeLeft == seconds && lastUpdateTime == now
    {
      this.id := id;
      this.url := url;
      interval := seconds * 1000;
      startTime := now;
      timerPending := true;
      countdownRunning := true;
      timeLeft := seconds;
      lastUpdateTime := now;
    }

    /** `clearTimeout` and `clearInterval` on the pair. */
    method Cancel()
      modifies this`timerPending, this`countdownRunning
      ensures !timerPending && !countdownRunning
    {
      timerPending := false;
      countdownRunning := false;
    }

    /** One run of the countdown callback at time `now` (ms); returns the
        timeLeft it writes to storage, if any. */
    method Tick(now: int) returns (write: Option<int>)
      requires countdownRunning
      modifies this`timeLeft, this`lastUpdateTime, this`countdownRunning
      ensures timeLeft <= old(timeLeft)
      ensures var elapsed := (now - old(lastUpdateTime)) / 1000;
        if elapsed >= 1 then timeLeft == old(timeLeft) - elapsed && lastUpdateTime == now
        else timeLeft == old(timeLeft) && lastUpdateTime == old(lastUpdateTime)
      ensures countdownRunning <==> timeLeft > 0
      ensures write.Some? && write.value != 0 ==> write.value == timeLeft > 0 && timeLeft < old(timeLeft)
      ensures write == Some(0) <==> !countdownRunning
      ensures write == None ==> timeLeft == old(timeLeft) > 0
    {
      write := None;
      var elapsed := (now - lastUpdateTime) / 1000;
      if elapsed >= 1 {
        timeLeft := timeLeft - elapsed;
        lastUpdateTime := now;
        if timeLeft > 0 {
          write := Some(timeLeft);
        }
      }
      if timeLeft <= 0 {
        countdownRunning := false;
        write := Some(0);
      }
    }
  }

  class TrackerService {
    /** trackingId -> tracking state */
    var trackings: map<string, Scheduled>
    /** trackingId -> live timer pair */
    var timers: map<string, TimerPair>
    /** The persisted registry (the `trackings` key of local storage). */
    var store: seq<Tracking>
    /** Every timer pair this service has created. */
    ghost var issued: set<TimerPair>

    /** Timers only for scheduled ids, each entry keyed by its own id and pending,
        and no live timer pair outside the map: at most one live pair per id. */
    ghost predicate Valid()
      reads this, issued
    {
      && timers.Keys <= trackings.Keys
      && (forall id | id in trackings :: trackings[id].id == id && trackings[id].isTracking)
      && (forall id | id in timers :: timers[id] in issued && timers[id].id == id && timers[id].timerPending)
      && (forall p | p in issued && p.Live() :: p.id in timers && timers[p.id] == p)
    }

    lemma OneLivePairPerId(p: TimerPair, q: TimerPair)
      requires Valid() && p in issued && q in issued && p.Live() && q.Live() && p.id == q.id
      ensures p == q
    {
    }

    constructor (stored: seq<Tracking>)
      ensures Valid() && trackings == map[] && timers == map[] && store == stored && issued == {}
    {
      trackings, timers, store := map[], map[], stored;
      issued := {};
    }

    /** `updateTrackingTimeLeft` */
    method UpdateTrackingTimeLeft(id: string, v: Option<int>)
      modifies this`store
      ensures store == SetTimeLeft(old(store), id, v)
    {
      var found := FindById(store, id);
      if found.Some? {
        var i := found.value;
        store := store[i := store[i].(timeLeft := v)];
      }
    }

    /** `stopTracking`: clears and forgets the id's timer pair and its entry. */
    method StopTracking(id: string)
      requires Valid()
      modifies this, issued
      ensures Valid() && issued == old(issued)
      ensures timers == old(timers) - {id} && trackings == old(trackings) - {id}
      ensures id in old(timers) ==> !old(timers)[id].Live()
      ensures forall q | q in issued && q.id != id :: unchanged(q)
      ensures id !in old(timers) ==> forall q | q in issued :: unchanged(q)
      ensures store == SetTimeLeft(old(store), id, None)
    {
      if id in timers {
        timers[id].Cancel();
        timers := timers - {id};
      }
      trackings := trackings - {id};
      UpdateTrackingTimeLeft(id, None);
    }

    /** `scheduleNextRefresh`: replaces the id's timer pair by a fresh one with an
        interval of IntervalSeconds(min, max, r) seconds. */
    method ScheduleNextRefresh(id: string, min: int, max: int, r: real, now: int)
      requires Valid() && 0.0 <= r < 1.0
      modifies this, issued
      ensures Valid() && trackings == old(trackings)
      ensures id !in trackings ==>
        timers == old(timers) && store == old(store) && issued == old(issued) &&
        forall q | q in issued :: unchanged(q)
      ensures id in trackings ==>
        var s := IntervalSeconds(min, max, r);
        && id in timers && fresh(timers[id])
        && timers == old(timers)[id := timers[id]]
        && issued == old(issued) + {timers[id]}
        && timers[id].interval == s * 1000 && timers[id].timeLeft == s
        && timers[id].url == trackings[id].url
        && timers[id].timerPending && timers[id].countdownRunning
        && timers[id].startTime == now && timers[id].lastUpdateTime == now
        && (id in old(timers) ==> !old(timers)[id].Live())
        && (forall q | q in old(issued) && q.id != id :: unchanged(q))
        && (id !in old(timers) ==> forall q | q in old(issued) :: unchanged(q))
        && store == SetTimeLeft(old(store), id, Some(s))
    {
      if id !in trackings {
        return;
      }
      var tracking := trackings[id];
      if id in timers {
        timers[id].Cancel();
      }
      var interval := IntervalSeconds(min, max, r) * 1000;
      var timeLeft := interval / 1000;
      UpdateTrackingTimeLeft(id, Some(timeLeft));
      var p := new TimerPair(id, tracking.url, timeLeft, now);
      timers := timers[id := p];
      issued := issued + {p};
      forall q | q in issued && q.Live() ensures q.id in timers && timers[q.id] == q {
        if q != p {
          assert q in old(issued) && q.id != id;
        }
      }
    }

    /** `startTracking`: suppressed when the id already has a timer; otherwise the
        id is stopped and a tab lookup for `url` is issued (returns true). */
    method StartTracking(id: string, url: string, min: int, max: int) returns (lookup: bool)
      requires Valid()
      modifies this, issued
      ensures Valid() && issued == old(issued) && timers == old(timers)
      ensures forall q | q in issued :: unchanged(q)
      ensures lookup <==> id !in old(timers)
      ensures id in old(timers) ==> trackings == old(trackings) && store == old(store)
      ensures id !in old(timers) ==>
        trackings == old(trackings) - {id} && store == SetTimeLeft(old(store), id, None)
    {
      if id in timers {
        return false;
      }
      StopTracking(id);
      lookup := true;
    }

    /** The tab-lookup callback of `startTracking`, given the tab id it obtained. */
    method OnStartTab(id: string, url: string, min: int, max: int, tabId: Option<int>,
                      r: real, now: int)
      requires Valid() && 0.0 <= r < 1.0
      modifies this, issued
      ensures Valid()
      ensures !HasTab(tabId) || id in old(timers) ==>
        trackings == old(trackings) && timers == old(timers) && store == old(store) &&
        issued == old(issued) && forall q | q in issued :: unchanged(q)
      ensures HasTab(tabId) && id !in old(timers) ==>
        var s := IntervalSeconds(min, max, r);
        && trackings == old(trackings)[id := Scheduled(id, url, tabId.value, min, max, true)]
        && id in timers && fresh(timers[id]) && timers == old(timers)[id := timers[id]]
        && issued == old(issued) + {timers[id]}
        && timers[id].interval == s * 1000 && timers[id].timeLeft == s && timers[id].url == url
        && timers[id].timerPending && timers[id].countdownRunning
        && timers[id].startTime == now && timers[id].lastUpdateTime == now
        && (forall q | q in old(issued) :: unchanged(q))
        && store == SetTimeLeft(old(store), id, Some(s))
    {
      if !HasTab(tabId) {
        return;
      }
      if id in timers {
        return;
      }
      trackings := trackings[id := Scheduled(id, url, tabId.value, min, max, true)];
      ScheduleNextRefresh(id, min, max, r, now);
    }

    /** The refresh timer of `p` fires: the countdown is cleared, the entry
        removed, and a page refresh begun (the tab lookup url, if any). */
    method OnTimerFire(p: TimerPair) returns (lookup: Option<string>)
      requires Valid() && p in issued && p.timerPending
      modifies this, issued
      ensures Valid() && issued == old(issued)
      ensures old(p.id in timers && timers[p.id] == p)
      ensures timers == old(timers) - {p.id} && trackings == old(trackings) && store == old(store)
      ensures !p.Live()
      ensures forall q | q in issued && q != p :: unchanged(q)
      ensures lookup == if p.id in trackings then Some(p.url) else None
    {
      p.Cancel();
      timers := timers - {p.id};
      lookup := RefreshPage(p.id, p.url);
    }

    /** `refreshPage`: a tab lookup for `url`, only for a scheduled id. */
    method RefreshPage(id: string, url: string) returns (lookup: Option<string>)
      ensures lookup.Some? <==> id in trackings
      ensures lookup.Some? ==> lookup.value == url
    {
      if id !in trackings {
        return None;
      }
      lookup := Some(url);
    }

    /** The reload callback of `refreshPage`: re-arms the id while it is still scheduled. */
    method OnReloaded(id: string, r: real, now: int)
      requires Valid() && 0.0 <= r < 1.0
      modifies this, issued
      ensures Valid() && trackings == old(trackings)
      ensures id !in trackings ==>
        timers == old(timers) && store == old(store) && issued == old(issued) &&
        forall q | q in issued :: unchanged(q)
      ensures id in trackings ==>
        var t := trackings[id];
        var s := IntervalSeconds(t.minInterval, t.maxInterval, r);
        && id in timers && fresh(timers[id])
        && timers == old(timers)[id := timers[id]]
        && issued == old(issued) + {timers[id]}
        && timers[id].interval == s * 1000 && timers[id].timeLeft == s
        && timers[id].url == t.url
        && timers[id].timerPending && timers[id].countdownRunning
        && timers[id].startTime == now && timers[id].lastUpdateTime == now
        && (id in old(timers) ==> !old(timers)[id].Live())
        && (forall q | q in old(issued) && q.id != id :: unchanged(q))
        && store == SetTimeLeft(old(store), id, Some(s))
    {
      if id in trackings && trackings[id].isTracking {
        var t := trackings[id];
        ScheduleNextRefresh(id, t.minInterval, t.maxInterval, r, now);
      }
    }

    /** One run of the countdown of `p`, with its write to storage. */
    method CountdownTick(p: TimerPair, now: int) returns (write: Option<int>)
      requires Valid() && p in issued && p.countdownRunning
      modifies p`timeLeft, p`lastUpdateTime, p`countdownRunning, this`store
      ensures Valid()
      ensures p.timeLeft <= old(p.timeLeft)
      ensures var elapsed := (now - old(p.lastUpdateTime)) / 1000;
        if elapsed >= 1 then p.timeLeft == old(p.timeLeft) - elapsed && p.lastUpdateTime == now
        else p.timeLeft == old(p.timeLeft) && p.lastUpdateTime == old(p.lastUpdateTime)
      ensures p.countdownRunning <==> p.timeLeft > 0
      ensures write.Some? && write.value != 0 ==> write.value == p.timeLeft > 0 && p.timeLeft < old(p.timeLeft)
      ensures write == Some(0) <==> !p.countdownRunning
      ensures write == None ==> p.timeLeft == old(p.timeLeft) > 0
      ensures store == if write.Some? then SetTimeLeft(old(store), p.id, write) else old(store)
    {
      write := p.Tick(now);
      if write.Some? {
        UpdateTrackingTimeLeft(p.id, write);
      }
    }

    /** `incrementChangeCount`; CHANGE_DETECTED follows the write. */
    method IncrementChangeCount(id: string) returns (sent: Option<Message>)
      modifies this`store
      ensures store == ChangeCountBumped(old(store), id)
      ensures TotalChanges(store) == TotalChanges(old(store)) + (if sent.Some? then 1 else 0)
      ensures sent.Some? <==> FindById(old(store), id).Some?
      ensures sent.Some? ==> sent.value == ChangeDetected(id)
    {
      ChangeCountBumpedEffect(store, id);
      var found := FindById(store, id);
      if found.None? {
        return None;
      }
      var i := found.value;
      var t := store[i];
      store := store[i := t.(changeCount := Some(CountOf(t) + 1))];
      sent := Some(ChangeDetected(id));
    }

    /** `saveSnapshot`: push onto the found record's history, shift once past 20. */
    method SaveSnapshot(id: string, timestamp: int, dataUrl: string, url: string)
      modifies this`store
      ensures store == WithSnapshot(old(store), id, Snapshot(timestamp, dataUrl, url))
    {
      var found := FindById(store, id);
      if found.None? {
        return;
      }
      var i := found.value;
      var t := store[i];
      var snaps := SnapshotsOf(t);
      snaps := snaps + [Snapshot(timestamp, dataUrl, url)];
      if |snaps| > MaxSnapshots {
        snaps := snaps[1..];
      }
      store := store[i := t.(snapshots := Some(snaps), lastRefresh := Some(timestamp))];
    }

    /** `handleContentChange`: for a scheduled id with a sender tab, a capture of
        the tracking's url is begun and the change counted. */
    method HandleContentChange(id: string, hasTab: bool)
      returns (capture: Option<string>, sent: Option<Message>)
      modifies this`store
      ensures id !in trackings || !hasTab ==> capture == None && sent == None && store == old(store)
      ensures id in trackings && hasTab ==>
        capture == Some(trackings[id].url) && store == ChangeCountBumped(old(store), id) &&
        (sent.Some? <==> FindById(old(store), id).Some?) &&
        (sent.Some? ==> sent.value == ChangeDetected(id))
    {
      if id !in trackings || !hasTab {
        return None, None;
      }
      capture := Some(trackings[id].url);
      sent := IncrementChangeCount(id);
    }

    /** The capture callback of `captureSnapshot`: a bad capture saves nothing
        and notifies nobody; a good one is downloaded, saved and notified. */
    method OnCaptured(id: string, url: string, failed: bool, dataUrl: Option<string>,
                      timestamp: int) returns (downloaded: bool, notified: bool)
      modifies this`store
      ensures !CaptureAccepted(failed, dataUrl) ==> !downloaded && !notified && store == old(store)
      ensures CaptureAccepted(failed, dataUrl) ==>
        downloaded && notified &&
        store == WithSnapshot(old(store), id, Snapshot(timestamp, dataUrl.value, url))
    {
      if failed {
        return false, false;
      }
      if dataUrl.None? || dataUrl.value == "" || |dataUrl.value| < MinCaptureLength {
        return false, false;
      }
      downloaded := true;
      SaveSnapshot(id, timestamp, dataUrl.value, url);
      notified := true;
    }

    /** The first pass of the storage-change listener: stops every id whose old
        record was active and whose new record is missing or inactive. */
    method StopInactive(olds: seq<Tracking>, news: seq<Tracking>) returns (stopped: seq<string>)
      requires Valid()
      modifies this, issued
      ensures Valid() && issued == old(issued)
      ensures stopped == StopIds(olds, news)
      ensures timers == old(timers) - Elems(stopped)
      ensures trackings == old(trackings) - Elems(stopped)
      ensures store == ClearTimeLefts(old(store), stopped)
      ensures forall q | q in issued && q.id !in stopped :: unchanged(q)
    {
      stopped := [];
      var i := 0;
      while i < |olds|
        invariant 0 <= i <= |olds|
        invariant Valid() && issued == old(issued)
        invariant stopped == StopIds(olds[..i], news)
        invariant timers == old(timers) - Elems(stopped)
        invariant trackings == old(trackings) - Elems(stopped)
        invariant store == ClearTimeLefts(old(store), stopped)
        invariant forall q | q in issued && q.id !in stopped :: unchanged(q)
      {
        assert olds[..i + 1][..i] == olds[..i];
        if ShouldStop(olds[i], news) {
          ghost var before := stopped;
          var id := olds[i].id;
          StopTracking(id);
          MapMinusAppend(old(timers), before, id);
          MapMinusAppend(old(trackings), before, id);
          stopped := stopped + [id];
          assert forall q | q in issued && q.id !in stopped :: q.id !in before && q.id != id;
        }
        i := i + 1;
      }
      assert olds[..|olds|] == olds;
    }

    /** The second pass: starts every id whose new record is active, whose old
        record was missing or inactive, and that has no timer. */
    method StartActivated(news: seq<Tracking>, olds: seq<Tracking>) returns (started: seq<string>)
      requires Valid()
      modifies this, issued
      ensures Valid() && issued == old(issued) && timers == old(timers)
      ensures started == StartIds(news, olds, old(timers).Keys)
      ensures trackings == old(trackings) - Elems(started)
      ensures store == ClearTimeLefts(old(store), started)
      ensures forall q | q in issued :: unchanged(q)
    {
      started := [];
      var j := 0;
      while j < |news|
        invariant 0 <= j <= |news|
        invariant Valid() && issued == old(issued) && timers == old(timers)
        invariant started == StartIds(news[..j], olds, old(timers).Keys)
        invariant trackings == old(trackings) - Elems(started)
        invariant store == ClearTimeLefts(old(store), started)
        invariant forall q | q in issued :: unchanged(q)
      {
        assert news[..j + 1][..j] == news[..j];
        var n := news[j];
        if ShouldStart(n, olds) && n.id !in timers {
          var _ := StartTracking(n.id, n.url, n.minInterval, n.maxInterval);
          MapMinusAppend(old(trackings), started, n.id);
          started := started + [n.id];
        }
        j := j + 1;
      }
      assert news[..|news|] == news;
    }

    /** A write of `news` to the `trackings` key by another page, followed by the
        storage-change listener it fires: the listener's `oldValue` is the
        registry before the write and its `newValue` is `news`. The listener
        stops the ids that went inactive, then starts the ids that became active
        and have no timer; their countdown writes apply to `news`. */
    method OnStorageChanged(news: seq<Tracking>)
      returns (stopped: seq<string>, started: seq<string>)
      requires Valid()
      modifies this, issued
      ensures Valid() && issued == old(issued)
      ensures stopped == StopIds(old(store), news)
      ensures started == StartIds(news, old(store), old(timers).Keys - Elems(stopped))
      ensures timers == old(timers) - Elems(stopped)
      ensures trackings == old(trackings) - Elems(stopped) - Elems(started)
      ensures store == ClearTimeLefts(ClearTimeLefts(news, stopped), started)
      ensures forall q | q in issued && q.id !in stopped :: unchanged(q)
      ensures forall k | 0 <= k < |old(store)| && ShouldStop(old(store)[k], news) ::
        old(store)[k].id !in timers && old(store)[k].id !in trackings
    {
      var olds := store;
      store := news;
      stopped := StopInactive(olds, news);
      started := StartActivated(news, olds);
      StopIdsMeaning(olds, news);
    }

    /** `loadTrackings`: starts every active stored record whose id has no timer. */
    method LoadTrackings() returns (started: seq<string>)
      requires Valid()
      modifies this, issued
      ensures Valid() && issued == old(issued) && timers == old(timers)
      ensures started == ActiveIdsOutside(old(store), old(timers).Keys)
      ensures trackings == old(trackings) - Elems(started)
      ensures store == ClearTimeLefts(old(store), started)
      ensures forall q | q in issued :: unchanged(q)
    {
      var ts := store;
      started := [];
      var i := 0;
      while i < |ts|
        invariant 0 <= i <= |ts|
        invariant Valid() && issued == old(issued) && timers == old(timers)
        invariant started == ActiveIdsOutside(ts[..i], old(timers).Keys)
        invariant trackings == old(trackings) - Elems(started)
        invariant store == ClearTimeLefts(old(store), started)
        invariant forall q | q in issued :: unchanged(q)
      {
        assert ts[..i + 1] == ts[..i] + [ts[i]];
        assert ts[..i + 1][..i] == ts[..i];
        if ts[i].isTracking {
          var lookup := StartTracking(ts[i].id, ts[i].url, ts[i].minInterval, ts[i].maxInterval);
          if lookup {
            MapMinusAppend(old(trackings), started, ts[i].id);
            started := started + [ts[i].id];
          }
        }
        i := i + 1;
      }
      assert ts[..|ts|] == ts;
    }

    /** The message listener: dispatch on the action tag. `hasTab` says whether
        the sender carried a tab. */
    method OnMessage(msg: Message, hasTab: bool)
      returns (lookup: Option<string>, capture: Option<string>, sent: Option<Message>)
      requires Valid()
      modifies this, issued
      ensures Valid() && issued == old(issued)
      ensures !msg.StopTracking? ==> timers == old(timers) && forall q | q in issued :: unchanged(q)
      ensures !msg.ContentChanged? ==> capture == None && sent == None
      ensures msg.StartTracking? && msg.trackingId in old(timers) ==>
        trackings == old(trackings) && store == old(store) && lookup == None
      ensures msg.StartTracking? && msg.trackingId !in old(timers) ==>
        lookup == Some(msg.url) && trackings == old(trackings) - {msg.trackingId} &&
        store == SetTimeLeft(old(store), msg.trackingId, None)
      ensures msg.StopTracking? ==>
        var id := msg.trackingId;
        && timers == old(timers) - {id} && trackings == old(trackings) - {id}
        && (id in old(timers) ==> !old(timers)[id].Live())
        && (forall q | q in issued && q.id != id :: unchanged(q))
        && store == SetTimeLeft(old(store), id, None)
        && lookup == None
      ensures msg.RefreshNow? ==>
        trackings == old(trackings) && store == old(store) &&
        lookup == (if msg.trackingId in trackings then Some(msg.url) else None)
      ensures msg.ContentChanged? ==>
        var id := msg.trackingId;
        && trackings == old(trackings) && lookup == None
        && (id !in trackings || !hasTab ==> capture == None && sent == None && store == old(store))
        && (id in trackings && hasTab ==>
              capture == Some(trackings[id].url) && store == ChangeCountBumped(old(store), id) &&
              (sent.Some? <==> FindById(old(store), id).Some?) &&
              (sent.Some? ==> sent.value == ChangeDetected(id)))
      ensures msg.ChangeDetected? ==>
        timers == old(timers) && trackings == old(trackings) && store == old(store) &&
        lookup == None && capture == None && sent == None
    {
      lookup, capture, sent := None, None, None;
      match msg
      case StartTracking(id, url, min, max) =>
        var b := StartTracking(id, url, min, max);
        if b {
          lookup := Some(url);
        }
      case StopTracking(id) =>
        StopTracking(id);
      case RefreshNow(id, url) =>
        lookup := RefreshPage(id, url);
      case ContentChanged(id, _) =>
        capture, sent := HandleContentChange(id, hasTab);
      case ChangeDetected(_) =>
    }

    /** The install handler, with the registry guard it evidently intends; its write
        fires the storage listener like any other. */
    method OnInstalled(legacy: Legacy, host: string, now: int)
      returns (stopped: seq<string>, started: seq<string>)
      requires Valid()
      modifies this, issued
      ensures Valid() && issued == old(issued)
      ensures forall q | q in issued :: unchanged(q)
      ensures stopped == [] && timers == old(timers)
      ensures old(store) != [] ==> store == old(store) && trackings == old(trackings) && started == []
      ensures InstalledMigration(old(store), legacy, host, now).None? ==>
        store == old(store) && trackings == old(trackings) && started == []
      ensures InstalledMigration(old(store), legacy, host, now).Some? ==>
        var m := InstalledMigration(old(store), legacy, host, now).value[0];
        && started == (if m.isTracking && m.id !in old(timers) then [m.id] else [])
        && trackings == old(trackings) - Elems(started)
        && store == ClearTimeLefts([m], started)
    {
      var w := InstalledMigration(store, legacy, host, now);
      if w.Some? {
        var m := w.value[0];
        assert w.value == [m];
        stopped, started := OnStorageChanged(w.value);
        assert [m][..0] == [];
      } else {
        stopped, started := [], [];
      }
    }
  }
}
