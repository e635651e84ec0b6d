/** The persisted tracking registry shared by every surface of the extension:
    the records, the messages the surfaces exchange, and the observers
    (find by id, change totals, active count) the surfaces compute on it. */
module Registry {
  import opened Js

  /** A captured screenshot: capture time, PNG data URL and page URL. */
  datatype Snapshot = Snapshot(timestamp: int, dataUrl: string, url: string)

  /** One monitored URL. Fields the source may leave unset or null are Options. */
  datatype Tracking = Tracking(
    id: string,
    url: string,
    name: string,
    isTracking: bool,
    minInterval: int,
    maxInterval: int,
    lastContentHash: Option<string>,
    timeLeft: Option<int>,
    changeCount: Option<int>,
    lastRefresh: Option<int>,
    snapshots: Option<seq<Snapshot>>)

  /** The messages exchanged between the surfaces (the `action` tags). */
  datatype Message =
    | StartTracking(trackingId: string, url: string, min: int, max: int)
    | StopTracking(trackingId: string)
    | RefreshNow(trackingId: string, url: string)
    | ContentChanged(trackingId: string, url: string)
    | ChangeDetected(trackingId: string)

  /** Default refresh bounds, in seconds, used whenever an input is missing or 0. */
  const DefaultMin: int := 30
  const DefaultMax: int := 60

  /** `'tracking_' + Date.now()` */
  function NewId(now: int): (id: string)
    ensures IsPrefix("tracking_", id) && |id| > |"tracking_"|
  {
    "tracking_" + DecimalString(now)
  }

  /** A freshly created record: no hash, no timer, no refresh yet. */
  function NewTracking(id: string, url: string, name: string, active: bool, min: int, max: int,
                       count: int, snaps: seq<Snapshot>): (t: Tracking)
    ensures t.id == id && t.url == url && t.isTracking == active
    ensures t.lastContentHash == None && t.timeLeft == None && t.lastRefresh == None
  {
    Tracking(id, url, name, active, min, max, None, None, Some(count), None, Some(snaps))
  }

  /** `tracking.changeCount || 0` */
  function CountOf(t: Tracking): int
  {
    GetOr(t.changeCount, 0)
  }

  /** `tracking.snapshots || []` */
  function SnapshotsOf(t: Tracking): seq<Snapshot>
  {
    GetOr(t.snapshots, [])
  }

  /** `trackings.find(t => t.id === id)` */
  function FindById(ts: seq<Tracking>, id: string): (r: Option<nat>)
    ensures r.Some? ==> r.value < |ts| && ts[r.value].id == id
    ensures r.Some? ==> forall j | 0 <= j < r.value :: ts[j].id != id
    ensures r.None? ==> forall j | 0 <= j < |ts| :: ts[j].id != id
  {
    Find(ts, (t: Tracking) => t.id == id)
  }

  /** The ids present in a registry. */
  function Ids(ts: seq<Tracking>): set<string>
  {
    set t | t in ts :: t.id
  }

  // ---------------------------------------------------------------------------
  // Observers shown by the popup

  /** `trackings.reduce((sum, t) => sum + (t.changeCount || 0), 0)`, a left fold. */
  function TotalChanges(ts: seq<Tracking>): int
    decreases |ts|
  {
    if ts == [] then 0 else TotalChanges(ts[..|ts| - 1]) + CountOf(ts[|ts| - 1])
  }

  /** `trackings.filter(t => t.isTracking)` */
  function ActiveTrackings(ts: seq<Tracking>): seq<Tracking>
    decreases |ts|
  {
    if ts == [] then []
    else if ts[0].isTracking then [ts[0]] + ActiveTrackings(ts[1..])
    else ActiveTrackings(ts[1..])
  }

  /** The filter holds exactly the active records, and no more than the registry. */
  lemma {:induction false} ActiveTrackingsMeaning(ts: seq<Tracking>)
    ensures forall t | t in ActiveTrackings(ts) :: t in ts && t.isTracking
    ensures forall t | t in ts && t.isTracking :: t in ActiveTrackings(ts)
    ensures |ActiveTrackings(ts)| <= |ts|
    decreases |ts|
  {
    if ts != [] {
      ActiveTrackingsMeaning(ts[1..]);
      assert ts == [ts[0]] + ts[1..];
    }
  }

  /** The number of records with `isTracking` set. */
  function ActiveCount(ts: seq<Tracking>): nat
  {
    |ActiveTrackings(ts)|
  }

  function Flag(b: bool): int
  {
    if b then 1 else 0
  }

  lemma ActiveCountSingle(t: Tracking)
    ensures ActiveCount([t]) == Flag(t.isTracking)
  {
    var s := [t];
    assert s[0] == t && s[1..] == [];
    assert ActiveTrackings(s) == (if t.isTracking then [t] else []) + ActiveTrackings([]);
  }

  lemma {:induction false} ActiveCountAppend(a: seq<Tracking>, b: seq<Tracking>)
    ensures ActiveCount(a + b) == ActiveCount(a) + ActiveCount(b)
    decreases |a|
  {
    if a != [] {
      assert (a + b)[0] == a[0] && (a + b)[1..] == a[1..] + b;
      ActiveCountAppend(a[1..], b);
    } else {
      assert a + b == b;
    }
  }

  /** Replacing one record changes the active count by the change of that record's flag. */
  lemma ActiveCountUpdate(ts: seq<Tracking>, i: nat, t: Tracking)
    requires i < |ts|
    ensures ActiveCount(ts[i := t]) == ActiveCount(ts) - Flag(ts[i].isTracking) + Flag(t.isTracking)
  {
    assert ts == ts[..i] + [ts[i]] + ts[i + 1..];
    assert ts[i := t] == ts[..i] + [t] + ts[i + 1..];
    ActiveCountAppend(ts[..i] + [ts[i]], ts[i + 1..]);
    ActiveCountAppend(ts[..i], [ts[i]]);
    ActiveCountAppend(ts[..i] + [t], ts[i + 1..]);
    ActiveCountAppend(ts[..i], [t]);
    ActiveCountSingle(ts[i]);
    ActiveCountSingle(t);
  }

  /** The count equals |ts| exactly when every record is active, and 0 exactly when none is. */
  lemma {:induction false} ActiveCountExtremes(ts: seq<Tracking>)
    ensures ActiveCount(ts) == |ts| <==> forall j | 0 <= j < |ts| :: ts[j].isTracking
    ensures ActiveCount(ts) == 0 <==> forall j | 0 <= j < |ts| :: !ts[j].isTracking
    decreases |ts|
  {
    if ts != [] {
      ActiveCountExtremes(ts[1..]);
      ActiveTrackingsMeaning(ts[1..]);
      assert forall j | 1 <= j < |ts| :: ts[j] == ts[1..][j - 1];
    }
  }

  lemma {:induction false} TotalChangesAppend(a: seq<Tracking>, b: seq<Tracking>)
    ensures TotalChanges(a + b) == TotalChanges(a) + TotalChanges(b)
    decreases |b|
  {
    if b == [] {
      assert a + b == a;
    } else {
      var b' := b[..|b| - 1];
      assert (a + b)[..|a + b| - 1] == a + b';
      TotalChangesAppend(a, b');
    }
  }

  /** Replacing one record changes the total by the change of that record's count. */
  lemma TotalChangesUpdate(ts: seq<Tracking>, i: nat, t: Tracking)
    requires i < |ts|
    ensures TotalChanges(ts[i := t]) == TotalChanges(ts) - CountOf(ts[i]) + CountOf(t)
  {
    assert ts == ts[..i] + [ts[i]] + ts[i + 1..];
    assert ts[i := t] == ts[..i] + [t] + ts[i + 1..];
    TotalChangesAppend(ts[..i] + [ts[i]], ts[i + 1..]);
    TotalChangesAppend(ts[..i], [ts[i]]);
    TotalChangesAppend(ts[..i] + [t], ts[i + 1..]);
    TotalChangesAppend(ts[..i], [t]);
    assert TotalChanges([ts[i]]) == CountOf(ts[i]);
    assert TotalChanges([t]) == CountOf(t);
  }

  /** The sum of the counts, missing ones as 0, taken from the front. */
  function CountSum(ts: seq<Tracking>): int
    decreases |ts|
  {
    if ts == [] then 0 else CountOf(ts[0]) + CountSum(ts[1..])
  }

  /** The reduce computes the sum of the counts; it is never negative when no count is. */
  lemma {:induction false} TotalChangesIsSum(ts: seq<Tracking>)
    ensures TotalChanges(ts) == CountSum(ts)
    ensures (forall j | 0 <= j < |ts| :: CountOf(ts[j]) >= 0) ==> TotalChanges(ts) >= 0
    decreases |ts|
  {
    if ts != [] {
      TotalChangesIsSum(ts[1..]);
      assert ts == [ts[0]] + ts[1..];
      TotalChangesAppend([ts[0]], ts[1..]);
      assert TotalChanges([ts[0]]) == CountOf(ts[0]);
    }
  }

  // ---------------------------------------------------------------------------
  // Single-record edits: find the record by id and assign one field on it

  /** Applies `edit` to the first record with the given id; no record, no change. */
  function UpdateById(ts: seq<Tracking>, id: string, edit: Tracking -> Tracking): seq<Tracking>
  {
    match FindById(ts, id)
    case None => ts
    case Some(i) => ts[i := edit(ts[i])]
  }

  /** An edit that keeps the id touches exactly the first record with that id. */
  lemma UpdateByIdFrame(ts: seq<Tracking>, id: string, edit: Tracking -> Tracking)
    requires forall t :: edit(t).id == t.id
    ensures |UpdateById(ts, id, edit)| == |ts|
    ensures FindById(ts, id).None? ==> UpdateById(ts, id, edit) == ts
    ensures FindById(ts, id).Some? ==>
      var i := FindById(ts, id).value;
      UpdateById(ts, id, edit)[i] == edit(ts[i]) &&
      forall j | 0 <= j < |ts| && j != i :: UpdateById(ts, id, edit)[j] == ts[j]
    ensures FindById(UpdateById(ts, id, edit), id) == FindById(ts, id)
    ensures Ids(UpdateById(ts, id, edit)) == Ids(ts)
  {
    var r := UpdateById(ts, id, edit);
    match FindById(ts, id)
    case None =>
    case Some(i) =>
      forall x | x in Ids(r) ensures x in Ids(ts) {
        var j :| 0 <= j < |r| && r[j].id == x;
      }
      forall x | x in Ids(ts) ensures x in Ids(r) {
        var j :| 0 <= j < |ts| && ts[j].id == x;
        assert r[j].id == x;
      }
  }

  /** `updateTrackingTimeLeft`: `tracking.timeLeft = timeLeft` on the record found. */
  function SetTimeLeft(ts: seq<Tracking>, id: string, v: Option<int>): seq<Tracking>
  {
    UpdateById(ts, id, (t: Tracking) => t.(timeLeft := v))
  }

  /** `incrementChangeCount`: `changeCount = (changeCount || 0) + 1` on the record found. */
  function ChangeCountBumped(ts: seq<Tracking>, id: string): seq<Tracking>
  {
    UpdateById(ts, id, (t: Tracking) => t.(changeCount := Some(CountOf(t) + 1)))
  }

  lemma SetTimeLeftEffect(ts: seq<Tracking>, id: string, v: Option<int>)
    ensures |SetTimeLeft(ts, id, v)| == |ts|
    ensures FindById(ts, id).None? ==> SetTimeLeft(ts, id, v) == ts
    ensures FindById(ts, id).Some? ==>
      var i := FindById(ts, id).value;
      SetTimeLeft(ts, id, v)[i] == ts[i].(timeLeft := v) &&
      forall j | 0 <= j < |ts| && j != i :: SetTimeLeft(ts, id, v)[j] == ts[j]
    ensures ActiveCount(SetTimeLeft(ts, id, v)) == ActiveCount(ts)
    ensures TotalChanges(SetTimeLeft(ts, id, v)) == TotalChanges(ts)
    ensures Ids(SetTimeLeft(ts, id, v)) == Ids(ts)
  {
    var edit := (t: Tracking) => t.(timeLeft := v);
    UpdateByIdFrame(ts, id, edit);
    if i :| FindById(ts, id) == Some(i) {
      ActiveCountUpdate(ts, i, edit(ts[i]));
      TotalChangesUpdate(ts, i, edit(ts[i]));
    }
  }

  /** Counting a change adds exactly one to the popup's total, and only for a known id. */
  lemma ChangeCountBumpedEffect(ts: seq<Tracking>, id: string)
    ensures |ChangeCountBumped(ts, id)| == |ts|
    ensures FindById(ts, id).None? ==> ChangeCountBumped(ts, id) == ts
    ensures FindById(ts, id).Some? ==>
      var i := FindById(ts, id).value;
      CountOf(ChangeCountBumped(ts, id)[i]) == CountOf(ts[i]) + 1 &&
      ChangeCountBumped(ts, id)[i] == ts[i].(changeCount := Some(CountOf(ts[i]) + 1)) &&
      forall j | 0 <= j < |ts| && j != i :: ChangeCountBumped(ts, id)[j] == ts[j]
    ensures TotalChanges(ChangeCountBumped(ts, id)) ==
            TotalChanges(ts) + (if FindById(ts, id).Some? then 1 else 0)
    ensures ActiveCount(ChangeCountBumped(ts, id)) == ActiveCount(ts)
  {
    var edit := (t: Tracking) => t.(changeCount := Some(CountOf(t) + 1));
    UpdateByIdFrame(ts, id, edit);
    if i :| FindById(ts, id) == Some(i) {
      ActiveCountUpdate(ts, i, edit(ts[i]));
      TotalChangesUpdate(ts, i, edit(ts[i]));
    }
  }

  // ---------------------------------------------------------------------------
  // Migration from the single-page version

  /** Data left by the single-page version of the extension. */
  datatype Legacy = Legacy(isTracking: Option<bool>, currentTrackedUrl: Option<string>,
                           changeCount: Option<int>, snapshots: Option<seq<Snapshot>>)

  /** The record built from legacy data, with interval 30-60 s. `host` is the
      hostname of the legacy URL. */
  function MigratedRecord(legacy: Legacy, host: string, now: int, count: int,
                          snaps: seq<Snapshot>): (t: Tracking)
    requires legacy.currentTrackedUrl.Some?
    ensures t.id == NewId(now) && t.url == legacy.currentTrackedUrl.value && t.name == host
    ensures t.minInterval == DefaultMin && t.maxInterval == DefaultMax
    ensures t.isTracking == (legacy.isTracking == Some(true))
    ensures CountOf(t) == count && SnapshotsOf(t) == snaps
  {
    NewTracking(NewId(now), legacy.currentTrackedUrl.value, host, GetOr(legacy.isTracking, false),
                DefaultMin, DefaultMax, count, snaps)
  }

  // ---------------------------------------------------------------------------
  // URL matching shared by the content script and the popup

  /** `url === current || current.startsWith(url) || url.includes(host)`,
      where `host` is the hostname of the current URL. */
  predicate UrlMatches(url: string, current: string, host: string)
  {
    current == url || IsPrefix(url, current) || Contains(url, host)
  }
}
