/** The dashboard: the list of trackings, the selected tracking's details and
    snapshot grid, and the edits the user makes to the registry from there. */
module Dashboard {
  import opened Js
  import opened Registry

  // ---------------------------------------------------------------------------
  // Element maps: `trackingElements` (id -> list item) and `snapshotElements`
  // (timestamp -> grid card), reconciled against the current keys

  /** A container and its element map. Elements are handles numbered in
      creation order; `shown` is the set of elements attached to the container
      and `next` the handle the next created element gets. */
  datatype Pane<K> = Pane(elements: map<K, nat>, shown: set<nat>, next: nat)

  /** Every mapped element was created before `next`, no element serves two
      keys, and the container shows exactly the mapped elements. */
  ghost predicate PaneValid<K>(p: Pane<K>)
  {
    && (forall k | k in p.elements :: p.elements[k] < p.next)
    && (forall k, k' | k in p.elements && k' in p.elements && k != k' ::
          p.elements[k] != p.elements[k'])
    && p.shown == p.elements.Values
  }

  /** The create-or-reuse pass (the forEach): each key that has no element
      gets a fresh one, attached to the container; mapped keys are reused. */
  function AttachMissing<K>(p: Pane<K>, keys: seq<K>): (q: Pane<K>)
    ensures q.next >= p.next
    decreases |keys|
  {
    if keys == [] then p
    else
      var q := AttachMissing(p, keys[..|keys| - 1]);
      var k := keys[|keys| - 1];
      if k in q.elements then q
      else Pane(q.elements[k := q.next], q.shown + {q.next}, q.next + 1)
  }

  /** The removal pass (the for-of over the map): every entry whose key is not
      current is detached from the container and forgotten. */
  function DropStale<K>(p: Pane<K>, current: set<K>): Pane<K>
  {
    Pane(map k | k in p.elements && k in current :: p.elements[k],
         p.shown - (set k | k in p.elements && k !in current :: p.elements[k]),
         p.next)
  }

  /** The removal pass part-way: the keys in `pending` are still to be visited. */
  function DropStaleUntil<K>(p: Pane<K>, current: set<K>, pending: set<K>): Pane<K>
  {
    Pane(map k | k in p.elements && (k in current || k in pending) :: p.elements[k],
         p.shown - (set k | k in p.elements && k !in current && k !in pending :: p.elements[k]),
         p.next)
  }

  /** Before the pass nothing is dropped; after it, the pass is DropStale. */
  lemma DropStaleUntilEnds<K>(p: Pane<K>, current: set<K>)
    ensures DropStaleUntil(p, current, p.elements.Keys) == Pane(p.elements, p.shown, p.next)
    ensures DropStaleUntil(p, current, {}) == DropStale(p, current)
  {
  }

  /** One visit of the removal pass: a stale key's element is detached and forgotten. */
  lemma DropStaleUntilStep<K>(p: Pane<K>, current: set<K>, pending: set<K>, k: K)
    requires k in pending && pending <= p.elements.Keys
    ensures var q := DropStaleUntil(p, current, pending);
      DropStaleUntil(p, current, pending - {k}) ==
        if k in current then q
        else Pane(q.elements - {k}, q.shown - {q.elements[k]}, q.next)
  {
    var q := DropStaleUntil(p, current, pending);
    var gone := set j | j in p.elements && j !in current && j !in pending :: p.elements[j];
    var gone' := set j | j in p.elements && j !in current && j !in pending - {k} :: p.elements[j];
    if k in current {
      assert gone' == gone;
    } else {
      assert gone' == gone + {p.elements[k]};
    }
  }

  /** Rendering an empty list empties the map and the container. */
  lemma RenderEmpty<K>(p: Pane<K>)
    requires PaneValid(p)
    ensures Render(p, []) == Pane(map[], {}, p.next)
  {
    assert Elems<K>([]) == {};
    var gone := set k | k in p.elements && k !in {} :: p.elements[k];
    assert gone == p.elements.Values;
  }

  /** The render as written: an empty key list only empties the container
      (`innerHTML = ''`) and returns, leaving the element map as it was. */
  function RenderAsWritten<K>(p: Pane<K>, keys: seq<K>): Pane<K>
  {
    if keys == [] then p.(shown := {}) else DropStale(AttachMissing(p, keys), Elems(keys))
  }

  /** The render as intended: the empty list goes through the same
      reconciliation, so the element map is emptied with the container. */
  function Render<K>(p: Pane<K>, keys: seq<K>): Pane<K>
  {
    DropStale(AttachMissing(p, keys), Elems(keys))
  }

  /** The create-or-reuse pass maps every current key, keeps the element of each
      key that had one, and gives each other key an element created during the pass. */
  lemma {:induction false} AttachMissingKeeps<K>(p: Pane<K>, keys: seq<K>)
    ensures var q := AttachMissing(p, keys);
      && q.elements.Keys == p.elements.Keys + Elems(keys)
      && (forall k | k in p.elements :: q.elements[k] == p.elements[k])
      && (forall k | k in q.elements && k !in p.elements :: p.next <= q.elements[k] < q.next)
    decreases |keys|
  {
    if keys != [] {
      var prefix, k := keys[..|keys| - 1], keys[|keys| - 1];
      AttachMissingKeeps(p, prefix);
      assert Elems(keys) == Elems(prefix) + {k} by {
        assert keys == prefix + [k];
      }
    }
  }

  /** The create-or-reuse pass keeps a pane consistent. */
  lemma {:induction false} AttachMissingValid<K>(p: Pane<K>, keys: seq<K>)
    requires PaneValid(p)
    ensures PaneValid(AttachMissing(p, keys))
    decreases |keys|
  {
    if keys != [] {
      var prefix, k := keys[..|keys| - 1], keys[|keys| - 1];
      AttachMissingValid(p, prefix);
      var q := AttachMissing(p, prefix);
      if k !in q.elements {
        AttachFreshValid(q, k);
      }
    }
  }

  /** Adding a fresh element under a new key keeps a pane consistent. */
  lemma AttachFreshValid<K>(q: Pane<K>, k: K)
    requires PaneValid(q) && k !in q.elements
    ensures PaneValid(Pane(q.elements[k := q.next], q.shown + {q.next}, q.next + 1))
  {
    var m := q.elements[k := q.next];
    forall e | e in m.Values ensures e in q.elements.Values + {q.next} {
      var k' :| k' in m && m[k'] == e;
      if k' != k {
        assert q.elements[k'] == e;
      }
    }
    forall e | e in q.elements.Values + {q.next} ensures e in m.Values {
      if e == q.next {
        assert m[k] == e;
      } else {
        var k' :| k' in q.elements && q.elements[k'] == e;
        assert m[k'] == e;
      }
    }
  }

  lemma DropStaleEffect<K>(p: Pane<K>, current: set<K>)
    requires PaneValid(p)
    ensures var q := DropStale(p, current);
      && PaneValid(q)
      && q.elements.Keys == p.elements.Keys * current
      && (forall k | k in q.elements :: q.elements[k] == p.elements[k])
  {
    var q := DropStale(p, current);
    var gone := set k | k in p.elements && k !in current :: p.elements[k];
    forall e | e in q.shown ensures e in q.elements.Values {
      var k :| k in p.elements && p.elements[k] == e;
      assert k in current;
      assert q.elements[k] == e;
    }
    forall e | e in q.elements.Values ensures e in q.shown {
      var k :| k in q.elements && q.elements[k] == e;
      assert e in p.elements.Values;
    }
  }

  /** The intended render keeps the pane consistent: afterwards the map holds an
      element for exactly the current keys, every one of them shown, keys that
      had an element keep it, and the others get fresh elements. */
  lemma RenderEffect<K>(p: Pane<K>, keys: seq<K>)
    requires PaneValid(p)
    ensures var q := Render(p, keys);
      && PaneValid(q)
      && q.elements.Keys == Elems(keys)
      && (forall k | k in q.elements :: q.elements[k] in q.shown)
      && (forall k | k in q.elements && k in p.elements :: q.elements[k] == p.elements[k])
      && (forall k | k in q.elements && k !in p.elements :: p.next <= q.elements[k] < q.next)
      && q.next >= p.next
  {
    AttachMissingKeeps(p, keys);
    AttachMissingValid(p, keys);
    DropStaleEffect(AttachMissing(p, keys), Elems(keys));
  }

  /** As written, rendering an empty list leaves every mapped element detached. */
  lemma RenderAsWrittenDetaches<K>(p: Pane<K>)
    requires PaneValid(p) && p.elements != map[]
    ensures !PaneValid(RenderAsWritten(p, []))
  {
    var k :| k in p.elements;
    assert p.elements[k] in p.elements.Values;
  }

  /** As written, a card rendered, hidden by an empty list, and asked for again
      stays mapped but is never put back into the grid. */
  lemma RenderAsWrittenLosesCard()
    ensures var p := RenderAsWritten(RenderAsWritten(Pane(map[7 := 0], {0}, 1), []), [7]);
      7 in p.elements && p.elements[7] !in p.shown
  {
    var p0 := Pane(map[7 := 0], {0}, 1);
    var p1 := RenderAsWritten(p0, []);
    assert AttachMissing(p1, [7]) == p1 by {
      assert [7][..0] == [];
    }
    assert Elems([7]) == {7};
  }

  // ---------------------------------------------------------------------------
  // Keys of the two panes

  /** The ids of a registry, in order (the forEach over `this.trackings`). */
  function IdList(ts: seq<Tracking>): (r: seq<string>)
    ensures |r| == |ts| && forall i | 0 <= i < |ts| :: r[i] == ts[i].id
    ensures Elems(r) == Ids(ts)
  {
    var r := seq(|ts|, i requires 0 <= i < |ts| => ts[i].id);
    assert forall x | x in Ids(ts) :: x in r by {
      forall x | x in Ids(ts) ensures x in r {
        var t :| t in ts && t.id == x;
        var i :| 0 <= i < |ts| && ts[i] == t;
        assert r[i] == x;
      }
    }
    r
  }

  /** The snapshot timestamps, newest first (`[...snapshots].reverse()`). */
  function NewestFirst(snaps: seq<Snapshot>): (r: seq<int>)
    ensures |r| == |snaps| && forall i | 0 <= i < |snaps| :: r[i] == snaps[|snaps| - 1 - i].timestamp
  {
    seq(|snaps|, i requires 0 <= i < |snaps| => snaps[|snaps| - 1 - i].timestamp)
  }

  /** The grid's keys are exactly the timestamps of the snapshots. */
  lemma NewestFirstStamps(snaps: seq<Snapshot>)
    ensures Elems(NewestFirst(snaps)) == set s | s in snaps :: s.timestamp
  {
    var r := NewestFirst(snaps);
    forall x | x in (set s | s in snaps :: s.timestamp) ensures x in r {
      var s :| s in snaps && s.timestamp == x;
      var i :| 0 <= i < |snaps| && snaps[i] == s;
      assert r[|snaps| - 1 - i] == x;
    }
  }

  /** The record `trackings.find(t => t.id === selectedTrackingId)` returns;
      a null selection matches nothing. */
  function SelectedIn(ts: seq<Tracking>, sel: Option<string>): (r: Option<nat>)
    ensures r.Some? ==> sel.Some? && r.value < |ts| && ts[r.value].id == sel.value
    ensures r.None? ==> sel.None? || forall j | 0 <= j < |ts| :: ts[j].id != sel.value
  {
    if sel.None? then None else FindById(ts, sel.value)
  }

  /** The record the buttons act on: none unless the selection is truthy. */
  function ActionTarget(ts: seq<Tracking>, sel: Option<string>): (r: Option<nat>)
    ensures !Truthy(sel) ==> r == None
    ensures Truthy(sel) ==> r == SelectedIn(ts, sel)
  {
    if Truthy(sel) then SelectedIn(ts, sel) else None
  }

  // ---------------------------------------------------------------------------
  // Registry edits

  /** `trackings.filter(t => t.id !== id)` */
  function RemoveId(ts: seq<Tracking>, id: string): seq<Tracking>
    decreases |ts|
  {
    if ts == [] then [] else (if ts[0].id == id then [] else [ts[0]]) + RemoveId(ts[1..], id)
  }

  /** The filter keeps exactly the records whose id differs. */
  lemma {:induction false} RemoveIdMeaning(ts: seq<Tracking>, id: string)
    ensures forall t | t in RemoveId(ts, id) :: t in ts && t.id != id
    ensures forall t | t in ts && t.id != id :: t in RemoveId(ts, id)
    ensures |RemoveId(ts, id)| <= |ts|
    decreases |ts|
  {
    if ts != [] {
      RemoveIdMeaning(ts[1..], id);
      assert ts == [ts[0]] + ts[1..];
    }
  }

  /** Filtering distributes over concatenation: the kept records stay in order. */
  lemma {:induction false} RemoveIdAppend(a: seq<Tracking>, b: seq<Tracking>, id: string)
    ensures RemoveId(a + b, id) == RemoveId(a, id) + RemoveId(b, id)
    decreases |a|
  {
    if a == [] {
      assert a + b == b;
    } else {
      assert (a + b)[0] == a[0] && (a + b)[1..] == a[1..] + b;
      RemoveIdAppend(a[1..], b, id);
    }
  }

  /** Deleting removes exactly the id from the set of ids. */
  lemma RemoveIdIds(ts: seq<Tracking>, id: string)
    ensures Ids(RemoveId(ts, id)) == Ids(ts) - {id}
  {
    var r := RemoveId(ts, id);
    RemoveIdMeaning(ts, id);
    forall x | x in Ids(ts) - {id} ensures x in Ids(r) {
      var t :| t in ts && t.id == x;
      assert t in r;
    }
  }

  /** Deleting an id no record has changes nothing. */
  lemma {:induction false} RemoveIdAbsent(ts: seq<Tracking>, id: string)
    requires forall j | 0 <= j < |ts| :: ts[j].id != id
    ensures RemoveId(ts, id) == ts
    decreases |ts|
  {
    if ts != [] {
      RemoveIdAbsent(ts[1..], id);
      assert ts == [ts[0]] + ts[1..];
    }
  }

  /** Deleting never raises the active count. */
  lemma {:induction false} RemoveIdActiveCount(ts: seq<Tracking>, id: string)
    ensures ActiveCount(RemoveId(ts, id)) <= ActiveCount(ts)
    decreases |ts|
  {
    if ts != [] {
      RemoveIdActiveCount(ts[1..], id);
      var head := if ts[0].id == id then [] else [ts[0]];
      ActiveCountAppend(head, RemoveId(ts[1..], id));
      ActiveCountAppend([ts[0]], ts[1..]);
      assert ts == [ts[0]] + ts[1..];
    }
  }

  /** `addTracking`'s record: inactive, no count, no snapshots. */
  function AddedRecord(url: string, host: string, minIn: Option<int>, maxIn: Option<int>,
                       now: int): (t: Tracking)
    ensures t.id == NewId(now) && t.url == url && t.name == host && !t.isTracking
    ensures t.minInterval == OrDefault(minIn, DefaultMin) && t.maxInterval == OrDefault(maxIn, DefaultMax)
    ensures CountOf(t) == 0 && SnapshotsOf(t) == []
  {
    NewTracking(NewId(now), url, host, false, OrDefault(minIn, DefaultMin),
                OrDefault(maxIn, DefaultMax), 0, [])
  }

  /** Adding an inactive record with no changes moves neither the active count nor the total. */
  lemma AddedRecordKeepsStats(ts: seq<Tracking>, t: Tracking)
    requires !t.isTracking && CountOf(t) == 0
    ensures ActiveCount(ts + [t]) == ActiveCount(ts)
    ensures TotalChanges(ts + [t]) == TotalChanges(ts)
  {
    ActiveCountAppend(ts, [t]);
    ActiveCountSingle(t);
    assert (ts + [t])[..|ts + [t]| - 1] == ts;
  }

  /** The message `toggleTracking` sends for the record as it was before the flip. */
  function ToggleMessage(t: Tracking): (m: Message)
    ensures m.StartTracking? <==> !t.isTracking
    ensures m.trackingId == t.id
  {
    if !t.isTracking then StartTracking(t.id, t.url, t.minInterval, t.maxInterval)
    else StopTracking(t.id)
  }

  /** Flipping one record's flag moves the active count by exactly one. */
  lemma ToggleMovesActiveCount(ts: seq<Tracking>, i: nat)
    requires i < |ts|
    ensures ActiveCount(ts[i := ts[i].(isTracking := !ts[i].isTracking)]) ==
            ActiveCount(ts) + (if ts[i].isTracking then -1 else 1)
  {
    ActiveCountUpdate(ts, i, ts[i].(isTracking := !ts[i].isTracking));
  }

  /** Clearing one record's history takes exactly its count off the total. */
  lemma ClearMovesTotal(ts: seq<Tracking>, i: nat)
    requires i < |ts|
    ensures TotalChanges(ts[i := ts[i].(snapshots := Some([]), changeCount := Some(0))]) ==
            TotalChanges(ts) - CountOf(ts[i])
    ensures ActiveCount(ts[i := ts[i].(snapshots := Some([]), changeCount := Some(0))]) ==
            ActiveCount(ts)
  {
    var t := ts[i].(snapshots := Some([]), changeCount := Some(0));
    TotalChangesUpdate(ts, i, t);
    ActiveCountUpdate(ts, i, t);
  }

  /** Editing a record without touching its id leaves the selection on the same position. */
  lemma EditKeepsSelection(ts: seq<Tracking>, i: nat, t: Tracking, sel: Option<string>)
    requires i < |ts| && t.id == ts[i].id
    ensures SelectedIn(ts[i := t], sel) == SelectedIn(ts, sel)
  {
    var us := ts[i := t];
    assert forall j | 0 <= j < |ts| :: us[j].id == ts[j].id;
    if sel.Some? {
      var a, b := SelectedIn(us, sel), SelectedIn(ts, sel);
      if a.Some? && b.Some? {
        assert !(a.value < b.value) && !(b.value < a.value);
      }
    }
  }

  /** What `saveTrackings` writes to storage. */
  datatype Saved = Saved(trackings: seq<Tracking>, selectedTrackingId: Option<string>)

  /** `result.selectedTrackingId || null` */
  function Normalized(sel: Option<string>): (r: Option<string>)
    ensures r.Some? <==> Truthy(sel)
    ensures r.Some? ==> r == sel
  {
    if Truthy(sel) then sel else None
  }

  /** Some key of a non-empty set: the next entry a for-of over a Map visits. */
  method Pick<K>(s: set<K>) returns (k: K)
    requires s != {}
    ensures k in s
  {
    k :| k in s;
  }

  // ---------------------------------------------------------------------------
  // The controller

  class MultiPageTracker {
    var trackings: seq<Tracking>
    var selected: Option<string>
    /** The last write of `saveTrackings`, if any. */
    var lastSave: Option<Saved>
    var trackingElements: map<string, nat>
    /** The elements attached to the trackings list. */
    var listShown: set<nat>
    var snapshotElements: map<int, nat>
    /** The elements attached to the snapshot grid. */
    var gridShown: set<nat>
    /** The handle of the next element created, in either container. */
    var nextElement: nat

    function ListPane(): Pane<string>
      reads this
    {
      Pane(trackingElements, listShown, nextElement)
    }

    function GridPane(): Pane<int>
      reads this
    {
      Pane(snapshotElements, gridShown, nextElement)
    }

    ghost predicate Valid()
      reads this
    {
      PaneValid(ListPane()) && PaneValid(GridPane())
    }

    /** The list shows one element per record, and the grid one card per snapshot
        of the selected record, when there is one. */
    ghost predicate InView()
      reads this
    {
      && trackingElements.Keys == Ids(trackings)
      && (SelectedIn(trackings, selected).Some? ==>
            var t := trackings[SelectedIn(trackings, selected).value];
            snapshotElements.Keys == set s | s in SnapshotsOf(t) :: s.timestamp)
    }

    constructor ()
      ensures Valid() && trackings == [] && selected == None && lastSave == None
      ensures trackingElements == map[] && snapshotElements == map[]
    {
      trackings, selected, lastSave := [], None, None;
      trackingElements, listShown := map[], {};
      snapshotElements, gridShown := map[], {};
      nextElement := 0;
    }

    /** `saveTrackings` */
    method Save()
      modifies this`lastSave
      ensures lastSave == Some(Saved(trackings, selected))
    {
      lastSave := Some(Saved(trackings, selected));
    }

    /** `renderTrackingsList`, with the empty list reconciled like any other. */
    method RenderTrackingsList()
      requires Valid()
      modifies this`trackingElements, this`listShown, this`nextElement
      ensures Valid()
      ensures ListPane() == Render(old(ListPane()), IdList(trackings))
      ensures trackingElements.Keys == Ids(trackings)
      ensures forall id | id in trackingElements && id in old(trackingElements) ::
        trackingElements[id] == old(trackingElements)[id]
    {
      ghost var p0 := ListPane();
      RenderEffect(p0, IdList(trackings));
      if |trackings| == 0 {
        RenderEmpty(p0);
        trackingElements, listShown := map[], {};
        return;
      }
      var keys := IdList(trackings);
      AttachListItems(keys);
      DropStaleListItems(Elems(keys));
    }

    /** The forEach of `renderTrackingsList`: an item for every id that has none. */
    method AttachListItems(keys: seq<string>)
      modifies this`trackingElements, this`listShown, this`nextElement
      ensures ListPane() == AttachMissing(old(ListPane()), keys)
    {
      ghost var p0 := ListPane();
      var i := 0;
      while i < |keys|
        invariant 0 <= i <= |keys|
        invariant ListPane() == AttachMissing(p0, keys[..i])
      {
        var id := keys[i];
        assert keys[..i + 1][..i] == keys[..i];
        if id !in trackingElements {
          trackingElements := trackingElements[id := nextElement];
          listShown := listShown + {nextElement};
          nextElement := nextElement + 1;
        }
        i := i + 1;
      }
      assert keys[..|keys|] == keys;
    }

    /** The removal loop of `renderTrackingsList`: items of ids not current go. */
    method DropStaleListItems(current: set<string>)
      modifies this`trackingElements, this`listShown
      ensures ListPane() == DropStale(old(ListPane()), current)
    {
      ghost var p1 := ListPane();
      var pending := trackingElements.Keys;
      DropStaleUntilEnds(p1, current);
      while pending != {}
        invariant pending <= p1.elements.Keys
        invariant ListPane() == DropStaleUntil(p1, current, pending)
        decreases pending
      {
        var id := Pick(pending);
        DropStaleUntilStep(p1, current, pending, id);
        if id !in current {
          listShown := listShown - {trackingElements[id]};
          trackingElements := trackingElements - {id};
        }
        pending := pending - {id};
      }
    }

    /** `renderSnapshots`, newest first, with the empty list reconciled like any other. */
    method RenderSnapshots(snaps: seq<Snapshot>)
      requires Valid()
      modifies this`snapshotElements, this`gridShown, this`nextElement
      ensures Valid()
      ensures GridPane() == Render(old(GridPane()), NewestFirst(snaps))
      ensures snapshotElements.Keys == set s | s in snaps :: s.timestamp
      ensures forall ts | ts in snapshotElements && ts in old(snapshotElements) ::
        snapshotElements[ts] == old(snapshotElements)[ts]
    {
      ghost var p0 := GridPane();
      RenderEffect(p0, NewestFirst(snaps));
      NewestFirstStamps(snaps);
      if |snaps| == 0 {
        RenderEmpty(p0);
        snapshotElements, gridShown := map[], {};
        return;
      }
      var keys := NewestFirst(snaps);
      AttachSnapshotCards(keys);
      DropStaleSnapshotCards(Elems(keys));
    }

    /** The forEach of `renderSnapshots`: a card for every timestamp that has none. */
    method AttachSnapshotCards(keys: seq<int>)
      modifies this`snapshotElements, this`gridShown, this`nextElement
      ensures GridPane() == AttachMissing(old(GridPane()), keys)
    {
      ghost var p0 := GridPane();
      var i := 0;
      while i < |keys|
        invariant 0 <= i <= |keys|
        invariant GridPane() == AttachMissing(p0, keys[..i])
      {
        var ts := keys[i];
        assert keys[..i + 1][..i] == keys[..i];
        if ts !in snapshotElements {
          snapshotElements := snapshotElements[ts := nextElement];
          gridShown := gridShown + {nextElement};
          nextElement := nextElement + 1;
        }
        i := i + 1;
      }
      assert keys[..|keys|] == keys;
    }

    /** The removal loop of `renderSnapshots`: cards of timestamps not current go. */
    method DropStaleSnapshotCards(current: set<int>)
      modifies this`snapshotElements, this`gridShown
      ensures GridPane() == DropStale(old(GridPane()), current)
    {
      ghost var p1 := GridPane();
      var pending := snapshotElements.Keys;
      DropStaleUntilEnds(p1, current);
      while pending != {}
        invariant pending <= p1.elements.Keys
        invariant GridPane() == DropStaleUntil(p1, current, pending)
        decreases pending
      {
        var stamp := Pick(pending);
        DropStaleUntilStep(p1, current, pending, stamp);
        if stamp !in current {
          gridShown := gridShown - {snapshotElements[stamp]};
          snapshotElements := snapshotElements - {stamp};
        }
        pending := pending - {stamp};
      }
    }

    /** `renderTrackingDetails`: the grid shows the selected record's snapshots;
        with no such record only the empty state is shown. */
    method RenderTrackingDetails()
      requires Valid()
      modifies this`snapshotElements, this`gridShown, this`nextElement
      ensures Valid()
      ensures SelectedIn(trackings, selected).None? ==> GridPane() == old(GridPane())
      ensures SelectedIn(trackings, selected).Some? ==>
        GridPane() == Render(old(GridPane()),
                             NewestFirst(SnapshotsOf(trackings[SelectedIn(trackings, selected).value])))
      ensures trackingElements.Keys == Ids(trackings) ==> InView()
    {
      var found := SelectedIn(trackings, selected);
      if found.None? {
        return;
      }
      RenderSnapshots(SnapshotsOf(trackings[found.value]));
    }

    /** The tail shared by `selectTracking` and `toggleTracking`: save, then
        render the list and the details. */
    method SaveAndRender()
      requires Valid()
      modifies this`lastSave, this`trackingElements, this`listShown, this`snapshotElements,
               this`gridShown, this`nextElement
      ensures Valid() && InView()
      ensures lastSave == Some(Saved(trackings, selected))
    {
      Save();
      RenderTrackingsList();
      RenderTrackingDetails();
    }

    /** `selectTracking` */
    method SelectTracking(id: string)
      requires Valid()
      modifies this
      ensures Valid() && InView()
      ensures trackings == old(trackings) && selected == Some(id)
      ensures lastSave == Some(Saved(trackings, selected))
    {
      selected := Some(id);
      SaveAndRender();
    }

    /** `addTracking`: `url` is the trimmed input, `validUrl` whether it parses
        as a URL and `host` its hostname; `minIn`/`maxIn` are the parsed inputs. */
    method AddTracking(url: string, validUrl: bool, host: string, minIn: Option<int>,
                       maxIn: Option<int>, now: int) returns (added: bool)
      requires Valid()
      modifies this
      ensures Valid()
      ensures added <==> url != "" && validUrl
      ensures !added ==>
        trackings == old(trackings) && selected == old(selected) && lastSave == old(lastSave) &&
        ListPane() == old(ListPane()) && GridPane() == old(GridPane())
      ensures added ==>
        && trackings == old(trackings) + [AddedRecord(url, host, minIn, maxIn, now)]
        && selected == Some(NewId(now))
        && lastSave == Some(Saved(trackings, selected))
        && ActiveCount(trackings) == ActiveCount(old(trackings))
        && TotalChanges(trackings) == TotalChanges(old(trackings))
        && InView()
    {
      if url == "" || !validUrl {
        return false;
      }
      var t := AddedRecord(url, host, minIn, maxIn, now);
      AddedRecordKeepsStats(trackings, t);
      trackings := trackings + [t];
      Save();
      RenderTrackingsList();
      SelectTracking(t.id);
      added := true;
    }

    /** `deleteTracking`, given the answer to the confirmation dialog. The save
        happens before the selection is cleared, so storage keeps the old id. */
    method DeleteTracking(confirmed: bool) returns (sent: Option<Message>)
      requires Valid()
      modifies this`trackings, this`selected, this`lastSave, this`trackingElements,
               this`listShown, this`nextElement
      ensures Valid()
      ensures !Truthy(old(selected)) || !confirmed ==>
        sent == None && trackings == old(trackings) && selected == old(selected) &&
        lastSave == old(lastSave) && ListPane() == old(ListPane()) && GridPane() == old(GridPane())
      ensures Truthy(old(selected)) && confirmed ==>
        var id := old(selected).value;
        var found := FindById(old(trackings), id);
        && trackings == RemoveId(old(trackings), id)
        && id !in Ids(trackings)
        && selected == None
        && lastSave == Some(Saved(trackings, old(selected)))
        && (sent.Some? <==> found.Some? && old(trackings)[found.value].isTracking)
        && (sent.Some? ==> sent.value == StopTracking(id))
        && trackingElements.Keys == Ids(trackings)
    {
      sent := None;
      if !Truthy(selected) || !confirmed {
        return;
      }
      var id := selected.value;
      var found := FindById(trackings, id);
      if found.Some? && trackings[found.value].isTracking {
        sent := Some(StopTracking(id));
      }
      RemoveIdIds(trackings, id);
      trackings := RemoveId(trackings, id);
      Save();
      selected := None;
      RenderTrackingsList();
    }

    /** `toggleTracking`: flips the target's flag and sends START or STOP for it. */
    method ToggleTracking() returns (sent: Option<Message>)
      requires Valid()
      modifies this
      ensures Valid()
      ensures ActionTarget(old(trackings), old(selected)).None? ==>
        sent == None && trackings == old(trackings) && lastSave == old(lastSave) &&
        ListPane() == old(ListPane()) && GridPane() == old(GridPane())
      ensures ActionTarget(old(trackings), old(selected)).Some? ==>
        var i := ActionTarget(old(trackings), old(selected)).value;
        var t := old(trackings)[i];
        && trackings == old(trackings)[i := t.(isTracking := !t.isTracking)]
        && sent == Some(ToggleMessage(t))
        && ActiveCount(trackings) == ActiveCount(old(trackings)) + (if t.isTracking then -1 else 1)
        && lastSave == Some(Saved(trackings, selected))
        && InView()
      ensures selected == old(selected)
    {
      var target := ActionTarget(trackings, selected);
      if target.None? {
        return None;
      }
      var i := target.value;
      var t := trackings[i];
      ToggleMovesActiveCount(trackings, i);
      trackings := trackings[i := t.(isTracking := !t.isTracking)];
      sent := Some(ToggleMessage(t));
      SaveAndRender();
    }

    /** `refreshNow`: REFRESH_NOW for the target, if any. */
    method RefreshNow() returns (sent: Option<Message>)
      ensures ActionTarget(trackings, selected).None? ==> sent == None
      ensures ActionTarget(trackings, selected).Some? ==>
        var t := trackings[ActionTarget(trackings, selected).value];
        sent == Some(Message.RefreshNow(t.id, t.url))
    {
      var target := ActionTarget(trackings, selected);
      if target.None? {
        return None;
      }
      var t := trackings[target.value];
      sent := Some(Message.RefreshNow(t.id, t.url));
    }

    /** `openPage`: the url of the tab opened for the target, if any. */
    method OpenPage() returns (openedUrl: Option<string>)
      ensures openedUrl.Some? <==> ActionTarget(trackings, selected).Some?
      ensures openedUrl.Some? ==> openedUrl.value == trackings[ActionTarget(trackings, selected).value].url
    {
      var target := ActionTarget(trackings, selected);
      if target.None? {
        return None;
      }
      openedUrl := Some(trackings[target.value].url);
    }

    /** `clearSnapshots`, given the answer to the confirmation dialog. */
    method ClearSnapshots(confirmed: bool)
      requires Valid()
      modifies this`trackings, this`lastSave, this`snapshotElements, this`gridShown, this`nextElement
      ensures Valid() && selected == old(selected)
      ensures !confirmed || ActionTarget(old(trackings), old(selected)).None? ==>
        trackings == old(trackings) && lastSave == old(lastSave) &&
        ListPane() == old(ListPane()) && GridPane() == old(GridPane())
      ensures confirmed && ActionTarget(old(trackings), old(selected)).Some? ==>
        var i := ActionTarget(old(trackings), old(selected)).value;
        && trackings == old(trackings)[i := old(trackings)[i].(snapshots := Some([]), changeCount := Some(0))]
        && TotalChanges(trackings) == TotalChanges(old(trackings)) - CountOf(old(trackings)[i])
        && ActiveCount(trackings) == ActiveCount(old(trackings))
        && lastSave == Some(Saved(trackings, selected))
        && snapshotElements == map[] && gridShown == {}
    {
      if !confirmed {
        return;
      }
      var target := ActionTarget(trackings, selected);
      if target.None? {
        return;
      }
      var i := target.value;
      ClearRecord(i);
      RenderEmpty(GridPane());
      assert NewestFirst(SnapshotsOf(trackings[i])) == [];
      RenderTrackingDetails();
    }

    /** The edit and save of `clearSnapshots`: record `i` loses its history. */
    method ClearRecord(i: nat)
      requires i < |trackings|
      modifies this`trackings, this`lastSave
      ensures trackings == old(trackings)[i := old(trackings)[i].(snapshots := Some([]), changeCount := Some(0))]
      ensures TotalChanges(trackings) == TotalChanges(old(trackings)) - CountOf(old(trackings)[i])
      ensures ActiveCount(trackings) == ActiveCount(old(trackings))
      ensures SelectedIn(trackings, selected) == SelectedIn(old(trackings), selected)
      ensures lastSave == Some(Saved(trackings, selected))
    {
      var cleared := trackings[i].(snapshots := Some([]), changeCount := Some(0));
      ClearMovesTotal(trackings, i);
      EditKeepsSelection(trackings, i, cleared, selected);
      trackings := trackings[i := cleared];
      Save();
    }

    /** `loadTrackings`: `stored`/`storedSelection` are the two keys read from
        storage; when the registry is empty, `legacy` is the single-page data read
        next and `host` the hostname of its URL. */
    method LoadTrackings(stored: Option<seq<Tracking>>, storedSelection: Option<string>,
                         legacy: Legacy, host: string, now: int)
      requires Valid()
      modifies this`trackings, this`selected, this`lastSave, this`trackingElements,
               this`listShown, this`snapshotElements, this`gridShown, this`nextElement
      ensures Valid() && InView()
      ensures GetOr(stored, []) != [] ==>
        trackings == GetOr(stored, []) && selected == Normalized(storedSelection) &&
        lastSave == old(lastSave)
      ensures GetOr(stored, []) == [] && !Truthy(legacy.currentTrackedUrl) ==>
        trackings == [] && selected == Normalized(storedSelection) && lastSave == old(lastSave)
      ensures GetOr(stored, []) == [] && Truthy(legacy.currentTrackedUrl) ==>
        var m := MigratedRecord(legacy, host, now, GetOr(legacy.changeCount, 0),
                                GetOr(legacy.snapshots, []));
        && trackings == [m]
        && selected == Some(m.id)
        && lastSave == Some(Saved(trackings, selected))
    {
      trackings := GetOr(stored, []);
      selected := Normalized(storedSelection);
      if |trackings| == 0 {
        if Truthy(legacy.currentTrackedUrl) {
          var m := MigratedRecord(legacy, host, now, GetOr(legacy.changeCount, 0),
                                  GetOr(legacy.snapshots, []));
          AdoptMigrated(m);
        } else {
          RenderTrackingsList();
        }
      } else {
        RenderTrackingsList();
        if Truthy(selected) {
          RenderTrackingDetails();
        }
      }
    }

    /** The migration branch of `loadTrackings`: the migrated record becomes the
        whole registry and the selection, is saved, and both panes are rendered. */
    method AdoptMigrated(m: Tracking)
      requires Valid()
      modifies this`trackings, this`selected, this`lastSave, this`trackingElements,
               this`listShown, this`snapshotElements, this`gridShown, this`nextElement
      ensures Valid() && InView()
      ensures trackings == [m] && selected == Some(m.id)
      ensures lastSave == Some(Saved(trackings, selected))
    {
      trackings := [m];
      selected := Some(m.id);
      Save();
      RenderTrackingsList();
      RenderTrackingDetails();
    }

    /** The storage listener, for a change of the `trackings` key to `newValue`. */
    method OnStorageChanged(newValue: Option<seq<Tracking>>)
      requires Valid()
      modifies this`trackings, this`trackingElements, this`listShown, this`snapshotElements,
               this`gridShown, this`nextElement
      ensures Valid()
      ensures trackings == GetOr(newValue, [])
      ensures trackingElements.Keys == Ids(trackings)
      ensures Truthy(selected) ==> InView()
    {
      trackings := GetOr(newValue, []);
      RenderTrackingsList();
      if Truthy(selected) {
        RenderTrackingDetails();
      }
    }
  }
}
