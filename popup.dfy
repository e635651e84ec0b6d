/** The toolbar popup: finds the tracking of the page in the active tab, shows
    the active count and the change total, and creates or updates that tracking
    from the quick-track switch. */
module Popup {
  import opened Js
  import opened Registry
  import Content

  /** The popup's `find` predicate. `currentUrl` is the active tab's URL, if
      known; `host` is the hostname of `currentUrl || 'http://localhost'`. */
  predicate PageMatches(t: Tracking, currentUrl: Option<string>, host: string)
  {
    || (currentUrl.Some? && t.url == currentUrl.value)
    || (currentUrl.Some? && IsPrefix(t.url, currentUrl.value))
    || Contains(t.url, host)
  }

  /** `new URL(this.currentUrl || 'http://localhost').hostname`, where
      `host` is the hostname of the current URL when there is one. */
  function LookupHost(currentUrl: Option<string>, host: string): (h: string)
    ensures !Truthy(currentUrl) ==> h == "localhost"
  {
    if Truthy(currentUrl) then host else "localhost"
  }

  /** The tracking of the current page: the first record, active or not, that matches. */
  function CurrentTracking(ts: seq<Tracking>, currentUrl: Option<string>, host: string): (r: Option<nat>)
    ensures r.Some? ==> r.value < |ts| && PageMatches(ts[r.value], currentUrl, host)
    ensures r.Some? ==> forall j | 0 <= j < r.value :: !PageMatches(ts[j], currentUrl, host)
    ensures r.None? ==> forall j | 0 <= j < |ts| :: !PageMatches(ts[j], currentUrl, host)
  {
    Find(ts, (t: Tracking) => PageMatches(t, currentUrl, host))
  }

  /** On a known page the popup and the page script use the same URL test. */
  lemma PageMatchesIsUrlMatches(t: Tracking, url: string, host: string)
    ensures PageMatches(t, Some(url), host) <==> UrlMatches(t.url, url, host)
  {
  }

  /** When the popup's tracking for a page is active, it is the record the page
      script checks on that page. */
  lemma {:induction false} PopupAndPageScriptAgree(ts: seq<Tracking>, url: string, host: string)
    requires CurrentTracking(ts, Some(url), host).Some?
    requires ts[CurrentTracking(ts, Some(url), host).value].isTracking
    ensures Content.MatchedTracking(ts, url, host) == CurrentTracking(ts, Some(url), host)
  {
    var i := CurrentTracking(ts, Some(url), host).value;
    assert Content.Matches(ts[i], url, host);
  }

  /** The positions below `n` that hold an active record. */
  function ActivePositions(ts: seq<Tracking>, n: nat): set<nat>
    requires n <= |ts|
  {
    set j: nat | j < n && ts[j].isTracking
  }

  /** The number of active records among the first `n`, counted over positions. */
  lemma {:induction false} ActivePrefixCountsPositions(ts: seq<Tracking>, n: nat)
    requires n <= |ts|
    ensures ActiveCount(ts[..n]) == |ActivePositions(ts, n)|
  {
    if n > 0 {
      var m := n - 1;
      ActivePrefixCountsPositions(ts, m);
      assert ts[..n] == ts[..m] + [ts[m]];
      ActiveCountAppend(ts[..m], [ts[m]]);
      ActiveCountSingle(ts[m]);
      if ts[m].isTracking {
        assert ActivePositions(ts, n) == ActivePositions(ts, m) + {m};
      } else {
        assert ActivePositions(ts, n) == ActivePositions(ts, m);
      }
    }
  }

  /** The number of active records, counted over positions. */
  lemma ActiveCountCountsPositions(ts: seq<Tracking>)
    ensures ActiveCount(ts) == |set j | 0 <= j < |ts| && ts[j].isTracking|
  {
    ActivePrefixCountsPositions(ts, |ts|);
    assert ts[..|ts|] == ts;
    assert (set j | 0 <= j < |ts| && ts[j].isTracking) == ActivePositions(ts, |ts|);
  }

  /** The message the switch sends for an existing record. */
  function SwitchMessage(id: string, url: string, checked: bool, min: int, max: int): (m: Message)
    ensures m.StartTracking? <==> checked
    ensures m.trackingId == id
  {
    if checked then StartTracking(id, url, min, max) else StopTracking(id)
  }

  class PopupController {
    var currentUrl: Option<string>
    /** The position in `allTrackings` of the record `currentTracking` refers to. */
    var currentTracking: Option<nat>
    var allTrackings: seq<Tracking>
    /** The last registry written to storage, and the selection written with it. */
    var lastSave: Option<seq<Tracking>>
    var savedSelection: Option<string>

    ghost predicate Valid()
      reads this
    {
      currentTracking.Some? ==> currentTracking.value < |allTrackings|
    }

    constructor ()
      ensures Valid() && currentUrl == None && currentTracking == None && allTrackings == []
      ensures lastSave == None && savedSelection == None
    {
      currentUrl, currentTracking, allTrackings := None, None, [];
      lastSave, savedSelection := None, None;
    }

    /** `loadTrackings`: `stored` is the `trackings` key read from storage, `host`
        the hostname of the current URL. */
    method LoadTrackings(stored: Option<seq<Tracking>>, host: string)
      modifies this`allTrackings, this`currentTracking
      ensures Valid()
      ensures allTrackings == GetOr(stored, [])
      ensures currentTracking == CurrentTracking(allTrackings, currentUrl, LookupHost(currentUrl, host))
    {
      allTrackings := GetOr(stored, []);
      currentTracking := CurrentTracking(allTrackings, currentUrl, LookupHost(currentUrl, host));
    }

    /** `loadCurrentPage`: `tabUrl` is the URL of the active tab, if there is one. */
    method LoadCurrentPage(tabUrl: Option<string>, stored: Option<seq<Tracking>>, host: string)
      requires Valid()
      modifies this`currentUrl, this`allTrackings, this`currentTracking
      ensures Valid()
      ensures tabUrl.None? ==>
        currentUrl == old(currentUrl) && allTrackings == old(allTrackings) &&
        currentTracking == old(currentTracking)
      ensures tabUrl.Some? ==>
        && currentUrl == tabUrl
        && allTrackings == GetOr(stored, [])
        && currentTracking == CurrentTracking(allTrackings, currentUrl, LookupHost(currentUrl, host))
    {
      if tabUrl.None? {
        return;
      }
      currentUrl := tabUrl;
      LoadTrackings(stored, host);
    }

    /** `updateUI`: the switch shows `currentTracking?.isTracking || false`. */
    function IsTrackingShown(): (b: bool)
      requires Valid()
      reads this
      ensures currentTracking.None? ==> !b
      ensures b <==> currentTracking.Some? && allTrackings[currentTracking.value].isTracking
    {
      currentTracking.Some? && allTrackings[currentTracking.value].isTracking
    }

    /** `renderActiveTrackings`: the count shown is the number of active records. */
    function ActiveShown(): (n: nat)
      reads this
      ensures n == |set j | 0 <= j < |allTrackings| && allTrackings[j].isTracking|
      ensures n <= |allTrackings|
    {
      ActiveCountCountsPositions(allTrackings);
      ActiveTrackingsMeaning(allTrackings);
      ActiveCount(allTrackings)
    }

    /** `updateStats`: the total shown is the sum of the counts, missing ones as 0. */
    function TotalShown(): (n: int)
      reads this
      ensures n == CountSum(allTrackings)
      ensures (forall j | 0 <= j < |allTrackings| :: CountOf(allTrackings[j]) >= 0) ==> n >= 0
    {
      TotalChangesIsSum(allTrackings);
      TotalChanges(allTrackings)
    }

    /** `toggleQuickTrack`: `checked` is the switch, `minIn`/`maxIn` the parsed
        interval inputs, `host` the hostname of the current URL. Returns the
        message sent once storage is written. */
    method ToggleQuickTrack(checked: bool, minIn: Option<int>, maxIn: Option<int>,
                            host: string, now: int) returns (sent: Option<Message>)
      requires Valid()
      modifies this`allTrackings, this`lastSave, this`savedSelection
      ensures Valid() && currentTracking == old(currentTracking)
      ensures !Truthy(currentUrl) ==>
        sent == None && allTrackings == old(allTrackings) && lastSave == old(lastSave) &&
        savedSelection == old(savedSelection)
      ensures Truthy(currentUrl) && currentTracking.Some? ==>
        var i := currentTracking.value;
        var t := old(allTrackings)[i];
        var min, max := OrDefault(minIn, DefaultMin), OrDefault(maxIn, DefaultMax);
        && allTrackings == old(allTrackings)[i := t.(isTracking := checked, minInterval := min,
                                                     maxInterval := max)]
        && lastSave == Some(allTrackings) && savedSelection == old(savedSelection)
        && sent == Some(SwitchMessage(t.id, t.url, checked, min, max))
        && ActiveCount(allTrackings) == ActiveCount(old(allTrackings)) - Flag(t.isTracking) + Flag(checked)
        && TotalChanges(allTrackings) == TotalChanges(old(allTrackings))
      ensures Truthy(currentUrl) && currentTracking.None? && !checked ==>
        sent == None && allTrackings == old(allTrackings) && lastSave == old(lastSave) &&
        savedSelection == old(savedSelection)
      ensures Truthy(currentUrl) && currentTracking.None? && checked ==>
        var min, max := OrDefault(minIn, DefaultMin), OrDefault(maxIn, DefaultMax);
        var t := NewTracking(NewId(now), currentUrl.value, host, true, min, max, 0, []);
        && allTrackings == old(allTrackings) + [t]
        && lastSave == Some(allTrackings) && savedSelection == Some(t.id)
        && sent == Some(StartTracking(t.id, t.url, min, max))
        && ActiveCount(allTrackings) == ActiveCount(old(allTrackings)) + 1
        && TotalChanges(allTrackings) == TotalChanges(old(allTrackings))
    {
      var min := OrDefault(minIn, DefaultMin);
      var max := OrDefault(maxIn, DefaultMax);
      if !Truthy(currentUrl) {
        return None;
      }
      if currentTracking.Some? {
        var m := UpdateCurrent(checked, min, max);
        sent := Some(m);
      } else if checked {
        var m := AddCurrent(host, now, min, max);
        sent := Some(m);
      } else {
        sent := None;
      }
    }

    /** The existing record takes the switch and the interval; the registry is saved. */
    method UpdateCurrent(checked: bool, min: int, max: int) returns (sent: Message)
      requires Valid() && currentTracking.Some?
      modifies this`allTrackings, this`lastSave
      ensures Valid()
      ensures
        var i := currentTracking.value;
        var t := old(allTrackings)[i];
        && allTrackings == old(allTrackings)[i := t.(isTracking := checked, minInterval := min,
                                                     maxInterval := max)]
        && lastSave == Some(allTrackings)
        && sent == SwitchMessage(t.id, t.url, checked, min, max)
        && ActiveCount(allTrackings) == ActiveCount(old(allTrackings)) - Flag(t.isTracking) + Flag(checked)
        && TotalChanges(allTrackings) == TotalChanges(old(allTrackings))
    {
      var i := currentTracking.value;
      var t := allTrackings[i];
      var updated := t.(isTracking := checked, minInterval := min, maxInterval := max);
      ActiveCountUpdate(allTrackings, i, updated);
      TotalChangesUpdate(allTrackings, i, updated);
      allTrackings := allTrackings[i := updated];
      lastSave := Some(allTrackings);
      sent := SwitchMessage(t.id, t.url, checked, min, max);
    }

    /** A new active record for the current URL is appended, saved and selected. */
    method AddCurrent(host: string, now: int, min: int, max: int) returns (sent: Message)
      requires Valid() && Truthy(currentUrl)
      modifies this`allTrackings, this`lastSave, this`savedSelection
      ensures Valid()
      ensures
        var t := NewTracking(NewId(now), currentUrl.value, host, true, min, max, 0, []);
        && allTrackings == old(allTrackings) + [t]
        && lastSave == Some(allTrackings) && savedSelection == Some(t.id)
        && sent == StartTracking(t.id, t.url, min, max)
        && ActiveCount(allTrackings) == ActiveCount(old(allTrackings)) + 1
        && TotalChanges(allTrackings) == TotalChanges(old(allTrackings))
    {
      var t := NewTracking(NewId(now), currentUrl.value, host, true, min, max, 0, []);
      ActiveCountAppend(allTrackings, [t]);
      ActiveCountSingle(t);
      TotalChangesAppend(allTrackings, [t]);
      allTrackings := allTrackings + [t];
      lastSave := Some(allTrackings);
      savedSelection := Some(t.id);
      sent := StartTracking(t.id, t.url, min, max);
    }
  }
}
