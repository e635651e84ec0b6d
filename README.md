# page-tracker, modelled in Dafny

Page Tracker is a browser extension that watches web pages for changes. The user
keeps a registry of *trackings*: a URL, an active flag, a random refresh interval
`[minInterval, maxInterval]` in seconds, a change count and the 20 newest
snapshots. The parts are:

- **Background service (`background.js`).** For every active tracking it keeps
  one refresh timer and one countdown. It reloads the page when the timer fires.
  It starts and stops timers when the stored registry changes. On a reported
  change it bumps the change count and saves a screenshot.
- **Page script (`content.js`).** It runs in every page. It hashes the page text
  with a 32-bit rolling hash and looks up the first active tracking that
  matches the page. If a hash was stored there and differs from the new one,
  it reports a change. It always stores the new hash on the matched tracking.
- **Dashboard (`dashboard.js`).** The user adds, deletes, starts/stops, refreshes
  and clears trackings here. It reconciles the list of trackings and the
  snapshot grid of the selected tracking against element maps.
- **Popup (`popup.js`).** It finds the tracking of the current page, shows the
  number of active trackings and the total change count, and has a quick-track
  switch.

## Files and modules

| file | module | what it holds |
|---|---|---|
| `js.dfy` | `Js` | JavaScript semantics the core relies on: `\|0` (Wrap32), `Number#toString` (DecimalString, injective), `startsWith`, `includes`, `parseInt(..) \|\| d`, truthiness of strings, `Array#find` |
| `registry.dfy` | `Registry` | the stored records (`Tracking`, `Snapshot`), the runtime messages, lookups by id, the active count and the change total, single-record edits, the single-page legacy format and its migrated record, the URL match |
| `content.dfy` | `Content` | the hash loop and the change check |
| `background.dfy` | `Background` | interval choice, snapshot history, the storage-change diff, the install migration; classes `TimerPair` and `TrackerService` |
| `dashboard.dfy` | `Dashboard` | element-map reconciliation (`Pane`, `Render`), registry edits; class `MultiPageTracker` |
| `popup.dfy` | `Popup` | the page lookup and the statistics; class `PopupController` |

Platform facts become parameters, because they come from the browser or from a
clock:

- the hostname of a URL (`host`) and whether `new URL` accepts it (`validUrl`);
- the answer of `confirm` (`confirmed`);
- the value `Math.random()` returned (`r`, a real in [0, 1));
- `Date.now()` (`now`);
- the tab id a lookup obtained;
- the data URL a capture produced.

Storage reads are parameters too. In the background service, the persisted
registry is the field `TrackerService.store`, and each read-modify-write of
the `trackings` key is one update of that field. A write by the dashboard or
the popup reaches the service only through the storage-change event it fires,
so `TrackerService.OnStorageChanged` begins with that write: the written
registry becomes `store`, and the listener's old value is the `store` before it.
The service's own writes fire the same event. `TrackerService.OnInstalled` runs
the listener after its write. The record edits (countdown, change count,
snapshot) keep every record's id and flag in place, so over unique ids the
listener stops and starts nothing for them (`ServiceWritesAreSilent`). Timers are `TimerPair`
objects. A refresh timer is `timerPending`, a countdown is `countdownRunning`,
and the countdown closure's captured variables are the pair's own fields.

## Model

| member | source | states |
|---|---|---|
| Js.Wrap32 | content.js:18 | `hash \|= 0`: the result is the signed 32-bit value congruent to its argument modulo 2^32 |
| Js.Wrap32Unique | content.js:18 | the signed 32-bit value congruent to x is unique, so any such value is Wrap32(x) |
| Js.DecimalStringInjective | content.js:20 | two hashes print to the same decimal string only if they are equal |
| Js.ContainsHasPosition | content.js:40 | `includes` holds exactly when the substring occurs at some position |
| Js.OrDefault | popup.js:168-169 | `parseInt(v) \|\| d`: a missing or zero parse gives the default, any other parse is kept |
| Js.Find | content.js:36-41 | `find`: the index returned is the first element satisfying the predicate; none means no element does |
| Registry.NewId | dashboard.js:88 | a new id is `tracking_` followed by at least one character |
| Registry.NewTracking | dashboard.js:87-98 | a fresh record has no stored hash, no countdown and no last refresh |
| Registry.FindById | background.js:243 | the first record with the id, or none when no record has it |
| Registry.ActiveTrackings | popup.js:122 | `filter(t => t.isTracking)`: the active records in registry order; what it keeps is stated by ActiveTrackingsMeaning |
| Registry.ActiveTrackingsMeaning | popup.js:122 | the filtered list holds exactly the active records of the registry |
| Registry.ActiveCountAppend | popup.js:122 | the active count of a concatenation is the sum of the counts |
| Registry.ActiveCountUpdate | popup.js:122 | replacing one record moves the active count by the change in that record's flag |
| Registry.ActiveCountExtremes | popup.js:122 | the count equals the length iff all records are active, and is 0 iff none is |
| Registry.TotalChanges | popup.js:149 | `reduce((sum, t) => sum + (t.changeCount \|\| 0), 0)`, a left fold; TotalChangesIsSum relates it to the plain sum |
| Registry.TotalChangesAppend | popup.js:149 | the change total of a concatenation is the sum of the totals |
| Registry.TotalChangesUpdate | popup.js:149 | replacing one record moves the total by the change in that record's count |
| Registry.TotalChangesIsSum | popup.js:149 | the left fold with missing counts as 0 equals the plain sum of counts, and is non-negative when every count is |
| Registry.UpdateById | background.js:240-249 | the read-modify-write of one record: `find` by id, edit that record, write the whole registry back; unchanged when no record has the id |
| Registry.SetTimeLeft | background.js:240-249 | `updateTrackingTimeLeft`: the found record's `timeLeft` becomes the value; SetTimeLeftEffect states the frame |
| Registry.ChangeCountBumped | background.js:326-342 | `incrementChangeCount`: the found record's count becomes `(changeCount \|\| 0) + 1`; ChangeCountBumpedEffect states the frame |
| Registry.UrlMatches | content.js:38-40 | the URL test shared by the page script and the popup: equality, `startsWith`, or the record URL containing the hostname |
| Registry.UpdateByIdFrame | background.js:240-249 | an edit by id touches only the first record with that id, or nothing if there is none, and keeps the set of ids |
| Registry.SetTimeLeftEffect | background.js:240-249 | `updateTrackingTimeLeft` changes only the found record's timeLeft and keeps the ids, the active count and the total |
| Registry.ChangeCountBumpedEffect | background.js:326-342 | `incrementChangeCount` adds 1 to the found record's count (missing as 0), so the total grows by exactly 1, and changes nothing if the id is absent |
| Registry.MigratedRecord | dashboard.js:208-219 | the migrated record keeps the legacy URL, gets interval 30-60, and is active only when the legacy flag was true |
| Content.HashOf | content.js:12-21 | the hash as a left fold of the 32-bit step over the code units; HashIsPolyMod32 gives its closed form |
| Content.StepIsTimes31 | content.js:17-18 | `((h << 5) - h) + c` with its two 32-bit wraps is 31h + c reduced to 32 bits |
| Content.HashIsPolyMod32 | content.js:12-21 | the hash is the polynomial sum of c[i]·31^(n-1-i), reduced to 32 bits once at the end |
| Content.PageContentHash | content.js:12-21 | the loop returns the decimal string of the polynomial hash; an empty or missing body hashes to "0" |
| Content.Matches | content.js:36-41 | the `find` predicate of the page script: an active record whose URL matches the page |
| Content.MatchedTracking | content.js:36-41 | the tracking checked is the first active record whose URL matches the page by equality, prefix or hostname |
| Content.Signals | content.js:50 | `lastHash && lastHash !== currentHash`: a change is reported only when a non-empty hash was stored and differs |
| Content.SignalsIffHashesDiffer | content.js:50 | once a hash is stored, a change is reported exactly when the new hash differs |
| Content.CheckChange | content.js:24-63 | no match gives no message and no write; otherwise the new hash is written into exactly the matched record, and CONTENT_CHANGED is sent iff a stored hash exists and differs |
| Content.RecheckIsSilent | content.js:50-62 | after the write-back the same record still matches, and the same text checked again does not signal |
| Background.IntervalSeconds | background.js:177 | the interval lies in [min, max] when min <= max (in [max+1, min] otherwise) |
| Background.CaptureAccepted | background.js:278-286 | a capture is used only when it did not fail and its data URL is present, non-empty and at least 1000 characters long |
| Background.Pushed | background.js:312-318 | the new snapshot is last, the oldest is dropped only when 20 were already kept, and a history of at most 20 stays at most 20 |
| Background.PushAllKeepsNewest | background.js:312-318 | from a history of at most 20 snapshots, any run of saves leaves exactly the 20 newest snapshots of everything saved |
| Background.TwentyFiveSaves | tests/unit-tests.js:412-426 | twenty-five saves into an empty history keep 20, the first with timestamp 5 |
| Background.WithSnapshot | background.js:306-324 | `saveSnapshot`'s read-modify-write: the found record's history becomes Pushed of it and its lastRefresh the timestamp |
| Background.WithSnapshotEffect | background.js:306-324 | `saveSnapshot` changes only the found record: its history gains the snapshot and its lastRefresh is the timestamp; the active count and total are unchanged |
| Background.StopIds | background.js:63-69 | the ids the first pass stops, in the order of the old registry; StopIdsMeaning characterises them |
| Background.StartIds | background.js:71-79 | the ids the second pass starts, in the order of the new registry; StartIdsMeaning characterises them |
| Background.ActiveIdsOutside | background.js:15-25 | the ids loading starts, in registry order; ActiveIdsOutsideMeaning characterises them |
| Background.StopIdsMeaning | background.js:63-69 | the ids stopped are exactly those of old records that were active and are now missing or inactive |
| Background.StartIdsMeaning | background.js:71-79 | the ids started are exactly those of new records that became active and have no timer |
| Background.ActiveIdsOutsideMeaning | background.js:15-25 | on load, the ids started are exactly the active stored records without a timer |
| Background.ClearTimeLeftsKeeps | background.js:139-142 | clearing countdowns in storage keeps the ids, the active count and the change total |
| Background.InstalledMigrationAsWritten | background.js:373-395 | as written, the install handler writes a one-record registry exactly when a legacy URL is present, whatever registry is stored |
| Background.InstalledMigrationAsWrittenLosesTrackings | background.js:375-376 | as written, a stored registry of two or more records is replaced by a single record |
| Background.InstalledMigrationAsWrittenStopsActive | background.js:57-82 | as written, the listener run that follows the overwrite stops every active tracking of the replaced registry whose id is not the migrated one |
| Background.InstalledMigration | background.js:373-395 | as intended, a non-empty registry is never overwritten, and a registry is written only when none exists and a legacy URL does |
| Background.TimerPair.constructor | background.js:205-211 | a new pair is pending and counting down, from the chosen number of seconds |
| Background.TimerPair.Cancel | background.js:127-135 | `clearTimeout` and `clearInterval`: neither the refresh timer nor the countdown is live afterwards |
| Background.TimerPair.Tick | background.js:185-202 | the countdown drops by the whole seconds elapsed; it writes the new positive value, or 0 and stops when time runs out |
| Background.TrackerService.constructor | background.js:3-7 | the service starts with no trackings and no timers |
| Background.TrackerService.OneLivePairPerId | background.js:170-175 | under the service invariant, two live timer pairs for the same id are the same pair |
| Background.TrackerService.UpdateTrackingTimeLeft | background.js:240-249 | the store becomes SetTimeLeft of the old store |
| Background.TrackerService.StopTracking | background.js:123-143 | the id's pair is cleared and forgotten, its entry removed, its stored countdown cleared; every other pair is untouched |
| Background.TrackerService.ScheduleNextRefresh | background.js:166-212 | for a scheduled id, any old pair is cleared and replaced by one fresh live pair of IntervalSeconds(min,max,r) seconds, and that value is stored; otherwise nothing changes |
| Background.TrackerService.StartTracking | background.js:84-96 | a start is suppressed when the id has a timer; otherwise the id is stopped first and a tab lookup is issued |
| Background.TrackerService.OnStartTab | background.js:97-120 | without a tab, or when a timer appeared meanwhile, nothing changes; otherwise the id is scheduled and gets one fresh live pair of IntervalSeconds seconds, the store records that countdown, and every pair issued before is untouched |
| Background.TrackerService.OnTimerFire | background.js:205-209 | firing clears the countdown, drops the pair from the map and begins a refresh of the captured URL for a still-scheduled id |
| Background.TrackerService.RefreshPage | background.js:214-220 | a refresh is begun only for a scheduled id, for the URL given |
| Background.TrackerService.OnReloaded | background.js:229-236 | after a reload a still-scheduled id is re-armed: its old pair is cancelled, one fresh pair from its own interval, started at the reload time, replaces it, the store records the new countdown, and the pairs of other ids are untouched; an unscheduled id changes nothing |
| Background.TrackerService.CountdownTick | background.js:185-202 | one countdown run lowers timeLeft by the whole seconds elapsed since the last update (when at least one has); it stores the new value while positive, stores 0 and stops the countdown when time has run out, and otherwise writes nothing; the service invariant is kept |
| Background.TrackerService.IncrementChangeCount | background.js:326-342 | the total grows by 1 and CHANGE_DETECTED is sent exactly when the id is stored |
| Background.TrackerService.SaveSnapshot | background.js:306-324 | the store becomes WithSnapshot of the old store |
| Background.TrackerService.HandleContentChange | background.js:251-272 | a change for an unscheduled id or without a tab does nothing; otherwise a capture of the scheduled URL begins and the count is bumped |
| Background.TrackerService.OnCaptured | background.js:274-304 | a failed, missing or shorter-than-1000 capture saves and notifies nothing; a good one is downloaded, saved into the history and notified |
| Background.TrackerService.StopInactive | background.js:63-69 | the first pass stops exactly StopIds: their timers and entries are gone and all other pairs are untouched |
| Background.TrackerService.StartActivated | background.js:71-79 | the second pass starts exactly StartIds for the ids without a timer and creates no timer itself |
| Background.ListenerIgnoresRecordEdits | background.js:57-82 | a write that keeps every record's id and flag in place, over unique ids, gives the listener nothing to stop and nothing to start |
| Background.ServiceWritesAreSilent | background.js:240-249 | the countdown, change-count and snapshot edits of a registry with unique ids leave StopIds and StartIds empty |
| Background.TrackerService.OnStorageChanged | background.js:57-82 | the written registry becomes the store; the listener stops exactly StopIds of the old and new registries and starts exactly StartIds, their countdowns are cleared in the new registry, no old record that went inactive keeps a timer or an entry, and pairs of ids not stopped are untouched |
| Background.TrackerService.LoadTrackings | background.js:15-25 | loading starts exactly the active stored records that have no timer, in registry order |
| Background.TrackerService.OnMessage | background.js:27-55 | each action has its handler's effect: START is ignored when a timer exists and otherwise forgets the id, clears its stored countdown and asks for a tab; STOP cancels and forgets the id's pair and entry and clears its countdown, touching no other pair; REFRESH_NOW asks for a tab exactly for a scheduled id; CONTENT_CHANGED captures and bumps the count exactly for a scheduled id with a tab; only STOP changes the timers |
| Background.TrackerService.OnInstalled | background.js:373-395 | installing never overwrites a non-empty registry and then changes nothing; when it migrates, the listener run over its write stops nothing, keeps every timer, and starts the migrated tracking exactly when its legacy flag was set and it has no timer, clearing its countdown |
| Dashboard.AttachMissing | dashboard.js:283-293 | the create-or-reuse pass over the keys in order; the handle counter only grows |
| Dashboard.DropStale | dashboard.js:295-302 | the removal pass: keys outside the current set are deleted and their elements detached |
| Dashboard.AttachMissingKeeps | dashboard.js:283-293 | the create-or-reuse pass maps every current key, keeps the elements of keys already mapped, and gives new keys elements created during the pass |
| Dashboard.AttachMissingValid | dashboard.js:283-293 | the create-or-reuse pass keeps the pane consistent: every element is mapped by one key and shown |
| Dashboard.DropStaleEffect | dashboard.js:295-302 | the removal pass keeps exactly the current keys and detaches the elements of the others |
| Dashboard.RenderAsWritten | dashboard.js:270-303 | a render as written: an empty key list only detaches every element (`innerHTML = ''`) and keeps the map; otherwise reuse, then removal. The grid render (dashboard.js:405-444) has the same shape |
| Dashboard.Render | dashboard.js:270-303 | the render as evidently intended: the empty list goes through the same reconciliation, so the map is emptied with the container |
| Dashboard.RenderEffect | dashboard.js:270-303 | after a render the map holds exactly the current keys, every element is shown, and surviving keys keep their elements |
| Dashboard.RenderAsWrittenDetaches | dashboard.js:274-278 | as written, an empty list leaves every mapped element detached from the container |
| Dashboard.RenderAsWrittenLosesCard | dashboard.js:409-434 | as written, a card hidden by an empty list and asked for again stays mapped but is never shown |
| Dashboard.IdList | dashboard.js:296 | the list keys are the records' ids, in order |
| Dashboard.NewestFirst | dashboard.js:418 | the grid keys are the snapshot timestamps, in reverse order |
| Dashboard.NewestFirstStamps | dashboard.js:418-437 | the set of grid keys is exactly the set of snapshot timestamps |
| Dashboard.SelectedIn | dashboard.js:351 | the selected record has the selected id; none means no record has it |
| Dashboard.ActionTarget | dashboard.js:137-140 | the buttons act on nothing unless the selection is truthy, and then on the selected record |
| Dashboard.RemoveId | dashboard.js:128 | `trackings.filter(t => t.id !== id)`, in order; RemoveIdMeaning states what it keeps |
| Dashboard.RemoveIdMeaning | dashboard.js:128 | the filter keeps exactly the records whose id differs, and never lengthens the registry |
| Dashboard.RemoveIdAppend | dashboard.js:128 | the filter keeps the surviving records in order |
| Dashboard.RemoveIdIds | dashboard.js:128 | deleting removes exactly that id from the set of ids |
| Dashboard.RemoveIdAbsent | dashboard.js:128 | deleting an id no record has leaves the registry unchanged |
| Dashboard.RemoveIdActiveCount | dashboard.js:128 | deleting never raises the active count |
| Dashboard.AddedRecord | dashboard.js:78-98 | the added record is inactive, with no changes and no snapshots, and with the parsed or default interval |
| Dashboard.AddedRecordKeepsStats | dashboard.js:87-100 | appending it moves neither the active count nor the change total |
| Dashboard.ToggleMessage | dashboard.js:142-151 | START is sent iff the record was inactive, always for the record's id |
| Dashboard.ToggleMovesActiveCount | dashboard.js:142-143 | flipping one flag moves the active count by exactly one |
| Dashboard.ClearMovesTotal | dashboard.js:186-187 | clearing one record takes exactly its count off the total and keeps the active count |
| Dashboard.EditKeepsSelection | dashboard.js:184-187 | an edit that keeps a record's id leaves the selection on the same record |
| Dashboard.Normalized | dashboard.js:202 | a stored selection is kept iff it is truthy |
| Dashboard.MultiPageTracker.constructor | dashboard.js:3-8 | the dashboard starts with no records, no selection and empty element maps |
| Dashboard.MultiPageTracker.Save | dashboard.js:238-243 | the registry and the selection are written together |
| Dashboard.MultiPageTracker.RenderTrackingsList | dashboard.js:270-303 | the list pane becomes the intended Render of the ids, so it shows one element per record and keeps the elements of surviving records |
| Dashboard.MultiPageTracker.RenderSnapshots | dashboard.js:405-444 | the grid becomes the intended Render of the timestamps, newest first, so it shows one card per snapshot |
| Dashboard.MultiPageTracker.AttachListItems | dashboard.js:283-293 | the list's create-or-reuse loop leaves the list pane as AttachMissing of the old one |
| Dashboard.MultiPageTracker.DropStaleListItems | dashboard.js:295-302 | the list's removal loop leaves the list pane as DropStale of the old one |
| Dashboard.MultiPageTracker.AttachSnapshotCards | dashboard.js:420-434 | the grid's create-or-reuse loop leaves the grid pane as AttachMissing of the old one |
| Dashboard.MultiPageTracker.DropStaleSnapshotCards | dashboard.js:437-443 | the grid's removal loop leaves the grid pane as DropStale of the old one |
| Dashboard.MultiPageTracker.RenderTrackingDetails | dashboard.js:350-403 | with a selected record the grid shows its snapshots; without one the grid is untouched |
| Dashboard.MultiPageTracker.SaveAndRender | dashboard.js:153-155 | the tail of `selectTracking` and `toggleTracking`: the registry and selection are saved, and both panes show the current state |
| Dashboard.MultiPageTracker.SelectTracking | dashboard.js:263-268 | the selection is saved and both panes show the current state |
| Dashboard.MultiPageTracker.AddTracking | dashboard.js:77-105 | an empty or invalid URL changes nothing; otherwise one inactive record is appended, selected and saved, and the active count and total stay as they were |
| Dashboard.MultiPageTracker.DeleteTracking | dashboard.js:116-134 | after confirmation the selected id is gone from the registry and the list, STOP is sent iff it was active, and the save carries the old selection |
| Dashboard.MultiPageTracker.ToggleTracking | dashboard.js:136-156 | the target's flag is flipped, the matching START/STOP is sent, and the active count moves by one |
| Dashboard.MultiPageTracker.RefreshNow | dashboard.js:158-169 | REFRESH_NOW is sent for the target with its URL, or nothing when there is no target |
| Dashboard.MultiPageTracker.OpenPage | dashboard.js:171-178 | a tab is opened on the target's URL exactly when there is a target |
| Dashboard.MultiPageTracker.ClearSnapshots | dashboard.js:180-192 | after confirmation the target's history and count are zeroed, the total drops by its count, and the grid is emptied |
| Dashboard.MultiPageTracker.ClearRecord | dashboard.js:184-188 | the record loses its snapshots and count, the total drops by that count, the active count and the selection are kept, and the registry is saved |
| Dashboard.MultiPageTracker.LoadTrackings | dashboard.js:194-236 | a stored registry is shown as it is; an empty one is replaced by the migrated legacy record, which is selected and saved |
| Dashboard.MultiPageTracker.AdoptMigrated | dashboard.js:220-224 | the migrated record becomes the whole registry and the selection, is saved, and both panes show it |
| Dashboard.MultiPageTracker.OnStorageChanged | dashboard.js:246-254 | the dashboard adopts the new registry and its list shows exactly its ids |
| Popup.PageMatches | popup.js:70-74 | the popup's `find` predicate: URL equality, `startsWith`, or the hostname test, whatever the record's flag |
| Popup.LookupHost | popup.js:73 | with no current URL the hostname tested is `localhost` |
| Popup.CurrentTracking | popup.js:70-74 | the popup's tracking is the first record, active or not, that matches the page |
| Popup.PageMatchesIsUrlMatches | popup.js:71-73 | on a known page the popup's match is the page script's URL match |
| Popup.PopupAndPageScriptAgree | popup.js:70-74 | when the popup's tracking is active, it is the record the page script checks |
| Popup.ActivePrefixCountsPositions | popup.js:122-126 | the active count of the first n records is the number of positions below n holding an active record |
| Popup.ActiveCountCountsPositions | popup.js:122-126 | the active count is the number of positions holding an active record |
| Popup.SwitchMessage | popup.js:181-187 | the switch sends START iff it is checked, for the record's id |
| Popup.PopupController.constructor | popup.js:3-8 | the popup starts with no URL, no tracking and no records |
| Popup.PopupController.LoadTrackings | popup.js:63-78 | the popup adopts the stored registry and finds the current page's tracking in it |
| Popup.PopupController.LoadCurrentPage | popup.js:49-61 | with an active tab its URL is adopted and the registry reloaded; without one nothing changes |
| Popup.PopupController.IsTrackingShown | popup.js:82 | the switch shows on iff the current page has a tracking and it is active |
| Popup.PopupController.ActiveShown | popup.js:121-126 | the count shown is the number of active records |
| Popup.PopupController.TotalShown | popup.js:147-152 | the total shown is the sum of the counts, missing ones as 0 |
| Popup.PopupController.ToggleQuickTrack | popup.js:166-221 | without a URL nothing happens; an existing record takes the switch and the interval and is saved; a new active record is appended only when the switch is on |
| Popup.PopupController.UpdateCurrent | popup.js:173-188 | the current record takes the switch and the interval, the registry is saved, the matching START/STOP is prepared, the active count moves by the flag change and the total is kept |
| Popup.PopupController.AddCurrent | popup.js:189-217 | a new active record for the current URL is appended, saved with its id as the selection, START is prepared, the active count grows by one and the total is kept |

## Left out

- Browser APIs are not modelled as calls: storage, tabs, windows, downloads, notifications and messaging. Their inputs are parameters, and their effects are fields or return values.
- Timing is not modelled: `setTimeout`/`setInterval` delays (the refresh timeout of `interval` ms, the 100 ms countdown period, the 1500 ms wait before a capture, and the page script's 1000 ms and 500 ms waits before a check) and the interleaving of callbacks. Each callback is one atomic method, so races between the service, the page script and the two pages are not captured.
- Storage read errors (`chrome.runtime.lastError` in the page script, dashboard and popup) are not modelled: every read is taken to succeed.
- `findOrOpenTab`: its query, wildcard query and tab creation are not modelled. Its result is the `tabId` parameter.
- The page script's injection guard and its load-time trigger are not modelled: each check is one call to `CheckChange`.
- Background.IntervalSeconds: `Math.random()` and the arithmetic after it are exact reals here, so `min <= s <= max` holds for every draw. In IEEE doubles a draw close to 1 can round `r * (max - min + 1) + min` up to `max + 1` (for min = max = 30 and r = 1 - 2^-52 the interval is 31 s); that rounding is not modelled.
- `new URL` throwing on a malformed URL is not modelled: the hostname is a parameter. The dashboard checks validity first, as `validUrl`.
- URL input trimming is not modelled: the URL parameter is the trimmed input.
- Background.TrackerService.RefreshPage: the write of `tracking.tabId` is left out, because nothing reads it.
- Background.Scheduled: the scheduler record's `lastContentHash` is left out, because nothing reads it.
- Background.TimerPair: the timer handles and the `timeLeft`, `startTime` and `interval` copies in the timers map are folded into the pair.
- Background.TrackerService.UpdateTrackingTimeLeft, IncrementChangeCount, SaveSnapshot and CountdownTick: the storage-change event their write fires is not run by these methods. Over unique ids it stops and starts nothing (`ServiceWritesAreSilent`). Over duplicate ids the listener could stop a tracking, and that run is not modelled.
- Background.TrackerService.OnInstalled: the install handler's `selectedTrackingId` write is not modelled, because `store` holds only the registry.
- Background.TrackerService.OnMessage: `sendResponse` is not modelled.
- `showNotification` (the notification text and its button) and the download file name are not modelled. The flags `notified` and `downloaded` stand for them.
- Registry.Message: the extra `url`, `min` and `max` fields of STOP_TRACKING are not modelled, because the receiver ignores them.
- The TIMER_UPDATE action is not modelled, because nothing sends it.
- The dashboard's message listener (dashboard.js:256-260) and the popup's storage listener are not modelled as members: they only re-run `LoadTrackings`.
- DOM output other than the element maps is not modelled: text, classes, the empty states, the add form and the popup's interval display. The order of elements in a container is not captured either, since `shown` is a set.
- Content.PageText: `innerText` is taken as given. The model does not say how the browser derives it.

## Findings

| source | as written | input that shows it | evidently intended | confidence | as-written member | corrected member |
|---|---|---|---|---|---|---|
| background.js:375-376 | the migration guard tests `oldData.trackings`, but the storage read asked only for `isTracking` and `currentTrackedUrl`, so the guard is always true | a legacy `currentTrackedUrl` is still stored next to a registry of two trackings; an update event replaces the registry by one migrated record, and the listener run over that write stops every other active tracking and clears its timers (InstalledMigrationAsWrittenStopsActive) | migrate only when no registry is stored (an absent registry is read as empty) | high, not executed | Background.InstalledMigrationAsWrittenLosesTrackings | Background.InstalledMigration |
| dashboard.js:409-413 | an empty snapshot list clears the grid but not `snapshotElements` | select a tracking with a snapshot at timestamp 7, then a tracking with no snapshots, then the first again: the card for 7 is still mapped, so it is never re-created or re-attached | an empty list empties the map along with the grid | high, not executed | Dashboard.RenderAsWrittenLosesCard | Dashboard.MultiPageTracker.RenderSnapshots |
| dashboard.js:274-278 | an empty registry clears the list but not `trackingElements` | the registry changes from [A] to [] and back to [A] through the storage listener: A's list item stays mapped but detached, so A is not listed | an empty registry empties the map along with the list | high, not executed | Dashboard.RenderAsWrittenDetaches | Dashboard.MultiPageTracker.RenderTrackingsList |
