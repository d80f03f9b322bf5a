# StoryAtlas overlay browser: state and nearby views

StoryAtlas shows point-of-interest (POI) overlays on a map. One script runs
the whole page. At start-up it builds the set of active overlays from the
configuration flags. It then loads each overlay file in turn and keeps the
loaded overlays and a flat list of all their POIs, each tagged with its
overlay's name. A checkbox toggles an overlay: its markers are removed from
the map, or one marker per POI is added. After loading, and again on every
map move, it computes three views of all loaded POIs:

- the POIs strictly within 50 km of the map centre;
- the POIs whose timestamp is strictly within 30 days of now;
- the most recently created POI.

This project models that state and logic in Dafny:

- `data.dfy` (module `AtlasData`): the entities. A point as stored in a file,
  a POI tagged with its overlay, an overlay, a map position, and a marker
  tagged with its overlay index.
- `loader.dfy` (module `Loader`): what loading builds from the outcome of
  each file (`Successes`, `Aggregate`).
- `nearby.dfy` (module `Nearby`): the three views (`GeoNearby`,
  `ChronoNearby`, `MostRecent`, `ComputeNearby`).
- `overlays.dfy` (module `Overlays`): the active set built from the flags,
  and the effect of a toggle on the set and the markers (`Toggled`).
- `atlas.dfy` (module `App`): class `Atlas`, holding the page's mutable
  state. Its constructor, `LoadOverlays` and `Toggle` change that state in
  place. Each one is proved against the functions above.
- `seqs.dfy` (module `Seqs`): an order-preserving `Filter` and its lemmas.
  `wrappers.dfy`: `Option`.

Distances are computed by an abstract function `dist`, passed in as a
parameter. Times are integer milliseconds. A timestamp that is missing,
empty or not a date is `None`. The current time and the map centre are
also parameters.

Class `Atlas` keeps one invariant, `Valid()`: every marker on the map
belongs to an overlay in the active set. So an inactive overlay never has
markers, and two toggles of it restore the page exactly.

The model keeps three behaviours of the code that are easy to miss:

- The active set is built from positions in the configured FILE list,
  while the sidebar's checkboxes and toggles index the LOADED overlays.
  When a file fails, the two no longer line up. With files a, b, c where
  b fails and only c is flagged, the set holds 2 while c is loaded at 1.
  So c's checkbox starts unchecked, and its first toggle activates 1 and
  adds c's markers, leaving the stale 2 in the set
  (`App.StaleActiveIndex`).
- `toggleOverlay` itself has no bounds check. For an inactive index that
  names no loaded overlay, it adds the index to the set and then throws
  when it reads that overlay's points. The model returns `ok == false`
  there, with the set already updated. The sidebar only binds the
  indices of loaded overlays (script.js:58-65), so no click on the page
  reaches this branch.
- Loading creates no markers. An overlay flagged active at start-up is in
  the set but has no markers on the map. The model does not assume
  "active if and only if it has markers".

## Model

| member | source | states |
|---|---|---|
| `App.Atlas.constructor` | script.js:22-24 | Nothing is loaded and there are no markers, so `Valid()` holds. An index is in the active set exactly when its configuration flag is `true`. |
| `Overlays.FlagIndices` | script.js:24 | The indices it keeps are exactly the positions of the `true` flags, in strictly increasing order. |
| `App.Atlas.LoadOverlays` | script.js:39-52 | Overlays gain the loaded files in order, and the POI list gains their tagged points. The active set and the markers do not change, so `Valid()` is kept. The returned views are those of all POIs after loading. |
| `App.Atlas.LoadFiles` | script.js:40-49 | The loop appends `Successes(results)` to the overlays and `Aggregate` of them to the POIs. A failed file is skipped and the loop goes on. |
| `App.Atlas.LoadFile` | script.js:44-45 | One loaded file pushes its overlay, then its points, each tagged with the overlay's name. Nothing else is pushed. |
| `Loader.Successes` | script.js:40-44 | At most one overlay per file: the loaded list is never longer than the file list. |
| `Loader.LoadedStep` | script.js:44 | A file that loaded adds its overlay after those of the files before it. |
| `Loader.SkippedStep` | script.js:46-48 | A file that failed adds no overlay. |
| `Loader.PushOverlayStep` | script.js:44 | Pushing a loaded file's overlay onto the list built so far gives the list of the files up to it. |
| `Loader.PushPointsStep` | script.js:45 | Pushing a loaded file's tagged points onto the POIs built so far gives the POIs of the files up to it. |
| `Loader.TagPoints` | script.js:45 | One POI per point, in order. The k-th POI holds the k-th point and carries the overlay's name. |
| `Loader.Aggregate` | script.js:45 | One POI for every point of every overlay: its length is the overlays' total point count. |
| `Loader.SuccessesSnoc` | script.js:44 | One more file adds its overlay after the others if it loaded, and nothing otherwise. |
| `Loader.AggregateSnoc` | script.js:45 | One more overlay adds its tagged points after the others. |
| `Loader.SuccessesMembership` | script.js:40-49 | An overlay is in the loaded list exactly when some file produced it. |
| `Loader.SuccessesAppend` | script.js:40-49 | Loading two runs of files one after the other loads the concatenation of what each run loads. Input order is kept. |
| `Loader.SuccessesSkipFailure` | script.js:41-48 | A failed file anywhere in the list leaves the loaded overlays as they would be without that file. |
| `Loader.AggregateAppend` | script.js:45 | The POI list of two runs of overlays is the concatenation of their POI lists, in overlay order. |
| `Loader.AggregateMembership` | script.js:45 | A tagged POI is in the list exactly when some loaded overlay holds its point and has its tag as its name. |
| `App.Atlas.Toggle` | script.js:76-101 | The new active set, markers and `ok` are those of `Toggled`. `Valid()` is kept. Overlays and POIs are unchanged. |
| `App.Atlas.RemoveMarkers` | script.js:80-84 | Walking the map and deleting each marker tagged with the index leaves exactly the other markers, in order. |
| `App.Atlas.AddMarkers` | script.js:88-99 | One marker per point is appended. Each is placed at that point and tagged with the index. |
| `Overlays.MarkersFor` | script.js:88-89 | One marker per point, in order. The k-th is placed at the k-th point's latitude and longitude and tagged with the index. |
| `Overlays.Toggled` | script.js:76-101 | The toggled index flips in or out of the active set, and no other index changes. `ok` holds exactly when the index was active or names a loaded overlay. When it does not hold, the markers are unchanged. |
| `Overlays.ToggleOff` | script.js:77-84 | An active index leaves the set, and no marker tagged with it remains. Every other overlay's markers are unchanged. The result is a subsequence of the old markers. |
| `Overlays.ToggleOn` | script.js:85-99 | An inactive index joins the set. If it names a loaded overlay, one marker per point is appended: tagged with the index, placed at the point, after all existing markers. No other overlay's markers change. Otherwise `ok` is false and the markers are unchanged. |
| `Overlays.ToggledKeepsMarkersActive` | script.js:76-101 | Every branch of a toggle keeps the invariant: off, on, and on for an index with no loaded overlay. |
| `Overlays.InactiveHasNoMarkers` | script.js:76-101 | Under the invariant, an inactive overlay has no markers. This is the starting point of `ToggleTwice`. |
| `Overlays.ToggleTwice` | script.js:76-101 | Start from an inactive index with no markers. Toggling it twice restores the active set and the markers exactly. |
| `App.StaleActiveIndex` | script.js:24-89 | Take files a, b, c where b fails and only c is flagged. The set is {2}, but c is loaded at position 1. Toggling 1, c's checkbox, succeeds: the set becomes {1, 2} and c's markers are appended. |
| `Nearby.GeoNearby` | script.js:108 | A POI is kept exactly when its distance to the centre is below 50 km. The result is a subsequence of the POIs, and each kept POI keeps its number of occurrences. |
| `Nearby.CentreIsNearby` | script.js:108 | A POI at the map centre is near whenever a point's distance to itself is 0. |
| `Nearby.ChronoNearby` | script.js:111-116 | A POI is kept exactly when it has a timestamp strictly less than 30 days from now, in either direction. The result is a subsequence of the POIs, and each kept POI keeps its number of occurrences. |
| `Nearby.ChronoWindowEdges` | script.js:111-116 | A POI with no timestamp is never near. One 29 days before or after now is near. One exactly 30 or 31 days before or after now is not. |
| `Nearby.LatestFrom` | script.js:118-122 | The fold returns its starting value or one of the rest. Its creation time is at least the starting value's and at least every other POI's. |
| `Nearby.MostRecent` | script.js:118-122 | `None` exactly on an empty list, where the reduce throws. Otherwise it returns a POI of the list whose creation time is the latest. |
| `Nearby.MostRecentIsFirstLatest` | script.js:118-122 | The most recent POI is the first POI, in list order, with the latest creation time. The strict `>` keeps the earlier one on a tie. |
| `Nearby.ComputeNearby` | script.js:104-122 | The views are absent exactly when there are no POIs. |
| `Nearby.ComputeNearbyViews` | script.js:104-122 | On a non-empty list, the geographic and chronological views hold exactly the near POIs. They keep list order and each POI's number of occurrences. The recent view is the first POI with the latest creation time. |
| `App.Atlas.UpdateNearby` | script.js:104-122 | The views are computed over all loaded POIs, whichever overlays are active. They are absent exactly when no POI is loaded: when no file loaded, or every loaded overlay has no points. |

## Left out

- Fetching `config.json` and the overlay files, JSON parsing, and the console logging of failures. These are I/O. Each file's outcome is an `Option<Overlay>` input.
- A file that parses but has no `points` array. In the source its overlay is pushed before the tagging throws. The model treats a file as either a full overlay or a failure. Points are likewise always well formed: every point has an `images` list and a numeric position. In the source, a point without `images` throws at script.js:92, after its marker was added at script.js:89. The overlay is then left active with markers for every point up to and including that one, the last without a popup. A point with a missing or non-numeric position makes `L.marker` throw at script.js:89, before its marker is added. The overlay is then left active with markers for only the points before it.
- The mapping library: the map, the tile layer, `setView`, `getCenter`, `flyTo` and the `moveend` wiring. The tile layer carries no overlay index, so a toggle never removes it. Only the markers are modelled, as a sequence in the order they were added. The map centre is a parameter.
- The haversine arithmetic in `getDistance`. It is floating-point trigonometry, so distance is the abstract parameter `dist`.
- Date parsing with `new Date`. Times are integer milliseconds. A creation time that is not a date is not modelled. In the source it parses to NaN, and every comparison with NaN is false. On the first POI, the reduce's starting value, it sticks: no later POI replaces it. On any other POI it is never chosen.
- All DOM rendering: the sidebar checkboxes, the nearby and recent panels, popup HTML, click handlers and the `_hasListener` bookkeeping. This is UI code.
- The exception from the reduce on an empty POI list. The model returns `None` for it. After loading (script.js:51, awaited at 167) it reaches the script's outer handler. From the `moveend` handler (script.js:164) it is thrown uncaught on every map move while `allPOIs` is empty. That lasts for the whole session when no file loaded, or when every loaded overlay has no points.
- Map moves during loading. The `moveend` handler is registered before the loading starts, so `updateNearby` can run between two file fetches, on a partly built POI list. `LoadOverlays` is atomic in the model, and its intermediate states are not modelled.
