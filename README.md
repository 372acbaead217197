# Scroll Tracker — a Dafny model of the scroll-depth checkpoint detector

`ScrollTracker.js` watches how far a reader scrolls down a page and reports to
Google Analytics when the bottom of the viewport first passes 10%, 25%, 50%,
75%, 90% and 100% of the document height. It can also report the pixel depth,
rounded down to a 250px band. When the tracker is created it sends one
`Baseline` event. Its state is three module-level variables:

- `cache`: the checkpoint labels already reported;
- `pixels_scrolled`: the pixel high-water mark;
- `pixels_rounded`: the last band reported.

A throttled scroll handler reads the document height, the window height and the
scroll offset. It works out the six thresholds at the current height and
returns early (unbinding itself) once six labels are cached. Otherwise, when
percent tracking is on, it scans the checkpoints. Each checkpoint that is not
yet cached and whose threshold the depth reaches is reported through
`trackView` and then cached. `trackView` sends the percent event. When pixel
tracking is on and the depth beats the mark, it also raises the mark and sends
the band.

The model is one module, `ScrollTracker` (`scroll_tracker.dfy`).

- Class `Tracker` holds the three variables as fields (`cache`,
  `pixelsScrolled`, `pixelsRounded`). A ghost field `log` receives every event
  sent to the analytics sink.
- Its methods follow the source: the constructor, `TrackView`,
  `TrackPercentScrolled` (both loops, with the shared loop body as `Visit`) and
  `Sample` (the handler body, which returns `true` for "unbind").
- Each method is proved equal to a function on the value `State`: `AfterView`,
  `Step`, `Scan`, `AfterPercentScrolled` and `AfterSample`. `Run` folds
  `AfterSample` over a sequence of samples.
- The promised properties are proved about these functions, against two
  reference definitions that do not use the loop:
  - `Fired`: the labels a scan should report, in key order;
  - `AfterFiring`: the closed-form effect of reporting them. The first
    reported label carries the only pixel event a scan can emit.
- `Invariant` is what every reachable state satisfies:
  - the cache is a prefix of `10%, 25%, 50%, 75%, 90%, 100%`;
  - the percent labels in the log are exactly `Baseline` followed by the cache;
  - `pixelsRounded` is the band of `pixelsScrolled`, and no reported band
    exceeds it;
  - there are no more pixel events than cached labels;
  - with pixel tracking off there are no pixel events;
  - with percent tracking off the state is still the initial one.

The model follows the code as written, on these points:

- Pixel events are only emitted from `trackView`. So they come only together
  with a percent event: at most one per sample and at most six per page.
- The duplicated second loop of `trackPercentScrolled` is kept and proved to
  change nothing (`SecondPassIsNoOp`). It is not collapsed into one pass.
- Every sample that raises the mark and fires a checkpoint emits a pixel event,
  even if the band is unchanged. Events are not de-duplicated by band.
- The sample that fires the last checkpoint returns normally. Only the next
  sample returns "unbind".
- Malformed measurements are not rejected. The heights and the offset are
  naturals, as the DOM supplies them.

## Model

| member | source | states |
|---|---|---|
| `ScrollTracker.Checkpoints` | ScrollTracker.js:62-69 | The six checkpoints are keyed `10%`…`100%` in declaration order. Their thresholds never decrease in that order and never exceed the height. The `100%` threshold is the height itself. |
| `ScrollTracker.ThresholdsAscending` | ScrollTracker.js:63-68 | For every height, the truncated products h·0.10 ≤ h·0.25 ≤ h·0.5 ≤ h·0.75 ≤ h·0.9 ≤ h. |
| `ScrollTracker.Band` | ScrollTracker.js:35 | The reported band is a multiple of 250, at most the depth and more than the depth minus 250. |
| `ScrollTracker.Init` | ScrollTracker.js:24-28 | After construction the cache is empty, the mark is 0 and the log holds exactly one `Baseline` event with timing 0. A depth of 0 cannot raise the mark, so no pixel event is sent. |
| `ScrollTracker.InitInvariant` | ScrollTracker.js:20-28 | The state after construction satisfies the invariant. |
| `ScrollTracker.Tracker.constructor` | ScrollTracker.js:24-28 | Records the options, sends the baseline through `TrackView` and reaches exactly `Init(options)`, which satisfies the invariant. |
| `ScrollTracker.Tracker.TrackView` | ScrollTracker.js:30-38 | Appends the percent event. If pixel tracking is on and the depth beats the mark, it also raises the mark to the depth, sets the rounded band and appends the band event. Nothing else changes. |
| `ScrollTracker.Tracker.Visit` | ScrollTracker.js:43-46 | One loop iteration: a checkpoint that is not cached and is reached is reported through `TrackView` and then cached. Otherwise nothing changes. |
| `ScrollTracker.Tracker.TrackPercentScrolled` | ScrollTracker.js:40-55 | Runs the key loop and then the for-in loop, and the new state is the two passes of `Scan`. For distinct keys, which an object's keys always are, the result equals the first pass alone. |
| `ScrollTracker.Tracker.Sample` | ScrollTracker.js:57-79 | Computes depth = scrollTop + winHeight and the thresholds at the current height, then behaves exactly as `AfterSample`. It returns `true` and changes nothing once six labels are cached. It scans only when percent tracking is on. It keeps the invariant. |
| `ScrollTracker.FiredElements` | ScrollTracker.js:43 | Only keys of the checkpoint object fire, and only keys not already in the cache. |
| `ScrollTracker.FiredIff` | ScrollTracker.js:42-47 | For distinct keys, a checkpoint fires exactly when its label is not cached and the depth reaches its threshold (both directions). |
| `ScrollTracker.ScanClosedForm` | ScrollTracker.js:41-47 | The key loop extends the cache by the fired labels in key order. It sends their percent events in that order, timed with the sample's timing. The single pixel event, if any, follows the first of them. |
| `ScrollTracker.SecondPassIsNoOp` | ScrollTracker.js:49-54 | The duplicated for-in loop sends nothing and leaves the cache and the mark unchanged, because the first loop already cached every key meeting the same condition. |
| `ScrollTracker.FiredSlice` | ScrollTracker.js:41-47 | With ascending thresholds and a cache that holds exactly the leading keys, the fired labels are the next contiguous run of keys, up to the last reached checkpoint. |
| `ScrollTracker.ScanKeepsPrefix` | ScrollTracker.js:41-47 | A scan keeps the cache a prefix of the key order, even when the document height differs from the previous sample's. The new prefix reaches at least the last reached checkpoint. |
| `ScrollTracker.FiringEventsContent` | ScrollTracker.js:30-38 | The events of one scan carry exactly the fired labels, in order. They hold one pixel event, for the band of the depth, exactly when something fired, pixel tracking is on and the depth beats the mark. Otherwise they hold none. |
| `ScrollTracker.FiringEffect` | ScrollTracker.js:33-37 | After a scan the cache is the old cache plus the fired labels, and the percent log grows by those labels. The mark rises to the depth, which beats it, exactly when a pixel event is sent; otherwise the mark and the rounded band stay. |
| `ScrollTracker.SampleClosedForm` | ScrollTracker.js:57-79 | A sample returns "unbind" with the state unchanged when six labels are cached. That check comes before the scan. Otherwise it returns normally: it fires `Fired` of the six checkpoints at the current height when percent tracking is on, and changes nothing when it is off. |
| `ScrollTracker.CheckpointFires` | ScrollTracker.js:43 | Checkpoint k of the six fires exactly when its label is not cached and the depth reaches its threshold at the current height. |
| `ScrollTracker.SampleThresholdRule` | ScrollTracker.js:42-47 | In an active sample, checkpoint k fires exactly when it is not yet cached and reached. Afterwards it is cached exactly when it was before or the depth reaches its threshold, so every reached checkpoint is cached. |
| `ScrollTracker.SampleEvents` | ScrollTracker.js:30-38 | A sample appends the fired labels, in key order, to the percent log and the cache. It appends at most one pixel event: the band of the depth, only when percent and pixel tracking are on, something fired and the depth beats the mark. The mark never decreases. |
| `ScrollTracker.BottomFiresAll` | ScrollTracker.js:41-47 | From an empty cache, a depth that reaches the document height fires all six labels, in order. |
| `ScrollTracker.FullScrollFiresAll` | ScrollTracker.js:57-79 | A sample at the bottom of the document, taken before anything has fired, fires all six checkpoints in order within that one call, and does not unbind. |
| `ScrollTracker.ScanKeepsInvariant` | ScrollTracker.js:40-55 | A percent scan of the six checkpoints keeps the invariant. |
| `ScrollTracker.SampleKeepsInvariant` | ScrollTracker.js:57-79 | Every sample keeps the invariant. |
| `ScrollTracker.RunKeepsInvariant` | ScrollTracker.js:57-79 | Any sequence of samples keeps the invariant. |
| `ScrollTracker.AtMostOnce` | ScrollTracker.js:43-45 | In an invariant state no percent label appears twice in the log. The cache has no duplicates, holds only the six checkpoint labels, never holds `Baseline` and has at most 6 entries. There are at most 6 pixel events. |
| `ScrollTracker.LifetimeAtMostOnce` | ScrollTracker.js:24-79 | From construction, over any sequence of samples, each label is reported at most once and the invariant holds. |
| `ScrollTracker.ExhaustedIsFinal` | ScrollTracker.js:71-74 | Once six labels are cached, any further samples leave the whole state unchanged and send nothing. Exhaustion is one-way. |
| `ScrollTracker.PercentOffIsSilent` | ScrollTracker.js:76-78 | With percent tracking off, samples send nothing at all, pixel events included, and change no state. |

## Left out

- Event binding: the jQuery `on`/`off` binding of the scroll handler and the 500 ms `_.throttle` are host plumbing. "Unbind" is the boolean `Sample` returns, and a sequence of samples stands for the throttled calls.
- DOM measurements: `$(document).height()`, `window.innerHeight || $w.height()` and `$w.scrollTop()` are the natural-number parameters of `Sample`. The `||` fallback is not modelled, and neither are fractional scroll offsets.
- Analytics sink: `_gaq.push` becomes an append to the ghost `log`. The constant `_trackEvent` command and the non-interaction flag `true` are the same on every push and are dropped. The event category is the constructor (`PercentScrolled`, `PixelsScrolled`), because every call of `trackView` passes `'Percent Scrolled'`. The pixel label is the band as a number; its decimal rendering by `toString()` is not modelled.
- Timing: `(_.now() - startTime) / 1000` depends on a clock. It is a `real` parameter copied into the events.
- Option merging: `$.extend` is not modelled. The options are a record of three booleans, with `Defaults` giving the defaults. `trackTiming` is never read, as in the source.
- Threshold arithmetic: `parseInt(doc_height * 0.10, 10)` and the others are computed exactly, as floor of h·p/100 on a natural height. The rounding error of the double-precision product is not modelled.
- Shared module state: the state lives at module scope, so a second `scrollTracker(...)` call on the same page would share `cache` and the pixel mark, and bind a second handler. The model covers one tracker.
