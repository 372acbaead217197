// A model of the scroll-depth checkpoint detector of ScrollTracker.js.
//
// The module-level state of the script (the `cache` of reported checkpoint
// labels, the pixel high-water mark `pixels_scrolled` and the last reported
// band `pixels_rounded`) becomes the fields of class `Tracker`; the analytics
// sink becomes a ghost event log. Every method of the class is proved equal to
// a function on the value `State`, and the promised properties are proved
// about those functions.

module ScrollTracker {

  /** Tracker options. `trackTiming` is accepted but never consulted. */
  datatype Options = Options(trackPercentScrolled: bool, trackPixelsScrolled: bool, trackTiming: bool)

  /** The defaults merged under the caller's options. */
  const Defaults := Options(true, false, false)

  /** One analytics event. Both kinds carry the elapsed time of the sample. */
  datatype Event =
    | PercentScrolled(key: string, timing: real)
    | PixelsScrolled(band: nat, timing: real)

  /** A named depth threshold, in pixels. */
  datatype Checkpoint = Checkpoint(key: string, threshold: nat)

  /** The tracker's state together with everything it has emitted so far. */
  datatype State = State(cache: seq<string>, pixelsScrolled: nat, pixelsRounded: nat, log: seq<Event>)

  /** Sample measurements: document height, window height, scroll offset, elapsed time. */
  datatype Measurement = Measurement(docHeight: nat, winHeight: nat, scrollTop: nat, timing: real)

  /** The checkpoint labels, in the order the scroll handler declares them. */
  const Labels: seq<string> := ["10%", "25%", "50%", "75%", "90%", "100%"]

  const BaselineLabel: string := "Baseline"

  /** Width of a reported pixel band. */
  const BandWidth: nat := 250

  // ---------------------------------------------------------------------
  // Helpers on sequences
  // ---------------------------------------------------------------------

  function Min(a: int, b: int): int { if a <= b then a else b }

  function Max(a: int, b: int): int { if a <= b then b else a }

  ghost predicate Distinct(xs: seq<string>) {
    forall j, k :: 0 <= j < k < |xs| ==> xs[j] != xs[k]
  }

  /** The labels of a checkpoint list, in order (the object's keys). */
  function Keys(cps: seq<Checkpoint>): (ks: seq<string>)
    ensures |ks| == |cps|
  {
    seq(|cps|, k requires 0 <= k < |cps| => cps[k].key)
  }

  ghost predicate Ascending(cps: seq<Checkpoint>) {
    forall j, k :: 0 <= j <= k < |cps| ==> cps[j].threshold <= cps[k].threshold
  }

  // ---------------------------------------------------------------------
  // Thresholds and pixel bands
  // ---------------------------------------------------------------------

  /** Threshold k at document height h: `parseInt(h * 0.10)` and so on, which
      for a non-negative integer height is floor division; the last one is h. */
  function Threshold(h: nat, k: nat): nat
    requires k < 6
  {
    if k == 0 then h * 10 / 100
    else if k == 1 then h * 25 / 100
    else if k == 2 then h * 50 / 100
    else if k == 3 then h * 75 / 100
    else if k == 4 then h * 90 / 100
    else h
  }

  /** The thresholds never decrease in key order and never exceed h. */
  lemma ThresholdsAscending(h: nat)
    ensures forall j, k :: 0 <= j <= k < 6 ==> Threshold(h, j) <= Threshold(h, k) <= h
  {
    assert Threshold(h, 0) <= Threshold(h, 1) <= Threshold(h, 2) <= Threshold(h, 3) <= Threshold(h, 4) <= Threshold(h, 5) == h;
  }

  /** The six checkpoints at document height h, in the order they are declared. */
  function Checkpoints(h: nat): (cps: seq<Checkpoint>)
    ensures |cps| == 6
    ensures Keys(cps) == Labels
    ensures Ascending(cps)
    ensures cps[|cps| - 1].threshold == h
    ensures forall k :: 0 <= k < |cps| ==> cps[k].threshold <= h
  {
    ThresholdsAscending(h);
    seq(6, k requires 0 <= k < 6 => Checkpoint(Labels[k], Threshold(h, k)))
  }

  /** The depth rounded down to a multiple of 250. */
  function Band(depth: nat): (b: nat)
    ensures b % BandWidth == 0
    ensures b <= depth < b + BandWidth
  {
    depth / BandWidth * BandWidth
  }

  lemma BandMonotone(a: nat, b: nat)
    requires a <= b
    ensures Band(a) <= Band(b)
  {
    assert a / BandWidth <= b / BandWidth;
  }

  // ---------------------------------------------------------------------
  // The operations, on values
  // ---------------------------------------------------------------------

  /** trackView: emit the percent event; if pixel tracking is on and the depth
      exceeds the high-water mark, raise the mark and emit the band. */
  function AfterView(opts: Options, s: State, name: string, depth: nat, timing: real): State
  {
    var s' := s.(log := s.log + [PercentScrolled(name, timing)]);
    if opts.trackPixelsScrolled && depth > s.pixelsScrolled then
      s'.(pixelsScrolled := depth, pixelsRounded := Band(depth),
          log := s'.log + [PixelsScrolled(Band(depth), timing)])
    else
      s'
  }

  /** The state after construction: the baseline event has been sent. */
  function Init(opts: Options): (s: State)
    ensures s == State([], 0, 0, [PercentScrolled(BaselineLabel, 0.0)])
  {
    AfterView(opts, State([], 0, 0, []), BaselineLabel, 0, 0.0)
  }

  /** One iteration of a checkpoint loop. */
  function Step(opts: Options, s: State, cp: Checkpoint, depth: nat, timing: real): State
  {
    if cp.key !in s.cache && depth >= cp.threshold then
      var v := AfterView(opts, s, cp.key, depth, timing);
      v.(cache := v.cache + [cp.key])
    else
      s
  }

  /** One full loop over the checkpoints, in key order. */
  function Scan(opts: Options, s: State, cps: seq<Checkpoint>, depth: nat, timing: real): State
    decreases |cps|
  {
    if cps == [] then s
    else Step(opts, Scan(opts, s, cps[..|cps| - 1], depth, timing), cps[|cps| - 1], depth, timing)
  }

  /** trackPercentScrolled: the loop over the keys, then the for-in loop. */
  function AfterPercentScrolled(opts: Options, s: State, cps: seq<Checkpoint>, depth: nat, timing: real): State
  {
    Scan(opts, Scan(opts, s, cps, depth, timing), cps, depth, timing)
  }

  /** The body of the throttled scroll handler; the boolean asks to unbind. */
  function AfterSample(opts: Options, s: State, docHeight: nat, winHeight: nat, scrollTop: nat, timing: real): (State, bool)
  {
    var depth := scrollTop + winHeight;
    if |s.cache| >= 6 then (s, true)
    else if opts.trackPercentScrolled then (AfterPercentScrolled(opts, s, Checkpoints(docHeight), depth, timing), false)
    else (s, false)
  }

  /** A sequence of samples delivered to one tracker. */
  function Run(opts: Options, s: State, ms: seq<Measurement>): State
    decreases |ms|
  {
    if ms == [] then s
    else
      var m := ms[0];
      Run(opts, AfterSample(opts, s, m.docHeight, m.winHeight, m.scrollTop, m.timing).0, ms[1..])
  }

  // ---------------------------------------------------------------------
  // Reference definitions
  // ---------------------------------------------------------------------

  /** The labels that should fire, in key order: not yet cached and reached. */
  function Fired(cache: seq<string>, cps: seq<Checkpoint>, depth: nat): (f: seq<string>)
    ensures |f| <= |cps|
    decreases |cps|
  {
    if cps == [] then []
    else
      var n := |cps| - 1;
      Fired(cache, cps[..n], depth) + (if cps[n].key !in cache && depth >= cps[n].threshold then [cps[n].key] else [])
  }

  /** How many leading checkpoints are reached, for ascending thresholds. */
  function Reached(cps: seq<Checkpoint>, depth: nat): (r: nat)
    ensures r <= |cps|
    decreases |cps|
  {
    if cps == [] then 0
    else if depth >= cps[|cps| - 1].threshold then |cps|
    else Reached(cps[..|cps| - 1], depth)
  }

  function PercentEvents(labels: seq<string>, timing: real): (es: seq<Event>)
    ensures |es| == |labels|
  {
    seq(|labels|, k requires 0 <= k < |labels| => PercentScrolled(labels[k], timing))
  }

  /** The effect of firing `fired` in one scan, stated without the loop: the
      first fired label may bring the single pixel event with it. */
  function AfterFiring(opts: Options, s: State, fired: seq<string>, depth: nat, timing: real): State
  {
    if fired == [] then s
    else
      var raise := opts.trackPixelsScrolled && depth > s.pixelsScrolled;
      State(s.cache + fired,
            if raise then depth else s.pixelsScrolled,
            if raise then Band(depth) else s.pixelsRounded,
            s.log + FiringEvents(opts, s.pixelsScrolled, fired, depth, timing))
  }

  /** The events a scan appends when `fired` fire at a pixel mark `mark`. */
  function FiringEvents(opts: Options, mark: nat, fired: seq<string>, depth: nat, timing: real): seq<Event>
  {
    if fired == [] then []
    else
      [PercentScrolled(fired[0], timing)]
        + (if opts.trackPixelsScrolled && depth > mark then [PixelsScrolled(Band(depth), timing)] else [])
        + PercentEvents(fired[1..], timing)
  }

  /** The labels of the percent events in a log, in order. */
  function PercentLabels(log: seq<Event>): seq<string>
    decreases |log|
  {
    if log == [] then []
    else
      var e := log[|log| - 1];
      PercentLabels(log[..|log| - 1]) + (if e.PercentScrolled? then [e.key] else [])
  }

  /** The bands of the pixel events in a log, in order. */
  function PixelBands(log: seq<Event>): seq<nat>
    decreases |log|
  {
    if log == [] then []
    else
      var e := log[|log| - 1];
      PixelBands(log[..|log| - 1]) + (if e.PixelsScrolled? then [e.band] else [])
  }

  /** What every reachable state satisfies. */
  ghost predicate Invariant(opts: Options, s: State) {
    && |s.cache| <= |Labels|
    && s.cache == Labels[..|s.cache|]
    && PercentLabels(s.log) == [BaselineLabel] + s.cache
    && s.pixelsRounded == Band(s.pixelsScrolled)
    && (forall b :: b in PixelBands(s.log) ==> b <= s.pixelsRounded)
    && |PixelBands(s.log)| <= |s.cache|
    && (!opts.trackPixelsScrolled ==> s.pixelsScrolled == 0 && PixelBands(s.log) == [])
    && (!opts.trackPercentScrolled ==> s == Init(opts))
  }

  /** Construction establishes the invariant: the baseline is the only event
      and it cannot raise the pixel mark. */
  lemma InitInvariant(opts: Options)
    ensures Invariant(opts, Init(opts))
  {
    var log := Init(opts).log;
    assert log[..0] == [];
    assert PercentLabels(log) == [BaselineLabel];
    assert PixelBands(log) == [];
  }

  // ---------------------------------------------------------------------
  // Lemmas: logs
  // ---------------------------------------------------------------------

  lemma {:induction false} LogAppend(a: seq<Event>, b: seq<Event>)
    ensures PercentLabels(a + b) == PercentLabels(a) + PercentLabels(b)
    ensures PixelBands(a + b) == PixelBands(a) + PixelBands(b)
    decreases |b|
  {
    if b == [] {
      assert a + b == a;
    } else {
      var n := |b| - 1;
      assert (a + b)[..|a + b| - 1] == a + b[..n];
      assert (a + b)[|a + b| - 1] == b[n];
      LogAppend(a, b[..n]);
      var e := b[n];
      assert PercentLabels(a + b) == PercentLabels(a + b[..n]) + (if e.PercentScrolled? then [e.key] else []);
      assert PercentLabels(b) == PercentLabels(b[..n]) + (if e.PercentScrolled? then [e.key] else []);
      assert PixelBands(a + b) == PixelBands(a + b[..n]) + (if e.PixelsScrolled? then [e.band] else []);
      assert PixelBands(b) == PixelBands(b[..n]) + (if e.PixelsScrolled? then [e.band] else []);
    }
  }

  lemma {:induction false} PercentEventsLabels(labels: seq<string>, timing: real)
    ensures PercentLabels(PercentEvents(labels, timing)) == labels
    ensures PixelBands(PercentEvents(labels, timing)) == []
    decreases |labels|
  {
    if labels != [] {
      var n := |labels| - 1;
      assert PercentEvents(labels, timing)[..n] == PercentEvents(labels[..n], timing);
      PercentEventsLabels(labels[..n], timing);
      assert labels[..n] + [labels[n]] == labels;
    }
  }

  lemma PercentEventsAppend(labels: seq<string>, x: string, timing: real)
    ensures PercentEvents(labels + [x], timing) == PercentEvents(labels, timing) + [PercentScrolled(x, timing)]
  {
  }

  // ---------------------------------------------------------------------
  // Lemmas: one scan
  // ---------------------------------------------------------------------

  lemma KeysPrefix(cps: seq<Checkpoint>, n: nat)
    requires n <= |cps|
    ensures Keys(cps[..n]) == Keys(cps)[..n]
  {
  }

  /** Only keys fire, and only keys not yet cached. */
  lemma {:induction false} FiredElements(cache: seq<string>, cps: seq<Checkpoint>, depth: nat, x: string)
    requires x in Fired(cache, cps, depth)
    ensures x in Keys(cps) && x !in cache
    decreases |cps|
  {
    var n := |cps| - 1;
    KeysPrefix(cps, n);
    assert Keys(cps)[n] == cps[n].key;
    if x in Fired(cache, cps[..n], depth) {
      FiredElements(cache, cps[..n], depth, x);
      var j :| 0 <= j < n && Keys(cps[..n])[j] == x;
      assert Keys(cps)[j] == x;
    }
  }

  /** Within a scan a checkpoint fires exactly when its label is not cached
      and the depth reaches its threshold. */
  lemma {:induction false} FiredIff(cache: seq<string>, cps: seq<Checkpoint>, depth: nat, k: nat)
    requires Distinct(Keys(cps)) && k < |cps|
    ensures cps[k].key in Fired(cache, cps, depth) <==> cps[k].key !in cache && depth >= cps[k].threshold
    decreases |cps|
  {
    var n := |cps| - 1;
    var pre := cps[..n];
    KeysPrefix(cps, n);
    assert Keys(cps)[k] == cps[k].key && Keys(cps)[n] == cps[n].key;
    if k < n {
      FiredIff(cache, pre, depth, k);
    } else {
      assert cps[n].key !in Keys(pre);
      if cps[n].key in Fired(cache, pre, depth) {
        FiredElements(cache, pre, depth, cps[n].key);
      }
    }
  }

  /** A loop over distinct keys has the closed-form effect `AfterFiring` of the
      labels `Fired` selects. */
  lemma {:induction false} ScanClosedForm(opts: Options, s: State, cps: seq<Checkpoint>, depth: nat, timing: real)
    requires Distinct(Keys(cps))
    ensures Scan(opts, s, cps, depth, timing) == AfterFiring(opts, s, Fired(s.cache, cps, depth), depth, timing)
    decreases |cps|
  {
    if cps != [] {
      var n := |cps| - 1;
      var pre := cps[..n];
      KeysPrefix(cps, n);
      ScanClosedForm(opts, s, pre, depth, timing);
      var f := Fired(s.cache, pre, depth);
      assert Keys(cps)[n] == cps[n].key;
      assert cps[n].key !in Keys(pre);
      if cps[n].key in f {
        FiredElements(s.cache, pre, depth, cps[n].key);
      }
      StepExtends(opts, s, f, cps[n], depth, timing);
    }
  }

  /** One more loop iteration extends the closed form by the checkpoint, if it fires. */
  lemma StepExtends(opts: Options, s: State, f: seq<string>, cp: Checkpoint, depth: nat, timing: real)
    requires cp.key !in f
    ensures Step(opts, AfterFiring(opts, s, f, depth, timing), cp, depth, timing)
         == AfterFiring(opts, s, f + (if cp.key !in s.cache && depth >= cp.threshold then [cp.key] else []), depth, timing)
  {
    var p := AfterFiring(opts, s, f, depth, timing);
    var l := cp.key;
    assert p.cache == s.cache + f;
    if l !in s.cache && depth >= cp.threshold {
      assert l !in p.cache;
      if f == [] {
        assert PercentEvents([l][1..], timing) == [];
      } else {
        assert (f + [l])[1..] == f[1..] + [l];
        PercentEventsAppend(f[1..], l, timing);
        assert p.pixelsScrolled >= depth || !opts.trackPixelsScrolled || depth <= s.pixelsScrolled;
        assert FiringEvents(opts, s.pixelsScrolled, f + [l], depth, timing)
            == FiringEvents(opts, s.pixelsScrolled, f, depth, timing) + [PercentScrolled(l, timing)];
      }
    } else {
      assert f + [] == f;
    }
  }

  /** The duplicated for-in loop of trackPercentScrolled emits nothing and
      changes nothing: the first loop cached every label it would fire. */
  lemma SecondPassIsNoOp(opts: Options, s: State, cps: seq<Checkpoint>, depth: nat, timing: real)
    requires Distinct(Keys(cps))
    ensures AfterPercentScrolled(opts, s, cps, depth, timing) == Scan(opts, s, cps, depth, timing)
  {
    var first := Scan(opts, s, cps, depth, timing);
    ScanClosedForm(opts, s, cps, depth, timing);
    ScanClosedForm(opts, first, cps, depth, timing);
    var f := Fired(s.cache, cps, depth);
    assert first.cache == s.cache + f;
    var g := Fired(first.cache, cps, depth);
    if g != [] {
      var x := g[0];
      FiredElements(first.cache, cps, depth, x);
      var k :| 0 <= k < |cps| && Keys(cps)[k] == x;
      FiredIff(first.cache, cps, depth, k);
      FiredIff(s.cache, cps, depth, k);
      assert false;
    }
  }

  /** For ascending thresholds the reached checkpoints are a prefix. */
  lemma {:induction false} ReachedIff(cps: seq<Checkpoint>, depth: nat, k: nat)
    requires Ascending(cps) && k < |cps|
    ensures k < Reached(cps, depth) <==> cps[k].threshold <= depth
    decreases |cps|
  {
    var n := |cps| - 1;
    if depth < cps[n].threshold && k < n {
      ReachedIff(cps[..n], depth, k);
    }
  }

  /** With ascending thresholds and a cache holding exactly the leading keys,
      the fired labels are the next contiguous run of keys. */
  lemma {:induction false} FiredSlice(cache: seq<string>, cps: seq<Checkpoint>, depth: nat)
    requires Ascending(cps) && Distinct(Keys(cps))
    requires forall k :: 0 <= k < |cps| ==> (cps[k].key in cache <==> k < |cache|)
    ensures Fired(cache, cps, depth) == Keys(cps)[Min(|cache|, |cps|)..Max(Min(|cache|, |cps|), Reached(cps, depth))]
    decreases |cps|
  {
    if cps != [] {
      var n := |cps| - 1;
      var pre := cps[..n];
      var c := |cache|;
      assert cps[n].key in cache <==> n < c;
      KeysPrefix(cps, n);
      FiredSlice(cache, pre, depth);
      if depth >= cps[n].threshold {
        if n > 0 {
          ReachedIff(pre, depth, n - 1);
        }
        assert Reached(pre, depth) == n;
        if n >= c {
          SliceFires(cache, cps, depth);
        } else {
          FiredKeepsPrefix(cache, cps, depth);
        }
      } else {
        FiredKeepsPrefix(cache, cps, depth);
        if c <= n {
          SliceUnreached(cps, c, Max(c, Reached(pre, depth)));
        }
      }
    }
  }

  /** The step of FiredSlice where the last checkpoint fires. */
  lemma SliceFires(cache: seq<string>, cps: seq<Checkpoint>, depth: nat)
    requires cps != [] && |cache| <= |cps| - 1
    requires cps[|cps| - 1].key !in cache && depth >= cps[|cps| - 1].threshold
    requires Fired(cache, cps[..|cps| - 1], depth) == Keys(cps[..|cps| - 1])[|cache|..|cps| - 1]
    ensures Fired(cache, cps, depth) == Keys(cps)[|cache|..|cps|]
  {
    var n := |cps| - 1;
    KeysPrefix(cps, n);
    FiredAppendsKey(cache, cps, depth);
    assert Keys(cps)[|cache|..n + 1] == Keys(cps)[|cache|..n] + [Keys(cps)[n]];
  }

  /** The step of FiredSlice where the last checkpoint is not reached. */
  lemma SliceUnreached(cps: seq<Checkpoint>, lo: nat, hi: nat)
    requires cps != [] && lo <= hi <= |cps| - 1
    ensures Keys(cps)[lo..hi] == Keys(cps[..|cps| - 1])[lo..hi]
  {
    KeysPrefix(cps, |cps| - 1);
  }

  /** Unfolding Fired at a last checkpoint that fires. */
  lemma FiredAppendsKey(cache: seq<string>, cps: seq<Checkpoint>, depth: nat)
    requires cps != []
    requires cps[|cps| - 1].key !in cache && depth >= cps[|cps| - 1].threshold
    ensures Fired(cache, cps, depth) == Fired(cache, cps[..|cps| - 1], depth) + [cps[|cps| - 1].key]
  {
  }

  /** Unfolding Fired at a last checkpoint that does not fire. */
  lemma FiredKeepsPrefix(cache: seq<string>, cps: seq<Checkpoint>, depth: nat)
    requires cps != []
    requires cps[|cps| - 1].key in cache || depth < cps[|cps| - 1].threshold
    ensures Fired(cache, cps, depth) == Fired(cache, cps[..|cps| - 1], depth)
  {
  }

  /** A scan keeps the cache a prefix of the keys and extends it up to the
      reached checkpoints. */
  lemma ScanKeepsPrefix(cache: seq<string>, cps: seq<Checkpoint>, depth: nat)
    requires Ascending(cps) && Distinct(Keys(cps))
    requires |cache| <= |cps| && cache == Keys(cps)[..|cache|]
    ensures cache + Fired(cache, cps, depth) == Keys(cps)[..Max(|cache|, Reached(cps, depth))]
  {
    forall k | 0 <= k < |cps|
      ensures cps[k].key in cache <==> k < |cache|
    {
      assert Keys(cps)[k] == cps[k].key;
      if cps[k].key in cache {
        var j :| 0 <= j < |cache| && cache[j] == cps[k].key;
        assert Keys(cps)[j] == cps[k].key;
      }
    }
    FiredSlice(cache, cps, depth);
  }

  /** What a scan's closed form does to the log and the pixel mark. */
  /** The events of one scan: the fired labels in order, and at most one
      pixel event, the band of the depth, only when it passes the mark. */
  lemma FiringEventsContent(opts: Options, mark: nat, fired: seq<string>, depth: nat, timing: real)
    ensures var es := FiringEvents(opts, mark, fired, depth, timing);
      && PercentLabels(es) == fired
      && PixelBands(es) == (if fired != [] && opts.trackPixelsScrolled && depth > mark then [Band(depth)] else [])
  {
    if fired != [] {
      var first := [PercentScrolled(fired[0], timing)];
      var px: seq<Event> := if opts.trackPixelsScrolled && depth > mark then [PixelsScrolled(Band(depth), timing)] else [];
      var rest := PercentEvents(fired[1..], timing);
      LogAppend(first + px, rest);
      LogAppend(first, px);
      PercentEventsLabels(fired[1..], timing);
      assert first[..0] == [] && PercentLabels(first) == [fired[0]] && PixelBands(first) == [];
      if px != [] {
        assert px[..0] == [] && PercentLabels(px) == [] && PixelBands(px) == [Band(depth)];
      }
      assert [fired[0]] + fired[1..] == fired;
    } else {
      assert PercentLabels([]) == [] && PixelBands([]) == [];
    }
  }

  /** What a scan's closed form does to the cache, the log and the pixel mark. */
  lemma FiringEffect(opts: Options, s: State, fired: seq<string>, depth: nat, timing: real)
    ensures var r := AfterFiring(opts, s, fired, depth, timing);
      var raise := fired != [] && opts.trackPixelsScrolled && depth > s.pixelsScrolled;
      && r.cache == s.cache + fired
      && PercentLabels(r.log) == PercentLabels(s.log) + fired
      && PixelBands(r.log) == PixelBands(s.log) + (if raise then [Band(depth)] else [])
      && r.pixelsScrolled == (if raise then depth else s.pixelsScrolled)
      && r.pixelsRounded == (if raise then Band(depth) else s.pixelsRounded)
  {
    if fired == [] {
      assert s.cache + fired == s.cache;
    } else {
      LogAppend(s.log, FiringEvents(opts, s.pixelsScrolled, fired, depth, timing));
      FiringEventsContent(opts, s.pixelsScrolled, fired, depth, timing);
    }
    assert PercentLabels(s.log) + [] == PercentLabels(s.log);
    assert PixelBands(s.log) + [] == PixelBands(s.log);
  }

  // ---------------------------------------------------------------------
  // Lemmas: one sample
  // ---------------------------------------------------------------------

  /** A sample, stated through the reference definition `Fired` of the six
      checkpoints at the current document height. */
  lemma SampleClosedForm(opts: Options, s: State, docHeight: nat, winHeight: nat, scrollTop: nat, timing: real)
    ensures var depth := scrollTop + winHeight;
      AfterSample(opts, s, docHeight, winHeight, scrollTop, timing)
        == if |s.cache| >= 6 then (s, true)
           else if opts.trackPercentScrolled
           then (AfterFiring(opts, s, Fired(s.cache, Checkpoints(docHeight), depth), depth, timing), false)
           else (s, false)
  {
    var cps := Checkpoints(docHeight);
    var depth := scrollTop + winHeight;
    assert Distinct(Keys(cps));
    SecondPassIsNoOp(opts, s, cps, depth, timing);
    ScanClosedForm(opts, s, cps, depth, timing);
  }

  /** Checkpoint k of the six fires exactly when its label is not cached and
      the depth reaches its threshold at the current document height. */
  lemma CheckpointFires(cache: seq<string>, docHeight: nat, depth: nat, k: nat)
    requires k < 6
    ensures Labels[k] in Fired(cache, Checkpoints(docHeight), depth)
        <==> Labels[k] !in cache && depth >= Checkpoints(docHeight)[k].threshold
  {
    var cps := Checkpoints(docHeight);
    assert Keys(cps)[k] == cps[k].key == Labels[k];
    FiredIff(cache, cps, depth, k);
  }

  /** In a sample of an active tracker checkpoint k fires exactly when it is
      not yet cached and the depth reaches its threshold, and afterwards every
      reached checkpoint is cached. */
  lemma SampleThresholdRule(opts: Options, s: State, docHeight: nat, winHeight: nat, scrollTop: nat, timing: real, k: nat)
    requires |s.cache| < 6 && opts.trackPercentScrolled && k < 6
    ensures var depth := scrollTop + winHeight;
      var cps := Checkpoints(docHeight);
      var r := AfterSample(opts, s, docHeight, winHeight, scrollTop, timing).0;
      && (Labels[k] in Fired(s.cache, cps, depth) <==> Labels[k] !in s.cache && depth >= cps[k].threshold)
      && (Labels[k] in r.cache <==> Labels[k] in s.cache || depth >= cps[k].threshold)
  {
    var depth := scrollTop + winHeight;
    var f := Fired(s.cache, Checkpoints(docHeight), depth);
    SampleClosedForm(opts, s, docHeight, winHeight, scrollTop, timing);
    assert AfterSample(opts, s, docHeight, winHeight, scrollTop, timing).0.cache == s.cache + f;
    CheckpointFires(s.cache, docHeight, depth, k);
  }

  /** Samples keep the invariant. */
  lemma SampleKeepsInvariant(opts: Options, s: State, docHeight: nat, winHeight: nat, scrollTop: nat, timing: real)
    requires Invariant(opts, s)
    ensures Invariant(opts, AfterSample(opts, s, docHeight, winHeight, scrollTop, timing).0)
  {
    SampleClosedForm(opts, s, docHeight, winHeight, scrollTop, timing);
    if |s.cache| < 6 && opts.trackPercentScrolled {
      ScanKeepsInvariant(opts, s, docHeight, scrollTop + winHeight, timing);
    }
  }

  /** A percent scan of the six checkpoints keeps the invariant. */
  lemma ScanKeepsInvariant(opts: Options, s: State, docHeight: nat, depth: nat, timing: real)
    requires Invariant(opts, s) && opts.trackPercentScrolled
    ensures Invariant(opts, AfterFiring(opts, s, Fired(s.cache, Checkpoints(docHeight), depth), depth, timing))
  {
    var cps := Checkpoints(docHeight);
    assert Distinct(Keys(cps));
    ScanKeepsPrefix(s.cache, cps, depth);
    FiringKeepsInvariant(opts, s, Fired(s.cache, cps, depth), depth, timing, Max(|s.cache|, Reached(cps, depth)));
  }

  /** A scan that extends the cache to a longer prefix of the labels keeps
      the invariant. */
  lemma FiringKeepsInvariant(opts: Options, s: State, fired: seq<string>, depth: nat, timing: real, n: nat)
    requires Invariant(opts, s) && opts.trackPercentScrolled
    requires n <= |Labels| && s.cache + fired == Labels[..n]
    ensures Invariant(opts, AfterFiring(opts, s, fired, depth, timing))
  {
    FiringEffect(opts, s, fired, depth, timing);
    if fired != [] && opts.trackPixelsScrolled && depth > s.pixelsScrolled {
      BandMonotone(s.pixelsScrolled, depth);
    }
  }

  /** From an empty cache, a depth at the bottom of the document fires all six
      checkpoints, in key order. */
  lemma BottomFiresAll(docHeight: nat, depth: nat)
    requires depth >= docHeight
    ensures Fired([], Checkpoints(docHeight), depth) == Labels
  {
    var cps := Checkpoints(docHeight);
    assert Distinct(Keys(cps));
    ScanKeepsPrefix([], cps, depth);
    assert Reached(cps, depth) == 6;
  }

  /** Several checkpoints can fire in one sample, in key order: a sample at
      the bottom of the document, taken before any checkpoint has fired, fires
      all six. */
  lemma FullScrollFiresAll(opts: Options, s: State, docHeight: nat, winHeight: nat, scrollTop: nat, timing: real)
    requires opts.trackPercentScrolled && s.cache == [] && scrollTop + winHeight >= docHeight
    ensures var r := AfterSample(opts, s, docHeight, winHeight, scrollTop, timing);
      && !r.1
      && r.0.cache == Labels
      && PercentLabels(r.0.log) == PercentLabels(s.log) + Labels
  {
    var depth := scrollTop + winHeight;
    SampleClosedForm(opts, s, docHeight, winHeight, scrollTop, timing);
    BottomFiresAll(docHeight, depth);
    FiringEffect(opts, s, Labels, depth, timing);
  }

  /** What one sample emits: the fired labels, in key order, and at most one
      pixel event, only when pixel tracking is on and the depth passes the
      mark; its band is the depth floored to 250 and the mark never falls. */
  lemma SampleEvents(opts: Options, s: State, docHeight: nat, winHeight: nat, scrollTop: nat, timing: real)
    ensures var depth := scrollTop + winHeight;
      var r := AfterSample(opts, s, docHeight, winHeight, scrollTop, timing).0;
      var fired := if |s.cache| < 6 && opts.trackPercentScrolled then Fired(s.cache, Checkpoints(docHeight), depth) else [];
      var raise := fired != [] && opts.trackPixelsScrolled && depth > s.pixelsScrolled;
      && r.cache == s.cache + fired
      && PercentLabels(r.log) == PercentLabels(s.log) + fired
      && PixelBands(r.log) == PixelBands(s.log) + (if raise then [Band(depth)] else [])
      && r.pixelsScrolled == (if raise then depth else s.pixelsScrolled)
      && r.pixelsScrolled >= s.pixelsScrolled
  {
    var depth := scrollTop + winHeight;
    SampleClosedForm(opts, s, docHeight, winHeight, scrollTop, timing);
    var fired := if |s.cache| < 6 && opts.trackPercentScrolled then Fired(s.cache, Checkpoints(docHeight), depth) else [];
    FiringEffect(opts, s, fired, depth, timing);
  }

  // ---------------------------------------------------------------------
  // Lemmas: whole runs
  // ---------------------------------------------------------------------

  lemma {:induction false} RunKeepsInvariant(opts: Options, s: State, ms: seq<Measurement>)
    requires Invariant(opts, s)
    ensures Invariant(opts, Run(opts, s, ms))
    decreases |ms|
  {
    if ms != [] {
      var m := ms[0];
      SampleKeepsInvariant(opts, s, m.docHeight, m.winHeight, m.scrollTop, m.timing);
      RunKeepsInvariant(opts, AfterSample(opts, s, m.docHeight, m.winHeight, m.scrollTop, m.timing).0, ms[1..]);
    }
  }

  /** Each label is reported at most once in a tracker's lifetime, and the
      cache holds only the six checkpoint labels, never `Baseline`. */
  lemma AtMostOnce(opts: Options, s: State)
    requires Invariant(opts, s)
    ensures Distinct(PercentLabels(s.log))
    ensures Distinct(s.cache) && |s.cache| <= 6 && BaselineLabel !in s.cache
    ensures forall x :: x in s.cache ==> x in Labels
    ensures |PixelBands(s.log)| <= 6
  {
    LabelsDistinct();
    var ls := PercentLabels(s.log);
    forall j, k | 0 <= j < k < |ls|
      ensures ls[j] != ls[k]
    {
      assert ls[k] == Labels[k - 1];
      if j > 0 {
        assert ls[j] == Labels[j - 1];
      }
    }
  }

  /** Over any sequence of samples after construction, no percent label is
      reported twice and the invariant holds. */
  lemma LifetimeAtMostOnce(opts: Options, ms: seq<Measurement>)
    ensures Invariant(opts, Run(opts, Init(opts), ms))
    ensures Distinct(PercentLabels(Run(opts, Init(opts), ms).log))
  {
    InitInvariant(opts);
    RunKeepsInvariant(opts, Init(opts), ms);
    AtMostOnce(opts, Run(opts, Init(opts), ms));
  }

  lemma LabelsDistinct()
    ensures Distinct(Labels) && BaselineLabel !in Labels
  {
  }

  /** Once all six checkpoints are cached, samples change nothing: the
      exhausted state is final. */
  lemma {:induction false} ExhaustedIsFinal(opts: Options, s: State, ms: seq<Measurement>)
    requires |s.cache| >= 6
    ensures Run(opts, s, ms) == s
    decreases |ms|
  {
    if ms != [] {
      ExhaustedIsFinal(opts, s, ms[1..]);
    }
  }

  /** With percent tracking off a tracker emits nothing after the baseline,
      pixel events included. */
  lemma {:induction false} PercentOffIsSilent(opts: Options, s: State, ms: seq<Measurement>)
    requires !opts.trackPercentScrolled
    ensures Run(opts, s, ms) == s
    decreases |ms|
  {
    if ms != [] {
      PercentOffIsSilent(opts, s, ms[1..]);
    }
  }

  // ---------------------------------------------------------------------
  // The tracker object
  // ---------------------------------------------------------------------

  class Tracker {
    const options: Options
    var cache: seq<string>
    var pixelsScrolled: nat
    var pixelsRounded: nat
    /** Every event sent to the analytics sink, oldest first. */
    ghost var log: seq<Event>

    ghost function Snapshot(): State
      reads this
    {
      State(cache, pixelsScrolled, pixelsRounded, log)
    }

    ghost predicate Valid()
      reads this
    {
      Invariant(options, Snapshot())
    }

    /** Records the options and reports the baseline. */
    constructor (options: Options)
      ensures this.options == options
      ensures Snapshot() == Init(options)
      ensures Valid()
    {
      this.options := options;
      cache := [];
      pixelsScrolled := 0;
      pixelsRounded := 0;
      log := [];
      new;
      TrackView(BaselineLabel, 0, 0.0);
    }

    method TrackView(name: string, depth: nat, timing: real)
      modifies this
      ensures Snapshot() == AfterView(options, old(Snapshot()), name, depth, timing)
    {
      log := log + [PercentScrolled(name, timing)];
      if options.trackPixelsScrolled && depth > pixelsScrolled {
        pixelsScrolled := depth;
        pixelsRounded := depth / BandWidth * BandWidth;
        log := log + [PixelsScrolled(pixelsRounded, timing)];
      }
    }

    /** The body of both checkpoint loops: report and cache a checkpoint that
        is reached and not yet cached. */
    method Visit(cp: Checkpoint, depth: nat, timing: real)
      modifies this
      ensures Snapshot() == Step(options, old(Snapshot()), cp, depth, timing)
    {
      if cp.key !in cache && depth >= cp.threshold {
        TrackView(cp.key, depth, timing);
        cache := cache + [cp.key];
      }
    }

    /** Both loops of the source; on distinct keys the result is that of the
        first loop alone. */
    method TrackPercentScrolled(checkpoints: seq<Checkpoint>, depth: nat, timing: real)
      modifies this
      ensures Snapshot() == AfterPercentScrolled(options, old(Snapshot()), checkpoints, depth, timing)
      ensures Distinct(Keys(checkpoints)) ==> Snapshot() == Scan(options, old(Snapshot()), checkpoints, depth, timing)
    {
      var i := 0;
      while i < |checkpoints|
        invariant 0 <= i <= |checkpoints|
        invariant Snapshot() == Scan(options, old(Snapshot()), checkpoints[..i], depth, timing)
      {
        assert checkpoints[..i + 1][..i] == checkpoints[..i];
        Visit(checkpoints[i], depth, timing);
        i := i + 1;
      }
      assert checkpoints[..i] == checkpoints;
      ghost var first := Snapshot();
      var j := 0;
      while j < |checkpoints|
        invariant 0 <= j <= |checkpoints|
        invariant Snapshot() == Scan(options, first, checkpoints[..j], depth, timing)
      {
        assert checkpoints[..j + 1][..j] == checkpoints[..j];
        Visit(checkpoints[j], depth, timing);
        j := j + 1;
      }
      assert checkpoints[..j] == checkpoints;
      if Distinct(Keys(checkpoints)) {
        SecondPassIsNoOp(options, old(Snapshot()), checkpoints, depth, timing);
      }
    }

    /** One throttled scroll sample; returns true when the handler should unbind. */
    method Sample(docHeight: nat, winHeight: nat, scrollTop: nat, timing: real) returns (unbind: bool)
      requires Valid()
      modifies this
      ensures Valid()
      ensures (Snapshot(), unbind) == AfterSample(options, old(Snapshot()), docHeight, winHeight, scrollTop, timing)
    {
      var depth := scrollTop + winHeight;
      var checkpoints := Checkpoints(docHeight);
      if |cache| >= 6 {
        return true;
      }
      if options.trackPercentScrolled {
        TrackPercentScrolled(checkpoints, depth, timing);
      }
      unbind := false;
      SampleKeepsInvariant(options, old(Snapshot()), docHeight, winHeight, scrollTop, timing);
    }
  }
}
