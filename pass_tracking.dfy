/** The two loops of `examples/track_doppler.rs`: the AOS/LOS pass finder,
    which samples the satellite's elevation once a minute over a bounded
    horizon, and the tracker, which samples a found pass every five
    seconds and records one observation per sample above the mask.

    Times are Unix seconds.  The propagator followed by the observer
    geometry is one injected function `LookAngles` from a time to the look
    angles at that time, `None` where propagation fails.  Angles are in
    degrees, as the code converts them before every comparison. */
module PassTracking {
  import opened Wrappers

  /** What `predict_observe_orbit` gives the two loops, converted as they
      convert it: elevation and azimuth in degrees, range rate in km/s. */
  datatype Look = Look(elevation: real, azimuth: real, rangeRateKmS: real)

  /** `predict_orbit` then `predict_observe_orbit` at a Unix time. */
  type LookAngles = int -> Option<Look>

  /** `doppler_downlink(freq_tx, range_rate)`: the received frequency. */
  type Downlink = (real, real) -> real

  /** The finder's step, one minute. */
  const SearchStep: int := 60
  /** The tracker's step, five seconds. */
  const TrackStep: int := 5
  const SecondsPerHour: int := 3600

  // ------------------------------------------------------------ pass finder

  /** The finder's visibility test: strictly above the mask. */
  predicate Visible(l: Look, minElevation: real) {
    l.elevation > minElevation
  }

  /** The sample at `k` is available and its visibility is `visible`. */
  ghost predicate Sample(look: LookAngles, minElevation: real, k: int, visible: bool) {
    look(k).Some? && Visible(look(k).value, minElevation) == visible
  }

  /** Every sample on the one-minute grid from `from` up to (not
      including) `to` is available with visibility `visible`. */
  ghost predicate Steady(look: LookAngles, minElevation: real, from: int, to: int, visible: bool) {
    forall k :: from <= k < to && (k - from) % SearchStep == 0 ==> Sample(look, minElevation, k, visible)
  }

  /** Moving one step along a grid keeps the grid. */
  lemma GridStep(k: int, t: int, step: int)
    requires step == SearchStep || step == TrackStep
    ensures (k - (t + step)) % step == (k - t) % step
  {
    if step == SearchStep {
    } else {
    }
  }

  /** A steady stretch is its first sample and the steady stretch after it. */
  lemma SteadyStep(look: LookAngles, minElevation: real, from: int, to: int, visible: bool)
    requires from < to
    ensures Steady(look, minElevation, from, to, visible)
            <==> Sample(look, minElevation, from, visible) && Steady(look, minElevation, from + SearchStep, to, visible)
  {
    if Sample(look, minElevation, from, visible) && Steady(look, minElevation, from + SearchStep, to, visible) {
      forall k | from <= k < to && (k - from) % SearchStep == 0
        ensures Sample(look, minElevation, k, visible)
      {
        if k != from {
          GridStep(k, from, SearchStep);
        }
      }
    }
    if Steady(look, minElevation, from, to, visible) {
      forall k | from + SearchStep <= k < to && (k - (from + SearchStep)) % SearchStep == 0
        ensures Sample(look, minElevation, k, visible)
      {
        GridStep(k, from, SearchStep);
      }
    }
  }

  /** The finder's state machine from the sample at `t` on, `aos` holding
      the acquisition time once a pass has begun (`in_pass` is
      `aos.Some?`): the first failed sample ends the search with `None`,
      so does reaching `end`; the first visible sample out of a pass is
      the AOS, the first invisible one in a pass the LOS. */
  function Scan(look: LookAngles, minElevation: real, t: int, end: int, aos: Option<int>): Option<(int, int)>
    decreases end - t
  {
    if t >= end then None
    else match look(t)
      case None => None
      case Some(l) =>
        var visible := Visible(l, minElevation);
        if visible && aos.None? then Scan(look, minElevation, t + SearchStep, end, Some(t))
        else if !visible && aos.Some? then Some((aos.value, t))
        else Scan(look, minElevation, t + SearchStep, end, aos)
  }

  /** (aos, los) is the first pass on the one-minute grid from `start`
      that closes before `end`: every sample before the AOS is available
      and not visible, every sample from the AOS up to the LOS is
      available and visible, and the LOS sample is available and not
      visible. */
  ghost predicate IsFirstPass(look: LookAngles, minElevation: real, start: int, end: int, aos: int, los: int) {
    && start <= aos < los < end
    && (aos - start) % SearchStep == 0
    && (los - aos) % SearchStep == 0
    && Steady(look, minElevation, start, aos, false)
    && Steady(look, minElevation, aos, los, true)
    && Sample(look, minElevation, los, false)
  }

  /** `encontrar_proximo_pase`: steps a minute at a time from `start`
      while before `start + maxHours` hours, returning at the first LOS
      and giving up at the first failed propagation. */
  method FindNextPass(look: LookAngles, minElevation: real, start: int, maxHours: int)
    returns (pass: Option<(int, int)>)
    ensures pass == Scan(look, minElevation, start, start + maxHours * SecondsPerHour, None)
  {
    var currentTime := start;
    var endSearch := start + maxHours * SecondsPerHour;
    var inPass := false;
    var aosTime: Option<int> := None;
    while currentTime < endSearch
      invariant inPass <==> aosTime.Some?
      invariant Scan(look, minElevation, currentTime, endSearch, aosTime)
                == Scan(look, minElevation, start, endSearch, None)
      decreases endSearch - currentTime
    {
      var sample := look(currentTime);
      if sample.None? {
        return None;
      }
      var isVisible := sample.value.elevation > minElevation;
      if isVisible && !inPass {
        aosTime := Some(currentTime);
        inPass := true;
      } else if !isVisible && inPass {
        return Some((aosTime.value, currentTime));
      }
      currentTime := currentTime + SearchStep;
    }
    return None;
  }

  /** In a pass, the scan ends at the first invisible sample, every sample
      before it being visible. */
  lemma {:induction false} InPassSound(look: LookAngles, minElevation: real, t: int, end: int, aos: int, pass: (int, int))
    requires Scan(look, minElevation, t, end, Some(aos)) == Some(pass)
    ensures pass.0 == aos
    ensures t <= pass.1 < end && (pass.1 - t) % SearchStep == 0
    ensures Steady(look, minElevation, t, pass.1, true)
    ensures Sample(look, minElevation, pass.1, false)
    decreases end - t
  {
    if Visible(look(t).value, minElevation) {
      InPassSound(look, minElevation, t + SearchStep, end, aos, pass);
      GridStep(pass.1, t, SearchStep);
      SteadyStep(look, minElevation, t, pass.1, true);
    }
  }

  /** Soundness: what the scan reports is the first pass. */
  lemma {:induction false} ScanSound(look: LookAngles, minElevation: real, t: int, end: int, pass: (int, int))
    requires Scan(look, minElevation, t, end, None) == Some(pass)
    ensures IsFirstPass(look, minElevation, t, end, pass.0, pass.1)
    decreases end - t
  {
    if Visible(look(t).value, minElevation) {
      InPassSound(look, minElevation, t + SearchStep, end, t, pass);
      GridStep(pass.1, t, SearchStep);
      SteadyStep(look, minElevation, t, pass.1, true);
    } else {
      ScanSound(look, minElevation, t + SearchStep, end, pass);
      GridStep(pass.0, t, SearchStep);
      SteadyStep(look, minElevation, t, pass.0, false);
    }
  }

  /** In a pass whose samples are visible up to an invisible one at `los`,
      the scan reports `los`. */
  lemma {:induction false} InPassComplete(look: LookAngles, minElevation: real, t: int, end: int, aos: int, los: int)
    requires t <= los < end && (los - t) % SearchStep == 0
    requires Steady(look, minElevation, t, los, true)
    requires Sample(look, minElevation, los, false)
    ensures Scan(look, minElevation, t, end, Some(aos)) == Some((aos, los))
    decreases los - t
  {
    if t < los {
      SteadyStep(look, minElevation, t, los, true);
      GridStep(los, t, SearchStep);
      InPassComplete(look, minElevation, t + SearchStep, end, aos, los);
    }
  }

  /** Completeness: the first pass is what the scan reports. */
  lemma {:induction false} ScanComplete(look: LookAngles, minElevation: real, t: int, end: int, aos: int, los: int)
    requires IsFirstPass(look, minElevation, t, end, aos, los)
    ensures Scan(look, minElevation, t, end, None) == Some((aos, los))
    decreases aos - t
  {
    if t == aos {
      SteadyStep(look, minElevation, t, los, true);
      GridStep(los, t, SearchStep);
      InPassComplete(look, minElevation, t + SearchStep, end, t, los);
    } else {
      SteadyStep(look, minElevation, t, aos, false);
      GridStep(aos, t, SearchStep);
      ScanComplete(look, minElevation, t + SearchStep, end, aos, los);
    }
  }

  /** The finder returns (aos, los) exactly when that is the first pass on
      its grid that closes inside the horizon. */
  lemma FindsFirstPass(look: LookAngles, minElevation: real, start: int, maxHours: int, aos: int, los: int)
    ensures var end := start + maxHours * SecondsPerHour;
            Scan(look, minElevation, start, end, None) == Some((aos, los))
            <==> IsFirstPass(look, minElevation, start, end, aos, los)
  {
    var end := start + maxHours * SecondsPerHour;
    if Scan(look, minElevation, start, end, None) == Some((aos, los)) {
      ScanSound(look, minElevation, start, end, (aos, los));
    }
    if IsFirstPass(look, minElevation, start, end, aos, los) {
      ScanComplete(look, minElevation, start, end, aos, los);
    }
  }

  /** The finder returns `None` exactly when no pass opens and closes on
      its grid before a failed sample and inside the horizon. */
  lemma NoPassIff(look: LookAngles, minElevation: real, start: int, end: int)
    ensures Scan(look, minElevation, start, end, None) == None
            <==> !exists aos, los :: IsFirstPass(look, minElevation, start, end, aos, los)
  {
    var r := Scan(look, minElevation, start, end, None);
    if r.Some? {
      ScanSound(look, minElevation, start, end, r.value);
    }
    if exists aos, los :: IsFirstPass(look, minElevation, start, end, aos, los) {
      var aos, los :| IsFirstPass(look, minElevation, start, end, aos, los);
      ScanComplete(look, minElevation, start, end, aos, los);
    }
  }

  /** A pass already in progress at the start time is reported with the
      start time as its AOS. */
  lemma PassInProgressAtStart(look: LookAngles, minElevation: real, start: int, end: int)
    requires Sample(look, minElevation, start, true)
    requires Scan(look, minElevation, start, end, None).Some?
    ensures Scan(look, minElevation, start, end, None).value.0 == start
  {
    var pass := Scan(look, minElevation, start, end, None).value;
    ScanSound(look, minElevation, start, end, pass);
    assert !Sample(look, minElevation, start, false);
  }

  /** A pass the horizon cuts short is not reported: when every sample
      from `t` to the horizon is visible, the scan gives `None`, in a pass
      or out of one. */
  lemma {:induction false} UnclosedPassIsNone(look: LookAngles, minElevation: real, t: int, end: int, aos: Option<int>)
    requires Steady(look, minElevation, t, end, true)
    ensures Scan(look, minElevation, t, end, aos) == None
    decreases end - t
  {
    if t < end {
      SteadyStep(look, minElevation, t, end, true);
      var next := if aos.None? then Some(t) else aos;
      UnclosedPassIsNone(look, minElevation, t + SearchStep, end, next);
    }
  }

  /** A failed propagation on the grid ends the search: any pass reported
      closes before the failed sample. */
  lemma FailureEndsSearch(look: LookAngles, minElevation: real, start: int, end: int, k: int)
    requires start <= k && (k - start) % SearchStep == 0
    requires look(k).None?
    ensures Scan(look, minElevation, start, end, None).Some? ==>
              Scan(look, minElevation, start, end, None).value.1 < k
  {
    var r := Scan(look, minElevation, start, end, None);
    if r.Some? {
      var pass := r.value;
      ScanSound(look, minElevation, start, end, pass);
      assert !Sample(look, minElevation, k, false) && !Sample(look, minElevation, k, true);
      assert (k - pass.0) % SearchStep == 0;
    }
  }

  // ---------------------------------------------------------------- tracker

  /** `Observacion`: one recorded sample of a tracked pass. */
  datatype Observation = Observation(time: int, elevation: real, azimuth: real, dopplerHz: real, rangeRate: real)

  /** The tracker's precondition: propagation succeeds at every sample
      from `from` to `los` on the five-second grid (the code panics
      otherwise). */
  ghost predicate AvailableFrom(look: LookAngles, from: int, los: int) {
    forall k :: from <= k <= los && (k - from) % TrackStep == 0 ==> look(k).Some?
  }

  lemma AvailableStep(look: LookAngles, from: int, los: int)
    requires AvailableFrom(look, from, los)
    ensures AvailableFrom(look, from + TrackStep, los)
  {
    forall k | from + TrackStep <= k <= los && (k - (from + TrackStep)) % TrackStep == 0
      ensures look(k).Some?
    {
      GridStep(k, from, TrackStep);
    }
  }

  /** The observation recorded for look angles `l` at `time`: the range
      rate in m/s, and the Doppler offset as the received frequency minus
      the transmitted one. */
  function Measure(l: Look, time: int, downlink: Downlink, freqTx: real): (o: Observation)
    ensures o.time == time && o.elevation == l.elevation && o.azimuth == l.azimuth
    ensures o.rangeRate == 1000.0 * l.rangeRateKmS
    ensures o.dopplerHz + freqTx == downlink(freqTx, o.rangeRate)
  {
    var rangeRate := l.rangeRateKmS * 1000.0;
    var freqRx := downlink(freqTx, rangeRate);
    Observation(time, l.elevation, l.azimuth, freqRx - freqTx, rangeRate)
  }

  /** The observations the tracker records from `t` to `los`: one per
      five-second sample whose elevation is not below the mask. */
  ghost function Tracked(look: LookAngles, downlink: Downlink, minElevation: real, freqTx: real, t: int, los: int): seq<Observation>
    requires AvailableFrom(look, t, los)
    decreases los - t
  {
    if t > los then []
    else
      AvailableStep(look, t, los);
      var l := look(t).value;
      var rest := Tracked(look, downlink, minElevation, freqTx, t + TrackStep, los);
      if l.elevation < minElevation then rest
      else [Measure(l, t, downlink, freqTx)] + rest
  }

  /** `trackear_pase`: samples every five seconds from `aos` up to and
      including `los`, skipping samples below the mask, and returns the
      observations it collects. */
  method TrackPass(look: LookAngles, downlink: Downlink, minElevation: real, freqTx: real, aos: int, los: int)
    returns (observations: seq<Observation>)
    requires AvailableFrom(look, aos, los)
    ensures observations == Tracked(look, downlink, minElevation, freqTx, aos, los)
  {
    var currentTime := aos;
    observations := [];
    while currentTime <= los
      invariant AvailableFrom(look, currentTime, los)
      invariant observations + Tracked(look, downlink, minElevation, freqTx, currentTime, los)
                == Tracked(look, downlink, minElevation, freqTx, aos, los)
      decreases los - currentTime
    {
      var observation := look(currentTime).value;
      var elevationDeg := observation.elevation;
      var azimuthDeg := observation.azimuth;
      var rangeRate := observation.rangeRateKmS * 1000.0;
      AvailableStep(look, currentTime, los);
      if elevationDeg < minElevation {
        currentTime := currentTime + TrackStep;
        continue;
      }
      var freqRx := downlink(freqTx, rangeRate);
      var dopplerHz := freqRx - freqTx;
      ghost var rest := Tracked(look, downlink, minElevation, freqTx, currentTime + TrackStep, los);
      assert observations + ([Observation(currentTime, elevationDeg, azimuthDeg, dopplerHz, rangeRate)] + rest)
             == (observations + [Observation(currentTime, elevationDeg, azimuthDeg, dopplerHz, rangeRate)]) + rest;
      observations := observations + [Observation(currentTime, elevationDeg, azimuthDeg, dopplerHz, rangeRate)];
      currentTime := currentTime + TrackStep;
    }
  }

  /** The recorded times lie on the five-second grid from `t` to `los`
      inclusive, in strictly increasing order. */
  lemma {:induction false} TrackedTimes(look: LookAngles, downlink: Downlink, minElevation: real, freqTx: real, t: int, los: int)
    requires AvailableFrom(look, t, los)
    ensures TimesOnGrid(Tracked(look, downlink, minElevation, freqTx, t, los), t, los)
    ensures Increasing(Tracked(look, downlink, minElevation, freqTx, t, los))
    decreases los - t
  {
    if t <= los {
      AvailableStep(look, t, los);
      TrackedTimes(look, downlink, minElevation, freqTx, t + TrackStep, los);
      var rest := Tracked(look, downlink, minElevation, freqTx, t + TrackStep, los);
      forall i | 0 <= i < |rest|
        ensures (rest[i].time - t) % TrackStep == 0
      {
        GridStep(rest[i].time, t, TrackStep);
      }
    }
  }

  /** Every time in `obs` is on the five-second grid from `t`, up to `los`. */
  ghost predicate TimesOnGrid(obs: seq<Observation>, t: int, los: int) {
    forall i :: 0 <= i < |obs| ==> t <= obs[i].time <= los && (obs[i].time - t) % TrackStep == 0
  }

  ghost predicate Increasing(obs: seq<Observation>) {
    forall i, j :: 0 <= i < j < |obs| ==> obs[i].time < obs[j].time
  }

  /** Some observation in `obs` was taken at time `k`. */
  ghost predicate Recorded(obs: seq<Observation>, k: int) {
    exists i :: 0 <= i < |obs| && obs[i].time == k
  }

  /** Each observation in `obs` is the measurement of its own sample and
      is not below the mask. */
  ghost predicate Measured(look: LookAngles, downlink: Downlink, minElevation: real, freqTx: real, obs: seq<Observation>) {
    forall i :: 0 <= i < |obs| ==>
      && look(obs[i].time).Some?
      && obs[i] == Measure(look(obs[i].time).value, obs[i].time, downlink, freqTx)
      && obs[i].elevation >= minElevation
  }

  /** Each recorded observation is the measurement of its own sample and
      is not below the mask. */
  lemma {:induction false} TrackedMeasures(look: LookAngles, downlink: Downlink, minElevation: real, freqTx: real, t: int, los: int)
    requires AvailableFrom(look, t, los)
    ensures Measured(look, downlink, minElevation, freqTx, Tracked(look, downlink, minElevation, freqTx, t, los))
    decreases los - t
  {
    if t <= los {
      AvailableStep(look, t, los);
      TrackedMeasures(look, downlink, minElevation, freqTx, t + TrackStep, los);
      var obs := Tracked(look, downlink, minElevation, freqTx, t, los);
      var rest := Tracked(look, downlink, minElevation, freqTx, t + TrackStep, los);
      var l := look(t).value;
      if l.elevation >= minElevation {
        assert obs == [Measure(l, t, downlink, freqTx)] + rest;
        forall i | 0 < i < |obs|
          ensures obs[i] == rest[i - 1]
        {
        }
      }
    }
  }

  /** A grid sample is recorded exactly when its elevation is at least the
      mask, so an elevation equal to the mask, which the finder calls not
      visible, is recorded. */
  lemma {:induction false} TrackedRecords(look: LookAngles, downlink: Downlink, minElevation: real, freqTx: real, t: int, los: int)
    requires AvailableFrom(look, t, los)
    ensures forall k :: t <= k <= los && (k - t) % TrackStep == 0 ==>
              (Recorded(Tracked(look, downlink, minElevation, freqTx, t, los), k) <==> look(k).value.elevation >= minElevation)
    decreases los - t
  {
    if t <= los {
      AvailableStep(look, t, los);
      TrackedRecords(look, downlink, minElevation, freqTx, t + TrackStep, los);
      TrackedTimes(look, downlink, minElevation, freqTx, t + TrackStep, los);
      var obs := Tracked(look, downlink, minElevation, freqTx, t, los);
      var rest := Tracked(look, downlink, minElevation, freqTx, t + TrackStep, los);
      forall k | t <= k <= los && (k - t) % TrackStep == 0
        ensures Recorded(obs, k) <==> look(k).value.elevation >= minElevation
      {
        if look(t).value.elevation >= minElevation {
          RecordedCons(obs[0], rest, k);
        }
        if k == t {
          assert !Recorded(rest, t);
        } else {
          GridStep(k, t, TrackStep);
        }
      }
    }
  }

  lemma RecordedCons(o: Observation, rest: seq<Observation>, k: int)
    ensures Recorded([o] + rest, k) <==> o.time == k || Recorded(rest, k)
  {
    var obs := [o] + rest;
    if Recorded(rest, k) {
      var i :| 0 <= i < |rest| && rest[i].time == k;
      assert obs[i + 1].time == k;
    }
    if Recorded(obs, k) && o.time != k {
      var i :| 0 <= i < |obs| && obs[i].time == k;
      assert rest[i - 1].time == k;
    }
    if o.time == k {
      assert obs[0].time == k;
    }
  }
}
