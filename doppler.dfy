/** The finite-difference Doppler estimator of `src/doppler.rs`: the
    station's geodetic position on the WGS-84 ellipsoid, the slant range to
    the satellite that the propagator places at a given second, and the
    Doppler shift from two range samples `dt` seconds apart.

    Floating point is modelled by `real`.  `sin`, `cos` and `sqrt` are not
    interpreted: they come in a `MathLib` value and all the model knows of
    them is `Sound`.  The orbital propagator is a parameter too: a partial
    function from a Unix time in seconds to a position in kilometres, `None`
    where propagation fails. */
module Doppler {
  import opened Wrappers

  /** WGS-84 semi-major axis, in metres. */
  const SemiMajorAxis: real := 6378137.0
  /** WGS-84 first eccentricity squared (6.69437999014e-3). */
  const EccentricitySquared: real := 0.00669437999014
  /** The speed of light, in metres per second, exactly. */
  const SpeedOfLight: real := 299792458.0

  datatype Vec3 = Vec3(x: real, y: real, z: real)

  /** The floating-point library functions the code calls. */
  datatype MathLib = MathLib(sin: real -> real, cos: real -> real, sqrt: real -> real)

  /** The facts about `sin`, `cos` and `sqrt` that the proofs use, all of
      them true of the real functions. */
  ghost predicate Sound(m: MathLib) {
    && (forall t :: m.sin(t) * m.sin(t) + m.cos(t) * m.cos(t) == 1.0)
    && m.sin(0.0) == 0.0
    && m.cos(0.0) == 1.0
    && (forall v :: 0.0 <= v ==> 0.0 <= m.sqrt(v) && m.sqrt(v) * m.sqrt(v) == v)
  }

  /** `predict_rs::PredictObserver`, as far as the range needs it:
      latitude and longitude in radians, altitude in metres. */
  datatype Observer = Observer(latitude: real, longitude: real, altitude: real)

  /** `predict_orbit(elements, constants, t).position`: the satellite's
      position in kilometres at Unix time `t`, or `None` when the
      propagator returns an error. */
  type Propagator = int -> Option<Vec3>

  function Sq(v: real): real { v * v }

  // ------------------------------------------------------ geodetic to ECEF

  /** What `Sound` says about `sin`: its square is at most 1. */
  lemma SinSquaredAtMostOne(m: MathLib, t: real)
    requires Sound(m)
    ensures 0.0 <= m.sin(t) * m.sin(t) <= 1.0
  {
    var s, c := m.sin(t), m.cos(t);
    assert c * c >= 0.0;
    assert s * s >= 0.0;
  }

  /** A square root of a value in (0, 1] lies in (0, 1]. */
  lemma SqrtOfUnitInterval(m: MathLib, v: real)
    requires Sound(m)
    requires 0.0 < v <= 1.0
    ensures 0.0 < m.sqrt(v) <= 1.0
  {
    var q := m.sqrt(v);
    assert q * q == v;
    assert (q - 1.0) * (q + 1.0) <= 0.0;
  }

  /** The radius of curvature in the prime vertical,
      n = a / sqrt(1 - e^2 sin^2 lat): it squares to a^2 / (1 - e^2 sin^2 lat)
      and is never shorter than the semi-major axis. */
  function PrimeVerticalRadius(m: MathLib, lat: real): (n: real)
    requires Sound(m)
    ensures n >= SemiMajorAxis
    ensures n * n * (1.0 - EccentricitySquared * m.sin(lat) * m.sin(lat)) == SemiMajorAxis * SemiMajorAxis
  {
    var s := m.sin(lat);
    var d := 1.0 - EccentricitySquared * s * s;
    SinSquaredAtMostOne(m, lat);
    assert 0.0 < d <= 1.0;
    SqrtOfUnitInterval(m, d);
    var q := m.sqrt(d);
    var n := SemiMajorAxis / q;
    assert n * q == SemiMajorAxis;
    assert n >= SemiMajorAxis by {
      assert SemiMajorAxis == n * q <= n * 1.0;
    }
    assert n * n * d == SemiMajorAxis * SemiMajorAxis by {
      calc {
        n * n * d;
        n * n * (q * q);
        (n * q) * (n * q);
      }
    }
    n
  }

  /** `geodetic_to_ecef`: the closed-form geodetic-to-Earth-fixed
      conversion, in metres. */
  function GeodeticToEcef(m: MathLib, lat: real, lon: real, alt: real): Vec3
    requires Sound(m)
  {
    var sinLat := m.sin(lat);
    var cosLat := m.cos(lat);
    var cosLon := m.cos(lon);
    var sinLon := m.sin(lon);
    var n := PrimeVerticalRadius(m, lat);
    Vec3((n + alt) * cosLat * cosLon,
         (n + alt) * cosLat * sinLon,
         ((1.0 - EccentricitySquared) * n + alt) * sinLat)
  }

  /** Latitude, longitude and altitude zero is the point (a, 0, 0). */
  lemma EcefAtOrigin(m: MathLib)
    requires Sound(m)
    ensures GeodeticToEcef(m, 0.0, 0.0, 0.0) == Vec3(SemiMajorAxis, 0.0, 0.0)
  {
    var n := PrimeVerticalRadius(m, 0.0);
    assert n * n == SemiMajorAxis * SemiMajorAxis;
    assert n == SemiMajorAxis by {
      assert (n - SemiMajorAxis) * (n + SemiMajorAxis) == 0.0;
    }
  }

  /** The polar component ignores the longitude and vanishes on the
      equator. */
  lemma EcefPolarComponent(m: MathLib, lat: real, lon1: real, lon2: real, alt: real)
    requires Sound(m)
    ensures GeodeticToEcef(m, lat, lon1, alt).z == GeodeticToEcef(m, lat, lon2, alt).z
    ensures lat == 0.0 ==> GeodeticToEcef(m, lat, lon1, alt).z == 0.0
  {
  }

  /** The longitude only turns the point about the polar axis: its
      distance from the axis is |(n + alt) cos lat| whatever the longitude. */
  lemma EcefDistanceFromAxis(m: MathLib, lat: real, lon: real, alt: real)
    requires Sound(m)
    ensures var p := GeodeticToEcef(m, lat, lon, alt);
            p.x * p.x + p.y * p.y == Sq((PrimeVerticalRadius(m, lat) + alt) * m.cos(lat))
  {
    var k := (PrimeVerticalRadius(m, lat) + alt) * m.cos(lat);
    var c, s := m.cos(lon), m.sin(lon);
    EcefHorizontal(m, lat, lon, alt);
    assert s * s + c * c == 1.0;
    RotationKeepsLength(k, c, s);
  }

  /** The equatorial components are (k cos lon, k sin lon) with
      k = (n + alt) cos lat; a helper for `EcefDistanceFromAxis`. */
  lemma EcefHorizontal(m: MathLib, lat: real, lon: real, alt: real)
    requires Sound(m)
    ensures var k := (PrimeVerticalRadius(m, lat) + alt) * m.cos(lat);
            var p := GeodeticToEcef(m, lat, lon, alt);
            p.x == k * m.cos(lon) && p.y == k * m.sin(lon)
  {
    var n := PrimeVerticalRadius(m, lat);
    assert GeodeticToEcef(m, lat, lon, alt)
           == Vec3((n + alt) * m.cos(lat) * m.cos(lon), (n + alt) * m.cos(lat) * m.sin(lon),
                   ((1.0 - EccentricitySquared) * n + alt) * m.sin(lat));
  }

  /** (k cos, k sin) has length |k|. */
  lemma RotationKeepsLength(k: real, c: real, s: real)
    requires s * s + c * c == 1.0
    ensures (k * c) * (k * c) + (k * s) * (k * s) == Sq(k)
  {
    calc {
      (k * c) * (k * c) + (k * s) * (k * s);
      k * k * (s * s + c * c);
    }
  }

  /** A point at altitude zero lies on the WGS-84 ellipsoid
      (x^2 + y^2) / a^2 + z^2 / b^2 = 1, with b^2 = a^2 (1 - e^2). */
  lemma EcefOnEllipsoid(m: MathLib, lat: real, lon: real)
    requires Sound(m)
    ensures var p := GeodeticToEcef(m, lat, lon, 0.0);
            (p.x * p.x + p.y * p.y) * (1.0 - EccentricitySquared) + p.z * p.z
            == SemiMajorAxis * SemiMajorAxis * (1.0 - EccentricitySquared)
  {
    var n := PrimeVerticalRadius(m, lat);
    var s, c := m.sin(lat), m.cos(lat);
    var p := GeodeticToEcef(m, lat, lon, 0.0);
    EcefPolar(m, lat, lon, 0.0);
    EcefDistanceFromAxis(m, lat, lon, 0.0);
    assert s * s + c * c == 1.0;
    EllipsoidAlgebra(n, s, c, EccentricitySquared, p.x * p.x + p.y * p.y, p.z);
  }

  /** The polar component with the radius n named; a helper for
      `EcefOnEllipsoid`. */
  lemma EcefPolar(m: MathLib, lat: real, lon: real, alt: real)
    requires Sound(m)
    ensures GeodeticToEcef(m, lat, lon, alt).z == ((1.0 - EccentricitySquared) * PrimeVerticalRadius(m, lat) + alt) * m.sin(lat)
  {
  }

  /** The algebra of `EcefOnEllipsoid`, over plain reals; the altitude,
      zero here, still appears as `+ 0.0` as it does in `GeodeticToEcef`. */
  lemma EllipsoidAlgebra(n: real, s: real, c: real, e: real, horizontal: real, z: real)
    requires horizontal == Sq((n + 0.0) * c) && z == ((1.0 - e) * n + 0.0) * s
    requires s * s + c * c == 1.0
    requires n * n * (1.0 - e * s * s) == SemiMajorAxis * SemiMajorAxis
    ensures horizontal * (1.0 - e) + z * z == SemiMajorAxis * SemiMajorAxis * (1.0 - e)
  {
    assert horizontal == n * n * (c * c);
    assert z * z == (1.0 - e) * (1.0 - e) * (n * n) * (s * s);
    assert c * c == 1.0 - s * s;
    calc {
      horizontal * (1.0 - e) + z * z;
      n * n * (1.0 - s * s) * (1.0 - e) + (1.0 - e) * (1.0 - e) * (n * n) * (s * s);
      (1.0 - e) * (n * n) * ((1.0 - s * s) + (1.0 - e) * (s * s));
      (1.0 - e) * (n * n * (1.0 - e * s * s));
    }
  }

  // ------------------------------------------------------------------ range

  /** The station's Earth-fixed position, in metres. */
  function StationPosition(m: MathLib, observer: Observer): Vec3
    requires Sound(m)
  {
    GeodeticToEcef(m, observer.latitude, observer.longitude, observer.altitude)
  }

  /** The squared distance, in square metres, between a satellite position
      given in kilometres and a station position given in metres, the two
      taken as coordinates in one frame. */
  function SquaredDistanceMetres(satKm: Vec3, stationM: Vec3): real {
    Sq(1000.0 * satKm.x - stationM.x) + Sq(1000.0 * satKm.y - stationM.y) + Sq(1000.0 * satKm.z - stationM.z)
  }

  /** Scaling a difference by 1000 scales its square by 10^6. */
  lemma ScaledSquares(dx: real, dy: real, dz: real)
    ensures Sq(1000.0 * dx) + Sq(1000.0 * dy) + Sq(1000.0 * dz) == 1000000.0 * (dx * dx + dy * dy + dz * dz)
  {
  }

  /** `calcular_rango`: the slant range in metres, `None` exactly when the
      propagator fails at `when`, otherwise the Euclidean distance between
      the propagated position and the station's Earth-fixed position (no
      sidereal rotation is applied to either). */
  function SlantRange(m: MathLib, propagate: Propagator, observer: Observer, when: int): (r: Option<real>)
    requires Sound(m)
    ensures r.None? <==> propagate(when).None?
    ensures r.Some? ==> 0.0 <= r.value
    ensures r.Some? ==> r.value * r.value == SquaredDistanceMetres(propagate(when).value, StationPosition(m, observer))
  {
    match propagate(when)
    case None => None
    case Some(sat) =>
      var obs := GeodeticToEcef(m, observer.latitude, observer.longitude, observer.altitude);
      var obsKm := Vec3(obs.x / 1000.0, obs.y / 1000.0, obs.z / 1000.0);
      var dx := sat.x - obsKm.x;
      var dy := sat.y - obsKm.y;
      var dz := sat.z - obsKm.z;
      var d2 := dx * dx + dy * dy + dz * dz;
      SqNonNegative(dx);
      SqNonNegative(dy);
      SqNonNegative(dz);
      var range := m.sqrt(d2) * 1000.0;
      RangeAlgebra(sat, obs, m.sqrt(d2));
      Some(range)
  }

  /** The algebra of `SlantRange`: a distance in kilometres times 1000 is
      the distance in metres. */
  lemma RangeAlgebra(sat: Vec3, obs: Vec3, q: real)
    requires q * q == Sq(sat.x - obs.x / 1000.0) + Sq(sat.y - obs.y / 1000.0) + Sq(sat.z - obs.z / 1000.0)
    ensures (q * 1000.0) * (q * 1000.0) == SquaredDistanceMetres(sat, obs)
  {
    var dx, dy, dz := sat.x - obs.x / 1000.0, sat.y - obs.y / 1000.0, sat.z - obs.z / 1000.0;
    assert (q * 1000.0) * (q * 1000.0) == (q * q) * 1000000.0;
    assert 1000.0 * sat.x - obs.x == 1000.0 * dx;
    assert 1000.0 * sat.y - obs.y == 1000.0 * dy;
    assert 1000.0 * sat.z - obs.z == 1000.0 * dz;
    ScaledSquares(dx, dy, dz);
  }

  /** The range is zero exactly when the propagated position, read in
      metres, is the station's position. */
  lemma RangeZeroIffColocated(m: MathLib, propagate: Propagator, observer: Observer, when: int)
    requires Sound(m)
    requires propagate(when).Some?
    ensures var sat, st := propagate(when).value, StationPosition(m, observer);
            SlantRange(m, propagate, observer, when) == Some(0.0)
            <==> Vec3(1000.0 * sat.x, 1000.0 * sat.y, 1000.0 * sat.z) == st
  {
    var sat, st := propagate(when).value, StationPosition(m, observer);
    var r := SlantRange(m, propagate, observer, when).value;
    var a, b, c := 1000.0 * sat.x - st.x, 1000.0 * sat.y - st.y, 1000.0 * sat.z - st.z;
    assert r * r == Sq(a) + Sq(b) + Sq(c);
    SqNonNegative(a);
    SqNonNegative(b);
    SqNonNegative(c);
    if r == 0.0 {
      SqZero(a);
      SqZero(b);
      SqZero(c);
    }
    if a == 0.0 && b == 0.0 && c == 0.0 {
      ProductZero(r, r);
    }
  }

  lemma SqNonNegative(a: real)
    ensures Sq(a) >= 0.0
  {
  }

  /** A product is zero only when a factor is. */
  lemma ProductZero(a: real, b: real)
    requires a * b == 0.0
    ensures a == 0.0 || b == 0.0
  {
  }

  /** Only zero squares to zero. */
  lemma SqZero(a: real)
    requires Sq(a) == 0.0
    ensures a == 0.0
  {
    ProductZero(a, a);
  }

  lemma MulNonNegative(a: real, b: real)
    requires 0.0 <= a && 0.0 <= b
    ensures 0.0 <= a * b
  {
  }

  /** Multiplying by a non-negative factor keeps an inequality. */
  lemma MulMonotone(a: real, b: real, c: real)
    requires a <= b && 0.0 <= c
    ensures a * c <= b * c
  {
    assert (b - a) * c >= 0.0;
  }

  // ---------------------------------------------------------------- doppler

  /** The classical Doppler shift `-f * (rate / c)`: the shift times the
      speed of light is minus the carrier times the range rate. */
  function DopplerShift(freqTx: real, rangeRate: real): (shift: real)
    ensures shift * SpeedOfLight == -freqTx * rangeRate
  {
    -freqTx * (rangeRate / SpeedOfLight)
  }

  /** For a positive carrier, a receding satellite (positive range rate)
      lowers the frequency, an approaching one raises it, and a constant
      range leaves it. */
  lemma DopplerShiftSign(freqTx: real, rangeRate: real)
    requires freqTx > 0.0
    ensures rangeRate > 0.0 ==> DopplerShift(freqTx, rangeRate) < 0.0
    ensures rangeRate < 0.0 ==> DopplerShift(freqTx, rangeRate) > 0.0
    ensures rangeRate == 0.0 ==> DopplerShift(freqTx, rangeRate) == 0.0
  {
    var shift := DopplerShift(freqTx, rangeRate);
    if rangeRate > 0.0 {
      assert freqTx * rangeRate > 0.0;
    } else if rangeRate < 0.0 {
      assert freqTx * (-rangeRate) > 0.0;
    }
  }

  /** The shift is linear in the carrier frequency. */
  lemma DopplerShiftLinear(f1: real, f2: real, k: real, rangeRate: real)
    ensures DopplerShift(f1 + f2, rangeRate) == DopplerShift(f1, rangeRate) + DopplerShift(f2, rangeRate)
    ensures DopplerShift(k * f1, rangeRate) == k * DopplerShift(f1, rangeRate)
  {
  }

  /** 437.5 MHz approaching at 7 km/s is shifted up by
      437500000 * 7000 / 299792458 Hz (about 10.2 kHz). */
  lemma DopplerShiftExample()
    ensures DopplerShift(437500000.0, -7000.0) == 437500000.0 * 7000.0 / 299792458.0
  {
  }

  /** Below 8 km/s of range rate, a carrier up to 437.5 MHz moves by less
      than 12 kHz. */
  lemma DopplerShiftBound(freqTx: real, rangeRate: real)
    requires 0.0 <= freqTx <= 437500000.0
    requires -8000.0 <= rangeRate <= 8000.0
    ensures -12000.0 < DopplerShift(freqTx, rangeRate) < 12000.0
  {
    ProductBound(freqTx, rangeRate);
  }

  /** |f * r| <= 437500000 * 8000 for f in [0, 437500000], r in [-8000, 8000]. */
  lemma ProductBound(f: real, r: real)
    requires 0.0 <= f <= 437500000.0
    requires -8000.0 <= r <= 8000.0
    ensures -437500000.0 * 8000.0 <= f * r <= 437500000.0 * 8000.0
  {
    if r >= 0.0 {
      MulMonotone(f, 437500000.0, r);
      MulMonotone(r, 8000.0, 437500000.0);
      MulNonNegative(f, r);
    } else {
      MulMonotone(f, 437500000.0, -r);
      MulMonotone(-r, 8000.0, 437500000.0);
      MulNonNegative(f, -r);
      assert f * (-r) == -(f * r);
    }
  }

  /** `calcular_doppler`: the shift of `freqTx` for the range rate
      (r2 - r1) / dt estimated from the ranges r1 at `when` and r2 at
      `when + dt`; `None` when either range is unavailable.  The code does
      not guard `dt == 0`, so neither may the caller pass it. */
  function FiniteDifferenceDoppler(m: MathLib, propagate: Propagator, observer: Observer,
                                   freqTx: real, when: int, dtSecs: int): (r: Option<real>)
    requires Sound(m)
    requires dtSecs != 0
    ensures r.None? <==> propagate(when).None? || propagate(when + dtSecs).None?
    ensures r.Some? ==>
              var r1, r2 := SlantRange(m, propagate, observer, when), SlantRange(m, propagate, observer, when + dtSecs);
              && r1.Some? && r2.Some?
              && r.value * SpeedOfLight * (dtSecs as real) == -freqTx * (r2.value - r1.value)
  {
    match SlantRange(m, propagate, observer, when)
    case None => None
    case Some(range1) =>
      match SlantRange(m, propagate, observer, when + dtSecs)
      case None => None
      case Some(range2) =>
        var shift := DopplerShift(freqTx, (range2 - range1) / (dtSecs as real));
        EstimatorAlgebra(freqTx, range1, range2, dtSecs as real);
        Some(shift)
  }

  /** The algebra of `FiniteDifferenceDoppler`: the shift for the rate
      (r2 - r1) / dt, scaled by c dt, is -f (r2 - r1). */
  lemma EstimatorAlgebra(freqTx: real, range1: real, range2: real, dt: real)
    requires dt != 0.0
    ensures DopplerShift(freqTx, (range2 - range1) / dt) * SpeedOfLight * dt == -freqTx * (range2 - range1)
  {
    var rate := (range2 - range1) / dt;
    var shift := DopplerShift(freqTx, rate);
    assert rate * dt == range2 - range1;
    calc {
      shift * SpeedOfLight * dt;
      -freqTx * rate * dt;
      -freqTx * (rate * dt);
    }
  }

  /** The sign rule on the estimator: with a positive carrier and a
      forward step, a growing range gives a negative shift, a shrinking
      range a positive one, and an unchanged range none. */
  lemma FiniteDifferenceSign(m: MathLib, propagate: Propagator, observer: Observer,
                             freqTx: real, when: int, dtSecs: int)
    requires Sound(m)
    requires freqTx > 0.0 && dtSecs > 0
    requires propagate(when).Some? && propagate(when + dtSecs).Some?
    ensures var shift := FiniteDifferenceDoppler(m, propagate, observer, freqTx, when, dtSecs).value;
            var r1 := SlantRange(m, propagate, observer, when).value;
            var r2 := SlantRange(m, propagate, observer, when + dtSecs).value;
            && (r2 > r1 ==> shift < 0.0)
            && (r2 < r1 ==> shift > 0.0)
            && (r2 == r1 ==> shift == 0.0)
  {
    var r1 := SlantRange(m, propagate, observer, when).value;
    var r2 := SlantRange(m, propagate, observer, when + dtSecs).value;
    var rate := (r2 - r1) / (dtSecs as real);
    DopplerShiftSign(freqTx, rate);
    assert r2 > r1 ==> rate > 0.0;
    assert r2 < r1 ==> rate < 0.0;
  }
}
