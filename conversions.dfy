/** The pure conversions of the orbit calculator: Kepler-law wrappers between
    altitude and period, and the algebra relating eccentricity, linear
    eccentricity (centre-to-focus distance), apoapsis and periapsis.

    Apoapsis and periapsis are distances above the reference body's surface,
    so a body of radius R on an orbit of semi-major axis a has
    Ap + Pe == 2a - 2R. Rounding to twenty decimal places is taken as the
    identity throughout. */
module Conversions {

  /** The two Kepler-law conversions, semi-major axis to period and back,
      each parameterised by the reference body's mass. They are computed in
      floating point with square and cube roots, so the model treats them as
      given functions and assumes nothing about them. */
  datatype Kepler = Kepler(aToT: (real, real) -> real, tToA: (real, real) -> real)

  /** Alt_to_T: the period of the orbit whose semi-major axis is Alt + R,
      the altitude being measured from the surface. */
  function AltToT(k: Kepler, Alt: real, M: real, R: real): real
  {
    k.aToT(Alt + R, M)
  }

  /** T_to_Alt: the altitude for period T, that is the height above the
      surface of the semi-major axis T_to_a gives. */
  function TToAlt(k: Kepler, T: real, M: real, R: real): real
  {
    k.tToA(T, M) - R
  }

  /** Wherever the Kepler pair inverts itself, the altitude wrappers do too:
      the radius is added and removed consistently. */
  lemma AltitudeRoundTrip(k: Kepler, Alt: real, M: real, R: real)
    requires k.tToA(k.aToT(Alt + R, M), M) == Alt + R
    ensures TToAlt(k, AltToT(k, Alt, M, R), M, R) == Alt
  {
  }

  lemma PeriodRoundTrip(k: Kepler, T: real, M: real, R: real)
    requires k.aToT(k.tToA(T, M), M) == T
    ensures AltToT(k, TToAlt(k, T, M, R), M, R) == T
  {
  }

  /** An apoapsis/periapsis pair, as e_to_aps returns it. */
  datatype Apsides = Apsides(Ap: real, Pe: real)

  /** c_to_e: eccentricity from linear eccentricity c and semi-major axis a. */
  function CToE(c: real, a: real): (e: real)
    requires a != 0.0
    ensures e * a == c
  {
    c / a
  }

  /** e_to_c: linear eccentricity from eccentricity and semi-major axis;
      it undoes c_to_e. */
  function EToC(e: real, a: real): (c: real)
    ensures a != 0.0 ==> CToE(c, a) == e
  {
    e * a
  }

  lemma LinearEccentricityRoundTrip(e: real, c: real, a: real)
    requires a != 0.0
    ensures CToE(EToC(e, a), a) == e
    ensures EToC(CToE(c, a), a) == c
  {
  }

  /** e_to_aps: both apsides lie the linear eccentricity away from the centre,
      measured from the surface. Their sum is fixed by a and R, their
      difference is twice the linear eccentricity. */
  function EToAps(e: real, a: real, R: real): (r: Apsides)
    ensures r.Ap + r.Pe == 2.0 * a - 2.0 * R
    ensures r.Ap - r.Pe == 2.0 * EToC(e, a)
  {
    var c := EToC(e, a);
    var Pe := a - c - R;
    var Ap := a + c - R;
    Apsides(Ap, Pe)
  }

  /** aps_to_e: eccentricity of the orbit with the given apsides. The
      semi-major axis it divides by is (Pe + Ap + 2R) / 2. */
  function ApsToE(Pe: real, Ap: real, R: real): (e: real)
    requires Pe + Ap + 2.0 * R != 0.0
    ensures e * (Pe + Ap + 2.0 * R) == Ap - Pe
  {
    var a := (Pe + Ap + 2.0 * R) / 2.0;
    var c := a - (Pe + R);
    CToE(c, a)
  }

  /** Round trip: the eccentricity recovered from e_to_aps is the one put in. */
  lemma EccentricityRoundTrip(e: real, a: real, R: real)
    requires a != 0.0
    ensures var aps := EToAps(e, a, R); ApsToE(aps.Pe, aps.Ap, R) == e
  {
  }

  /** Round trip the other way: the apsides are recovered from their
      eccentricity and their semi-major axis. */
  lemma ApsidesRoundTrip(Pe: real, Ap: real, R: real)
    requires Pe + Ap + 2.0 * R != 0.0
    ensures EToAps(ApsToE(Pe, Ap, R), (Pe + Ap + 2.0 * R) / 2.0, R) == Apsides(Ap, Pe)
  {
  }

  /** A semi-major axis a with a·(1 + e) == Ap + R is the one whose e_to_aps
      apoapsis is Ap; the periapsis then fills up the sum 2a - 2R. */
  lemma ApoapsisFixesOrbit(e: real, a: real, R: real, Ap: real)
    requires a * (1.0 + e) == Ap + R
    ensures EToAps(e, a, R) == Apsides(Ap, 2.0 * a - 2.0 * R - Ap)
  {
  }

  /** The mirror image: a·(1 - e) == Pe + R fixes the periapsis. */
  lemma PeriapsisFixesOrbit(e: real, a: real, R: real, Pe: real)
    requires a * (1.0 - e) == Pe + R
    ensures EToAps(e, a, R) == Apsides(2.0 * a - 2.0 * R - Pe, Pe)
  {
  }

  /** Pe_to_c: linear eccentricity from periapsis; the orbit of that
      linear eccentricity has this periapsis. */
  function PeToC(Pe: real, a: real, R: real): (c: real)
    ensures a != 0.0 ==> EToAps(CToE(c, a), a, R).Pe == Pe
  {
    a - (Pe + R)
  }

  /** Ap_to_c: linear eccentricity from apoapsis; the orbit of that
      linear eccentricity has this apoapsis. */
  function ApToC(Ap: real, a: real, R: real): (c: real)
    ensures a != 0.0 ==> EToAps(CToE(c, a), a, R).Ap == Ap
  {
    (Ap + R) - a
  }

  /** c_to_Ap: apoapsis from linear eccentricity; Ap_to_c undoes it. */
  function CToAp(c: real, a: real, R: real): (Ap: real)
    ensures ApToC(Ap, a, R) == c
  {
    c + a - R
  }

  /** The single-apsis helpers agree with e_to_aps: each apsis gives back the
      linear eccentricity, and c_to_Ap inverts Ap_to_c. */
  lemma ApsisHelpersAgree(e: real, a: real, R: real, Ap: real)
    ensures var aps := EToAps(e, a, R);
      PeToC(aps.Pe, a, R) == EToC(e, a) && ApToC(aps.Ap, a, R) == EToC(e, a)
      && CToAp(EToC(e, a), a, R) == aps.Ap
    ensures CToAp(ApToC(Ap, a, R), a, R) == Ap
  {
  }
}
