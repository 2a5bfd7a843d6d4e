/** The orbit form as the page keeps it: eight numeric fields and the lock
    radio, updated in place by one handler per field. Reading a field stands
    for getVar, assigning one for the `.val(x)` write, and assigning `lock`
    for checking a radio. Every method is proved to compute the matching
    function of module OrbitSpec, where the resolver's properties are
    proved. */
module OrbitResolver {
  import opened Conversions
  import opened OrbitSpec

  class OrbitForm {
    var R: real
    var M: real
    var a: real
    var Alt: real
    var T: real
    var e: real
    var Ap: real
    var Pe: real
    var lock: Lock

    /** a_to_T and T_to_a, fixed for the life of the page. */
    const kepler: Kepler

    /** The form's current contents as a value. */
    function State(): Form
      reads this
    {
      Form(R, M, a, Alt, T, e, Ap, Pe, lock)
    }

    constructor (kepler: Kepler, s: Form)
      ensures State() == s
    {
      this.kepler := kepler;
      R, M, a, Alt, T := s.R, s.M, s.a, s.Alt, s.T;
      e, Ap, Pe, lock := s.e, s.Ap, s.Pe, s.lock;
    }

    /** checkApsides: writes Ap and Pe, larger value first, and flips an
        apsis lock when it swaps them. */
    method CheckApsides(Pe: real, Ap: real)
      modifies this`Ap, this`Pe, this`lock
      ensures State() == OrbitSpec.CheckApsides(old(State()), Pe, Ap)
      ensures this.Ap >= this.Pe
    {
      if Ap < Pe {
        this.Ap := Pe;
        this.Pe := Ap;
        match lock {
          case ApLock => lock := PeLock;
          case PeLock => lock := ApLock;
          case ELock =>
        }
      } else {
        this.Ap := Ap;
        this.Pe := Pe;
      }
    }

    /** compute_orbit(a, R): recomputes the apsides (or e) for the given
        semi-major axis and radius; writes neither a nor R. */
    method ComputeOrbit(a: real, R: real)
      requires Computable(State(), a)
      modifies this`Ap, this`Pe, this`e, this`lock
      ensures State() == OrbitSpec.ComputeOrbit(old(State()), a, R)
    {
      match lock {
        case ELock =>
          var e := this.e;
          var aps := EToAps(e, a, R);
          this.Ap := aps.Ap;
          this.Pe := aps.Pe;
        case ApLock =>
          var Ap := this.Ap;
          var Pe := 2.0 * a - 2.0 * R - Ap;
          CheckApsides(Pe, Ap);
          Ap := this.Ap;
          Pe := this.Pe;
          this.e := ApsToE(Pe, Ap, R);
        case PeLock =>
          var Pe := this.Pe;
          var Ap := 2.0 * a - 2.0 * R - Pe;
          CheckApsides(Pe, Ap);
          Ap := this.Ap;
          Pe := this.Pe;
          this.e := ApsToE(Pe, Ap, R);
      }
    }

    /** R_changed (the menu reset to "Other" and the warning display are
        not modelled). */
    method RChanged()
      requires Computable(State(), a)
      modifies this
      ensures State() == OrbitSpec.RChanged(old(State()))
    {
      var R := this.R;
      var a := this.a;
      var Alt := a - R;
      ComputeOrbit(a, R);
      this.Alt := Alt;
    }

    /** M_changed. */
    method MChanged()
      modifies this
      ensures State() == OrbitSpec.MChanged(kepler, old(State()))
    {
      var M := this.M;
      var a := this.a;
      var T := kepler.aToT(a, M);
      this.T := T;
    }

    /** Alt_changed. */
    method AltChanged()
      requires Computable(State(), R + Alt)
      modifies this
      ensures State() == OrbitSpec.AltChanged(kepler, old(State()))
    {
      var R := this.R;
      var M := this.M;
      var Alt := this.Alt;
      var a := R + Alt;
      ComputeOrbit(a, R);
      this.a := a;
      this.T := AltToT(kepler, Alt, M, R);
    }

    /** a_changed. */
    method AChanged()
      requires Computable(State(), a)
      modifies this
      ensures State() == OrbitSpec.AChanged(kepler, old(State()))
    {
      var R := this.R;
      var M := this.M;
      var a := this.a;
      var Alt := a - R;
      var T := kepler.aToT(a, M);
      ComputeOrbit(a, R);
      this.Alt := Alt;
      this.T := T;
    }

    /** T_changed: the semi-major axis of the new period drives the orbit
        and the altitude, and is then dropped. */
    method TChanged()
      requires Computable(State(), kepler.tToA(T, M))
      modifies this
      ensures State() == OrbitSpec.TChanged(kepler, old(State()))
    {
      var R := this.R;
      var M := this.M;
      var T := this.T;
      var a := kepler.tToA(T, M);
      var Alt := TToAlt(kepler, T, M, R);
      ComputeOrbit(a, R);
      this.Alt := Alt;
    }

    /** e_changed. The altitude computed under the apsis locks goes to
        "#alt", a field other than "#Alt", so Alt is left as it was. */
    method EChanged()
      requires CanEditE(State())
      modifies this
      ensures State() == OrbitSpec.EChanged(kepler, old(State()))
    {
      var e := this.e;
      var R := this.R;
      var M := this.M;
      match lock {
        case ELock =>
          var a := this.a;
          var aps := EToAps(e, a, R);
          CheckApsides(aps.Pe, aps.Ap);
        case ApLock =>
          var Ap := this.Ap;
          var a := (Ap + R) / (1.0 + e);
          var Pe := 2.0 * a - 2.0 * R - Ap;
          var T := kepler.aToT(a, M);
          CheckApsides(Pe, Ap);
          this.a := a;
          this.T := T;
        case PeLock =>
          var Pe := this.Pe;
          var a := (Pe + R) / (1.0 - e);
          var Ap := 2.0 * a - 2.0 * R - Pe;
          var T := kepler.aToT(a, M);
          CheckApsides(Pe, Ap);
          this.a := a;
          this.T := T;
      }
    }

    /** Ap_changed. */
    method ApChanged()
      requires CanEditAp(State())
      modifies this
      ensures State() == OrbitSpec.ApChanged(kepler, old(State()))
    {
      var Ap := this.Ap;
      var R := this.R;
      var M := this.M;
      match lock {
        case ELock =>
          var e := this.e;
          var a := (Ap + R) / (1.0 + e);
          var Pe := 2.0 * a - 2.0 * R - Ap;
          var T := kepler.aToT(a, M);
          CheckApsides(Pe, Ap);
          this.a := a;
          this.T := T;
        case ApLock =>
          var a := this.a;
          var Pe := 2.0 * a - 2.0 * R - Ap;
          CheckApsides(Pe, Ap);
          Pe := this.Pe;
          Ap := this.Ap;
          this.e := ApsToE(Pe, Ap, R);
        case PeLock =>
          var Pe := this.Pe;
          var a := (Ap + Pe + 2.0 * R) / 2.0;
          var T := kepler.aToT(a, M);
          CheckApsides(Pe, Ap);
          Pe := this.Pe;
          Ap := this.Ap;
          this.e := ApsToE(Pe, Ap, R);
          this.a := a;
          this.T := T;
      }
    }

    /** Pe_changed. */
    method PeChanged()
      requires CanEditPe(State())
      modifies this
      ensures State() == OrbitSpec.PeChanged(kepler, old(State()))
    {
      var Pe := this.Pe;
      var R := this.R;
      var M := this.M;
      match lock {
        case ELock =>
          var e := this.e;
          var a := (Pe + R) / (1.0 - e);
          var Ap := 2.0 * a - 2.0 * R - Pe;
          var T := kepler.aToT(a, M);
          CheckApsides(Pe, Ap);
          this.a := a;
          this.T := T;
        case PeLock =>
          var a := this.a;
          var Ap := 2.0 * a - 2.0 * R - Pe;
          CheckApsides(Pe, Ap);
          Pe := this.Pe;
          Ap := this.Ap;
          this.e := ApsToE(Pe, Ap, R);
        case ApLock =>
          var Ap := this.Ap;
          var a := (Ap + Pe + 2.0 * R) / 2.0;
          var T := kepler.aToT(a, M);
          CheckApsides(Pe, Ap);
          Pe := this.Pe;
          Ap := this.Ap;
          this.e := ApsToE(Pe, Ap, R);
          this.a := a;
          this.T := T;
      }
    }
  }
}
