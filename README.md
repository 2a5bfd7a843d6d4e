# Orbit engineer: the orbit resolver, verified

This project models the orbit calculator of `main.js`. The page keeps eight
numeric fields consistent for a body orbiting a reference body: radius R,
mass M, semi-major axis a, altitude Alt, period T, eccentricity e,
apoapsis Ap and periapsis Pe. Both apsides are measured from the surface.
A lock radio (`e_lock`, `Ap_lock` or `Pe_lock`) says which of e, Ap and Pe
is authoritative. Editing any field fires that field's handler. The handler
re-reads the form, recomputes the dependent fields and writes them back.
Two shared routines do most of the work. `compute_orbit` re-derives the
apsides (or e) for a given semi-major axis. `checkApsides` stores the larger
apsis as Ap and, when that means a swap, flips `Ap_lock` and `Pe_lock`.

The model has four modules:

- `Conversions` (conversions.dfy) holds the apsis/eccentricity algebra
  (`c_to_e`, `e_to_c`, `e_to_aps`, `aps_to_e`, `Pe_to_c`, `Ap_to_c`,
  `c_to_Ap`) and the altitude wrappers `Alt_to_T` and `T_to_Alt`. The Kepler
  conversions `a_to_T` and `T_to_a` are supplied as two given functions in
  a `Kepler` value, and nothing is assumed about them.
- `TimeFormat` (time_format.dfy) holds `kerbal_Time`. It splits a duration
  into 6-hour days, hours, minutes and seconds, using JavaScript's
  truncating `%` on real numbers.
- `OrbitSpec` (orbit_spec.dfy) gives the resolver as functions on a `Form`
  value, one per handler. Each function states what its handler
  guarantees. `Step` and `Run` replay a sequence of user actions, and two
  lemmas prove invariants over any such sequence.
- `OrbitResolver` (orbit_resolver.dfy) has the class `OrbitForm`. It holds
  the fields as mutable `real`s and the lock as a `Lock`. Each handler is a
  method that reads and writes the fields in the order the source does,
  including the re-reads after `checkApsides`. Each method is proved to
  produce exactly the matching `OrbitSpec` function of the old state.

Rounding by `rounder` (twenty decimal places) is taken as the identity.
Where the code differs from the usual description of the calculator, the
model follows the code:

- `T_changed` computes a new semi-major axis but never stores it in a.
- The branches of the e, Ap and Pe handlers that compute a new semi-major
  axis write the altitude to `#alt`, a field other than `#Alt`, so Alt keeps
  its old value. (`e_changed` under `e_lock`, and `Ap_changed` or
  `Pe_changed` under their own lock, compute no altitude at all.)
- Under `e_lock`, `compute_orbit` does not call `checkApsides`, so Ap < Pe
  can be stored.

The model does not claim that "Ap ≥ Pe" or "a = (Ap + Pe + 2R)/2" holds
after every update. Each handler's contract says which of the two it
establishes, and `RunKeepsConsistent` proves that both survive any sequence
of actions under the apsis locks that never edits T or selects `e_lock`.
That is a sufficient condition, not an exact one. For a single period edit,
`TChangedConsistentIff` gives the exact condition. The sum alone survives
any sequence of actions, under every lock, that never edits T
(`RunKeepsSum`). No lemma says when the order Ap ≥ Pe survives a sequence of
actions under `e_lock`.

## Model

| member | source | states |
|---|---|---|
| `Conversions.CToE` | main.js:146-149 | the eccentricity times the semi-major axis gives back the linear eccentricity |
| `Conversions.EToC` | main.js:150-153 | `c_to_e` of the result gives back e whenever a ≠ 0 |
| `Conversions.LinearEccentricityRoundTrip` | main.js:146-153 | `c_to_e` and `e_to_c` invert each other for every non-zero semi-major axis |
| `Conversions.EToAps` | main.js:154-163 | the apsides sum to 2a − 2R and differ by twice the linear eccentricity e·a |
| `Conversions.ApsToE` | main.js:164-170 | the eccentricity e satisfies e·(Pe + Ap + 2R) = Ap − Pe, which fixes it uniquely |
| `Conversions.EccentricityRoundTrip` | main.js:154-170 | for a ≠ 0, applying `aps_to_e` to the apsides that `e_to_aps` returns gives back the original e |
| `Conversions.ApsidesRoundTrip` | main.js:154-170 | `e_to_aps` at a = (Pe + Ap + 2R)/2 of `aps_to_e`'s result returns the original (Ap, Pe) |
| `Conversions.ApoapsisFixesOrbit` | main.js:154-163 | when a·(1 + e) = Ap + R, as the handlers arrange when they derive a from a locked or edited Ap, `e_to_aps` gives exactly Ap and 2a − 2R − Ap |
| `Conversions.PeriapsisFixesOrbit` | main.js:154-163 | when a·(1 − e) = Pe + R, `e_to_aps` gives exactly 2a − 2R − Pe and Pe |
| `Conversions.PeToC` | main.js:171-174 | for a ≠ 0, the orbit with the returned linear eccentricity has this periapsis |
| `Conversions.ApToC` | main.js:179-182 | for a ≠ 0, the orbit with the returned linear eccentricity has this apoapsis |
| `Conversions.CToAp` | main.js:183-186 | `Ap_to_c` of the result gives back c |
| `Conversions.ApsisHelpersAgree` | main.js:171-186 | `Pe_to_c` and `Ap_to_c` recover e·a from each apsis of `e_to_aps`; `c_to_Ap` rebuilds Ap and inverts `Ap_to_c` |
| `Conversions.AltitudeRoundTrip` | main.js:100-115 | where `T_to_a` inverts `a_to_T` at a = Alt + R, `T_to_Alt` inverts `Alt_to_T` |
| `Conversions.PeriodRoundTrip` | main.js:100-115 | where `a_to_T` inverts `T_to_a`, `Alt_to_T` inverts `T_to_Alt` |
| `TimeFormat.JsRem` | main.js:124-130 | JavaScript `%` with a positive divisor: the remainder has the dividend's sign, is smaller than the divisor, and leaves a whole multiple; integers give integers |
| `TimeFormat.KerbalTime` | main.js:121-135 | 21600·days + 3600·hours + 60·mins + secs equals t exactly; days, hours and mins are whole; for t ≥ 0 all parts are ≥ 0 and secs < 60, mins < 60, hours < 6; a negative t gives the mirror image |
| `OrbitSpec.CheckApsides` | main.js:498-520 | afterwards Ap ≥ Pe and {Ap, Pe} is the input pair; the lock changes iff the input had Ap < Pe and an apsis lock was set, and then it flips; the locked value stays what was passed for the locked apsis; nothing else changes |
| `OrbitSpec.ComputeOrbit` | main.js:226-258 | only Ap, Pe, e and lock change, the lock at most by a flip, and Ap + Pe = 2a − 2R. Under `e_lock`, e and the lock are kept and Ap − Pe = 2·e·a. Under an apsis lock, the locked value is kept, Ap ≥ Pe, and e = `aps_to_e` of the stored pair. The lock flips exactly when the recomputed apsis lies strictly on the wrong side of the locked one, and a flip leaves Ap > Pe |
| `OrbitSpec.ComputeOrbitOrderUnderELock` | main.js:231-238 | under `e_lock` the stored apsides are ordered exactly when e·a ≥ 0, because no swap check runs |
| `OrbitSpec.RChanged` | main.js:259-268 | R, M, a and T are not written; Alt = a − R; the orbit is re-resolved for a and the new R |
| `OrbitSpec.MChanged` | main.js:269-277 | only T is written, and it becomes `a_to_T` of the current a and the new M |
| `OrbitSpec.AltChanged` | main.js:278-291 | a becomes R + Alt; T is `a_to_T` of the new a; R, M and Alt are kept; the orbit is re-resolved for the new a |
| `OrbitSpec.AChanged` | main.js:292-304 | a, R and M are kept; Alt = a − R; T = `a_to_T(a, M)`; the orbit is re-resolved for a |
| `OrbitSpec.TChanged` | main.js:305-343 | a, R, M and T are kept, so a is not updated; Alt + R equals `T_to_a(T, M)`; the orbit is re-resolved for that semi-major axis |
| `OrbitSpec.TChangedConsistentIff` | main.js:305-343 | under an apsis lock, `T_changed` leaves the form consistent iff `T_to_a(T, M)` equals the a already stored |
| `OrbitSpec.EChanged` | main.js:344-386 | e, R, M and Alt are kept; the form ends consistent; the stored apsides are `e_to_aps(e, a, R)` up to order. Under `e_lock`, a, T and the lock are kept. Under an apsis lock, the locked value is kept and T = `a_to_T(a, M)` for the new a. Under `Ap_lock`, a·(1 + e) = Ap + R, and under `Pe_lock`, a·(1 − e) = Pe + R. The lock changes only by a flip, exactly when the locked apsis ends up on the other side, and a flip leaves Ap > Pe |
| `OrbitSpec.ApChanged` | main.js:387-435 | R, M and Alt are kept, and the form ends consistent. Under `e_lock`: e and the lock are kept, a·(1 + e) = Ap + R for the edited Ap, {Ap, Pe} = {edited Ap, 2a − 2R − Ap}, these are `e_to_aps` at the new a, and T follows a. Under an apsis lock the lock flips exactly when the edited Ap is not kept as the larger apsis, and a flip leaves Ap > Pe. Under `Ap_lock`: a and T are kept and {Ap, Pe} = {Ap, 2a − 2R − Ap}. Under `Pe_lock`: both apsides are kept as a pair and a follows them. Under both apsis locks e is recomputed from the stored apsides |
| `OrbitSpec.PeChanged` | main.js:436-484 | the mirror image of `ApChanged`. Under `e_lock`, a·(1 − e) = Pe + R for the edited Pe and {Ap, Pe} = {edited Pe, 2a − 2R − Pe}. Under `Pe_lock`, a is kept and {Ap, Pe} = {Pe, 2a − 2R − Pe}. Under an apsis lock the lock flips exactly when the edited Pe is not kept as the smaller apsis |
| `OrbitSpec.AltitudeWarningImpliesApsisWarning` | main.js:485-497 | on a consistent form with Alt = a − R, the altitude warning shows only if the periapsis warning also shows |
| `OrbitSpec.Step` | main.js:259-484 | the lock changes only when the user selects a radio or a handler flips it, and a flip leaves Ap > Pe strictly, so a tie never flips it. Under an apsis lock, every handler keeps the value the user left in the locked field. Under every lock, Ap + Pe = 2a − 2R survives every action except a period edit. A form that is consistent under an apsis lock stays consistent, and stays under an apsis lock, after every action except a period edit or selecting `e_lock` |
| `OrbitSpec.RunKeepsConsistent` | main.js:226-520 | under the apsis locks, Ap ≥ Pe and Ap + Pe = 2a − 2R hold after any sequence of actions that never edits T or selects `e_lock` |
| `OrbitSpec.RunKeepsSum` | main.js:226-520 | under every lock, Ap + Pe = 2a − 2R holds after any sequence of actions that never edits T |
| `OrbitSpec.RunKeepsLockedValue` | main.js:226-520 | under the apsis locks, the locked value never moves unless the user edits Ap or Pe or clicks the radio, swaps included |
| `OrbitResolver.OrbitForm.CheckApsides` | main.js:498-520 | the new field state is `OrbitSpec.CheckApsides` of the old state, and only Ap, Pe and lock are written |
| `OrbitResolver.OrbitForm.ComputeOrbit` | main.js:226-258 | the new field state is `OrbitSpec.ComputeOrbit` of the old state, and only Ap, Pe, e and lock are written |
| `OrbitResolver.OrbitForm.RChanged` | main.js:259-268 | the new field state is `OrbitSpec.RChanged` of the old state |
| `OrbitResolver.OrbitForm.MChanged` | main.js:269-277 | the new field state is `OrbitSpec.MChanged` of the old state |
| `OrbitResolver.OrbitForm.AltChanged` | main.js:278-291 | the new field state is `OrbitSpec.AltChanged` of the old state |
| `OrbitResolver.OrbitForm.AChanged` | main.js:292-304 | the new field state is `OrbitSpec.AChanged` of the old state |
| `OrbitResolver.OrbitForm.TChanged` | main.js:305-343 | the new field state is `OrbitSpec.TChanged` of the old state |
| `OrbitResolver.OrbitForm.EChanged` | main.js:344-386 | the new field state is `OrbitSpec.EChanged` of the old state |
| `OrbitResolver.OrbitForm.ApChanged` | main.js:387-435 | the new field state is `OrbitSpec.ApChanged` of the old state |
| `OrbitResolver.OrbitForm.PeChanged` | main.js:436-484 | the new field state is `OrbitSpec.PeChanged` of the old state |

## Left out

- JavaScript numbers are IEEE doubles, and every +, −, × and / in main.js
  rounds. The model computes with exact reals. So the sum Ap + Pe =
  2a − 2R, the round trips of `Conversions` and the recombination in
  `kerbal_Time` hold only up to rounding error in the program. On a
  near-circular orbit, rounding noise in 2a − 2R − Ap can make
  `checkApsides` (main.js:500) swap and flip the lock where the model has a
  tie and keeps it.
- `rounder` (main.js:67-70) is taken as the identity. Its floating-point
  rounding to twenty decimals is not modelled.
- `a_to_T` and `T_to_a` (main.js:77-92) use `Math.pow` with exponents 1/2
  and 1/3. They are given functions in `Conversions.Kepler`, and no numeric
  property of them is claimed.
- Division by zero and NaN/Infinity are not modelled, because Dafny reals
  have neither. Each handler instead requires that its divisors are
  non-zero: `Computable`, `CanEditE`, `CanEditAp`, `CanEditPe`. The source
  would show NaN or Infinity in these cases.
- OrbitSpec.EChanged, OrbitSpec.ApChanged and OrbitSpec.PeChanged require
  1 ± e ≠ 0, or a non-zero semi-major axis, for the same reason. The same
  holds for the `OrbitForm` methods and for `compute_orbit` under an apsis
  lock.
- TimeFormat.KerbalTime returns the four numbers, not the text
  "`d days, h hours, m mins, s secs`". Converting JavaScript numbers to
  decimal strings is not modelled. `update_time`, which shows that text,
  is not modelled either.
- TimeFormat.JsRem only takes positive divisors, because `kerbal_Time` uses
  `%` only with 60 and 6.
- `check_altitude` (main.js:485-497) is kept only as its two `<= 0` tests
  (`OrbitSpec.CheckAltitude`). Showing and hiding the warnings is left out.
- DOM and jQuery plumbing is replaced by plain field reads and writes:
  `getVar`, `getLock`, `generateObjectsMenu`, `objectsMenuChanged`,
  `init_page` and the writes to `#select-body`. `objectsMenuChanged` would
  load a body's R and M from the catalog and re-run the resolver, and is
  not modelled. Neither is the reference body catalog.
- `c_to_Pe` (main.js:175-178) refers to an undefined variable `r`, and no
  code calls it, so it is not part of this model.
- The commented-out block in `T_changed` (main.js:312-338) is not part of
  this model.
- functions.js (the polygon-distance helpers) is not part of this model.
  It is floating-point trigonometry that is unrelated to the resolver.
- Events are handled one at a time, to completion. Interleaving is not
  modelled.
