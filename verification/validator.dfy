/**
  The stability verdict of `validate_logic`. Compiling the proposed formula,
  calling it once to discover the stocks it defines, and integrating it
  over the probe grid are outside the model: their outcome is a `ProbeRun`,
  either the exception one of them raised or the discovered keys and the
  probe trajectory. The classification of that trajectory is modelled
  exactly: any value of magnitude above 5000 is an explosion, checked
  first; otherwise any value below -0.1 is a negative drift; otherwise the
  formula is accepted with the keys it defines.
 */
module Validator {
  import opened PyDict

  const ExplosionBound: real := 5000.0
  const DriftFloor: real := -0.1

  /** What running the probe produced: an exception, or discovered keys and a trajectory. */
  datatype ProbeRun =
    | Raised(error: string)
    | Completed(keys: seq<string>, solution: seq<seq<real>>)

  datatype Reason = Explosion | NegativeDrift | PythonError(detail: string)

  datatype Verdict = Accepted(keys: seq<string>) | Rejected(reason: Reason)

  function Abs(x: real): real
  {
    if x < 0.0 then -x else x
  }

  /** Some entry of the trajectory has magnitude above the explosion bound. */
  ghost predicate HasExplosion(m: seq<seq<real>>)
  {
    exists i, j :: 0 <= i < |m| && 0 <= j < |m[i]| && Abs(m[i][j]) > ExplosionBound
  }

  /** Some entry of the trajectory is below the drift floor. */
  ghost predicate HasDrift(m: seq<seq<real>>)
  {
    exists i, j :: 0 <= i < |m| && 0 <= j < |m[i]| && m[i][j] < DriftFloor
  }

  /** `np.any(np.abs(row) > 5000)` on one time point. */
  function RowExplodes(row: seq<real>): (b: bool)
    ensures b <==> exists j :: 0 <= j < |row| && Abs(row[j]) > ExplosionBound
  {
    if |row| == 0 then false
    else if Abs(row[0]) > ExplosionBound then true
    else
      var b := RowExplodes(row[1..]);
      assert b ==> exists j :: 0 <= j < |row| && Abs(row[j]) > ExplosionBound by {
        if b {
          var j :| 0 <= j < |row[1..]| && Abs(row[1..][j]) > ExplosionBound;
          assert row[j + 1] == row[1..][j];
        }
      }
      assert (exists j :: 0 <= j < |row| && Abs(row[j]) > ExplosionBound) ==> b by {
        if exists j :: 0 <= j < |row| && Abs(row[j]) > ExplosionBound {
          var j :| 0 <= j < |row| && Abs(row[j]) > ExplosionBound;
          assert row[1..][j - 1] == row[j];
        }
      }
      b
  }

  /** `np.any(np.abs(sol) > 5000)` */
  function Explodes(m: seq<seq<real>>): (b: bool)
    ensures b <==> HasExplosion(m)
  {
    if |m| == 0 then false
    else if RowExplodes(m[0]) then true
    else
      var b := Explodes(m[1..]);
      assert b ==> HasExplosion(m) by {
        if b {
          var i, j :| 0 <= i < |m[1..]| && 0 <= j < |m[1..][i]| && Abs(m[1..][i][j]) > ExplosionBound;
          assert m[i + 1] == m[1..][i];
        }
      }
      assert HasExplosion(m) ==> b by {
        if HasExplosion(m) {
          var i, j :| 0 <= i < |m| && 0 <= j < |m[i]| && Abs(m[i][j]) > ExplosionBound;
          assert m[1..][i - 1] == m[i];
        }
      }
      b
  }

  /** `np.any(row < -0.1)` on one time point. */
  function RowDrifts(row: seq<real>): (b: bool)
    ensures b <==> exists j :: 0 <= j < |row| && row[j] < DriftFloor
  {
    if |row| == 0 then false
    else if row[0] < DriftFloor then true
    else
      var b := RowDrifts(row[1..]);
      assert b ==> exists j :: 0 <= j < |row| && row[j] < DriftFloor by {
        if b {
          var j :| 0 <= j < |row[1..]| && row[1..][j] < DriftFloor;
          assert row[j + 1] == row[1..][j];
        }
      }
      assert (exists j :: 0 <= j < |row| && row[j] < DriftFloor) ==> b by {
        if exists j :: 0 <= j < |row| && row[j] < DriftFloor {
          var j :| 0 <= j < |row| && row[j] < DriftFloor;
          assert row[1..][j - 1] == row[j];
        }
      }
      b
  }

  /** `np.any(sol < -0.1)` */
  function Drifts(m: seq<seq<real>>): (b: bool)
    ensures b <==> HasDrift(m)
  {
    if |m| == 0 then false
    else if RowDrifts(m[0]) then true
    else
      var b := Drifts(m[1..]);
      assert b ==> HasDrift(m) by {
        if b {
          var i, j :| 0 <= i < |m[1..]| && 0 <= j < |m[1..][i]| && m[1..][i][j] < DriftFloor;
          assert m[i + 1] == m[1..][i];
        }
      }
      assert HasDrift(m) ==> b by {
        if HasDrift(m) {
          var i, j :| 0 <= i < |m| && 0 <= j < |m[i]| && m[i][j] < DriftFloor;
          assert m[1..][i - 1] == m[i];
        }
      }
      b
  }

  /**
    The verdict. A probe that raised is a Python error carrying its message.
    Explosion takes precedence over negative drift. A formula is accepted,
    with exactly the keys its discovery call returned, precisely when every
    probe value lies in [-0.1, 5000].
   */
  function Validate(p: ProbeRun): (v: Verdict)
    ensures p.Raised? ==> v == Rejected(PythonError(p.error))
    ensures p.Completed? ==> (v == Rejected(Explosion) <==> HasExplosion(p.solution))
    ensures p.Completed? ==> (v == Rejected(NegativeDrift) <==> !HasExplosion(p.solution) && HasDrift(p.solution))
    ensures v.Accepted? <==> p.Completed? && forall i, j :: 0 <= i < |p.solution| && 0 <= j < |p.solution[i]| ==> DriftFloor <= p.solution[i][j] <= ExplosionBound
    ensures v.Accepted? ==> v.keys == p.keys
  {
    match p
    case Raised(e) => Rejected(PythonError(e))
    case Completed(keys, sol) =>
      if Explodes(sol) then Rejected(Explosion)
      else if Drifts(sol) then Rejected(NegativeDrift)
      else
        assert forall i, j :: 0 <= i < |sol| && 0 <= j < |sol[i]| ==> DriftFloor <= sol[i][j] <= ExplosionBound by {
          forall i, j | 0 <= i < |sol| && 0 <= j < |sol[i]| ensures DriftFloor <= sol[i][j] <= ExplosionBound {
            assert !(Abs(sol[i][j]) > ExplosionBound);
            assert !(sol[i][j] < DriftFloor);
          }
        }
        Accepted(keys)
  }

  // The two functions below state what the probe is run on: the stock
  // values of the discovery call and the initial vector of the
  // integration. The integration itself is outside the model, so a
  // `ProbeRun` is taken as given and is not derived from them.

  /** The stock values of the discovery call: every known stock set to 1.0. */
  function DiscoveryStocks(state: Dict<string, real>): (y: map<string, real>)
    ensures forall k :: k in y <==> Has(state, k)
    ensures forall k :: k in y ==> y[k] == 1.0
  {
    forall k ensures Has(state, k) <==> k in Keys(state) {
      HasKeys(state, k);
    }
    map k | k in Keys(state) :: 1.0
  }

  /**
    The probe's initial vector: for each discovered key, its value in the
    engine's state, or 0.0 for a key the state does not have yet.
   */
  function ProbeStart(state: Dict<string, real>, keys: seq<string>): (y0: seq<real>)
    ensures |y0| == |keys|
    ensures forall i :: 0 <= i < |keys| && Has(state, keys[i]) ==> Find(state, keys[i]) == Some(y0[i])
    ensures forall i :: 0 <= i < |keys| && !Has(state, keys[i]) ==> y0[i] == 0.0
  {
    seq(|keys|, i requires 0 <= i < |keys| => Get(state, keys[i], 0.0))
  }
}
