/**
  What `run` does around the integrator, and how the integrator sees the
  engine's formula.

  `run` integrates the installed formula from the stocks' initial values
  over the time grid; the integration itself is outside the model, so the
  grid and the trajectory (one row per time point, one column per stock in
  the dictionary's key order) are inputs. The model covers the hard clip of
  every value into [-2 * S0, 2 * S0] and the result dictionary: the time
  grid under "t", the formula under "formula", and each stock's clipped
  series under its lower-cased name, written in key order so that a later
  name overwrites an earlier one that lower-cases the same.

  The integrator calls the formula through a wrapper that turns the state
  vector into a dictionary keyed by stock name and the returned rates back
  into a vector in key order, reading 0 for a stock the formula gives no
  rate. The lemmas at the end connect the rate laws to that vector field.
 */
module RunOutput {
  import opened PyDict
  import opened Text
  import opened RateLaws
  import opened Engine

  /** One entry of the result dictionary. */
  datatype Field = Grid(points: seq<real>) | FormulaEcho(code: Code) | Series(values: seq<real>)

  /** `np.clip(x, lo, hi)`, which is `min(max(x, lo), hi)` even when lo > hi. */
  function Clip(x: real, lo: real, hi: real): (r: real)
    ensures lo <= hi ==> lo <= r <= hi
    ensures lo <= x <= hi ==> r == x
    ensures hi < x ==> r == hi
    ensures x < lo <= hi ==> r == lo
    ensures hi < lo ==> r == hi
  {
    Min(Max(x, lo), hi)
  }

  /** Clipping is idempotent when the bounds are ordered. */
  lemma ClipIdempotent(x: real, lo: real, hi: real)
    requires lo <= hi
    ensures Clip(Clip(x, lo, hi), lo, hi) == Clip(x, lo, hi)
  {
  }

  /** `params.get('S0', 100) * 2` */
  function ClipLimit(params: map<string, real>): real
  {
    Lookup(params, "S0", 100.0) * 2.0
  }

  /** Every time point holds one value per stock. */
  predicate Rectangular(m: seq<seq<real>>, n: nat)
  {
    forall t :: 0 <= t < |m| ==> |m[t]| == n
  }

  /**
    A series of `n` values clipped into [-limit, limit]: inside the bounds
    when they are ordered, and all equal to `limit` when they are not.
   */
  predicate ClippedTo(v: seq<real>, n: int, limit: real)
  {
    && |v| == n
    && (limit >= 0.0 ==> forall t :: 0 <= t < |v| ==> -limit <= v[t] <= limit)
    && (limit < 0.0 ==> forall t :: 0 <= t < |v| ==> v[t] == limit)
  }

  /** The series of column `c` after clipping: `np.clip(sol, -limit, limit)[:, c]`. */
  function ClippedColumn(sol: seq<seq<real>>, c: nat, limit: real): (v: seq<real>)
    requires forall t :: 0 <= t < |sol| ==> c < |sol[t]|
    ensures ClippedTo(v, |sol|, limit)
    ensures forall t :: 0 <= t < |sol| && -limit <= sol[t][c] <= limit ==> v[t] == sol[t][c]
    ensures forall t :: 0 <= t < |sol| && limit < sol[t][c] ==> v[t] == limit
    ensures forall t :: 0 <= t < |sol| && sol[t][c] < -limit <= limit ==> v[t] == -limit
  {
    seq(|sol|, t requires 0 <= t < |sol| => Clip(sol[t][c], -limit, limit))
  }

  /**
    The output key of every stock, `key.lower()`, in key order. No output
    key holds a capital, and a stock name without capitals is its own key.
   */
  function SeriesNames(keys: seq<string>): (names: seq<string>)
    ensures |names| == |keys|
    ensures forall i :: 0 <= i < |keys| ==> names[i] == Lower(keys[i])
    ensures forall i :: 0 <= i < |names| ==> HasNoCapital(names[i])
    ensures forall i :: 0 <= i < |keys| && HasNoCapital(keys[i]) ==> names[i] == keys[i]
  {
    var names := seq(|keys|, i requires 0 <= i < |keys| => Lower(keys[i]));
    assert forall i :: 0 <= i < |keys| && HasNoCapital(keys[i]) ==> names[i] == keys[i] by {
      forall i | 0 <= i < |keys| && HasNoCapital(keys[i]) ensures names[i] == keys[i] {
        LowerKeepsLowerCase(keys[i]);
      }
    }
    names
  }

  /**
    What the writing loop leaves: the entries of `acc` plus one per name,
    each name holding the series of its LAST position, and every entry of
    `acc` whose name is not written kept as it was.
   */
  ghost predicate Emitted(acc: map<string, Field>, names: seq<string>, cols: seq<seq<real>>, r: map<string, Field>)
    requires |names| == |cols|
  {
    && (forall k :: k in r <==> k in acc || k in names)
    && (forall i :: 0 <= i < |names| && LastOccurrence(names, i) ==> names[i] in r && r[names[i]] == Series(cols[i]))
    && (forall k :: k in acc && k !in names ==> r[k] == acc[k])
  }

  /**
    `for i, key in enumerate(keys): results[key.lower()] = ...`: each name
    is written in turn, so a name ends up with the series of its last
    position.
   */
  function Emit(acc: map<string, Field>, names: seq<string>, cols: seq<seq<real>>): (r: map<string, Field>)
    requires |names| == |cols|
    ensures Emitted(acc, names, cols, r)
    decreases |names|
  {
    if |names| == 0 then acc
    else
      var n := |names| - 1;
      var prefix := Emit(acc, names[..n], cols[..n]);
      EmitStep(acc, names, cols, prefix);
      prefix[names[n] := Series(cols[n])]
  }

  /** One write of that loop: what holds of the first n names extends to n + 1. */
  lemma EmitStep(acc: map<string, Field>, names: seq<string>, cols: seq<seq<real>>, prefix: map<string, Field>)
    requires 0 < |names| == |cols|
    requires Emitted(acc, names[..|names| - 1], cols[..|names| - 1], prefix)
    ensures Emitted(acc, names, cols, prefix[names[|names| - 1] := Series(cols[|names| - 1])])
  {
    var n := |names| - 1;
    var r := prefix[names[n] := Series(cols[n])];
    forall k ensures k in r <==> k in acc || k in names {
      EmitStepKeys(acc, names, prefix, cols[n], k);
    }
    forall i | 0 <= i < |names| && LastOccurrence(names, i) ensures names[i] in r && r[names[i]] == Series(cols[i]) {
      if i < n {
        EmitStepLast(acc, names, cols, prefix, i);
      }
    }
    forall k | k in acc && k !in names ensures r[k] == acc[k] {
      assert k !in names[..n] by {
        assert names == names[..n] + [names[n]];
      }
    }
  }

  lemma EmitStepKeys(acc: map<string, Field>, names: seq<string>, prefix: map<string, Field>, col: seq<real>, k: string)
    requires 0 < |names|
    requires forall k :: k in prefix <==> k in acc || k in names[..|names| - 1]
    ensures k in prefix[names[|names| - 1] := Series(col)] <==> k in acc || k in names
  {
    var n := |names| - 1;
    assert names == names[..n] + [names[n]];
    assert k in names <==> k in names[..n] || k == names[n];
  }

  lemma EmitStepLast(acc: map<string, Field>, names: seq<string>, cols: seq<seq<real>>, prefix: map<string, Field>, i: nat)
    requires i < |names| - 1 && |names| == |cols|
    requires LastOccurrence(names, i)
    requires Emitted(acc, names[..|names| - 1], cols[..|names| - 1], prefix)
    ensures names[i] in prefix && prefix[names[i]] == Series(cols[i])
  {
    var n := |names| - 1;
    PrefixKeepsLastOccurrence(names, n, i);
    assert names[..n][i] == names[i] && cols[..n][i] == cols[i];
  }

  /** A position that is a last occurrence stays one in every prefix holding it. */
  lemma PrefixKeepsLastOccurrence(names: seq<string>, n: nat, i: nat)
    requires i < n <= |names| && LastOccurrence(names, i)
    ensures LastOccurrence(names[..n], i)
  {
    forall j | i < j < n ensures names[..n][j] != names[..n][i] {
      assert names[..n][j] == names[j];
    }
  }

  /** The result dictionary before any stock is written. */
  function Head(e: EngineState, grid: seq<real>): map<string, Field>
  {
    map["t" := Grid(grid), "formula" := FormulaEcho(e.formula)]
  }

  /** The clipped columns of the trajectory, one per stock. */
  function ClippedColumns(e: EngineState, params: map<string, real>, sol: seq<seq<real>>): (cols: seq<seq<real>>)
    requires Rectangular(sol, |e.state|)
    ensures |cols| == |e.state|
    ensures forall c :: 0 <= c < |cols| ==> |cols[c]| == |sol|
  {
    seq(|e.state|, c requires 0 <= c < |e.state| => ClippedColumn(sol, c, ClipLimit(params)))
  }

  /**
    `run`: the result holds the time grid under "t", the formula under
    "formula", and one entry per stock under its lower-cased name; nothing
    else.
   */
  function Run(e: EngineState, params: map<string, real>, grid: seq<real>, sol: seq<seq<real>>): (r: map<string, Field>)
    requires Rectangular(sol, |e.state|)
    ensures forall k :: k in r <==> k == "t" || k == "formula" || k in SeriesNames(Keys(e.state))
  {
    Emit(Head(e, grid), SeriesNames(Keys(e.state)), ClippedColumns(e, params, sol))
  }

  /**
    Each stock's entry is its column of the trajectory clipped into
    [-limit, limit], with limit = 2 * S0 (S0 defaulting to 100), unless a
    later stock's name lower-cases to the same key.
   */
  lemma RunSeries(e: EngineState, params: map<string, real>, grid: seq<real>, sol: seq<seq<real>>, i: nat)
    requires Rectangular(sol, |e.state|)
    requires i < |e.state| && LastOccurrence(SeriesNames(Keys(e.state)), i)
    ensures var v := Run(e, params, grid, sol)[Lower(e.state[i].key)];
      && v.Series?
      && |v.values| == |sol|
      && forall t :: 0 <= t < |sol| ==> v.values[t] == Clip(sol[t][i], -ClipLimit(params), ClipLimit(params))
  {
    var names := SeriesNames(Keys(e.state));
    var cols := ClippedColumns(e, params, sol);
    assert names[i] == Lower(e.state[i].key);
    assert Run(e, params, grid, sol)[names[i]] == Series(cols[i]);
  }

  /**
    The grid and the formula reach the result unchanged unless a stock's
    name lower-cases to "t" or "formula".
   */
  lemma RunKeepsGridAndFormula(e: EngineState, params: map<string, real>, grid: seq<real>, sol: seq<seq<real>>)
    requires Rectangular(sol, |e.state|)
    ensures "t" in Run(e, params, grid, sol) && "formula" in Run(e, params, grid, sol)
    ensures "t" !in SeriesNames(Keys(e.state)) ==> Run(e, params, grid, sol)["t"] == Grid(grid)
    ensures "formula" !in SeriesNames(Keys(e.state)) ==> Run(e, params, grid, sol)["formula"] == FormulaEcho(e.formula)
  {
    var acc := Head(e, grid);
    assert "t" in acc && acc["t"] == Grid(grid);
    assert "formula" in acc && acc["formula"] == FormulaEcho(e.formula);
  }

  /**
    Every series in the result is a clipped column: with a non-negative S0
    every value lies in [-2 * S0, 2 * S0], and with a negative S0 numpy's
    clip sends every value to 2 * S0.
   */
  lemma RunClipped(e: EngineState, params: map<string, real>, grid: seq<real>, sol: seq<seq<real>>)
    requires Rectangular(sol, |e.state|)
    ensures forall k :: k in Run(e, params, grid, sol) && Run(e, params, grid, sol)[k].Series? ==>
      ClippedTo(Run(e, params, grid, sol)[k].values, |sol|, ClipLimit(params))
  {
    var names := SeriesNames(Keys(e.state));
    var cols := ClippedColumns(e, params, sol);
    var r := Run(e, params, grid, sol);
    forall k | k in r && r[k].Series? ensures ClippedTo(r[k].values, |sol|, ClipLimit(params)) {
      if k in names {
        var i :| 0 <= i < |names| && names[i] == k;
        var j := LastIndexOf(names, i);
        assert r[k] == Series(cols[j]);
        assert cols[j] == ClippedColumn(sol, j, ClipLimit(params));
      }
    }
  }

  /** The output keys of the base stocks, in key order. */
  const BaseSeriesKeys: seq<string> := ["s", "i", "r", "rep"]

  /** The base stocks are written under "s", "i", "r" and "rep". */
  lemma BaseSeriesNames()
    ensures SeriesNames(BaseStocks) == BaseSeriesKeys
  {
    assert Lower("S") == "s" by {
      assert Lower("S")[0] == 's';
    }
    assert Lower("I") == "i" by {
      assert Lower("I")[0] == 'i';
    }
    assert Lower("R") == "r" by {
      assert Lower("R")[0] == 'r';
    }
    assert Lower("Rep") == "rep" by {
      assert Lower("Rep")[0] == 'r';
    }
  }

  /**
    An engine holding exactly the base stocks (a fresh or reset engine) runs
    to a result with exactly the keys "t", "formula", "s", "i", "r" and
    "rep", with the grid and the formula untouched.
   */
  lemma BaselineRunKeys(e: EngineState, params: map<string, real>, grid: seq<real>, sol: seq<seq<real>>)
    requires Keys(e.state) == BaseStocks
    requires Rectangular(sol, 4)
    ensures forall k :: k in Run(e, params, grid, sol) <==> k in {"t", "formula", "s", "i", "r", "rep"}
    ensures "t" in Run(e, params, grid, sol) && Run(e, params, grid, sol)["t"] == Grid(grid)
    ensures "formula" in Run(e, params, grid, sol) && Run(e, params, grid, sol)["formula"] == FormulaEcho(e.formula)
  {
    BaseSeriesNames();
    BaseNameSet();
    RunKeepsGridAndFormula(e, params, grid, sol);
  }

  /** The output keys of the base stocks; neither "t" nor "formula" is among them. */
  lemma BaseNameSet()
    ensures forall k :: k in BaseSeriesKeys <==> k in {"s", "i", "r", "rep"}
    ensures "t" !in BaseSeriesKeys && "formula" !in BaseSeriesKeys
  {
  }

  /**
    In that result each base stock's lower-cased name holds its own column
    of the trajectory, clipped: no base stock's series is overwritten.
   */
  lemma BaselineRunSeries(e: EngineState, params: map<string, real>, grid: seq<real>, sol: seq<seq<real>>, c: nat)
    requires Keys(e.state) == BaseStocks
    requires Rectangular(sol, 4)
    requires c < 4
    ensures var v := Run(e, params, grid, sol)[SeriesNames(BaseStocks)[c]];
      && v.Series? && |v.values| == |sol|
      && forall t :: 0 <= t < |sol| ==> v.values[t] == Clip(sol[t][c], -ClipLimit(params), ClipLimit(params))
  {
    var names := SeriesNames(Keys(e.state));
    assert names == BaseSeriesKeys by {
      BaseSeriesNames();
    }
    assert LastOccurrence(names, c);
    assert Lower(e.state[c].key) == BaseSeriesKeys[c] by {
      assert e.state[c].key == Keys(e.state)[c];
    }
    RunSeries(e, params, grid, sol, c);
  }

  /**
    A stock whose name lower-cases to "t" (for instance "T") overwrites the
    time grid in the result with its own series.
   */
  lemma StockNamedTShadowsGrid(e: EngineState, params: map<string, real>, grid: seq<real>, sol: seq<seq<real>>)
    requires Rectangular(sol, |e.state|)
    requires Has(e.state, "T")
    ensures Run(e, params, grid, sol)["t"].Series?
  {
    var keys := Keys(e.state);
    var names := SeriesNames(keys);
    var i :| 0 <= i < |e.state| && e.state[i].key == "T";
    assert Lower("T") == "t";
    assert names[i] == "t";
    var last := LastIndexOf(names, i);
    assert Run(e, params, grid, sol)[names[last]].Series?;
  }

  /** The last position at or after `i` that holds the same name as position `i`. */
  function LastIndexOf(names: seq<string>, i: nat): (j: nat)
    requires i < |names|
    ensures i <= j < |names| && names[j] == names[i]
    ensures LastOccurrence(names, j)
    decreases |names| - i
  {
    if exists j :: i < j < |names| && names[j] == names[i] then
      var j :| i < j < |names| && names[j] == names[i];
      LastIndexOf(names, j)
    else i
  }

  // ---------------------------------------------------------------------
  // The vector field the integrator sees

  /**
    What `dict(zip(keys, y))` holds: exactly the given keys, each with the
    value at its LAST position.
   */
  ghost predicate Zipped(keys: seq<string>, y: seq<real>, m: map<string, real>)
    requires |keys| == |y|
  {
    && (forall k :: k in m <==> k in keys)
    && (forall i :: 0 <= i < |keys| && LastOccurrence(keys, i) ==> keys[i] in m && m[keys[i]] == y[i])
  }

  /** `dict(zip(keys, y))`: a later duplicate key overwrites an earlier one. */
  function Zip(keys: seq<string>, y: seq<real>): (m: map<string, real>)
    requires |keys| == |y|
    ensures Zipped(keys, y, m)
    decreases |keys|
  {
    if |keys| == 0 then map[]
    else
      var n := |keys| - 1;
      var prefix := Zip(keys[..n], y[..n]);
      ZipStep(keys, y, prefix);
      prefix[keys[n] := y[n]]
  }

  /** One pair of that zip: what holds of the first n pairs extends to n + 1. */
  lemma ZipStep(keys: seq<string>, y: seq<real>, prefix: map<string, real>)
    requires 0 < |keys| == |y|
    requires Zipped(keys[..|keys| - 1], y[..|keys| - 1], prefix)
    ensures Zipped(keys, y, prefix[keys[|keys| - 1] := y[|keys| - 1]])
  {
    var n := |keys| - 1;
    var init := keys[..n];
    var m := prefix[keys[n] := y[n]];
    forall k ensures k in m <==> k in keys {
      assert keys == init + [keys[n]];
      assert k in keys <==> k in init || k == keys[n];
    }
    forall i | 0 <= i < |keys| && LastOccurrence(keys, i) ensures keys[i] in m && m[keys[i]] == y[i] {
      if i < n {
        assert keys[i] != keys[n];
        PrefixKeepsLastOccurrence(keys, n, i);
        assert init[i] == keys[i] && y[..n][i] == y[i];
      }
    }
  }

  /** `[res.get(k, 0) for k in keys]` */
  function RateVector(res: map<string, real>, keys: seq<string>): (v: seq<real>)
    ensures |v| == |keys|
    ensures forall i :: 0 <= i < |keys| ==> v[i] == Lookup(res, keys[i], 0.0)
  {
    seq(|keys|, i requires 0 <= i < |keys| => Lookup(res, keys[i], 0.0))
  }

  /**
    The wrapper's two conversions are inverse on the state side: a state
    vector turned into `dict(zip(keys, y))` and read back in key order is
    the vector again, provided no stock name repeats.
   */
  lemma RateVectorOfZip(keys: seq<string>, y: seq<real>)
    requires |keys| == |y|
    requires Distinct(keys)
    ensures RateVector(Zip(keys, y), keys) == y
  {
    var m := Zip(keys, y);
    forall i | 0 <= i < |keys| ensures RateVector(m, keys)[i] == y[i] {
      assert LastOccurrence(keys, i);
    }
  }

  /**
    And on the rate side: zipping the rate vector back onto the keys gives
    every stock the rate the formula returned for it, or 0 where it gave
    none, even when a stock name repeats.
   */
  lemma ZipOfRateVector(res: map<string, real>, keys: seq<string>)
    ensures forall k :: k in Zip(keys, RateVector(res, keys)) <==> k in keys
    ensures forall k :: k in keys ==> Zip(keys, RateVector(res, keys))[k] == Lookup(res, k, 0.0)
  {
    var m := Zip(keys, RateVector(res, keys));
    forall k | k in keys ensures m[k] == Lookup(res, k, 0.0) {
      var i :| 0 <= i < |keys| && keys[i] == k;
      var j := LastIndexOf(keys, i);
      assert m[keys[j]] == RateVector(res, keys)[j];
    }
  }

  /**
    For a fresh engine the baseline formula gives a rate to every stock and
    to nothing else, and the vector field the integrator sees conserves
    S + I + R at every state where it is defined.
   */
  lemma BaselineFieldConserves(y: seq<real>, params: map<string, real>)
    requires |y| == 4
    requires BaselineDeriv(Zip(BaseStocks, y), params).Value?
    ensures BaselineDeriv(Zip(BaseStocks, y), params).value.Keys == set k | k in BaseStocks
    ensures var v := RateVector(BaselineDeriv(Zip(BaseStocks, y), params).value, BaseStocks);
      v[0] + v[1] + v[2] == 0.0
  {
    var res := BaselineDeriv(Zip(BaseStocks, y), params).value;
    BaseStockSet();
    var v := RateVector(res, BaseStocks);
    assert v[0] == res["S"] && v[1] == res["I"] && v[2] == res["R"];
  }

  /** The base stocks as a set. */
  lemma BaseStockSet()
    ensures (set k | k in BaseStocks) == {"S", "I", "R", "Rep"}
  {
    assert BaseStocks == ["S", "I", "R", "Rep"];
  }

  /**
    After `set_lobbying_scenario` on a fresh engine the stocks are the four
    base stocks followed by Lobbying (`Engine.FreshLobbyingScenario`). At
    every state with Lobbying other than -10, and S0 other than -1, the
    lobbying formula is defined and gives a rate to each of them and to
    nothing else; its vector field conserves S + I + R, and the Lobbying
    rate never removes more than the Lobbying stock holds.
   */
  lemma LobbyingFieldGuarded(y: seq<real>, params: map<string, real>)
    requires |y| == 5
    requires y[4] != -10.0 && Lookup(params, "S0", 100.0) != -1.0
    ensures LobbyingDeriv(Zip(BaseStocks + [LobbyingStock], y), params).Value?
    ensures LobbyingDeriv(Zip(BaseStocks + [LobbyingStock], y), params).value.Keys == set k | k in BaseStocks + [LobbyingStock]
    ensures var v := RateVector(LobbyingDeriv(Zip(BaseStocks + [LobbyingStock], y), params).value, BaseStocks + [LobbyingStock]);
      v[0] + v[1] + v[2] == 0.0 && v[4] >= -y[4]
  {
    var keys := BaseStocks + [LobbyingStock];
    var m := Zip(keys, y);
    LobbyingStockSet();
    ZippedLobbying(y);
    var r := LobbyingDeriv(m, params);
    assert r.Value?;
    var v := RateVector(r.value, keys);
    assert v[0] == r.value["S"] && v[1] == r.value["I"] && v[2] == r.value["R"];
    assert v[4] == r.value["Lobbying"];
  }

  /** The Lobbying stock the lobbying formula reads is the last entry of the state vector. */
  lemma ZippedLobbying(y: seq<real>)
    requires |y| == 5
    ensures Lookup(Zip(BaseStocks + [LobbyingStock], y), "Lobbying", 0.0) == y[4]
  {
    assert LastOccurrence(BaseStocks + [LobbyingStock], 4);
  }

  /** The stocks of the lobbying scenario as a set. */
  lemma LobbyingStockSet()
    ensures (set k | k in BaseStocks + [LobbyingStock]) == {"S", "I", "R", "Rep", "Lobbying"}
  {
    assert BaseStocks + [LobbyingStock] == ["S", "I", "R", "Rep", "Lobbying"];
  }
}
