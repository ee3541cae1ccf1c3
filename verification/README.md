# AeroDyn engine: a Dafny model

This project models the simulation core of the AeroDyn system-dynamics
simulator. The `AeroDynEngine` class in `engine.py` holds a stock dictionary
(`default_state`, stock name to initial value) and the source text of a rate
function `deriv(y_dict, t, params)` (`formula_code`). It can:

- accept a new formula only if a stress test finds it numerically sane
  (`validate_logic`, `update_logic`);
- return to the built-in baseline (`reset_to_baseline`);
- switch to a built-in lobbying scenario (`set_lobbying_scenario`);
- delete a stock (`remove_variable`);
- integrate the installed formula and package the clipped trajectories for
  display (`run`).

The model also covers the two built-in rate formulas and the stand-alone
Streamlit simulator's rate function in `cours.py`.

Modules:

- `PyDict` (`py_dict.dfy`): the insertion-ordered Python `dict`. It is a
  sequence of items with distinct keys. Assignment replaces in place or
  appends, and deletion keeps the order of the other items.
- `Text` (`text.dfy`): `str.lower()` on stock names. Only ASCII capitals are
  mapped.
- `RateLaws` (`rate_laws.dfy`): the baseline and lobbying `deriv` bodies as
  functions on exact reals. A division by zero is an explicit `ZeroDivision`
  outcome.
- `Erodyn` (`erodyn.dfy`): the inner `deriv` of `erodyn_engine` in
  `cours.py`, and the range of inputs its widgets allow.
- `Validator` (`validator.dfy`): the verdict of `validate_logic`. Compiling,
  discovering the stocks and integrating are abstracted into a `ProbeRun`:
  either the exception raised, or the discovered keys and the probe
  trajectory. The classification of that trajectory is modelled exactly.
- `Engine` (`engine.dfy`): the engine state and its operations.
- `RunOutput` (`run_output.dfy`): what `run` does around the integrator.
  This covers the clip into `[-2*S0, 2*S0]` and the result dictionary (`t`,
  `formula`, one lower-cased key per stock, written in key order). It also
  covers the vector field the integrator sees: `dict(zip(keys, y))` in, and
  `[res.get(k, 0) for k in keys]` out.

Python code is executed by `exec` in the source. The model treats formula
text as an opaque token. `Code` says which formula is installed: the
baseline, the lobbying scenario, or a submitted text. Whether a submitted
text loads is a boolean input.

## Model

| member | source | states |
|---|---|---|
| PyDict.Find | engine.py:114 | `Find(d, k)` yields a value exactly when `k` is a key of `d` (`k in d`) |
| PyDict.FindAt | engine.py:92 | in a dictionary with distinct keys, looking up the key at position i yields the value stored there (`self.default_state[k]` for each key) |
| PyDict.Put | engine.py:78 | `d[k] = v`: afterwards `k` maps to `v`, every other key maps to what it did, the key order is kept when `k` was present and has `k` appended otherwise, and distinct keys stay distinct |
| PyDict.Delete | engine.py:115 | `del d[k]`: afterwards `k` is absent, every other key keeps its value, the key order is the old order with `k` left out, keys stay distinct, and the length drops by one when `k` was present |
| PyDict.FromPairs | engine.py:30 | a dictionary literal with distinct keys, as both of the engine's literals are, has distinct keys, exactly the listed ones in the listed order, and finds each listed value under its own key |
| PyDict.HasKeys | engine.py:91 | `k in d` holds exactly when `k` is among `list(d.keys())` |
| PyDict.ValidCons | engine.py:30 | prepending an item keeps keys distinct exactly when the rest has distinct keys and does not have its key |
| Text.Lower | engine.py:109 | the modelled `key.lower()` leaves no ASCII capital, maps each ASCII capital to its lower-case letter (code + 32), and leaves every other character unchanged and in place |
| RateLaws.Min | engine.py:19 | `min(a, b)` is at most both arguments and is one of them |
| RateLaws.Max | engine.py:142 | `max(a, b)` is at least both arguments and is one of them |
| RateLaws.EffectiveGamma | engine.py:16 | the capacity bottleneck fails only when I = 0 exceeds the capacity; it is gamma when I is within capacity; and whenever defined, gamma_eff * I = gamma * min(I, capacity) |
| RateLaws.ThroughputCapped | engine.py:16 | with gamma >= 0 the revenue flow gamma_eff * I never exceeds gamma * capacity, and it is non-negative for non-negative I and capacity |
| RateLaws.CappedSigma | engine.py:19 | the effective brake `min(sigma * drag, 0.95)` is at most 0.95 and at most sigma * drag |
| RateLaws.ReputationDragDoubles | engine.py:18-19 | the drag is 2 exactly when Rep < 50 and 1 exactly when Rep >= 50, so sigma_eff is min(2 * sigma, 0.95) below 50 and min(sigma, 0.95) otherwise |
| RateLaws.BaselineBeta | engine.py:18-20 | beta_eff keeps at least 5% of beta, and with sigma >= 0 never exceeds beta |
| RateLaws.Sales | engine.py:22 | the mass-action flow beta_eff * S * I / N is non-negative when its factors are non-negative and N is positive |
| RateLaws.BaselineRates | engine.py:8-27 | the baseline rates fail exactly when N = S0 + 1 is zero or the bottleneck divides by I = 0; whenever defined dS + dI + dR = 0 and dR = gamma * min(I, capacity) |
| RateLaws.BaselineSigns | engine.py:16-24 | for non-negative stocks, beta, gamma and capacity and positive N, the rates are defined, dS <= 0 and 0 <= dR <= gamma * capacity |
| RateLaws.ReputationRecovery | engine.py:25 | with beta and I non-negative, dRep never exceeds the recovery term 0.1 * (100 - Rep), and it is 0 at Rep = 100 with I = 0 |
| RateLaws.BaselineDeriv | engine.py:8-27 | the baseline `deriv` returns exactly the keys S, I, R, Rep, and its S, I and R rates sum to zero; it fails exactly when the rate equations do |
| RateLaws.Saturation | engine.py:146 | Lobbying / (Lobbying + 10) fails exactly at Lobbying = -10, lies in [0, 1) for Lobbying >= 0, and is 0 with no lobbying |
| RateLaws.LobbySigma | engine.py:147 | for sigma > 0 and a saturation in [0, 1) the lobbied brake lies in (0.5 * sigma, sigma], and it equals sigma at zero saturation |
| RateLaws.LobbyingSoftensBrake | engine.py:146-147 | for any non-negative Lobbying stock and sigma > 0, lobbying leaves more than half of the political brake in place and never adds to it |
| RateLaws.GuardedRate | engine.py:140-142 | `max(-Lobbying, inflow - outflow)` never removes more than the stock holds, never undercuts the net flow, and is one of the two |
| RateLaws.LobbyingRates | engine.py:124-159 | the lobbying rates fail exactly when Lobbying = -10 or N = 0; whenever defined S + I + R is conserved, dR = gamma * I, dLobbying >= -Lobbying and dLobbying >= 0.1 * gamma * I - 0.05 * Lobbying |
| RateLaws.LobbyingDeriv | engine.py:124-159 | the lobbying `deriv` returns exactly the keys S, I, R, Rep, Lobbying; its S, I and R rates sum to zero; its Lobbying rate is at least minus the Lobbying stock; it fails exactly at Lobbying = -10 or S0 = -1 |
| Erodyn.EffectiveBeta | cours.py:17 | with beta >= 0 and sigma in [0, 1], beta * (1 - sigma) lies in [0, beta] |
| Erodyn.Deriv | cours.py:14-26 | the simulator's rates fail exactly when N = S0 + I0 is zero or the bottleneck divides by I = 0; whenever defined dS + dI + dR = 0 and dR = gamma * min(I, capacity) |
| Erodyn.SignsOfFlows | cours.py:17-25 | for non-negative stocks, beta, gamma and capacity, sigma at most 1 (of any sign) and N > 0, the rates are defined, dS <= 0 and 0 <= dR <= gamma * capacity |
| Erodyn.WidgetInputsWellPosed | cours.py:42-55 | every input the widgets allow (S0 in 10..500, I0 = 1, beta in 0.05..1, sigma in 0..0.9, capacity in 5..100, gamma in 0.01..0.3) gives N > 0 and 0 <= beta_eff <= beta; on non-negative stocks the rates are defined, dS <= 0 and 0 <= dR <= gamma * capacity |
| Validator.RowExplodes | engine.py:61 | a time point explodes exactly when one of its values has magnitude above 5000 |
| Validator.Explodes | engine.py:61 | `np.any(np.abs(sol) > 5000)` holds exactly when some entry of the trajectory has magnitude above 5000 |
| Validator.RowDrifts | engine.py:63 | a time point drifts exactly when one of its values is below -0.1 |
| Validator.Drifts | engine.py:63 | `np.any(sol < -0.1)` holds exactly when some entry of the trajectory is below -0.1 |
| Validator.Validate | engine.py:38-68 | a probe that raised is rejected with its error; an explosion is reported exactly when some value exceeds 5000 in magnitude, whatever else holds; a negative drift is reported exactly when there is no explosion and some value is below -0.1; a formula is accepted, with exactly its discovered keys, exactly when every value lies in [-0.1, 5000] |
| Validator.DiscoveryStocks | engine.py:47 | the discovery call sees every known stock, and only those, each at 1.0 |
| Validator.ProbeStart | engine.py:52 | the probe starts each discovered stock at its value in the state, or at 0.0 when the state lacks it |
| Engine.Init | engine.py:29-30 | a new engine holds S, I, R, Rep in that order at 100, 1, 0, 100, with distinct keys, and runs the baseline formula |
| Engine.Reset | engine.py:84-87 | whatever the engine held, reset returns it to its constructed state: S = 100, I = 1, R = 0, Rep = 100, in that order, and the baseline formula |
| Engine.RemoveVariable | engine.py:112-118 | the result is true exactly when the name was a stock; the name is absent afterwards; every other stock keeps its value and position; the formula is kept; a missing name changes nothing |
| Engine.BaseStocksAreNotProtected | engine.py:112-118 | removing the base stock Rep from a new engine succeeds and deletes it |
| Engine.SetLobbyingScenario | engine.py:161-165 | returns true, installs the lobbying formula, sets Lobbying to 0.0 (appended when new, in place otherwise), and leaves every other stock unchanged |
| Engine.LobbyingIsNew | engine.py:30 | Lobbying is not a base stock, so a new engine does not hold it |
| Engine.FreshLobbyingScenario | engine.py:162 | on a new engine the lobbying scenario leaves the stocks S, I, R, Rep at their initial values, followed by Lobbying at 0.0 |
| Engine.RegisterStock | engine.py:77-78 | one loop step adds a missing key at 0.0 after the existing items and changes nothing else |
| Engine.RegisterStocksOrder | engine.py:76-78 | after the loop the keys are the old keys in their places followed by each discovered key the state lacked, once, in order of first appearance |
| Engine.RegisterStocks | engine.py:76-78 | after the loop the stocks are the old ones, in their old positions, plus the discovered keys, and nothing else |
| Engine.RegisterStocksValues | engine.py:76-78 | after the loop keys are still distinct, existing stocks keep their values, and every newly discovered stock starts at 0.0 |
| PyDict.PutAppends | engine.py:78 | assigning a key the dictionary lacks appends it after every existing item |
| Engine.UpdateLogic | engine.py:70-82 | a submission is committed exactly when the probe is accepted and the text loads; a rejected probe is reported with its reason; anything not committed leaves the engine unchanged; a commit installs the text, adds every discovered stock the state lacks at 0.0, keeps the values of existing stocks, and keeps keys distinct |
| Engine.UpdateLogicAsWritten | engine.py:70-82 | the source's order of effects: a rejected probe changes nothing; an accepted probe registers the new stocks and records the text first; the call raises exactly when the probe is accepted and the raw text does not load |
| Engine.AsWrittenAgreesWhenLoadable | engine.py:70-82 | whenever the submitted text loads, the source's order of effects and the atomic version give the same engine and reply |
| Engine.IndentedSubmissionCorruptsEngine | engine.py:42 | an indented submission that validates but does not load leaves the as-written engine changed and raising, while the atomic version reports the failure and keeps the engine |
| Engine.FailedUpdatesChangeNothing | engine.py:71-73 | for the atomic `Engine.UpdateLogic`, any sequence of rejected or unloadable submissions leaves the engine exactly as it was; in the source this holds for rejected probes only, since an unloadable text changes the engine before it raises (see Findings) |
| Engine.OperationsKeepStateWellFormed | engine.py:70-165 | no sequence of updates, resets, removals and scenario switches ever makes a stock name occur twice; the updates here are the atomic `Engine.UpdateLogic` |
| Engine.AsWrittenKeepsStateWellFormed | engine.py:76-81 | the source's own update, whether it returns or raises, also leaves the stock names distinct |
| RunOutput.Clip | engine.py:104-105 | `np.clip(x, -limit, limit)` lies in the bounds when they are ordered, leaves values already in range unchanged, sends a value above the range to the upper edge and one below it to the lower edge, and gives `limit` for every x when S0 < 0 |
| RunOutput.SeriesNames | engine.py:108-109 | no output name contains an ASCII capital, and a stock name without capitals is its own output name |
| RunOutput.Emit | engine.py:107-109 | the writing loop yields the initial entries plus one entry per name; each name holds the series of its last position; unwritten initial entries are kept |
| RunOutput.EmitStep | engine.py:108-109 | one more write keeps all three properties of the loop |
| RunOutput.ClippedColumn | engine.py:104-105 | `np.clip(sol, -limit, limit)[:, c]` has one value per time point; each is `sol[t][c]` when that lies within [-limit, limit], `limit` when it lies above, `-limit` when it lies below an ordered range, and `limit` throughout when limit < 0 |
| RunOutput.Run | engine.py:89-110 | the result has exactly the keys "t", "formula" and the lower-cased stock names |
| RunOutput.RunSeries | engine.py:103-109 | the entry of a stock whose lower-cased name is not reused later is its column of the trajectory, clipped into [-2 * S0, 2 * S0], with S0 defaulting to 100 |
| RunOutput.RunKeepsGridAndFormula | engine.py:107 | the time grid and the formula reach the result unchanged unless a stock name lower-cases to "t" or "formula" |
| RunOutput.RunClipped | engine.py:103-105 | every series in the result has one value per time point; the values lie within [-2 * S0, 2 * S0] when S0 >= 0, and all equal 2 * S0 when S0 < 0 |
| RunOutput.BaselineRunKeys | engine.py:107-109 | a new or reset engine runs to exactly the keys t, formula, s, i, r, rep, with the grid and the formula intact |
| RunOutput.BaselineRunSeries | engine.py:103-109 | in that result each base stock's entry is its own clipped column |
| RunOutput.StockNamedTShadowsGrid | engine.py:107-109 | a stock named "T" overwrites the time grid under "t" with its own series |
| RunOutput.LastIndexOf | engine.py:108-109 | every name has a last position at or after any of its positions |
| RunOutput.Zip | engine.py:95 | `dict(zip(keys, y))` has exactly the given keys, each holding the value at its last position |
| RunOutput.ZipStep | engine.py:95 | one more pair keeps both properties of the zip |
| RunOutput.RateVectorOfZip | engine.py:95-99 | with distinct stock names, turning a state vector into `dict(zip(keys, y))` and reading it back in key order returns the vector unchanged |
| RunOutput.ZipOfRateVector | engine.py:95-99 | zipping `[res.get(k, 0) for k in keys]` back onto the keys gives every stock the rate the formula returned for it, or 0, even when names repeat |
| RunOutput.BaselineFieldConserves | engine.py:94-99 | for a new engine the baseline formula rates exactly its four stocks, and the vector the integrator sees conserves S + I + R wherever it is defined |
| RunOutput.LobbyingFieldGuarded | engine.py:94-99 | on the stocks of the lobbying scenario, at every state with Lobbying other than -10 and S0 other than -1, the lobbying formula is defined and rates exactly those stocks; the vector the integrator sees conserves S + I + R, and its Lobbying component is at least minus the Lobbying value |

## Left out

- Numerical integration (`odeint` over `np.linspace` grids) is not modelled. The time grid and the trajectory are inputs of `Run` and of the probe.
- Floating point is not modelled. All arithmetic is on exact reals, and `ZeroDivision` marks a division by zero. On plain floats Python raises `ZeroDivisionError`. Inside the integrator the stocks are numpy floats, which give `inf` or `nan` instead. The model only records that the rate is undefined.
- A `nan` in the probe trajectory fails both numpy comparisons and so passes validation. Reals have no `nan`, so this case is not represented.
- `exec` of formula text and `_compile` are not modelled. Formulas are the tokens of `Code`. Whether a submitted text loads is the input `loads`. Whether it validates is the input `ProbeRun`.
- Validator.Validate: the rejection messages are abstracted to `Reason` values. The Python error keeps its message text.
- The probe's fixed parameters are not modelled. The discovery call (engine.py:48) passes `S0` 100, `beta` 0.5 and `gamma` 0.1. The integration (engine.py:54) passes `S0` 100, `beta` 1.5 and `gamma` 0.1. Both calls run formula code, which is outside the model.
- Stock names are modelled as strings. In the source the discovered keys are whatever the formula's returned dictionary holds (engine.py:49), and they are registered as they are (engine.py:76-78). A formula that returns a non-string key, such as `0`, can pass the probe and be committed. After that, every `run` raises `AttributeError` at `key.lower()` (engine.py:109) until the key is removed or the engine is reset. The model cannot express that state.
- `SafeParams.__getitem__` (engine.py:96-97) is not modelled. Both built-in formulas read parameters through `.get` with their own defaults.
- Text.Lower covers only ASCII capitals and always keeps the length. Python lower-cases every Unicode capital, and some of them change the length: `'İ'.lower()` has two characters.
- `print` calls (engine.py:116) are not modelled: they are console output only.
- Every engine operation is modelled as atomic and sequential. main.py:36 starts Flask's development server, which serves requests on threads, and nothing in engine.py locks: `run` reads `deriv_func` at every integrator step (engine.py:98) and `formula_code` only after integrating (engine.py:107), so an `/llm_update` that commits during a `/simulate` changes the vector field part-way through the run and can label the result with a formula that did not produce it. Interleavings are not part of this model.
- main.py (the Flask routes), the static front end and the plotting and widget layout of cours.py are not part of this model. One consequence is visible from the model: `/simulate` at main.py:16 unpacks `engine.run(params)` into four names. That unpacks the result dictionary's keys, and `RunOutput.BaselineRunKeys` proves a new or reset engine returns six keys, so the call raises `ValueError` on the baseline state.
- PyDict.FromPairs covers only literals with distinct keys, which both literals in engine.py (lines 30 and 85) are. Python's rule that a repeated key keeps its first position and takes its last value is not modelled.
- The result of `run` is modelled as an unordered map. In the source it is an insertion-ordered dict: "t", "formula", then the series names in the order they were first written. Nothing in the engine reads that order.
- The compiled function `deriv_func` is not a separate field. `formula` stands for both `formula_code` and `deriv_func`, which agree except on the raising path of `update_logic` (see Findings).
- `update_logic` in the source mutates the state before compiling. `Engine.UpdateLogic` is the atomic version, and `Engine.UpdateLogicAsWritten` keeps the source's order (see Findings).
- `remove_variable` lets a caller delete the base stocks S, I, R and Rep. The model follows the code: `Engine.BaseStocksAreNotProtected`.
- The probe starts each stock at its value in `default_state`, not at 1.0. Only the discovery call uses 1.0. The model follows the code: `Validator.ProbeStart` and `Validator.DiscoveryStocks`.

## Findings

| source | as written | input that shows it | evidently intended | confidence | as-written member | corrected member |
|---|---|---|---|---|---|---|
| engine.py:70-82 | `validate_logic` checks the text after `.strip()`, but `update_logic` then registers the new stocks, stores the raw text and execs it; if the raw text does not load the exception escapes with the engine already changed. As written, `deriv_func` also keeps the previous formula while `formula_code` holds the new text, so every later `run` integrates the old formula (engine.py:98) but reports the new text under "formula" (engine.py:107) | a submission whose first line is indented (`" def deriv(...)"`) and whose stripped text passes the probe: Python raises an indentation error on the raw text after `Lobbying` was added and `formula_code` replaced | a submission that cannot be installed leaves the engine as it was, as for every rejected submission | not executed | Engine.UpdateLogicAsWritten, Engine.IndentedSubmissionCorruptsEngine | Engine.UpdateLogic |
