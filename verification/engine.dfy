/**
  The bookkeeping of `AeroDynEngine`: the stock dictionary `default_state`
  (stock name to initial value, in insertion order) and the formula the
  engine currently runs, and the operations that change them.

  The formula text is an opaque token: the engine executes it as Python,
  which is outside the model. What the model keeps is which formula is
  installed (the baseline, the lobbying scenario, or a submitted text) and
  the verdict logic that decides whether a submitted text is installed.
 */
module Engine {
  import opened PyDict
  import opened Validator

  /** The formula the engine holds. */
  datatype Code = BaselineCode | LobbyingCode | Submitted(text: string)

  datatype EngineState = EngineState(state: Dict<string, real>, formula: Code)

  /** The four stocks of the baseline model, in the order the engine creates them. */
  const BaseStocks: seq<string> := ["S", "I", "R", "Rep"]

  /** The initial values of the baseline stocks. */
  const BaseValues: seq<real> := [100.0, 1.0, 0.0, 100.0]

  const LobbyingStock: string := "Lobbying"

  /** The engine as constructed: the baseline stocks and the baseline formula. */
  function Init(): (e: EngineState)
    ensures Valid(e.state)
    ensures Keys(e.state) == BaseStocks
    ensures forall i :: 0 <= i < 4 ==> Find(e.state, BaseStocks[i]) == Some(BaseValues[i])
    ensures e.formula == BaselineCode
  {
    assert Distinct(BaseStocks);
    EngineState(FromPairs(BaseStocks, BaseValues), BaselineCode)
  }

  /**
    `reset_to_baseline`: whatever the engine held, it returns to the state
    it was constructed in, with the four base stocks at their initial values
    and the baseline formula.
   */
  function Reset(e: EngineState): (r: EngineState)
    ensures r == Init()
    ensures Keys(r.state) == BaseStocks
    ensures Find(r.state, "S") == Some(100.0) && Find(r.state, "I") == Some(1.0)
    ensures Find(r.state, "R") == Some(0.0) && Find(r.state, "Rep") == Some(100.0)
    ensures r.formula == BaselineCode
  {
    var r := Init();
    assert BaseStocks[0] == "S" && BaseStocks[1] == "I" && BaseStocks[2] == "R" && BaseStocks[3] == "Rep";
    r
  }

  /** Resetting twice is resetting once. */
  lemma ResetIdempotent(e: EngineState)
    ensures Reset(Reset(e)) == Reset(e)
  {
  }

  /**
    `remove_variable`: reports whether the name was a stock and, if so,
    deletes it. Nothing else changes: the other stocks keep their values and
    their order, and the formula stays. Base stocks are not protected.
   */
  function RemoveVariable(e: EngineState, name: string): (r: (EngineState, bool))
    ensures r.1 <==> Has(e.state, name)
    ensures !Has(r.0.state, name)
    ensures forall k :: k != name ==> Find(r.0.state, k) == Find(e.state, k)
    ensures Keys(r.0.state) == RemoveKey(Keys(e.state), name)
    ensures Valid(e.state) ==> Valid(r.0.state)
    ensures r.0.formula == e.formula
    ensures !r.1 ==> r.0 == e
  {
    if Has(e.state, name) then (EngineState(Delete(e.state, name), e.formula), true)
    else
      assert Delete(e.state, name) == e.state;
      (e, false)
  }

  /** The base stocks can be removed: removing Rep from a fresh engine succeeds. */
  lemma BaseStocksAreNotProtected()
    ensures RemoveVariable(Init(), "Rep").1
    ensures !Has(RemoveVariable(Init(), "Rep").0.state, "Rep")
  {
    assert Keys(Init().state)[3] == "Rep";
  }

  /**
    `set_lobbying_scenario`: installs the lobbying formula and sets the
    Lobbying stock to 0.0 (appending it when it is new, resetting it in
    place when it is already there). The other stocks are untouched.
   */
  function SetLobbyingScenario(e: EngineState): (r: (EngineState, bool))
    ensures r.1
    ensures r.0.formula == LobbyingCode
    ensures Find(r.0.state, LobbyingStock) == Some(0.0)
    ensures forall k :: k != LobbyingStock ==> Find(r.0.state, k) == Find(e.state, k)
    ensures Keys(r.0.state) == if Has(e.state, LobbyingStock) then Keys(e.state) else Keys(e.state) + [LobbyingStock]
    ensures Valid(e.state) ==> Valid(r.0.state)
  {
    (EngineState(Put(e.state, LobbyingStock, 0.0), LobbyingCode), true)
  }

  /** "Lobbying" is not one of the base stocks. */
  lemma LobbyingIsNew()
    ensures LobbyingStock !in BaseStocks
    ensures !Has(Init().state, LobbyingStock)
  {
    assert LobbyingStock[0] == 'L';
    HasKeys(Init().state, LobbyingStock);
  }

  /**
    `set_lobbying_scenario` on a fresh engine appends Lobbying, at 0.0,
    after the four base stocks, which keep their initial values.
   */
  lemma FreshLobbyingScenario()
    ensures Keys(SetLobbyingScenario(Init()).0.state) == BaseStocks + [LobbyingStock]
    ensures Find(SetLobbyingScenario(Init()).0.state, LobbyingStock) == Some(0.0)
    ensures forall i :: 0 <= i < 4 ==> Find(SetLobbyingScenario(Init()).0.state, BaseStocks[i]) == Some(BaseValues[i])
  {
    LobbyingIsNew();
  }

  /** One iteration of that loop: `if k not in d: d[k] = 0.0`. */
  function RegisterStock(d: Dict<string, real>, k: string): (r: Dict<string, real>)
    ensures Valid(d) ==> Valid(r)
    ensures |r| >= |d| && r[..|d|] == d
    ensures forall k' :: Has(r, k') <==> Has(d, k') || k' == k
    ensures forall k' :: Has(d, k') ==> Find(r, k') == Find(d, k')
    ensures !Has(d, k) ==> Find(r, k) == Some(0.0)
  {
    if Has(d, k) then d
    else
      var r := Put(d, k, 0.0);
      assert r[..|d|] == d by {
        PutAppends(d, k, 0.0);
      }
      assert forall k' :: Has(r, k') <==> Has(d, k') || k' == k by {
        forall k' ensures Has(r, k') <==> Has(d, k') || k' == k {
          assert Has(r, k') <==> Find(r, k').Some?;
          assert Has(d, k') <==> Find(d, k').Some?;
        }
      }
      r
  }

  /**
    The loop of `update_logic` over the discovered keys: every key the state
    lacks is added, in the order of first appearance (`RegisterStocksOrder`).
    Existing stocks keep their positions and nothing is removed;
    `RegisterStocksValues` states what the new and the old stocks hold.
   */
  function RegisterStocks(d: Dict<string, real>, ks: seq<string>): (r: Dict<string, real>)
    ensures |r| >= |d| && r[..|d|] == d
    ensures forall k :: Has(r, k) <==> Has(d, k) || k in ks
    decreases |ks|
  {
    if |ks| == 0 then d
    else
      var next := RegisterStock(d, ks[0]);
      var r := RegisterStocks(next, ks[1..]);
      assert r[..|d|] == d by {
        assert r[..|d|] == r[..|next|][..|d|];
      }
      assert forall k :: Has(r, k) <==> Has(d, k) || k in ks by {
        forall k ensures Has(r, k) <==> Has(d, k) || k in ks {
          assert k in ks <==> k == ks[0] || k in ks[1..] by {
            assert ks == [ks[0]] + ks[1..];
          }
        }
      }
      r
  }

  /**
    After that loop the dictionary still has distinct keys, every stock it
    already had keeps its value, and every newly discovered stock starts at
    0.0.
   */
  lemma RegisterStocksValues(d: Dict<string, real>, ks: seq<string>)
    ensures Valid(d) ==> Valid(RegisterStocks(d, ks))
    ensures forall k :: Has(d, k) ==> Find(RegisterStocks(d, ks), k) == Find(d, k)
    ensures forall k :: k in ks && !Has(d, k) ==> Find(RegisterStocks(d, ks), k) == Some(0.0)
  {
    if Valid(d) {
      RegisterStocksValid(d, ks);
    }
    forall k | Has(d, k) ensures Find(RegisterStocks(d, ks), k) == Find(d, k) {
      RegisterStocksKeepsOld(d, ks, k);
    }
    forall k | k in ks && !Has(d, k) ensures Find(RegisterStocks(d, ks), k) == Some(0.0) {
      RegisterStocksNewAtZero(d, ks, k);
    }
  }

  lemma {:induction false} RegisterStocksValid(d: Dict<string, real>, ks: seq<string>)
    requires Valid(d)
    ensures Valid(RegisterStocks(d, ks))
    decreases |ks|
  {
    if |ks| > 0 {
      RegisterStocksValid(RegisterStock(d, ks[0]), ks[1..]);
    }
  }

  lemma {:induction false} RegisterStocksKeepsOld(d: Dict<string, real>, ks: seq<string>, k: string)
    requires Has(d, k)
    ensures Find(RegisterStocks(d, ks), k) == Find(d, k)
    decreases |ks|
  {
    if |ks| > 0 {
      var next := RegisterStock(d, ks[0]);
      assert Has(next, k);
      RegisterStocksKeepsOld(next, ks[1..], k);
    }
  }

  lemma {:induction false} RegisterStocksNewAtZero(d: Dict<string, real>, ks: seq<string>, k: string)
    requires k in ks && !Has(d, k)
    ensures Find(RegisterStocks(d, ks), k) == Some(0.0)
    decreases |ks|
  {
    var next := RegisterStock(d, ks[0]);
    if k == ks[0] {
      assert Has(next, k);
      RegisterStocksKeepsOld(next, ks[1..], k);
    } else {
      assert k in ks[1..] by {
        assert ks == [ks[0]] + ks[1..];
      }
      RegisterStocksNewAtZero(next, ks[1..], k);
    }
  }

  /**
    The keys of `ks` that are not in `seen`, each taken once, in the order
    of their first appearance in `ks`.
   */
  function NewKeys(seen: seq<string>, ks: seq<string>): seq<string>
    decreases |ks|
  {
    if |ks| == 0 then []
    else if ks[0] in seen then NewKeys(seen, ks[1..])
    else [ks[0]] + NewKeys(seen + [ks[0]], ks[1..])
  }

  /**
    The order of the stocks after the loop: the old keys where they were,
    then every discovered key the state lacked, in order of first appearance.
   */
  lemma {:induction false} RegisterStocksOrder(d: Dict<string, real>, ks: seq<string>)
    ensures Keys(RegisterStocks(d, ks)) == Keys(d) + NewKeys(Keys(d), ks)
    decreases |ks|
  {
    if |ks| > 0 {
      var next := RegisterStock(d, ks[0]);
      assert RegisterStocks(d, ks) == RegisterStocks(next, ks[1..]);
      RegisterStocksOrder(next, ks[1..]);
      RegisterStockKeys(d, ks[0]);
      NewKeysStep(Keys(d), ks);
    }
  }

  /** One iteration appends the key exactly when it is new. */
  lemma RegisterStockKeys(d: Dict<string, real>, k: string)
    ensures Keys(RegisterStock(d, k)) == if k in Keys(d) then Keys(d) else Keys(d) + [k]
  {
    HasKeys(d, k);
    if !Has(d, k) {
      PutAppends(d, k, 0.0);
      assert Keys(d + [Item(k, 0.0)]) == Keys(d) + [k];
    }
  }

  lemma NewKeysStep(seen: seq<string>, ks: seq<string>)
    requires |ks| > 0
    ensures var next := if ks[0] in seen then seen else seen + [ks[0]];
      seen + NewKeys(seen, ks) == next + NewKeys(next, ks[1..])
  {
    if ks[0] !in seen {
      assert seen + ([ks[0]] + NewKeys(seen + [ks[0]], ks[1..])) == (seen + [ks[0]]) + NewKeys(seen + [ks[0]], ks[1..]);
    }
  }

  /** What `update_logic` reports: the change was installed, or why not. */
  datatype Reply = Committed | Refused(reason: Reason) | LoadFailed

  /**
    `update_logic`, with the commit made atomic. The probe's verdict decides:
    a rejected formula changes nothing and the rejection is reported. An
    accepted formula is installed only if its text, as submitted, also
    loads (`loads`: executing the raw text defines `deriv`); otherwise
    nothing changes either. On commit the discovered keys the state lacks
    are added at 0.0 and the submitted text becomes the formula.
   */
  function UpdateLogic(e: EngineState, newCode: string, probe: ProbeRun, loads: bool): (r: (EngineState, Reply))
    ensures r.1 != Committed ==> r.0 == e
    ensures r.1 == Committed <==> Validate(probe).Accepted? && loads
    ensures Validate(probe).Rejected? ==> r.1 == Refused(Validate(probe).reason)
    ensures r.1 == Committed ==> r.0.formula == Submitted(newCode)
    ensures r.1 == Committed ==> forall k :: Has(r.0.state, k) <==> Has(e.state, k) || k in probe.keys
    ensures r.1 == Committed ==> forall k :: Has(e.state, k) ==> Find(r.0.state, k) == Find(e.state, k)
    ensures r.1 == Committed ==> forall k :: k in probe.keys && !Has(e.state, k) ==> Find(r.0.state, k) == Some(0.0)
    ensures Valid(e.state) ==> Valid(r.0.state)
  {
    match Validate(probe)
    case Rejected(reason) => (e, Refused(reason))
    case Accepted(keys) =>
      if !loads then (e, LoadFailed)
      else
        RegisterStocksValues(e.state, keys);
        (EngineState(RegisterStocks(e.state, keys), Submitted(newCode)), Committed)
  }

  /** How a call of `update_logic`, as the source writes it, ends. */
  datatype Outcome = Returned(engine: EngineState, reply: Reply) | Threw(engine: EngineState)

  /**
    `update_logic` as the source writes it. Validation runs on the code with
    line endings normalised and surrounding whitespace stripped, but the
    state is updated and the formula replaced BEFORE the raw text is
    compiled; if the raw text does not load, the exception escapes with the
    engine already changed.
   */
  function UpdateLogicAsWritten(e: EngineState, newCode: string, probe: ProbeRun, loads: bool): (r: Outcome)
    ensures Validate(probe).Rejected? ==> r == Returned(e, Refused(Validate(probe).reason))
    ensures r.Threw? <==> Validate(probe).Accepted? && !loads
    ensures r.Threw? ==> r.engine.formula == Submitted(newCode)
    ensures Validate(probe).Accepted? ==> r.engine.state == RegisterStocks(e.state, probe.keys)
  {
    match Validate(probe)
    case Rejected(reason) => Returned(e, Refused(reason))
    case Accepted(keys) =>
      var changed := EngineState(RegisterStocks(e.state, keys), Submitted(newCode));
      if loads then Returned(changed, Committed) else Threw(changed)
  }

  /**
    The source's own order of effects also keeps stock names distinct,
    whether the call returns or raises.
   */
  lemma AsWrittenKeepsStateWellFormed(e: EngineState, newCode: string, probe: ProbeRun, loads: bool)
    requires Valid(e.state)
    ensures Valid(UpdateLogicAsWritten(e, newCode, probe, loads).engine.state)
  {
    if probe.Completed? {
      RegisterStocksValues(e.state, probe.keys);
    }
  }

  /** Whenever the submitted text loads, the source and the atomic version agree. */
  lemma AsWrittenAgreesWhenLoadable(e: EngineState, newCode: string, probe: ProbeRun)
    ensures UpdateLogicAsWritten(e, newCode, probe, true)
         == Returned(UpdateLogic(e, newCode, probe, true).0, UpdateLogic(e, newCode, probe, true).1)
  {
  }

  /**
    The discrepancy. A submission whose text starts with an indented line
    passes validation (the stripped text compiles and probes cleanly) but
    its raw text does not load (Python raises an indentation error). The
    source then raises with the new stock already registered and the
    unloadable text recorded as the formula; the atomic version reports the
    failure and leaves the engine as it was.
   */
  lemma IndentedSubmissionCorruptsEngine()
    ensures var probe := Completed(BaseStocks + [LobbyingStock], [[1.0, 1.0, 1.0, 1.0, 0.0]]);
      && UpdateLogicAsWritten(Init(), " def deriv(y_dict, t, params): ...", probe, false).Threw?
      && UpdateLogicAsWritten(Init(), " def deriv(y_dict, t, params): ...", probe, false).engine != Init()
      && UpdateLogic(Init(), " def deriv(y_dict, t, params): ...", probe, false) == (Init(), LoadFailed)
  {
    var probe := Completed(BaseStocks + [LobbyingStock], [[1.0, 1.0, 1.0, 1.0, 0.0]]);
    CalmProbeAccepted(probe.keys);
    var changed := UpdateLogicAsWritten(Init(), " def deriv(y_dict, t, params): ...", probe, false).engine;
    assert LobbyingStock in probe.keys by {
      assert probe.keys[4] == LobbyingStock;
    }
    LobbyingIsNew();
    assert Has(changed.state, LobbyingStock);
  }

  /** A probe whose one time point holds only 1.0 and 0.0 is accepted with its keys. */
  lemma CalmProbeAccepted(keys: seq<string>)
    ensures Validate(Completed(keys, [[1.0, 1.0, 1.0, 1.0, 0.0]])) == Accepted(keys)
  {
    var sol := [[1.0, 1.0, 1.0, 1.0, 0.0]];
    forall i, j | 0 <= i < |sol| && 0 <= j < |sol[i]| ensures DriftFloor <= sol[i][j] <= ExplosionBound {
      assert i == 0;
      assert sol[0][j] == 1.0 || sol[0][j] == 0.0;
    }
  }

  /** One submission to `update_logic`. */
  datatype Attempt = Attempt(code: string, probe: ProbeRun, loads: bool)

  /** A run of submissions, applied one after another. */
  function UpdateAll(e: EngineState, attempts: seq<Attempt>): EngineState
    decreases |attempts|
  {
    if |attempts| == 0 then e
    else UpdateAll(UpdateLogic(e, attempts[0].code, attempts[0].probe, attempts[0].loads).0, attempts[1..])
  }

  /** A submission the engine must refuse: its probe is rejected or its text does not load. */
  predicate Refusable(a: Attempt)
  {
    Validate(a.probe).Rejected? || !a.loads
  }

  /**
    A sequence of failed edits leaves the engine exactly in its last
    committed state.
   */
  lemma {:induction false} FailedUpdatesChangeNothing(e: EngineState, attempts: seq<Attempt>)
    requires forall i :: 0 <= i < |attempts| ==> Refusable(attempts[i])
    ensures UpdateAll(e, attempts) == e
    decreases |attempts|
  {
    if |attempts| > 0 {
      assert Refusable(attempts[0]);
      FailedUpdatesChangeNothing(e, attempts[1..]);
    }
  }

  /** Every operation on the engine, as a value. */
  datatype Op =
    | Update(attempt: Attempt)
    | ResetOp
    | Remove(name: string)
    | LobbyingScenario

  function Step(e: EngineState, op: Op): EngineState
  {
    match op
    case Update(a) => UpdateLogic(e, a.code, a.probe, a.loads).0
    case ResetOp => Reset(e)
    case Remove(name) => RemoveVariable(e, name).0
    case LobbyingScenario => SetLobbyingScenario(e).0
  }

  function Replay(e: EngineState, ops: seq<Op>): EngineState
    decreases |ops|
  {
    if |ops| == 0 then e else Replay(Step(e, ops[0]), ops[1..])
  }

  /**
    Whatever sequence of operations the engine receives, no stock name
    ever occurs twice in its state.
   */
  lemma {:induction false} OperationsKeepStateWellFormed(e: EngineState, ops: seq<Op>)
    requires Valid(e.state)
    ensures Valid(Replay(e, ops).state)
    decreases |ops|
  {
    if |ops| > 0 {
      var next := Step(e, ops[0]);
      assert Valid(next.state) by {
        match ops[0]
        case Update(a) =>
        case ResetOp =>
        case Remove(name) =>
        case LobbyingScenario =>
      }
      OperationsKeepStateWellFormed(next, ops[1..]);
    }
  }
}
