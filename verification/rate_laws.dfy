/**
  The rate equations of the engine's two built-in formulas, in exact real
  arithmetic: the baseline model (market S, integration backlog I, revenue
  R, reputation Rep) and the lobbying scenario, which adds a Lobbying stock
  that softens the political brake sigma.

  Both formulas are written in the source as the text of a Python function
  `deriv(y_dict, t, params)`; here each is a pure function from a stock
  dictionary and a parameter dictionary to a rate dictionary. A Python
  `ZeroDivisionError` becomes the `ZeroDivision` outcome. Floating-point
  rounding is not modelled: every property below holds of real numbers.
 */
module RateLaws {

  /** The value of an expression, or the division by zero Python raises on the way. */
  datatype Eval<T> = Value(value: T) | ZeroDivision

  /** `m.get(k, default)` on a stock or parameter dictionary. */
  function Lookup(m: map<string, real>, k: string, default: real): real
  {
    if k in m then m[k] else default
  }

  /** Python's `min(a, b)` on two numbers. */
  function Min(a: real, b: real): (r: real)
    ensures r <= a && r <= b
    ensures r == a || r == b
  {
    if b < a then b else a
  }

  /** Python's `max(a, b)` on two numbers. */
  function Max(a: real, b: real): (r: real)
    ensures r >= a && r >= b
    ensures r == a || r == b
  {
    if b > a then b else a
  }

  /** The parameters the formulas read, with the defaults they fall back on. */
  datatype Params = Params(s0: real, capacity: real, beta: real, gamma: real, sigma: real)

  function ReadParams(p: map<string, real>): Params
  {
    Params(Lookup(p, "S0", 100.0), Lookup(p, "capacity", 40.0), Lookup(p, "beta", 0.4),
           Lookup(p, "gamma", 0.1), Lookup(p, "sigma", 0.2))
  }

  /** The four base stocks, read with the defaults of the formulas. */
  datatype Stocks = Stocks(s: real, i: real, r: real, rep: real)

  function ReadStocks(y: map<string, real>): Stocks
  {
    Stocks(Lookup(y, "S", 100.0), Lookup(y, "I", 1.0), Lookup(y, "R", 0.0), Lookup(y, "Rep", 100.0))
  }

  datatype Rates = Rates(dS: real, dI: real, dR: real, dRep: real)

  /**
    The capacity bottleneck: `gamma if I <= capacity else gamma * (capacity / I)`.
    The division is reached only when I exceeds the capacity, so it can fail
    only when I is zero and the capacity negative. Whenever it is defined,
    the flow out of I is gamma times the smaller of I and the capacity.
   */
  function EffectiveGamma(gamma: real, capacity: real, i: real): (r: Eval<real>)
    ensures r.ZeroDivision? <==> i > capacity && i == 0.0
    ensures i <= capacity ==> r == Value(gamma)
    ensures r.Value? ==> r.value * i == gamma * Min(i, capacity)
  {
    if i <= capacity then Value(gamma)
    else if i == 0.0 then ZeroDivision
    else
      assert (capacity / i) * i == capacity;
      assert gamma * (capacity / i) * i == gamma * ((capacity / i) * i);
      Value(gamma * (capacity / i))
  }

  /** A gamma scaled by a capacity ratio never pushes the flow above the capacity. */
  lemma ThroughputCapped(gamma: real, capacity: real, i: real)
    requires gamma >= 0.0
    requires EffectiveGamma(gamma, capacity, i).Value?
    ensures EffectiveGamma(gamma, capacity, i).value * i <= gamma * capacity
    ensures 0.0 <= i && 0.0 <= capacity ==> 0.0 <= EffectiveGamma(gamma, capacity, i).value * i
  {
    var m := Min(i, capacity);
    MulMonotone(gamma, m, capacity);
    if 0.0 <= i && 0.0 <= capacity {
      MulMonotone(gamma, 0.0, m);
    }
  }

  lemma MulMonotone(c: real, a: real, b: real)
    requires c >= 0.0 && a <= b
    ensures c * a <= c * b
  {
    assert c * b - c * a == c * (b - a);
  }

  /** Reputation below 50 doubles the political brake. */
  function ReputationDrag(rep: real): real
  {
    if rep < 50.0 then 2.0 else 1.0
  }

  /** The effective brake `min(sigma * drag, 0.95)`, never above 0.95. */
  function CappedSigma(sigma: real, drag: real): (r: real)
    ensures r <= 0.95
    ensures r <= sigma * drag
  {
    Min(sigma * drag, 0.95)
  }

  /**
    The sales rate of the baseline formula, `beta * (1 - sigma_eff)`. The
    brake can remove at most 95% of beta; with a non-negative sigma it never
    adds to beta either.
   */
  function BaselineBeta(beta: real, sigma: real, rep: real): (r: real)
    ensures beta >= 0.0 ==> r >= 0.05 * beta
    ensures beta >= 0.0 && sigma >= 0.0 ==> r <= beta
  {
    var se := CappedSigma(sigma, ReputationDrag(rep));
    assert beta >= 0.0 ==> beta * (1.0 - se) >= beta * 0.05 by {
      if beta >= 0.0 {
        MulMonotone(beta, 0.05, 1.0 - se);
      }
    }
    assert beta >= 0.0 && sigma >= 0.0 ==> beta * (1.0 - se) <= beta by {
      if beta >= 0.0 && sigma >= 0.0 {
        assert se >= 0.0;
        MulMonotone(beta, 1.0 - se, 1.0);
      }
    }
    beta * (1.0 - se)
  }

  /** The brake is doubled exactly when reputation is below 50. */
  lemma ReputationDragDoubles(sigma: real, rep: real)
    ensures ReputationDrag(rep) == 2.0 <==> rep < 50.0
    ensures ReputationDrag(rep) == 1.0 <==> rep >= 50.0
    ensures CappedSigma(sigma, ReputationDrag(rep)) == Min(if rep < 50.0 then 2.0 * sigma else sigma, 0.95)
  {
  }

  /**
    The baseline rate equations. The population S + I + R is conserved
    (its three rates sum to zero), the revenue flow is gamma times the
    smaller of I and the capacity, and the only failures are the two
    divisions: by N = S0 + 1 and by I in the capacity bottleneck.
   */
  function BaselineRates(st: Stocks, p: Params): (r: Eval<Rates>)
    ensures r.ZeroDivision? <==> (st.i > p.capacity && st.i == 0.0) || p.s0 + 1.0 == 0.0
    ensures r.Value? ==> r.value.dS + r.value.dI + r.value.dR == 0.0
    ensures r.Value? ==> r.value.dR == p.gamma * Min(st.i, p.capacity)
  {
    var n := p.s0 + 1.0;
    match EffectiveGamma(p.gamma, p.capacity, st.i)
    case ZeroDivision => ZeroDivision
    case Value(g) =>
      if n == 0.0 then ZeroDivision
      else
        var sales := Sales(BaselineBeta(p.beta, p.sigma, st.rep), st.s, st.i, n);
        Value(Rates(-sales, sales - g * st.i, g * st.i, -0.05 * p.beta * st.i + 0.1 * (100.0 - st.rep)))
  }

  /**
    With non-negative stocks, rates and capacity and a positive N, the
    market can only shrink, revenue can only grow, and revenue grows by at
    most gamma times the capacity.
   */
  lemma BaselineSigns(st: Stocks, p: Params)
    requires st.s >= 0.0 && st.i >= 0.0
    requires p.beta >= 0.0 && p.gamma >= 0.0 && p.capacity >= 0.0 && p.s0 + 1.0 > 0.0
    ensures BaselineRates(st, p).Value?
    ensures BaselineRates(st, p).value.dS <= 0.0
    ensures 0.0 <= BaselineRates(st, p).value.dR <= p.gamma * p.capacity
  {
    ThroughputCapped(p.gamma, p.capacity, st.i);
  }

  /**
    The mass-action sales flow `beta_eff * S * I / N`, the term both formulas
    move from S to I. It is never negative when its factors are non-negative
    and N is positive.
   */
  function Sales(be: real, s: real, i: real, n: real): (r: real)
    requires n != 0.0
    ensures be >= 0.0 && s >= 0.0 && i >= 0.0 && n > 0.0 ==> r >= 0.0
  {
    assert be >= 0.0 && s >= 0.0 && i >= 0.0 ==> be * s * i >= 0.0 by {
      if be >= 0.0 && s >= 0.0 && i >= 0.0 {
        assert be * s >= 0.0;
      }
    }
    be * s * i / n
  }

  /**
    Reputation recovers towards 100 at 10% of the gap and is eroded by
    active integrations: with beta and I non-negative it never rises faster
    than the recovery term alone, and at Rep = 100 with no backlog it is at
    rest.
   */
  lemma ReputationRecovery(st: Stocks, p: Params)
    requires BaselineRates(st, p).Value?
    requires p.beta >= 0.0 && st.i >= 0.0
    ensures BaselineRates(st, p).value.dRep <= 0.1 * (100.0 - st.rep)
    ensures st.rep == 100.0 && st.i == 0.0 ==> BaselineRates(st, p).value.dRep == 0.0
  {
    assert p.beta * st.i >= 0.0;
  }

  /** The baseline `deriv`: reads the dictionaries and returns one rate per base stock. */
  function BaselineDeriv(y: map<string, real>, p: map<string, real>): (r: Eval<map<string, real>>)
    ensures r.Value? ==> r.value.Keys == {"S", "I", "R", "Rep"}
    ensures r.Value? ==> r.value["S"] + r.value["I"] + r.value["R"] == 0.0
    ensures r.ZeroDivision? <==> BaselineRates(ReadStocks(y), ReadParams(p)).ZeroDivision?
  {
    match BaselineRates(ReadStocks(y), ReadParams(p))
    case ZeroDivision => ZeroDivision
    case Value(d) => Value(map["S" := d.dS, "I" := d.dI, "R" := d.dR, "Rep" := d.dRep])
  }

  // ---------------------------------------------------------------------
  // The lobbying scenario

  datatype LobbyRates = LobbyRates(base: Rates, dLobbying: real)

  /** `Lobbying / (Lobbying + 10)`: zero with no lobbying, approaching 1 as it grows. */
  function Saturation(lobbying: real): (r: Eval<real>)
    ensures r.ZeroDivision? <==> lobbying == -10.0
    ensures lobbying >= 0.0 ==> r.Value? && 0.0 <= r.value < 1.0
    ensures lobbying == 0.0 ==> r == Value(0.0)
  {
    if lobbying + 10.0 == 0.0 then ZeroDivision
    else
      assert lobbying >= 0.0 ==> lobbying / (lobbying + 10.0) < 1.0 by {
        if lobbying >= 0.0 {
          assert lobbying < lobbying + 10.0;
        }
      }
      Value(lobbying / (lobbying + 10.0))
  }

  /**
    `sigma * (1 - 0.5 * saturation)`: lobbying removes at most half of the
    political brake, and removes none when there is no lobbying.
   */
  function LobbySigma(sigma: real, saturation: real): (r: real)
    ensures sigma > 0.0 && 0.0 <= saturation < 1.0 ==> 0.5 * sigma < r <= sigma
    ensures saturation == 0.0 ==> r == sigma
  {
    var r := sigma * (1.0 - 0.5 * saturation);
    assert sigma > 0.0 && 0.0 <= saturation < 1.0 ==> sigma * 0.5 < r <= sigma * 1.0 by {
      if sigma > 0.0 && 0.0 <= saturation < 1.0 {
        MulStrict(sigma, 0.5, 1.0 - 0.5 * saturation);
        MulMonotone(sigma, 1.0 - 0.5 * saturation, 1.0);
      }
    }
    r
  }

  lemma MulStrict(c: real, a: real, b: real)
    requires c > 0.0 && a < b
    ensures c * a < c * b
  {
    assert c * b - c * a == c * (b - a);
  }

  /**
    The guarded Lobbying rate `max(-Lobbying, inflow - outflow)`: it never
    removes more than the stock holds, and it never undercuts the net flow.
   */
  function GuardedRate(stock: real, inflow: real, outflow: real): (r: real)
    ensures r >= -stock
    ensures r >= inflow - outflow
    ensures r == -stock || r == inflow - outflow
  {
    Max(-stock, inflow - outflow)
  }

  /**
    The lobbying rate equations. Lobbying is fed by 10% of the revenue
    flow gamma * I, depreciates at 5%, and is guarded so it cannot drop
    below zero in one step. This formula has no capacity bottleneck: the
    revenue flow is gamma * I. The population S + I + R is still conserved.
   */
  function LobbyingRates(st: Stocks, lobbying: real, p: Params): (r: Eval<LobbyRates>)
    ensures r.ZeroDivision? <==> lobbying == -10.0 || p.s0 + 1.0 == 0.0
    ensures r.Value? ==> r.value.base.dS + r.value.base.dI + r.value.base.dR == 0.0
    ensures r.Value? ==> r.value.base.dR == p.gamma * st.i
    ensures r.Value? ==> r.value.dLobbying >= -lobbying
    ensures r.Value? ==> r.value.dLobbying >= 0.10 * (p.gamma * st.i) - 0.05 * lobbying
  {
    var dLobbying := GuardedRate(lobbying, 0.10 * (p.gamma * st.i), 0.05 * lobbying);
    match Saturation(lobbying)
    case ZeroDivision => ZeroDivision
    case Value(sat) =>
      var n := p.s0 + 1.0;
      if n == 0.0 then ZeroDivision
      else
        var sigmaTotal := CappedSigma(LobbySigma(p.sigma, sat), ReputationDrag(st.rep));
        var be := p.beta * (1.0 - sigmaTotal);
        var sales := Sales(be, st.s, st.i, n);
        Value(LobbyRates(
          Rates(-sales, sales - p.gamma * st.i, p.gamma * st.i, -0.05 * p.beta * st.i + 0.1 * (100.0 - st.rep)),
          dLobbying))
  }

  /**
    With a non-negative Lobbying stock and a positive sigma, the brake the
    lobbying formula applies lies in (0.5 * sigma, sigma]: lobbying can
    halve political scrutiny at best, never remove it.
   */
  lemma LobbyingSoftensBrake(lobbying: real, sigma: real)
    requires lobbying >= 0.0 && sigma > 0.0
    ensures Saturation(lobbying).Value?
    ensures 0.5 * sigma < LobbySigma(sigma, Saturation(lobbying).value) <= sigma
  {
  }

  /** The lobbying `deriv`: the four base rates plus the Lobbying rate. */
  function LobbyingDeriv(y: map<string, real>, p: map<string, real>): (r: Eval<map<string, real>>)
    ensures r.Value? ==> r.value.Keys == {"S", "I", "R", "Rep", "Lobbying"}
    ensures r.Value? ==> r.value["Lobbying"] >= -Lookup(y, "Lobbying", 0.0)
    ensures r.Value? ==> r.value["S"] + r.value["I"] + r.value["R"] == 0.0
    ensures r.ZeroDivision? <==> Lookup(y, "Lobbying", 0.0) == -10.0 || Lookup(p, "S0", 100.0) + 1.0 == 0.0
  {
    match LobbyingRates(ReadStocks(y), Lookup(y, "Lobbying", 0.0), ReadParams(p))
    case ZeroDivision => ZeroDivision
    case Value(d) =>
      Value(map["S" := d.base.dS, "I" := d.base.dI, "R" := d.base.dR, "Rep" := d.base.dRep,
                "Lobbying" := d.dLobbying])
  }
}
