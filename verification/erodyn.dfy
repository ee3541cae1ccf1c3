/**
  The rate equations of the stand-alone Streamlit simulator (`erodyn_engine`
  in cours.py): three stocks S, I, R, a constant political brake sigma on
  the sales rate, and the same capacity bottleneck as the engine's baseline
  formula. The total population is N = S0 + I0, fixed when the simulator is
  set up. Exact real arithmetic; floating-point rounding is not modelled.
 */
module Erodyn {
  import opened RateLaws

  /** The arguments of `erodyn_engine` that the rate function closes over. */
  datatype Setup = Setup(s0: real, i0: real, beta: real, gamma: real, sigma: real, capacity: real)

  datatype Flows = Flows(dS: real, dI: real, dR: real)

  /** `N = S0 + I0` */
  function Population(c: Setup): real
  {
    c.s0 + c.i0
  }

  /** `beta * (1 - sigma)`: the brake only ever slows sales when it lies in [0, 1]. */
  function EffectiveBeta(c: Setup): (r: real)
    ensures c.beta >= 0.0 && 0.0 <= c.sigma <= 1.0 ==> 0.0 <= r <= c.beta
  {
    assert c.beta >= 0.0 && 0.0 <= c.sigma <= 1.0 ==> 0.0 <= c.beta * (1.0 - c.sigma) <= c.beta by {
      if c.beta >= 0.0 && 0.0 <= c.sigma <= 1.0 {
        MulMonotone(c.beta, 0.0, 1.0 - c.sigma);
        MulMonotone(c.beta, 1.0 - c.sigma, 1.0);
      }
    }
    c.beta * (1.0 - c.sigma)
  }

  /**
    The inner `deriv(y, t)`. The three rates sum to zero, the flow into R is
    gamma times the smaller of I and the capacity, and the only failures are
    a zero population and the capacity division with I = 0 below a negative
    capacity.
   */
  function Deriv(c: Setup, s: real, i: real, r: real): (f: Eval<Flows>)
    ensures f.ZeroDivision? <==> (i > c.capacity && i == 0.0) || Population(c) == 0.0
    ensures f.Value? ==> f.value.dS + f.value.dI + f.value.dR == 0.0
    ensures f.Value? ==> f.value.dR == c.gamma * Min(i, c.capacity)
  {
    match EffectiveGamma(c.gamma, c.capacity, i)
    case ZeroDivision => ZeroDivision
    case Value(g) =>
      var n := Population(c);
      if n == 0.0 then ZeroDivision
      else
        var sales := Sales(EffectiveBeta(c), s, i, n);
        Value(Flows(-sales, sales - g * i, g * i))
  }

  /**
    The ranges of the simulator's input widgets: market size 10..500,
    aggressiveness 0.05..1.0, scrutiny 0..0.9, capacity 5..100, efficiency
    0.01..0.3, and one initial integration.
   */
  predicate WidgetInputs(c: Setup)
  {
    && 10.0 <= c.s0 <= 500.0
    && c.i0 == 1.0
    && 0.05 <= c.beta <= 1.0
    && 0.0 <= c.sigma <= 0.9
    && 5.0 <= c.capacity <= 100.0
    && 0.01 <= c.gamma <= 0.3
  }

  /**
    Every input the widgets allow gives a well-posed system: N is positive,
    the braked sales rate lies between 0 and beta, and on non-negative stocks
    the rates are defined, the market only shrinks, and revenue grows by at
    most gamma times the capacity.
   */
  lemma WidgetInputsWellPosed(c: Setup, s: real, i: real, r: real)
    requires WidgetInputs(c)
    requires s >= 0.0 && i >= 0.0
    ensures Population(c) > 0.0
    ensures 0.0 <= EffectiveBeta(c) <= c.beta
    ensures Deriv(c, s, i, r).Value?
    ensures Deriv(c, s, i, r).value.dS <= 0.0
    ensures 0.0 <= Deriv(c, s, i, r).value.dR <= c.gamma * c.capacity
  {
    SignsOfFlows(c, s, i, r);
  }

  /**
    The same conclusions from the weaker assumptions the rate law needs:
    non-negative stocks, beta, gamma and capacity, a brake of at most 1,
    and a positive population.
   */
  lemma SignsOfFlows(c: Setup, s: real, i: real, r: real)
    requires s >= 0.0 && i >= 0.0
    requires c.beta >= 0.0 && c.gamma >= 0.0 && c.capacity >= 0.0
    requires c.sigma <= 1.0 && Population(c) > 0.0
    ensures Deriv(c, s, i, r).Value?
    ensures Deriv(c, s, i, r).value.dS <= 0.0
    ensures 0.0 <= Deriv(c, s, i, r).value.dR <= c.gamma * c.capacity
  {
    MulMonotone(c.beta, 0.0, 1.0 - c.sigma);
    ThroughputCapped(c.gamma, c.capacity, i);
  }
}
