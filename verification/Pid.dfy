/** The PID controller of the Pelican proxy (PID.cpp): weighted derivative smoothing,
    anti-windup and output limiting. Doubles are exact reals; the timer is a parameter. */
module Pid {
  import opened Filters

  // ------------------------------------------------------------ smoothing weights

  /** The decrement of the weight loop. */
  function Decrement(n: nat): real
    requires n > 0
  {
    2.0 / ((n * (n + 1)) as real)
  }

  /** Weight of the sample that is `age` steps old: linear, down to one decrement. */
  function Weights(n: nat): (w: Signal)
    requires n > 0
    ensures |w| == n
  {
    seq(n, age requires 0 <= age < n => ((n - age) as real) * Decrement(n))
  }

  function Total(c: Signal, k: nat): real
    requires k <= |c|
  {
    if k == 0 then 0.0 else Total(c, k - 1) + c[k - 1]
  }

  lemma FirstWeight(n: nat)
    requires n > 0
    ensures (n as real) * Decrement(n) == 2.0 / ((n + 1) as real)
    ensures Decrement(n) > 0.0
  {
    var a, b := n as real, (n + 1) as real;
    assert (n * (n + 1)) as real == a * b;
    assert a * (2.0 / (a * b)) == 2.0 / b;
  }

  /** Twice the number of decrements in the first k weights. */
  function Decrements(n: nat, k: nat): int { k * (2 * n - k + 1) }

  lemma {:induction false} TotalOfWeights(n: nat, k: nat)
    requires n > 0 && k <= n
    ensures 2.0 * Total(Weights(n), k) == Mul(Decrements(n, k) as real, Decrement(n))
    decreases k
  {
    hide Decrement, Decrements, Mul;
    NoWeights(n);
    if k > 0 {
      TotalOfWeights(n, k - 1);
      NextDecrements(n, k);
      WeightIs(n, k - 1);
      Scaled(Decrements(n, k - 1) as real, (n - k + 1) as real, Decrement(n));
    }
  }

  lemma NoWeights(n: nat)
    requires n > 0
    ensures Mul(Decrements(n, 0) as real, Decrement(n)) == 0.0
  {}

  lemma WeightIs(n: nat, age: nat)
    requires age < n
    ensures Weights(n)[age] == Mul((n - age) as real, Decrement(n))
  {
    hide Decrement;
  }

  lemma NextDecrements(n: nat, k: nat)
    requires 0 < k <= n
    ensures Decrements(n, k) as real == Decrements(n, k - 1) as real + 2.0 * ((n - k + 1) as real)
  {
    assert Decrements(n, k) == Decrements(n, k - 1) + 2 * (n - k + 1);
  }

  lemma Scaled(a: real, b: real, d: real)
    ensures Mul(a + 2.0 * b, d) == Mul(a, d) + 2.0 * Mul(b, d)
  {}

  lemma WeightsSumToOne(n: nat)
    requires n > 0
    ensures Total(Weights(n), n) == 1.0
  {
    var d := Decrement(n);
    TotalOfWeights(n, n);
    assert Decrements(n, n) == n * (n + 1);
    assert ((n * (n + 1)) as real) * d == 2.0;
  }

  lemma WeightsFall(n: nat, i: nat)
    requires i < n
    ensures Weights(n)[i] > 0.0
    ensures 0 < i ==> Weights(n)[i] < Weights(n)[i - 1]
  {
    var d := Decrement(n);
    FirstWeight(n);
    PositiveProduct((n - i) as real, d);
    assert i > 0 ==> ((n - (i - 1)) as real) * d == ((n - i) as real) * d + d;
  }

  /** The smoothing is a convex combination that favours recent derivatives. */
  lemma WeightsConvex(n: nat)
    requires n > 0
    ensures forall i :: 0 <= i < n ==> Weights(n)[i] > 0.0
    ensures forall i :: 0 < i < n ==> Weights(n)[i] < Weights(n)[i - 1]
    ensures Total(Weights(n), n) == 1.0
  {
    hide Weights;
    WeightsSumToOne(n);
    forall i | 0 <= i < n
      ensures Weights(n)[i] > 0.0 && (0 < i ==> Weights(n)[i] < Weights(n)[i - 1])
    {
      WeightsFall(n, i);
    }
  }

  lemma PositiveProduct(a: real, b: real)
    requires a > 0.0 && b > 0.0
    ensures a * b > 0.0
  {}

  lemma {:induction false} DotBetween(c: Signal, k: nat, s: Signal, n: nat, lo: real, hi: real)
    requires k <= |c| && n < |s|
    requires forall i :: 0 <= i < k ==> c[i] >= 0.0
    requires forall j :: n - k < j <= n ==> lo <= Sample(s, j) <= hi
    ensures lo * Total(c, k) <= Dot(c, k, s, n) <= hi * Total(c, k)
    decreases k
  {
    if k > 0 {
      var w, x, t := c[k - 1], Sample(s, n - k + 1), Total(c, k - 1);
      DotBetween(c, k - 1, s, n, lo, hi);
      NonNegative(w, x - lo);
      NonNegative(w, hi - x);
      assert lo * (t + w) == lo * t + lo * w && hi * (t + w) == hi * t + hi * w;
    }
  }

  /** The smoothed derivative lies between the least and the greatest of the last n. */
  lemma SmoothedInHull(n: nat, raws: Signal, lo: real, hi: real)
    requires n > 0 && raws != []
    requires forall j :: |raws| - n <= j < |raws| ==> lo <= Sample(raws, j) <= hi
    ensures lo <= Dot(Weights(n), n, raws, |raws| - 1) <= hi
  {
    WeightsConvex(n);
    DotBetween(Weights(n), n, raws, |raws| - 1, lo, hi);
  }

  // ------------------------------------------------------------ integrator

  /** One anti-windup step; a negative saturation means the feature is off. */
  function NextIntegrator(ki: real, saturation: real, integrator: real, error: real, elapsed: real): real {
    if saturation >= 0.0 then
      var term := Mul(ki, integrator);
      if (term < saturation && term > -saturation)
         || (term >= saturation && error < 0.0)
         || (term <= -saturation && error > 0.0)
      then integrator + Mul(error, elapsed)
      else integrator
    else integrator + Mul(error, elapsed)
  }

  datatype Tick = Tick(error: real, elapsed: real)

  function Integrate(ki: real, saturation: real, integrator: real, ticks: seq<Tick>): real
    decreases ticks
  {
    if ticks == [] then integrator
    else Integrate(ki, saturation, NextIntegrator(ki, saturation, integrator, ticks[0].error, ticks[0].elapsed), ticks[1..])
  }

  /** What one step can add to the integral term. */
  function Slack(ki: real, eMax: real, tMax: real): real { ki * eMax * tMax }

  lemma StepSmall(k: real, e: real, t: real, eMax: real, tMax: real)
    requires k >= 0.0 && -eMax <= e <= eMax && 0.0 < t <= tMax
    ensures -Slack(k, eMax, tMax) <= Mul(k, Mul(e, t)) <= Slack(k, eMax, tMax)
  {
    NonNegative(eMax, tMax - t);
    NonNegative(eMax - e, t);
    NonNegative(eMax + e, t);
    NonNegative(k, eMax * tMax - e * t);
    NonNegative(k, eMax * tMax + e * t);
    assert k * eMax * tMax == k * (eMax * tMax);
  }

  lemma StepSign(k: real, e: real, t: real)
    requires k >= 0.0 && t > 0.0
    ensures e < 0.0 ==> Mul(k, Mul(e, t)) <= 0.0
    ensures e > 0.0 ==> Mul(k, Mul(e, t)) >= 0.0
  {
    if e < 0.0 {
      NonNegative(-e, t);
      NonNegative(k, -e * t);
    } else {
      NonNegative(e, t);
      NonNegative(k, e * t);
    }
  }

  lemma BoundKept(ki: real, s: real, integrator: real, e: real, t: real, eMax: real, tMax: real)
    requires ki >= 0.0 && s >= 0.0 && -eMax <= e <= eMax && 0.0 < t <= tMax
    requires -(s + Slack(ki, eMax, tMax)) <= Mul(ki, integrator) <= s + Slack(ki, eMax, tMax)
    ensures var next := NextIntegrator(ki, s, integrator, e, t);
      -(s + Slack(ki, eMax, tMax)) <= Mul(ki, next) <= s + Slack(ki, eMax, tMax)
  {
    hide Mul, Slack;
    StepSmall(ki, e, t, eMax, tMax);
    StepSign(ki, e, t);
    Expand(ki, integrator, Mul(e, t));
    if NextIntegrator(ki, s, integrator, e, t) != integrator {
      StaysInside(Mul(ki, integrator), Mul(ki, Mul(e, t)), Slack(ki, eMax, tMax), s);
    }
  }

  lemma StaysInside(term: real, delta: real, slack: real, s: real)
    requires s >= 0.0 && -slack <= delta <= slack && -(s + slack) <= term <= s + slack
    requires -s < term < s || (term >= s && delta <= 0.0) || (term <= -s && delta >= 0.0)
    ensures -(s + slack) <= term + delta <= s + slack
  {}

  /** Anti-windup is a real bound: the integral term exceeds the saturation by no more than
      one step's worth, over every run. */
  lemma {:induction false} AntiWindupBounds(ki: real, s: real, integrator: real, ticks: seq<Tick>, eMax: real, tMax: real)
    requires ki >= 0.0 && s >= 0.0
    requires forall i :: 0 <= i < |ticks| ==> -eMax <= ticks[i].error <= eMax && 0.0 < ticks[i].elapsed <= tMax
    requires -(s + Slack(ki, eMax, tMax)) <= Mul(ki, integrator) <= s + Slack(ki, eMax, tMax)
    ensures var last := Integrate(ki, s, integrator, ticks);
      -(s + Slack(ki, eMax, tMax)) <= Mul(ki, last) <= s + Slack(ki, eMax, tMax)
    decreases ticks
  {
    hide NextIntegrator, Mul, Slack;
    if ticks != [] {
      var t := ticks[0];
      BoundKept(ki, s, integrator, t.error, t.elapsed, eMax, tMax);
      AntiWindupBounds(ki, s, NextIntegrator(ki, s, integrator, t.error, t.elapsed), ticks[1..], eMax, tMax);
    }
  }

  /** With a negative gain the sign tests point the wrong way: a constant positive error is
      integrated without limit, whatever the saturation. */
  lemma {:induction false} NegativeGainWindsUp(ki: real, s: real, integrator: real, e: real, t: real, n: nat)
    requires ki < 0.0 && s >= 0.0 && integrator >= 0.0 && e > 0.0 && t > 0.0
    ensures Integrate(ki, s, integrator, seq(n, _ => Tick(e, t))) == integrator + (n as real) * (e * t)
    decreases n
  {
    if n > 0 {
      NonNegative(-ki, integrator);
      NonNegative(e, t);
      assert ki * integrator <= 0.0;
      var ticks := seq(n, _ => Tick(e, t));
      assert ticks[1..] == seq(n - 1, _ => Tick(e, t));
      assert NextIntegrator(ki, s, integrator, e, t) == integrator + e * t;
      NegativeGainWindsUp(ki, s, integrator + e * t, e, t, n - 1);
      assert (n as real) * (e * t) == ((n - 1) as real) * (e * t) + e * t;
    }
  }

  predicate Within(ticks: seq<Tick>, eMax: real, tMax: real) {
    forall i :: 0 <= i < |ticks| ==> -eMax <= ticks[i].error <= eMax && 0.0 < ticks[i].elapsed <= tMax
  }

  /** Every run from a reset integrator, with errors and intervals within the limits, keeps the
      integral term within `bound`. */
  ghost predicate Bounded(ki: real, s: real, eMax: real, tMax: real, bound: real) {
    forall ticks {:trigger Within(ticks, eMax, tMax)} :: Within(ticks, eMax, tMax) ==>
      -bound <= Mul(ki, Integrate(ki, s, 0.0, ticks)) <= bound
  }

  lemma {:induction false} Exceeds(step: real, bound: real) returns (n: nat)
    requires step > 0.0
    ensures (n as real) * step > bound
  {
    n := if bound <= 0.0 then 1 else (bound / step).Floor + 1;
    if bound > 0.0 {
      var q := bound / step;
      assert q * step == bound;
      assert (n as real) - q > 0.0;
      PositiveProduct((n as real) - q, step);
      assert ((n as real) - q) * step == (n as real) * step - q * step;
    }
  }

  lemma {:induction false} EscapesBound(ki: real, s: real, eMax: real, tMax: real, bound: real)
    requires ki < 0.0 && s >= 0.0 && eMax > 0.0 && tMax > 0.0
    ensures !Bounded(ki, s, eMax, tMax, bound)
  {
    var step := eMax * tMax;
    PositiveProduct(eMax, tMax);
    PositiveProduct(-ki, step);
    var n := Exceeds(-ki * step, bound);
    var ticks := seq(n, _ => Tick(eMax, tMax));
    NegativeGainWindsUp(ki, s, 0.0, eMax, tMax, n);
    assert Within(ticks, eMax, tMax);
    var x := n as real;
    assert Mul(ki, x * step) == -(x * (-ki * step));
  }

  /** The anti-windup bounds the integral term exactly if the gain is not negative: then by the
      saturation and one step's worth, otherwise by nothing. */
  lemma {:induction false} BoundedIffGainNotNegative(ki: real, s: real, eMax: real, tMax: real)
    requires s >= 0.0 && eMax > 0.0 && tMax > 0.0
    ensures (exists bound :: Bounded(ki, s, eMax, tMax, bound)) <==> ki >= 0.0
    ensures ki >= 0.0 ==> Bounded(ki, s, eMax, tMax, s + Slack(ki, eMax, tMax))
  {
    if ki >= 0.0 {
      NonNegative(ki, eMax);
      NonNegative(ki * eMax, tMax);
      forall ticks | Within(ticks, eMax, tMax)
        ensures -(s + Slack(ki, eMax, tMax)) <= Mul(ki, Integrate(ki, s, 0.0, ticks)) <= s + Slack(ki, eMax, tMax)
      {
        AntiWindupBounds(ki, s, 0.0, ticks, eMax, tMax);
      }
      assert Bounded(ki, s, eMax, tMax, s + Slack(ki, eMax, tMax));
    } else {
      forall bound
        ensures !Bounded(ki, s, eMax, tMax, bound)
      {
        EscapesBound(ki, s, eMax, tMax, bound);
      }
    }
  }

  // ------------------------------------------------------------ the law over a run of calls

  /** The integral of the error: the plain sum that no saturation interferes with. */
  function Area(ticks: seq<Tick>): real {
    if ticks == [] then 0.0 else ticks[0].error * ticks[0].elapsed + Area(ticks[1..])
  }

  lemma {:induction false} IntegrateNext(ki: real, s: real, x: real, ticks: seq<Tick>, t: Tick)
    ensures Integrate(ki, s, x, ticks + [t]) == NextIntegrator(ki, s, Integrate(ki, s, x, ticks), t.error, t.elapsed)
    decreases ticks
  {
    hide NextIntegrator;
    if ticks == [] {
      assert (ticks + [t])[1..] == [];
    } else {
      assert (ticks + [t])[1..] == ticks[1..] + [t];
      IntegrateNext(ki, s, NextIntegrator(ki, s, x, ticks[0].error, ticks[0].elapsed), ticks[1..], t);
    }
  }

  /** As long as the integral term has been inside the saturation, nothing was held back. */
  lemma {:induction false} IntegratesInside(ki: real, s: real, x: real, ticks: seq<Tick>)
    requires s < 0.0 || forall j :: 0 <= j < |ticks| ==> -s < Mul(ki, x + Area(ticks[..j])) < s
    ensures Integrate(ki, s, x, ticks) == x + Area(ticks)
    decreases ticks
  {
    hide Mul;
    if ticks != [] {
      var t, rest := ticks[0], ticks[1..];
      var y := NextIntegrator(ki, s, x, t.error, t.elapsed);
      assert s >= 0.0 ==> -s < Mul(ki, x + Area(ticks[..0])) < s;
      Product(t.error, t.elapsed);
      forall j | 0 <= j < |rest|
        ensures y + Area(rest[..j]) == x + Area(ticks[..j + 1])
      {
        assert ticks[..j + 1][1..] == rest[..j];
      }
      IntegratesInside(ki, s, y, rest);
    }
  }

  lemma Product(a: real, b: real)
    ensures Mul(a, b) == a * b
  {}

  predicate Timed(ticks: seq<Tick>) {
    forall i :: 0 <= i < |ticks| ==> ticks[i].elapsed != 0.0
  }

  /** The raw derivatives of a run; the error before the first one counts as zero. */
  function Slopes(ticks: seq<Tick>): (raws: Signal)
    requires Timed(ticks)
    ensures |raws| == |ticks|
  {
    seq(|ticks|, j requires 0 <= j < |ticks| =>
      (ticks[j].error - if j == 0 then 0.0 else ticks[j - 1].error) / ticks[j].elapsed)
  }

  datatype Settings = Settings(kp: real, ki: real, kd: real, saturation: real, maxOutput: real, n: nat)

  datatype Controller = Controller(started: bool, integrator: real, lastError: real, raws: Signal, output: real)

  /** The state after construction or reset. */
  predicate AtRest(c: Controller) { !c.started && c.integrator == 0.0 && c.lastError == 0.0 && c.raws == [] }

  /** getOutput. */
  function Call(g: Settings, c: Controller, t: Tick): Controller
    requires g.n > 0 && t.elapsed != 0.0
  {
    if !c.started then c.(started := true) else
      var raws := c.raws + [(t.error - c.lastError) / t.elapsed];
      var u := Mul(g.kp, t.error) + Mul(g.ki, c.integrator) + Mul(g.kd, Dot(Weights(g.n), g.n, raws, |raws| - 1));
      var output :=
        if g.maxOutput < 0.0 then u
        else if u > g.maxOutput then g.maxOutput
        else if u < -g.maxOutput then -g.maxOutput
        else u;
      Controller(true, NextIntegrator(g.ki, g.saturation, c.integrator, t.error, t.elapsed), t.error, raws, output)
  }

  function Run(g: Settings, c: Controller, ticks: seq<Tick>): Controller
    requires g.n > 0 && Timed(ticks)
  {
    if ticks == [] then c else Call(g, Run(g, c, ticks[..|ticks| - 1]), ticks[|ticks| - 1])
  }

  /** The first call only starts the timer; from then on the state is that of the run so far. */
  lemma {:induction false} StateAfter(g: Settings, c: Controller, ticks: seq<Tick>)
    requires g.n > 0 && AtRest(c) && Timed(ticks) && ticks != []
    ensures var d := Run(g, c, ticks);
      && d.started && d.raws == Slopes(ticks[1..]) && d.integrator == Integrate(g.ki, g.saturation, 0.0, ticks[1..])
      && d.lastError == (if |ticks| == 1 then 0.0 else ticks[|ticks| - 1].error)
      && (|ticks| == 1 ==> d.output == c.output)
    decreases |ticks|
  {
    hide NextIntegrator, Dot, Weights;
    var n := |ticks| - 1;
    var rest, t := ticks[1..], ticks[n];
    if n == 0 {
      assert Run(g, c, ticks[..n]) == c;
      assert rest == [];
    } else {
      var past := ticks[1..n];
      StateAfter(g, c, ticks[..n]);
      assert ticks[..n][1..] == past && rest == past + [t];
      IntegrateNext(g.ki, g.saturation, 0.0, past, t);
      assert Slopes(rest) == Slopes(past) + [(t.error - if n == 1 then 0.0 else ticks[n - 1].error) / t.elapsed];
    }
  }

  lemma RunNext(g: Settings, c: Controller, ticks: seq<Tick>)
    requires g.n > 0 && Timed(ticks) && ticks != []
    ensures Run(g, c, ticks) == Call(g, Run(g, c, ticks[..|ticks| - 1]), ticks[|ticks| - 1])
  {}

  lemma CallOutput(g: Settings, c: Controller, t: Tick)
    requires g.n > 0 && t.elapsed != 0.0 && c.started
    ensures Call(g, c, t).raws != []
    ensures var d := Call(g, c, t);
      var u := Mul(g.kp, t.error) + Mul(g.ki, c.integrator) + Mul(g.kd, Dot(Weights(g.n), g.n, d.raws, |d.raws| - 1));
      && (g.maxOutput < 0.0 || -g.maxOutput <= u <= g.maxOutput ==> d.output == u)
      && (g.maxOutput >= 0.0 && u > g.maxOutput ==> d.output == g.maxOutput)
      && (g.maxOutput >= 0.0 && u < -g.maxOutput ==> d.output == -g.maxOutput)
  {
    hide NextIntegrator, Dot, Weights, Mul;
  }

  /** The control law. While the integral term has stayed inside the saturation, or without
      one, the control value of a call is kp times its error, ki times the integral of the error
      over the calls since the first, which only started the timer, and kd times the weighted
      mean of the last raw derivatives. The output is that value where it lies inside the
      limit, and the nearer bound elsewhere. */
  lemma {:induction false} ControlLaw(g: Settings, c: Controller, ticks: seq<Tick>)
    requires g.n > 0 && AtRest(c) && Timed(ticks) && |ticks| > 1
    requires var past := ticks[1..|ticks| - 1];
      g.saturation < 0.0 || forall j :: 0 <= j < |past| ==> -g.saturation < Mul(g.ki, Area(past[..j])) < g.saturation
    ensures var n, output, raws := |ticks| - 1, Run(g, c, ticks).output, Slopes(ticks[1..]);
      var u := Mul(g.kp, ticks[n].error) + Mul(g.ki, Area(ticks[1..n])) + Mul(g.kd, Dot(Weights(g.n), g.n, raws, |raws| - 1));
      && (g.maxOutput < 0.0 || -g.maxOutput <= u <= g.maxOutput ==> output == u)
      && (g.maxOutput >= 0.0 && u > g.maxOutput ==> output == g.maxOutput)
      && (g.maxOutput >= 0.0 && u < -g.maxOutput ==> output == -g.maxOutput)
  {
    var n := |ticks| - 1;
    var past := ticks[1..n];
    StateAfter(g, c, ticks[..n]);
    StateAfter(g, c, ticks);
    assert ticks[..n][1..] == past;
    RunNext(g, c, ticks);
    hide Run, Call, Area, Slopes, Integrate, Dot, Weights, Mul;
    IntegratesInside(g.ki, g.saturation, 0.0, past);
    CallOutput(g, Run(g, c, ticks[..n]), ticks[n]);
  }

  /** The history array holds the newest raw derivatives, oldest first, zeros before the start. */
  ghost predicate Remembers(h: seq<real>, raws: Signal) {
    forall i :: 0 <= i < |h| ==> h[i] == Sample(raws, |raws| - |h| + i)
  }

  class Pid {
    var reference: real
    var feedback: real
    var output: real
    var kp: real
    var ki: real
    var kd: real
    var actuatorSaturation: real
    var maxOutput: real
    var integrator: real
    var lastError: real
    const dErrorHistory: array<real>
    var started: bool
    ghost var raws: Signal

    ghost predicate Valid()
      reads this, dErrorHistory
    {
      && dErrorHistory.Length > 0
      && Remembers(dErrorHistory[..], raws)
    }

    ghost function View(): Controller
      reads this
    {
      Controller(started, integrator, lastError, raws, output)
    }

    ghost function Tuning(): Settings
      reads this
    {
      Settings(kp, ki, kd, actuatorSaturation, maxOutput, dErrorHistory.Length)
    }

    /** The stored output respects the limit, if one is set. */
    predicate InRange()
      reads this
    {
      maxOutput >= 0.0 ==> -maxOutput <= output <= maxOutput
    }

    /** PID_D_FILTER_LENGTH is the parameter n. */
    constructor (n: nat)
      requires n > 0
      ensures Valid() && InRange() && dErrorHistory.Length == n && fresh(dErrorHistory)
      ensures kp == ki == kd == reference == feedback == output == integrator == lastError == 0.0
      ensures actuatorSaturation < 0.0 && maxOutput < 0.0 && AtRest(View())
    {
      kp, ki, kd, reference, feedback, output, integrator, lastError := 0.0, 0.0, 0.0, 0.0, 0.0, 0.0, 0.0, 0.0;
      dErrorHistory := new real[n](i => 0.0);
      actuatorSaturation, maxOutput, started, raws := -1.0, -1.0, false, [];
    }

    method SetGains(p: real, i: real, d: real)
      modifies this`kp, this`ki, this`kd
      ensures kp == p && ki == i && kd == d
    {
      kp, ki, kd := p, i, d;
    }

    method SetReference(ref: real)
      modifies this`reference
      ensures reference == ref
    {
      reference := ref;
    }

    method SetFeedback(measure: real)
      modifies this`feedback
      ensures feedback == measure
    {
      feedback := measure;
    }

    method EnableAntiWindup(enable: bool, saturation: real)
      modifies this`actuatorSaturation
      ensures if enable then actuatorSaturation >= 0.0 && (actuatorSaturation == saturation || actuatorSaturation == -saturation)
              else actuatorSaturation < 0.0
    {
      if enable {
        if saturation < 0.0 { actuatorSaturation := -saturation; } else { actuatorSaturation := saturation; }
      } else {
        actuatorSaturation := -1.0;
      }
    }

    method EnableMaxOutput(enable: bool, max: real)
      modifies this`maxOutput
      ensures if enable then maxOutput >= 0.0 && (maxOutput == max || maxOutput == -max) else maxOutput < 0.0
      ensures InRange() <==> !enable || -maxOutput <= output <= maxOutput
    {
      if enable {
        if max < 0.0 { maxOutput := -max; } else { maxOutput := max; }
      } else {
        maxOutput := -1.0;
      }
    }

    /** reset() forgets everything but the last output, which the next call returns. */
    method Reset()
      requires Valid()
      modifies this`integrator, this`lastError, this`started, this`raws, dErrorHistory
      ensures Valid() && AtRest(View())
    {
      integrator, lastError := 0.0, 0.0;
      var i := 0;
      while i < dErrorHistory.Length
        invariant 0 <= i <= dErrorHistory.Length
        invariant forall j :: 0 <= j < i ==> dErrorHistory[j] == 0.0
        modifies dErrorHistory
      {
        dErrorHistory[i] := 0.0;
        i := i + 1;
      }
      started, raws := false, [];
    }

    /** Shift the history and append the newest raw derivative. */
    method PushDerivative(raw: real)
      requires Valid()
      modifies this`raws, dErrorHistory
      ensures Valid() && raws == old(raws) + [raw]
    {
      ghost var h := dErrorHistory[..];
      var n := dErrorHistory.Length;
      var i := 0;
      while i < n - 1
        invariant 0 <= i <= n - 1
        invariant forall j :: 0 <= j < i ==> dErrorHistory[j] == h[j + 1]
        invariant forall j :: i <= j < n ==> dErrorHistory[j] == h[j]
        modifies dErrorHistory
      {
        dErrorHistory[i] := dErrorHistory[i + 1];
        i := i + 1;
      }
      dErrorHistory[n - 1] := raw;
      raws := raws + [raw];
      forall j | 0 <= j < n
        ensures dErrorHistory[..][j] == Sample(raws, |raws| - n + j)
      {
        assert j < n - 1 ==> dErrorHistory[j] == h[j + 1];
      }
    }

    /** The weight loop: newest derivative first, the weight falling by one decrement. */
    method Smooth() returns (dError: real)
      requires Valid() && raws != []
      ensures dError == Dot(Weights(dErrorHistory.Length), dErrorHistory.Length, raws, |raws| - 1)
    {
      var n := dErrorHistory.Length;
      FirstWeight(n);
      dError := 0.0;
      var weight := 2.0 / ((n + 1) as real);
      var i := 0;
      while i < n
        invariant 0 <= i <= n
        invariant i < n ==> weight == ((n - i) as real) * Decrement(n)
        invariant dError == Dot(Weights(n), i, raws, |raws| - 1)
      {
        assert dErrorHistory[..][n - i - 1] == Sample(raws, |raws| - 1 - i);
        assert Weights(n)[i] == weight;
        dError := dError + weight * dErrorHistory[n - i - 1];
        assert i + 1 < n ==> ((n - i) as real) * Decrement(n) == ((n - (i + 1)) as real) * Decrement(n) + Decrement(n);
        if n > 1 {
          weight := weight - 2.0 / ((n * (n + 1)) as real);
        }
        i := i + 1;
      }
    }

    /** The anti-windup branch of getOutput. */
    method UpdateIntegrator(error: real, elapsed: real)
      modifies this`integrator
      ensures integrator == NextIntegrator(ki, actuatorSaturation, old(integrator), error, elapsed)
      ensures var term, s := ki * old(integrator), actuatorSaturation;
        if s < 0.0 || -s < term < s || (term >= s && error < 0.0) || (term <= -s && error > 0.0)
        then integrator == old(integrator) + error * elapsed else integrator == old(integrator)
    {
      if actuatorSaturation >= 0.0 {
        var kiInt := ki * integrator;
        if (kiInt < actuatorSaturation && kiInt > -actuatorSaturation)
           || (kiInt >= actuatorSaturation && error < 0.0)
           || (kiInt <= -actuatorSaturation && error > 0.0)
        {
          integrator := integrator + error * elapsed;
        }
      } else {
        integrator := integrator + error * elapsed;
      }
    }

    /** One controller step `elapsed` seconds after the last. The first call after start or
        reset only starts the timer and returns the stored output, even one from before. */
    method GetOutput(elapsed: real) returns (result: real)
      requires Valid() && elapsed != 0.0
      modifies this`output, this`started, this`lastError, this`integrator, this`raws, dErrorHistory
      ensures Valid() && started && result == output
      ensures !old(started) ==> output == old(output) && lastError == old(lastError)
      ensures !old(started) ==> integrator == old(integrator) && raws == old(raws)
      ensures View() == Call(Tuning(), old(View()), Tick(reference - feedback, elapsed))
      ensures old(started) ==> lastError == reference - feedback
      ensures old(started) ==> raws == old(raws) + [(reference - feedback - old(lastError)) / elapsed]
      ensures old(started) ==> var n := dErrorHistory.Length;
        var u := Mul(kp, reference - feedback) + Mul(ki, old(integrator)) + Mul(kd, Dot(Weights(n), n, raws, |raws| - 1));
        && (maxOutput < 0.0 || -maxOutput <= u <= maxOutput ==> output == u)
        && (maxOutput >= 0.0 && u > maxOutput ==> output == maxOutput)
        && (maxOutput >= 0.0 && u < -maxOutput ==> output == -maxOutput)
      ensures maxOutput >= 0.0 ==> (-maxOutput <= result <= maxOutput <==> old(started) || old(InRange()))
      ensures old(InRange()) ==> InRange()
    {
      hide NextIntegrator, Dot, Remembers, Weights, Mul;
      if !started {
        started := true;
        return output;
      }
      var error := reference - feedback;
      PushDerivative((error - lastError) / elapsed);
      lastError := error;
      var dError := Smooth();
      output := Mul(kp, error) + Mul(ki, integrator) + Mul(kd, dError);
      UpdateIntegrator(error, elapsed);
      if maxOutput >= 0.0 {
        if output > maxOutput {
          output := maxOutput;
        } else if output < -maxOutput {
          output := -maxOutput;
        }
      }
      return output;
    }
  }
}
