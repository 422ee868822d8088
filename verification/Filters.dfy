/** The digital filters of the proxies: Filter.cpp (an IIR filter over circular histories)
    and CompFilter1.cpp (a complementary low-pass/high-pass pair). Floats are exact reals. */
module Filters {
  import Masks

  type Signal = seq<real>

  /** Sample `n` of a signal; zero before its start. */
  function Sample(s: Signal, n: int): real
    requires n < |s|
  {
    if n < 0 then 0.0 else s[n]
  }

  /** Multiplication under a name, to keep products out of proofs that do not need them. */
  function Mul(a: real, b: real): real { a * b }

  /** c[0]*s[n] + c[1]*s[n-1] + ... + c[k-1]*s[n-k+1] */
  function Dot(c: Signal, k: nat, s: Signal, n: nat): real
    requires k <= |c| && n < |s|
  {
    if k == 0 then 0.0 else Dot(c, k - 1, s, n) + Mul(c[k - 1], Sample(s, n - k + 1))
  }

  /** The difference equation between input xs and output ys, at time n:
      sum den[i]*y[n-i] == sum num[i]*x[n-i], with nothing before the start. */
  ghost predicate Balanced(num: Signal, den: Signal, xs: Signal, ys: Signal, n: nat)
    requires n < |xs| == |ys|
  {
    Dot(den, |den|, ys, n) == Dot(num, |num|, xs, n)
  }

  ghost predicate Solves(num: Signal, den: Signal, xs: Signal, ys: Signal) {
    && |num| == |den| > 0
    && |xs| == |ys|
    && forall n :: 0 <= n < |xs| ==> Balanced(num, den, xs, ys, n)
  }

  // ------------------------------------------------------------ Filter

  /** A circular history with write position `index`: slot j holds the sample Age(j) old. */
  ghost predicate Holds(h: seq<real>, s: Signal, index: int) {
    && 0 <= index < |h|
    && forall j :: 0 <= j < |h| ==> h[j] == Sample(s, |s| - Age(j, index, |h|))
  }

  function Age(j: int, index: int, order: int): (a: int)
    requires 0 <= j < order && 0 <= index < order
    ensures 1 <= a <= order
  {
    if j < index then index - j else index - j + order
  }

  /** Filter::mod over C's truncating remainder, on the range the filter uses. */
  function Mod(a: int, b: int): (r: int)
    requires b > 0 && -b < a <= b
    ensures r == if a < 0 then a + b else if a == b then 0 else a
  {
    Masks.DivUnique(if a < 0 then -a else if a == b then 0 else a, 0, if a < 0 then -a else if a == b then 0 else a, b);
    Masks.DivUnique(b, 1, 0, b);
    var t := if a >= 0 then a % b else -((-a) % b);
    if t >= 0 then t else b + t
  }

  lemma HistoryLookup(h: seq<real>, s: Signal, index: int, i: int, x: real)
    requires Holds(h, s, index) && 1 <= i < |h|
    ensures var j := Mod(index - i, |h|);
      0 <= j < |h| && j != index && h[j] == Sample(s + [x], |s| - i)
  {
    var j := Mod(index - i, |h|);
    assert Age(j, index, |h|) == i;
  }

  lemma HistoryPush(h: seq<real>, s: Signal, index: int, x: real)
    requires Holds(h, s, index)
    ensures Holds(h[index := x], s + [x], Mod(index + 1, |h|))
  {
    var index' := Mod(index + 1, |h|);
    forall j | 0 <= j < |h|
      ensures h[index := x][j] == Sample(s + [x], |s| + 1 - Age(j, index', |h|))
    {
      assert j != index ==> Age(j, index', |h|) == Age(j, index, |h|) + 1;
    }
  }

  class Filter {
    var num: array<real>
    var den: array<real>
    var sampleHistory: array<real>
    var outputHistory: array<real>
    var order: nat
    var index: int
    var trigger: int
    ghost var xs: Signal
    ghost var ys: Signal

    ghost predicate Separate()
      reads this
    {
      && num != den && num != sampleHistory && num != outputHistory
      && den != sampleHistory && den != outputHistory && sampleHistory != outputHistory
    }

    ghost predicate Valid()
      reads this, num, den, sampleHistory, outputHistory
    {
      && Separate()
      && order > 0
      && num.Length == den.Length == sampleHistory.Length == outputHistory.Length == order
      && den[0] != 0.0
      && 0 <= index < order
      && Solves(num[..], den[..], xs, ys)
      && Holds(sampleHistory[..], xs, index)
      && Holds(outputHistory[..], ys, index)
    }

    ghost function Repr(): set<object>
      reads this
    {
      {this, num, den, sampleHistory, outputHistory}
    }

    /** Filter::create; `num` and `den` have one coefficient more than the filter order. */
    constructor (num: seq<real>, den: seq<real>)
      requires |num| == |den| > 0 && den[0] != 0.0
      ensures Valid() && fresh(Repr())
      ensures this.num[..] == num && this.den[..] == den && xs == [] && ys == [] && trigger == -1
    {
      order := |num|;
      this.num := new real[|num|](i requires 0 <= i < |num| => num[i]);
      this.den := new real[|num|](i requires 0 <= i < |num| => den[i]);
      sampleHistory := new real[|num|](i => 0.0);
      outputHistory := new real[|num|](i => 0.0);
      trigger := -1;
      index := 0;
      xs, ys := [], [];
    }

    lemma ValidSizes()
      requires Valid()
      ensures |xs| == |ys| && |sampleHistory[..]| == |outputHistory[..]| == order
    {}

    method SetTrigger(trigger: int)
      requires Valid()
      modifies this`trigger
      ensures Valid() && this.trigger == trigger
    {
      this.trigger := trigger;
    }

    /** The accumulation loop of Filter::filter, once the new sample is in its slot. */
    method Accumulate(ghost hx: seq<real>) returns (output: real)
      requires num.Length == den.Length == sampleHistory.Length == outputHistory.Length == order > 0
      requires |xs| == |ys| && |hx| == order && 0 <= index < order
      requires Holds(hx, xs, index) && Holds(outputHistory[..], ys, index)
      requires sampleHistory[..] == hx[index := sampleHistory[index]]
      ensures output == Dot(num[..], order, xs + [sampleHistory[index]], |xs|)
                        - Dot(den[..], order, ys + [0.0], |ys|)
    {
      hide Holds, Mul;
      ghost var n := |xs|;
      ghost var x', y0 := xs + [sampleHistory[index]], ys + [0.0];
      output := Mul(sampleHistory[index], num[0]);
      FirstTerm(num[..], x', n);
      FirstTerm(den[..], y0, n);
      var i := 1;
      while i < order
        invariant 1 <= i <= order
        invariant output == Dot(num[..], i, x', n) - Dot(den[..], i, y0, n)
      {
        var j := Mod(index - i, order);
        HistoryLookup(hx, xs, index, i, sampleHistory[index]);
        HistoryLookup(outputHistory[..], ys, index, i, 0.0);
        NextTerm(num[..], i, x', n, sampleHistory[j]);
        NextTerm(den[..], i, y0, n, outputHistory[j]);
        output := output + Mul(sampleHistory[j], num[i]);
        output := output - Mul(outputHistory[j], den[i]);
        i := i + 1;
      }
    }

    /** Filter::filter: one step of the difference equation over the circular histories.
        While the trigger counts down, the input is passed through but still filtered. */
    method Step(currentSample: real) returns (result: real)
      requires Valid()
      modifies this, sampleHistory, outputHistory
      ensures Valid() && Repr() == old(Repr()) && num[..] == old(num[..]) && den[..] == old(den[..])
      ensures xs == old(xs) + [currentSample]
      ensures |ys| == |xs| && ys[..|ys| - 1] == old(ys)
      ensures result == if old(trigger) > 0 then currentSample else ys[|ys| - 1]
      ensures trigger == if old(trigger) > 0 then old(trigger) - 1 else old(trigger)
    {
      hide Solves, Holds, Balanced, Mul;
      ValidSizes();
      ghost var numS, denS, hx, hy := num[..], den[..], sampleHistory[..], outputHistory[..];
      HistoryPush(hx, xs, index, currentSample);
      sampleHistory[index] := currentSample;
      assert sampleHistory[..] == hx[index := currentSample];
      var output := Accumulate(hx);
      Quotient(output, den[0]);
      output := output / den[0];
      NewestOutput(numS, denS, xs + [currentSample], ys, output);
      Extend(numS, denS, xs, ys, currentSample, output);
      HistoryPush(hy, ys, index, output);
      outputHistory[index] := output;
      assert outputHistory[..] == hy[index := output];
      index := Mod(index + 1, order);
      xs, ys := xs + [currentSample], ys + [output];
      assert num[..] == numS && den[..] == denS && sampleHistory[..] == hx[old(index) := currentSample];
      if trigger > 0 {
        trigger := trigger - 1;
        return currentSample;
      }
      return output;
    }
  }

  // ------------------------------------------------------------ the difference equation

  lemma FirstTerm(c: Signal, s: Signal, n: nat)
    requires |c| > 0 && n < |s|
    ensures Dot(c, 1, s, n) == Mul(s[n], c[0])
    ensures s[n] == 0.0 ==> Dot(c, 1, s, n) == 0.0
  {
    assert Dot(c, 0, s, n) == 0.0;
  }

  lemma NextTerm(c: Signal, k: nat, s: Signal, n: nat, v: real)
    requires k < |c| && n < |s| && v == Sample(s, n - k)
    ensures Dot(c, k + 1, s, n) == Dot(c, k, s, n) + Mul(v, c[k])
  {}

  /** Only samples 0..n matter at time n. */
  lemma {:induction false} DotAgrees(c: Signal, k: nat, s: Signal, t: Signal, n: nat)
    requires k <= |c| && n < |s| && n < |t|
    requires forall i :: 0 <= i <= n ==> s[i] == t[i]
    ensures Dot(c, k, s, n) == Dot(c, k, t, n)
    decreases k
  {
    hide Mul;
    if k > 0 {
      DotAgrees(c, k - 1, s, t, n);
    }
  }

  /** The newest sample contributes through the first coefficient only. */
  lemma {:induction false} DotNewest(c: Signal, k: nat, s: Signal, y: real)
    requires 1 <= k <= |c|
    ensures Dot(c, k, s + [y], |s|) == Dot(c, k, s + [0.0], |s|) + Mul(c[0], y)
    decreases k
  {
    if k == 1 {
      FirstTerm(c, s + [y], |s|);
      FirstTerm(c, s + [0.0], |s|);
    } else {
      hide Mul;
      DotNewest(c, k - 1, s, y);
    }
  }

  lemma Quotient(a: real, d: real)
    requires d != 0.0
    ensures Mul(d, a / d) == a
  {}

  lemma BalancedAgrees(num: Signal, den: Signal, xs: Signal, ys: Signal, xs': Signal, ys': Signal, n: nat)
    requires n < |xs| == |ys| && n < |xs'| == |ys'|
    requires forall i :: 0 <= i <= n ==> xs[i] == xs'[i] && ys[i] == ys'[i]
    ensures Balanced(num, den, xs, ys, n) == Balanced(num, den, xs', ys', n)
  {
    hide Mul;
    DotAgrees(num, |num|, xs, xs', n);
    DotAgrees(den, |den|, ys, ys', n);
  }

  /** A sample that balances the equation at the end continues a solution. */
  lemma Extend(num: Signal, den: Signal, xs: Signal, ys: Signal, x: real, y: real)
    requires Solves(num, den, xs, ys)
    requires Balanced(num, den, xs + [x], ys + [y], |xs|)
    ensures Solves(num, den, xs + [x], ys + [y])
  {
    hide Balanced;
    forall n | 0 <= n < |xs|
      ensures Balanced(num, den, xs + [x], ys + [y], n)
    {
      BalancedAgrees(num, den, xs, ys, xs + [x], ys + [y], n);
    }
  }

  lemma DropLast(num: Signal, den: Signal, xs: Signal, ys: Signal)
    requires Solves(num, den, xs, ys) && xs != []
    ensures Solves(num, den, xs[..|xs| - 1], ys[..|xs| - 1])
  {
    hide Balanced;
    var m := |xs| - 1;
    forall n | 0 <= n < m
      ensures Balanced(num, den, xs[..m], ys[..m], n)
    {
      BalancedAgrees(num, den, xs, ys, xs[..m], ys[..m], n);
    }
  }

  /** What a balanced equation says of the newest output. */
  lemma NewestOutput(num: Signal, den: Signal, xs: Signal, ys: Signal, y: real)
    requires |num| == |den| > 0 && |xs| == |ys| + 1
    ensures Balanced(num, den, xs, ys + [y], |ys|)
      <==> Dot(den, |den|, ys + [0.0], |ys|) + Mul(den[0], y) == Dot(num, |num|, xs, |ys|)
  {
    hide Mul;
    DotNewest(den, |den|, ys, y);
  }

  lemma SameFactor(d: real, a: real, b: real)
    requires d != 0.0 && Mul(d, a) == Mul(d, b)
    ensures a == b
  {}

  /** The equation has one solution: it fixes every output of the filter. */
  lemma {:induction false} SolutionUnique(num: Signal, den: Signal, xs: Signal, ys: Signal, zs: Signal)
    requires Solves(num, den, xs, ys) && Solves(num, den, xs, zs) && den[0] != 0.0
    ensures ys == zs
    decreases |xs|
  {
    hide Balanced;
    if xs != [] {
      var m := |xs| - 1;
      DropLast(num, den, xs, ys);
      DropLast(num, den, xs, zs);
      SolutionUnique(num, den, xs[..m], ys[..m], zs[..m]);
      assert ys == ys[..m] + [ys[m]] && zs == zs[..m] + [zs[m]];
      NewestOutput(num, den, xs, ys[..m], ys[m]);
      NewestOutput(num, den, xs, zs[..m], zs[m]);
      SameFactor(den[0], ys[m], zs[m]);
    }
  }

  // ------------------------------------------------------------ linearity

  function Mix(a: real, s: Signal, b: real, t: Signal): (m: Signal)
    requires |s| == |t|
    ensures |m| == |s| && forall i :: 0 <= i < |s| ==> m[i] == Mul(a, s[i]) + Mul(b, t[i])
  {
    seq(|s|, i requires 0 <= i < |s| => Mul(a, s[i]) + Mul(b, t[i]))
  }

  lemma Distribute(c: real, a: real, x: real, b: real, y: real)
    ensures Mul(c, Mul(a, x) + Mul(b, y)) == Mul(a, Mul(c, x)) + Mul(b, Mul(c, y))
  {}

  lemma Expand(a: real, x: real, y: real)
    ensures Mul(a, x + y) == Mul(a, x) + Mul(a, y)
    ensures Mul(x + y, a) == Mul(x, a) + Mul(y, a)
    ensures Mul(a, 0.0) == Mul(0.0, a) == 0.0
    ensures Mul(1.0, a) == Mul(a, 1.0) == a
    ensures Mul(-x, a) == -Mul(x, a)
  {}

  lemma {:induction false} DotLinear(c: Signal, k: nat, a: real, s: Signal, b: real, t: Signal, n: nat)
    requires k <= |c| && n < |s| == |t|
    ensures Dot(c, k, Mix(a, s, b, t), n) == Mul(a, Dot(c, k, s, n)) + Mul(b, Dot(c, k, t, n))
    decreases k
  {
    hide Mul;
    Expand(a, 0.0, 0.0);
    Expand(b, 0.0, 0.0);
    if k > 0 {
      DotLinear(c, k - 1, a, s, b, t, n);
      var x, y := Sample(s, n - k + 1), Sample(t, n - k + 1);
      Distribute(c[k - 1], a, x, b, y);
      Expand(a, Dot(c, k - 1, s, n), Mul(c[k - 1], x));
      Expand(b, Dot(c, k - 1, t, n), Mul(c[k - 1], y));
    }
  }

  lemma MixSolves(num: Signal, den: Signal, a: real, xs: Signal, ys: Signal, b: real, us: Signal, vs: Signal)
    requires Solves(num, den, xs, ys) && Solves(num, den, us, vs) && |xs| == |us|
    ensures Solves(num, den, Mix(a, xs, b, us), Mix(a, ys, b, vs))
  {
    hide Mul;
    forall n | 0 <= n < |xs|
      ensures Balanced(num, den, Mix(a, xs, b, us), Mix(a, ys, b, vs), n)
    {
      assert Balanced(num, den, xs, ys, n) && Balanced(num, den, us, vs, n);
      DotLinear(num, |num|, a, xs, b, us, n);
      DotLinear(den, |den|, a, ys, b, vs, n);
    }
  }

  /** The filter is linear in its whole input: the response to a combination of inputs is
      the combination of the responses. */
  lemma FilterLinear(num: Signal, den: Signal, a: real, xs: Signal, ys: Signal, b: real, us: Signal, vs: Signal, zs: Signal)
    requires Solves(num, den, xs, ys) && Solves(num, den, us, vs) && |xs| == |us| && den[0] != 0.0
    requires Solves(num, den, Mix(a, xs, b, us), zs)
    ensures zs == Mix(a, ys, b, vs)
  {
    MixSolves(num, den, a, xs, ys, b, us, vs);
    SolutionUnique(num, den, Mix(a, xs, b, us), zs, Mix(a, ys, b, vs));
  }

  lemma {:induction false} DotAddsCoefficients(c: Signal, d: Signal, e: Signal, k: nat, s: Signal, n: nat)
    requires k <= |c| == |d| == |e| && n < |s|
    requires forall i :: 0 <= i < |c| ==> e[i] == c[i] + d[i]
    ensures Dot(e, k, s, n) == Dot(c, k, s, n) + Dot(d, k, s, n)
    decreases k
  {
    hide Mul;
    if k > 0 {
      DotAddsCoefficients(c, d, e, k - 1, s, n);
      Expand(Sample(s, n - k + 1), c[k - 1], d[k - 1]);
    }
  }

  /** Two filters with the same denominator in parallel on one input. */
  lemma ParallelFilters(p: Signal, q: Signal, r: Signal, den: Signal, xs: Signal, ys: Signal, zs: Signal)
    requires Solves(p, den, xs, ys) && Solves(q, den, xs, zs)
    requires |r| == |p| && forall i :: 0 <= i < |p| ==> r[i] == p[i] + q[i]
    ensures Solves(r, den, xs, Mix(1.0, ys, 1.0, zs))
  {
    hide Mul;
    forall n | 0 <= n < |xs|
      ensures Balanced(r, den, xs, Mix(1.0, ys, 1.0, zs), n)
    {
      assert Balanced(p, den, xs, ys, n) && Balanced(q, den, xs, zs, n);
      DotAddsCoefficients(p, q, r, |p|, xs, n);
      DotLinear(den, |den|, 1.0, ys, 1.0, zs, n);
      Expand(Dot(den, |den|, ys, n), 0.0, 0.0);
      Expand(Dot(den, |den|, zs, n), 0.0, 0.0);
    }
  }

  // ------------------------------------------------------------ the complementary pair

  function LowNum(alpha: real): Signal { [1.0 - alpha, 0.0] }
  function HighNum(alpha: real): Signal { [alpha, -alpha] }
  function PairDen(alpha: real): Signal { [1.0, -alpha] }

  /** The same signal on both inputs comes out unchanged, for every alpha. */
  lemma PairIsExact(alpha: real, xs: Signal, low: Signal, high: Signal)
    requires Solves(LowNum(alpha), PairDen(alpha), xs, low)
    requires Solves(HighNum(alpha), PairDen(alpha), xs, high)
    ensures forall n :: 0 <= n < |xs| ==> low[n] + high[n] == xs[n]
  {
    hide Mul, Balanced;
    var den := PairDen(alpha);
    ParallelFilters(LowNum(alpha), HighNum(alpha), den, den, xs, low, high);
    forall n | 0 <= n < |xs|
      ensures Balanced(den, den, xs, xs, n)
    {
      BalancedSame(den, xs, n);
    }
    SolutionUnique(den, den, xs, xs, Mix(1.0, low, 1.0, high));
    forall n | 0 <= n < |xs|
      ensures low[n] + high[n] == xs[n]
    {
      Expand(low[n], 0.0, 0.0);
      Expand(high[n], 0.0, 0.0);
    }
  }

  lemma BalancedSame(den: Signal, xs: Signal, n: nat)
    requires n < |xs|
    ensures Balanced(den, den, xs, xs, n)
  {}

  /** With two sources, the output is the low source plus the high-passed difference. */
  lemma PairCorrects(alpha: real, us: Signal, vs: Signal, low: Signal, high: Signal, diff: Signal, correction: Signal)
    requires |us| == |vs|
    requires Solves(LowNum(alpha), PairDen(alpha), us, low)
    requires Solves(HighNum(alpha), PairDen(alpha), vs, high)
    requires diff == Mix(1.0, vs, -1.0, us)
    requires Solves(HighNum(alpha), PairDen(alpha), diff, correction)
    ensures forall n :: 0 <= n < |us| ==> low[n] + high[n] == us[n] + correction[n]
  {
    hide Mul, Balanced;
    var num, den := HighNum(alpha), PairDen(alpha);
    var back := Mix(1.0, vs, -1.0, diff);
    forall n | 0 <= n < |us|
      ensures back[n] == us[n]
    {
      Expand(vs[n], 0.0, 0.0);
      Expand(1.0, 0.0, us[n]);
      Expand(us[n], 1.0, 0.0);
      Expand(diff[n], 1.0, 0.0);
    }
    assert back == us;
    var highOfLow := Mix(1.0, high, -1.0, correction);
    MixSolves(num, den, 1.0, vs, high, -1.0, diff, correction);
    PairIsExact(alpha, us, low, highOfLow);
    forall n | 0 <= n < |us|
      ensures low[n] + high[n] == us[n] + correction[n]
    {
      Expand(high[n], 0.0, 0.0);
      Expand(correction[n], 1.0, 0.0);
    }
  }

  lemma DotTwo(c: Signal, s: Signal, n: nat)
    requires |c| == 2 && n < |s|
    ensures Dot(c, 2, s, n) == Mul(c[0], s[n]) + Mul(c[1], Sample(s, n - 1))
  {
    hide Mul;
    assert Dot(c, 0, s, n) == 0.0;
    assert Dot(c, 1, s, n) == Mul(c[0], Sample(s, n));
  }

  function Pow(a: real, n: nat): real {
    if n == 0 then 1.0 else Mul(a, Pow(a, n - 1))
  }

  /** A constant offset of the high source fades geometrically: after n more samples only
      alpha^(n+1) of it is left. */
  lemma BiasFades(alpha: real, bias: real, xs: Signal, ys: Signal)
    requires Solves(HighNum(alpha), PairDen(alpha), xs, ys)
    requires forall n :: 0 <= n < |xs| ==> xs[n] == bias
    ensures forall n :: 0 <= n < |xs| ==> ys[n] == Mul(bias, Pow(alpha, n + 1))
  {
    hide Mul;
    var num, den := HighNum(alpha), PairDen(alpha);
    var zs := seq(|xs|, n requires 0 <= n < |xs| => Mul(bias, Pow(alpha, n + 1)));
    forall n | 0 <= n < |xs|
      ensures Balanced(num, den, xs, zs, n)
    {
      DotTwo(num, xs, n);
      DotTwo(den, zs, n);
      Expand(alpha, 0.0, 0.0);
      Expand(Sample(zs, n - 1), alpha, 0.0);
      Expand(Sample(xs, n - 1), alpha, 0.0);
      Expand(zs[n], 0.0, 0.0);
      FadeStep(alpha, bias, n);
    }
    SolutionUnique(num, den, xs, ys, zs);
  }

  lemma FadeStep(alpha: real, bias: real, n: nat)
    ensures Mul(bias, Pow(alpha, n + 1)) == Mul(alpha, Mul(bias, Pow(alpha, n)))
    ensures Mul(bias, Pow(alpha, 1)) == Mul(alpha, bias)
  {}

  /** The low-pass part stays in the hull of zero and its inputs when 0 <= alpha <= 1. */
  lemma {:induction false} LowPassInHull(alpha: real, xs: Signal, ys: Signal, lo: real, hi: real, n: int)
    requires Solves(LowNum(alpha), PairDen(alpha), xs, ys)
    requires 0.0 <= alpha <= 1.0 && lo <= 0.0 <= hi && n < |xs|
    requires forall i :: 0 <= i <= n ==> lo <= xs[i] <= hi
    ensures lo <= Sample(ys, n) <= hi
    decreases n
  {
    if n >= 0 {
      LowPassInHull(alpha, xs, ys, lo, hi, n - 1);
      LowPassStep(alpha, xs, ys, n);
      Hull(alpha, xs[n], Sample(ys, n - 1), lo, hi);
    }
  }

  lemma LowPassStep(alpha: real, xs: Signal, ys: Signal, n: nat)
    requires Solves(LowNum(alpha), PairDen(alpha), xs, ys) && n < |xs|
    ensures ys[n] == Mul(1.0 - alpha, xs[n]) + Mul(alpha, Sample(ys, n - 1))
  {
    hide Mul;
    assert Balanced(LowNum(alpha), PairDen(alpha), xs, ys, n);
    DotTwo(LowNum(alpha), xs, n);
    DotTwo(PairDen(alpha), ys, n);
    Expand(ys[n], 0.0, 0.0);
    Expand(Sample(ys, n - 1), alpha, 0.0);
    Expand(Sample(xs, n - 1), 0.0, 0.0);
  }

  lemma Hull(alpha: real, x: real, y: real, lo: real, hi: real)
    requires 0.0 <= alpha <= 1.0 && lo <= x <= hi && lo <= y <= hi
    ensures lo <= Mul(1.0 - alpha, x) + Mul(alpha, y) <= hi
  {
    NonNegative(1.0 - alpha, x - lo);
    NonNegative(alpha, y - lo);
    NonNegative(1.0 - alpha, hi - x);
    NonNegative(alpha, hi - y);
  }

  lemma NonNegative(a: real, b: real)
    requires a >= 0.0 && b >= 0.0
    ensures a * b >= 0.0
  {}

  // ------------------------------------------------------------ CompFilter1

  const PI := 3.14159265358979323846

  /** The quotients of precalc exist. */
  predicate Divisible(fs: real, fc: real) {
    fs != 0.0 && fc != 0.0 && fs + fc * PI != 0.0
  }

  /** alpha == fs / (fs + fc * PI), the closed form of tau / (tau + Ts). */
  predicate IsRatio(alpha: real, fs: real, fc: real) {
    alpha * (fs + fc * PI) == fs
  }

  class CompFilter1 {
    var fs: real
    var fc: real
    var alpha: real
    var lowpass: Filter?
    var hipass: Filter?

    /** Both filters built by Precalc for the current alpha and fed equally often. */
    ghost predicate Valid()
      reads this, Repr()
    {
      && lowpass != null && hipass != null
      && lowpass.Repr() !! hipass.Repr()
      && this !in lowpass.Repr() && this !in hipass.Repr()
      && lowpass.Valid() && hipass.Valid()
      && lowpass.num[..] == LowNum(alpha) && lowpass.den[..] == PairDen(alpha)
      && hipass.num[..] == HighNum(alpha) && hipass.den[..] == PairDen(alpha)
      && lowpass.trigger <= 0 && hipass.trigger <= 0
      && |lowpass.xs| == |hipass.xs|
    }

    ghost function Repr(): set<object>
      reads this, lowpass, hipass
    {
      {this} + (if lowpass == null then {} else lowpass.Repr()) + (if hipass == null then {} else hipass.Repr())
    }

    /** The filters do not exist before the first call of precalc. */
    constructor ()
      ensures fs == 1.0 && fc == 0.1 && lowpass == null && hipass == null
    {
      fs := 1.0;
      fc := 0.1;
      lowpass, hipass := null, null;
    }

    method SetSamplingFrequency(fs: real)
      requires Divisible(fs, fc)
      modifies this
      ensures Valid() && this.fs == fs && fc == old(fc)
      ensures IsRatio(alpha, fs, fc)
      ensures lowpass.xs == [] && hipass.xs == [] && fresh(Repr() - {this})
    {
      hide Divisible, IsRatio;
      this.fs := fs;
      Precalc();
    }

    method SetCutoffFrequency(fc: real)
      requires Divisible(fs, fc)
      modifies this
      ensures Valid() && this.fc == fc && fs == old(fs)
      ensures IsRatio(alpha, fs, fc)
      ensures lowpass.xs == [] && hipass.xs == [] && fresh(Repr() - {this})
    {
      hide Divisible, IsRatio;
      this.fc := fc;
      Precalc();
    }

    method Precalc()
      requires Divisible(fs, fc)
      modifies this
      ensures Valid() && fs == old(fs) && fc == old(fc)
      ensures IsRatio(alpha, fs, fc)
      ensures lowpass.xs == [] && hipass.xs == [] && fresh(Repr() - {this})
    {
      hide Divisible, IsRatio;
      alpha := TimeConstantRatio(fs, fc);
      BuildPair();
    }

    method BuildPair()
      modifies this`lowpass, this`hipass
      ensures Valid() && lowpass.xs == [] && hipass.xs == [] && fresh(Repr() - {this})
    {
      hide Solves, Holds, Balanced, Mul;
      var low := new Filter([1.0 - alpha, 0.0], [1.0, -alpha]);
      assert this !in low.Repr();
      var high := new Filter([alpha, -alpha], [1.0, -alpha]);
      assert low.Valid() && low.Repr() !! high.Repr();
      lowpass, hipass := low, high;
    }

    method Filter(sourceLow: real, sourceHigh: real) returns (result: real)
      requires Valid()
      modifies Repr() - {this}
      ensures Valid() && Repr() == old(Repr()) && alpha == old(alpha)
      ensures lowpass.xs == old(lowpass.xs) + [sourceLow] && hipass.xs == old(hipass.xs) + [sourceHigh]
      ensures result == lowpass.ys[|lowpass.ys| - 1] + hipass.ys[|hipass.ys| - 1]
      ensures lowpass.xs == hipass.xs ==> result == sourceLow
    {
      var low := lowpass.Step(sourceLow);
      var high := hipass.Step(sourceHigh);
      if lowpass.xs == hipass.xs {
        PairIsExact(alpha, lowpass.xs, lowpass.ys, hipass.ys);
      }
      result := low + high;
    }
  }

  method TimeConstantRatio(fs: real, fc: real) returns (alpha: real)
    requires Divisible(fs, fc)
    ensures IsRatio(alpha, fs, fc)
  {
    AlphaClosedForm(fs, fc);
    var ts := 1.0 / fs;
    var tau := 1.0 / (fc * PI);
    alpha := tau / (tau + ts);
  }

  lemma AlphaClosedForm(fs: real, fc: real)
    requires Divisible(fs, fc)
    ensures fc * PI != 0.0
    ensures var ts := 1.0 / fs; var tau := 1.0 / (fc * PI);
      tau + ts != 0.0 && (tau / (tau + ts)) * (fs + fc * PI) == fs
  {
    var w := fc * PI;
    assert w != 0.0;
    var ts, tau := 1.0 / fs, 1.0 / w;
    assert ts * fs == 1.0 && tau * w == 1.0;
    assert (tau + ts) * (w * fs) == fs + w by {
      assert tau * (w * fs) == (tau * w) * fs;
      assert ts * (w * fs) == (ts * fs) * w;
    }
    assert tau + ts != 0.0;
    var a := tau / (tau + ts);
    assert a * (tau + ts) == tau;
    assert a * (fs + w) == fs by {
      assert a * ((tau + ts) * (w * fs)) == (a * (tau + ts)) * (w * fs);
      assert tau * (w * fs) == (tau * w) * fs;
    }
  }

  /** Positive frequencies give 0 < alpha < 1, the range of LowPassInHull and BiasFades. */
  lemma AlphaInRange(fs: real, fc: real, alpha: real)
    requires fs > 0.0 && fc > 0.0 && IsRatio(alpha, fs, fc)
    ensures 0.0 < alpha < 1.0
  {
    var w := fc * PI;
    assert w > 0.0;
    PositiveFactor(alpha, fs + w);
    assert (1.0 - alpha) * (fs + w) == (fs + w) - alpha * (fs + w);
    PositiveFactor(1.0 - alpha, fs + w);
  }

  lemma PositiveFactor(a: real, s: real)
    requires s > 0.0 && a * s > 0.0
    ensures a > 0.0
  {}
}
