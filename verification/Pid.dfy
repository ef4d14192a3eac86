/** pid_calc over the reals: the positional and the incremental controller. */
module Pid {
  datatype Mode = Position | Delta

  // The three gains, as what they make of a number, and the limits.
  datatype Gains = Gains(p: real -> real, i: real -> real, d: real -> real,
                         integralLimit: real, maxOutput: real, maxErr: real, deadband: real)
  {
    // The gains are factors, the limits unsigned numbers.
    ghost predicate Ok() { Linear(p) && Linear(i) && Linear(d) && integralLimit >= 0.0 && maxOutput >= 0.0 }

    // The error is too large, or too small, to be acted upon.
    predicate Ignores(e: real) { (maxErr != 0.0 && Abs(e) > maxErr) || (deadband != 0.0 && Abs(e) < deadband) }
  }

  ghost predicate LinearAt(f: real -> real, x: real, y: real) { f(x - y) == f(x) - f(y) }

  ghost predicate Linear(f: real -> real) { forall x, y {:trigger LinearAt(f, x, y)} :: LinearAt(f, x, y) }

  lemma {:induction false} FactorLinear(k: real)
    ensures Linear(x => k * x)
  {
    var f := x => k * x;
    forall x: real, y: real
      ensures LinearAt(f, x, y)
    {
      assert k * (x - y) == k * x - k * y;
    }
  }

  function Abs(x: real): (r: real) { if x > 0.0 then x else -x }

  // abs_limit
  function Limit(x: real, m: real): (r: real)
    ensures m >= 0.0 ==> -m <= r <= m && (Abs(x) <= m ==> r == x) && (x > m ==> r == m) && (x < -m ==> r == -m)
  {
    var a := if x > m then m else x;
    if a < -m then -m else a
  }

  // y is the point of the interval from -m to m that is nearest to x.
  ghost predicate Nearest(y: real, x: real, m: real) {
    -m <= y <= m && (-m <= x <= m ==> y == x) && (x > m ==> y == m) && (x < -m ==> y == -m)
  }

  lemma {:induction false} NoneNearer(y: real, x: real, m: real, z: real)
    requires Nearest(y, x, m) && -m <= z <= m
    ensures Abs(x - y) <= Abs(x - z) && (Abs(x - y) == Abs(x - z) ==> z == y)
  {
  }

  // The error is acted upon: a limit of 0 is none.
  ghost predicate Acts(g: Gains, e: real) {
    && (g.maxErr != 0.0 ==> e <= g.maxErr && -e <= g.maxErr)
    && (g.deadband != 0.0 ==> e >= g.deadband || -e >= g.deadband)
  }

  // What is kept from one call to the next: err[LLAST], err[LAST], the integral and the output.
  datatype History = History(e2: real, e1: real, iout: real, out: real)

  // The next history of the positional controller, given the three weighted parts.
  function PositionNext(g: Gains, h: History, e: real, pout: real, ie: real, dout: real): History {
    var iout := Limit(h.iout + ie, g.integralLimit);
    History(h.e1, e, iout, Limit(pout + iout + dout, g.maxOutput))
  }

  function DeltaNext(g: Gains, h: History, e: real, pout: real, ie: real, dout: real): History {
    var iout := Limit(ie, g.integralLimit);
    History(h.e1, e, iout, Limit(h.out + (pout + iout + dout), g.maxOutput))
  }

  // What a call with error e makes of what is kept: the integral and the output are the points of their
  // intervals that are nearest to the sums.
  ghost predicate Responds(g: Gains, mode: Mode, h: History, e: real, u: History) {
    if !Acts(g, e) then u == h
    else
      && u.e1 == e && u.e2 == h.e1
      && if mode == Position then
           && Nearest(u.iout, h.iout + g.i(e), g.integralLimit)
           && Nearest(u.out, g.p(e) + u.iout + g.d(e - h.e1), g.maxOutput)
         else
           && Nearest(u.iout, g.i(e), g.integralLimit)
           && Nearest(u.out, h.out + (g.p(e - h.e1) + u.iout + g.d(e - 2.0 * h.e1 + h.e2)), g.maxOutput)
  }

  // One call with error e.
  function Step(g: Gains, mode: Mode, h: History, e: real): History {
    if g.Ignores(e) then h
    else if mode == Position then PositionNext(g, h, e, g.p(e), g.i(e), g.d(e - h.e1))
    else DeltaNext(g, h, e, g.p(e - h.e1), g.i(e), g.d(e - 2.0 * h.e1 + h.e2))
  }

  lemma {:induction false} StepResponds(g: Gains, mode: Mode, h: History, e: real)
    requires g.Ok()
    ensures Responds(g, mode, h, e, Step(g, mode, h, e)) && (Acts(g, e) <==> !g.Ignores(e))
  {
  }

  // The calls with the errors es, from a cleared structure.
  function Run(g: Gains, mode: Mode, es: seq<real>): History {
    if es == [] then History(0.0, 0.0, 0.0, 0.0)
    else Step(g, mode, Run(g, mode, es[..|es| - 1]), es[|es| - 1])
  }

  lemma {:induction false} RunMore(g: Gains, mode: Mode, es: seq<real>, e: real)
    ensures Run(g, mode, es + [e]) == Step(g, mode, Run(g, mode, es), e)
  {
    assert (es + [e])[..|es|] == es;
  }

  // The integral and the output stay within their limits on every run.
  lemma {:induction false} WithinLimits(g: Gains, mode: Mode, es: seq<real>)
    requires g.Ok()
    ensures var h := Run(g, mode, es); Abs(h.iout) <= g.integralLimit && Abs(h.out) <= g.maxOutput
  {
    if es != [] {
      WithinLimits(g, mode, es[..|es| - 1]);
    }
  }

  // --- the two controllers agree ------------------------------------------------------------------

  // The integral part: every error so far, weighted.
  function Integral(g: Gains, es: seq<real>): real {
    if es == [] then 0.0 else Integral(g, es[..|es| - 1]) + g.i(es[|es| - 1])
  }

  // The k-th error from the end, zero before the first.
  function Back(es: seq<real>, k: nat): real { if k < |es| then es[|es| - 1 - k] else 0.0 }

  // The output of an ideal controller: proportional, integral and derivative part.
  function Ideal(g: Gains, es: seq<real>): real {
    g.p(Back(es, 0)) + Integral(g, es) + g.d(Back(es, 0) - Back(es, 1))
  }

  // Nothing is ignored, and no limit ever binds.
  ghost predicate Free(g: Gains, es: seq<real>) {
    forall k {:trigger es[..k]} :: 0 < k <= |es| ==> FreeAt(g, es[..k])
  }

  ghost predicate FreeAt(g: Gains, es: seq<real>) {
    && !g.Ignores(Back(es, 0)) && Abs(Integral(g, es)) <= g.integralLimit && Abs(g.i(Back(es, 0))) <= g.integralLimit
    && Abs(Ideal(g, es)) <= g.maxOutput
  }

  lemma {:induction false} FreeBefore(g: Gains, es: seq<real>)
    requires Free(g, es) && es != []
    ensures Free(g, es[..|es| - 1]) && FreeAt(g, es)
  {
    assert es[..|es|] == es;
    var r := es[..|es| - 1];
    forall k {:trigger r[..k]} | 0 < k <= |r|
      ensures FreeAt(g, r[..k])
    {
      assert r[..k] == es[..k];
    }
  }

  // One more error moves the ideal output by what the incremental controller adds.
  lemma {:induction false} Telescopes(g: Gains, es: seq<real>)
    requires g.Ok() && es != []
    ensures var e, e1, e2, r := Back(es, 0), Back(es, 1), Back(es, 2), es[..|es| - 1];
            Ideal(g, es) == Ideal(g, r) + (g.p(e - e1) + g.i(e) + g.d(e - 2.0 * e1 + e2))
  {
    var e, e1, e2, r := Back(es, 0), Back(es, 1), Back(es, 2), es[..|es| - 1];
    assert Back(r, 0) == e1 && Back(r, 1) == e2;
    assert LinearAt(g.p, e, e1) && LinearAt(g.d, e - e1, e1 - e2);
    assert (e - e1) - (e1 - e2) == e - 2.0 * e1 + e2;
  }

  lemma {:induction false} BothStep(g: Gains, h: History, u: History, e: real, out: real)
    requires !g.Ignores(e) && h.e1 == u.e1 && h.e2 == u.e2 && Abs(out) <= g.maxOutput
    requires Abs(h.iout + g.i(e)) <= g.integralLimit && Abs(g.i(e)) <= g.integralLimit
    requires out == g.p(e) + (h.iout + g.i(e)) + g.d(e - h.e1)
    requires out == u.out + (g.p(e - h.e1) + g.i(e) + g.d(e - 2.0 * h.e1 + h.e2))
    ensures Step(g, Position, h, e) == History(h.e1, e, h.iout + g.i(e), out)
    ensures Step(g, Delta, u, e) == History(h.e1, e, g.i(e), out)
  {
  }

  // Without limits in the way, either controller yields the ideal output after every call, so
  // that the incremental one yields what the positional one does.
  lemma {:induction false} DeltaIsPosition(g: Gains, es: seq<real>)
    requires g.Ok() && Free(g, es)
    ensures var h, u := Run(g, Position, es), Run(g, Delta, es);
            && h.out == u.out == Ideal(g, es) && h.iout == Integral(g, es)
            && h.e1 == u.e1 == Back(es, 0) && h.e2 == u.e2 == Back(es, 1)
  {
    if es == [] {
      assert LinearAt(g.p, 0.0, 0.0) && LinearAt(g.d, 0.0, 0.0);
    } else {
      var r, e := es[..|es| - 1], es[|es| - 1];
      FreeBefore(g, es);
      DeltaIsPosition(g, r);
      assert Back(r, 0) == Back(es, 1) && Back(r, 1) == Back(es, 2) && Back(es, 0) == e;
      Telescopes(g, es);
      BothStep(g, Run(g, Position, r), Run(g, Delta, r), e, Ideal(g, es));
    }
  }

  // --- pid_calc ---------------------------------------------------------------------------------

  const LLAST := 0
  const LAST := 1
  const NOW := 2

  class Controller {
    const g: Gains                   // g.p(x) is pid->p * x, and likewise g.i and g.d
    const mode: Mode
    const err: array<real>
    var pout: real
    var iout: real
    var dout: real
    var posOut: real
    var deltaU: real
    var deltaOut: real
    var lastDeltaOut: real
    ghost var errors: seq<real>      // those of all calls so far

    // The fields are what is kept of the calls so far.
    ghost predicate Keeps(h: History)
      reads this, err
    {
      && err.Length == 3 && err[LLAST] == h.e2 && err[LAST] == h.e1
      && iout == h.iout && (if mode == Position then posOut == h.out else lastDeltaOut == h.out && deltaOut == h.out)
    }

    ghost function Kept(): History
      requires err.Length == 3
      reads this, err
    {
      History(err[LLAST], err[LAST], iout, if mode == Position then posOut else lastDeltaOut)
    }

    ghost predicate Valid()
      reads this, err
    {
      g.Ok() && Keeps(Run(g, mode, errors))
    }

    // A structure that is zero but for its parameters.
    constructor (p: real, i: real, d: real, m: Mode, integral: real, output: real, largest: real, smallest: real)
      requires integral >= 0.0 && output >= 0.0
      ensures Valid() && mode == m && errors == []
      ensures forall x :: g.p(x) == p * x && g.i(x) == i * x && g.d(x) == d * x
      ensures g.integralLimit == integral && g.maxOutput == output && g.maxErr == largest && g.deadband == smallest
    {
      g := Gains(x => p * x, x => i * x, x => d * x, integral, output, largest, smallest);
      mode, err := m, new real[3](_ => 0.0);
      pout, iout, dout, posOut, deltaU, deltaOut, lastDeltaOut := 0.0, 0.0, 0.0, 0.0, 0.0, 0.0, 0.0;
      errors := [];
      FactorLinear(p);
      FactorLinear(i);
      FactorLinear(d);
    }

    // The result is the new output, or nothing if the error is ignored.
    method Calc(measure: real, target: real) returns (r: real)
      requires Valid()
      modifies this, err
      ensures Valid() && errors == old(errors) + [target - measure]
      ensures r == if g.Ignores(target - measure) then 0.0 else Run(g, mode, errors).out
      ensures Responds(g, mode, old(Kept()), target - measure, Kept())
      ensures r == if Acts(g, target - measure) then Kept().out else 0.0
    {
      ghost var h := Run(g, mode, errors);
      var e := target - measure;
      StepResponds(g, mode, h, e);
      RunMore(g, mode, errors, e);
      err[NOW] := e;
      errors := errors + [e];
      assert Keeps(h);
      r := ActUnlessIgnored(h);
    }

    method ActUnlessIgnored(ghost h: History) returns (r: real)
      requires Keeps(h)
      modifies this`pout, this`iout, this`dout, this`posOut, this`deltaU, this`deltaOut, this`lastDeltaOut, err
      ensures Keeps(Step(g, mode, h, old(err[NOW])))
      ensures r == if g.Ignores(old(err[NOW])) then 0.0 else Step(g, mode, h, old(err[NOW])).out
    {
      if g.maxErr != 0.0 && Abs(err[NOW]) > g.maxErr {
        return 0.0;
      }
      if g.deadband != 0.0 && Abs(err[NOW]) < g.deadband {
        return 0.0;
      }
      r := Act(h);
    }

    // An error that is not ignored.
    method Act(ghost h: History) returns (r: real)
      requires Keeps(h) && !g.Ignores(err[NOW])
      modifies this`pout, this`iout, this`dout, this`posOut, this`deltaU, this`deltaOut, this`lastDeltaOut, err
      ensures Keeps(Step(g, mode, h, old(err[NOW]))) && r == Step(g, mode, h, old(err[NOW])).out
    {
      if mode == Position {
        CalcPosition(h);
      } else {
        CalcDelta(h);
      }
      err[LLAST] := err[LAST];
      err[LAST] := err[NOW];
      return if mode == Position then posOut else deltaOut;
    }

    method CalcPosition(ghost h: History)
      requires err.Length == 3 && err[LAST] == h.e1 && iout == h.iout
      modifies this`pout, this`iout, this`dout, this`posOut
      ensures var e := err[NOW]; History(h.e1, e, iout, posOut) == PositionNext(g, h, e, g.p(e), g.i(e), g.d(e - h.e1))
    {
      pout := g.p(err[NOW]);
      iout := iout + g.i(err[NOW]);
      dout := g.d(err[NOW] - err[LAST]);
      iout := Limit(iout, g.integralLimit);
      posOut := Limit(pout + iout + dout, g.maxOutput);
    }

    method CalcDelta(ghost h: History)
      requires err.Length == 3 && err[LAST] == h.e1 && err[LLAST] == h.e2 && lastDeltaOut == h.out
      modifies this`pout, this`iout, this`dout, this`deltaU, this`deltaOut, this`lastDeltaOut
      ensures var e := err[NOW];
              History(h.e1, e, iout, lastDeltaOut) == DeltaNext(g, h, e, g.p(e - h.e1), g.i(e),
                  g.d(e - 2.0 * h.e1 + h.e2))
      ensures deltaOut == lastDeltaOut
    {
      pout := g.p(err[NOW] - err[LAST]);
      iout := g.i(err[NOW]);
      dout := g.d(err[NOW] - 2.0 * err[LAST] + err[LLAST]);
      iout := Limit(iout, g.integralLimit);
      deltaU := pout + iout + dout;
      deltaOut := Limit(lastDeltaOut + deltaU, g.maxOutput);
      lastDeltaOut := deltaOut;
    }
  }
}
