/** The integrator itself: it allocates the density, flux and face-speed buffers, builds
    the initial pulse and the periodic neighbour tables, and advances the density for
    nstep steps, recording every snapshot and its time.

    Each whole-array numpy update in `eqn_advection` is an aggregate assignment: a Dafny `forall`
    statement evaluates every right-hand side before it writes any cell, so no cell of a
    step ever reads a value already overwritten in that same step. */
module Integrator {
  import opened Periodic
  import opened Advection

  /** ip and im hold the right- and left-hand neighbour of every cell. */
  ghost predicate NeighbourTables(ip: array<int>, im: array<int>, n: int)
    reads ip, im
  {
    ip.Length == n && im.Length == n
    && forall i :: 0 <= i < n ==> ip[i] == Ip(i, n) && im[i] == Im(i, n)
  }

  /** Zero density everywhere, then the jam over [n/4, n/2) and a half-density cell at n/2. */
  method InitialDensity(n: int, rhoMax: real) returns (rho: array<real>)
    requires n >= 1
    ensures fresh(rho)
    ensures rho[..] == InitialPulse(n, rhoMax)
  {
    rho := new real[n](_ => 0.0);
    for i := n / 4 to n / 2
      invariant forall k :: 0 <= k < n ==>
        rho[k] == if n / 4 <= k < i then rhoMax else 0.0
    {
      rho[i] := rhoMax;
    }
    rho[n / 2] := rhoMax / 2.0;
  }

  /** ip = 1, 2, ..., n with its last entry patched to 0; im = -1, 0, ..., n - 2 with its
      first entry patched to n - 1. */
  method PeriodicNeighbours(n: int) returns (ip: array<int>, im: array<int>)
    requires n >= 1
    ensures fresh(ip) && fresh(im)
    ensures NeighbourTables(ip, im, n)
  {
    ip := new int[n](i => i + 1);
    ip[n - 1] := 0;
    im := new int[n](i => i as int - 1);
    im[0] := n - 1;
  }

  /** The flux of every cell from the current density. */
  method ComputeFlow(p: Params, rho: array<real>, flow: array<real>)
    requires p.Valid() && flow.Length == rho.Length && flow != rho
    modifies flow
    ensures flow[..] == FlowField(p, rho[..])
  {
    forall i | 0 <= i < rho.Length {
      flow[i] := Flux(p, rho[i]);
    }
  }

  /** The FTCS update of every cell, computed from a read-only copy of the pre-step
      density and the flux array. */
  method FtcsUpdate(coeff: real, rho: array<real>, flow: array<real>, ip: array<int>, im: array<int>)
    requires flow.Length == rho.Length && flow != rho
    requires NeighbourTables(ip, im, rho.Length)
    modifies rho
    ensures rho[..] == FtcsRule(coeff, old(rho[..]), flow[..])
  {
    var n, r, f := rho.Length, rho[..], flow[..];
    forall i | 0 <= i < n {
      rho[i] := FtcsCell(coeff, r[i], f[ip[i]], f[im[i]]);
    }
  }

  /** The Lax update of every cell, computed from a read-only copy of the pre-step
      density and the flux array. */
  method LaxUpdate(coeff: real, rho: array<real>, flow: array<real>, ip: array<int>, im: array<int>)
    requires flow.Length == rho.Length && flow != rho
    requires NeighbourTables(ip, im, rho.Length)
    modifies rho
    ensures rho[..] == LaxRule(coeff, old(rho[..]), flow[..])
  {
    var n, r, f := rho.Length, rho[..], flow[..];
    forall i | 0 <= i < n {
      rho[i] := LaxCell(coeff, r[ip[i]], r[im[i]], f[ip[i]], f[im[i]]);
    }
  }

  /** The face speeds cp and cm of every cell, from the pre-step density. */
  method FaceSpeeds(p: Params, rho: array<real>, cp: array<real>, cm: array<real>,
                    ip: array<int>, im: array<int>)
    requires p.Valid() && cp.Length == rho.Length && cm.Length == rho.Length
    requires rho != cp && rho != cm && cp != cm
    requires NeighbourTables(ip, im, rho.Length)
    modifies cp, cm
    ensures cp[..] == CpField(p, rho[..]) && cm[..] == CmField(p, rho[..])
  {
    var n, r := rho.Length, rho[..];
    forall i | 0 <= i < n
      ensures CpField(p, r)[i] == WaveSpeed(p, r[ip[i]], r[i])
      ensures CmField(p, r)[i] == WaveSpeed(p, r[i], r[im[i]])
    {
    }
    forall i | 0 <= i < n {
      cp[i] := WaveSpeed(p, r[ip[i]], r[i]);
    }
    forall i | 0 <= i < n {
      cm[i] := WaveSpeed(p, r[i], r[im[i]]);
    }
  }

  /** The Lax-Wendroff update of every cell, computed from read-only copies of the
      pre-step density, the flux array and the face speeds. */
  method LaxWendroffUpdate(coeff: real, coefflw: real, rho: array<real>, flow: array<real>,
                           cp: array<real>, cm: array<real>, ip: array<int>, im: array<int>)
    requires flow.Length == rho.Length && cp.Length == rho.Length && cm.Length == rho.Length
    requires rho != flow && rho != cp && rho != cm
    requires NeighbourTables(ip, im, rho.Length)
    modifies rho
    ensures rho[..] == LaxWendroffRule(coeff, coefflw, old(rho[..]), flow[..], cp[..], cm[..])
  {
    var n, r, f, sp, sm := rho.Length, rho[..], flow[..], cp[..], cm[..];
    forall i | 0 <= i < n {
      rho[i] := LaxWendroffCell(coeff, coefflw, r[i], f[ip[i]], f[i], f[im[i]], sp[i], sm[i]);
    }
  }

  /** One time step: recompute the flux from the current density, then replace the
      density by the update rule the selector chooses (1 FTCS, 2 Lax, otherwise
      Lax-Wendroff, which also refills the face speeds cp and cm). */
  method Advance(selector: int, p: Params, coeff: real, coefflw: real, rho: array<real>,
                 flow: array<real>, cp: array<real>, cm: array<real>, ip: array<int>, im: array<int>)
    requires p.Valid() && coeff == p.Coeff() && coefflw == p.CoeffLw()
    requires flow.Length == rho.Length && cp.Length == rho.Length && cm.Length == rho.Length
    requires NeighbourTables(ip, im, rho.Length)
    requires rho != flow && rho != cp && rho != cm && flow != cp && flow != cm && cp != cm
    modifies rho, flow, cp, cm
    ensures rho[..] == Step(SchemeOf(selector), p, old(rho[..]))
    ensures flow[..] == FlowField(p, old(rho[..]))
    ensures SchemeOf(selector) == LaxWendroff ==>
      cp[..] == CpField(p, old(rho[..])) && cm[..] == CmField(p, old(rho[..]))
    ensures SchemeOf(selector) != LaxWendroff ==> cp[..] == old(cp[..]) && cm[..] == old(cm[..])
  {
    ComputeFlow(p, rho, flow);
    if selector == 1 {
      FtcsUpdate(coeff, rho, flow, ip, im);
    } else if selector == 2 {
      LaxUpdate(coeff, rho, flow, ip, im);
    } else {
      FaceSpeeds(p, rho, cp, cm, ip, im);
      LaxWendroffUpdate(coeff, coefflw, rho, flow, cp, cm, ip, im);
    }
  }

  /** Copies the density into column k of the record, leaving the other columns alone. */
  method Record(rplot: array2<real>, k: int, rho: array<real>)
    requires rplot.Length0 == rho.Length && 0 <= k < rplot.Length1
    modifies rplot
    ensures forall i :: 0 <= i < rho.Length ==> rplot[i, k] == rho[i]
    ensures forall i, j :: 0 <= i < rplot.Length0 && 0 <= j < rplot.Length1 && j != k ==>
      rplot[i, j] == old(rplot[i, j])
  {
    forall i | 0 <= i < rho.Length {
      rplot[i, k] := rho[i];
    }
  }

  /** One pass of the time loop: advance the density, then record it as snapshot
      istep + 1 together with its time tau * (istep + 1). */
  method StepAndRecord(selector: int, p: Params, coeff: real, coefflw: real, istep: nat,
                       rho: array<real>, flow: array<real>, cp: array<real>, cm: array<real>,
                       ip: array<int>, im: array<int>, rplot: array2<real>, tplot: array<real>)
    requires p.Valid() && coeff == p.Coeff() && coefflw == p.CoeffLw()
    requires flow.Length == rho.Length && cp.Length == rho.Length && cm.Length == rho.Length
    requires NeighbourTables(ip, im, rho.Length)
    requires rho != flow && rho != cp && rho != cm && flow != cp && flow != cm && cp != cm
    requires tplot != rho && tplot != flow && tplot != cp && tplot != cm
    requires rplot.Length0 == rho.Length && istep + 1 < rplot.Length1 && istep + 1 < tplot.Length
    modifies rho, flow, cp, cm, rplot, tplot
    ensures rho[..] == Step(SchemeOf(selector), p, old(rho[..]))
    ensures flow[..] == FlowField(p, old(rho[..]))
    ensures SchemeOf(selector) == LaxWendroff ==>
      cp[..] == CpField(p, old(rho[..])) && cm[..] == CmField(p, old(rho[..]))
    ensures SchemeOf(selector) != LaxWendroff ==> cp[..] == old(cp[..]) && cm[..] == old(cm[..])
    ensures forall i, j :: 0 <= i < rplot.Length0 && 0 <= j < rplot.Length1 ==>
      rplot[i, j] == if j == istep + 1 then rho[i] else old(rplot[i, j])
    ensures forall k :: 0 <= k < tplot.Length ==>
      tplot[k] == if k == istep + 1 then p.tau * (istep + 1) as real else old(tplot[k])
  {
    Advance(selector, p, coeff, coefflw, rho, flow, cp, cm, ip, im);
    Record(rplot, istep + 1, rho);
    tplot[istep + 1] := p.tau * (istep + 1) as real;
  }

  /** history[k] is the density after k steps from rho0. */
  ghost predicate IsTrajectory(history: seq<seq<real>>, s: Scheme, p: Params, rho0: seq<real>)
    requires p.Valid()
  {
    |history| >= 1 && history[0] == rho0
    && (forall k :: 0 <= k < |history| ==> |history[k]| == |rho0|)
    && forall k :: 1 <= k < |history| ==> history[k] == Step(s, p, history[k - 1])
  }

  lemma ExtendTrajectory(history: seq<seq<real>>, s: Scheme, p: Params, rho0: seq<real>)
    requires p.Valid() && IsTrajectory(history, s, p, rho0)
    ensures IsTrajectory(history + [Step(s, p, history[|history| - 1])], s, p, rho0)
  {
    var last := Step(s, p, history[|history| - 1]);
    var longer := history + [last];
    forall k | 0 <= k < |longer|
      ensures |longer[k]| == |rho0|
      ensures k >= 1 ==> longer[k] == Step(s, p, longer[k - 1])
    {
      if k < |history| {
        assert longer[k] == history[k];
      } else {
        assert longer[k] == last && longer[k - 1] == history[|history| - 1];
      }
      if 1 <= k < |history| {
        assert longer[k - 1] == history[k - 1];
      }
    }
  }

  /** A trajectory lists the iterates of the step function. */
  lemma {:induction false} TrajectoryIsEvolve(history: seq<seq<real>>, s: Scheme, p: Params, rho0: seq<real>)
    requires p.Valid() && IsTrajectory(history, s, p, rho0)
    ensures forall k :: 0 <= k < |history| ==> history[k] == Evolve(s, p, rho0, k)
  {
    if |history| > 1 {
      var shorter := history[..|history| - 1];
      assert IsTrajectory(shorter, s, p, rho0);
      TrajectoryIsEvolve(shorter, s, p, rho0);
      assert history[|history| - 1] == Step(s, p, shorter[|history| - 2]);
    }
  }

  /** The time loop: nstep passes of StepAndRecord after snapshot 0, which the caller
      has already recorded.  Column k of the record ends up holding the density after k
      steps and tplot[k] the time tau * k. */
  method TimeLoop(selector: int, p: Params, coeff: real, coefflw: real, nstep: nat,
                  rho: array<real>, flow: array<real>, cp: array<real>, cm: array<real>,
                  ip: array<int>, im: array<int>, rplot: array2<real>, tplot: array<real>)
    returns (iplot: int)
    requires p.Valid() && coeff == p.Coeff() && coefflw == p.CoeffLw()
    requires flow.Length == rho.Length && cp.Length == rho.Length && cm.Length == rho.Length
    requires NeighbourTables(ip, im, rho.Length)
    requires rho != flow && rho != cp && rho != cm && flow != cp && flow != cm && cp != cm
    requires tplot != rho && tplot != flow && tplot != cp && tplot != cm
    requires rplot.Length0 == rho.Length && rplot.Length1 == nstep + 1 && tplot.Length == nstep + 1
    requires forall i :: 0 <= i < rho.Length ==> rplot[i, 0] == rho[i]
    requires tplot[0] == 0.0
    modifies rho, flow, cp, cm, rplot, tplot
    ensures iplot == nstep + 1
    ensures forall i :: 0 <= i < rho.Length ==> rho[i] == rplot[i, nstep]
    ensures forall k :: 0 <= k <= nstep ==> tplot[k] == p.tau * k as real
    ensures forall i, k :: 0 <= i < rho.Length && 0 <= k <= nstep ==>
      rplot[i, k] == Evolve(SchemeOf(selector), p, old(rho[..]), k)[i]
  {
    ghost var scheme, rho0, n := SchemeOf(selector), rho[..], rho.Length;
    ghost var history := [rho0];
    iplot := 1;
    for istep := 0 to nstep
      invariant iplot == istep + 1
      invariant |history| == istep + 1 && rho[..] == history[istep]
      invariant IsTrajectory(history, scheme, p, rho0)
      invariant forall i, k :: 0 <= i < n && 0 <= k <= istep ==> rplot[i, k] == history[k][i]
      invariant forall k :: 0 <= k <= istep ==> tplot[k] == p.tau * k as real
    {
      StepAndRecord(selector, p, coeff, coefflw, istep, rho, flow, cp, cm, ip, im, rplot, tplot);
      ExtendTrajectory(history, scheme, p, rho0);
      history := history + [rho[..]];
      iplot := iplot + 1;
    }
    TrajectoryIsEvolve(history, scheme, p, rho0);
  }

  /** The whole run.  Returns the times, the number of recorded snapshots, the n by
      (nstep + 1) density record whose column k is the density after k steps, and the
      plotting positions (i - 1/2) h - l/2 of the cells. */
  method Integrate(selector: int, n: int, h: real, tau: real, vMax: real, rhoMax: real,
                   nstep: nat, l: real)
    returns (tplot: array<real>, iplot: int, rplot: array2<real>, xplot: array<real>)
    requires n >= 1 && h != 0.0 && rhoMax != 0.0
    ensures fresh(tplot) && fresh(rplot) && fresh(xplot)
    ensures iplot == nstep + 1
    ensures tplot.Length == nstep + 1
    ensures forall k :: 0 <= k <= nstep ==> tplot[k] == tau * k as real
    ensures rplot.Length0 == n && rplot.Length1 == nstep + 1
    ensures forall i, k :: 0 <= i < n && 0 <= k <= nstep ==>
      rplot[i, k] == Evolve(SchemeOf(selector), Params(h, tau, vMax, rhoMax), InitialPulse(n, rhoMax), k)[i]
    ensures xplot.Length == n
    ensures forall i :: 0 <= i < n ==> xplot[i] == (i as real - 0.5) * h - l / 2.0
  {
    var p := Params(h, tau, vMax, rhoMax);
    var coeff, coefflw := p.Coeff(), p.CoeffLw();
    var flow := new real[n];
    var cp := new real[n];
    var cm := new real[n];
    var rho := InitialDensity(n, rhoMax);
    var ip, im := PeriodicNeighbours(n);

    xplot := new real[n](i => (i as real - 0.5) * h - l / 2.0);
    rplot := new real[n, nstep + 1];
    tplot := new real[nstep + 1];
    Record(rplot, 0, rho);
    tplot[0] := 0.0;
    iplot := TimeLoop(selector, p, coeff, coefflw, nstep, rho, flow, cp, cm, ip, im, rplot, tplot);
  }
}
