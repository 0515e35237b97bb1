/** The traffic-density advection equation discretised on a periodic grid: the flux,
    the three explicit update rules (FTCS, Lax, Lax-Wendroff), the selection among
    them, the square-pulse initial density, and the trajectory they produce.

    Densities are exact reals, so the update formulas hold as written and the
    conservation of total density is an algebraic fact about them. */
module Advection {
  import opened Periodic

  /** The three explicit schemes. */
  datatype Scheme = Ftcs | Lax | LaxWendroff

  /** The integer selector of the integrator: 1 is FTCS, 2 is Lax, anything else Lax-Wendroff. */
  function SchemeOf(selector: int): (s: Scheme)
    ensures s == Ftcs <==> selector == 1
    ensures s == Lax <==> selector == 2
    ensures s == LaxWendroff <==> selector != 1 && selector != 2
  {
    if selector == 1 then Ftcs else if selector == 2 then Lax else LaxWendroff
  }

  /** Grid spacing h, time step tau, maximum speed and maximum density. */
  datatype Params = Params(h: real, tau: real, vMax: real, rhoMax: real) {

    /** The integrator divides by h and by rhoMax. */
    predicate Valid() {
      h != 0.0 && rhoMax != 0.0
    }

    /** Coefficient tau / (2h) shared by all three schemes. */
    function Coeff(): (c: real)
      requires Valid()
      ensures c * (2.0 * h) == tau
    {
      tau / (2.0 * h)
    }

    /** Coefficient tau^2 / (2h^2) of the Lax-Wendroff correction. */
    function CoeffLw(): (c: real)
      requires Valid()
      ensures c * (2.0 * (h * h)) == tau * tau
    {
      SquareQuotient(tau, h);
      tau * tau / (2.0 * (h * h))
    }

    /** The largest flux the fundamental diagram allows: the flux at half the maximum
        density. */
    function FlowMax(): (m: real)
      ensures Valid() ==> m == Flux(this, rhoMax / 2.0)
    {
      0.25 * rhoMax * vMax
    }
  }

  lemma SquareQuotient(t: real, h: real)
    requires h != 0.0
    ensures (t * t / (h * h)) * (h * h) == t * t
  {
  }

  /** Traffic flux of one cell, density times the speed vMax * (1 - rho / rhoMax); it
      vanishes on an empty and on a jammed cell. */
  function Flux(p: Params, r: real): (q: real)
    requires p.Valid()
    ensures r == 0.0 || r == p.rhoMax ==> q == 0.0
  {
    r * (p.vMax * (1.0 - r / p.rhoMax))
  }

  /** When vMax / rhoMax is non-negative (a positive maximum density and a non-negative
      top speed, or both negative) no density gives a flux above FlowMax:
      FlowMax - Flux(r) is (vMax / rhoMax) (r - rhoMax / 2)^2. */
  lemma FluxBounded(p: Params, r: real)
    requires p.Valid() && p.vMax / p.rhoMax >= 0.0
    ensures Flux(p, r) <= p.FlowMax()
  {
    var d := r - p.rhoMax / 2.0;
    var k := p.vMax / p.rhoMax;
    assert p.FlowMax() - Flux(p, r) == k * (d * d);
    assert k >= 0.0;
    assert d * d >= 0.0;
    NonNegativeProduct(k, d * d);
  }

  /** When vMax / rhoMax is negative FlowMax is no bound: an empty cell already carries
      more flux. */
  lemma FluxAboveFlowMax(p: Params)
    requires p.Valid() && p.vMax / p.rhoMax < 0.0
    ensures Flux(p, 0.0) > p.FlowMax()
  {
    var k := p.vMax / p.rhoMax;
    var d := p.rhoMax / 2.0;
    assert p.FlowMax() == k * (d * d);
    assert d * d > 0.0;
    NegativeProduct(k, d * d);
  }

  lemma NegativeProduct(a: real, b: real)
    requires a < 0.0 && b > 0.0
    ensures a * b < 0.0
  {
  }

  lemma NonNegativeProduct(a: real, b: real)
    requires a >= 0.0 && b >= 0.0
    ensures a * b >= 0.0
  {
  }

  /** The flux of every cell. */
  function FlowField(p: Params, rho: seq<real>): (f: seq<real>)
    requires p.Valid()
    ensures |f| == |rho|
    ensures forall i :: 0 <= i < |rho| ==> f[i] == Flux(p, rho[i])
  {
    seq(|rho|, i requires 0 <= i < |rho| => Flux(p, rho[i]))
  }

  /** Speed on the face between two neighbouring densities: the slope of the flux between
      them, so that it carries the flux difference across the face. */
  function WaveSpeed(p: Params, a: real, b: real): (c: real)
    requires p.Valid()
    ensures c * (a - b) == Flux(p, a) - Flux(p, b)
  {
    p.vMax * (1.0 - (a + b) / p.rhoMax)
  }

  /** Speed on the right-hand face of every cell, between rho[ip[i]] and rho[i]. */
  function CpField(p: Params, rho: seq<real>): (c: seq<real>)
    requires p.Valid()
    ensures |c| == |rho|
    ensures forall i :: 0 <= i < |rho| ==> c[i] == WaveSpeed(p, rho[Ip(i, |rho|)], rho[i])
  {
    var n := |rho|;
    seq(n, i requires 0 <= i < n => WaveSpeed(p, rho[Ip(i, n)], rho[i]))
  }

  /** Speed on the left-hand face of every cell, between rho[i] and rho[im[i]]. */
  function CmField(p: Params, rho: seq<real>): (c: seq<real>)
    requires p.Valid()
    ensures |c| == |rho|
    ensures forall i :: 0 <= i < |rho| ==> c[i] == WaveSpeed(p, rho[i], rho[Im(i, |rho|)])
  {
    var n := |rho|;
    seq(n, i requires 0 <= i < n => WaveSpeed(p, rho[i], rho[Im(i, n)]))
  }

  /** A cell's left face is its left neighbour's right face: cm[i] == cp[im[i]]. */
  lemma CmIsShiftedCp(p: Params, rho: seq<real>)
    requires p.Valid()
    ensures CmField(p, rho) == Prev(CpField(p, rho))
  {
    var n := |rho|;
    var cp, cm := CpField(p, rho), CmField(p, rho);
    forall i | 0 <= i < n
      ensures cm[i] == Prev(cp)[i]
    {
      assert Ip(Im(i, n), n) == i;
    }
  }

  /** FTCS value of a cell from its density r and the fluxes fp, fm of its right- and
      left-hand neighbours; coeff is tau / (2h). */
  function FtcsCell(coeff: real, r: real, fp: real, fm: real): real
  {
    r - coeff * (fp - fm)
  }

  /** Lax value of a cell from the densities rp, rm and fluxes fp, fm of its neighbours. */
  function LaxCell(coeff: real, rp: real, rm: real, fp: real, fm: real): real
  {
    0.5 * (rp + rm) - coeff * (fp - fm)
  }

  /** Lax-Wendroff value of a cell from its density r, the fluxes fp, f0, fm of its right
      neighbour, itself and its left neighbour, and its face speeds sp and sm; coefflw is
      tau^2 / (2h^2). */
  function LaxWendroffCell(coeff: real, coefflw: real, r: real, fp: real, f0: real, fm: real,
                           sp: real, sm: real): real
  {
    r - coeff * (fp - fm) + coefflw * (sp * (fp - f0) - sm * (f0 - fm))
  }

  lemma FtcsCellLinear(coeff: real, r: real, fp: real, fm: real, d: real)
    requires d == fp - fm
    ensures FtcsCell(coeff, r, fp, fm) == 1.0 * r + (-coeff) * d
  {
  }

  lemma LaxCellLinear(coeff: real, rp: real, rm: real, fp: real, fm: real, a: real, d: real)
    requires a == 0.5 * rp + 0.5 * rm && d == fp - fm
    ensures LaxCell(coeff, rp, rm, fp, fm) == 1.0 * a + (-coeff) * d
  {
  }

  /** The Lax-Wendroff value is the FTCS value plus tau^2 / (2h^2) times the correction c. */
  lemma LaxWendroffCellSplit(coeff: real, coefflw: real, r: real, fp: real, f0: real, fm: real,
                             sp: real, sm: real, c: real)
    requires c == sp * (fp - f0) - sm * (f0 - fm)
    ensures LaxWendroffCell(coeff, coefflw, r, fp, f0, fm, sp, sm)
         == 1.0 * FtcsCell(coeff, r, fp, fm) + coefflw * c
  {
  }

  /** The FTCS rule applied to every cell, given the flux field f of the same step. */
  function FtcsRule(coeff: real, rho: seq<real>, f: seq<real>): (r: seq<real>)
    requires |f| == |rho|
    ensures |r| == |rho|
  {
    var n := |rho|;
    seq(n, i requires 0 <= i < n => FtcsCell(coeff, rho[i], f[Ip(i, n)], f[Im(i, n)]))
  }

  /** The Lax rule applied to every cell, given the flux field f of the same step. */
  function LaxRule(coeff: real, rho: seq<real>, f: seq<real>): (r: seq<real>)
    requires |f| == |rho|
    ensures |r| == |rho|
  {
    var n := |rho|;
    seq(n, i requires 0 <= i < n =>
      LaxCell(coeff, rho[Ip(i, n)], rho[Im(i, n)], f[Ip(i, n)], f[Im(i, n)]))
  }

  /** The Lax-Wendroff rule applied to every cell, given the flux field f and the face
      speeds cp, cm of the same step. */
  function LaxWendroffRule(coeff: real, coefflw: real, rho: seq<real>, f: seq<real>,
                           cp: seq<real>, cm: seq<real>): (r: seq<real>)
    requires |f| == |rho| && |cp| == |rho| && |cm| == |rho|
    ensures |r| == |rho|
  {
    var n := |rho|;
    seq(n, i requires 0 <= i < n =>
      LaxWendroffCell(coeff, coefflw, rho[i], f[Ip(i, n)], f[i], f[Im(i, n)], cp[i], cm[i]))
  }

  /** Forward-time centred-space step: the flux of the current density, then the FTCS rule. */
  function FtcsStep(p: Params, rho: seq<real>): (r: seq<real>)
    requires p.Valid()
    ensures |r| == |rho|
  {
    FtcsRule(p.Coeff(), rho, FlowField(p, rho))
  }

  /** Lax step: neighbour average minus the centred flux difference. */
  function LaxStep(p: Params, rho: seq<real>): (r: seq<real>)
    requires p.Valid()
    ensures |r| == |rho|
  {
    LaxRule(p.Coeff(), rho, FlowField(p, rho))
  }

  /** Lax-Wendroff step: FTCS plus the second-order correction built from cp and cm. */
  function LaxWendroffStep(p: Params, rho: seq<real>): (r: seq<real>)
    requires p.Valid()
    ensures |r| == |rho|
  {
    LaxWendroffRule(p.Coeff(), p.CoeffLw(), rho, FlowField(p, rho), CpField(p, rho), CmField(p, rho))
  }

  /** The Lax-Wendroff correction of cell i, cp[i] * (f[ip[i]] - f[i]) - cm[i] * (f[i] - f[im[i]]). */
  function Correction(f: seq<real>, cp: seq<real>, cm: seq<real>, i: int): real
    requires |cp| == |f| && |cm| == |f| && 0 <= i < |f|
  {
    cp[i] * (f[Ip(i, |f|)] - f[i]) - cm[i] * (f[i] - f[Im(i, |f|)])
  }

  /** One time step of the selected scheme. */
  function Step(s: Scheme, p: Params, rho: seq<real>): (r: seq<real>)
    requires p.Valid()
    ensures |r| == |rho|
  {
    match s
    case Ftcs => FtcsStep(p, rho)
    case Lax => LaxStep(p, rho)
    case LaxWendroff => LaxWendroffStep(p, rho)
  }

  /** The density after k steps from rho0. Every snapshot holds the same total density as
      the initial one, since each step conserves it. */
  function Evolve(s: Scheme, p: Params, rho0: seq<real>, k: nat): (r: seq<real>)
    requires p.Valid()
    ensures |r| == |rho0|
    ensures Sum(r) == Sum(rho0)
  {
    if k == 0 then rho0
    else
      var prev := Evolve(s, p, rho0, k - 1);
      StepConservesMass(s, p, prev);
      Step(s, p, prev)
  }

  /** Each new cell depends only on the previous step's values at im[i], i and ip[i]:
      two fields that agree there give the same new value, whatever the other cells hold. */
  lemma StepIsLocal(s: Scheme, p: Params, a: seq<real>, b: seq<real>, i: int)
    requires p.Valid() && |a| == |b| && 0 <= i < |a|
    requires a[Im(i, |a|)] == b[Im(i, |a|)] && a[i] == b[i] && a[Ip(i, |a|)] == b[Ip(i, |a|)]
    ensures Step(s, p, a)[i] == Step(s, p, b)[i]
  {
    var n := |a|;
    var fa, fb := FlowField(p, a), FlowField(p, b);
    assert fa[Ip(i, n)] == fb[Ip(i, n)] && fa[i] == fb[i] && fa[Im(i, n)] == fb[Im(i, n)];
    match s
    case Ftcs =>
    case Lax =>
    case LaxWendroff =>
      assert CpField(p, a)[i] == CpField(p, b)[i];
      assert CmField(p, a)[i] == CmField(p, b)[i];
  }

  lemma FtcsCellIsLinear(coeff: real, rho: seq<real>, f: seq<real>, i: int)
    requires |f| == |rho| && 0 <= i < |rho|
    ensures FtcsRule(coeff, rho, f)[i] == Lin(1.0, rho, -coeff, Lin(1.0, Next(f), -1.0, Prev(f)))[i]
  {
    var d := Lin(1.0, Next(f), -1.0, Prev(f));
    assert d[i] == 1.0 * Next(f)[i] + -1.0 * Prev(f)[i];
    FtcsCellLinear(coeff, rho[i], f[Ip(i, |rho|)], f[Im(i, |rho|)], d[i]);
    LinAt(1.0, rho, -coeff, d, i);
  }

  /** The FTCS rule is the density minus coeff times the centred flux difference. */
  lemma FtcsRuleIsLinear(coeff: real, rho: seq<real>, f: seq<real>)
    requires |f| == |rho|
    ensures FtcsRule(coeff, rho, f) == Lin(1.0, rho, -coeff, Lin(1.0, Next(f), -1.0, Prev(f)))
  {
    forall i | 0 <= i < |rho|
      ensures FtcsRule(coeff, rho, f)[i] == Lin(1.0, rho, -coeff, Lin(1.0, Next(f), -1.0, Prev(f)))[i]
    {
      FtcsCellIsLinear(coeff, rho, f, i);
    }
  }

  /** Whatever the coefficient and the flux field, the FTCS rule keeps the total
      density: the centred flux differences telescope around the ring. */
  lemma FtcsRuleConserves(coeff: real, rho: seq<real>, f: seq<real>)
    requires |f| == |rho|
    ensures Sum(FtcsRule(coeff, rho, f)) == Sum(rho)
  {
    FtcsRuleIsLinear(coeff, rho, f);
    CentredUpdateKeepsSum(coeff, rho, f);
  }

  /** FTCS conserves the total density exactly. */
  lemma FtcsConservesMass(p: Params, rho: seq<real>)
    requires p.Valid()
    ensures Sum(FtcsStep(p, rho)) == Sum(rho)
  {
    FtcsRuleConserves(p.Coeff(), rho, FlowField(p, rho));
  }

  lemma LaxCellIsLinear(coeff: real, rho: seq<real>, f: seq<real>, i: int)
    requires |f| == |rho| && 0 <= i < |rho|
    ensures LaxRule(coeff, rho, f)[i]
         == Lin(1.0, Lin(0.5, Next(rho), 0.5, Prev(rho)), -coeff, Lin(1.0, Next(f), -1.0, Prev(f)))[i]
  {
    var d := Lin(1.0, Next(f), -1.0, Prev(f));
    var avg := Lin(0.5, Next(rho), 0.5, Prev(rho));
    assert d[i] == 1.0 * Next(f)[i] + -1.0 * Prev(f)[i];
    assert avg[i] == 0.5 * Next(rho)[i] + 0.5 * Prev(rho)[i];
    LaxCellLinear(coeff, rho[Ip(i, |rho|)], rho[Im(i, |rho|)], f[Ip(i, |rho|)], f[Im(i, |rho|)],
                  avg[i], d[i]);
    LinAt(1.0, avg, -coeff, d, i);
  }

  /** The Lax rule is the neighbour average minus coeff times the centred flux difference. */
  lemma LaxRuleIsLinear(coeff: real, rho: seq<real>, f: seq<real>)
    requires |f| == |rho|
    ensures LaxRule(coeff, rho, f)
         == Lin(1.0, Lin(0.5, Next(rho), 0.5, Prev(rho)), -coeff, Lin(1.0, Next(f), -1.0, Prev(f)))
  {
    forall i | 0 <= i < |rho|
      ensures LaxRule(coeff, rho, f)[i]
           == Lin(1.0, Lin(0.5, Next(rho), 0.5, Prev(rho)), -coeff, Lin(1.0, Next(f), -1.0, Prev(f)))[i]
    {
      LaxCellIsLinear(coeff, rho, f, i);
    }
  }

  /** Whatever the coefficient and the flux field, the Lax rule keeps the total density:
      the neighbour average is a mean of two rotations and the flux differences telescope. */
  lemma LaxRuleConserves(coeff: real, rho: seq<real>, f: seq<real>)
    requires |f| == |rho|
    ensures Sum(LaxRule(coeff, rho, f)) == Sum(rho)
  {
    LaxRuleIsLinear(coeff, rho, f);
    CentredUpdateKeepsSum(coeff, Lin(0.5, Next(rho), 0.5, Prev(rho)), f);
    NeighbourAverageKeepsSum(rho);
  }

  /** Lax conserves the total density exactly. */
  lemma LaxConservesMass(p: Params, rho: seq<real>)
    requires p.Valid()
    ensures Sum(LaxStep(p, rho)) == Sum(rho)
  {
    LaxRuleConserves(p.Coeff(), rho, FlowField(p, rho));
  }

  /** Flux carried through the right-hand face of cell i, cp[i] * (f[ip[i]] - f[i]). */
  function FaceFlux(f: seq<real>, cp: seq<real>, i: int): real
    requires |cp| == |f| && 0 <= i < |f|
  {
    cp[i] * (f[Ip(i, |f|)] - f[i])
  }

  /** The face flux of every cell. */
  function FaceFluxField(f: seq<real>, cp: seq<real>): (e: seq<real>)
    requires |cp| == |f|
    ensures |e| == |f|
  {
    seq(|f|, i requires 0 <= i < |f| => FaceFlux(f, cp, i))
  }

  /** When every left face is the right face of the left neighbour (cm[i] == cp[im[i]]),
      the correction of cell i is the face flux on its right minus the one on its left. */
  lemma CorrectionIsFaceDifference(f: seq<real>, cp: seq<real>, cm: seq<real>, i: int)
    requires |cp| == |f| && cm == Prev(cp) && 0 <= i < |f|
    ensures Correction(f, cp, cm, i) == FaceFlux(f, cp, i) - FaceFlux(f, cp, Im(i, |f|))
  {
    var n := |f|;
    assert cm[i] == cp[Im(i, n)];
    assert Ip(Im(i, n), n) == i;
    LeftFace(cm[i], cp[Im(i, n)], f[i], f[Ip(Im(i, n), n)], f[Im(i, n)]);
  }

  lemma LeftFace(s: real, t: real, x: real, y: real, z: real)
    requires s == t && x == y
    ensures t * (y - z) == s * (x - z)
  {
  }

  lemma LaxWendroffCellIsLinear(coeff: real, coefflw: real, rho: seq<real>, f: seq<real>,
                                cp: seq<real>, cm: seq<real>, i: int)
    requires |f| == |rho| && |cp| == |rho| && cm == Prev(cp) && 0 <= i < |rho|
    ensures LaxWendroffRule(coeff, coefflw, rho, f, cp, cm)[i]
         == Lin(1.0, FtcsRule(coeff, rho, f), coefflw,
                Lin(1.0, FaceFluxField(f, cp), -1.0, Prev(FaceFluxField(f, cp))))[i]
  {
    var n, e := |rho|, FaceFluxField(f, cp);
    var g := Lin(1.0, e, -1.0, Prev(e));
    CorrectionIsFaceDifference(f, cp, cm, i);
    assert g[i] == 1.0 * e[i] + -1.0 * Prev(e)[i];
    LaxWendroffCellSplit(coeff, coefflw, rho[i], f[Ip(i, n)], f[i], f[Im(i, n)], cp[i], cm[i], g[i]);
    LinAt(1.0, FtcsRule(coeff, rho, f), coefflw, g, i);
  }

  /** The Lax-Wendroff rule is the FTCS rule plus coefflw times the backward difference of
      the face flux, when the face speeds are consistent. */
  lemma LaxWendroffRuleIsLinear(coeff: real, coefflw: real, rho: seq<real>, f: seq<real>,
                                cp: seq<real>, cm: seq<real>)
    requires |f| == |rho| && |cp| == |rho| && cm == Prev(cp)
    ensures LaxWendroffRule(coeff, coefflw, rho, f, cp, cm)
         == Lin(1.0, FtcsRule(coeff, rho, f), coefflw,
                Lin(1.0, FaceFluxField(f, cp), -1.0, Prev(FaceFluxField(f, cp))))
  {
    forall i | 0 <= i < |rho|
      ensures LaxWendroffRule(coeff, coefflw, rho, f, cp, cm)[i]
           == Lin(1.0, FtcsRule(coeff, rho, f), coefflw,
                  Lin(1.0, FaceFluxField(f, cp), -1.0, Prev(FaceFluxField(f, cp))))[i]
    {
      LaxWendroffCellIsLinear(coeff, coefflw, rho, f, cp, cm, i);
    }
  }

  /** Whatever the coefficients and the flux field, the Lax-Wendroff rule keeps the total
      density as long as the face speeds are consistent (cm[i] == cp[im[i]]): its
      correction is a backward difference of the face flux. */
  lemma LaxWendroffRuleConserves(coeff: real, coefflw: real, rho: seq<real>, f: seq<real>,
                                 cp: seq<real>, cm: seq<real>)
    requires |f| == |rho| && |cp| == |rho| && cm == Prev(cp)
    ensures Sum(LaxWendroffRule(coeff, coefflw, rho, f, cp, cm)) == Sum(rho)
  {
    LaxWendroffRuleIsLinear(coeff, coefflw, rho, f, cp, cm);
    BackwardUpdateKeepsSum(coefflw, FtcsRule(coeff, rho, f), FaceFluxField(f, cp));
    FtcsRuleConserves(coeff, rho, f);
  }

  /** Lax-Wendroff conserves the total density exactly. */
  lemma LaxWendroffConservesMass(p: Params, rho: seq<real>)
    requires p.Valid()
    ensures Sum(LaxWendroffStep(p, rho)) == Sum(rho)
  {
    CmIsShiftedCp(p, rho);
    LaxWendroffRuleConserves(p.Coeff(), p.CoeffLw(), rho, FlowField(p, rho), CpField(p, rho), CmField(p, rho));
  }

  /** Every scheme conserves the total density in one step. */
  lemma StepConservesMass(s: Scheme, p: Params, rho: seq<real>)
    requires p.Valid()
    ensures Sum(Step(s, p, rho)) == Sum(rho)
  {
    match s
    case Ftcs => FtcsConservesMass(p, rho);
    case Lax => LaxConservesMass(p, rho);
    case LaxWendroff => LaxWendroffConservesMass(p, rho);
  }

  /** k cells all holding v. */
  function Fill(k: nat, v: real): (r: seq<real>)
    ensures |r| == k
  {
    seq(k, _ => v)
  }

  lemma {:induction false} SumFill(k: nat, v: real)
    ensures Sum(Fill(k, v)) == k as real * v
  {
    if k > 0 {
      assert Fill(k, v)[1..] == Fill(k - 1, v);
      SumFill(k - 1, v);
    }
  }

  /** The initial square pulse: empty road, then a jam of rhoMax over cells
      [n/4, n/2), one half-density cell at n/2, and empty road after it. */
  function InitialPulse(n: int, rhoMax: real): (r: seq<real>)
    requires n >= 1
    ensures |r| == n
    ensures forall i :: 0 <= i < n ==>
      r[i] == if n / 4 <= i < n / 2 then rhoMax else if i == n / 2 then rhoMax / 2.0 else 0.0
  {
    Fill(n / 4, 0.0) + Fill(n / 2 - n / 4, rhoMax) + [rhoMax / 2.0] + Fill(n - n / 2 - 1, 0.0)
  }

  /** The number of vehicles in the initial pulse, which every later snapshot keeps. */
  lemma PulseMass(n: int, rhoMax: real)
    requires n >= 1
    ensures Sum(InitialPulse(n, rhoMax)) == (n / 2 - n / 4) as real * rhoMax + rhoMax / 2.0
  {
    assert InitialPulse(n, rhoMax)
        == Fill(n / 4, 0.0) + Fill(n / 2 - n / 4, rhoMax) + [rhoMax / 2.0] + Fill(n - n / 2 - 1, 0.0);
    SumOfPulse(n / 4, n / 2 - n / 4, n - n / 2 - 1, rhoMax);
  }

  /** Total of q empty cells, m cells at v, one cell at v / 2 and t empty cells. */
  lemma SumOfPulse(q: nat, m: nat, t: nat, v: real)
    ensures Sum(Fill(q, 0.0) + Fill(m, v) + [v / 2.0] + Fill(t, 0.0)) == m as real * v + v / 2.0
  {
    var a, b, c := Fill(q, 0.0), Fill(m, v), Fill(t, 0.0);
    var half := [v / 2.0];
    SumConcat(a + b + half, c);
    SumConcat(a + b, half);
    SumConcat(a, b);
    SumFill(q, 0.0);
    SumFill(m, v);
    SumFill(t, 0.0);
    assert Sum(half) == v / 2.0 + Sum([]);
  }

  /** The pulse on eight cells with unit maximum density. */
  lemma PulseOfEight()
    ensures InitialPulse(8, 1.0) == [0.0, 0.0, 1.0, 1.0, 0.5, 0.0, 0.0, 0.0]
  {
    var rho := InitialPulse(8, 1.0);
    assert |rho| == 8;
    assert rho[2] == 1.0 && rho[3] == 1.0 && rho[4] == 0.5;
  }

  /** One Lax step from that pulse with h = 1, tau = 0.01 and unit speed and density:
      only cell 4 carries flux (0.25). */
  lemma LaxStepOfPulse()
    ensures LaxStep(Params(1.0, 0.01, 1.0, 1.0), [0.0, 0.0, 1.0, 1.0, 0.5, 0.0, 0.0, 0.0])
         == [0.0, 0.5, 0.5, 0.74875, 0.5, 0.25125, 0.0, 0.0]
  {
    var p := Params(1.0, 0.01, 1.0, 1.0);
    var rho := [0.0, 0.0, 1.0, 1.0, 0.5, 0.0, 0.0, 0.0];
    assert FlowField(p, rho) == [0.0, 0.0, 0.0, 0.0, 0.25, 0.0, 0.0, 0.0];
  }

  /** Eight cells, h = 1, tau = 0.01, unit speed and density: the first snapshot after the
      pulse under the Lax scheme, worked out by hand. */
  lemma LaxScenario()
    ensures InitialPulse(8, 1.0) == [0.0, 0.0, 1.0, 1.0, 0.5, 0.0, 0.0, 0.0]
    ensures Evolve(Lax, Params(1.0, 0.01, 1.0, 1.0), InitialPulse(8, 1.0), 1)
         == [0.0, 0.5, 0.5, 0.74875, 0.5, 0.25125, 0.0, 0.0]
  {
    var p := Params(1.0, 0.01, 1.0, 1.0);
    PulseOfEight();
    LaxStepOfPulse();
    assert Evolve(Lax, p, InitialPulse(8, 1.0), 1) == Step(Lax, p, InitialPulse(8, 1.0));
  }
}
