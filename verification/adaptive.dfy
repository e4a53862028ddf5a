/** The per-model learning rules of AdaptiveType.py: each `step` rewrites one
    stimulus from the trial signals. The rules are pure functions here; the
    previous part's λ, which the source reads from the strategy object, is
    passed in explicitly. */
module Adaptive {
  import opened Errors
  import opened Stimuli

  /** The update rules modelled, named after their classes. */
  datatype Model = Linear | Mack | Hall | Macknhall | DualV | Lepelley | Dualmack | Hybrid

  function NameOf(m: Model): string {
    match m
    case Linear => "Linear"
    case Mack => "Mack"
    case Hall => "Hall"
    case Macknhall => "Macknhall"
    case DualV => "DualV"
    case Lepelley => "Lepelley"
    case Dualmack => "Dualmack"
    case Hybrid => "Hybrid"
  }

  /** The model a name selects; any other name is a NameError. */
  function ModelFromName(name: string): (r: Result<Model>)
    ensures r.Ok? ==> NameOf(r.value) == name
    ensures r.Err? ==> r.error == UnknownModel(name) && forall m :: NameOf(m) != name
  {
    if name == "Linear" then Ok(Linear)
    else if name == "Mack" then Ok(Mack)
    else if name == "Hall" then Ok(Hall)
    else if name == "Macknhall" then Ok(Macknhall)
    else if name == "DualV" then Ok(DualV)
    else if name == "Lepelley" then Ok(Lepelley)
    else if name == "Dualmack" then Ok(Dualmack)
    else if name == "Hybrid" then Ok(Hybrid)
    else Err(UnknownModel(name))
  }

  /** Every model is found again from its name. */
  lemma ModelNameRoundTrip(m: Model)
    ensures ModelFromName(NameOf(m)) == Ok(m)
  {
  }

  /** The constants a strategy is built with. `xiHall` may be absent. */
  datatype Params = Params(betan: real, betap: real, lamda: real, gamma: real, thetaE: real, thetaI: real, xiHall: Option<real>)

  /** What one step sees: β, λ and sign of the trial part, the aggregate
      strengths of the part's constituents before any of them is updated, and
      the λ of the previous part (absent before the first part). */
  datatype Signals = Signals(beta: real, lamda: real, sign: int, sigma: real, sigmaE: real, sigmaI: real, prevLamda: Option<real>)

  /** `delta_v_factor`: the prediction error `β·(λ − σ)`. */
  function DeltaVFactor(sig: Signals): real {
    sig.beta * (sig.lamda - sig.sigma)
  }

  /** `ρ = λ − (σE − σI)`, the error the dual-process rules use. */
  function Rho(sig: Signals): real {
    sig.lamda - (sig.sigmaE - sig.sigmaI)
  }

  function Abs(x: real): real {
    if x < 0.0 then -x else x
  }

  function Min(a: real, b: real): real {
    if a <= b then a else b
  }

  function MaxR(a: real, b: real): real {
    if a >= b then a else b
  }

  /** `γ·x + (1 − γ)·y`: `y` moved towards `x` with weight γ. */
  function Blend(g: real, x: real, y: real): real {
    g * x + (1.0 - g) * y
  }

  /** `min(max(x, 0.05), 1)`. */
  function Clamp(x: real): (r: real)
    ensures 0.05 <= r <= 1.0
    ensures 0.05 <= x <= 1.0 ==> r == x
  {
    Min(MaxR(x, 0.05), 1.0)
  }

  /** `get_alpha_mack`: half of one plus twice the CS's strength minus σ. */
  function AlphaMackOf(s: Stimulus, sigma: real): (r: real)
    ensures r - s.assoc == (1.0 - sigma) / 2.0
  {
    0.5 * (1.0 + 2.0 * s.assoc - sigma)
  }

  /** `get_alpha_hall`: the previous λ must have been set and `xi_hall` must
      be present; the result weighs the surprise `|λ − σ|` by 0.99 against the
      CS's current `alpha_hall` by 0.01. The exponential window term is
      computed by the source but never used. */
  function AlphaHallOf(p: Params, s: Stimulus, sigma: real, lamda: Option<real>): (r: Result<real>)
    ensures lamda.None? ==> r == Err(UnsetPrevLamda)
    ensures lamda.Some? && p.xiHall.None? ==> r == Err(MissingXiHall)
    ensures r.Ok? <==> lamda.Some? && p.xiHall.Some?
    ensures r.Ok? ==> r.value - s.alphaHall == 0.99 * (Abs(lamda.value - sigma) - s.alphaHall)
    ensures r.Ok? ==> Min(Abs(lamda.value - sigma), s.alphaHall) <= r.value <= MaxR(Abs(lamda.value - sigma), s.alphaHall)
  {
    if lamda.None? then Err(UnsetPrevLamda)
    else if p.xiHall.None? then Err(MissingXiHall)
    else Ok(0.99 * Abs(lamda.value - sigma) + 0.01 * s.alphaHall)
  }

  /** The Hall attention value does not depend on `xi_hall` (only on its
      presence) nor on `delta_ma_hall`. */
  lemma AlphaHallIgnoresWindowTerm(p: Params, q: Params, s: Stimulus, t: Stimulus, sigma: real, lamda: Option<real>)
    requires p.xiHall.Some? && q.xiHall.Some?
    requires t == s.(deltaMaHall := t.deltaMaHall)
    ensures AlphaHallOf(p, s, sigma, lamda) == AlphaHallOf(q, t, sigma, lamda)
  {
  }

  /** Rescorla-Wagner with a drifting learning rate: `alpha` is first scaled
      by `1 ± 0.05`, then `assoc` moves by the new `alpha` times the error. */
  function LinearStep(s: Stimulus, sig: Signals): (r: Stimulus)
    ensures sig.sign == 1 ==> r.alpha == 1.05 * s.alpha
    ensures sig.sign == -1 ==> r.alpha == 0.95 * s.alpha
    ensures r.assoc - s.assoc == r.alpha * DeltaVFactor(sig)
    ensures r == s.(alpha := r.alpha, assoc := r.assoc)
  {
    var alpha := s.alpha * (1.0 + (sig.sign as real) * 0.05);
    s.(alpha := alpha, assoc := s.assoc + alpha * DeltaVFactor(sig))
  }

  /** Error correction: with a positive learning rate and β, a reinforced or
      non-reinforced Linear step moves `assoc` towards λ − σ's sign and keeps
      `alpha` positive. */
  lemma LinearLearnsFromError(s: Stimulus, sig: Signals)
    requires s.alpha > 0.0 && sig.beta > 0.0 && (sig.sign == 1 || sig.sign == -1)
    ensures LinearStep(s, sig).alpha > 0.0
    ensures sig.lamda > sig.sigma ==> LinearStep(s, sig).assoc > s.assoc
    ensures sig.lamda < sig.sigma ==> LinearStep(s, sig).assoc < s.assoc
    ensures sig.lamda == sig.sigma ==> LinearStep(s, sig).assoc == s.assoc
  {
    var r := LinearStep(s, sig);
    var d := DeltaVFactor(sig);
    assert r.alpha > 0.0;
    if sig.lamda > sig.sigma {
      assert d > 0.0;
      assert r.alpha * d > 0.0;
    } else if sig.lamda < sig.sigma {
      assert d < 0.0;
      assert r.alpha * d < 0.0;
    }
  }

  /** Mackintosh: `alpha` takes the stored `alpha_mack` and the new strength is
      `assoc·δ + δ/2·β` with `δ = delta_v_factor`. */
  function MackStep(s: Stimulus, sig: Signals): (r: Stimulus)
    ensures r.alpha == s.alphaMack
    ensures r.assoc == DeltaVFactor(sig) * (s.assoc + sig.beta / 2.0)
    ensures r == s.(alpha := r.alpha, assoc := r.assoc)
  {
    var d := DeltaVFactor(sig);
    s.(alpha := s.alphaMack, assoc := s.assoc * d + d / 2.0 * sig.beta)
  }

  /** The Mack step never reads the current `alpha`, and a zero prediction
      error erases the strength. */
  lemma MackIgnoresAlpha(s: Stimulus, a: real, sig: Signals)
    ensures MackStep(s.(alpha := a), sig) == MackStep(s, sig)
    ensures sig.lamda == sig.sigma ==> MackStep(s, sig).assoc == 0.0
  {
    var d := DeltaVFactor(sig);
    assert MackStep(s.(alpha := a), sig).assoc == MackStep(s, sig).assoc;
    if sig.lamda == sig.sigma {
      assert d == 0.0;
      assert s.assoc * d == 0.0 && d / 2.0 * sig.beta == 0.0;
    }
  }

  /** Pearce-Hall: `alpha_hall` becomes the Hall attention computed from the
      previous λ, `alpha` follows it, and `assoc` moves by `alpha·β·(λ − σ)`. */
  function HallStep(p: Params, s: Stimulus, sig: Signals): (r: Result<Stimulus>)
    ensures r.Ok? <==> sig.prevLamda.Some? && p.xiHall.Some?
    ensures sig.prevLamda.None? ==> r == Err(UnsetPrevLamda)
    ensures r.Ok? ==> Ok(r.value.alphaHall) == AlphaHallOf(p, s, sig.sigma, sig.prevLamda)
    ensures r.Ok? ==> r.value.alpha == r.value.alphaHall
    ensures r.Ok? ==> r.value.assoc - s.assoc == r.value.alpha * sig.beta * (sig.lamda - sig.sigma)
    ensures r.Ok? ==> r.value == s.(alpha := r.value.alpha, alphaHall := r.value.alphaHall, assoc := r.value.assoc)
  {
    var ah :- AlphaHallOf(p, s, sig.sigma, sig.prevLamda);
    Ok(s.(alphaHall := ah, alpha := ah, assoc := s.assoc + ah * sig.beta * (sig.lamda - sig.sigma)))
  }

  /** Hall attention stays within [0, 1] when the surprise does. */
  lemma HallAttentionBounded(p: Params, s: Stimulus, sig: Signals)
    requires HallStep(p, s, sig).Ok?
    requires 0.0 <= s.alphaHall <= 1.0 && Abs(sig.prevLamda.value - sig.sigma) <= 1.0
    ensures 0.0 <= HallStep(p, s, sig).value.alphaHall <= 1.0
    ensures 0.0 <= HallStep(p, s, sig).value.alpha <= 1.0
  {
  }

  /** Mackintosh and Hall combined: `alpha_mack` comes from the pre-step
      strength, `alpha_hall` from the previous λ, and `alpha` is the Mack term
      weighted by `1 − |λprev − σ|` plus the Hall term. */
  function MacknhallStep(p: Params, s: Stimulus, sig: Signals): (r: Result<Stimulus>)
    ensures r.Ok? <==> sig.prevLamda.Some? && p.xiHall.Some?
    ensures sig.prevLamda.None? ==> r == Err(UnsetPrevLamda)
    ensures r.Ok? ==> r.value.alphaMack == AlphaMackOf(s, sig.sigma)
    ensures r.Ok? ==> Ok(r.value.alphaHall) == AlphaHallOf(p, s, sig.sigma, sig.prevLamda)
    ensures r.Ok? ==> r.value.alpha == (1.0 - Abs(sig.prevLamda.value - sig.sigma)) * r.value.alphaMack + r.value.alphaHall
    ensures r.Ok? ==> r.value.assoc - s.assoc == r.value.alpha * DeltaVFactor(sig)
    ensures r.Ok? ==> r.value == s.(alpha := r.value.alpha, alphaMack := r.value.alphaMack,
                                    alphaHall := r.value.alphaHall, assoc := r.value.assoc)
  {
    var am := AlphaMackOf(s, sig.sigma);
    var ah :- AlphaHallOf(p, s, sig.sigma, sig.prevLamda);
    var alpha := (1.0 - Abs(sig.prevLamda.value - sig.sigma)) * am + ah;
    Ok(s.(alphaMack := am, alphaHall := ah, alpha := alpha, assoc := s.assoc + alpha * DeltaVFactor(sig)))
  }

  /** Updating `alpha_mack` first does not disturb the Hall term: the combined
      model computes the same `alpha_hall` as the Hall model, and when the
      previous λ equals σ its `alpha` is the plain sum of both terms. */
  lemma MacknhallAgreesWithHall(p: Params, s: Stimulus, sig: Signals)
    requires sig.prevLamda.Some? && p.xiHall.Some?
    ensures MacknhallStep(p, s, sig).value.alphaHall == HallStep(p, s, sig).value.alphaHall
    ensures sig.prevLamda.value == sig.sigma ==>
      MacknhallStep(p, s, sig).value.alpha == MacknhallStep(p, s, sig).value.alphaMack + MacknhallStep(p, s, sig).value.alphaHall
  {
  }

  /** Dual-process: a non-negative ρ raises only `Ve` (by `betap·alpha·λ`), a
      negative ρ raises only `Vi` (by `betan·alpha·|ρ|`), `alpha` moves towards
      `|ρ|` with weight γ, and `assoc` is the net strength `Ve − Vi`. */
  function DualVStep(p: Params, s: Stimulus, sig: Signals): (r: Stimulus)
    ensures Rho(sig) >= 0.0 ==> r.Ve == s.Ve + p.betap * s.alpha * sig.lamda && r.Vi == s.Vi
    ensures Rho(sig) < 0.0 ==> r.Vi == s.Vi + p.betan * s.alpha * Abs(Rho(sig)) && r.Ve == s.Ve
    ensures r.alpha == Blend(p.gamma, Abs(Rho(sig)), s.alpha)
    ensures r.assoc == r.Ve - r.Vi
    ensures r == s.(alpha := r.alpha, assoc := r.assoc, Ve := r.Ve, Vi := r.Vi)
  {
    var rho := Rho(sig);
    var t := if rho >= 0.0 then s.(Ve := s.Ve + p.betap * s.alpha * sig.lamda)
             else s.(Vi := s.Vi + p.betan * s.alpha * Abs(rho));
    t.(alpha := Blend(p.gamma, Abs(rho), s.alpha), assoc := t.Ve - t.Vi)
  }

  /** With non-negative rates, λ and `alpha`, neither dual strength ever
      decreases. */
  lemma DualVMonotone(p: Params, s: Stimulus, sig: Signals)
    requires p.betap >= 0.0 && p.betan >= 0.0 && s.alpha >= 0.0 && sig.lamda >= 0.0
    ensures DualVStep(p, s, sig).Ve >= s.Ve && DualVStep(p, s, sig).Vi >= s.Vi
  {
    NonNegative(p.betap, s.alpha, sig.lamda);
    NonNegative(p.betan, s.alpha, Abs(Rho(sig)));
  }

  /** With γ in [0, 1] the new `alpha` lies between the old one and `|ρ|`. */
  lemma DualVAlphaBetween(p: Params, s: Stimulus, sig: Signals)
    requires 0.0 <= p.gamma <= 1.0
    ensures s.alpha <= Abs(Rho(sig)) ==> s.alpha <= DualVStep(p, s, sig).alpha <= Abs(Rho(sig))
    ensures Abs(Rho(sig)) <= s.alpha ==> Abs(Rho(sig)) <= DualVStep(p, s, sig).alpha <= s.alpha
  {
    BlendBetween(p.gamma, Abs(Rho(sig)), s.alpha);
  }

  lemma NonNegative(x: real, y: real, z: real)
    requires x >= 0.0 && y >= 0.0 && z >= 0.0
    ensures x * y * z >= 0.0
  {
    assert x * y >= 0.0;
  }

  /** With γ in [0, 1] a blend lies between its two ends. */
  lemma BlendBetween(g: real, x: real, y: real)
    requires 0.0 <= g <= 1.0
    ensures y <= x ==> y <= Blend(g, x, y) <= x
    ensures x <= y ==> x <= Blend(g, x, y) <= y
  {
    if y <= x {
      BlendUp(g, x, y);
    } else {
      BlendDown(g, x, y);
    }
  }

  lemma BlendUp(g: real, x: real, y: real)
    requires 0.0 <= g <= 1.0 && y <= x
    ensures y <= Blend(g, x, y) <= x
  {
    var d := x - y;
    FractionOf(g, d);
    var f := g * d;
    assert 0.0 <= f <= d;
    assert Blend(g, x, y) == y + f;
  }

  lemma BlendDown(g: real, x: real, y: real)
    requires 0.0 <= g <= 1.0 && x <= y
    ensures x <= Blend(g, x, y) <= y
  {
    var d := y - x;
    FractionOf(1.0 - g, d);
    var f := (1.0 - g) * d;
    assert 0.0 <= f <= d;
    assert Blend(g, x, y) == x + f;
  }

  /** A fraction in [0, 1] of a non-negative amount lies between 0 and it. */
  lemma FractionOf(g: real, d: real)
    requires 0.0 <= g <= 1.0 && d >= 0.0
    ensures 0.0 <= g * d <= d
  {
    assert d - g * d == (1.0 - g) * d;
  }

  /** The excitatory and inhibitory error terms of the LePelley rules. */
  function ThetaE(p: Params, s: Stimulus, sig: Signals): real {
    var VXe := sig.sigmaE - s.Ve;
    var VXi := sig.sigmaI - s.Vi;
    -p.thetaE * (Abs(sig.lamda - s.Ve + s.Vi) - Abs(sig.lamda - VXe + VXi))
  }

  function ThetaI(p: Params, s: Stimulus, sig: Signals): real {
    var VXe := sig.sigmaE - s.Ve;
    var VXi := sig.sigmaI - s.Vi;
    var rho := Abs(Rho(sig));
    -p.thetaI * (Abs(rho - s.Vi + s.Ve) - Abs(rho - VXi + VXe))
  }

  /** The growth of one dual strength in the LePelley family: weight `w`
      times rate times `1 − own + other` times `|ρ|`. */
  function Gain(w: real, rate: real, own: real, other: real, rho: real): real {
    w * rate * (1.0 - own + other) * Abs(rho)
  }

  /** LePelley: one of `Ve`/`Vi` grows by `alpha·β·(1 ∓ (Ve − Vi))·|ρ|` using
      the pre-step `alpha`; `alpha` is adjusted by θE when ρ > 0 and by θI when
      ρ < 0, not at all when ρ = 0, and then clamped to [0.05, 1]. */
  function LepelleyStep(p: Params, s: Stimulus, sig: Signals): (r: Stimulus)
    ensures 0.05 <= r.alpha <= 1.0
    ensures Rho(sig) >= 0.0 ==> r.Ve == s.Ve + Gain(s.alpha, p.betap, s.Ve, s.Vi, Rho(sig)) && r.Vi == s.Vi
    ensures Rho(sig) < 0.0 ==> r.Vi == s.Vi + Gain(s.alpha, p.betan, s.Vi, s.Ve, Rho(sig)) && r.Ve == s.Ve
    ensures Rho(sig) == 0.0 ==> r.alpha == Clamp(s.alpha) && r.Ve == s.Ve
    ensures Rho(sig) > 0.0 ==> r.alpha == Clamp(s.alpha + ThetaE(p, s, sig))
    ensures Rho(sig) < 0.0 ==> r.alpha == Clamp(s.alpha + ThetaI(p, s, sig))
    ensures r.assoc == r.Ve - r.Vi
    ensures r == s.(alpha := r.alpha, assoc := r.assoc, Ve := r.Ve, Vi := r.Vi)
  {
    var rho := Rho(sig);
    var dVe := if rho >= 0.0 then Gain(s.alpha, p.betap, s.Ve, s.Vi, rho) else 0.0;
    var dVi := if rho >= 0.0 then 0.0 else Gain(s.alpha, p.betan, s.Vi, s.Ve, rho);
    var alpha :=
      if rho > 0.0 then s.alpha + ThetaE(p, s, sig)
      else if rho < 0.0 then s.alpha + ThetaI(p, s, sig)
      else s.alpha;
    var ve := s.Ve + dVe;
    var vi := s.Vi + dVi;
    s.(alpha := Clamp(alpha), Ve := ve, Vi := vi, assoc := ve - vi)
  }

  /** Dual Mackintosh: one of `Ve`/`Vi` grows as in LePelley, the new `alpha`
      is computed from the pre-step `assoc`, `Ve` and `Vi`, and only then is
      `assoc` overwritten by `Ve − Vi`. */
  function DualmackStep(p: Params, s: Stimulus, sig: Signals): (r: Stimulus)
    ensures Rho(sig) >= 0.0 ==> r.Ve == s.Ve + Gain(s.alpha, p.betap, s.Ve, s.Vi, Rho(sig)) && r.Vi == s.Vi
    ensures Rho(sig) < 0.0 ==> r.Vi == s.Vi + Gain(s.alpha, p.betan, s.Vi, s.Ve, Rho(sig)) && r.Ve == s.Ve
    ensures r.alpha == 0.5 * (1.0 + s.assoc - ((sig.sigmaE - s.Ve) - (sig.sigmaI - s.Vi)))
    ensures r.assoc == r.Ve - r.Vi
    ensures r == s.(alpha := r.alpha, assoc := r.assoc, Ve := r.Ve, Vi := r.Vi)
  {
    var rho := Rho(sig);
    var VXe := sig.sigmaE - s.Ve;
    var VXi := sig.sigmaI - s.Vi;
    var t := if rho >= 0.0 then s.(Ve := s.Ve + Gain(s.alpha, p.betap, s.Ve, s.Vi, rho))
             else s.(Vi := s.Vi + Gain(s.alpha, p.betan, s.Vi, s.Ve, rho));
    t.(alpha := 0.5 * (1.0 + s.assoc - (VXe - VXi)), assoc := t.Ve - t.Vi)
  }

  /** The Dualmack attention reads the strength before the step: two
      stimuli that differ only in `assoc` get `alpha` values that differ by
      half as much, whatever the trial. */
  lemma DualmackReadsOldAssoc(p: Params, s: Stimulus, a: real, sig: Signals)
    ensures DualmackStep(p, s.(assoc := a), sig).alpha - DualmackStep(p, s, sig).alpha == (a - s.assoc) / 2.0
    ensures DualmackStep(p, s.(assoc := a), sig).assoc == DualmackStep(p, s, sig).assoc
  {
  }

  /** LePelley hybrid: `Ve`/`Vi` grow as in LePelley but weighted by the
      pre-step `alpha_hall`; `alpha_mack` takes the θ adjustment (none when
      ρ = 0) and is clamped to [0.05, 1]; `alpha_hall` moves towards `|ρ|` with
      weight γ; `assoc` is `alpha_mack·(Ve − Vi)`; `alpha` is left alone. */
  function HybridStep(p: Params, s: Stimulus, sig: Signals): (r: Stimulus)
    ensures 0.05 <= r.alphaMack <= 1.0
    ensures Rho(sig) >= 0.0 ==> r.Ve == s.Ve + Gain(s.alphaHall, p.betap, s.Ve, s.Vi, Rho(sig)) && r.Vi == s.Vi
    ensures Rho(sig) < 0.0 ==> r.Vi == s.Vi + Gain(s.alphaHall, p.betan, s.Vi, s.Ve, Rho(sig)) && r.Ve == s.Ve
    ensures Rho(sig) == 0.0 ==> r.alphaMack == Clamp(s.alphaMack)
    ensures Rho(sig) > 0.0 ==> r.alphaMack == Clamp(s.alphaMack + ThetaE(p, s, sig))
    ensures Rho(sig) < 0.0 ==> r.alphaMack == Clamp(s.alphaMack + ThetaI(p, s, sig))
    ensures r.alphaHall == Blend(p.gamma, Abs(Rho(sig)), s.alphaHall)
    ensures r.assoc == r.alphaMack * (r.Ve - r.Vi)
    ensures r == s.(alphaMack := r.alphaMack, alphaHall := r.alphaHall, assoc := r.assoc, Ve := r.Ve, Vi := r.Vi)
  {
    var rho := Rho(sig);
    var nve := if rho >= 0.0 then s.Ve + Gain(s.alphaHall, p.betap, s.Ve, s.Vi, rho) else s.Ve;
    var nvi := if rho >= 0.0 then s.Vi else s.Vi + Gain(s.alphaHall, p.betan, s.Vi, s.Ve, rho);
    var am :=
      if rho > 0.0 then s.alphaMack + ThetaE(p, s, sig)
      else if rho < 0.0 then s.alphaMack + ThetaI(p, s, sig)
      else s.alphaMack;
    var amc := Clamp(am);
    s.(alphaMack := amc, alphaHall := Blend(p.gamma, Abs(rho), s.alphaHall),
       Ve := nve, Vi := nvi, assoc := amc * (nve - nvi))
  }

  /** The step of a model. Only the rules that read the previous λ can fail. */
  function Step(m: Model, p: Params, s: Stimulus, sig: Signals): (r: Result<Stimulus>)
    ensures r.Err? <==> (m == Hall || m == Macknhall) && (sig.prevLamda.None? || p.xiHall.None?)
    ensures r.Err? ==> r.error == (if sig.prevLamda.None? then UnsetPrevLamda else MissingXiHall)
  {
    match m
    case Linear => Ok(LinearStep(s, sig))
    case Mack => Ok(MackStep(s, sig))
    case Hall => HallStep(p, s, sig)
    case Macknhall => MacknhallStep(p, s, sig)
    case DualV => Ok(DualVStep(p, s, sig))
    case Lepelley => Ok(LepelleyStep(p, s, sig))
    case Dualmack => Ok(DualmackStep(p, s, sig))
    case Hybrid => Ok(HybridStep(p, s, sig))
  }

  /** No rule touches the salience, the window or `delta_ma_hall`: those
      belong to the trial-part loop. */
  lemma StepFrame(m: Model, p: Params, s: Stimulus, sig: Signals)
    requires Step(m, p, s, sig).Ok?
    ensures Step(m, p, s, sig).value.salience == s.salience
    ensures Step(m, p, s, sig).value.window == s.window
    ensures Step(m, p, s, sig).value.deltaMaHall == s.deltaMaHall
  {
  }

  /** The dual-process rules change exactly one of the two strengths' sides:
      `Vi` is untouched when ρ ≥ 0 and `Ve` when ρ < 0. */
  lemma DualRulesExclusive(m: Model, p: Params, s: Stimulus, sig: Signals)
    requires m in {DualV, Lepelley, Dualmack, Hybrid}
    ensures Step(m, p, s, sig).Ok?
    ensures Rho(sig) >= 0.0 ==> Step(m, p, s, sig).value.Vi == s.Vi
    ensures Rho(sig) < 0.0 ==> Step(m, p, s, sig).value.Ve == s.Ve
  {
  }
}
