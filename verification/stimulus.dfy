/** The learning state of one conditioned stimulus and its field-wise algebra
    (`Stimulus` in Environment.py). */
module Stimuli {
  import opened Errors

  /** One CS's state. `salience` is optional because the constructor's default
      is `None`; every other scalar is a number. `window` is the bounded deque
      of recent `assoc` values, oldest first. */
  datatype Stimulus = Stimulus(
    assoc: real,
    Ve: real,
    Vi: real,
    alpha: real,
    alphaMack: real,
    alphaHall: real,
    salience: Option<real>,
    window: seq<real>,
    deltaMaHall: real)

  /** The scalar fields that every operation combines linearly. */
  datatype Field = AssocField | VeField | ViField | AlphaField | DeltaMaHallField

  function Get(s: Stimulus, f: Field): real {
    match f
    case AssocField => s.assoc
    case VeField => s.Ve
    case ViField => s.Vi
    case AlphaField => s.alpha
    case DeltaMaHallField => s.deltaMaHall
  }

  /** A stimulus the constructor could have produced: `alpha_mack` and
      `alpha_hall` are zero only when `alpha` is. */
  predicate IsNormal(s: Stimulus) {
    && (s.alphaMack != 0.0 || s.alpha == 0.0)
    && (s.alphaHall != 0.0 || s.alpha == 0.0)
  }

  /** The constructor applied to an existing record of fields: a falsy (zero)
      `alpha_mack` or `alpha_hall` is replaced by `alpha`. */
  function Normalize(s: Stimulus): (r: Stimulus)
    ensures IsNormal(r)
    ensures s.alphaMack != 0.0 ==> r.alphaMack == s.alphaMack
    ensures s.alphaHall != 0.0 ==> r.alphaHall == s.alphaHall
    ensures s.alphaMack == 0.0 ==> r.alphaMack == s.alpha
    ensures s.alphaHall == 0.0 ==> r.alphaHall == s.alpha
    ensures r.(alphaMack := s.alphaMack, alphaHall := s.alphaHall) == s
  {
    s.(alphaMack := if s.alphaMack == 0.0 then s.alpha else s.alphaMack,
       alphaHall := if s.alphaHall == 0.0 then s.alpha else s.alphaHall)
  }

  /** `Stimulus.copy`: rebuilds the stimulus through the constructor. */
  function Copy(s: Stimulus): (r: Stimulus)
    ensures IsNormal(r)
    ensures forall f :: Get(r, f) == Get(s, f)
    ensures r.salience == s.salience && r.window == s.window
  {
    Normalize(s)
  }

  /** A copy is the same stimulus exactly when the stimulus is normal; a zero
      `alpha_mack` or `alpha_hall` beside a nonzero `alpha` is not preserved. */
  lemma CopyIdentity(s: Stimulus)
    ensures Copy(s) == s <==> IsNormal(s)
    ensures s.alphaMack == 0.0 && s.alpha != 0.0 ==> Copy(s).alphaMack == s.alpha != s.alphaMack
    ensures s.alphaHall == 0.0 && s.alpha != 0.0 ==> Copy(s).alphaHall == s.alpha != s.alphaHall
  {
  }

  /** `Stimulus(assoc = 0, alpha = …, salience = …, alpha_mack = …, alpha_hall = …)`
      with every other argument at its default. Both `None` and zero are falsy. */
  function New(alpha: real, alphaMack: Option<real>, alphaHall: Option<real>, salience: Option<real>): (r: Stimulus)
    ensures r.assoc == 0.0 && r.Ve == 0.0 && r.Vi == 0.0
    ensures r.alpha == alpha && r.salience == salience
    ensures r.window == [] && r.deltaMaHall == 0.2
    ensures r.alphaMack == (if alphaMack.Some? && alphaMack.value != 0.0 then alphaMack.value else alpha)
    ensures r.alphaHall == (if alphaHall.Some? && alphaHall.value != 0.0 then alphaHall.value else alpha)
    ensures IsNormal(r)
  {
    Normalize(Stimulus(0.0, 0.0, 0.0, alpha, alphaMack.GetOr(0.0), alphaHall.GetOr(0.0), salience, [], 0.2))
  }

  function Max(a: int, b: int): int {
    if a >= b then a else b
  }

  /** The element at position `i` of `w` once it is left-padded with zeros to
      length `m`. */
  function PaddedAt(w: seq<real>, m: int, i: int): real
    requires |w| <= m && 0 <= i < m
  {
    if i < m - |w| then 0.0 else w[i - (m - |w|)]
  }

  function PadLeft(w: seq<real>, m: nat): (r: seq<real>)
    requires |w| <= m
    ensures |r| == m
    ensures forall i :: 0 <= i < m ==> r[i] == PaddedAt(w, m, i)
  {
    seq(m - |w|, _ => 0.0) + w
  }

  /** Combines two windows: both are left-padded with zeros to the longer
      length and combined position by position. */
  function JoinWindows(a: seq<real>, b: seq<real>, op: (real, real) -> real): (r: seq<real>)
    ensures |r| == Max(|a|, |b|)
    ensures forall i :: 0 <= i < |r| ==> r[i] == op(PaddedAt(a, |r|, i), PaddedAt(b, |r|, i))
  {
    var m := Max(|a|, |b|);
    var pa := PadLeft(a, m);
    var pb := PadLeft(b, m);
    seq(m, i requires 0 <= i < m => op(pa[i], pb[i]))
  }

  /** `Stimulus.join`: every numeric field is combined with `op`, the windows
      are padded and combined position-wise, and the record is rebuilt through
      the constructor. The left operand's `None` salience is an unknown field
      type; a `None` on the right only reaches `op`, which rejects it. */
  function Join(a: Stimulus, b: Stimulus, op: (real, real) -> real): (r: Result<Stimulus>)
    ensures r.Ok? <==> a.salience.Some? && b.salience.Some?
    ensures a.salience.None? ==> r == Err(UnknownFieldType)
    ensures a.salience.Some? && b.salience.None? ==> r == Err(OperandType)
    ensures r.Ok? ==> forall f :: Get(r.value, f) == op(Get(a, f), Get(b, f))
    ensures r.Ok? ==> r.value.salience == Some(op(a.salience.value, b.salience.value))
    ensures r.Ok? ==> r.value.window == JoinWindows(a.window, b.window, op)
    ensures r.Ok? ==> r.value == Normalize(r.value.(alphaMack := op(a.alphaMack, b.alphaMack),
                                                   alphaHall := op(a.alphaHall, b.alphaHall)))
  {
    if a.salience.None? then Err(UnknownFieldType)
    else if b.salience.None? then Err(OperandType)
    else
      Ok(Normalize(Stimulus(
        op(a.assoc, b.assoc),
        op(a.Ve, b.Ve),
        op(a.Vi, b.Vi),
        op(a.alpha, b.alpha),
        op(a.alphaMack, b.alphaMack),
        op(a.alphaHall, b.alphaHall),
        Some(op(a.salience.value, b.salience.value)),
        JoinWindows(a.window, b.window, op),
        op(a.deltaMaHall, b.deltaMaHall))))
  }

  function Plus(x: real, y: real): real {
    x + y
  }

  /** `Stimulus.__add__`: join with addition. */
  function Add(a: Stimulus, b: Stimulus): (r: Result<Stimulus>)
    ensures r.Ok? <==> a.salience.Some? && b.salience.Some?
    ensures a.salience.None? ==> r == Err(UnknownFieldType)
    ensures a.salience.Some? && b.salience.None? ==> r == Err(OperandType)
    ensures r.Ok? ==> forall f :: Get(r.value, f) == Get(a, f) + Get(b, f)
    ensures r.Ok? && a.alphaMack + b.alphaMack != 0.0 ==> r.value.alphaMack == a.alphaMack + b.alphaMack
    ensures r.Ok? && a.alphaHall + b.alphaHall != 0.0 ==> r.value.alphaHall == a.alphaHall + b.alphaHall
    ensures r.Ok? ==> r.value.salience == Some(a.salience.value + b.salience.value)
    ensures r.Ok? ==> |r.value.window| == Max(|a.window|, |b.window|)
    ensures r.Ok? ==> forall i :: 0 <= i < |r.value.window| ==>
      r.value.window[i] == PaddedAt(a.window, |r.value.window|, i) + PaddedAt(b.window, |r.value.window|, i)
    ensures r.Ok? ==> IsNormal(r.value)
  {
    Join(a, b, Plus)
  }

  /** Addition of stimuli is commutative whenever it succeeds. */
  lemma AddCommutes(a: Stimulus, b: Stimulus)
    ensures Add(a, b).Ok? <==> Add(b, a).Ok?
    ensures Add(a, b).Ok? ==> Add(a, b) == Add(b, a)
  {
    if Add(a, b).Ok? {
      var ab := Add(a, b).value;
      var ba := Add(b, a).value;
      assert ab.window == ba.window;
      assert ab.assoc == Get(ab, AssocField) == Get(ba, AssocField) == ba.assoc;
      assert ab.Ve == Get(ab, VeField) == Get(ba, VeField) == ba.Ve;
      assert ab.Vi == Get(ab, ViField) == Get(ba, ViField) == ba.Vi;
      assert ab.alpha == Get(ab, AlphaField) == Get(ba, AlphaField) == ba.alpha;
      assert ab.deltaMaHall == Get(ab, DeltaMaHallField) == Get(ba, DeltaMaHallField) == ba.deltaMaHall;
    }
  }

  /** `Stimulus.__truediv__`: every scalar and every window entry is divided by
      `n`, and the record is rebuilt through the constructor. The first field
      divided is `assoc`, so a zero divisor fails before any field type is
      inspected. */
  function Div(s: Stimulus, n: int): (r: Result<Stimulus>)
    ensures n == 0 ==> r == Err(ZeroDivision)
    ensures n != 0 && s.salience.None? ==> r == Err(UnknownFieldType)
    ensures r.Ok? <==> n != 0 && s.salience.Some?
    ensures r.Ok? ==> forall f :: Get(r.value, f) == Get(s, f) / (n as real)
    ensures r.Ok? ==> r.value.salience == Some(s.salience.value / (n as real))
    ensures r.Ok? ==> |r.value.window| == |s.window|
    ensures r.Ok? ==> forall i :: 0 <= i < |s.window| ==> r.value.window[i] == s.window[i] / (n as real)
    ensures r.Ok? && IsNormal(s) ==> r.value.alphaMack == s.alphaMack / (n as real)
    ensures r.Ok? && IsNormal(s) ==> r.value.alphaHall == s.alphaHall / (n as real)
    ensures r.Ok? ==> IsNormal(r.value)
  {
    if n == 0 then Err(ZeroDivision)
    else if s.salience.None? then Err(UnknownFieldType)
    else
      var q := n as real;
      Ok(Normalize(Stimulus(
        s.assoc / q,
        s.Ve / q,
        s.Vi / q,
        s.alpha / q,
        s.alphaMack / q,
        s.alphaHall / q,
        Some(s.salience.value / q),
        seq(|s.window|, i requires 0 <= i < |s.window| => s.window[i] / q),
        s.deltaMaHall / q)))
  }

  /** Dividing does not preserve a zero `alpha_mack`: the constructor replaces
      the quotient by `alpha / n`. */
  lemma DivReplacesZeroAlphaMack(s: Stimulus, n: int)
    requires n != 0 && s.salience.Some?
    requires s.alphaMack == 0.0 && s.alpha != 0.0
    ensures Div(s, n).Ok?
    ensures Div(s, n).value.alphaMack == s.alpha / (n as real) != 0.0
  {
  }

  /** Join does not preserve a zero `alpha_mack` either: when the operands'
      `alpha_mack` values cancel, the result takes the combined `alpha`. */
  lemma AddReplacesZeroAlphaMack(a: Stimulus, b: Stimulus)
    requires a.salience.Some? && b.salience.Some?
    requires a.alphaMack + b.alphaMack == 0.0
    ensures Add(a, b).Ok?
    ensures Add(a, b).value.alphaMack == a.alpha + b.alpha
  {
  }
}
