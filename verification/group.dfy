/** `Group` (Group.py): the initial environment of a group of subjects and the
    execution of one phase, a fold over its trial parts. A part names the CS
    presented together and whether the US follows (`+`). */
module Groups {
  import opened Errors
  import opened Text
  import opened Stimuli
  import opened Environments
  import opened Adaptive

  /** The group's configuration and state. `singles` is the list of
      one-character CS names kept by the constructor; `prevLamda` is the λ of
      the last trial part run, absent until one has run. */
  datatype Group = Group(
    name: string,
    s: Env,
    model: Model,
    params: Params,
    windowSize: Option<int>,
    singles: set<string>,
    prevLamda: Option<real>)

  /** A stimulus as the constructor builds it for a group: zero strengths,
      an empty window, the given `alpha` and salience, and the default
      `alpha_mack` and `alpha_hall` when they are nonzero, else `alpha`. */
  predicate IsFresh(st: Stimulus, alpha: real, alphaMack: Option<real>, alphaHall: Option<real>, salience: real) {
    && st.assoc == 0.0 && st.Ve == 0.0 && st.Vi == 0.0
    && st.alpha == alpha && st.salience == Some(salience) && st.window == []
    && st.alphaMack == (if alphaMack.Some? && alphaMack.value != 0.0 then alphaMack.value else alpha)
    && st.alphaHall == (if alphaHall.Some? && alphaHall.value != 0.0 then alphaHall.value else alpha)
  }

  /** `Group.__init__`: every name of `cs`, `alphas` or `saliences` gets a
      fresh stimulus with its own `alpha` and salience or the defaults; the
      model is looked up by name. */
  function NewGroup(
    name: string,
    alphas: map<string, real>, defaultAlpha: real,
    defaultAlphaMack: Option<real>, defaultAlphaHall: Option<real>,
    saliences: map<string, real>, defaultSalience: real,
    betan: real, betap: real, lamda: real, gamma: real, thetaE: real, thetaI: real,
    cs: set<string>, adaptiveType: string, windowSize: Option<int>, xiHall: Option<real>): (r: Result<Group>)
    ensures r.Err? <==> ModelFromName(adaptiveType).Err?
    ensures r.Err? ==> r.error == UnknownModel(adaptiveType)
    ensures r.Ok? ==> r.value.s.Keys == cs + alphas.Keys + saliences.Keys
    ensures r.Ok? ==> forall k :: k in r.value.s ==>
      IsFresh(r.value.s[k], if k in alphas then alphas[k] else defaultAlpha, defaultAlphaMack, defaultAlphaHall,
              if k in saliences then saliences[k] else defaultSalience)
    ensures r.Ok? ==> forall k :: k in r.value.singles <==> k in r.value.s && |k| == 1
    ensures r.Ok? ==> NameOf(r.value.model) == adaptiveType && r.value.prevLamda.None?
    ensures r.Ok? ==> r.value.params == Params(betan, betap, lamda, gamma, thetaE, thetaI, xiHall)
  {
    var model :- ModelFromName(adaptiveType);
    var names := cs + alphas.Keys + saliences.Keys;
    var s := map k | k in names ::
      New(if k in alphas then alphas[k] else defaultAlpha, defaultAlphaMack, defaultAlphaHall,
          Some(if k in saliences then saliences[k] else defaultSalience));
    Ok(Group(name, s, model, Params(betan, betap, lamda, gamma, thetaE, thetaI, xiHall),
             windowSize, (set k | k in names && |k| == 1), None))
  }

  /** A fresh group's stimuli all carry a salience and are normal, so they
      can be copied, added and averaged; when every name is one character the
      environment is well formed and `singles` lists all of it. */
  lemma NewGroupWellFormed(
    name: string,
    alphas: map<string, real>, defaultAlpha: real,
    defaultAlphaMack: Option<real>, defaultAlphaHall: Option<real>,
    saliences: map<string, real>, defaultSalience: real,
    betan: real, betap: real, lamda: real, gamma: real, thetaE: real, thetaI: real,
    cs: set<string>, adaptiveType: string, windowSize: Option<int>, xiHall: Option<real>)
    requires ModelFromName(adaptiveType).Ok?
    ensures var g := NewGroup(name, alphas, defaultAlpha, defaultAlphaMack, defaultAlphaHall, saliences, defaultSalience,
                              betan, betap, lamda, gamma, thetaE, thetaI, cs, adaptiveType, windowSize, xiHall).value;
      && HasSaliences(g.s)
      && (forall k :: k in g.s ==> IsNormal(g.s[k]) && EnvCopy(g.s)[k] == g.s[k])
      && ((forall k :: k in cs + alphas.Keys + saliences.Keys ==> |k| == 1) ==> WellFormed(g.s) && g.singles == g.s.Keys)
  {
    var g := NewGroup(name, alphas, defaultAlpha, defaultAlphaMack, defaultAlphaHall, saliences, defaultSalience,
                      betan, betap, lamda, gamma, thetaE, thetaI, cs, adaptiveType, windowSize, xiHall).value;
    forall k | k in g.s ensures IsNormal(g.s[k]) && EnvCopy(g.s)[k] == g.s[k] {
      CopyIdentity(g.s[k]);
    }
    if forall k :: k in cs + alphas.Keys + saliences.Keys ==> |k| == 1 {
      NewGroupSingles(name, alphas, defaultAlpha, defaultAlphaMack, defaultAlphaHall, saliences, defaultSalience,
                      betan, betap, lamda, gamma, thetaE, thetaI, cs, adaptiveType, windowSize, xiHall);
    }
  }

  /** With one-character names, a fresh group's environment is well formed
      and `singles` lists all of it. */
  lemma NewGroupSingles(
    name: string,
    alphas: map<string, real>, defaultAlpha: real,
    defaultAlphaMack: Option<real>, defaultAlphaHall: Option<real>,
    saliences: map<string, real>, defaultSalience: real,
    betan: real, betap: real, lamda: real, gamma: real, thetaE: real, thetaI: real,
    cs: set<string>, adaptiveType: string, windowSize: Option<int>, xiHall: Option<real>)
    requires ModelFromName(adaptiveType).Ok?
    requires forall k :: k in cs + alphas.Keys + saliences.Keys ==> |k| == 1
    ensures var g := NewGroup(name, alphas, defaultAlpha, defaultAlphaMack, defaultAlphaHall, saliences, defaultSalience,
                              betan, betap, lamda, gamma, thetaE, thetaI, cs, adaptiveType, windowSize, xiHall).value;
      WellFormed(g.s) && g.singles == g.s.Keys
  {
  }

  /** `phase_lamda or default`: a missing or zero phase λ falls back. */
  function PhaseLamdaOr(phaseLamda: Option<real>, default: real): real {
    if phaseLamda.Some? && phaseLamda.value != 0.0 then phaseLamda.value else default
  }

  /** Python's `sum(e[x].field for x in cs)` over the named stored stimuli. */
  function SumOver(e: Env, cs: seq<char>, f: Field): real
    requires forall i :: 0 <= i < |cs| ==> [cs[i]] in e
  {
    if |cs| == 0 then 0.0 else SumOver(e, cs[..|cs| - 1], f) + Get(e[[cs[|cs| - 1]]], f)
  }

  /** The signals of one trial part: β, λ and sign from the US sign and the
      three aggregates over the part's distinct CS, all read from `e`. */
  function PartSignals(p: Params, e: Env, part: string, plus: string, phaseLamda: Option<real>, prev: Option<real>): (sig: Signals)
    requires AllPresent(e, part)
    ensures plus == "+" ==> sig.beta == p.betap && sig.sign == 1
    ensures plus == "+" && phaseLamda.Some? && phaseLamda.value != 0.0 ==> sig.lamda == phaseLamda.value
    ensures plus == "+" && (phaseLamda.None? || phaseLamda.value == 0.0) ==> sig.lamda == p.lamda
    ensures plus != "+" ==> sig.beta == p.betan && sig.lamda == 0.0 && sig.sign == -1
    ensures sig.prevLamda == prev
  {
    var cs := Distinct(part);
    assert forall i :: 0 <= i < |cs| ==> [cs[i]] in e by {
      forall i | 0 <= i < |cs| ensures [cs[i]] in e {
        assert cs[i] in part;
      }
    }
    var sigma := SumOver(e, cs, AssocField);
    var sigmaE := SumOver(e, cs, VeField);
    var sigmaI := SumOver(e, cs, ViField);
    if plus == "+" then Signals(p.betap, PhaseLamdaOr(phaseLamda, p.lamda), 1, sigma, sigmaE, sigmaI, prev)
    else Signals(p.betan, 0.0, -1, sigma, sigmaE, sigmaI, prev)
  }

  /** The three aggregates are the fields of the compound stimulus the part
      names, summed in the part's order: σ is the strength `s[part]` that
      compound lookup returns. */
  lemma {:induction false} SignalsAreCompoundStrength(p: Params, e: Env, part: string, plus: string, phaseLamda: Option<real>, prev: Option<real>)
    requires AllPresent(e, part) && NoRepeats(part) && part != []
    requires |part| == 1 || AllSaliences(Constituents(e, part))
    ensures Lookup(e, part).Ok?
    ensures PartSignals(p, e, part, plus, phaseLamda, prev).sigma == Lookup(e, part).value.assoc
    ensures PartSignals(p, e, part, plus, phaseLamda, prev).sigmaE == Lookup(e, part).value.Ve
    ensures PartSignals(p, e, part, plus, phaseLamda, prev).sigmaI == Lookup(e, part).value.Vi
  {
    DistinctOfNoRepeats(part);
    SumOverConstituents(e, part, AssocField);
    SumOverConstituents(e, part, VeField);
    SumOverConstituents(e, part, ViField);
  }

  lemma {:induction false} DistinctOfNoRepeats(s: string)
    requires NoRepeats(s)
    ensures Distinct(s) == s
  {
    if |s| > 0 {
      var init := s[..|s| - 1];
      assert NoRepeats(init);
      DistinctOfNoRepeats(init);
      assert s[|s| - 1] !in init;
      assert s == init + [s[|s| - 1]];
    }
  }

  lemma {:induction false} SumOverConstituents(e: Env, key: string, f: Field)
    requires AllPresent(e, key)
    ensures SumOver(e, key, f) == SumField(Constituents(e, key), f)
  {
    if |key| > 0 {
      var init := key[..|key| - 1];
      SumOverConstituents(e, init, f);
      assert Constituents(e, key)[..|key| - 1] == Constituents(e, init);
    }
  }

  /** `deque.popleft`. */
  function PopLeft(w: seq<real>): (r: Result<seq<real>>)
    ensures r.Ok? <==> w != []
    ensures r.Ok? ==> [w[0]] + r.value == w
    ensures r.Err? ==> r.error == PopFromEmpty
  {
    if w == [] then Err(PopFromEmpty) else Ok(w[1..])
  }

  function Mean(xs: seq<real>): real
    requires |xs| > 0
  {
    Sum(xs) / (|xs| as real)
  }

  /** The window update after a step: a full window (at least `size` long)
      drops its oldest entry, the new strength is appended, and
      `delta_ma_hall` becomes the window mean minus the strength recorded
      before the step. Without a window size nothing happens. */
  function WindowStep(s: Stimulus, size: Option<int>, prevAssoc: real): (r: Result<Stimulus>)
    ensures size.None? ==> r == Ok(s)
    ensures size.Some? ==> (r.Err? <==> s.window == [] && size.value <= 0)
    ensures r.Err? ==> r.error == PopFromEmpty
    ensures r.Ok? && size.Some? ==> |r.value.window| > 0 && r.value.window[|r.value.window| - 1] == s.assoc
    ensures r.Ok? && size.Some? ==> r.value.window == (if |s.window| >= size.value then s.window[1..] else s.window) + [s.assoc]
    ensures r.Ok? && size.Some? ==> r.value.deltaMaHall == Mean(r.value.window) - prevAssoc
    ensures r.Ok? && size.Some? && 1 <= size.value && |s.window| <= size.value ==> |r.value.window| <= size.value
    ensures r.Ok? ==> r.value == s.(window := r.value.window, deltaMaHall := r.value.deltaMaHall)
  {
    if size.None? then Ok(s)
    else
      var kept :- if |s.window| >= size.value then PopLeft(s.window) else Ok(s.window);
      var win := kept + [s.assoc];
      Ok(s.(window := win, deltaMaHall := Mean(win) - prevAssoc))
  }

  /** What one constituent undergoes in a part: the model's step, then the
      window update against its strength before the step. */
  function Advance(g: Group, sig: Signals, s: Stimulus, prevAssoc: real): (r: Result<Stimulus>)
    ensures r.Ok? <==> Step(g.model, g.params, s, sig).Ok? && WindowStep(Step(g.model, g.params, s, sig).value, g.windowSize, prevAssoc).Ok?
    ensures r.Ok? ==> r.value == WindowStep(Step(g.model, g.params, s, sig).value, g.windowSize, prevAssoc).value
    ensures r.Ok? ==> r.value.salience == s.salience
  {
    var stepped :- Step(g.model, g.params, s, sig);
    StepFrame(g.model, g.params, s, sig);
    WindowStep(stepped, g.windowSize, prevAssoc)
  }

  /** The update one constituent undergoes, given the strength last
      recorded for it. The loop of a part is the same whatever the update. */
  type Update = (Stimulus, real) -> Result<Stimulus>

  /** How a constituent advances in a part, given the group, the part's
      signals and the strength last recorded for it. The loop over the parts
      is the same whatever the step. */
  type Advancer = (Group, Signals, Stimulus, real) -> Result<Stimulus>

  /** The group's own step. */
  function GroupStep(): Advancer {
    (g: Group, sig: Signals, s: Stimulus, prevAssoc: real) => Advance(g, sig, s, prevAssoc)
  }

  /** The update of a part: the step with the part's signals. */
  function Stepper(adv: Advancer, g: Group, sig: Signals): Update {
    (s: Stimulus, prevAssoc: real) => adv(g, sig, s, prevAssoc)
  }

  /** The state threaded through the parts of a phase: the environment, the
      histories recorded so far, and the previous λ. */
  datatype Run = Run(s: Env, hist: map<string, seq<Stimulus>>, prevLamda: Option<real>)

  /** Every history is of a stored one-character CS, is non-empty, and its
      last snapshot holds that CS's current strength. */
  predicate HistTracks(run: Run) {
    forall k :: k in run.hist ==>
      |k| == 1 && k in run.s && |run.hist[k]| > 0 && run.hist[k][|run.hist[k]| - 1].assoc == run.s[k].assoc
  }

  /** The history of `c` before its step: the recorded one, or on the first
      touch a snapshot of the stimulus as it stands. */
  function FirstTouch(run: Run, c: char): (h: seq<Stimulus>)
    requires HistTracks(run) && [c] in run.s
    ensures |h| > 0 && Get(h[|h| - 1], AssocField) == run.s[[c]].assoc
    ensures [c] in run.hist ==> h == run.hist[[c]]
    ensures [c] !in run.hist ==> h == [Copy(run.s[[c]])]
  {
    if [c] in run.hist then run.hist[[c]] else Record([], run.s[[c]])
  }

  /** One iteration of the inner loop of `runPhase`: the first touch records a
      snapshot, the stimulus is updated against the last recorded strength,
      which is its own current strength, and the result is recorded. */
  function StepCs(u: Update, run: Run, c: char): (r: Result<Run>)
    requires HistTracks(run) && [c] in run.s
    ensures r.Ok? <==> u(run.s[[c]], run.s[[c]].assoc).Ok?
    ensures r.Err? ==> r.error == u(run.s[[c]], run.s[[c]].assoc).error
    ensures r.Ok? ==> r.value.s == run.s[[c] := u(run.s[[c]], run.s[[c]].assoc).value]
    ensures r.Ok? ==> HistTracks(r.value) && r.value.prevLamda == run.prevLamda
    ensures r.Ok? ==> r.value.hist.Keys == run.hist.Keys + {[c]}
    ensures r.Ok? ==> forall k :: k in run.hist && k != [c] ==> r.value.hist[k] == run.hist[k]
    ensures r.Ok? ==> r.value.hist[[c]] == Record(FirstTouch(run, c), r.value.s[[c]])
  {
    var h0 := FirstTouch(run, c);
    var recorded := Attr(h0, AssocField);
    var next :- u(run.s[[c]], recorded[|recorded| - 1]);
    var h1 := Record(h0, next);
    assert h1[|h1| - 1].assoc == next.assoc by {
      assert Get(h1[|h0|], AssocField) == next.assoc;
    }
    TracksRecorded(run, [c], next, h1);
    Ok(run.(s := run.s[[c] := next], hist := run.hist[[c] := h1]))
  }

  /** Storing a stimulus for a stored one-character CS and a history that
      ends with its strength keeps the histories tracking. */
  lemma TracksRecorded(run: Run, k: string, next: Stimulus, h: seq<Stimulus>)
    requires HistTracks(run) && |k| == 1 && k in run.s
    requires |h| > 0 && h[|h| - 1].assoc == next.assoc
    ensures HistTracks(run.(s := run.s[k := next], hist := run.hist[k := h]))
  {
  }

  /** The names of the CS a sequence of characters presents. */
  function KeysOf(cs: seq<char>): (r: set<string>)
    ensures forall k :: k in r ==> |k| == 1
  {
    set i | 0 <= i < |cs| :: [cs[i]]
  }

  lemma KeysOfCons(cs: seq<char>)
    requires |cs| > 0
    ensures forall k :: k in KeysOf(cs) <==> k == [cs[0]] || k in KeysOf(cs[1..])
    ensures NoRepeats(cs) ==> [cs[0]] !in KeysOf(cs[1..]) && NoRepeats(cs[1..])
  {
    var tail := cs[1..];
    forall k | k in KeysOf(cs) ensures k in {[cs[0]]} + KeysOf(tail) {
      var i :| 0 <= i < |cs| && k == [cs[i]];
      if i > 0 { assert k == [tail[i - 1]]; }
    }
    forall k | k in KeysOf(tail) ensures k in KeysOf(cs) {
      var i :| 0 <= i < |tail| && k == [tail[i]];
      assert k == [cs[i + 1]];
    }
    if NoRepeats(cs) {
      forall i, j | 0 <= i < j < |tail| ensures tail[i] != tail[j] {
        assert tail[i] == cs[i + 1] && tail[j] == cs[j + 1];
      }
    }
  }

  lemma KeysOfTail(cs: seq<char>)
    requires |cs| > 0
    ensures [cs[0]] in KeysOf(cs) && KeysOf(cs[1..]) <= KeysOf(cs)
  {
    forall k | k in KeysOf(cs[1..]) ensures k in KeysOf(cs) {
      var i :| 0 <= i < |cs[1..]| && k == [cs[1..][i]];
      assert k == [cs[i + 1]];
    }
  }

  /** A part's characters are all stored exactly when its names are. */
  lemma KeysOfPresent(e: Env, part: string)
    ensures AllPresent(e, part) <==> KeysOf(part) <= e.Keys
    ensures KeysOf(Distinct(part)) == KeysOf(part) && NoRepeats(Distinct(part))
  {
    if KeysOf(part) <= e.Keys {
      forall i | 0 <= i < |part| ensures [part[i]] in e {
        assert [part[i]] in KeysOf(part);
      }
    }
    var cs := Distinct(part);
    forall k | k in KeysOf(cs) ensures k in KeysOf(part) {
      var i :| 0 <= i < |cs| && k == [cs[i]];
      assert cs[i] in part;
      var j :| 0 <= j < |part| && part[j] == cs[i];
    }
    forall k | k in KeysOf(part) ensures k in KeysOf(cs) {
      var i :| 0 <= i < |part| && k == [part[i]];
      assert part[i] in cs;
      var j :| 0 <= j < |cs| && cs[j] == part[i];
    }
  }

  /** `for cs in compounds: …`, in the given order. */
  function StepAll(u: Update, run: Run, cs: seq<char>): (r: Result<Run>)
    requires HistTracks(run) && KeysOf(cs) <= run.s.Keys
    ensures r.Ok? ==> HistTracks(r.value) && r.value.s.Keys == run.s.Keys && r.value.prevLamda == run.prevLamda
    decreases |cs|
  {
    if |cs| == 0 then Ok(run)
    else
      KeysOfTail(cs);
      var next :- StepCs(u, run, cs[0]);
      StepAll(u, next, cs[1..])
  }

  /** Simultaneous update, success: with distinct CS the loop succeeds
      exactly when every constituent's update does, each applied to its
      state before the loop. */
  lemma {:induction false} StepAllSucceeds(u: Update, run: Run, cs: seq<char>)
    requires HistTracks(run) && KeysOf(cs) <= run.s.Keys && NoRepeats(cs)
    ensures StepAll(u, run, cs).Ok? <==> forall k :: k in KeysOf(cs) ==> u(run.s[k], run.s[k].assoc).Ok?
    decreases |cs|
  {
    if |cs| > 0 {
      KeysOfCons(cs);
      var c, tail := cs[0], cs[1..];
      if StepCs(u, run, c).Ok? {
        var next := StepCs(u, run, c).value;
        StepAllSucceeds(u, next, tail);
        assert StepAll(u, run, cs) == StepAll(u, next, tail);
        assert forall k :: k in KeysOf(tail) ==> next.s[k] == run.s[k];
        assert (forall k :: k in KeysOf(cs) ==> u(run.s[k], run.s[k].assoc).Ok?) <==>
          (forall k :: k in KeysOf(tail) ==> u(run.s[k], run.s[k].assoc).Ok?);
      } else {
        assert StepAll(u, run, cs).Err?;
        assert [c] in KeysOf(cs);
      }
    }
  }

  /** Simultaneous update, result: each constituent ends up as its own
      update applied to its state before the loop, so the order of the loop
      is irrelevant. */
  lemma {:induction false} StepAllResult(u: Update, run: Run, cs: seq<char>)
    requires HistTracks(run) && KeysOf(cs) <= run.s.Keys && NoRepeats(cs)
    requires StepAll(u, run, cs).Ok?
    ensures forall k :: k in KeysOf(cs) ==> Ok(StepAll(u, run, cs).value.s[k]) == u(run.s[k], run.s[k].assoc)
    decreases |cs|
  {
    if |cs| > 0 {
      KeysOfCons(cs);
      var c := cs[0];
      var next := StepCs(u, run, c).value;
      var tail := cs[1..];
      var r := StepAll(u, next, tail).value;
      assert StepAll(u, run, cs).value == r;
      forall k | k in KeysOf(cs) ensures Ok(r.s[k]) == u(run.s[k], run.s[k].assoc) {
        if k == [c] {
          StepAllFrame(u, next, tail);
        } else {
          StepAllResult(u, next, tail);
        }
      }
    }
  }

  /** Every stored stimulus outside the loop's CS is unchanged. */
  lemma {:induction false} StepAllFrame(u: Update, run: Run, cs: seq<char>)
    requires HistTracks(run) && KeysOf(cs) <= run.s.Keys
    requires StepAll(u, run, cs).Ok?
    ensures forall k :: k in run.s && k !in KeysOf(cs) ==> StepAll(u, run, cs).value.s[k] == run.s[k]
    decreases |cs|
  {
    if |cs| > 0 {
      KeysOfCons(cs);
      var next := StepCs(u, run, cs[0]).value;
      StepAllFrame(u, next, cs[1..]);
      assert StepAll(u, run, cs).value == StepAll(u, next, cs[1..]).value;
    }
  }

  /** The histories the loop writes, their names: those it had and the
      loop's CS. */
  lemma {:induction false} StepAllHistoryKeys(u: Update, run: Run, cs: seq<char>)
    requires HistTracks(run) && KeysOf(cs) <= run.s.Keys
    requires StepAll(u, run, cs).Ok?
    ensures forall k :: k in StepAll(u, run, cs).value.hist <==> k in run.hist || k in KeysOf(cs)
    decreases |cs|
  {
    if |cs| > 0 {
      KeysOfCons(cs);
      var next := StepCs(u, run, cs[0]).value;
      StepAllHistoryKeys(u, next, cs[1..]);
      assert StepAll(u, run, cs).value == StepAll(u, next, cs[1..]).value;
      assert forall k :: k in next.hist <==> k in run.hist || k == [cs[0]];
    }
  }

  /** Every existing history keeps its prefix and gains one snapshot when
      its CS is among the loop's (distinct) CS. */
  lemma {:induction false} StepAllHistoryGrowth(u: Update, run: Run, cs: seq<char>)
    requires HistTracks(run) && KeysOf(cs) <= run.s.Keys && NoRepeats(cs)
    requires StepAll(u, run, cs).Ok?
    ensures forall k :: k in run.hist ==>
      && k in StepAll(u, run, cs).value.hist
      && |StepAll(u, run, cs).value.hist[k]| == |run.hist[k]| + (if k in KeysOf(cs) then 1 else 0)
      && StepAll(u, run, cs).value.hist[k][..|run.hist[k]|] == run.hist[k]
    decreases |cs|
  {
    if |cs| > 0 {
      KeysOfCons(cs);
      var c := cs[0];
      var next := StepCs(u, run, c).value;
      var tail := cs[1..];
      var r := StepAll(u, next, tail).value;
      assert StepAll(u, run, cs).value == r;
      forall k | k in run.hist
        ensures k in r.hist && |r.hist[k]| == |run.hist[k]| + (if k in KeysOf(cs) then 1 else 0) && r.hist[k][..|run.hist[k]|] == run.hist[k]
      {
        StepAllHistoryGrowth(u, next, tail);
        if k == [c] {
          var h := run.hist[k];
          assert next.hist[k] == Record(h, next.s[k]);
          assert k !in KeysOf(tail);
          assert r.hist[k] == next.hist[k] by {
            assert r.hist[k][..|next.hist[k]|] == next.hist[k];
          }
        } else {
          assert next.hist[k] == run.hist[k];
          assert k in KeysOf(cs) <==> k in KeysOf(tail);
        }
      }
    }
  }

  /** A history the loop starts holds two snapshots: the CS before the loop
      and after its update. */
  lemma {:induction false} StepAllHistoryNew(u: Update, run: Run, cs: seq<char>)
    requires HistTracks(run) && KeysOf(cs) <= run.s.Keys && NoRepeats(cs)
    requires StepAll(u, run, cs).Ok?
    ensures forall k :: k in StepAll(u, run, cs).value.hist && k !in run.hist ==>
      |StepAll(u, run, cs).value.hist[k]| == 2 && StepAll(u, run, cs).value.hist[k][0] == Copy(run.s[k])
    decreases |cs|
  {
    if |cs| > 0 {
      KeysOfCons(cs);
      var c := cs[0];
      var next := StepCs(u, run, c).value;
      var tail := cs[1..];
      var r := StepAll(u, next, tail).value;
      assert StepAll(u, run, cs).value == r;
      forall k | k in r.hist && k !in run.hist ensures |r.hist[k]| == 2 && r.hist[k][0] == Copy(run.s[k]) {
        if k == [c] {
          StepAllHistoryGrowth(u, next, tail);
          assert r.hist[k][..2] == next.hist[k];
        } else {
          StepAllHistoryNew(u, next, tail);
          assert next.s[k] == run.s[k];
        }
      }
    }
  }

  /** One trial part of `runPhase`: every character must name a stored CS
      (the aggregates are read before any step), every distinct character is
      stepped once with the same signals, and the part's λ becomes the
      previous λ. */
  function RunPart(adv: Advancer, g: Group, run: Run, part: string, plus: string, phaseLamda: Option<real>): (r: Result<Run>)
    requires HistTracks(run)
    ensures !AllPresent(run.s, part) ==> r == Err(MissingKey)
    ensures r.Ok? ==> HistTracks(r.value) && r.value.s.Keys == run.s.Keys
    ensures r.Ok? ==> r.value.prevLamda == Some(PartSignals(g.params, run.s, part, plus, phaseLamda, run.prevLamda).lamda)
  {
    if !AllPresent(run.s, part) then Err(MissingKey)
    else
      var sig := PartSignals(g.params, run.s, part, plus, phaseLamda, run.prevLamda);
      KeysOfPresent(run.s, part);
      var next :- StepAll(Stepper(adv, g, sig), run, Distinct(part));
      Ok(next.(prevLamda := Some(sig.lamda)))
  }

  /** The part's effect on the environment, in the terms of the model's
      step: each CS of the part is advanced from its state before the part
      with the part's signals, and nothing else moves. */
  lemma RunPartEffect(adv: Advancer, g: Group, run: Run, part: string, plus: string, phaseLamda: Option<real>)
    requires HistTracks(run) && AllPresent(run.s, part)
    ensures var sig := PartSignals(g.params, run.s, part, plus, phaseLamda, run.prevLamda);
      && (RunPart(adv, g, run, part, plus, phaseLamda).Ok? <==> forall k :: k in KeysOf(part) ==> adv(g, sig, run.s[k], run.s[k].assoc).Ok?)
      && (RunPart(adv, g, run, part, plus, phaseLamda).Ok? ==>
            forall k :: k in KeysOf(part) ==> Ok(RunPart(adv, g, run, part, plus, phaseLamda).value.s[k]) == adv(g, sig, run.s[k], run.s[k].assoc))
      && (RunPart(adv, g, run, part, plus, phaseLamda).Ok? ==>
            forall k :: k in run.s && k !in KeysOf(part) ==> RunPart(adv, g, run, part, plus, phaseLamda).value.s[k] == run.s[k])
  {
    var sig := PartSignals(g.params, run.s, part, plus, phaseLamda, run.prevLamda);
    var u := Stepper(adv, g, sig);
    var cs := Distinct(part);
    KeysOfPresent(run.s, part);
    StepAllSucceeds(u, run, cs);
    var r := RunPart(adv, g, run, part, plus, phaseLamda);
    assert r.Ok? <==> StepAll(u, run, cs).Ok?;
    if r.Ok? {
      StepAllResult(u, run, cs);
      StepAllFrame(u, run, cs);
      assert r.value.s == StepAll(u, run, cs).value.s;
    }
  }

  /** The histories one part writes, in the part's terms. */
  lemma RunPartHistories(adv: Advancer, g: Group, run: Run, part: string, plus: string, phaseLamda: Option<real>)
    requires HistTracks(run) && RunPart(adv, g, run, part, plus, phaseLamda).Ok?
    ensures var r := RunPart(adv, g, run, part, plus, phaseLamda).value;
      && (forall k :: k in r.hist <==> k in run.hist || k in KeysOf(part))
      && (forall k :: k in run.hist ==>
            |r.hist[k]| == |run.hist[k]| + (if k in KeysOf(part) then 1 else 0) && r.hist[k][..|run.hist[k]|] == run.hist[k])
      && (forall k :: k in r.hist && k !in run.hist ==> |r.hist[k]| == 2 && r.hist[k][0] == Copy(run.s[k]))
  {
    var sig := PartSignals(g.params, run.s, part, plus, phaseLamda, run.prevLamda);
    var cs := Distinct(part);
    KeysOfPresent(run.s, part);
    StepAllHistoryKeys(Stepper(adv, g, sig), run, cs);
    StepAllHistoryGrowth(Stepper(adv, g, sig), run, cs);
    StepAllHistoryNew(Stepper(adv, g, sig), run, cs);
    assert RunPart(adv, g, run, part, plus, phaseLamda).value.hist == StepAll(Stepper(adv, g, sig), run, cs).value.hist;
  }

  /** The number of parts of `parts` that present CS `k`. */
  function Touches(parts: seq<(string, string)>, k: string): nat {
    if |parts| == 0 then 0 else (if k in KeysOf(parts[0].0) then 1 else 0) + Touches(parts[1..], k)
  }

  /** The parts of a phase in order. */
  function RunParts(adv: Advancer, g: Group, run: Run, parts: seq<(string, string)>, phaseLamda: Option<real>): (r: Result<Run>)
    requires HistTracks(run)
    ensures r.Ok? ==> HistTracks(r.value) && r.value.s.Keys == run.s.Keys
    decreases |parts|
  {
    if |parts| == 0 then Ok(run)
    else
      var next :- RunPart(adv, g, run, parts[0].0, parts[0].1, phaseLamda);
      RunParts(adv, g, next, parts[1..], phaseLamda)
  }

  /** The snapshots a phase records, their names: a history exists for the
      CS it had one for and for every CS some part presents. */
  lemma {:induction false} RunPartsHistoryKeys(adv: Advancer, g: Group, run: Run, parts: seq<(string, string)>, phaseLamda: Option<real>, k: string)
    requires HistTracks(run) && RunParts(adv, g, run, parts, phaseLamda).Ok?
    ensures k in RunParts(adv, g, run, parts, phaseLamda).value.hist <==> k in run.hist || Touches(parts, k) > 0
    decreases |parts|
  {
    if |parts| > 0 {
      var next := RunPart(adv, g, run, parts[0].0, parts[0].1, phaseLamda).value;
      RunPartHistories(adv, g, run, parts[0].0, parts[0].1, phaseLamda);
      RunPartsHistoryKeys(adv, g, next, parts[1..], phaseLamda, k);
      assert RunParts(adv, g, run, parts, phaseLamda).value == RunParts(adv, g, next, parts[1..], phaseLamda).value;
    }
  }

  /** An existing history keeps its prefix and gains one snapshot per part
      that presents its CS. */
  lemma {:induction false} RunPartsHistoryGrowth(adv: Advancer, g: Group, run: Run, parts: seq<(string, string)>, phaseLamda: Option<real>, k: string)
    requires HistTracks(run) && RunParts(adv, g, run, parts, phaseLamda).Ok? && k in run.hist
    ensures var r := RunParts(adv, g, run, parts, phaseLamda).value;
      k in r.hist && Extends(r.hist[k], run.hist[k], Touches(parts, k))
    decreases |parts|
  {
    if |parts| > 0 {
      var next := RunPart(adv, g, run, parts[0].0, parts[0].1, phaseLamda).value;
      var r := RunParts(adv, g, next, parts[1..], phaseLamda).value;
      assert RunParts(adv, g, run, parts, phaseLamda).value == r;
      RunPartHistories(adv, g, run, parts[0].0, parts[0].1, phaseLamda);
      var m := if k in KeysOf(parts[0].0) then 1 else 0;
      assert Extends(next.hist[k], run.hist[k], m);
      RunPartsHistoryGrowth(adv, g, next, parts[1..], phaseLamda, k);
      ExtendsTransitive(r.hist[k], next.hist[k], run.hist[k], Touches(parts[1..], k), m);
    }
  }

  /** `h2` is `h1` followed by `n` more snapshots. */
  predicate Extends(h2: seq<Stimulus>, h1: seq<Stimulus>, n: nat) {
    |h2| == |h1| + n && h2[..|h1|] == h1
  }

  lemma ExtendsTransitive(h3: seq<Stimulus>, h2: seq<Stimulus>, h1: seq<Stimulus>, n: nat, m: nat)
    requires Extends(h3, h2, n) && Extends(h2, h1, m)
    ensures Extends(h3, h1, m + n)
  {
    assert h3[..|h1|] == h3[..|h2|][..|h1|];
  }

  /** A history the phase starts holds the CS as it was before its first
      presentation, then one snapshot per part that presents it. */
  lemma {:induction false} RunPartsHistoryNew(adv: Advancer, g: Group, run: Run, parts: seq<(string, string)>, phaseLamda: Option<real>, k: string)
    requires HistTracks(run) && RunParts(adv, g, run, parts, phaseLamda).Ok?
    requires k in RunParts(adv, g, run, parts, phaseLamda).value.hist && k !in run.hist
    ensures var r := RunParts(adv, g, run, parts, phaseLamda).value;
      |r.hist[k]| == 1 + Touches(parts, k) && r.hist[k][0] == Copy(run.s[k])
    decreases |parts|
  {
    if |parts| > 0 {
      var next := RunPart(adv, g, run, parts[0].0, parts[0].1, phaseLamda).value;
      var r := RunParts(adv, g, next, parts[1..], phaseLamda).value;
      assert RunParts(adv, g, run, parts, phaseLamda).value == r;
      RunPartHistories(adv, g, run, parts[0].0, parts[0].1, phaseLamda);
      if k in next.hist {
        RunPartsHistoryGrowth(adv, g, next, parts[1..], phaseLamda, k);
        assert r.hist[k][..|next.hist[k]|] == next.hist[k];
      } else {
        RunPartsHistoryNew(adv, g, next, parts[1..], phaseLamda, k);
        RunPartEffect(adv, g, run, parts[0].0, parts[0].1, phaseLamda);
        assert next.s[k] == run.s[k];
      }
    }
  }

  /** A CS no part presents keeps its stimulus. */
  lemma {:induction false} RunPartsFrame(adv: Advancer, g: Group, run: Run, parts: seq<(string, string)>, phaseLamda: Option<real>, k: string)
    requires HistTracks(run) && RunParts(adv, g, run, parts, phaseLamda).Ok?
    requires k in run.s && Touches(parts, k) == 0
    ensures RunParts(adv, g, run, parts, phaseLamda).value.s[k] == run.s[k]
    decreases |parts|
  {
    if |parts| > 0 {
      var next := RunPart(adv, g, run, parts[0].0, parts[0].1, phaseLamda).value;
      RunPartEffect(adv, g, run, parts[0].0, parts[0].1, phaseLamda);
      RunPartsFrame(adv, g, next, parts[1..], phaseLamda, k);
      assert RunParts(adv, g, run, parts, phaseLamda).value == RunParts(adv, g, next, parts[1..], phaseLamda).value;
    }
  }

  /** `Group.runPhase`: runs the parts in order from the group's environment
      and previous λ, and returns the updated group with one environment per
      recorded step. A phase that records nothing (no parts at all) fails in
      `fromHistories`. */
  function RunPhaseWith(adv: Advancer, g: Group, parts: seq<(string, string)>, phaseLamda: Option<real>): (r: Result<(Group, seq<Env>)>)
    ensures parts == [] ==> r == Err(EmptyMax)
    ensures r.Ok? ==> r.value.0.s.Keys == g.s.Keys
    ensures r.Ok? ==> r.value.0 == g.(s := r.value.0.s, prevLamda := r.value.0.prevLamda)
  {
    Finish(g, RunParts(adv, g, Run(g.s, map[], g.prevLamda), parts, phaseLamda))
  }

  /** The end of a phase: the group takes the state the parts left and the
      histories become the list of steps. */
  function Finish(g: Group, r: Result<Run>): Result<(Group, seq<Env>)>
  {
    var run :- r;
    var envs :- FromHistories(run.hist);
    Ok((g.(s := run.s, prevLamda := run.prevLamda), envs))
  }

  /** The column of CS `k` in a list of steps when `n` parts present it:
      there is at least one step, the first shows `first`, and `k` appears in
      exactly the first `n + 1` steps, none when `n` is zero. */
  predicate ColumnShape(envs: seq<Env>, k: string, n: nat, first: Stimulus) {
    && |envs| > 0
    && (n > 0 ==> k in envs[0] && envs[0][k] == first && |Column(envs, k)| == 1 + n)
    && (forall i :: 0 <= i < |envs| ==> (k in envs[i] <==> n > 0 && i <= n))
  }

  /** What the steps of a finished phase show of CS `k` when its history
      holds the snapshot before the phase and `n` more. */
  lemma FinishHistories(g: Group, r: Result<Run>, k: string, n: nat)
    requires Finish(g, r).Ok? && k in g.s
    requires r.Ok? && (k in r.value.hist <==> n > 0) && (forall c :: c in r.value.hist ==> |r.value.hist[c]| > 0)
    requires k in r.value.hist ==> |r.value.hist[k]| == 1 + n && r.value.hist[k][0] == Copy(g.s[k])
    requires n == 0 ==> k in r.value.s && r.value.s[k] == g.s[k]
    ensures ColumnShape(Finish(g, r).value.1, k, n, Copy(g.s[k]))
    ensures n == 0 ==> Finish(g, r).value.0.s[k] == g.s[k]
  {
    HistoryShape(r.value.hist, k);
  }

  /** `Group.runPhase` with the group's own step. */
  function RunPhase(g: Group, parts: seq<(string, string)>, phaseLamda: Option<real>): (r: Result<(Group, seq<Env>)>)
    ensures parts == [] ==> r == Err(EmptyMax)
    ensures r.Ok? ==> r.value.0.s.Keys == g.s.Keys
    ensures r.Ok? ==> r.value.0 == g.(s := r.value.0.s, prevLamda := r.value.0.prevLamda)
  {
    RunPhaseWith(GroupStep(), g, parts, phaseLamda)
  }

  /** The steps of a phase show only CS the group stores. */
  lemma RunPhaseShowsStored(adv: Advancer, g: Group, parts: seq<(string, string)>, phaseLamda: Option<real>, k: string)
    requires RunPhaseWith(adv, g, parts, phaseLamda).Ok? && k !in g.s
    ensures var envs := RunPhaseWith(adv, g, parts, phaseLamda).value.1;
      forall i :: 0 <= i < |envs| ==> k !in envs[i]
  {
    var start := Run(g.s, map[], g.prevLamda);
    var r := RunParts(adv, g, start, parts, phaseLamda);
    assert RunPhaseWith(adv, g, parts, phaseLamda) == Finish(g, r);
    assert k !in r.value.hist;
  }

  /** What a phase reports about CS `k`: it has a column exactly when some
      part presents it, the first step shows it as it was before the phase,
      and presented in `n` parts it appears in the first `n + 1` steps; a CS
      never presented keeps its stimulus. */
  lemma RunPhaseHistories(adv: Advancer, g: Group, parts: seq<(string, string)>, phaseLamda: Option<real>, k: string)
    requires RunPhaseWith(adv, g, parts, phaseLamda).Ok? && k in g.s
    ensures ColumnShape(RunPhaseWith(adv, g, parts, phaseLamda).value.1, k, Touches(parts, k), Copy(g.s[k]))
    ensures Touches(parts, k) == 0 ==> RunPhaseWith(adv, g, parts, phaseLamda).value.0.s[k] == g.s[k]
  {
    var start := Run(g.s, map[], g.prevLamda);
    var r := RunParts(adv, g, start, parts, phaseLamda);
    assert RunPhaseWith(adv, g, parts, phaseLamda) == Finish(g, r);
    RunPartsHistories(adv, g, start, parts, phaseLamda, k);
    FinishHistories(g, r, k, Touches(parts, k));
  }

  /** A phase that runs is its parts run from the group's state, then
      transposed. */
  lemma RunPhaseUnfold(adv: Advancer, g: Group, parts: seq<(string, string)>, phaseLamda: Option<real>)
    requires RunPhaseWith(adv, g, parts, phaseLamda).Ok?
    ensures var start := Run(g.s, map[], g.prevLamda);
      && RunParts(adv, g, start, parts, phaseLamda).Ok?
      && var run := RunParts(adv, g, start, parts, phaseLamda).value;
      && FromHistories(run.hist).Ok?
      && RunPhaseWith(adv, g, parts, phaseLamda).value == (g.(s := run.s, prevLamda := run.prevLamda), FromHistories(run.hist).value)
  {
  }


  /** From a run with no histories yet: a CS has a history exactly when
      some part presents it, holding the CS as it stood before and one
      snapshot per presentation; otherwise the CS is left alone. */
  lemma RunPartsHistories(adv: Advancer, g: Group, run: Run, parts: seq<(string, string)>, phaseLamda: Option<real>, k: string)
    requires HistTracks(run) && run.hist == map[] && k in run.s && RunParts(adv, g, run, parts, phaseLamda).Ok?
    ensures var r := RunParts(adv, g, run, parts, phaseLamda).value;
      && (k in r.hist <==> Touches(parts, k) > 0)
      && (k in r.hist ==> |r.hist[k]| == 1 + Touches(parts, k) && r.hist[k][0] == Copy(run.s[k]))
      && (Touches(parts, k) == 0 ==> r.s[k] == run.s[k])
      && (forall c :: c in r.hist ==> |r.hist[c]| > 0)
  {
    RunPartsHistoryKeys(adv, g, run, parts, phaseLamda, k);
    if k in RunParts(adv, g, run, parts, phaseLamda).value.hist {
      RunPartsHistoryNew(adv, g, run, parts, phaseLamda, k);
    } else {
      RunPartsFrame(adv, g, run, parts, phaseLamda, k);
    }
  }


  /** Every snapshot recorded for a CS carries that CS's salience. */
  predicate SnapshotsSalient(run: Run) {
    forall k :: k in run.hist ==> k in run.s && AllCarry(run.hist[k], run.s[k].salience)
  }

  predicate AllCarry(h: seq<Stimulus>, sal: Option<real>) {
    forall i :: 0 <= i < |h| ==> h[i].salience == sal
  }

  /** An update that leaves the salience alone, as every model's step does. */
  ghost predicate KeepsSalience(u: Update) {
    forall s: Stimulus, a: real :: u(s, a).Ok? ==> u(s, a).value.salience == s.salience
  }

  /** A step that leaves the salience alone. */
  ghost predicate AdvKeepsSalience(adv: Advancer) {
    forall g: Group, sig: Signals, s: Stimulus, a: real :: adv(g, sig, s, a).Ok? ==> adv(g, sig, s, a).value.salience == s.salience
  }

  /** The group's step, whatever the model, leaves the salience alone. */
  lemma GroupStepKeepsSalience()
    ensures AdvKeepsSalience(GroupStep())
  {
    forall g: Group, sig: Signals, s: Stimulus, a: real | GroupStep()(g, sig, s, a).Ok?
      ensures GroupStep()(g, sig, s, a).value.salience == s.salience
    {
      assert GroupStep()(g, sig, s, a) == Advance(g, sig, s, a);
    }
  }

  lemma StepperKeepsSalience(adv: Advancer, g: Group, sig: Signals)
    requires AdvKeepsSalience(adv)
    ensures KeepsSalience(Stepper(adv, g, sig))
  {
    forall s: Stimulus, a: real | Stepper(adv, g, sig)(s, a).Ok? ensures Stepper(adv, g, sig)(s, a).value.salience == s.salience {
      assert Stepper(adv, g, sig)(s, a) == adv(g, sig, s, a);
    }
  }

  /** One step of the loop keeps every salience. */
  lemma StepCsSalience(u: Update, run: Run, c: char)
    requires HistTracks(run) && [c] in run.s && StepCs(u, run, c).Ok?
    requires KeepsSalience(u) && SnapshotsSalient(run)
    ensures SnapshotsSalient(StepCs(u, run, c).value)
    ensures forall k :: k in run.s ==> StepCs(u, run, c).value.s[k].salience == run.s[k].salience
  {
    StepCsSnapshots(u, run, c);
  }

  /** ... and so do the snapshots. */
  lemma StepCsSnapshots(u: Update, run: Run, c: char)
    requires HistTracks(run) && [c] in run.s && StepCs(u, run, c).Ok?
    requires KeepsSalience(u) && SnapshotsSalient(run)
    ensures SnapshotsSalient(StepCs(u, run, c).value)
  {
    var next := StepCs(u, run, c).value;
    var sal := run.s[[c]].salience;
    assert next.s[[c]].salience == sal;
    var h := FirstTouch(run, c);
    assert AllCarry(h, sal);
    assert next.hist[[c]] == h + [Copy(next.s[[c]])];
    assert AllCarry(next.hist[[c]], sal);
    forall k | k in next.hist ensures k in next.s && AllCarry(next.hist[k], next.s[k].salience) {
      if k != [c] {
        assert next.hist[k] == run.hist[k] && next.s[k] == run.s[k];
      }
    }
  }

  /** The loop of a part keeps every salience, in the stimuli and in the
      snapshots it records. */
  lemma {:induction false} StepAllSalience(u: Update, run: Run, cs: seq<char>)
    requires HistTracks(run) && KeysOf(cs) <= run.s.Keys && StepAll(u, run, cs).Ok?
    requires KeepsSalience(u) && SnapshotsSalient(run)
    ensures SnapshotsSalient(StepAll(u, run, cs).value)
    ensures forall k :: k in run.s ==> StepAll(u, run, cs).value.s[k].salience == run.s[k].salience
    decreases |cs|
  {
    if |cs| > 0 {
      KeysOfCons(cs);
      var next := StepCs(u, run, cs[0]).value;
      StepCsSalience(u, run, cs[0]);
      StepAllSalience(u, next, cs[1..]);
      assert StepAll(u, run, cs).value == StepAll(u, next, cs[1..]).value;
    }
  }

  lemma {:induction false} RunPartsSalience(adv: Advancer, g: Group, run: Run, parts: seq<(string, string)>, phaseLamda: Option<real>)
    requires HistTracks(run) && RunParts(adv, g, run, parts, phaseLamda).Ok? && SnapshotsSalient(run) && AdvKeepsSalience(adv)
    ensures SnapshotsSalient(RunParts(adv, g, run, parts, phaseLamda).value)
    ensures forall k :: k in run.s ==> RunParts(adv, g, run, parts, phaseLamda).value.s[k].salience == run.s[k].salience
    decreases |parts|
  {
    if |parts| > 0 {
      var next := RunPart(adv, g, run, parts[0].0, parts[0].1, phaseLamda).value;
      RunPartSalience(adv, g, run, parts[0].0, parts[0].1, phaseLamda);
      RunPartsSalience(adv, g, next, parts[1..], phaseLamda);
      assert RunParts(adv, g, run, parts, phaseLamda).value == RunParts(adv, g, next, parts[1..], phaseLamda).value;
    }
  }

  lemma RunPartSalience(adv: Advancer, g: Group, run: Run, part: string, plus: string, phaseLamda: Option<real>)
    requires HistTracks(run) && RunPart(adv, g, run, part, plus, phaseLamda).Ok? && SnapshotsSalient(run) && AdvKeepsSalience(adv)
    ensures SnapshotsSalient(RunPart(adv, g, run, part, plus, phaseLamda).value)
    ensures forall k :: k in run.s ==> RunPart(adv, g, run, part, plus, phaseLamda).value.s[k].salience == run.s[k].salience
  {
    var sig := PartSignals(g.params, run.s, part, plus, phaseLamda, run.prevLamda);
    KeysOfPresent(run.s, part);
    StepperKeepsSalience(adv, g, sig);
    StepAllSalience(Stepper(adv, g, sig), run, Distinct(part));
    var next := RunPart(adv, g, run, part, plus, phaseLamda).value;
    assert next.s == StepAll(Stepper(adv, g, sig), run, Distinct(part)).value.s;
    assert next.hist == StepAll(Stepper(adv, g, sig), run, Distinct(part)).value.hist;
  }

  /** A phase changes no salience, and every stimulus it reports is of a
      stored one-character CS and carries that CS's salience: a group
      whose stimuli all have saliences reports environments that can be
      added and averaged. */
  lemma RunPhaseSalience(adv: Advancer, g: Group, parts: seq<(string, string)>, phaseLamda: Option<real>)
    requires RunPhaseWith(adv, g, parts, phaseLamda).Ok? && AdvKeepsSalience(adv)
    ensures forall k :: k in g.s ==> RunPhaseWith(adv, g, parts, phaseLamda).value.0.s[k].salience == g.s[k].salience
    ensures var envs := RunPhaseWith(adv, g, parts, phaseLamda).value.1;
      forall i, k :: 0 <= i < |envs| && k in envs[i] ==> k in g.s && |k| == 1 && envs[i][k].salience == g.s[k].salience
    ensures HasSaliences(g.s) ==> HasSaliences(RunPhaseWith(adv, g, parts, phaseLamda).value.0.s)
    ensures HasSaliences(g.s) ==> var envs := RunPhaseWith(adv, g, parts, phaseLamda).value.1;
      forall i :: 0 <= i < |envs| ==> WellFormed(envs[i])
  {
    var start := Run(g.s, map[], g.prevLamda);
    var run := RunParts(adv, g, start, parts, phaseLamda).value;
    RunPartsSalience(adv, g, start, parts, phaseLamda);
    var envs := FromHistories(run.hist).value;
    assert RunPhaseWith(adv, g, parts, phaseLamda).value == (g.(s := run.s, prevLamda := run.prevLamda), envs);
  }

  /** A phase reports one step more than the most-presented CS is
      presented: every CS is presented fewer times than there are steps,
      and some CS exactly one fewer. */
  lemma RunPhaseLength(adv: Advancer, g: Group, parts: seq<(string, string)>, phaseLamda: Option<real>)
    requires RunPhaseWith(adv, g, parts, phaseLamda).Ok?
    ensures var envs := RunPhaseWith(adv, g, parts, phaseLamda).value.1;
      && (forall k :: k in g.s ==> Touches(parts, k) < |envs|)
      && (exists k :: k in g.s && Touches(parts, k) > 0 && Touches(parts, k) == |envs| - 1)
  {
    var start := Run(g.s, map[], g.prevLamda);
    var r := RunParts(adv, g, start, parts, phaseLamda);
    assert RunPhaseWith(adv, g, parts, phaseLamda) == Finish(g, r);
    var n := (k: string) => Touches(parts, k);
    forall k | k in g.s ensures (k in r.value.hist <==> n(k) > 0) && (k in r.value.hist ==> |r.value.hist[k]| == 1 + n(k)) {
      RunPartsHistories(adv, g, start, parts, phaseLamda, k);
    }
    FinishLength(g, r, n);
  }

  /** A finished phase whose histories hold one snapshot more than `n`
      counts for their CS has one step more than the largest count. */
  lemma FinishLength(g: Group, r: Result<Run>, n: string -> nat)
    requires Finish(g, r).Ok? && r.Ok? && HistTracks(r.value) && r.value.s.Keys == g.s.Keys
    requires forall k :: k in g.s ==> (k in r.value.hist <==> n(k) > 0) && (k in r.value.hist ==> |r.value.hist[k]| == 1 + n(k))
    ensures var envs := Finish(g, r).value.1;
      && (forall k :: k in g.s ==> n(k) < |envs|)
      && (exists k :: k in g.s && n(k) > 0 && n(k) == |envs| - 1)
  {
    var hs := r.value.hist;
    var envs := FromHistories(hs).value;
    var k :| k in hs && |hs[k]| == |envs|;
    assert k in g.s;
  }

  /** The groups whose step cannot fail: any rule but the two that read
      the previous λ and `xi_hall`, with no window or a window of positive
      size (popping an empty window is the only other failure). */
  predicate StepsSucceed(g: Group) {
    g.model != Hall && g.model != Macknhall && (g.windowSize.None? || g.windowSize.value > 0)
  }

  /** A CS is presented in some part exactly when some part names it. */
  lemma {:induction false} TouchesSome(parts: seq<(string, string)>, k: string)
    ensures Touches(parts, k) > 0 <==> exists i :: 0 <= i < |parts| && k in KeysOf(parts[i].0)
    decreases |parts|
  {
    if |parts| > 0 {
      TouchesSome(parts[1..], k);
      if k !in KeysOf(parts[0].0) {
        forall i | 0 < i < |parts| && k in KeysOf(parts[i].0)
          ensures exists j :: 0 <= j < |parts[1..]| && k in KeysOf(parts[1..][j].0)
        {
          assert parts[1..][i - 1] == parts[i];
        }
      } else {
        assert k in KeysOf(parts[0].0);
      }
    }
  }

  /** With such a step, a part fails only on a CS that is not stored. */
  lemma RunPartSucceeds(g: Group, run: Run, part: string, plus: string, phaseLamda: Option<real>)
    requires HistTracks(run) && StepsSucceed(g) && AllPresent(run.s, part)
    ensures RunPart(GroupStep(), g, run, part, plus, phaseLamda).Ok?
  {
    var sig := PartSignals(g.params, run.s, part, plus, phaseLamda, run.prevLamda);
    var u := Stepper(GroupStep(), g, sig);
    KeysOfPresent(run.s, part);
    forall k | k in KeysOf(Distinct(part)) ensures u(run.s[k], run.s[k].assoc).Ok? {
      UpdateSucceeds(g, sig, run.s[k], run.s[k].assoc);
    }
    StepAllSucceeds(u, run, Distinct(part));
  }

  /** With such a step, a constituent's update cannot fail. */
  lemma UpdateSucceeds(g: Group, sig: Signals, s: Stimulus, prevAssoc: real)
    requires StepsSucceed(g)
    ensures Stepper(GroupStep(), g, sig)(s, prevAssoc).Ok?
  {
    assert Step(g.model, g.params, s, sig).Ok?;
  }

  /** So the parts of a phase fail only on a CS that is not stored. */
  lemma {:induction false} RunPartsSucceed(g: Group, run: Run, parts: seq<(string, string)>, phaseLamda: Option<real>)
    requires HistTracks(run) && StepsSucceed(g)
    requires forall i :: 0 <= i < |parts| ==> AllPresent(run.s, parts[i].0)
    ensures RunParts(GroupStep(), g, run, parts, phaseLamda).Ok?
    decreases |parts|
  {
    if |parts| > 0 {
      RunPartSucceeds(g, run, parts[0].0, parts[0].1, phaseLamda);
      var next := RunPart(GroupStep(), g, run, parts[0].0, parts[0].1, phaseLamda).value;
      forall i | 0 <= i < |parts[1..]| ensures AllPresent(next.s, parts[1..][i].0) {
        assert AllPresent(run.s, parts[i + 1].0);
      }
      RunPartsSucceed(g, next, parts[1..], phaseLamda);
    }
  }

  /** With such a step and every CS of the phase stored, `runPhase`
      succeeds exactly when some part presents a CS: otherwise nothing is
      recorded and `fromHistories` fails. */
  lemma RunPhaseSucceeds(g: Group, parts: seq<(string, string)>, phaseLamda: Option<real>)
    requires StepsSucceed(g)
    requires forall i :: 0 <= i < |parts| ==> AllPresent(g.s, parts[i].0)
    ensures RunPhase(g, parts, phaseLamda).Ok? <==> exists i :: 0 <= i < |parts| && parts[i].0 != []
  {
    var start := Run(g.s, map[], g.prevLamda);
    RunPartsSucceed(g, start, parts, phaseLamda);
    var run := RunParts(GroupStep(), g, start, parts, phaseLamda).value;
    assert RunPhase(g, parts, phaseLamda) == Finish(g, Ok(run));
    if exists i :: 0 <= i < |parts| && parts[i].0 != [] {
      var i :| 0 <= i < |parts| && parts[i].0 != [];
      var k := [parts[i].0[0]];
      assert k in KeysOf(parts[i].0);
      TouchesSome(parts, k);
      RunPartsHistoryKeys(GroupStep(), g, start, parts, phaseLamda, k);
      assert run.hist != map[];
    } else {
      forall k ensures k !in run.hist {
        RunPartsHistoryKeys(GroupStep(), g, start, parts, phaseLamda, k);
        TouchesSome(parts, k);
      }
      assert run.hist == map[];
    }
  }
}
