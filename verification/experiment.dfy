/** `Experiment` (Experiment.py): one group taken through the phases in
    order, randomised phases repeated over shuffled trials and averaged, and
    the per-phase report of every compound's strength. */
module Experiments {
  import opened Errors
  import opened Stimuli
  import opened Environments
  import opened Groups
  import opened Phases

  /** The orders `random.shuffle` leaves a randomised phase's trials in, one
      per repetition. The shuffle itself is not modelled: the orders are
      given, and the properties below hold for any rearrangement. */
  type Orders = seq<seq<Trial>>

  predicate Rearranges(orders: Orders, elems: seq<Trial>) {
    forall t :: 0 <= t < |orders| ==> multiset(orders[t]) == multiset(elems)
  }

  /** What the repetitions of a randomised phase leave: the group after the
      last one, the steps each one reported, and a copy of the environment
      each one ended with. */
  datatype Repeats = Repeats(g: Group, hists: seq<seq<Env>>, finals: seq<Env>)

  /** How one repetition runs the phase's trials in one order. */
  type OrderRunner = (Group, seq<Trial>, Option<real>) -> Result<(Group, seq<Env>)>

  function Once(): OrderRunner {
    (h: Group, order: seq<Trial>, lamda: Option<real>) => RunPhase(h, order, lamda)
  }

  /** A runner that touches nothing of the group but its stimuli and its
      previous λ. */
  ghost predicate OnceKeepsIdentity(run: OrderRunner) {
    forall h: Group, order: seq<Trial>, lamda: Option<real> :: run(h, order, lamda).Ok? ==>
      run(h, order, lamda).value.0 == h.(s := run(h, order, lamda).value.0.s, prevLamda := run(h, order, lamda).value.0.prevLamda)
  }

  lemma OnceIdentity()
    ensures OnceKeepsIdentity(Once())
  {
    forall h: Group, order: seq<Trial>, lamda: Option<real> | Once()(h, order, lamda).Ok?
      ensures Once()(h, order, lamda).value.0 == h.(s := Once()(h, order, lamda).value.0.s, prevLamda := Once()(h, order, lamda).value.0.prevLamda)
    {
      assert Once()(h, order, lamda) == RunPhase(h, order, lamda);
    }
  }

  /** The repetition loop of `run_group_experiments`, for any way of running
      one order: each repetition starts from a copy of `initial` (the
      previous λ is whatever the repetition before left), runs the phase in
      its order, and is recorded. */
  function RepeatWith(run: OrderRunner, g: Group, initial: Env, orders: Orders, lamda: Option<real>): (r: Result<Repeats>)
    ensures orders == [] ==> r == Ok(Repeats(g, [], []))
    ensures r.Ok? ==> |r.value.hists| == |orders| && |r.value.finals| == |orders|
    ensures r.Ok? && OnceKeepsIdentity(run) ==> r.value.g == g.(s := r.value.g.s, prevLamda := r.value.g.prevLamda)
    decreases |orders|
  {
    if |orders| == 0 then Ok(Repeats(g, [], []))
    else
      var before :- RepeatWith(run, g, initial, orders[..|orders| - 1], lamda);
      var once :- run(before.g.(s := EnvCopy(initial)), orders[|orders| - 1], lamda);
      Ok(Repeats(once.0, before.hists + [once.1], before.finals + [EnvCopy(once.0.s)]))
  }

  /** The repetitions of `run_group_experiments`, each running the phase
      once in its order. */
  function Repetitions(g: Group, initial: Env, orders: Orders, lamda: Option<real>): (r: Result<Repeats>)
    ensures orders == [] ==> r == Ok(Repeats(g, [], []))
    ensures r.Ok? ==> |r.value.hists| == |orders| && |r.value.finals| == |orders|
    ensures r.Ok? ==> r.value.g == g.(s := r.value.g.s, prevLamda := r.value.g.prevLamda)
  {
    OnceIdentity();
    RepeatWith(Once(), g, initial, orders, lamda)
  }

  /** Repetition `t` ran from a copy of `initial`, with the group the
      earlier repetitions left, and recorded what that run reported and a
      copy of the environment it ended with. */
  lemma {:induction false} RepeatAt(run: OrderRunner, g: Group, initial: Env, orders: Orders, lamda: Option<real>, t: nat)
    requires RepeatWith(run, g, initial, orders, lamda).Ok? && t < |orders|
    ensures RepeatWith(run, g, initial, orders[..t], lamda).Ok?
    ensures var gt := RepeatWith(run, g, initial, orders[..t], lamda).value.g.(s := EnvCopy(initial));
      && run(gt, orders[t], lamda).Ok?
      && RepeatWith(run, g, initial, orders, lamda).value.hists[t] == run(gt, orders[t], lamda).value.1
      && RepeatWith(run, g, initial, orders, lamda).value.finals[t] == EnvCopy(run(gt, orders[t], lamda).value.0.s)
    decreases |orders|
  {
    var n := |orders| - 1;
    var init := orders[..n];
    RepeatLast(run, g, initial, orders, lamda);
    var all := RepeatWith(run, g, initial, orders, lamda).value;
    var before := RepeatWith(run, g, initial, init, lamda).value;
    if t == n {
      assert init == orders[..t];
    } else {
      assert init[..t] == orders[..t] && init[t] == orders[t];
      RepeatAt(run, g, initial, init, lamda, t);
      assert all.hists[t] == before.hists[t] && all.finals[t] == before.finals[t];
    }
  }

  /** The last repetition runs after all the others and adds its report and
      final environment at the end. */
  lemma RepeatLast(run: OrderRunner, g: Group, initial: Env, orders: Orders, lamda: Option<real>)
    requires RepeatWith(run, g, initial, orders, lamda).Ok? && |orders| > 0
    ensures var before := RepeatWith(run, g, initial, orders[..|orders| - 1], lamda);
      && before.Ok?
      && var once := run(before.value.g.(s := EnvCopy(initial)), orders[|orders| - 1], lamda);
      && once.Ok?
      && RepeatWith(run, g, initial, orders, lamda).value.hists == before.value.hists + [once.value.1]
      && RepeatWith(run, g, initial, orders, lamda).value.finals == before.value.finals + [EnvCopy(once.value.0.s)]
  {
  }

  /** Repetition `t` of the phase, as `RepeatAt` says for any runner. */
  lemma RepetitionAt(g: Group, initial: Env, orders: Orders, lamda: Option<real>, t: nat)
    requires Repetitions(g, initial, orders, lamda).Ok? && t < |orders|
    ensures Repetitions(g, initial, orders[..t], lamda).Ok?
    ensures var gt := Repetitions(g, initial, orders[..t], lamda).value.g.(s := EnvCopy(initial));
      && RunPhase(gt, orders[t], lamda).Ok?
      && Repetitions(g, initial, orders, lamda).value.hists[t] == RunPhase(gt, orders[t], lamda).value.1
      && Repetitions(g, initial, orders, lamda).value.finals[t] == EnvCopy(RunPhase(gt, orders[t], lamda).value.0.s)
  {
    RepeatAt(Once(), g, initial, orders, lamda, t);
    var gt := Repetitions(g, initial, orders[..t], lamda).value.g.(s := EnvCopy(initial));
    assert Once()(gt, orders[t], lamda) == RunPhase(gt, orders[t], lamda);
  }

  /** `max(len(h) for h in hist)`, taken as 0 for no repetitions. */
  function MaxLen(hs: seq<seq<Env>>): (n: nat)
    ensures forall t :: 0 <= t < |hs| ==> |hs[t]| <= n
    ensures |hs| > 0 ==> exists t :: 0 <= t < |hs| && |hs[t]| == n
  {
    if |hs| == 0 then 0
    else
      var m := MaxLen(hs[..|hs| - 1]);
      assert forall t :: 0 <= t < |hs| - 1 ==> hs[..|hs| - 1][t] == hs[t];
      if |hs[|hs| - 1]| > m then |hs[|hs| - 1]| else m
  }

  /** `[h[x] for h in hist if x < len(h)]`. */
  function StepAt(hs: seq<seq<Env>>, x: nat): (r: seq<Env>)
    ensures |r| <= |hs|
    ensures (forall t :: 0 <= t < |hs| ==> x < |hs[t]|) ==> |r| == |hs| && forall t :: 0 <= t < |hs| ==> r[t] == hs[t][x]
  {
    if |hs| == 0 then []
    else
      assert forall t :: 0 <= t < |hs| - 1 ==> hs[..|hs| - 1][t] == hs[t];
      StepAt(hs[..|hs| - 1], x) + (if x < |hs[|hs| - 1]| then [hs[|hs| - 1][x]] else [])
  }

  /** The steps a list of histories reports, `StepAt` for every `x < n`. */
  function Steps(hs: seq<seq<Env>>, n: nat): (r: seq<seq<Env>>)
    ensures |r| == n && forall x :: 0 <= x < n ==> r[x] == StepAt(hs, x)
  {
    seq(n, x requires 0 <= x < n => StepAt(hs, x))
  }

  /** `[avg(step) for step in steps]`, the first failing average (in list
      order) ending the comprehension. */
  function AverageAll(steps: seq<seq<Env>>): (r: Result<seq<Env>>)
    ensures r.Ok? <==> forall x :: 0 <= x < |steps| ==> Avg(steps[x]).Ok?
    ensures r.Ok? ==> |r.value| == |steps| && forall x :: 0 <= x < |steps| ==> Avg(steps[x]) == Ok(r.value[x])
    ensures r.Err? ==> exists x :: 0 <= x < |steps| && Avg(steps[x]) == Err(r.error)
  {
    var avg := (val: seq<Env>) => Avg(val);
    assert forall x :: 0 <= x < |steps| ==> avg(steps[x]) == Avg(steps[x]);
    MapAll(avg, steps)
  }

  /** `[f(x) for x in xs]` where `f` may fail: the first failure (in list
      order) ends the comprehension. */
  function MapAll<A, B>(f: A -> Result<B>, xs: seq<A>): (r: Result<seq<B>>)
    ensures r.Ok? <==> forall x :: 0 <= x < |xs| ==> f(xs[x]).Ok?
    ensures r.Ok? ==> |r.value| == |xs| && forall x :: 0 <= x < |xs| ==> f(xs[x]) == Ok(r.value[x])
    ensures r.Err? ==> exists x :: 0 <= x < |xs| && f(xs[x]) == Err(r.error)
  {
    if |xs| == 0 then Ok([])
    else
      var n := |xs| - 1;
      assert forall x :: 0 <= x < n ==> xs[..n][x] == xs[x];
      var prev :- MapAll(f, xs[..n]);
      var a :- f(xs[n]);
      Ok(prev + [a])
  }

  /** The randomised branch of `run_group_experiments`: the repetitions,
      then every reported step averaged over the repetitions that reach it,
      and the group carries the average of the final environments. No
      repetitions at all make `max` fail. */
  function RunRandomPhase(g: Group, orders: Orders, lamda: Option<real>): (r: Result<(Group, seq<Env>)>)
    ensures orders == [] ==> r == Err(EmptyMax)
    ensures r.Ok? ==> r.value.0 == g.(s := r.value.0.s, prevLamda := r.value.0.prevLamda)
  {
    var reps :- Repetitions(g, EnvCopy(g.s), orders, lamda);
    if |reps.hists| == 0 then Err(EmptyMax)
    else
      var steps :- AverageAll(Steps(reps.hists, MaxLen(reps.hists)));
      var s :- Avg(reps.finals);
      Ok((reps.g.(s := s), steps))
  }

  /** One phase: run once in written order, or repeated over the orders. */
  function RunPhaseOf(g: Group, phase: Phase, orders: Orders): (r: Result<(Group, seq<Env>)>)
    ensures !phase.rand ==> r == RunPhase(g, phase.elems, phase.lamda)
    ensures phase.rand ==> r == RunRandomPhase(g, orders, phase.lamda)
  {
    if phase.rand then RunRandomPhase(g, orders, phase.lamda) else RunPhase(g, phase.elems, phase.lamda)
  }

  /** How one phase is run from a group. */
  type PhaseRunner = (Group, Phase, Orders) -> Result<(Group, seq<Env>)>

  function Runner(): PhaseRunner {
    (h: Group, p: Phase, o: Orders) => RunPhaseOf(h, p, o)
  }

  /** A runner that touches nothing of the group but its stimuli and its
      previous λ. */
  ghost predicate KeepsIdentity(run: PhaseRunner) {
    forall h: Group, p: Phase, o: Orders :: run(h, p, o).Ok? ==>
      run(h, p, o).value.0 == h.(s := run(h, p, o).value.0.s, prevLamda := run(h, p, o).value.0.prevLamda)
  }

  lemma RunnerKeepsIdentity()
    ensures KeepsIdentity(Runner())
  {
    forall h: Group, p: Phase, o: Orders | Runner()(h, p, o).Ok?
      ensures Runner()(h, p, o).value.0 == h.(s := Runner()(h, p, o).value.0.s, prevLamda := Runner()(h, p, o).value.0.prevLamda)
    {
      assert Runner()(h, p, o) == RunPhaseOf(h, p, o);
    }
  }

  /** The phases in list order, each starting from the group the previous
      one left; one list of steps per phase. */
  function RunEach(run: PhaseRunner, g: Group, phases: seq<Phase>, shuffles: seq<Orders>): (r: Result<(Group, seq<seq<Env>>)>)
    requires |shuffles| == |phases|
    ensures r.Ok? ==> |r.value.1| == |phases|
    ensures r.Ok? && KeepsIdentity(run) ==> r.value.0 == g.(s := r.value.0.s, prevLamda := r.value.0.prevLamda)
    decreases |phases|
  {
    if |phases| == 0 then Ok((g, []))
    else
      var n := |phases| - 1;
      var before :- RunEach(run, g, phases[..n], shuffles[..n]);
      var last :- run(before.0, phases[n], shuffles[n]);
      Ok((last.0, before.1 + [last.1]))
  }

  /** `Experiment.run_group_experiments`. `shuffles[p]` are the orders of
      phase `p` if it is random. */
  function RunGroupExperiments(g: Group, phases: seq<Phase>, shuffles: seq<Orders>): (r: Result<(Group, seq<seq<Env>>)>)
    requires |shuffles| == |phases|
    ensures r.Ok? ==> |r.value.1| == |phases|
    ensures r.Ok? ==> r.value.0 == g.(s := r.value.0.s, prevLamda := r.value.0.prevLamda)
  {
    RunnerKeepsIdentity();
    RunEach(Runner(), g, phases, shuffles)
  }

  /** Phases compose: running a list of phases and then more phases from
      where it ended is running the joined list, with the reports joined. */
  lemma {:induction false} RunEachSplit(run: PhaseRunner, g: Group, ps: seq<Phase>, qs: seq<Phase>, sp: seq<Orders>, sq: seq<Orders>)
    requires |sp| == |ps| && |sq| == |qs|
    ensures var whole := RunEach(run, g, ps + qs, sp + sq);
      var first := RunEach(run, g, ps, sp);
      && (whole.Ok? <==> first.Ok? && RunEach(run, first.value.0, qs, sq).Ok?)
      && (whole.Ok? ==> whole.value == (RunEach(run, first.value.0, qs, sq).value.0,
                                        first.value.1 + RunEach(run, first.value.0, qs, sq).value.1))
    decreases |qs|
  {
    if |qs| == 0 {
      assert ps + qs == ps && sp + sq == sp;
      var first := RunEach(run, g, ps, sp);
      if first.Ok? {
        assert first.value.1 + [] == first.value.1;
      }
    } else {
      var n := |qs| - 1;
      RunEachSplit(run, g, ps, qs[..n], sp, sq[..n]);
      assert (ps + qs)[..|ps| + n] == ps + qs[..n];
      assert (sp + sq)[..|sp| + n] == sp + sq[..n];
      assert (ps + qs)[|ps| + n] == qs[n] && (sp + sq)[|sp| + n] == sq[n];
      var first := RunEach(run, g, ps, sp);
      if first.Ok? && RunEach(run, first.value.0, qs[..n], sq[..n]).Ok? {
        var mid := RunEach(run, first.value.0, qs[..n], sq[..n]).value;
        var last := run(mid.0, qs[n], sq[n]);
        if last.Ok? {
          assert first.value.1 + mid.1 + [last.value.1] == first.value.1 + (mid.1 + [last.value.1]);
        }
      }
    }
  }

  lemma RunGroupExperimentsSplit(g: Group, ps: seq<Phase>, qs: seq<Phase>, sp: seq<Orders>, sq: seq<Orders>)
    requires |sp| == |ps| && |sq| == |qs|
    ensures var whole := RunGroupExperiments(g, ps + qs, sp + sq);
      var first := RunGroupExperiments(g, ps, sp);
      && (whole.Ok? <==> first.Ok? && RunGroupExperiments(first.value.0, qs, sq).Ok?)
      && (whole.Ok? ==> whole.value == (RunGroupExperiments(first.value.0, qs, sq).value.0,
                                        first.value.1 + RunGroupExperiments(first.value.0, qs, sq).value.1))
  {
    RunEachSplit(Runner(), g, ps, qs, sp, sq);
  }

  /** The number of parts presenting a CS does not depend on their order. */
  lemma {:induction false} TouchesRearranged(p: seq<Trial>, q: seq<Trial>, k: string)
    requires multiset(p) == multiset(q)
    ensures Touches(p, k) == Touches(q, k)
    decreases |p|
  {
    if |p| == 0 {
      assert |q| == |multiset(q)| == 0;
    } else {
      assert p[0] in multiset(q);
      var j :| 0 <= j < |q| && q[j] == p[0];
      RemoveOne(p, q, j);
      TouchesRearranged(p[1..], q[..j] + q[j + 1..], k);
      TouchesRemove(q, j, k);
    }
  }

  /** Taking the first element of `p` out of `p` and one of its copies out of
      a rearrangement `q` leaves rearrangements of each other. */
  lemma RemoveOne<T>(p: seq<T>, q: seq<T>, j: nat)
    requires multiset(p) == multiset(q) && |p| > 0 && j < |q| && q[j] == p[0]
    ensures multiset(p[1..]) == multiset(q[..j] + q[j + 1..])
  {
    assert q == q[..j] + [q[j]] + q[j + 1..];
    assert p == [p[0]] + p[1..];
    assert multiset(q) == multiset(q[..j]) + multiset{q[j]} + multiset(q[j + 1..]);
    assert multiset(q[..j] + q[j + 1..]) == multiset(q[..j]) + multiset(q[j + 1..]);
    assert multiset(p) == multiset{p[0]} + multiset(p[1..]);
    forall x ensures multiset(p[1..])[x] == multiset(q[..j] + q[j + 1..])[x] {
      assert multiset(p)[x] == multiset(q)[x];
    }
  }

  /** Taking part `j` out of `q` loses exactly its own presentation of `k`. */
  lemma TouchesRemove(q: seq<Trial>, j: nat, k: string)
    requires j < |q|
    ensures Touches(q, k) == Touches(q[..j] + q[j + 1..], k) + (if k in KeysOf(q[j].0) then 1 else 0)
  {
    var tail := q[j..];
    assert q == q[..j] + tail;
    assert tail[1..] == q[j + 1..];
    TouchesAppend(q[..j], tail, k);
    TouchesAppend(q[..j], q[j + 1..], k);
  }

  lemma {:induction false} TouchesAppend(a: seq<Trial>, b: seq<Trial>, k: string)
    ensures Touches(a + b, k) == Touches(a, k) + Touches(b, k)
    decreases |a|
  {
    if |a| > 0 {
      assert (a + b)[1..] == a[1..] + b;
      TouchesAppend(a[1..], b, k);
    } else {
      assert a + b == b;
    }
  }

  /** The CS of `keys` a phase with trials `elems` shows at step `x`: those
      presented at least `x` times (and at least once). */
  function Shown(keys: set<string>, elems: seq<Trial>, x: nat): (r: set<string>)
    ensures forall k :: k in r <==> k in keys && 0 < Touches(elems, k) && x <= Touches(elems, k)
  {
    set k | k in keys && 0 < Touches(elems, k) && x <= Touches(elems, k)
  }

  /** A phase run in any order of its trials reports one step more than the
      most any CS is presented. */
  lemma PhaseLengthAnyOrder(h: Group, parts: seq<Trial>, elems: seq<Trial>, lamda: Option<real>)
    requires RunPhase(h, parts, lamda).Ok? && multiset(parts) == multiset(elems)
    ensures var envs := RunPhase(h, parts, lamda).value.1;
      && (forall k :: k in h.s ==> Touches(elems, k) < |envs|)
      && (exists k :: k in h.s && Touches(elems, k) > 0 && Touches(elems, k) == |envs| - 1)
  {
    RunPhaseLength(GroupStep(), h, parts, lamda);
    forall k {
      TouchesRearranged(parts, elems, k);
    }
  }

  /** ... and step `x` of it holds, well formed, exactly the CS shown at `x`. */
  lemma PhaseStepsAnyOrder(h: Group, parts: seq<Trial>, elems: seq<Trial>, lamda: Option<real>)
    requires RunPhase(h, parts, lamda).Ok? && multiset(parts) == multiset(elems) && HasSaliences(h.s)
    ensures var envs := RunPhase(h, parts, lamda).value.1;
      forall x :: 0 <= x < |envs| ==> WellFormed(envs[x]) && envs[x].Keys == Shown(h.s.Keys, elems, x)
  {
    var envs := RunPhase(h, parts, lamda).value.1;
    GroupStepKeepsSalience();
    RunPhaseSalience(GroupStep(), h, parts, lamda);
    forall x | 0 <= x < |envs| ensures envs[x].Keys == Shown(h.s.Keys, elems, x) {
      forall k ensures k in envs[x] <==> k in Shown(h.s.Keys, elems, x) {
        TouchesRearranged(parts, elems, k);
        if k in h.s {
          RunPhaseHistories(GroupStep(), h, parts, lamda, k);
        }
      }
    }
  }

  /** What repetition `t` reports: as many steps as any order of the phase,
      each well formed and holding the CS shown at that step. */
  lemma RepetitionShape(g: Group, initial: Env, orders: Orders, elems: seq<Trial>, lamda: Option<real>, t: nat)
    requires Repetitions(g, initial, orders, lamda).Ok? && t < |orders|
    requires multiset(orders[t]) == multiset(elems) && HasSaliences(initial)
    ensures var h := Repetitions(g, initial, orders, lamda).value.hists[t];
      && (forall k :: k in initial ==> Touches(elems, k) < |h|)
      && (exists k :: k in initial && Touches(elems, k) > 0 && Touches(elems, k) == |h| - 1)
      && (forall x :: 0 <= x < |h| ==> WellFormed(h[x]) && h[x].Keys == Shown(initial.Keys, elems, x))
  {
    RepetitionLength(g, initial, orders, elems, lamda, t);
    RepetitionSteps(g, initial, orders, elems, lamda, t);
  }

  /** Repetition `t` reports one step more than the most any CS is presented. */
  lemma RepetitionLength(g: Group, initial: Env, orders: Orders, elems: seq<Trial>, lamda: Option<real>, t: nat)
    requires Repetitions(g, initial, orders, lamda).Ok? && t < |orders|
    requires multiset(orders[t]) == multiset(elems) && HasSaliences(initial)
    ensures var h := Repetitions(g, initial, orders, lamda).value.hists[t];
      && (forall k :: k in initial ==> Touches(elems, k) < |h|)
      && (exists k :: k in initial && Touches(elems, k) > 0 && Touches(elems, k) == |h| - 1)
  {
    RepetitionAt(g, initial, orders, lamda, t);
    var gt := Repetitions(g, initial, orders[..t], lamda).value.g.(s := EnvCopy(initial));
    assert gt.s.Keys == initial.Keys;
    PhaseLengthAnyOrder(gt, orders[t], elems, lamda);
  }

  /** Step `x` of repetition `t` is well formed and holds the CS shown at `x`. */
  lemma RepetitionSteps(g: Group, initial: Env, orders: Orders, elems: seq<Trial>, lamda: Option<real>, t: nat)
    requires Repetitions(g, initial, orders, lamda).Ok? && t < |orders|
    requires multiset(orders[t]) == multiset(elems) && HasSaliences(initial)
    ensures var h := Repetitions(g, initial, orders, lamda).value.hists[t];
      forall x :: 0 <= x < |h| ==> WellFormed(h[x]) && h[x].Keys == Shown(initial.Keys, elems, x)
  {
    RepetitionAt(g, initial, orders, lamda, t);
    var gt := Repetitions(g, initial, orders[..t], lamda).value.g.(s := EnvCopy(initial));
    assert gt.s.Keys == initial.Keys;
    assert HasSaliences(gt.s);
    PhaseStepsAnyOrder(gt, orders[t], elems, lamda);
  }

  /** Repetitions over rearrangements of the same trials all report the same
      number of steps. */
  lemma RepetitionsAgree(g: Group, initial: Env, orders: Orders, elems: seq<Trial>, lamda: Option<real>, t: nat, u: nat)
    requires Repetitions(g, initial, orders, lamda).Ok? && t < |orders| && u < |orders|
    requires Rearranges(orders, elems) && HasSaliences(initial)
    ensures var hs := Repetitions(g, initial, orders, lamda).value.hists;
      |hs[t]| == |hs[u]|
  {
    RepetitionShape(g, initial, orders, elems, lamda, t);
    RepetitionShape(g, initial, orders, elems, lamda, u);
  }

  /** Every repetition reaches the longest one. */
  lemma RepetitionsFull(g: Group, initial: Env, orders: Orders, elems: seq<Trial>, lamda: Option<real>)
    requires Repetitions(g, initial, orders, lamda).Ok? && |orders| > 0
    requires Rearranges(orders, elems) && HasSaliences(initial)
    ensures var hs := Repetitions(g, initial, orders, lamda).value.hists;
      forall t :: 0 <= t < |hs| ==> |hs[t]| == MaxLen(hs)
  {
    var hs := Repetitions(g, initial, orders, lamda).value.hists;
    var u :| 0 <= u < |hs| && |hs[u]| == MaxLen(hs);
    forall t | 0 <= t < |hs| ensures |hs[t]| == MaxLen(hs) {
      RepetitionsAgree(g, initial, orders, elems, lamda, t, u);
    }
  }

  /** Step `x` averaged over the repetitions: every repetition contributes,
      and the mean holds the CS shown at `x`. */
  lemma StepMean(g: Group, initial: Env, orders: Orders, elems: seq<Trial>, lamda: Option<real>, x: nat)
    requires Repetitions(g, initial, orders, lamda).Ok? && |orders| > 0
    requires Rearranges(orders, elems) && HasSaliences(initial)
    requires x < MaxLen(Repetitions(g, initial, orders, lamda).value.hists)
    ensures MeanAt(StepAt(Repetitions(g, initial, orders, lamda).value.hists, x), |orders|, Shown(initial.Keys, elems, x))
  {
    var hs := Repetitions(g, initial, orders, lamda).value.hists;
    RepetitionsFull(g, initial, orders, elems, lamda);
    var step := StepAt(hs, x);
    forall t | 0 <= t < |step| ensures WellFormed(step[t]) && step[t].Keys == Shown(initial.Keys, elems, x) {
      RepetitionShape(g, initial, orders, elems, lamda, t);
    }
    AvgIsMean(step, Shown(initial.Keys, elems, x));
  }

  /** `steps` averages `n` histories `hs` of a phase with trials `elems`
      over the CS `keys`: every history is as long as `steps`, which is one
      step more than the most any CS is presented; step `x` holds the CS
      shown at `x`, each field the mean of that field over the histories'
      step `x`. */
  predicate MeanSteps(steps: seq<Env>, hs: seq<seq<Env>>, n: nat, keys: set<string>, elems: seq<Trial>) {
    && |hs| == n > 0
    && (forall t :: 0 <= t < n ==> |hs[t]| == |steps|)
    && (forall k :: k in keys ==> Touches(elems, k) < |steps|)
    && (exists k :: k in keys && Touches(elems, k) > 0 && Touches(elems, k) == |steps| - 1)
    && (forall x :: 0 <= x < |steps| ==> |StepAt(hs, x)| == n && steps[x].Keys == Shown(keys, elems, x))
    && (forall x, k, f :: 0 <= x < |steps| && k in steps[x] ==>
          Get(steps[x][k], f) == ColumnSum(StepAt(hs, x), k, f) / (n as real))
  }

  /** The averaged report of a randomised phase: as many steps as a single
      run of the phase in any order; step `x` holds the CS shown at `x`, each
      field the mean over all repetitions of that field at their step `x`. */
  lemma RandomPhaseAverages(g: Group, orders: Orders, elems: seq<Trial>, lamda: Option<real>)
    requires RunRandomPhase(g, orders, lamda).Ok? && Rearranges(orders, elems) && HasSaliences(g.s)
    ensures MeanSteps(RunRandomPhase(g, orders, lamda).value.1, Repetitions(g, EnvCopy(g.s), orders, lamda).value.hists,
                      |orders|, g.s.Keys, elems)
  {
    var initial := EnvCopy(g.s);
    RandomPhaseSteps(g, orders, lamda);
    assert initial.Keys == g.s.Keys && HasSaliences(initial);
    RepetitionMeans(g, initial, orders, elems, lamda);
  }

  /** The steps of the repetitions, averaged, are their means. */
  lemma RepetitionMeans(g: Group, initial: Env, orders: Orders, elems: seq<Trial>, lamda: Option<real>)
    requires Repetitions(g, initial, orders, lamda).Ok? && |orders| > 0
    requires Rearranges(orders, elems) && HasSaliences(initial)
    ensures var hs := Repetitions(g, initial, orders, lamda).value.hists;
      && AverageAll(Steps(hs, MaxLen(hs))).Ok?
      && MeanSteps(AverageAll(Steps(hs, MaxLen(hs))).value, hs, |orders|, initial.Keys, elems)
  {
    var hs := Repetitions(g, initial, orders, lamda).value.hists;
    RepetitionLengths(g, initial, orders, elems, lamda);
    RepetitionStepMeans(g, initial, orders, elems, lamda);
    MeansOf(hs, |orders|, initial.Keys, elems);
  }

  /** Every repetition is as long as the longest, which is one step more
      than the most any CS is presented. */
  lemma RepetitionLengths(g: Group, initial: Env, orders: Orders, elems: seq<Trial>, lamda: Option<real>)
    requires Repetitions(g, initial, orders, lamda).Ok? && |orders| > 0
    requires Rearranges(orders, elems) && HasSaliences(initial)
    ensures var hs := Repetitions(g, initial, orders, lamda).value.hists;
      && (forall t :: 0 <= t < |hs| ==> |hs[t]| == MaxLen(hs))
      && (forall k :: k in initial.Keys ==> Touches(elems, k) < MaxLen(hs))
      && (exists k :: k in initial.Keys && Touches(elems, k) > 0 && Touches(elems, k) == MaxLen(hs) - 1)
  {
    RepetitionsFull(g, initial, orders, elems, lamda);
    RepetitionShape(g, initial, orders, elems, lamda, 0);
  }

  /** Every step of the repetitions averages to its mean. */
  lemma RepetitionStepMeans(g: Group, initial: Env, orders: Orders, elems: seq<Trial>, lamda: Option<real>)
    requires Repetitions(g, initial, orders, lamda).Ok? && |orders| > 0
    requires Rearranges(orders, elems) && HasSaliences(initial)
    ensures var hs := Repetitions(g, initial, orders, lamda).value.hists;
      forall x :: 0 <= x < MaxLen(hs) ==> MeanAt(StepAt(hs, x), |orders|, Shown(initial.Keys, elems, x))
  {
    var hs := Repetitions(g, initial, orders, lamda).value.hists;
    forall x | 0 <= x < MaxLen(hs) ensures MeanAt(StepAt(hs, x), |orders|, Shown(initial.Keys, elems, x)) {
      StepMean(g, initial, orders, elems, lamda, x);
    }
  }

  /** `step` holds `n` environments whose average holds exactly the CS
      `shown`, each field the mean of that field over `step`. */
  predicate MeanAt(step: seq<Env>, n: nat, shown: set<string>) {
    && |step| == n
    && Avg(step).Ok? && Avg(step).value.Keys == shown
    && forall k, f :: k in Avg(step).value ==> Get(Avg(step).value[k], f) == ColumnSum(step, k, f) / (n as real)
  }

  /** Histories of one length, each step of which averages to its mean,
      average step by step to `MeanSteps`. */
  lemma MeansOf(hs: seq<seq<Env>>, n: nat, keys: set<string>, elems: seq<Trial>)
    requires |hs| == n > 0 && forall t :: 0 <= t < n ==> |hs[t]| == MaxLen(hs)
    requires forall k :: k in keys ==> Touches(elems, k) < MaxLen(hs)
    requires exists k :: k in keys && Touches(elems, k) > 0 && Touches(elems, k) == MaxLen(hs) - 1
    requires forall x :: 0 <= x < MaxLen(hs) ==> MeanAt(StepAt(hs, x), n, Shown(keys, elems, x))
    ensures AverageAll(Steps(hs, MaxLen(hs))).Ok?
    ensures MeanSteps(AverageAll(Steps(hs, MaxLen(hs))).value, hs, n, keys, elems)
  {
    var m := MaxLen(hs);
    var steps := AverageAll(Steps(hs, m)).value;
    forall x | 0 <= x < m
      ensures |StepAt(hs, x)| == n && steps[x].Keys == Shown(keys, elems, x)
      ensures forall k, f :: k in steps[x] ==> Get(steps[x][k], f) == ColumnSum(StepAt(hs, x), k, f) / (n as real)
    {
      assert MeanAt(StepAt(hs, x), n, Shown(keys, elems, x));
      assert Avg(Steps(hs, m)[x]) == Ok(steps[x]);
    }
  }

  /** How the averaged steps come out of the repetitions. */
  lemma RandomPhaseSteps(g: Group, orders: Orders, lamda: Option<real>)
    requires RunRandomPhase(g, orders, lamda).Ok?
    ensures var hs := Repetitions(g, EnvCopy(g.s), orders, lamda).value.hists;
      var steps := RunRandomPhase(g, orders, lamda).value.1;
      && Repetitions(g, EnvCopy(g.s), orders, lamda).Ok? && |hs| == |orders| > 0
      && AverageAll(Steps(hs, MaxLen(hs))).Ok? && steps == AverageAll(Steps(hs, MaxLen(hs))).value && |steps| == MaxLen(hs)
  {
  }

  /** The environment repetition `t` ends with is well formed over the CS
      the phase started with. */
  lemma FinalShape(g: Group, initial: Env, orders: Orders, lamda: Option<real>, t: nat)
    requires Repetitions(g, initial, orders, lamda).Ok? && t < |orders| && WellFormed(initial)
    ensures var e := Repetitions(g, initial, orders, lamda).value.finals[t];
      WellFormed(e) && e.Keys == initial.Keys
  {
    RepetitionAt(g, initial, orders, lamda, t);
    var gt := Repetitions(g, initial, orders[..t], lamda).value.g.(s := EnvCopy(initial));
    assert HasSaliences(gt.s);
    GroupStepKeepsSalience();
    RunPhaseSalience(GroupStep(), gt, orders[t], lamda);
  }

  /** The final environments averaged: same CS as before the phase, every
      field the mean over the repetitions of where each left it. */
  lemma FinalsMean(g: Group, initial: Env, orders: Orders, lamda: Option<real>)
    requires Repetitions(g, initial, orders, lamda).Ok? && |orders| > 0 && WellFormed(initial)
    ensures var finals := Repetitions(g, initial, orders, lamda).value.finals;
      && Avg(finals).Ok? && Avg(finals).value.Keys == initial.Keys
      && forall k, f :: k in initial ==> Get(Avg(finals).value[k], f) == ColumnSum(finals, k, f) / (|orders| as real)
  {
    var finals := Repetitions(g, initial, orders, lamda).value.finals;
    forall t | 0 <= t < |finals| ensures WellFormed(finals[t]) && finals[t].Keys == initial.Keys {
      FinalShape(g, initial, orders, lamda, t);
    }
    AvgIsMean(finals, initial.Keys);
  }

  /** After a randomised phase the group holds the mean of the environments
      the repetitions ended with, over the same CS. */
  lemma RandomPhaseCarries(g: Group, orders: Orders, lamda: Option<real>)
    requires RunRandomPhase(g, orders, lamda).Ok? && WellFormed(g.s)
    ensures var s := RunRandomPhase(g, orders, lamda).value.0.s;
      var finals := Repetitions(g, EnvCopy(g.s), orders, lamda).value.finals;
      && |finals| == |orders| > 0
      && s.Keys == g.s.Keys
      && forall k, f :: k in g.s ==> Get(s[k], f) == ColumnSum(finals, k, f) / (|orders| as real)
  {
    var initial := EnvCopy(g.s);
    var reps := Repetitions(g, initial, orders, lamda).value;
    assert RunRandomPhase(g, orders, lamda).value.0.s == Avg(reps.finals).value;
    FinalsMean(g, initial, orders, lamda);
  }

  /** With well-formed stimuli and every order a rearrangement of the
      phase's trials, the averaging cannot fail: a randomised phase fails
      exactly when one of its repetitions does. */
  lemma RandomPhaseSucceeds(g: Group, orders: Orders, elems: seq<Trial>, lamda: Option<real>)
    requires |orders| > 0 && Rearranges(orders, elems) && WellFormed(g.s)
    ensures RunRandomPhase(g, orders, lamda).Ok? <==> Repetitions(g, EnvCopy(g.s), orders, lamda).Ok?
  {
    var initial := EnvCopy(g.s);
    if Repetitions(g, initial, orders, lamda).Ok? {
      var reps := Repetitions(g, initial, orders, lamda).value;
      var n := MaxLen(reps.hists);
      forall x | 0 <= x < n ensures Avg(Steps(reps.hists, n)[x]).Ok? {
        StepMean(g, initial, orders, elems, lamda, x);
      }
      assert AverageAll(Steps(reps.hists, n)).Ok?;
      FinalsMean(g, initial, orders, lamda);
      assert |reps.hists| > 0;
    }
  }

  /** One repetition runs the phase once from a copy of `initial`. */
  lemma RepetitionsOfOne(g: Group, initial: Env, order: seq<Trial>, lamda: Option<real>)
    ensures var once := RunPhase(g.(s := EnvCopy(initial)), order, lamda);
      && (Repetitions(g, initial, [order], lamda).Ok? <==> once.Ok?)
      && (once.Ok? ==> Repetitions(g, initial, [order], lamda).value == Repeats(once.value.0, [once.value.1], [EnvCopy(once.value.0.s)]))
  {
    assert [order][..0] == [];
  }

  /** Averaging the steps of a single history copies them. */
  lemma AverageOfOne(envs: seq<Env>)
    requires forall x :: 0 <= x < |envs| ==> HasSaliences(envs[x])
    ensures MaxLen([envs]) == |envs|
    ensures AverageAll(Steps([envs], |envs|)).Ok?
    ensures var steps := AverageAll(Steps([envs], |envs|)).value;
      |steps| == |envs| && forall x :: 0 <= x < |envs| ==> steps[x] == EnvCopy(envs[x])
  {
    assert [envs][..0] == [];
    var steps := Steps([envs], |envs|);
    forall x | 0 <= x < |steps| ensures Avg(steps[x]) == Ok(EnvCopy(envs[x])) {
      assert steps[x] == [envs[x]];
      AvgOfOne(envs[x]);
    }
  }

  /** A randomised phase repeated once is the plain phase run from a copy of
      the stimuli, its report and its final stimuli copied again. */
  lemma RandomPhaseOfOne(g: Group, order: seq<Trial>, lamda: Option<real>)
    requires HasSaliences(g.s)
    ensures var once := RunPhase(g.(s := EnvCopy(EnvCopy(g.s))), order, lamda);
      var r := RunRandomPhase(g, [order], lamda);
      && (r.Ok? <==> once.Ok?)
      && (r.Ok? ==> (r.value.0 == once.value.0.(s := EnvCopy(EnvCopy(once.value.0.s)))
                     && |r.value.1| == |once.value.1|
                     && forall x :: 0 <= x < |r.value.1| ==> r.value.1[x] == EnvCopy(once.value.1[x])))
  {
    var once := RunPhase(g.(s := EnvCopy(EnvCopy(g.s))), order, lamda);
    RepetitionsOfOne(g, EnvCopy(g.s), order, lamda);
    if once.Ok? {
      RandomPhaseOfOneRuns(g, order, lamda);
    }
  }

  /** ... when the phase runs, the randomised phase runs too and averages
      the single repetition to copies of it. */
  lemma RandomPhaseOfOneRuns(g: Group, order: seq<Trial>, lamda: Option<real>)
    requires HasSaliences(g.s) && RunPhase(g.(s := EnvCopy(EnvCopy(g.s))), order, lamda).Ok?
    ensures var once := RunPhase(g.(s := EnvCopy(EnvCopy(g.s))), order, lamda).value;
      var r := RunRandomPhase(g, [order], lamda);
      && r.Ok?
      && r.value.0 == once.0.(s := EnvCopy(EnvCopy(once.0.s)))
      && |r.value.1| == |once.1|
      && forall x :: 0 <= x < |r.value.1| ==> r.value.1[x] == EnvCopy(once.1[x])
  {
    var h := g.(s := EnvCopy(EnvCopy(g.s)));
    var once := RunPhase(h, order, lamda);
    RepetitionsOfOne(g, EnvCopy(g.s), order, lamda);
    var envs := once.value.1;
    var last := once.value.0;
    var reps := Repetitions(g, EnvCopy(g.s), [order], lamda).value;
    assert reps.hists == [envs] && reps.finals == [EnvCopy(last.s)] && reps.g == last;
    assert HasSaliences(h.s);
    GroupStepKeepsSalience();
    RunPhaseSalience(GroupStep(), h, order, lamda);
    AverageOfOne(envs);
    AvgOfOne(EnvCopy(last.s));
    RandomPhaseFrom(g, [order], lamda);
  }

  /** A randomised phase whose repetitions run and average is the group the
      last repetition left, holding the average of the final stimuli, and
      the averaged steps. */
  lemma RandomPhaseFrom(g: Group, orders: Orders, lamda: Option<real>)
    requires Repetitions(g, EnvCopy(g.s), orders, lamda).Ok? && |orders| > 0
    requires var reps := Repetitions(g, EnvCopy(g.s), orders, lamda).value;
      AverageAll(Steps(reps.hists, MaxLen(reps.hists))).Ok? && Avg(reps.finals).Ok?
    ensures var reps := Repetitions(g, EnvCopy(g.s), orders, lamda).value;
      RunRandomPhase(g, orders, lamda)
        == Ok((reps.g.(s := Avg(reps.finals).value), AverageAll(Steps(reps.hists, MaxLen(reps.hists))).value))
  {
  }
}
