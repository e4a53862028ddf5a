/** `Experiment.group_results`: the per-phase report that turns every
    phase's steps into one series of snapshots per compound name. */
module Reports {
  import opened Errors
  import opened Stimuli
  import opened Environments
  import opened Ordering
  import opened Groups
  import opened Phases

  /** `dict[str, StimulusHistory]`: one series of snapshots per name. */
  type Report = map<string, seq<Stimulus>>

  /** How the report reads compound `cs` out of one step: a strength to
      record, nothing to record, or an error that ends the report. */
  type Picker = (Env, string) -> Result<Option<Stimulus>>

  /** `strengths[cs]`: the compound's strength, failing when a constituent
      is not in the step. */
  function StrictPick(e: Env, cs: string): (r: Result<Option<Stimulus>>)
    ensures r.Ok? <==> Lookup(e, cs).Ok?
    ensures r.Ok? ==> r.value == Some(Lookup(e, cs).value)
    ensures r.Err? ==> r.error == Lookup(e, cs).error
  {
    var v :- Lookup(e, cs);
    Ok(Some(v))
  }

  /** The same, except that a step not holding every constituent of `cs`
      adds nothing to its series. */
  function LenientPick(e: Env, cs: string): (r: Result<Option<Stimulus>>)
    ensures !AllPresent(e, cs) ==> r == Ok(None)
    ensures AllPresent(e, cs) ==> r == StrictPick(e, cs)
    ensures r.Err? ==> AllPresent(e, cs) && r.error == Lookup(e, cs).error
  {
    if AllPresent(e, cs) then StrictPick(e, cs) else Ok(None)
  }

  function Strict(): Picker {
    (e: Env, cs: string) => StrictPick(e, cs)
  }

  function Lenient(): Picker {
    (e: Env, cs: string) => LenientPick(e, cs)
  }

  /** `f'{self.name} - {cs}'`. */
  function SeriesName(name: string, cs: string): string {
    name + " - " + cs
  }

  lemma SeriesNameInjective(name: string, a: string, b: string)
    ensures SeriesName(name, a) == SeriesName(name, b) <==> a == b
  {
    if SeriesName(name, a) == SeriesName(name, b) {
      assert a == SeriesName(name, a)[|name| + 3..];
      assert b == SeriesName(name, b)[|name| + 3..];
    }
  }

  /** The series under `key`, empty before the first snapshot is added. */
  function Existing(acc: Report, key: string): seq<Stimulus> {
    if key in acc then acc[key] else []
  }

  /** `group_strengths[key].add(s)` on the default dict: a copy of `s` goes
      at the end of the series under `key`, created empty if need be. */
  function Append(acc: Report, key: string, s: Stimulus): (r: Report)
    ensures r.Keys == acc.Keys + {key}
    ensures Existing(r, key) == Existing(acc, key) + [Copy(s)]
    ensures forall k :: k != key ==> Existing(r, k) == Existing(acc, k)
  {
    acc[key := Existing(acc, key) + [Copy(s)]]
  }

  /** The inner loop for one step: every compound name of the phase, in
      order, the first error ending it. */
  function AddStep(pick: Picker, name: string, env: Env, css: seq<string>, acc: Report): (r: Result<Report>)
    ensures r.Ok? <==> forall i :: 0 <= i < |css| ==> pick(env, css[i]).Ok?
    ensures r.Err? ==> exists i :: 0 <= i < |css| && pick(env, css[i]) == Err(r.error)
    decreases |css|
  {
    if |css| == 0 then Ok(acc)
    else
      var got :- pick(env, css[0]);
      var next := if got.Some? then Append(acc, SeriesName(name, css[0]), got.value) else acc;
      var r := AddStep(pick, name, env, css[1..], next);
      assert forall i :: 1 <= i < |css| ==> css[1..][i - 1] == css[i];
      r
  }

  /** What one step adds to the series of `cs`: one copied snapshot when the
      pick yields one. */
  function Contribution(pick: Picker, env: Env, cs: string): seq<Stimulus>
    requires pick(env, cs).Ok?
  {
    if pick(env, cs).value.Some? then [Copy(pick(env, cs).value.value)] else []
  }

  predicate Distinct(css: seq<string>) {
    forall i, j :: 0 <= i < j < |css| ==> css[i] != css[j]
  }

  /** One step grows the series of every listed name by what the step
      holds for it, and leaves every other series alone. */
  lemma {:induction false} AddStepAt(pick: Picker, name: string, env: Env, css: seq<string>, acc: Report, cs: string)
    requires AddStep(pick, name, env, css, acc).Ok? && Distinct(css)
    ensures var r := AddStep(pick, name, env, css, acc).value;
      && (cs in css ==> Existing(r, SeriesName(name, cs)) == Existing(acc, SeriesName(name, cs)) + Contribution(pick, env, cs))
      && (cs !in css ==> Existing(r, SeriesName(name, cs)) == Existing(acc, SeriesName(name, cs)))
    decreases |css|
  {
    if |css| > 0 {
      var got := pick(env, css[0]).value;
      var next := if got.Some? then Append(acc, SeriesName(name, css[0]), got.value) else acc;
      assert AddStep(pick, name, env, css, acc) == AddStep(pick, name, env, css[1..], next);
      assert Distinct(css[1..]);
      AddStepAt(pick, name, env, css[1..], next, cs);
      SeriesNameInjective(name, cs, css[0]);
      assert cs in css <==> cs == css[0] || cs in css[1..];
      if cs == css[0] {
        assert cs !in css[1..];
      }
    }
  }

  /** The names one step reports under: the ones it had, and those of the
      listed compounds the step yields a snapshot for. */
  lemma {:induction false} AddStepKeys(pick: Picker, name: string, env: Env, css: seq<string>, acc: Report, key: string)
    requires AddStep(pick, name, env, css, acc).Ok?
    ensures key in AddStep(pick, name, env, css, acc).value <==>
      key in acc || exists i :: 0 <= i < |css| && key == SeriesName(name, css[i]) && pick(env, css[i]).value.Some?
    decreases |css|
  {
    if |css| > 0 {
      var got := pick(env, css[0]).value;
      var next := if got.Some? then Append(acc, SeriesName(name, css[0]), got.value) else acc;
      assert AddStep(pick, name, env, css, acc) == AddStep(pick, name, env, css[1..], next);
      AddStepKeys(pick, name, env, css[1..], next, key);
      assert forall i :: 1 <= i < |css| ==> css[1..][i - 1] == css[i];
      if exists i :: 1 <= i < |css| && key == SeriesName(name, css[i]) && pick(env, css[i]).value.Some? {
        var i :| 1 <= i < |css| && key == SeriesName(name, css[i]) && pick(env, css[i]).value.Some?;
        assert css[1..][i - 1] == css[i];
      }
    }
  }

  /** The loop over one phase's steps, each step adding to the report the
      earlier ones built. */
  function PhaseSeries(pick: Picker, name: string, envs: seq<Env>, css: seq<string>, acc: Report): (r: Result<Report>)
    ensures r.Ok? <==> forall x, i :: 0 <= x < |envs| && 0 <= i < |css| ==> pick(envs[x], css[i]).Ok?
    decreases |envs|
  {
    if |envs| == 0 then Ok(acc)
    else
      var n := |envs| - 1;
      assert forall x :: 0 <= x < n ==> envs[..n][x] == envs[x];
      var before :- PhaseSeries(pick, name, envs[..n], css, acc);
      AddStep(pick, name, envs[n], css, before)
  }

  /** The whole series of `cs` over a phase's steps, the reference the
      report is checked against. */
  function Trace(pick: Picker, envs: seq<Env>, cs: string): seq<Stimulus>
    requires forall x :: 0 <= x < |envs| ==> pick(envs[x], cs).Ok?
  {
    if |envs| == 0 then []
    else Trace(pick, envs[..|envs| - 1], cs) + Contribution(pick, envs[|envs| - 1], cs)
  }

  /** Each listed compound's series in the phase report is its trace. */
  lemma {:induction false} PhaseSeriesAt(pick: Picker, name: string, envs: seq<Env>, css: seq<string>, acc: Report, cs: string)
    requires PhaseSeries(pick, name, envs, css, acc).Ok? && Distinct(css) && cs in css
    ensures forall x :: 0 <= x < |envs| ==> pick(envs[x], cs).Ok?
    ensures Existing(PhaseSeries(pick, name, envs, css, acc).value, SeriesName(name, cs)) == Existing(acc, SeriesName(name, cs)) + Trace(pick, envs, cs)
    decreases |envs|
  {
    if |envs| > 0 {
      var n := |envs| - 1;
      var before := PhaseSeries(pick, name, envs[..n], css, acc).value;
      assert PhaseSeries(pick, name, envs, css, acc) == AddStep(pick, name, envs[n], css, before);
      PhaseSeriesAt(pick, name, envs[..n], css, acc, cs);
      AddStepAt(pick, name, envs[n], css, before, cs);
      TraceLast(pick, envs, cs);
      Regroup(Existing(acc, SeriesName(name, cs)), Trace(pick, envs[..n], cs), Contribution(pick, envs[n], cs));
    }
  }

  /** The trace of a phase is the trace of all steps but the last, followed
      by the last step's contribution. */
  lemma TraceLast(pick: Picker, envs: seq<Env>, cs: string)
    requires |envs| > 0 && forall x :: 0 <= x < |envs| ==> pick(envs[x], cs).Ok?
    ensures forall x :: 0 <= x < |envs| - 1 ==> envs[..|envs| - 1][x] == envs[x]
    ensures Trace(pick, envs, cs) == Trace(pick, envs[..|envs| - 1], cs) + Contribution(pick, envs[|envs| - 1], cs)
  {
  }

  lemma Regroup<T>(a: seq<T>, b: seq<T>, c: seq<T>)
    ensures a + b + c == a + (b + c)
  {
  }

  /** The names a phase report holds: the ones it started with, and those
      of the listed compounds some step yields a snapshot for. */
  lemma {:induction false} PhaseSeriesKeys(pick: Picker, name: string, envs: seq<Env>, css: seq<string>, acc: Report, key: string)
    requires PhaseSeries(pick, name, envs, css, acc).Ok?
    ensures key in PhaseSeries(pick, name, envs, css, acc).value <==>
      key in acc || exists x, i :: 0 <= x < |envs| && 0 <= i < |css| && key == SeriesName(name, css[i]) && pick(envs[x], css[i]).value.Some?
    decreases |envs|
  {
    if |envs| > 0 {
      var n := |envs| - 1;
      var before := PhaseSeries(pick, name, envs[..n], css, acc).value;
      assert PhaseSeries(pick, name, envs, css, acc) == AddStep(pick, name, envs[n], css, before);
      PhaseSeriesKeys(pick, name, envs[..n], css, acc, key);
      AddStepKeys(pick, name, envs[n], css, before, key);
      assert forall x :: 0 <= x < n ==> envs[..n][x] == envs[x];
      if exists x, i :: 0 <= x < |envs| && 0 <= i < |css| && key == SeriesName(name, css[i]) && pick(envs[x], css[i]).value.Some? {
        var x, i :| 0 <= x < |envs| && 0 <= i < |css| && key == SeriesName(name, css[i]) && pick(envs[x], css[i]).value.Some?;
        if x < n {
          assert envs[..n][x] == envs[x];
        }
      }
    }
  }

  /** A phase report is the report of all steps but the last, with the
      last step added. */
  lemma PhaseSeriesLast(pick: Picker, name: string, envs: seq<Env>, css: seq<string>, acc: Report)
    requires |envs| > 0
    ensures PhaseSeries(pick, name, envs, css, acc) ==
      match PhaseSeries(pick, name, envs[..|envs| - 1], css, acc)
      case Err(e) => Err(e)
      case Ok(before) => AddStep(pick, name, envs[|envs| - 1], css, before)
  {
  }

  /** Two pickers that read every listed name of every step alike. */
  ghost predicate PicksAgree(p1: Picker, p2: Picker, envs: seq<Env>, css: seq<string>) {
    forall x, i :: 0 <= x < |envs| && 0 <= i < |css| ==> p1(envs[x], css[i]) == p2(envs[x], css[i])
  }

  lemma PicksAgreePrefix(p1: Picker, p2: Picker, envs: seq<Env>, css: seq<string>, n: nat)
    requires PicksAgree(p1, p2, envs, css) && n < |envs|
    ensures PicksAgree(p1, p2, envs[..n], css)
    ensures forall i :: 0 <= i < |css| ==> p1(envs[n], css[i]) == p2(envs[n], css[i])
  {
    forall x, i | 0 <= x < n && 0 <= i < |css| ensures p1(envs[..n][x], css[i]) == p2(envs[..n][x], css[i]) {
      assert envs[..n][x] == envs[x];
    }
  }

  /** The report of a phase depends on nothing but what the picker reads. */
  lemma {:induction false} AddStepAgree(p1: Picker, p2: Picker, name: string, env: Env, css: seq<string>, acc: Report)
    requires forall i :: 0 <= i < |css| ==> p1(env, css[i]) == p2(env, css[i])
    ensures AddStep(p1, name, env, css, acc) == AddStep(p2, name, env, css, acc)
    decreases |css|
  {
    if |css| > 0 && p1(env, css[0]).Ok? {
      var got := p1(env, css[0]).value;
      var next := if got.Some? then Append(acc, SeriesName(name, css[0]), got.value) else acc;
      assert forall i :: 0 <= i < |css| - 1 ==> css[1..][i] == css[i + 1];
      AddStepAgree(p1, p2, name, env, css[1..], next);
    }
  }

  lemma {:induction false} PhaseSeriesAgree(p1: Picker, p2: Picker, name: string, envs: seq<Env>, css: seq<string>, acc: Report)
    requires PicksAgree(p1, p2, envs, css)
    ensures PhaseSeries(p1, name, envs, css, acc) == PhaseSeries(p2, name, envs, css, acc)
    decreases |envs|
  {
    if |envs| > 0 {
      var n := |envs| - 1;
      PicksAgreePrefix(p1, p2, envs, css, n);
      PhaseSeriesAgree(p1, p2, name, envs[..n], css, acc);
      var before := PhaseSeries(p1, name, envs[..n], css, acc);
      PhaseSeriesLast(p1, name, envs, css, acc);
      PhaseSeriesLast(p2, name, envs, css, acc);
      if before.Ok? {
        AddStepAgree(p1, p2, name, envs[n], css, before.value);
      }
    }
  }

  /** The compound names of every phase, in the order the report visits
      them. */
  function PhaseNames(phases: seq<Phase>, listCs: Splitter): (r: seq<seq<string>>)
    ensures |r| == |phases|
    ensures forall p :: 0 <= p < |phases| ==> r[p] == CompoundCs(phases[p], listCs)
  {
    seq(|phases|, p requires 0 <= p < |phases| => CompoundCs(phases[p], listCs))
  }

  /** One report per phase, the first error ending the loop. */
  function ReportAll(pick: Picker, name: string, results: seq<seq<Env>>, names: seq<seq<string>>): (r: Result<seq<Report>>)
    requires |results| == |names|
    ensures r.Ok? <==> forall p :: 0 <= p < |results| ==> PhaseSeries(pick, name, results[p], names[p], map[]).Ok?
    ensures r.Ok? ==> |r.value| == |results|
    ensures r.Ok? ==> forall p :: 0 <= p < |results| ==> r.value[p] == PhaseSeries(pick, name, results[p], names[p], map[]).value
    decreases |results|
  {
    if |results| == 0 then Ok([])
    else
      var n := |results| - 1;
      assert forall p :: 0 <= p < n ==> results[..n][p] == results[p] && names[..n][p] == names[p];
      var before :- ReportAll(pick, name, results[..n], names[..n]);
      var last :- PhaseSeries(pick, name, results[n], names[n], map[]);
      Ok(before + [last])
  }

  /** `Experiment.group_results`: for every phase and every step, each of
      the phase's compound names in order. */
  function GroupResults(pick: Picker, name: string, phases: seq<Phase>, results: seq<seq<Env>>, listCs: Splitter): (r: Result<seq<Report>>)
    requires |results| == |phases|
  {
    ReportAll(pick, name, results, PhaseNames(phases, listCs))
  }

  /** The report as the source writes it. */
  function GroupResultsAsWritten(name: string, phases: seq<Phase>, results: seq<seq<Env>>, listCs: Splitter): (r: Result<seq<Report>>)
    requires |results| == |phases|
    ensures r == GroupResults(Strict(), name, phases, results, listCs)
  {
    GroupResults(Strict(), name, phases, results, listCs)
  }

  /** The report with absent compounds skipped. */
  function GroupResultsCorrected(name: string, phases: seq<Phase>, results: seq<seq<Env>>, listCs: Splitter): (r: Result<seq<Report>>)
    requires |results| == |phases|
    ensures r == GroupResults(Lenient(), name, phases, results, listCs)
  {
    GroupResults(Lenient(), name, phases, results, listCs)
  }

  /** Two pickers whose reports of every phase agree. */
  ghost predicate PhasesAgree(p1: Picker, p2: Picker, name: string, results: seq<seq<Env>>, names: seq<seq<string>>)
    requires |results| == |names|
  {
    forall p :: 0 <= p < |results| ==> PhaseSeries(p1, name, results[p], names[p], map[]) == PhaseSeries(p2, name, results[p], names[p], map[])
  }

  lemma PhasesAgreePrefix(p1: Picker, p2: Picker, name: string, results: seq<seq<Env>>, names: seq<seq<string>>, n: nat)
    requires |results| == |names| && n < |results| && PhasesAgree(p1, p2, name, results, names)
    ensures PhasesAgree(p1, p2, name, results[..n], names[..n])
    ensures PhaseSeries(p1, name, results[n], names[n], map[]) == PhaseSeries(p2, name, results[n], names[n], map[])
  {
    assert forall p :: 0 <= p < n ==> results[..n][p] == results[p] && names[..n][p] == names[p];
  }

  /** Reports of phases that agree one by one agree. */
  lemma {:induction false} ReportAllAgree(p1: Picker, p2: Picker, name: string, results: seq<seq<Env>>, names: seq<seq<string>>)
    requires |results| == |names|
    requires PhasesAgree(p1, p2, name, results, names)
    ensures ReportAll(p1, name, results, names) == ReportAll(p2, name, results, names)
    decreases |results|
  {
    if |results| > 0 {
      var n := |results| - 1;
      PhasesAgreePrefix(p1, p2, name, results, names, n);
      ReportAllAgree(p1, p2, name, results[..n], names[..n]);
      ReportAllLast(p1, name, results, names);
      ReportAllLast(p2, name, results, names);
    }
  }

  /** The reports of all phases are those of all phases but the last, then
      the last phase's report. */
  lemma ReportAllLast(pick: Picker, name: string, results: seq<seq<Env>>, names: seq<seq<string>>)
    requires |results| == |names| > 0
    ensures var n := |results| - 1;
      ReportAll(pick, name, results, names) ==
        match ReportAll(pick, name, results[..n], names[..n])
        case Err(e) => Err(e)
        case Ok(before) =>
          match PhaseSeries(pick, name, results[n], names[n], map[])
          case Err(e) => Err(e)
          case Ok(last) => Ok(before + [last])
  {
  }

  /** Where the source reads every name of a phase successfully, the
      corrected reading agrees. */
  lemma StrictAgreesLenient(name: string, envs: seq<Env>, css: seq<string>)
    requires PhaseSeries(Strict(), name, envs, css, map[]).Ok?
    ensures PhaseSeries(Lenient(), name, envs, css, map[]) == PhaseSeries(Strict(), name, envs, css, map[])
  {
    forall x, i | 0 <= x < |envs| && 0 <= i < |css|
      ensures Strict()(envs[x], css[i]) == Lenient()(envs[x], css[i])
    {
      assert Strict()(envs[x], css[i]).Ok?;
      assert StrictPick(envs[x], css[i]).Ok?;
    }
    PhaseSeriesAgree(Strict(), Lenient(), name, envs, css, map[]);
  }

  /** Where the source's report succeeds, skipping absent compounds changes
      nothing. */
  lemma CorrectionKeepsReports(name: string, phases: seq<Phase>, results: seq<seq<Env>>, listCs: Splitter)
    requires |results| == |phases| && GroupResultsAsWritten(name, phases, results, listCs).Ok?
    ensures GroupResultsCorrected(name, phases, results, listCs) == GroupResultsAsWritten(name, phases, results, listCs)
  {
    var names := PhaseNames(phases, listCs);
    forall p | 0 <= p < |phases|
      ensures PhaseSeries(Lenient(), name, results[p], names[p], map[]) == PhaseSeries(Strict(), name, results[p], names[p], map[])
    {
      StrictAgreesLenient(name, results[p], names[p]);
    }
    ReportAllAgree(Lenient(), Strict(), name, results, names);
  }

  /** A phase that presents one CS fewer times than another leaves it out
      of its last steps, and the source's report then fails on any compound
      name holding it. */
  lemma UnevenPhaseFails(g: Group, p: Phase, lamda: Option<real>, listCs: Splitter, name: string, i: nat, m: nat, j: string)
    requires RunPhase(g, p.elems, lamda).Ok?
    requires i < |p.elems| && m < |p.elems[i].0|
    requires j in g.s && Touches(p.elems, [p.elems[i].0[m]]) < Touches(p.elems, j)
    ensures GroupResultsAsWritten(name, [p], [RunPhase(g, p.elems, lamda).value.1], listCs).Err?
  {
    var envs := RunPhase(g, p.elems, lamda).value.1;
    var c := p.elems[i].0;
    LastStepLacks(g, p.elems, lamda, [c[m]], j);
    assert !AllPresent(envs[|envs| - 1], c);
    AbsentFails(name, p, envs, listCs, c);
  }

  /** The last step holds only the stimuli presented the most. */
  lemma LastStepLacks(g: Group, parts: seq<(string, string)>, lamda: Option<real>, k: string, j: string)
    requires RunPhase(g, parts, lamda).Ok?
    requires j in g.s && Touches(parts, k) < Touches(parts, j)
    ensures var envs := RunPhase(g, parts, lamda).value.1;
      |envs| > 0 && k !in envs[|envs| - 1]
  {
    var run := RunPhaseWith(GroupStep(), g, parts, lamda);
    assert RunPhase(g, parts, lamda) == run;
    var envs := run.value.1;
    if k in g.s {
      RunPhaseLength(GroupStep(), g, parts, lamda);
      RunPhaseHistories(GroupStep(), g, parts, lamda, k);
      ShortColumn(envs, k, Touches(parts, k), Copy(g.s[k]));
    } else {
      RunPhaseShowsStored(GroupStep(), g, parts, lamda, k);
      assert |envs| > 0 by {
        RunPhaseHistories(GroupStep(), g, parts, lamda, j);
      }
    }
  }

  /** A CS that appears in fewer steps than all but the last is missing from
      the last one. */
  lemma ShortColumn(envs: seq<Env>, k: string, n: nat, first: Stimulus)
    requires ColumnShape(envs, k, n, first) && n + 1 < |envs|
    ensures k !in envs[|envs| - 1]
  {
  }

  /** A compound name whose constituents are not all in the last step makes
      the source's report of that phase fail. */
  lemma AbsentFails(name: string, p: Phase, envs: seq<Env>, listCs: Splitter, c: string)
    requires |envs| > 0 && c in CompoundCs(p, listCs) && !AllPresent(envs[|envs| - 1], c)
    ensures GroupResultsAsWritten(name, [p], [envs], listCs).Err?
  {
    var names := CompoundCs(p, listCs);
    assert PhaseNames([p], listCs) == [names];
    AbsentFailsAmong(name, envs, names, c);
  }

  lemma AbsentFailsAmong(name: string, envs: seq<Env>, names: seq<string>, c: string)
    requires |envs| > 0 && c in names && !AllPresent(envs[|envs| - 1], c)
    ensures ReportAll(Strict(), name, [envs], [names]).Err?
  {
    var last := |envs| - 1;
    assert StrictPick(envs[last], c).Err? by {
      MissingFails(envs[last], c);
    }
    var at :| 0 <= at < |names| && names[at] == c;
    assert Strict()(envs[last], names[at]).Err?;
    assert PhaseSeries(Strict(), name, envs, names, map[]).Err?;
    assert [envs][0] == envs && [names][0] == names;
  }

  lemma MissingFails(e: Env, key: string)
    requires !AllPresent(e, key)
    ensures Lookup(e, key).Err?
  {
  }

  /** The classic feature-negative design `AB+/A-` trips it: `A` is
      presented twice, `B` once, so the last step has no `B` and reading
      `AB` there fails. The phase itself runs for any group storing `A` and
      `B` whose step cannot fail. */
  lemma FeatureNegativeFails(g: Group, text: string, listCs: Splitter, name: string)
    requires "A" in g.s && "B" in g.s && StepsSucceed(g)
    ensures RunPhase(g, [("AB", "+"), ("A", "-")], None).Ok?
    ensures var p := Phase(text, [("AB", "+"), ("A", "-")], false, None);
      GroupResultsAsWritten(name, [p], [RunPhase(g, p.elems, None).value.1], listCs).Err?
  {
    var elems := [("AB", "+"), ("A", "-")];
    var p := Phase(text, elems, false, None);
    assert AllPresent(g.s, elems[0].0) && AllPresent(g.s, elems[1].0);
    RunPhaseSucceeds(g, elems, None);
    assert elems[0].0 != [];
    FeatureNegativeCounts();
    assert [p.elems[0].0[1]] == "B";
    UnevenPhaseFails(g, p, None, listCs, name, 0, 1, "A");
  }

  /** In `AB+/A-`, `B` is presented once and `A` twice. */
  lemma FeatureNegativeCounts()
    ensures Touches([("AB", "+"), ("A", "-")], "B") == 1
    ensures Touches([("AB", "+"), ("A", "-")], "A") == 2
  {
    var elems := [("AB", "+"), ("A", "-")];
    assert KeysOf("AB") == {"A", "B"} by {
      KeysOfCons("AB");
      KeysOfCons("B");
    }
    assert KeysOf("A") == {"A"} by {
      KeysOfCons("A");
    }
    assert Touches(elems[1..], "B") == 0 && Touches(elems, "B") == 1;
    assert Touches(elems[1..], "A") == 1 && Touches(elems, "A") == 2;
  }

  /** `[Copy(x) for x in xs]`. */
  function Copies(xs: seq<Stimulus>): (r: seq<Stimulus>)
    ensures |r| == |xs| && forall i :: 0 <= i < |xs| ==> r[i] == Copy(xs[i])
  {
    seq(|xs|, i requires 0 <= i < |xs| => Copy(xs[i]))
  }

  lemma CopiesAppend(a: seq<Stimulus>, b: seq<Stimulus>)
    ensures Copies(a + b) == Copies(a) + Copies(b)
  {
  }

  /** On a well-formed step, the corrected reading of a non-empty,
      repeat-free compound never fails. */
  lemma CorrectedPickSucceeds(e: Env, cs: string)
    requires WellFormed(e) && cs != [] && NoRepeats(cs)
    ensures LenientPick(e, cs).Ok?
    ensures AllPresent(e, cs) ==> LenientPick(e, cs) == Ok(Some(Lookup(e, cs).value))
  {
    if AllPresent(e, cs) {
      assert AllSaliences(Constituents(e, cs));
    }
  }

  /** The corrected report of well-formed steps succeeds whenever every
      compound name is non-empty and repeat-free. */
  lemma CorrectedReportSucceeds(name: string, phases: seq<Phase>, results: seq<seq<Env>>, listCs: Splitter)
    requires |results| == |phases|
    requires forall p, x :: 0 <= p < |results| && 0 <= x < |results[p]| ==> WellFormed(results[p][x])
    requires forall p, i :: 0 <= p < |phases| && 0 <= i < |CompoundCs(phases[p], listCs)| ==>
      CompoundCs(phases[p], listCs)[i] != [] && NoRepeats(CompoundCs(phases[p], listCs)[i])
    ensures GroupResultsCorrected(name, phases, results, listCs).Ok?
  {
    var names := PhaseNames(phases, listCs);
    forall p, x, i | 0 <= p < |phases| && 0 <= x < |results[p]| && 0 <= i < |names[p]|
      ensures Lenient()(results[p][x], names[p][i]).Ok?
    {
      CorrectedPickSucceeds(results[p][x], names[p][i]);
    }
  }

  /** One well-formed step read for a single CS: its copied stimulus when
      the step holds it, nothing otherwise. */
  lemma LenientSingle(e: Env, k: string)
    requires |k| == 1 && WellFormed(e)
    ensures Lenient()(e, k).Ok?
    ensures Contribution(Lenient(), e, k) == if k in e then [Copy(e[k])] else []
  {
    CorrectedPickSucceeds(e, k);
    assert [k[0]] == k;
    if k in e {
      assert Constituents(e, k) == [e[k]];
      assert Lookup(e, k) == Ok(e[k]);
    } else {
      assert !AllPresent(e, k);
    }
  }

  /** Read through the corrected picker, a single CS's series is its column
      of the steps, copied. */
  lemma {:induction false} CorrectedSingleTrace(envs: seq<Env>, k: string)
    requires |k| == 1 && forall x :: 0 <= x < |envs| ==> WellFormed(envs[x])
    ensures forall x :: 0 <= x < |envs| ==> Lenient()(envs[x], k).Ok?
    ensures Trace(Lenient(), envs, k) == Copies(Column(envs, k))
    decreases |envs|
  {
    forall x | 0 <= x < |envs| ensures Lenient()(envs[x], k).Ok? {
      LenientSingle(envs[x], k);
    }
    if |envs| > 0 {
      var n := |envs| - 1;
      assert Trace(Lenient(), envs[..n], k) == Copies(Column(envs[..n], k)) by {
        assert forall x :: 0 <= x < n ==> envs[..n][x] == envs[x];
        CorrectedSingleTrace(envs[..n], k);
      }
      var last := if k in envs[n] then [envs[n][k]] else [];
      assert Column(envs, k) == Column(envs[..n], k) + last;
      CopiesAppend(Column(envs[..n], k), last);
      assert Copies(last) == Contribution(Lenient(), envs[n], k) by {
        LenientSingle(envs[n], k);
      }
    }
  }

  lemma {:induction false} ColumnAbsent(envs: seq<Env>, k: string)
    requires forall x :: 0 <= x < |envs| ==> k !in envs[x]
    ensures Column(envs, k) == []
    decreases |envs|
  {
    if |envs| > 0 {
      var n := |envs| - 1;
      assert forall x :: 0 <= x < n ==> envs[..n][x] == envs[x];
      ColumnAbsent(envs[..n], k);
    }
  }

  lemma {:induction false} ColumnHead(envs: seq<Env>, k: string)
    requires |envs| > 0 && k in envs[0]
    ensures |Column(envs, k)| > 0 && Column(envs, k)[0] == envs[0][k]
    decreases |envs|
  {
    var n := |envs| - 1;
    if n > 0 {
      assert envs[..n][0] == envs[0];
      ColumnHead(envs[..n], k);
    } else {
      assert envs[..n] == [];
    }
  }

  /** The corrected report of a phase shows each CS's own history: a copy
      of its stimulus before the phase and one snapshot per presentation,
      nothing at all for a CS the phase never presents. */
  lemma CorrectedPhaseReport(g: Group, p: Phase, lamda: Option<real>, listCs: Splitter, name: string, k: string)
    requires RunPhase(g, p.elems, lamda).Ok? && HasSaliences(g.s)
    requires k in g.s && |k| == 1 && k in CompoundCs(p, listCs)
    requires forall i :: 0 <= i < |CompoundCs(p, listCs)| ==> CompoundCs(p, listCs)[i] != [] && NoRepeats(CompoundCs(p, listCs)[i])
    ensures var envs := RunPhase(g, p.elems, lamda).value.1;
      var rep := GroupResultsCorrected(name, [p], [envs], listCs);
      && rep.Ok?
      && Existing(rep.value[0], SeriesName(name, k)) == Copies(Column(envs, k))
      && (Touches(p.elems, k) == 0 ==> Column(envs, k) == [])
      && (Touches(p.elems, k) > 0 ==> |Column(envs, k)| == 1 + Touches(p.elems, k) && Column(envs, k)[0] == Copy(g.s[k]))
  {
    var envs := RunPhase(g, p.elems, lamda).value.1;
    GroupStepKeepsSalience();
    RunPhaseSalience(GroupStep(), g, p.elems, lamda);
    RunPhaseHistories(GroupStep(), g, p.elems, lamda, k);
    CorrectedSeries(p, envs, listCs, name, k);
    if Touches(p.elems, k) == 0 {
      ColumnAbsent(envs, k);
    } else {
      assert Column(envs, k)[0] == envs[0][k] by {
        ColumnHead(envs, k);
      }
    }
  }

  /** The corrected report of one phase holds, for a single CS, a copy of
      its column. */
  lemma CorrectedSeries(p: Phase, envs: seq<Env>, listCs: Splitter, name: string, k: string)
    requires forall x :: 0 <= x < |envs| ==> WellFormed(envs[x])
    requires |k| == 1 && k in CompoundCs(p, listCs)
    requires forall i :: 0 <= i < |CompoundCs(p, listCs)| ==> CompoundCs(p, listCs)[i] != [] && NoRepeats(CompoundCs(p, listCs)[i])
    ensures var rep := GroupResultsCorrected(name, [p], [envs], listCs);
      rep.Ok? && Existing(rep.value[0], SeriesName(name, k)) == Copies(Column(envs, k))
  {
    var names := CompoundCs(p, listCs);
    assert PhaseNames([p], listCs)[0] == names;
    assert GroupResultsCorrected(name, [p], [envs], listCs).Ok? by {
      CorrectedReportSucceeds(name, [p], [envs], listCs);
    }
    var rep := GroupResultsCorrected(name, [p], [envs], listCs).value;
    assert rep[0] == PhaseSeries(Lenient(), name, envs, names, map[]).value;
    SortedDistinct(ByStrippedLength, names);
    PhaseSeriesAt(Lenient(), name, envs, names, map[], k);
    CorrectedSingleTrace(envs, k);
  }
}
