# PALMS trial simulation, modelled in Dafny

This project models the trial-simulation engine of the PALMS Pavlovian
associative-learning simulator. It has five parts:

- **The stimulus and environment algebra** (`stimulus.dfy`, `environment.dfy`). A
  `Stimulus` holds the learning variables of one conditioned stimulus (CS):
  `assoc`, `Ve`, `Vi`, `alpha`, `alpha_mack`, `alpha_hall`, the salience, the
  window of recent strengths and `delta_ma_hall`. An environment maps CS names
  to stimuli.
  - Stimuli are joined field by field, added, divided and copied through the
    constructor.
  - A compound name is looked up as the sum of its letters' stimuli.
  - Environments are added, divided and averaged (divide, then add).
  - Per-CS histories are transposed into per-step environments.
  - Every combination of single-letter names is listed (`counting.dfy`, `ordering.dfy`).
- **The learning rules** (`adaptive.dfy`). These are the `step` of Linear, Mack,
  Hall, Macknhall, DualV, Lepelley, Dualmack and Hybrid, the Mackintosh and Hall
  attention terms, and the unknown-model error. Every rule is a pure function
  from a stimulus and the signals of a trial part to the new stimulus.
- **Running a phase** (`group.dfy`). `Group.__init__` builds the initial
  environment. `Group.runPhase` is a fold over the trial parts:
  - it picks β, λ and the sign of each part;
  - it computes σ, σE and σI once from the state before the part;
  - it steps every distinct CS of the part with those aggregates;
  - it updates the sliding window and `delta_ma_hall`;
  - it records one snapshot before the first presentation and one after each presentation.

  The fold is written once, generic in the step, and instantiated with the group's own step.
- **The phase language and the experiment** (`phase.dfy`, `experiment.dfy`,
  `report.dfy`). This covers:
  - the `Phase` parser: `rand`, `lamda = n`, `<n><CS><sign>`, blank clauses and the error;
  - `Phase.cs` and `Phase.compound_cs`;
  - `run_group_experiments`: phases run in order, and a randomised phase is repeated
    over given orders of its trials and averaged;
  - `group_results`: one series of snapshots per compound name.
- **The command-line matcher** (`simulator.dfy`). `match_args` partitions the
  arguments that name a CS from the rest. Its five chained passes either claim
  every argument or fail.

Floats are modelled as exact reals. Python exceptions become the `Err` side of
a `Result` (`errors.dfy`). Each error kind is named after the exception site
it stands for.

Where the program's description and its code disagree, the model follows the code:
- the Linear rule does not clamp `alpha` (AdaptiveType.py:31-34);
- the Hall rule's strength change is `alpha·β·(λ − σ)` (AdaptiveType.py:52);
- compound lookup adds the stimuli of the key's characters, one per character (Environment.py:148);
- the phase parser knows no `beta=` clause and no `++` sign (Experiment.py:44-56);
- `runPhase` records no separate series for the compound itself (Group.py:73-90).

## Model

| member | source | states |
|---|---|---|
| Adaptive.ModelFromName | AdaptiveType.py:159-160 | a model name selects the model of that name; any other name is the unknown-type error, and then no model has that name |
| Adaptive.ModelNameRoundTrip | AdaptiveType.py:159-160 | every modelled rule is found again from its own name |
| Adaptive.Clamp | AdaptiveType.py:107 | `min(max(x, 0.05), 1)` lies in [0.05, 1] and leaves a value already there unchanged |
| Adaptive.AlphaMackOf | AdaptiveType.py:11-12 | the Mackintosh attention exceeds the CS's strength by half of `1 − σ` |
| Adaptive.AlphaHallOf | AdaptiveType.py:14-26 | the Hall attention needs a previous λ and a `xi_hall`, failing with the matching error otherwise; when it succeeds it is `0.99·\|λprev − σ\| + 0.01·alpha_hall`, stated as moving the old `alpha_hall` 99% of the way to the surprise, so it lies between the two |
| Adaptive.AlphaHallIgnoresWindowTerm | AdaptiveType.py:17-26 | the Hall attention does not depend on the value of `xi_hall` or on `delta_ma_hall`: the exponential window term is computed and discarded |
| Adaptive.LinearStep | AdaptiveType.py:31-34 | alpha is scaled by 1.05 on a reinforced part and by 0.95 on a non-reinforced one, then the strength moves by the new alpha times the prediction error; no other field changes |
| Adaptive.LinearLearnsFromError | AdaptiveType.py:32-34 | with positive alpha and β the strength moves towards the sign of `λ − σ` (up, down or not at all) and alpha stays positive |
| Adaptive.MackStep | AdaptiveType.py:42-46 | alpha takes the stored `alpha_mack` and the new strength is `assoc·δ + δ/2·β` with δ the prediction error; no other field changes |
| Adaptive.MackIgnoresAlpha | AdaptiveType.py:44-46 | the Mack step never reads the current alpha, and a zero prediction error erases the strength |
| Adaptive.HallStep | AdaptiveType.py:48-52 | the step succeeds exactly when a previous λ and `xi_hall` exist; `alpha_hall` becomes the Hall attention, alpha follows it, and the strength moves by `alpha·β·(λ − σ)`; nothing else changes |
| Adaptive.HallAttentionBounded | AdaptiveType.py:48-52 | when both the surprise and the old `alpha_hall` lie in [0, 1], so do the new `alpha_hall` and alpha |
| Adaptive.MacknhallStep | AdaptiveType.py:54-59 | it fails exactly as Hall does; it sets `alpha_mack` from the pre-step strength and `alpha_hall` as Hall does, then alpha to `(1 − \|λprev − σ\|)·alpha_mack + alpha_hall`, then moves the strength by alpha times the prediction error |
| Adaptive.MacknhallAgreesWithHall | AdaptiveType.py:54-59 | updating `alpha_mack` first does not disturb the Hall term: the combined rule's `alpha_hall` is the Hall rule's, and when λprev equals σ alpha is their plain sum |
| Adaptive.DualVStep | AdaptiveType.py:61-72 | a non-negative ρ raises only `Ve` by `betap·alpha·λ` and a negative ρ raises only `Vi` by `betan·alpha·\|ρ\|`; alpha moves towards `\|ρ\|` with weight γ; the strength is `Ve − Vi` |
| Adaptive.DualVMonotone | AdaptiveType.py:66-69 | with non-negative rates, alpha and λ neither dual strength ever decreases |
| Adaptive.DualVAlphaBetween | AdaptiveType.py:71 | with γ in [0, 1] the new alpha lies between the old alpha and `\|ρ\|` |
| Adaptive.BlendBetween | AdaptiveType.py:71 | a γ-weighted blend with γ in [0, 1] lies between its two ends |
| Adaptive.LepelleyStep | AdaptiveType.py:89-111 | alpha always ends in [0.05, 1] for any signals. Only `Ve` grows when ρ ≥ 0 and only `Vi` when ρ < 0, each by the pre-step alpha's gain. The θE adjustment applies when ρ > 0, θI when ρ < 0, and none when ρ = 0. The strength is `Ve − Vi` |
| Adaptive.DualmackStep | AdaptiveType.py:114-127 | one dual strength grows as in LePelley; the new alpha is `½(1 + old assoc − (VXe − VXi))`; the strength becomes `Ve − Vi` afterwards |
| Adaptive.DualmackReadsOldAssoc | AdaptiveType.py:126-127 | the Dualmack alpha reads the strength before it is overwritten: stimuli differing only in `assoc` get alphas differing by half as much and the same new strength |
| Adaptive.HybridStep | AdaptiveType.py:129-157 | `alpha_mack` ends in [0.05, 1] and takes no θ adjustment when ρ = 0; the dual strengths grow with the pre-step `alpha_hall`; `alpha_hall` moves towards `\|ρ\|`; the strength is `alpha_mack·(Ve − Vi)`; alpha is untouched |
| Adaptive.Step | AdaptiveType.py:31-157 | a rule's step fails only for Hall and Macknhall without a previous λ or `xi_hall`, with the error naming which one is missing |
| Adaptive.StepFrame | AdaptiveType.py:31-157 | no rule touches the salience, the window or `delta_ma_hall` |
| Adaptive.DualRulesExclusive | AdaptiveType.py:61-157 | the dual-process rules never fail and change exactly one side: `Vi` is untouched when ρ ≥ 0 and `Ve` when ρ < 0 |
| Stimuli.Normalize | Environment.py:27-29 | rebuilding a stimulus replaces a zero `alpha_mack` or `alpha_hall` by `alpha`, keeps a nonzero one, and changes nothing else |
| Stimuli.Copy | Environment.py:74-75 | a copy has the same linear fields, salience and window, and is a stimulus the constructor could produce |
| Stimuli.CopyIdentity | Environment.py:27-29 | copying returns the same stimulus exactly when it is normal; a zero `alpha_mack` or `alpha_hall` beside a nonzero alpha becomes alpha |
| Stimuli.New | Environment.py:21-37 | a fresh stimulus has zero strengths, an empty window and `delta_ma_hall` 0.2; a missing or zero `alpha_mack`/`alpha_hall` falls back to alpha |
| Stimuli.PadLeft | Environment.py:48-50 | left padding with zeros reaches the requested length and keeps the window at its end |
| Stimuli.JoinWindows | Environment.py:47-51 | joined windows are as long as the longer one and combine the zero-padded entries position by position |
| Stimuli.Join | Environment.py:39-55 | a join succeeds exactly when both saliences are numbers, a `None` on the left or right failing with its own error; every numeric field is the operator applied to the operands' fields, the windows are padded and combined, and the result is rebuilt through the constructor |
| Stimuli.Add | Environment.py:39-58 | addition is field-wise: every linear field, the salience, and a nonzero sum of `alpha_mack` or `alpha_hall` are sums, and the window is the padded position-wise sum of both windows. A `None` salience on the left raises ValueError, and one on the right only a TypeError |
| Stimuli.AddCommutes | Environment.py:57-58 | stimulus addition is commutative: both orders succeed or fail together and agree |
| Stimuli.Div | Environment.py:60-72 | a zero divisor fails first and a `None` salience fails next; otherwise every scalar and every window entry is divided by n, and the window keeps its length |
| Stimuli.DivReplacesZeroAlphaMack | Environment.py:60-72 | division does not preserve a zero `alpha_mack`: the constructor puts `alpha / n` there |
| Stimuli.AddReplacesZeroAlphaMack | Environment.py:39-55 | a join whose `alpha_mack` values cancel yields the joined alpha instead of zero |
| Text.StripWith | Experiment.py:44 | stripping yields a slice of the text with only stripped characters cut before and after it. The slice neither starts nor ends with a stripped character, and is empty exactly when every character is stripped |
| Text.StripKeeps | Experiment.py:53 | a clause holding a non-space character does not strip to nothing |
| Text.Split | Experiment.py:44 | splitting yields at least one piece, none of which holds the separator |
| Text.SplitJoin | Experiment.py:44 | joining the pieces with the separator gives back the text, so every character lands in exactly one clause |
| Text.SplitWithoutSeparator | Experiment.py:44 | a text without the separator is a single clause |
| Text.LexTransitive | Experiment.py:36 | the code-point order of names used as the second sort key is transitive |
| Text.LexTotal | Experiment.py:36 | any two different names are ordered one way or the other |
| Text.LexAsymmetric | Experiment.py:36 | no two names are ordered both ways |
| Text.LexIrreflexive | Experiment.py:36 | no name is ordered before itself |
| Text.ParseDecimal | Experiment.py:48 | `float` of a digits-and-dot text succeeds exactly when it holds a digit, giving a non-negative number, and otherwise fails naming the text |
| Text.ParseNatText | Simulator.py:22 | `float` of the decimal text of a whole number is that number |
| Text.ParseDecimalValue | Experiment.py:48 | `float` of `w.f` is all the digits read as one number divided by ten to the number of digits after the dot |
| Text.ParseWholeValue | Experiment.py:48 | `float` of a run of digits is the number they spell |
| Text.HalfParses | Experiment.py:48 | `float('0.5')` is 0.5 |
| Text.TenthsParse | Simulator.py:22 | `float('.3')`, with no digit before the dot, is 0.3 |
| Text.CountOf | Experiment.py:52 | a trial clause without digits counts once, and a written count is the number its digits spell |
| Text.Distinct | Group.py:67 | `set(part)`: each character of the part once, nothing else |
| Counting.SubsetsCard | Environment.py:132-133 | k single-letter names have 2^k combinations, the empty one included |
| Counting.SortedCharsSpec | Environment.py:136 | the sorted spelling of a combination is strictly increasing and holds exactly its letters |
| Counting.SortedCharsUnique | Environment.py:136 | a strictly increasing name is the sorted spelling of its letters |
| Counting.SpellingsCard | Environment.py:136 | distinct combinations have distinct spellings |
| Ordering.BeforeTransitive | Environment.py:142 | the order by (measure, name) is transitive |
| Ordering.BeforeTotal | Environment.py:142 | the order by (measure, name) relates any two different names |
| Ordering.BeforeAsymmetric | Environment.py:142 | the order by (measure, name) never relates two names both ways |
| Ordering.SortSet | Environment.py:140-142 | sorting a set of names yields every member once, in strictly increasing (measure, name) order |
| Ordering.SortedDistinct | Environment.py:142 | a strictly sorted list holds no name twice |
| Environments.FoldAddSums | Environment.py:148 | the fold of additions succeeds on one stimulus, and on several exactly when all carry a salience; its linear fields are the sums of the operands' |
| Environments.Lookup | Environment.py:146-148 | each kind of failing key fails with its own error: a repeated character, a missing constituent, an empty key. Otherwise the lookup succeeds exactly when the fold does, and every linear field is the sum over the key's characters |
| Environments.LookupSingle | Environment.py:148 | a one-character key returns the stored stimulus itself, not a copy |
| Environments.CompoundIsSum | Environment.py:146-148 | summation: the value of a compound made of two disjoint parts is, field by field, the sum of the parts' values |
| Environments.KeySum | Environment.py:152 | one key of environment addition fails only with a lookup or addition error |
| Environments.SumsError | Environment.py:150-152 | the error reported is one that some key actually raises |
| Environments.EnvAdd | Environment.py:150-152 | environment addition succeeds exactly when every key of either operand sums. It then covers both operands' keys, each bound to the sum of the two lookups. Otherwise it reports a failing key's error |
| Environments.EnvAddSameKeys | Environment.py:150-152 | on well-formed environments, addition succeeds exactly when both hold the same CS, and then adds key by key |
| Environments.KeySumElementary | Environment.py:152 | a one-letter key sums exactly when both operands hold it |
| Environments.EnvDiv | Environment.py:154-155 | division succeeds exactly when the environment is empty or the divisor is nonzero and every salience a number, dividing every stimulus; otherwise it fails with the matching error |
| Environments.EnvCopy | Environment.py:157-158 | a copied environment has the same CS, each stimulus copied |
| Environments.DivideAll | Environment.py:164 | dividing a list succeeds exactly when each division does, element by element |
| Environments.Avg | Environment.py:160-168 | the average of no environments is the empty-reduce error |
| Environments.DivByOne | Environment.py:60-75 | dividing a stimulus by one is copying it |
| Environments.AvgOfOne | Environment.py:160-168 | averaging a single environment copies it |
| Environments.QuotientShape | Environment.py:154-155 | a quotient of a well-formed environment is well formed over the same CS, every field divided |
| Environments.EnvAddFields | Environment.py:150-152 | adding well-formed environments over the same CS adds every linear field |
| Environments.FoldEnvAddFields | Environment.py:166-168 | the left fold of additions over environments with one CS set sums every field down the list |
| Environments.ColumnSumQuotients | Environment.py:164 | column sums of quotients are quotients of column sums |
| Environments.AvgIsMean | Environment.py:160-168 | the average of environments holding the same CS is, for every CS and every linear field, the arithmetic mean of that field over the list, hence the environment itself for identical ones |
| Environments.Record | Environment.py:83-84 | recording keeps the earlier snapshots and appends a copy of the stimulus. The copy has every linear field, the salience and the window of the stimulus, and is normal; a normal stimulus is recorded as it is |
| Environments.Attr | Environment.py:86-87 | reading a field of a history gives that field of every snapshot, in order |
| Environments.Longest | Environment.py:115 | the longest history's length is at least every history's and is attained |
| Environments.FromHistories | Environment.py:113-125 | transposing fails exactly when there are no histories. It yields as many steps as the longest history. Step i holds exactly the CS whose history is longer than i, each bound to its i-th snapshot |
| Environments.TransposeKeepsHistories | Environment.py:113-125 | reading one CS back out of the transposed steps gives its history |
| Environments.HistoryShape | Environment.py:113-125 | for non-empty histories the first step holds every first snapshot, and each CS appears in as many steps as its history is long |
| Environments.CombinedCsMembers | Environment.py:128-138 | a name is a combined CS exactly when it is non-empty and strictly increasing and each of its letters is a stored single-letter name |
| Environments.CombinedCsCount | Environment.py:128-138 | k single-letter names give 2^k − 1 combined CS |
| Environments.OrderedCs | Environment.py:140-142 | the ordered list holds every combined CS once, sorted by length and then name |
| Environments.Assocs | Environment.py:170-171 | the strength table has the environment's CS and each one's strength |
| Groups.NewGroup | Group.py:13-53 | construction fails exactly on an unknown model name. Otherwise every name of `cs`, `alphas` or `saliences` gets a fresh stimulus (zero strengths, its own or the default alpha and salience, and the default `alpha_mack` and `alpha_hall` when they are nonzero, else its alpha). The single-letter names are kept, the parameters stored, and no previous λ is set |
| Groups.NewGroupWellFormed | Group.py:33-45 | a fresh group's stimuli all carry saliences and are normal, and with one-letter names the environment is well formed |
| Groups.PartSignals | Group.py:62-71 | a `+` part uses betap, the phase λ when set and nonzero or else the default λ, and sign 1; any other sign uses betan, λ 0 and sign −1 |
| Groups.SignalsAreCompoundStrength | Group.py:67-71 | σ, σE and σI are the fields of the compound's strength: the aggregates equal what compound lookup of the part returns |
| Groups.PopLeft | Group.py:81-82 | `popleft` removes the first entry and fails on an empty window |
| Groups.WindowStep | Group.py:80-88 | without a size nothing changes. With a size, a full window drops its oldest entry and the new strength is appended last; the window never outgrows a positive size; an empty window with size ≤ 0 fails. `delta_ma_hall` becomes the window mean minus the strength recorded before the step |
| Groups.Advance | Group.py:78-88 | a constituent's update is the rule's step then the window update, failing exactly when either does; the result is the window update of the stepped stimulus, and it keeps the salience |
| Groups.FirstTouch | Group.py:74-76 | on first presentation the history starts with a copy of the stimulus as it stands; otherwise it is the recorded one |
| Groups.StepCs | Group.py:73-90 | one constituent is updated against its own last recorded strength, and the result is stored and recorded; other histories are untouched and the histories still track the environment |
| Groups.StepAll | Group.py:73-90 | the loop over a part's constituents keeps the CS set, the previous λ and the tracking of histories |
| Groups.StepAllSucceeds | Group.py:69-78 | simultaneous update: the loop succeeds exactly when every constituent's update from its state before the loop does |
| Groups.StepAllResult | Group.py:69-78 | simultaneous update: every constituent ends as its own update applied to its state before the loop, whatever the loop order |
| Groups.StepAllFrame | Group.py:73-78 | a CS not in the part is unchanged |
| Groups.StepAllHistoryKeys | Group.py:73-76 | the loop keeps the histories it had and starts one for each constituent |
| Groups.StepAllHistoryGrowth | Group.py:90 | an existing history keeps its prefix and gains exactly one snapshot when its CS is in the part |
| Groups.StepAllHistoryNew | Group.py:74-90 | a history the loop starts holds the CS before and after its update |
| Groups.RunPart | Group.py:61-91 | a part naming an unstored CS fails. Otherwise the environment keeps its CS and the histories their tracking, and the part's λ becomes the previous λ |
| Groups.RunPartEffect | Group.py:61-91 | each CS of a part is advanced from its state before the part with the part's signals, and nothing else moves |
| Groups.RunPartHistories | Group.py:73-90 | the histories one part writes, in terms of the part's constituents |
| Groups.RunParts | Group.py:61-91 | running the parts in order keeps the CS set and the tracking of histories |
| Groups.RunPartsHistoryKeys | Group.py:73-76 | a CS has a history after the parts exactly when it had one or some part presents it |
| Groups.RunPartsHistoryGrowth | Group.py:90 | an existing history keeps its prefix and gains one snapshot per part presenting its CS |
| Groups.RunPartsHistoryNew | Group.py:74-90 | a history started during the phase holds the CS before its first presentation and then one snapshot per presentation |
| Groups.RunPartsFrame | Group.py:73-78 | a CS no part presents keeps its stimulus |
| Groups.RunPartsHistories | Group.py:73-90 | from no histories, a CS has one exactly when some part presents it, with 1 + presentations snapshots starting with its copy; otherwise it is unchanged |
| Groups.RunPhaseWith | Group.py:58-93 | an empty phase fails in `max`; a phase keeps the group's CS and everything but its stimuli and previous λ |
| Groups.RunPhase | Group.py:58-93 | the same for the group's own rule |
| Groups.RunPhaseHistories | Group.py:58-93 | a CS has a column in the reported steps exactly when some part presents it. The first step shows a copy of its stimulus before the phase. Presented n times, it appears in exactly the first n + 1 steps. A CS never presented keeps its stimulus |
| Groups.RunPhaseShowsStored | Group.py:73-93 | a CS the group does not store appears in no step of a phase |
| Groups.RunPhaseLength | Group.py:58-93 | a phase reports one step more than the most-presented CS is presented |
| Groups.TouchesSome | Group.py:61-67 | a CS counts as presented in a phase exactly when some part names it |
| Groups.RunPartSucceeds | Group.py:61-91 | for any rule but Hall's two, with no window or a positive one, a part whose CS are all stored cannot fail |
| Groups.RunPartsSucceed | Group.py:61-91 | under the same conditions the whole loop over the parts cannot fail |
| Groups.RunPhaseSucceeds | Group.py:58-93 | under the same conditions a phase succeeds exactly when some part presents a CS; otherwise `fromHistories` fails on the empty histories |
| Groups.GroupStepKeepsSalience | Group.py:78 | the group's update, for every rule, keeps the salience |
| Groups.StepCsSalience | Group.py:73-90 | updating one constituent keeps every salience, in the stimuli and in the recorded snapshots |
| Groups.StepAllSalience | Group.py:73-90 | the loop of a part keeps every salience |
| Groups.RunPartSalience | Group.py:61-91 | one part keeps every salience |
| Groups.RunPartsSalience | Group.py:61-91 | the parts of a phase keep every salience |
| Groups.RunPhaseSalience | Group.py:58-93 | a phase changes no salience, and every reported stimulus carries its CS's salience, so a group with saliences reports steps that can be added and averaged |
| Phases.TrialPieces | Experiment.py:49-50 | what the trial matcher returns is a full match of the trial pattern |
| Phases.TrialPiecesUnique | Experiment.py:49-50 | the trial pattern matches in one way only: any full match has the groups the matcher finds |
| Phases.LamdaWord | Experiment.py:47 | the λ key word is `lamda` or `lambda` when found |
| Phases.LamdaPieces | Experiment.py:47-48 | what the λ matcher returns is a full match of the λ pattern |
| Phases.LamdaPiecesUnique | Experiment.py:47-48 | the λ pattern matches in one way only |
| Phases.NoLamdaShape | Experiment.py:47 | the λ matcher finds nothing exactly when the pattern has no full match |
| Phases.NoTrialShape | Experiment.py:49 | the trial matcher finds nothing exactly when the pattern has no full match |
| Phases.Upper | Experiment.py:51 | upper-casing turns each lower-case letter, `ñ` included, into the same capital and keeps every other character, so no lower-case letter is left |
| Phases.UpperIdempotent | Experiment.py:51 | upper-casing an upper-cased word changes nothing |
| Phases.ParseClause | Experiment.py:44-56 | a clause is `rand` exactly when it reads as the random flag; errors are the by-name rejection or a `float` failure; trial signs are `+` or `-`; a blank clause is all spaces |
| Phases.ClauseOfLamda | Experiment.py:47-48 | a λ clause sets λ to its number, or fails in `float` when the number has no digit |
| Phases.ClauseOfTrial | Experiment.py:49-52 | a trial clause contributes its count (1 when unwritten) of the upper-cased, re-split CS with its sign, `+` when unwritten |
| Phases.ClauseRejected | Experiment.py:53-56 | a clause is rejected by name exactly when it is not `rand`, matches neither pattern and is not blank |
| Phases.Unparsed | Experiment.py:53-56 | a non-blank clause without `=` that is no trial is rejected by name |
| Phases.DoubledSignRejected | Experiment.py:49 | `A++` is rejected |
| Phases.TrailingSpaceRejected | Experiment.py:44 | the text is stripped as a whole, so `A+ ` before a slash is rejected |
| Phases.LeadingSpaceRejected | Experiment.py:44 | ` B` after a slash is rejected |
| Phases.EmptyLamdaRejected | Experiment.py:48 | `lambda=` fails in `float` |
| Phases.CountedTwice | Experiment.py:52 | a written count repeats the trial: `2AB-` gives two trials of `AB` with `-` |
| Phases.CountedNever | Experiment.py:52 | `0a` is a zero count of `A` with `+`: a written zero is allowed |
| Phases.Repeat | Experiment.py:52 | a count of n gives n copies of the trial |
| Phases.ParseClauses | Experiment.py:44-56 | the clause loop keeps the text and only appends trials |
| Phases.ParsePhase | Experiment.py:38-56 | a parsed phase keeps its text |
| Phases.ParseAll | Experiment.py:44-56 | reading every clause succeeds exactly when each does, clause by clause, and otherwise fails with some clause's error |
| Phases.ParseClausesSucceeds | Experiment.py:44-56 | the loop succeeds exactly when every clause reads, failing with the first failing clause's error |
| Phases.ParseClausesContent | Experiment.py:44-56 | the loop builds the trials of the trial clauses in order, the `rand` flag of any `rand` clause and the last λ |
| Phases.ParsePhaseMeaning | Experiment.py:38-56 | a phase text parses exactly when every clause does, failing with the first clause's error. The phase holds the trials in written order, is random when some clause is `rand`, and takes the last λ clause's value |
| Phases.PhaseCs | Experiment.py:27-30 | the phase's CS are the union of its trials' listed names, and none without trials |
| Phases.CompoundCs | Experiment.py:34-36 | the compound names hold the phase's CS and its trials' compounds and nothing else, strictly sorted by length without `'()` and then by name |
| Phases.CompoundCsIgnoresOrder | Experiment.py:34-36 | shuffling the trials does not change the compound names |
| Experiments.RepeatWith | Experiment.py:162-168 | the repetition loop records one history and one final environment per order, touching nothing of the group but its stimuli and previous λ |
| Experiments.Repetitions | Experiment.py:162-168 | the same for a run of the phase |
| Experiments.RepeatAt | Experiment.py:162-168 | repetition t runs from a copy of the pre-phase environment with the group the earlier repetitions left, and records its report and a copy of its final environment |
| Experiments.RepetitionAt | Experiment.py:162-168 | repetition t runs the phase in its order from a copy of the pre-phase environment |
| Experiments.MaxLen | Experiment.py:172 | the longest repetition's length bounds all and is attained |
| Experiments.StepAt | Experiment.py:171 | step x gathers step x of every repetition long enough, all of them when all are |
| Experiments.Steps | Experiment.py:170-173 | one gathered step per position |
| Experiments.AverageAll | Experiment.py:170-173 | averaging every step succeeds exactly when each average does, position by position, and otherwise fails with some step's error |
| Experiments.MapAll | Experiment.py:170-173 | a list comprehension whose body may fail succeeds exactly when each element does, and otherwise fails with some element's error |
| Experiments.RunRandomPhase | Experiment.py:157-175 | no repetitions fail in `max`; a randomised phase touches nothing of the group but its stimuli and previous λ |
| Experiments.RunPhaseOf | Experiment.py:153-175 | a non-random phase runs once in written order; a random one is repeated over the orders |
| Experiments.RunEach | Experiment.py:150-177 | the phase loop reports one list of steps per phase |
| Experiments.RunGroupExperiments | Experiment.py:150-177 | the experiment reports one list of steps per phase and touches nothing of the group but its stimuli and previous λ |
| Experiments.RunEachSplit | Experiment.py:153-177 | phases compose: running a list and then more phases from where it ended is running the joined list, reports joined |
| Experiments.RunGroupExperimentsSplit | Experiment.py:150-177 | the same for the experiment |
| Experiments.TouchesRearranged | Experiment.py:163 | how often a CS is presented does not depend on the order of the trials |
| Experiments.PhaseLengthAnyOrder | Experiment.py:163-166 | a phase run in any order of its trials reports one step more than the most any CS is presented |
| Experiments.PhaseStepsAnyOrder | Experiment.py:163-166 | in any order, step x holds, well formed, exactly the CS presented at least x times |
| Experiments.RepetitionShape | Experiment.py:162-167 | every repetition reports as many steps as any order of the phase, each holding the CS shown at that step |
| Experiments.RepetitionsAgree | Experiment.py:162-167 | all repetitions report the same number of steps |
| Experiments.RepetitionsFull | Experiment.py:170-173 | every repetition reaches the longest one |
| Experiments.StepMean | Experiment.py:170-173 | every repetition contributes to step x, and its average holds the CS shown at x, each field the mean |
| Experiments.RepetitionMeans | Experiment.py:170-173 | the averaged steps of the repetitions are their means |
| Experiments.RandomPhaseSteps | Experiment.py:170-175 | the averaged report is the average of the gathered steps of the repetitions |
| Experiments.RandomPhaseAverages | Experiment.py:157-175 | a randomised phase reports as many steps as one run in any order. Step x holds the CS shown at x, and each field is the mean over all repetitions of that field at their step x |
| Experiments.FinalShape | Experiment.py:168 | every final environment is well formed over the CS the phase started with |
| Experiments.FinalsMean | Experiment.py:175 | the averaged final environments have the starting CS, each field the mean of where the repetitions left it |
| Experiments.RandomPhaseCarries | Experiment.py:175 | after a randomised phase the group holds the mean of the final environments over the same CS |
| Experiments.RandomPhaseSucceeds | Experiment.py:157-175 | with well-formed stimuli and rearranged orders the averaging cannot fail: the phase fails exactly when a repetition does |
| Experiments.RepetitionsOfOne | Experiment.py:162-168 | a single repetition runs the phase once from a copy |
| Experiments.AverageOfOne | Experiment.py:170-173 | averaging the steps of a single history copies them |
| Experiments.RandomPhaseOfOne | Experiment.py:157-175 | a randomised phase repeated once is the plain phase run from a copy, its report and final stimuli copied again |
| Reports.StrictPick | Experiment.py:185 | reading a compound from a step is compound lookup, failing with its error |
| Reports.LenientPick | Experiment.py:185 | the corrected reading skips a step lacking a constituent and otherwise reads as the source does |
| Reports.SeriesNameInjective | Experiment.py:185 | different compound names give different series names |
| Reports.Append | Experiment.py:185 | adding to the default dict appends a copy to that series, creating it if need be, and leaves every other series alone |
| Reports.AddStep | Experiment.py:184-185 | one step succeeds exactly when every compound name reads, otherwise failing with some name's error |
| Reports.AddStepAt | Experiment.py:183-185 | one step grows each listed series by what the step holds for it and leaves the others alone |
| Reports.AddStepKeys | Experiment.py:184-185 | the series one step creates are those of the listed names the step yields a snapshot for |
| Reports.PhaseSeries | Experiment.py:183-185 | a phase report succeeds exactly when every name reads at every step |
| Reports.PhaseSeriesAt | Experiment.py:183-185 | each listed compound's series in a phase report is its trace over the steps |
| Reports.PhaseSeriesKeys | Experiment.py:183-185 | a phase report holds a series for a listed name exactly when some step yields a snapshot for it |
| Reports.PhaseNames | Experiment.py:184 | the names visited for each phase are its compound names |
| Reports.ReportAll | Experiment.py:181-187 | the report has one dict per phase, each that phase's report, succeeding exactly when every phase's does |
| Reports.GroupResultsAsWritten | Experiment.py:180-187 | the report as the source writes it, reading every compound name from every step |
| Reports.GroupResultsCorrected | Experiment.py:180-187 | the report with compounds absent from a step skipped |
| Reports.StrictAgreesLenient | Experiment.py:183-185 | where the source reads a phase successfully, the corrected reading agrees |
| Reports.CorrectionKeepsReports | Experiment.py:180-187 | where the source's report succeeds, the correction changes nothing |
| Reports.UnevenPhaseFails | Experiment.py:185 | a phase presenting some CS fewer times than another makes the source's report fail |
| Reports.LastStepLacks | Environment.py:113-125 | the last step of a phase lacks every CS presented fewer times than the most-presented one |
| Reports.AbsentFails | Experiment.py:185 | a compound name absent from the last step makes the source's report fail |
| Reports.MissingFails | Environment.py:148 | looking up a key with an absent constituent fails |
| Reports.FeatureNegativeFails | Experiment.py:185 | for any group storing `A` and `B` whose step cannot fail, the feature-negative phase `AB+/A-` runs but the source's report of it fails |
| Reports.CorrectedPickSucceeds | Experiment.py:185 | on a well-formed step the corrected reading of a non-empty, repeat-free name never fails |
| Reports.CorrectedReportSucceeds | Experiment.py:180-187 | the corrected report of well-formed steps succeeds whenever the compound names are non-empty and repeat-free |
| Reports.CorrectedSingleTrace | Experiment.py:183-185 | through the corrected reading, a single CS's series is its column of the steps, copied |
| Reports.CorrectedPhaseReport | Experiment.py:180-187 | the corrected report of a phase shows each single CS's history: a copy of its stimulus before the phase and one snapshot per presentation, nothing for a CS never presented |
| Reports.CorrectedSeries | Experiment.py:183-185 | the corrected report of one phase holds, for a single CS, a copy of its column |
| Arguments.CsNameLength | Simulator.py:20 | the CS name found is one capital or capitals in parentheses |
| Arguments.CsNameUnique | Simulator.py:20 | a CS name followed by anything is found whole |
| Arguments.TailPieces | Simulator.py:20 | what the tail matcher returns is a full match of the pattern's tail |
| Arguments.TailFrom | Simulator.py:20 | after the spaces and an optional `=`, the tail matches exactly when what follows the next spaces is a number of digits and dots, and that rest is the number group |
| Arguments.TailPiecesUnique | Simulator.py:20 | any full match of the tail has the number the matcher finds |
| Arguments.ArgPieces | Simulator.py:20 | what the argument matcher returns is a full match of the whole pattern |
| Arguments.ArgPiecesUnique | Simulator.py:20 | any full match of the pattern has the CS and number groups the matcher finds |
| Arguments.ReadArg | Simulator.py:20-22 | an argument is claimed exactly when the pattern matches, giving its CS group and `float` of its number |
| Arguments.MatchWith | Simulator.py:15-26 | a pass succeeds exactly when every claimed number converts. The rest is the unclaimed arguments in their order, and the CS keys are exactly those of the claimed arguments. Otherwise it fails with the error of the first claimed argument whose number does not convert |
| Arguments.LastWins | Simulator.py:21-22 | the last argument naming a CS gives its value |
| Arguments.MatchValues | Simulator.py:19-22 | a successful pass's table is the one built by letting each claimed argument in turn overwrite its CS's entry |
| Arguments.MatchSettles | Simulator.py:19-24 | a second pass with the same name claims nothing of what the first left |
| Arguments.ParseArgs | Simulator.py:89-96 | parsing succeeds exactly when every argument is claimed by some pass and the first pass to claim it converts its number. A failure is either a `float` error of a claimed argument or, when every number converts, the unrecognised-arguments error naming what no pass claims, in order |
| Arguments.ParseWith | Simulator.py:89-96 | the same for any five passes whose only failure is a number |
| Arguments.RunPasses | Simulator.py:91-95 | passes run in order, each over what the ones before left, succeed exactly when every argument's first claiming pass converts its number. They then leave exactly the arguments no pass claims, in order, and otherwise fail with the error of an argument whose first claiming pass rejects its number |
| Arguments.NothingClaimed | Simulator.py:96 | a non-empty list no pass claims is named whole and in order by the unrecognised-arguments error |
| Arguments.MackIsNotAlpha | Simulator.py:20 | `--alpha_mack-A=1` is not an `alpha` argument |
| Arguments.MackPassTakesIt | Simulator.py:93 | the `alpha_mack` pass takes it, giving `A` the value 1 |
| Arguments.ParenthesisedCompound | Simulator.py:20-22 | a parenthesised compound keeps its parentheses as its key, and spaces may surround `=` |
| Arguments.EmptyNumberRejected | Simulator.py:20-22 | a claimed argument without a number fails in `float('')` |
| Arguments.PassFails | Simulator.py:21-22 | a claimed argument whose number fails makes the pass fail with that error |
| Arguments.Unclaimed | Simulator.py:20 | an argument differing from `--{name}` within its length, or lacking a separator after it, is not claimed |
| Arguments.PassLeaves | Simulator.py:23-24 | a pass leaves an argument it does not claim |
| Arguments.PluralSpellingRejected | Simulator.py:36 | the plural `--saliences-A=…` that the help text shows is claimed by no pass and ends in the unrecognised-arguments error |

## Left out

- `Exponential` and `NewDualV` are not modelled: their steps use `alpha ** 0.05` and `math.exp`, which have no polynomial form over the reals.
- Floating-point rounding is not modelled: all arithmetic is on exact reals, so the truncation reason for averaging by divide-then-add cannot be expressed.
- `run_step` and `AdaptiveType.get` are not part of this model. The step a constituent takes is the named rule's step with the prediction error `β·(λ − σ)`, and a name selects the rule of that class name.
- `Environment.split_cs` and `Environment.list_cs` are not part of this model. The parser and `Phase.cs` take them as function parameters.
- The process-wide `configural_cues` flag is left out, because it only changes `list_cs`, which is a parameter.
- `random.shuffle` is not modelled: the order of each repetition is an input, and the averaging properties hold for any rearrangement. `num_trials` is the number of orders given.
- `Experiment.initial_group` and `run_all_phases` are left out. `initial_group` passes keywords (`alpha_macks`, `habituations`, `rho`, …) that `Group.__init__` does not accept, so the group is built by the constructor as declared.
- Argparse, the experiment file, printing, plotting, the GUI, `ipdb` and the remaining entry points are left out as I/O.
- `Environment.__init__` and its separate `cs` set are left out: on every path modelled the set equals the map's keys, so an environment is just the map.
- `Environments.SumsError`: when several keys of an environment addition fail, Python reports the first in set-iteration order. The model reports a failing key's error chosen by a fixed priority of error kinds.
- `Arguments.TailPiecesUnique` and `Arguments.ArgPiecesUnique`: uniqueness is stated for the groups the source reads (the CS and the number), not for the spaces around `=`.
- `Arguments.ParseArgs`: it states when parsing succeeds, how it fails and what is left, but not the values in the five tables. Those follow from `Arguments.MatchWith` and `Arguments.LastWins` for each pass.
- `Groups.RunPhaseWith`: the contract gives the shape of the result. The content of the report is stated by `Groups.RunPhaseHistories`, `Groups.RunPhaseLength` and `Groups.RunPartsHistories`.
- `Stimuli.Normalize`: the constructor's test is Python truthiness, so zero and `None` are both replaced. Only the numeric case exists once a stimulus is built.

## Findings

| source | as written | input that shows it | evidently intended | confidence | as-written member | corrected member |
|---|---|---|---|---|---|---|
| Experiment.py:183-185 | every compound name of the phase is read from every step with `strengths[cs]`, but a step holds only the CS whose history reaches it, so the last step lacks any CS presented fewer times than the most-presented one and the lookup raises KeyError | the phase `AB+/A-`: `A` is presented twice and `B` once, so the third step holds only `A` and reading `B` (or `AB`) there fails | a series per compound over the steps that hold it, skipping steps without it | medium, not executed | Reports.GroupResultsAsWritten (shown failing by Reports.UnevenPhaseFails and Reports.FeatureNegativeFails) | Reports.GroupResultsCorrected (Reports.CorrectedReportSucceeds, Reports.CorrectedPhaseReport, Reports.CorrectionKeepsReports) |
