/**
 The time budget of a model evaluation: what the task validator promises, what the
 harness computes, and what each phase is granted against the shared deadline.
 Times are milliseconds; the clock is real-valued.
 */
module ModelBudget {
  import opened Common
  import opened ManifestText

  /** A number field: missing or empty, not a number, or given. */
  datatype Number = Missing | Garbled | Given(value: int)

  /** The manifest fields that decide the budget, as one of the two readers sees them. */
  datatype Manifest = Manifest(
    timeLimit: Number, training: Number, prediction: Number, evaluator: Number,
    postTraining: Number, postPrediction: Number, postEvaluator: Number,
    baselineEnabled: Option<bool>, hasBaselineEntrypoint: bool,
    hasPublicTest: bool, hasPublicLabels: bool, postEnabled: bool)

  const FIELDS: set<string> := {
    "time_limit_ms", "training_time_limit_ms", "prediction_time_limit_ms", "evaluator_time_limit_ms",
    "post_training_time_limit_ms", "post_prediction_time_limit_ms", "post_evaluator_time_limit_ms",
    "baseline_enabled", "baseline_entrypoint", "public_test_dataset", "public_labels_dataset",
    "post_competition_enabled"}

  function NumberOf(field: Option<string>, parse: string -> Option<int>): Number {
    if field.None? || field.value == "" then Missing
    else if parse(field.value).Some? then Given(parse(field.value).value)
    else Garbled
  }

  predicate Truthy(value: string) {
    Lower(value) in {"1", "true", "yes", "on"}
  }

  predicate Filled(field: Option<string>) {
    field.Some? && field.value != ""
  }

  /** What a reader makes of the fields; both sides parse numbers with the same `int`. */
  function ManifestOf(read: string -> Option<string>, parse: string -> Option<int>): Manifest {
    var baseline, post := read("baseline_enabled"), read("post_competition_enabled");
    Manifest(
      NumberOf(read("time_limit_ms"), parse), NumberOf(read("training_time_limit_ms"), parse),
      NumberOf(read("prediction_time_limit_ms"), parse), NumberOf(read("evaluator_time_limit_ms"), parse),
      NumberOf(read("post_training_time_limit_ms"), parse), NumberOf(read("post_prediction_time_limit_ms"), parse),
      NumberOf(read("post_evaluator_time_limit_ms"), parse),
      if baseline.Some? then Some(Truthy(baseline.value)) else None, Filled(read("baseline_entrypoint")),
      Filled(read("public_test_dataset")), Filled(read("public_labels_dataset")),
      post.Some? && Truthy(post.value))
  }

  function ValidatorView(ls: seq<string>, parse: string -> Option<int>): Manifest {
    ManifestOf(name => ValidatorField(ls, name), parse)
  }

  function HarnessView(ls: seq<string>, parse: string -> Option<int>): Manifest {
    ManifestOf(name => HarnessField(ls, name), parse)
  }

  // ---- what the columns say of the text ----

  predicate Says(x: Number, field: Option<string>, parse: string -> Option<int>) {
    match x
    case Given(n) => field.Some? && field.value != "" && parse(field.value) == Some(n)
    case Garbled => field.Some? && field.value != "" && parse(field.value) == None
    case Missing => field == None || field == Some("")
  }

  /** One, true, yes or on, in any case. */
  predicate Yes(value: string) {
    exists word :: word in {"1", "true", "yes", "on"} && |word| == |value| && SameWord(word, value)
  }

  predicate SameWord(a: string, b: string)
    requires |a| == |b|
  {
    forall i :: 0 <= i < |a| ==> SameLetter(a[i], b[i])
  }

  lemma TruthyIsYes(value: string)
    ensures Truthy(value) <==> Yes(value)
  {
    LowerIgnoresCase("1", value);
    LowerIgnoresCase("true", value);
    LowerIgnoresCase("yes", value);
    LowerIgnoresCase("on", value);
    assert Lower("1") == "1" && Lower("true") == "true" && Lower("yes") == "yes" && Lower("on") == "on";
  }

  lemma NumberSays(field: Option<string>, parse: string -> Option<int>)
    ensures Says(NumberOf(field, parse), field, parse)
  {
  }

  /** Each limit comes from the field of its name. */
  lemma LimitsSay(read: string -> Option<string>, parse: string -> Option<int>)
    ensures var m := ManifestOf(read, parse);
      && Says(m.timeLimit, read("time_limit_ms"), parse) && Says(m.training, read("training_time_limit_ms"), parse)
      && Says(m.prediction, read("prediction_time_limit_ms"), parse) && Says(m.evaluator, read("evaluator_time_limit_ms"), parse)
      && Says(m.postTraining, read("post_training_time_limit_ms"), parse)
      && Says(m.postPrediction, read("post_prediction_time_limit_ms"), parse)
      && Says(m.postEvaluator, read("post_evaluator_time_limit_ms"), parse)
  {
    hide Says, NumberOf, Truthy, Filled;
    NumberSays(read("time_limit_ms"), parse);
    NumberSays(read("training_time_limit_ms"), parse);
    NumberSays(read("prediction_time_limit_ms"), parse);
    NumberSays(read("evaluator_time_limit_ms"), parse);
    NumberSays(read("post_training_time_limit_ms"), parse);
    NumberSays(read("post_prediction_time_limit_ms"), parse);
    NumberSays(read("post_evaluator_time_limit_ms"), parse);
  }

  predicate Chooses(x: Option<bool>, field: Option<string>) {
    if field.None? then x.None? else x == Some(Yes(field.value))
  }

  /** And so does each choice. */
  lemma ChoicesSay(read: string -> Option<string>, parse: string -> Option<int>)
    ensures var m := ManifestOf(read, parse);
      && Chooses(m.baselineEnabled, read("baseline_enabled"))
      && (m.postEnabled <==> read("post_competition_enabled").Some? && Yes(read("post_competition_enabled").value))
      && (m.hasBaselineEntrypoint <==> read("baseline_entrypoint").Some? && read("baseline_entrypoint").value != "")
      && (m.hasPublicTest <==> read("public_test_dataset").Some? && read("public_test_dataset").value != "")
      && (m.hasPublicLabels <==> read("public_labels_dataset").Some? && read("public_labels_dataset").value != "")
  {
    hide NumberOf, Truthy, Yes;
    var baseline, post := read("baseline_enabled"), read("post_competition_enabled");
    if baseline.Some? {
      TruthyIsYes(baseline.value);
    }
    if post.Some? {
      TruthyIsYes(post.value);
    }
  }

  datatype Profile = Live | PostCompetition

  const MIN_TIME := 1_000
  const MAX_TIME := 3_600_000
  const SLACK := 5_000

  /** A field that is not a number counts as zero, which both sides refuse, as they refuse the field. */
  function Or(x: Number, default: int): int {
    match x
    case Missing => default
    case Garbled => 0
    case Given(value) => value
  }

  // ---- the validator ----

  predicate ValidatorBaseline(m: Manifest) {
    if m.baselineEnabled.Some? then m.baselineEnabled.value else m.hasBaselineEntrypoint
  }

  function LiveBudget(m: Manifest): int {
    var solutions := if ValidatorBaseline(m) then 2 else 1;
    var splits := if m.hasPublicTest then 2 else 1;
    solutions * (Or(m.training, 0) + splits * Or(m.prediction, 0) + splits * Or(m.evaluator, 0)) + SLACK
  }

  function PostBudget(m: Manifest): int {
    var solutions := if ValidatorBaseline(m) then 2 else 1;
    solutions * (Or(m.postTraining, 0) + Or(m.postPrediction, 0) + Or(m.postEvaluator, 0)) + SLACK
  }

  predicate InRange(x: Number) {
    MIN_TIME <= Or(x, 0) <= MAX_TIME
  }

  predicate Accepts(m: Manifest) {
    && InRange(m.timeLimit) && InRange(m.training) && InRange(m.prediction) && InRange(m.evaluator)
    && m.hasPublicTest == m.hasPublicLabels
    && (m.postEnabled ==> Or(m.postTraining, 0) >= 1 && Or(m.postPrediction, 0) >= 1 && Or(m.postEvaluator, 0) >= 1)
    && LiveBudget(m) <= Or(m.timeLimit, 0) && LiveBudget(m) <= MAX_TIME
    && (m.postEnabled ==> PostBudget(m) <= Or(m.timeLimit, 0) && PostBudget(m) <= MAX_TIME)
  }

  datatype BudgetError =
    | OutOfRange(limit: nat) | PublicPairIncomplete | PostLimitNotPositive
    | LiveNotCovered | LiveTooLong | PostNotCovered | PostTooLong

  /** Collects the errors the budget rules append. */
  method Validate(m: Manifest) returns (errors: seq<BudgetError>)
    ensures errors == [] <==> Accepts(m)
  {
    hide LiveBudget, PostBudget;
    errors := [];
    var limits := [m.timeLimit, m.training, m.prediction, m.evaluator];
    for i := 0 to |limits|
      invariant errors == [] <==> forall k :: 0 <= k < i ==> InRange(limits[k])
    {
      if !InRange(limits[i]) {
        errors := errors + [OutOfRange(i)];
      }
    }
    ghost var ranged := errors == [];
    assert ranged <==> InRange(limits[0]) && InRange(limits[1]) && InRange(limits[2]) && InRange(limits[3]);
    var total := Or(m.timeLimit, 0);
    if m.hasPublicTest != m.hasPublicLabels {
      errors := errors + [PublicPairIncomplete];
    }
    if m.postEnabled && (Or(m.postTraining, 0) < 1 || Or(m.postPrediction, 0) < 1 || Or(m.postEvaluator, 0) < 1) {
      errors := errors + [PostLimitNotPositive];
    }
    if total < LiveBudget(m) {
      errors := errors + [LiveNotCovered];
    }
    if LiveBudget(m) > MAX_TIME {
      errors := errors + [LiveTooLong];
    }
    if m.postEnabled && total < PostBudget(m) {
      errors := errors + [PostNotCovered];
    }
    if m.postEnabled && PostBudget(m) > MAX_TIME {
      errors := errors + [PostTooLong];
    }
  }

  // ---- the harness ----

  predicate HarnessBaseline(m: Manifest) {
    m.baselineEnabled == Some(true)
  }

  function Training(m: Manifest, p: Profile): int {
    Or(if p.Live? then m.training else m.postTraining, 120_000)
  }

  function Prediction(m: Manifest, p: Profile): int {
    Or(if p.Live? then m.prediction else m.postPrediction, 10_000)
  }

  function Evaluator(m: Manifest, p: Profile): int {
    Or(if p.Live? then m.evaluator else m.postEvaluator, 10_000)
  }

  function Solutions(m: Manifest): nat {
    if HarnessBaseline(m) then 2 else 1
  }

  function Splits(m: Manifest, p: Profile): nat {
    if p.Live? && m.hasPublicTest && m.hasPublicLabels then 2 else 1
  }

  function Calculated(m: Manifest, p: Profile): int {
    Solutions(m) * (Training(m, p) + Splits(m, p) * Prediction(m, p) + Splits(m, p) * Evaluator(m, p)) + SLACK
  }

  function Budget(m: Manifest, p: Profile): int {
    var declared := Or(m.timeLimit, Calculated(m, p));
    if declared < Calculated(m, p) then declared else Calculated(m, p)
  }

  /** The limits the harness turns down before it starts the clock. */
  predicate Refuses(m: Manifest, p: Profile) {
    || Budget(m, p) < 1 || Training(m, p) < 1 || Prediction(m, p) < 1 || Evaluator(m, p) < 1
    || (p.Live? && m.hasPublicTest != m.hasPublicLabels)
  }

  function Total(plan: seq<int>): int {
    if plan == [] then 0 else Total(plan[..|plan| - 1]) + plan[|plan| - 1]
  }

  function PerSolution(m: Manifest, p: Profile): int {
    Training(m, p) + Splits(m, p) * Prediction(m, p) + Splits(m, p) * Evaluator(m, p)
  }

  /** The limit of the k-th phase of one solution: training, then a prediction per split, then an evaluation per split. */
  function PhaseLimit(m: Manifest, p: Profile, k: nat): int {
    if k == 0 then Training(m, p) else if k <= Splits(m, p) then Prediction(m, p) else Evaluator(m, p)
  }

  function PhaseCount(m: Manifest, p: Profile): nat {
    1 + 2 * Splits(m, p)
  }

  /** The phases of a whole evaluation in order; the baseline, when there is one, runs first. */
  ghost predicate IsPlan(m: Manifest, p: Profile, plan: seq<int>) {
    && |plan| == Solutions(m) * PhaseCount(m, p) && Total(plan) + SLACK == Calculated(m, p)
    && forall i :: 0 <= i < |plan| ==>
         plan[i] == PhaseLimit(m, p, if i < PhaseCount(m, p) then i else i - PhaseCount(m, p))
  }

  /** Trains one solution, predicts every split with it, then evaluates every split. */
  method RunSolution(m: Manifest, p: Profile, plan: seq<int>) returns (longer: seq<int>)
    ensures |longer| == |plan| + PhaseCount(m, p) && plan <= longer
    ensures Total(longer) == Total(plan) + PerSolution(m, p)
    ensures forall k :: 0 <= k < PhaseCount(m, p) ==> longer[|plan| + k] == PhaseLimit(m, p, k)
  {
    TotalAppend(plan, Training(m, p));
    longer := plan + [Training(m, p)];
    longer := Repeat(longer, Prediction(m, p), Splits(m, p));
    longer := Repeat(longer, Evaluator(m, p), Splits(m, p));
  }

  method PlanPhases(m: Manifest, p: Profile) returns (plan: seq<int>)
    ensures IsPlan(m, p, plan)
    ensures |plan| == (if m.baselineEnabled == Some(true) then 2 else 1) *
                      (if p == Live && m.hasPublicTest && m.hasPublicLabels then 5 else 3)
  {
    hide Training, Prediction, Evaluator, Splits, Total;
    plan := [];
    EmptyTotal();
    if HarnessBaseline(m) {
      plan := RunSolution(m, p, plan);
    }
    ghost var before := plan;
    plan := RunSolution(m, p, plan);
    assert forall i :: |before| <= i < |plan| ==> plan[i] == plan[|before| + (i - |before|)];
    FiveOrThree(m, p);
  }

  lemma FiveOrThree(m: Manifest, p: Profile)
    ensures PhaseCount(m, p) == if p == Live && m.hasPublicTest && m.hasPublicLabels then 5 else 3
  {
  }

  lemma EmptyTotal()
    ensures Total([]) == 0
  {
  }

  lemma TotalAppend(plan: seq<int>, x: int)
    ensures Total(plan + [x]) == Total(plan) + x
  {
    assert (plan + [x])[..|plan|] == plan;
  }

  method Repeat(plan: seq<int>, limit: int, times: nat) returns (longer: seq<int>)
    ensures Total(longer) == Total(plan) + times * limit && |longer| == |plan| + times
    ensures forall i :: 0 <= i < |longer| ==> longer[i] == if i < |plan| then plan[i] else limit
  {
    longer := plan;
    for i := 0 to times
      invariant Total(longer) == Total(plan) + i * limit && |longer| == |plan| + i
      invariant forall k :: 0 <= k < |longer| ==> longer[k] == if k < |plan| then plan[k] else limit
    {
      TotalAppend(longer, limit);
      longer := longer + [limit];
    }
  }

  /**
   Reading the same fields, the harness's budget is its own computed sum whenever
   the validator accepts, although the two decide on the baseline differently.
   */
  lemma SharedBudget(m: Manifest, p: Profile)
    requires Accepts(m) && (p.PostCompetition? ==> m.postEnabled)
    ensures Budget(m, p) == Calculated(m, p) <= MAX_TIME && !Refuses(m, p)
  {
    var solutions := if ValidatorBaseline(m) then 2 else 1;
    assert PerSolution(m, p) >= 1;
    assert Solutions(m) <= solutions;
    assert Solutions(m) * PerSolution(m, p) <= solutions * PerSolution(m, p);
    assert Calculated(m, p) <= if p.Live? then LiveBudget(m) else PostBudget(m);
  }

  // ---- plan and budgets, on the manifest's columns ----

  function LimitOr(x: Number, default: int): int {
    if x == Missing then default else if x.Given? then x.value else 0
  }

  /** Every plan spelled out: training, then a prediction for each split, then an evaluation for each, once or twice over. */
  lemma PlanSpelledOut(m: Manifest, p: Profile, plan: seq<int>)
    requires IsPlan(m, p, plan)
    ensures var t := LimitOr(if p == Live then m.training else m.postTraining, 120_000);
      var q := LimitOr(if p == Live then m.prediction else m.postPrediction, 10_000);
      var e := LimitOr(if p == Live then m.evaluator else m.postEvaluator, 10_000);
      var one := if p == Live && m.hasPublicTest && m.hasPublicLabels then [t, q, q, e, e] else [t, q, e];
      plan == if m.baselineEnabled == Some(true) then one + one else one
  {
    hide Total;
  }

  /** The two sides compute the same budget from their own formulas whenever they agree on the baseline. */
  lemma BudgetsAgree(m: Manifest)
    requires Accepts(m) && ValidatorBaseline(m) == HarnessBaseline(m)
    ensures Calculated(m, Live) == LiveBudget(m)
    ensures m.postEnabled ==> Calculated(m, PostCompetition) == PostBudget(m)
  {
  }

  predicate Milliseconds(x: int) {
    1_000 <= x <= 3_600_000
  }

  /** When a manifest of whole numbers is accepted, in closed form, without and with a post-competition profile. */
  lemma AcceptsIff(m: Manifest, total: int, t: int, q: int, e: int, pt: int, pq: int, pe: int)
    requires m.timeLimit == Given(total) && m.training == Given(t) && m.prediction == Given(q) && m.evaluator == Given(e)
    requires m.postTraining == Given(pt) && m.postPrediction == Given(pq) && m.postEvaluator == Given(pe)
    ensures var two := m.baselineEnabled == Some(true) || (m.baselineEnabled == None && m.hasBaselineEntrypoint);
      var live := if m.hasPublicTest then t + q + q + e + e else t + q + e;
      var post := pt + pq + pe;
      Accepts(m) <==>
      && Milliseconds(total) && Milliseconds(t) && Milliseconds(q) && Milliseconds(e) && m.hasPublicTest == m.hasPublicLabels
      && (if two then live + live else live) + 5_000 <= total
      && (m.postEnabled ==> pt >= 1 && pq >= 1 && pe >= 1 && (if two then post + post else post) + 5_000 <= total)
  {
  }

  /** The harness refuses a budget or a limit below one, or half of a public pair. */
  lemma RefusesAtLeast(m: Manifest, p: Profile)
    ensures p == Live && m.hasPublicTest != m.hasPublicLabels ==> Refuses(m, p)
    ensures Budget(m, p) <= 0 || Training(m, p) <= 0 || Prediction(m, p) <= 0 || Evaluator(m, p) <= 0 ==> Refuses(m, p)
  {
  }

  /** A limit that is missing or no number is never accepted. */
  lemma NumbersAreNeeded(m: Manifest)
    requires Accepts(m)
    ensures m.timeLimit.Given? && m.training.Given? && m.prediction.Given? && m.evaluator.Given?
    ensures m.postEnabled ==> m.postTraining.Given? && m.postPrediction.Given? && m.postEvaluator.Given?
  {
  }

  // ---- from the text ----

  /** Every field that decides the budget is clear, and newlines are the only line breaks. */
  ghost predicate ClearText(text: string) {
    OnlyNewlines(text) && forall name :: name in FIELDS ==> Clear(ValidatorLines(text), name)
  }

  lemma ViewsAgree(ls: seq<string>, parse: string -> Option<int>)
    requires forall name :: name in FIELDS && name != "baseline_enabled" ==> Clear(ls, name)
    ensures var v, h := ValidatorView(ls, parse), HarnessView(ls, parse);
      v == h.(baselineEnabled := v.baselineEnabled)
    ensures Clear(ls, "baseline_enabled") ==> ValidatorView(ls, parse) == HarnessView(ls, parse)
  {
    hide Clear, ValidatorField, HarnessField, ValidatorLine, HarnessLine, Truthy;
    ReadAlikeIff(ls, "baseline_enabled");
    forall name | name in FIELDS && name != "baseline_enabled" ensures ValidatorField(ls, name) == HarnessField(ls, name) {
      ReadAlikeIff(ls, name);
    }
  }

  /**
   For every clear manifest text the validator accepts, the harness's budget is its
   own computed sum and it refuses none of the limits, for each profile that may run.
   */
  lemma BudgetIsTheSum(text: string, parse: string -> Option<int>, p: Profile)
    requires ClearText(text) && Accepts(ValidatorView(ValidatorLines(text), parse))
    requires p.PostCompetition? ==> HarnessView(HarnessLines(text), parse).postEnabled
    ensures var m := HarnessView(HarnessLines(text), parse);
      Budget(m, p) == Calculated(m, p) <= MAX_TIME && !Refuses(m, p)
  {
    hide Clear, ManifestOf, Accepts;
    SameLinesIff(text);
    ViewsAgree(ValidatorLines(text), parse);
    SharedBudget(HarnessView(HarnessLines(text), parse), p);
  }

  /**
   When only `baseline_enabled` may be read differently, the budget is the sum
   exactly unless the harness runs a baseline the validator did not see and the
   declared limit does not cover two solutions.
   */
  lemma BudgetIsTheSumIff(ls: seq<string>, parse: string -> Option<int>, p: Profile)
    requires forall name :: name in FIELDS && name != "baseline_enabled" ==> Clear(ls, name)
    requires Accepts(ValidatorView(ls, parse)) && (p.PostCompetition? ==> HarnessView(ls, parse).postEnabled)
    ensures var v, h := ValidatorView(ls, parse), HarnessView(ls, parse);
      Budget(h, p) == Calculated(h, p) <==>
      ValidatorBaseline(v) || h.baselineEnabled != Some(true) || 2 * PerSolution(h, p) + SLACK <= Or(v.timeLimit, 0)
  {
    hide Clear, ManifestOf;
    ViewsAgree(ls, parse);
    var v, h := ValidatorView(ls, parse), HarnessView(ls, parse);
    SharedBudget(v, p);
    assert PerSolution(v, p) == PerSolution(h, p) >= 1;
    assert ValidatorBaseline(v) ==> 2 * PerSolution(h, p) + SLACK <= Or(v.timeLimit, 0);
  }

  /**
   A field without a value right above `baseline_enabled`: the validator takes the
   whole next line for its value.
   */
  predicate HidesBaseline(ls: seq<string>) {
    && |ls| == 6
    && ShapeOf(ls[0]) == Full("time_limit_ms", "35000") && ShapeOf(ls[1]) == Full("training_time_limit_ms", "10000")
    && ShapeOf(ls[2]) == Full("prediction_time_limit_ms", "10000") && ShapeOf(ls[3]) == Full("evaluator_time_limit_ms", "10000")
    && ShapeOf(ls[4]) == Full("notes", "") && ShapeOf(ls[5]) == Full("baseline_enabled", "true")
  }

  const HIDDEN_BASELINE: seq<string> := [
    FieldText("time_limit_ms", "35000"), FieldText("training_time_limit_ms", "10000"),
    FieldText("prediction_time_limit_ms", "10000"), FieldText("evaluator_time_limit_ms", "10000"),
    FieldText("notes", ""), FieldText("baseline_enabled", "true")]

  lemma HiddenLines() returns (ls: seq<string>)
    ensures HidesBaseline(ls)
    ensures ls == HIDDEN_BASELINE
  {
    hide ShapeOf, FieldText;
    ls := HIDDEN_BASELINE;
    LineTimeLimit();
    LineTraining();
    LinePrediction();
    LineEvaluator();
    LineNotes();
    LineBaseline();
  }

  lemma LineTimeLimit()
    ensures ShapeOf(FieldText("time_limit_ms", "35000")) == Full("time_limit_ms", "35000")
  {
    hide ShapeOf, FieldText;
    FieldShape("time_limit_ms", "35000");
  }

  lemma LimitName(prefix: string)
    requires IsName(prefix)
    ensures IsName(prefix + "time_limit_ms")
  {
    assert IsName("time_limit_ms");
  }

  lemma LineTraining()
    ensures ShapeOf(FieldText("training_time_limit_ms", "10000")) == Full("training_time_limit_ms", "10000")
  {
    hide ShapeOf, FieldText;
    assert IsName("training_");
    assert Solid("10000");
    hide IsName, Solid;
    LimitName("training_");
    assert "training_" + "time_limit_ms" == "training_time_limit_ms";
    FieldShape("training_time_limit_ms", "10000");
  }

  lemma LinePrediction()
    ensures ShapeOf(FieldText("prediction_time_limit_ms", "10000")) == Full("prediction_time_limit_ms", "10000")
  {
    hide ShapeOf, FieldText;
    assert IsName("prediction_");
    assert Solid("10000");
    hide IsName, Solid;
    LimitName("prediction_");
    assert "prediction_" + "time_limit_ms" == "prediction_time_limit_ms";
    FieldShape("prediction_time_limit_ms", "10000");
  }

  lemma LineEvaluator()
    ensures ShapeOf(FieldText("evaluator_time_limit_ms", "10000")) == Full("evaluator_time_limit_ms", "10000")
  {
    hide ShapeOf, FieldText;
    assert IsName("evaluator_");
    assert Solid("10000");
    hide IsName, Solid;
    LimitName("evaluator_");
    assert "evaluator_" + "time_limit_ms" == "evaluator_time_limit_ms";
    FieldShape("evaluator_time_limit_ms", "10000");
  }

  lemma LineNotes()
    ensures ShapeOf(FieldText("notes", "")) == Full("notes", "")
  {
    hide ShapeOf, FieldText;
    FieldShape("notes", "");
  }

  lemma LineBaseline()
    ensures ShapeOf(FieldText("baseline_enabled", "true")) == Full("baseline_enabled", "true")
  {
    hide ShapeOf, FieldText;
    FieldShape("baseline_enabled", "true");
  }

  lemma OnlyLastHidden(ls: seq<string>)
    requires HidesBaseline(ls)
    ensures Hidden(ls, 5) && forall k :: 0 <= k < 5 ==> !Hidden(ls, k)
    ensures forall k, name :: 0 <= k < 6 ==> !SpreadAt(ls, k, name)
  {
    hide ShapeOf;
    assert !Hidden(ls, 0) && !Hidden(ls, 1) && !Hidden(ls, 2) && !Hidden(ls, 3) && !Hidden(ls, 4);
  }

  lemma HiddenLimits(ls: seq<string>)
    requires HidesBaseline(ls)
    ensures ValidatorField(ls, "time_limit_ms") == Some("35000") == HarnessField(ls, "time_limit_ms")
    ensures ValidatorField(ls, "training_time_limit_ms") == Some("10000") == HarnessField(ls, "training_time_limit_ms")
    ensures ValidatorField(ls, "prediction_time_limit_ms") == Some("10000") == HarnessField(ls, "prediction_time_limit_ms")
    ensures ValidatorField(ls, "evaluator_time_limit_ms") == Some("10000") == HarnessField(ls, "evaluator_time_limit_ms")
  {
    hide ShapeOf, Hidden, ValidatorField, HarnessField, SpreadAt;
    OnlyLastHidden(ls);
    FoundField(ls, "time_limit_ms", 0, "35000");
    FoundField(ls, "training_time_limit_ms", 1, "10000");
    FoundField(ls, "prediction_time_limit_ms", 2, "10000");
    FoundField(ls, "evaluator_time_limit_ms", 3, "10000");
  }

  lemma HiddenOthers(ls: seq<string>, name: string)
    requires HidesBaseline(ls) && name in FIELDS && name != "time_limit_ms" && name != "training_time_limit_ms"
    requires name != "prediction_time_limit_ms" && name != "evaluator_time_limit_ms"
    ensures ValidatorField(ls, name) == None
    ensures HarnessField(ls, name) == if name == "baseline_enabled" then Some("true") else None
  {
    hide ShapeOf, Hidden, ValidatorField, HarnessField, SpreadAt, Solid;
    OnlyLastHidden(ls);
    assert name != "notes";
    assert forall k :: 0 <= k < 5 ==> !PlainAt(ls, k, name);
    UnseenField(ls, name);
    if name == "baseline_enabled" {
      SolidTrue();
      FoundField(ls, name, 5, "true");
    }
  }

  lemma SolidTrue()
    ensures Solid("true")
  {
  }

  /** The validator accepts those six lines, and the harness's budget is not the sum it computed. */
  lemma HiddenBaselineBreaksTheBudget(parse: string -> Option<int>) returns (ls: seq<string>)
    requires parse("35000") == Some(35000) && parse("10000") == Some(10000)
    ensures ls == HIDDEN_BASELINE
    ensures Accepts(ValidatorView(ls, parse))
    ensures Calculated(HarnessView(ls, parse), Live) == 65_000 && Budget(HarnessView(ls, parse), Live) == 35_000
  {
    hide ShapeOf, Hidden, ValidatorField, HarnessField, HidesBaseline, Lower;
    ls := HiddenLines();
    HiddenLimits(ls);
    forall name | name in FIELDS && name != "time_limit_ms" && name != "training_time_limit_ms"
        && name != "prediction_time_limit_ms" && name != "evaluator_time_limit_ms"
      ensures ValidatorField(ls, name) == None
      ensures HarnessField(ls, name) == if name == "baseline_enabled" then Some("true") else None
    {
      HiddenOthers(ls, name);
    }
    TrueIsTruthy();
  }

  lemma TrueIsTruthy()
    ensures Truthy("true")
  {
    assert Lower("true") == "true";
  }

  // ---- phases against the deadline ----

  /** Milliseconds left, as the harness truncates them. */
  function Remaining(deadline: real, now: real): int {
    var left := (deadline - now).Floor;
    if left < 0 then 0 else left
  }

  function PhaseTimeout(limit: int, deadline: real, now: real): Option<int> {
    var remaining := Remaining(deadline, now);
    if remaining <= 0 then None else Some(if limit < remaining then limit else remaining)
  }

  lemma NeverPastDeadline(limit: int, deadline: real, now: real)
    ensures PhaseTimeout(limit, deadline, now).Some? ==>
      now + PhaseTimeout(limit, deadline, now).value as real <= deadline
    ensures limit >= 1 && now + limit as real <= deadline ==> PhaseTimeout(limit, deadline, now) == Some(limit)
    ensures PhaseTimeout(limit, deadline, now) == None <==> deadline - now < 1.0
    ensures PhaseTimeout(limit, deadline, now).Some? && PhaseTimeout(limit, deadline, now).value != limit ==>
      PhaseTimeout(limit, deadline, now).value < limit &&
      now + PhaseTimeout(limit, deadline, now).value as real + 1.0 > deadline
  {
  }

  /** Asks for a timeout before every phase and stops at the first one the deadline refuses. */
  method GrantPhases(plan: seq<int>, clock: seq<real>, deadline: real) returns (granted: seq<int>)
    requires |clock| == |plan|
    ensures |granted| <= |plan|
    ensures forall i :: 0 <= i < |granted| ==>
      Some(granted[i]) == PhaseTimeout(plan[i], deadline, clock[i]) && clock[i] + granted[i] as real <= deadline
    ensures |granted| < |plan| ==> PhaseTimeout(plan[|granted|], deadline, clock[|granted|]).None?
  {
    granted := [];
    for i := 0 to |plan|
      invariant |granted| == i
      invariant forall k :: 0 <= k < i ==>
        Some(granted[k]) == PhaseTimeout(plan[k], deadline, clock[k]) && clock[k] + granted[k] as real <= deadline
    {
      var timeout := PhaseTimeout(plan[i], deadline, clock[i]);
      NeverPastDeadline(plan[i], deadline, clock[i]);
      if timeout.None? {
        return;
      }
      granted := granted + [timeout.value];
    }
  }

  /** When phase i asks for its timeout: untimed work before each phase, and the phases before it. */
  function StartOf(start: real, untimed: seq<real>, used: seq<real>, i: nat): real
    requires i < |untimed| && i <= |used|
  {
    (if i == 0 then start else StartOf(start, untimed, used, i - 1) + used[i - 1]) + untimed[i]
  }

  function UntimedUpTo(untimed: seq<real>, n: nat): real
    requires n <= |untimed|
  {
    if n == 0 then 0.0 else UntimedUpTo(untimed, n - 1) + untimed[n - 1]
  }

  lemma {:induction false} StartBound(start: real, plan: seq<int>, untimed: seq<real>, used: seq<real>, i: nat)
    requires i < |plan| == |untimed| == |used|
    requires forall k :: 0 <= k < i ==> used[k] <= plan[k] as real
    ensures StartOf(start, untimed, used, i) <= start + UntimedUpTo(untimed, i + 1) + Total(plan[..i]) as real
  {
    if i > 0 {
      StartBound(start, plan, untimed, used, i - 1);
      assert plan[..i][..i - 1] == plan[..i - 1];
    }
  }

  lemma {:induction false} UntimedGrows(untimed: seq<real>, n: nat, m: nat)
    requires n <= m <= |untimed| && forall k :: 0 <= k < |untimed| ==> untimed[k] >= 0.0
    ensures UntimedUpTo(untimed, n) <= UntimedUpTo(untimed, m)
    decreases m
  {
    if n < m {
      UntimedGrows(untimed, n, m - 1);
    }
  }

  lemma {:induction false} TotalGrows(plan: seq<int>, i: nat)
    requires i < |plan| && forall k :: 0 <= k < |plan| ==> plan[k] >= 1
    ensures Total(plan[..i]) + plan[i] <= Total(plan)
    decreases |plan|
  {
    var n := |plan| - 1;
    if i < n {
      TotalGrows(plan[..n], i);
      assert plan[..n][..i] == plan[..i];
    }
  }

  /**
   If the phases before it kept their limits and untimed work totals at most five
   seconds, a phase gets its full limit.
   */
  lemma FullLimit(plan: seq<int>, start: real, budget: int, untimed: seq<real>, used: seq<real>, i: nat)
    requires i < |plan| == |untimed| == |used|
    requires budget == Total(plan) + SLACK && forall k :: 0 <= k < |plan| ==> plan[k] >= 1
    requires forall k :: 0 <= k < i ==> used[k] <= plan[k] as real
    requires forall k :: 0 <= k < |untimed| ==> untimed[k] >= 0.0
    requires UntimedUpTo(untimed, |untimed|) <= SLACK as real
    ensures PhaseTimeout(plan[i], start + budget as real, StartOf(start, untimed, used, i)) == Some(plan[i])
  {
    var now := StartOf(start, untimed, used, i);
    StartBound(start, plan, untimed, used, i);
    UntimedGrows(untimed, i + 1, |untimed|);
    TotalGrows(plan, i);
    NeverPastDeadline(plan[i], start + budget as real, now);
  }

  /** So for every clear text that is accepted, every phase of every plan gets its full limit from the harness's budget. */
  lemma AcceptedGetsFullLimits(
    text: string, parse: string -> Option<int>, p: Profile, plan: seq<int>,
    start: real, untimed: seq<real>, used: seq<real>, i: nat)
    requires ClearText(text) && Accepts(ValidatorView(ValidatorLines(text), parse))
    requires p.PostCompetition? ==> HarnessView(HarnessLines(text), parse).postEnabled
    requires IsPlan(HarnessView(HarnessLines(text), parse), p, plan)
    requires i < |plan| == |untimed| == |used|
    requires forall k :: 0 <= k < i ==> used[k] <= plan[k] as real
    requires forall k :: 0 <= k < |untimed| ==> untimed[k] >= 0.0
    requires UntimedUpTo(untimed, |untimed|) <= SLACK as real
    ensures var budget := Budget(HarnessView(HarnessLines(text), parse), p);
      PhaseTimeout(plan[i], start + budget as real, StartOf(start, untimed, used, i)) == Some(plan[i])
  {
    hide Clear, ManifestOf, Accepts, ClearText;
    var m := HarnessView(HarnessLines(text), parse);
    BudgetIsTheSum(text, parse, p);
    PlanIsPositive(m, p, plan);
    FullLimit(plan, start, Budget(m, p), untimed, used, i);
  }

  lemma PlanIsPositive(m: Manifest, p: Profile, plan: seq<int>)
    requires IsPlan(m, p, plan) && !Refuses(m, p)
    ensures forall k :: 0 <= k < |plan| ==> plan[k] >= 1
  {
  }
}
