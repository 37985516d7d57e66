/** Changing a parameter, promoting a staged change, rolling one back (packages/admin/src/settings.ts). */
module Settings {
  import opened Common
  import opened Registry
  import Governance
  import Json

  /** A row of the change log. Its id is its position, which is also the order of insertion. */
  datatype Change = Change(
    key: Key,
    previousValue: real,
    newValue: real,
    reason: Text,
    changedBy: Text,
    staged: bool,
    appliedAt: Option<Instant>,
    promotedBy: Option<Text>)

  /** The applied change of the key with the latest `appliedAt`, the later inserted of a tie. */
  function Latest(changes: seq<Change>, key: Key): (r: Option<nat>)
    ensures r.Some? ==> r.value < |changes| && changes[r.value].key == key && changes[r.value].appliedAt.Some?
  {
    if changes == [] then None
    else
      var n := |changes| - 1;
      var rest := Latest(changes[..n], key);
      if changes[n].key != key || changes[n].appliedAt.None? then rest
      else if rest.Some? && changes[rest.value].appliedAt.value > changes[n].appliedAt.value then rest
      else Some(n)
  }

  /** `effectiveValue` */
  function EffectiveValue(parameters: seq<Parameter>, changes: seq<Change>, key: Key): Outcome<real> {
    var parameter := ParameterFor(parameters, key);
    if parameter.None? then if key in INVARIANTS then Refused else NoData
    else
      var latest := Latest(changes, key);
      Ok(if latest.Some? then changes[latest.value].newValue else parameter.value.compiledDefault)
  }

  /** `reason.trim().length >= 10` */
  predicate Readable(reason: Text) {
    |Trim(reason)| >= 10
  }

  datatype Step =
    | SetParameter(key: Key, value: real, reason: Text, changedBy: Text, actor: Option<Actor>, now: Instant)
    | PromoteStagedChange(id: nat, promotedBy: Text, actor: Option<Actor>, now: Instant)
    | Rollback(id: nat, reason: Text, rolledBackBy: Text, actor: Option<Actor>, now: Instant)

  /** `Rollback of change ` */
  const ROLLBACK_OF_CHANGE: Text :=
    [0x52, 0x6F, 0x6C, 0x6C, 0x62, 0x61, 0x63, 0x6B, 0x20, 0x6F, 0x66, 0x20, 0x63, 0x68, 0x61, 0x6E, 0x67, 0x65, 0x20]

  function RollbackReason(id: nat, reason: Text): Text {
    ROLLBACK_OF_CHANGE + Json.Digits(id) + [0x3A, 0x20] + reason
  }

  /** A rollback is a change back to the value its row replaced. */
  function RollbackAsSet(changes: seq<Change>, step: Step): Step
    requires step.Rollback? && step.id < |changes|
  {
    var row := changes[step.id];
    SetParameter(row.key, row.previousValue, RollbackReason(step.id, step.reason), step.rolledBackBy, step.actor,
      step.now)
  }

  /** What a change answers: the position of its row, or why there is none. */
  function SetVerdict(parameters: seq<Parameter>, changes: seq<Change>, step: Step): Outcome<nat>
    requires step.SetParameter?
  {
    var parameter := ParameterFor(parameters, step.key);
    if parameter.None? then Refused
    else if !Readable(step.reason) then Refused
    else if !WithinBounds(parameter.value, step.value) then Refused
    else if !SeniorHuman(step.actor) then Refused
    else if EffectiveValue(parameters, changes, step.key) == Ok(step.value) then Refused
    else Ok(|changes|)
  }

  function Verdict(parameters: seq<Parameter>, changes: seq<Change>, step: Step): Outcome<nat> {
    match step
    case SetParameter(_, _, _, _, _, _) => SetVerdict(parameters, changes, step)
    case PromoteStagedChange(id, _, actor, _) =>
      if id >= |changes| then NoData
      else if changes[id].appliedAt.Some? then Refused
      else if !SeniorHuman(actor) then Refused
      else Ok(id)
    case Rollback(id, _, _, _, _) =>
      if id >= |changes| then NoData else SetVerdict(parameters, changes, RollbackAsSet(changes, step))
  }

  function Recorded(parameters: seq<Parameter>, changes: seq<Change>, step: Step): Change
    requires step.SetParameter? && SetVerdict(parameters, changes, step).Ok?
  {
    var parameter := ParameterFor(parameters, step.key).value;
    Change(step.key, EffectiveValue(parameters, changes, step.key).value, step.value, step.reason, step.changedBy,
           parameter.highRisk, if parameter.highRisk then None else Some(step.now), None)
  }

  function Next(parameters: seq<Parameter>, changes: seq<Change>, step: Step): seq<Change> {
    if !Verdict(parameters, changes, step).Ok? then changes
    else
      match step
      case SetParameter(_, _, _, _, _, _) => changes + [Recorded(parameters, changes, step)]
      case PromoteStagedChange(id, promotedBy, _, now) =>
        changes[id := changes[id].(appliedAt := Some(now), promotedBy := Some(promotedBy))]
      case Rollback(_, _, _, _, _) => changes + [Recorded(parameters, changes, RollbackAsSet(changes, step))]
  }

  function Run(parameters: seq<Parameter>, steps: seq<Step>): seq<Change> {
    if steps == [] then [] else Next(parameters, Run(parameters, steps[..|steps| - 1]), steps[|steps| - 1])
  }

  // ---------------------------------------------------------------------------
  // Every value in force is one its parameter accepts
  // ---------------------------------------------------------------------------

  ghost predicate Declared(parameters: seq<Parameter>, c: Change) {
    var parameter := ParameterFor(parameters, c.key);
    && parameter.Some?
    && WithinBounds(parameter.value, c.previousValue)
    && WithinBounds(parameter.value, c.newValue)
    && c.previousValue != c.newValue
    && c.staged == parameter.value.highRisk
    && (c.appliedAt.None? ==> c.staged)
    && Readable(c.reason)
  }

  ghost predicate AllDeclared(parameters: seq<Parameter>, changes: seq<Change>) {
    forall i :: 0 <= i < |changes| ==> Declared(parameters, changes[i])
  }

  lemma EffectiveWithinBounds(parameters: seq<Parameter>, changes: seq<Change>, key: Key)
    requires WellDeclared(parameters) && AllDeclared(parameters, changes) && ParameterFor(parameters, key).Some?
    ensures EffectiveValue(parameters, changes, key).Ok?
    ensures WithinBounds(ParameterFor(parameters, key).value, EffectiveValue(parameters, changes, key).value)
  {
    var latest := Latest(changes, key);
    if latest.Some? { assert Declared(parameters, changes[latest.value]); }
  }

  lemma RecordedDeclared(parameters: seq<Parameter>, changes: seq<Change>, step: Step)
    requires WellDeclared(parameters) && AllDeclared(parameters, changes)
    requires step.SetParameter? && SetVerdict(parameters, changes, step).Ok?
    ensures Declared(parameters, Recorded(parameters, changes, step))
  {
    EffectiveWithinBounds(parameters, changes, step.key);
  }

  lemma StepKeepsDeclared(parameters: seq<Parameter>, changes: seq<Change>, step: Step)
    requires WellDeclared(parameters) && AllDeclared(parameters, changes)
    ensures AllDeclared(parameters, Next(parameters, changes, step))
  {
    if Verdict(parameters, changes, step).Ok? {
      if step.SetParameter? { RecordedDeclared(parameters, changes, step); }
      if step.Rollback? { RecordedDeclared(parameters, changes, RollbackAsSet(changes, step)); }
      if step.PromoteStagedChange? { assert Declared(parameters, changes[step.id]); }
    }
  }

  lemma {:induction false} RunKeepsDeclared(parameters: seq<Parameter>, steps: seq<Step>)
    requires WellDeclared(parameters)
    ensures AllDeclared(parameters, Run(parameters, steps))
  {
    if steps != [] {
      RunKeepsDeclared(parameters, steps[..|steps| - 1]);
      StepKeepsDeclared(parameters, Run(parameters, steps[..|steps| - 1]), steps[|steps| - 1]);
    }
  }

  /**
   * In every run over the registry: every configurable key has a value in force, inside its
   * bounds; and the log holds registered keys only, so nothing fixed was ever written.
   */
  lemma ValuesInForceAreInBounds(steps: seq<Step>)
    ensures forall key :: ParameterFor(PARAMETERS, key).Some? ==>
      var value := EffectiveValue(PARAMETERS, Run(PARAMETERS, steps), key);
      && value.Ok? && WithinBounds(ParameterFor(PARAMETERS, key).value, value.value)
      && ParameterFor(PARAMETERS, key).value.minimum <= value.value <= ParameterFor(PARAMETERS, key).value.maximum
      && (ParameterFor(PARAMETERS, key).value.kind != Ratio ==> value.value == value.value.Floor as real)
    ensures forall c :: c in Run(PARAMETERS, steps) ==> Declared(PARAMETERS, c) && c.key !in INVARIANTS
  {
    RegistryIsWellDeclared();
    RegistryKeysAreDistinct();
    RunKeepsDeclared(PARAMETERS, steps);
    forall key | ParameterFor(PARAMETERS, key).Some?
      ensures EffectiveValue(PARAMETERS, Run(PARAMETERS, steps), key).Ok?
      ensures WithinBounds(ParameterFor(PARAMETERS, key).value,
        EffectiveValue(PARAMETERS, Run(PARAMETERS, steps), key).value)
    {
      EffectiveWithinBounds(PARAMETERS, Run(PARAMETERS, steps), key);
    }
  }

  lemma InForce(steps: seq<Step>, i: nat)
    requires i < |PARAMETERS|
    ensures var value := EffectiveValue(PARAMETERS, Run(PARAMETERS, steps), PARAMETERS[i].key);
      value.Ok? && PARAMETERS[i].minimum <= value.value <= PARAMETERS[i].maximum
  {
    RegistryKeysAreDistinct();
    assert PARAMETERS[i] in PARAMETERS;
    assert ParameterFor(PARAMETERS, PARAMETERS[i].key) == Some(PARAMETERS[i]);
    ValuesInForceAreInBounds(steps);
  }

  /**
   * The limits the specification sets hold in every run, whatever is set, staged or rolled back:
   * quarterly provider reviews, yearly recertification, and a compliance target of at least 90%.
   */
  lemma SpecifiedLimitsHold(steps: seq<Step>)
    ensures var changes := Run(PARAMETERS, steps);
      && EffectiveValue(PARAMETERS, changes, MaximumReviewCadenceDays).Ok?
      && EffectiveValue(PARAMETERS, changes, MaximumReviewCadenceDays).value
         <= Governance.MAXIMUM_REVIEW_CADENCE_DAYS as real
      && EffectiveValue(PARAMETERS, changes, RecertificationCadenceDays).Ok?
      && EffectiveValue(PARAMETERS, changes, RecertificationCadenceDays).value <= 365.0
      && EffectiveValue(PARAMETERS, changes, HealthyShareTarget).Ok?
      && EffectiveValue(PARAMETERS, changes, HealthyShareTarget).value >= 0.9
  {
    InForce(steps, 0);
    InForce(steps, 5);
    InForce(steps, 7);
  }

  // ---------------------------------------------------------------------------
  // When a change takes effect
  // ---------------------------------------------------------------------------

  lemma LatestAppend(changes: seq<Change>, c: Change, key: Key)
    ensures var rest := Latest(changes, key);
      Latest(changes + [c], key)
      == if c.key != key || c.appliedAt.None? then rest
         else if rest.Some? && changes[rest.value].appliedAt.value > c.appliedAt.value then rest
         else Some(|changes|)
  {
    assert (changes + [c])[..|changes|] == changes;
  }

  /** The step is not dated before the change in force. */
  predicate NotBefore(changes: seq<Change>, key: Key, now: Instant) {
    Latest(changes, key).Some? ==> changes[Latest(changes, key).value].appliedAt.value <= now
  }

  /** A low-risk change takes effect exactly when it is not dated before the change in force. */
  lemma SetTakesEffectExactly(parameters: seq<Parameter>, changes: seq<Change>, step: Step)
    requires step.SetParameter? && SetVerdict(parameters, changes, step).Ok?
    requires !ParameterFor(parameters, step.key).value.highRisk
    ensures EffectiveValue(parameters, Next(parameters, changes, step), step.key) == Ok(step.value)
       <==> NotBefore(changes, step.key, step.now)
  {
    LatestAppend(changes, Recorded(parameters, changes, step), step.key);
  }

  /** A high-risk change alters nothing in force, and a low-risk one only its own key. */
  lemma SetLeavesTheRest(parameters: seq<Parameter>, changes: seq<Change>, step: Step, key: Key)
    requires step.SetParameter? && SetVerdict(parameters, changes, step).Ok?
    requires key != step.key || ParameterFor(parameters, step.key).value.highRisk
    ensures EffectiveValue(parameters, Next(parameters, changes, step), key) == EffectiveValue(parameters, changes, key)
  {
    LatestAppend(changes, Recorded(parameters, changes, step), key);
  }

  /** No step removes or rewrites a row; promotion only fills in when and by whom. */
  lemma LogOnlyGrows(parameters: seq<Parameter>, changes: seq<Change>, step: Step)
    ensures var after := Next(parameters, changes, step);
      |changes| <= |after| <= |changes| + 1
      && forall i :: 0 <= i < |changes| ==>
           after[i] == changes[i]
           || (changes[i].appliedAt.None? && after[i].appliedAt.Some?
               && after[i] == changes[i].(appliedAt := after[i].appliedAt, promotedBy := after[i].promotedBy))
  {
  }

  // ---------------------------------------------------------------------------
  // The history of a low-risk key
  // ---------------------------------------------------------------------------

  function ChangesTo(changes: seq<Change>, key: Key): seq<Change> {
    if changes == [] then []
    else
      var c := changes[|changes| - 1];
      ChangesTo(changes[..|changes| - 1], key) + if c.key == key then [c] else []
  }

  /** The value the history leads to. */
  function EndOf(history: seq<Change>, start: real): real {
    if history == [] then start else history[|history| - 1].newValue
  }

  /** Each row replaces the value the one before it set, by another. */
  ghost predicate Chain(history: seq<Change>, start: real) {
    forall i :: 0 <= i < |history| ==>
      history[i].previousValue == EndOf(history[..i], start) && history[i].newValue != history[i].previousValue
  }

  /** The clock does not run backwards. */
  ghost predicate InOrder(steps: seq<Step>) {
    forall i, j :: 0 <= i < j < |steps| ==> steps[i].now <= steps[j].now
  }

  ghost predicate AppliedBy(changes: seq<Change>, now: Instant) {
    forall i :: 0 <= i < |changes| && changes[i].appliedAt.Some? ==> changes[i].appliedAt.value <= now
  }

  lemma {:induction false} RunAppliedBy(parameters: seq<Parameter>, steps: seq<Step>, now: Instant)
    requires forall i :: 0 <= i < |steps| ==> steps[i].now <= now
    ensures AppliedBy(Run(parameters, steps), now)
  {
    if steps != [] {
      RunAppliedBy(parameters, steps[..|steps| - 1], now);
    }
  }

  ghost predicate History(parameters: seq<Parameter>, changes: seq<Change>, key: Key)
    requires ParameterFor(parameters, key).Some?
  {
    var start := ParameterFor(parameters, key).value.compiledDefault;
    && Chain(ChangesTo(changes, key), start)
    && EffectiveValue(parameters, changes, key) == Ok(EndOf(ChangesTo(changes, key), start))
  }

  lemma ChangesToAppend(changes: seq<Change>, c: Change, key: Key)
    ensures ChangesTo(changes + [c], key) == ChangesTo(changes, key) + if c.key == key then [c] else []
  {
    assert (changes + [c])[..|changes|] == changes;
  }

  lemma ChainExtends(history: seq<Change>, start: real, c: Change)
    requires Chain(history, start) && c.previousValue == EndOf(history, start) && c.newValue != c.previousValue
    ensures Chain(history + [c], start)
  {
    var longer := history + [c];
    assert longer[..|history|] == history;
    forall i | 0 <= i < |history| ensures longer[..i] == history[..i] && longer[i] == history[i] {}
  }

  /** A row of the key that replaces the value in force, and is not dated before it, extends the history. */
  lemma RowExtendsHistory(parameters: seq<Parameter>, changes: seq<Change>, c: Change, key: Key)
    requires ParameterFor(parameters, key).Some? && History(parameters, changes, key)
    requires c.key == key ==>
      && c.appliedAt.Some? && NotBefore(changes, key, c.appliedAt.value)
      && EffectiveValue(parameters, changes, key) == Ok(c.previousValue) && c.newValue != c.previousValue
    ensures History(parameters, changes + [c], key)
  {
    ChangesToAppend(changes, c, key);
    LatestAppend(changes, c, key);
    if c.key == key {
      ChainExtends(ChangesTo(changes, key), ParameterFor(parameters, key).value.compiledDefault, c);
    } else {
      assert ChangesTo(changes, key) + [] == ChangesTo(changes, key);
    }
  }

  /** The two logs differ in the row of another key only. */
  ghost predicate DifferElsewhere(changes: seq<Change>, after: seq<Change>, id: nat, key: Key) {
    && id < |changes| == |after|
    && changes[id].key == after[id].key != key
    && forall i :: 0 <= i < |changes| && i != id ==> after[i] == changes[i]
  }

  lemma {:induction false} SameLatest(changes: seq<Change>, after: seq<Change>, id: nat, key: Key)
    requires DifferElsewhere(changes, after, id, key)
    ensures Latest(after, key) == Latest(changes, key)
  {
    var n := |changes| - 1;
    if id < n {
      SameLatest(changes[..n], after[..n], id, key);
    } else {
      assert after[..n] == changes[..n];
    }
  }

  lemma {:induction false} SameChanges(changes: seq<Change>, after: seq<Change>, id: nat, key: Key)
    requires DifferElsewhere(changes, after, id, key)
    ensures ChangesTo(after, key) == ChangesTo(changes, key)
  {
    var n := |changes| - 1;
    if id < n {
      SameChanges(changes[..n], after[..n], id, key);
    } else {
      assert after[..n] == changes[..n];
    }
  }

  lemma StepKeepsHistory(parameters: seq<Parameter>, changes: seq<Change>, step: Step, key: Key)
    requires ParameterFor(parameters, key).Some? && !ParameterFor(parameters, key).value.highRisk
    requires AllDeclared(parameters, changes) && History(parameters, changes, key) && AppliedBy(changes, step.now)
    ensures History(parameters, Next(parameters, changes, step), key)
  {
    if Verdict(parameters, changes, step).Ok? {
      if step.SetParameter? { RowExtendsHistory(parameters, changes, Recorded(parameters, changes, step), key); }
      if step.Rollback? {
        RowExtendsHistory(parameters, changes, Recorded(parameters, changes, RollbackAsSet(changes, step)), key);
      }
      if step.PromoteStagedChange? {
        assert Declared(parameters, changes[step.id]);
        SameLatest(changes, Next(parameters, changes, step), step.id, key);
        SameChanges(changes, Next(parameters, changes, step), step.id, key);
      }
    }
  }

  /**
   * In every run under a clock that does not run backwards, the rows of a low-risk key chain from
   * the default to the value in force, each changing the value the last one set.
   */
  lemma {:induction false} LowRiskHistoryIsAChain(parameters: seq<Parameter>, steps: seq<Step>, key: Key)
    requires WellDeclared(parameters) && InOrder(steps)
    requires ParameterFor(parameters, key).Some? && !ParameterFor(parameters, key).value.highRisk
    ensures History(parameters, Run(parameters, steps), key)
  {
    if steps != [] {
      var before, last := steps[..|steps| - 1], steps[|steps| - 1];
      LowRiskHistoryIsAChain(parameters, before, key);
      RunKeepsDeclared(parameters, before);
      RunAppliedBy(parameters, before, last.now);
      StepKeepsHistory(parameters, Run(parameters, before), last, key);
    }
  }

  // ---------------------------------------------------------------------------
  // Rolling back
  // ---------------------------------------------------------------------------

  lemma RollbackReasonReadable(id: nat, reason: Text)
    ensures Readable(RollbackReason(id, reason))
  {
    var text := RollbackReason(id, reason);
    assert text[0] == 0x52 && text[17] == 0x65;
    TrimKeeps(text, 0, 17);
  }

  /** A rollback by a senior human is refused only when its value is already in force. */
  lemma RollbackRefusedExactly(parameters: seq<Parameter>, changes: seq<Change>, step: Step)
    requires WellDeclared(parameters) && AllDeclared(parameters, changes)
    requires step.Rollback? && step.id < |changes| && SeniorHuman(step.actor)
    ensures Verdict(parameters, changes, step).Ok?
       <==> EffectiveValue(parameters, changes, changes[step.id].key) != Ok(changes[step.id].previousValue)
    ensures Verdict(parameters, changes, step).Ok? || Verdict(parameters, changes, step).Refused?
  {
    assert Declared(parameters, changes[step.id]);
    RollbackReasonReadable(step.id, step.reason);
  }

  /**
   * Setting a low-risk parameter and rolling that change back leaves the value in force as it was
   * before both, with both rows on record.
   */
  lemma RollbackUndoesSet(parameters: seq<Parameter>, changes: seq<Change>, change: Step, rollback: Step)
    requires WellDeclared(parameters) && AllDeclared(parameters, changes)
    requires change.SetParameter? && SetVerdict(parameters, changes, change).Ok?
    requires !ParameterFor(parameters, change.key).value.highRisk
    requires rollback.Rollback? && rollback.id == |changes| && SeniorHuman(rollback.actor)
    requires NotBefore(changes, change.key, change.now) && change.now <= rollback.now
    ensures var changed := Next(parameters, changes, change);
      var restored := Next(parameters, changed, rollback);
      && EffectiveValue(parameters, restored, change.key) == EffectiveValue(parameters, changes, change.key)
      && |restored| == |changes| + 2 && restored[..|changes| + 1] == changed
      && restored[|changes| + 1].previousValue == change.value
  {
    var changed := Next(parameters, changes, change);
    StepKeepsDeclared(parameters, changes, change);
    SetTakesEffectExactly(parameters, changes, change);
    LatestAppend(changes, Recorded(parameters, changes, change), change.key);
    RollbackRefusedExactly(parameters, changed, rollback);
    SetTakesEffectExactly(parameters, changed, RollbackAsSet(changed, rollback));
  }

  lemma {:induction false} LastChangeTo(changes: seq<Change>, id: nat, key: Key)
    requires id < |changes| && changes[id].key == key
    requires forall i :: id < i < |changes| ==> changes[i].key != key
    ensures ChangesTo(changes, key) != [] && ChangesTo(changes, key)[|ChangesTo(changes, key)| - 1] == changes[id]
  {
    if id < |changes| - 1 { LastChangeTo(changes[..|changes| - 1], id, key); }
  }

  /**
   * Whatever happened to other keys since, rolling back the latest change to a low-risk key puts
   * the value the history had before that change back in force, and adds a row to do it.
   */
  lemma RollbackOfTheLatest(parameters: seq<Parameter>, steps: seq<Step>, rollback: Step, key: Key)
    requires WellDeclared(parameters) && InOrder(steps + [rollback])
    requires ParameterFor(parameters, key).Some? && !ParameterFor(parameters, key).value.highRisk
    requires var changes := Run(parameters, steps);
      && rollback.Rollback? && rollback.id < |changes| && changes[rollback.id].key == key
      && (forall i :: rollback.id < i < |changes| ==> changes[i].key != key)
      && SeniorHuman(rollback.actor)
    ensures var changes := Run(parameters, steps);
      var history := ChangesTo(changes, key);
      var restored := Next(parameters, changes, rollback);
      && history != []
      && EffectiveValue(parameters, restored, key) ==
         Ok(EndOf(history[..|history| - 1], ParameterFor(parameters, key).value.compiledDefault))
      && |restored| == |changes| + 1 && restored[..|changes|] == changes
  {
    var changes := Run(parameters, steps);
    var history := ChangesTo(changes, key);
    assert forall i :: 0 <= i < |steps| ==> (steps + [rollback])[i] == steps[i];
    assert (steps + [rollback])[|steps|] == rollback;
    LowRiskHistoryIsAChain(parameters, steps, key);
    LastChangeTo(changes, rollback.id, key);
    RunKeepsDeclared(parameters, steps);
    RunAppliedBy(parameters, steps, rollback.now);
    RollbackRefusedExactly(parameters, changes, rollback);
    assert history[|history| - 1] == changes[rollback.id];
    SetTakesEffectExactly(parameters, changes, RollbackAsSet(changes, rollback));
  }

  // ---------------------------------------------------------------------------
  // Promoting a staged change
  // ---------------------------------------------------------------------------

  lemma {:induction false} LatestIsLatest(changes: seq<Change>, key: Key)
    ensures Latest(changes, key).None? ==>
      forall i :: 0 <= i < |changes| && changes[i].key == key ==> changes[i].appliedAt.None?
    ensures Latest(changes, key).Some? ==>
      var m := Latest(changes, key).value;
      forall i :: 0 <= i < |changes| && changes[i].key == key && changes[i].appliedAt.Some? ==>
        changes[i].appliedAt.value < changes[m].appliedAt.value
          || (changes[i].appliedAt.value == changes[m].appliedAt.value && i <= m)
  {
    if changes != [] { LatestIsLatest(changes[..|changes| - 1], key); }
  }

  /** A promotion later than every applied change of its key puts its value in force. */
  lemma PromotionTakesEffect(parameters: seq<Parameter>, changes: seq<Change>, step: Step)
    requires AllDeclared(parameters, changes)
    requires step.PromoteStagedChange? && Verdict(parameters, changes, step).Ok?
    requires forall i :: 0 <= i < |changes| && changes[i].key == changes[step.id].key && changes[i].appliedAt.Some?
               ==> changes[i].appliedAt.value < step.now
    ensures EffectiveValue(parameters, Next(parameters, changes, step), changes[step.id].key) ==
      Ok(changes[step.id].newValue)
    ensures var row := Next(parameters, changes, step)[step.id];
      row.appliedAt == Some(step.now) && row.promotedBy == Some(step.promotedBy)
  {
    var after := Next(parameters, changes, step);
    assert Declared(parameters, changes[step.id]);
    LatestIsLatest(after, changes[step.id].key);
    assert after[step.id].appliedAt == Some(step.now);
  }

  /**
   * What a promoted row says it replaced is what was in force when the row was staged. Rolling the
   * row back and promoting the rollback therefore restores what was in force before the promotion
   * exactly when that had not changed in between.
   */
  lemma RollbackOfPromotionExactly(parameters: seq<Parameter>, changes: seq<Change>, promote: Step,
      rollback: Step, promoteBack: Step)
    requires WellDeclared(parameters) && AllDeclared(parameters, changes)
    requires promote.PromoteStagedChange? && Verdict(parameters, changes, promote).Ok?
      && AppliedBy(changes, promote.now - 1)
    requires rollback.Rollback? && rollback.id == promote.id && SeniorHuman(rollback.actor)
    requires promoteBack.PromoteStagedChange? && promoteBack.id == |changes| && SeniorHuman(promoteBack.actor)
      && promote.now < promoteBack.now
    ensures var promoted := Next(parameters, changes, promote);
      var undone := Next(parameters, Next(parameters, promoted, rollback), promoteBack);
      EffectiveValue(parameters, undone, changes[promote.id].key) == Ok(changes[promote.id].previousValue)
      && (EffectiveValue(parameters, undone, changes[promote.id].key)
            == EffectiveValue(parameters, changes, changes[promote.id].key)
          <==> EffectiveValue(parameters, changes, changes[promote.id].key) == Ok(changes[promote.id].previousValue))
  {
    var key := changes[promote.id].key;
    var promoted := Next(parameters, changes, promote);
    assert Declared(parameters, changes[promote.id]);
    StepKeepsDeclared(parameters, changes, promote);
    PromotionTakesEffect(parameters, changes, promote);
    RollbackRefusedExactly(parameters, promoted, rollback);
    var staged := Next(parameters, promoted, rollback);
    StepKeepsDeclared(parameters, promoted, rollback);
    assert staged[|changes|] == Recorded(parameters, promoted, RollbackAsSet(promoted, rollback));
    assert AppliedBy(staged, promote.now);
    PromotionTakesEffect(parameters, staged, promoteBack);
  }

  /** Two changes staged side by side and promoted in turn: the second no longer tells what it replaced. */
  lemma StagedChangesLoseTheChain(parameters: seq<Parameter>, changes: seq<Change>, first: Step, second: Step,
      promote: Step)
    requires WellDeclared(parameters) && AllDeclared(parameters, changes)
    requires first.SetParameter? && SetVerdict(parameters, changes, first).Ok?
      && ParameterFor(parameters, first.key).value.highRisk
    requires second.SetParameter? && second.key == first.key
      && SetVerdict(parameters, Next(parameters, changes, first), second).Ok?
    requires promote.PromoteStagedChange? && promote.id == |changes| && SeniorHuman(promote.actor)
      && AppliedBy(changes, promote.now - 1)
    ensures var staged := Next(parameters, Next(parameters, changes, first), second);
      var promoted := Next(parameters, staged, promote);
      EffectiveValue(parameters, promoted, first.key) == Ok(first.value)
        && promoted[|changes| + 1].previousValue != first.value
  {
    var one := Next(parameters, changes, first);
    var staged := Next(parameters, one, second);
    StepKeepsDeclared(parameters, changes, first);
    StepKeepsDeclared(parameters, one, second);
    SetLeavesTheRest(parameters, changes, first, first.key);
    PromotionTakesEffect(parameters, staged, promote);
  }

  /** 60 days and then 30 staged over the default of 90: once 60 is in force, the other still records 90. */
  lemma TwoStagedOverOneDefault(reason: Text, actor: Option<Actor>)
    requires Readable(reason) && SeniorHuman(actor)
    ensures var steps := [
        SetParameter(MaximumReviewCadenceDays, 60.0, reason, [], actor, 0),
        SetParameter(MaximumReviewCadenceDays, 30.0, reason, [], actor, 1),
        PromoteStagedChange(0, [], actor, 2)];
      var other := Change(MaximumReviewCadenceDays, 90.0, 30.0, reason, [], true, None, None);
      EffectiveValue(PARAMETERS, Run(PARAMETERS, steps), MaximumReviewCadenceDays) == Ok(60.0)
        && Run(PARAMETERS, steps)[1..] == [other]
  {
    var p := PARAMETERS[0];
    assert ParameterFor(PARAMETERS, p.key) == Some(p);
    StagedInTurn(PARAMETERS, p, 60.0, 30.0, reason, actor);
  }

  lemma StagedInTurn(parameters: seq<Parameter>, p: Parameter, one: real, two: real, reason: Text, actor: Option<Actor>)
    requires ParameterFor(parameters, p.key) == Some(p) && p.highRisk && Readable(reason) && SeniorHuman(actor)
    requires WithinBounds(p, one) && WithinBounds(p, two) && p.compiledDefault != one && p.compiledDefault != two
    ensures var changes := Run(parameters, [
        SetParameter(p.key, one, reason, [], actor, 0), SetParameter(p.key, two, reason, [], actor, 1),
        PromoteStagedChange(0, [], actor, 2)]);
      EffectiveValue(parameters, changes, p.key) == Ok(one)
        && changes[1..] == [Change(p.key, p.compiledDefault, two, reason, [], true, None, None)]
  {
    var a, b := SetParameter(p.key, one, reason, [], actor, 0), SetParameter(p.key, two, reason, [], actor, 1);
    var c := PromoteStagedChange(0, [], actor, 2);
    var first := Change(p.key, p.compiledDefault, one, reason, [], true, None, None);
    var second := Change(p.key, p.compiledDefault, two, reason, [], true, None, None);
    ThreeSteps(parameters, a, b, c);
    assert Next(parameters, Next(parameters, [], a), b) == [first, second];
    OnlyOneApplied(parameters, first, second, p, c);
  }

  lemma ThreeSteps(parameters: seq<Parameter>, a: Step, b: Step, c: Step)
    ensures Run(parameters, [a, b, c]) == Next(parameters, Next(parameters, Next(parameters, [], a), b), c)
  {
    assert [a][..0] == [] && [a, b][..1] == [a] && [a, b, c][..2] == [a, b];
    assert Run(parameters, [a]) == Next(parameters, [], a);
    assert Run(parameters, [a, b]) == Next(parameters, Run(parameters, [a]), b);
  }

  lemma OnlyOneApplied(parameters: seq<Parameter>, first: Change, second: Change, p: Parameter, promote: Step)
    requires ParameterFor(parameters, p.key) == Some(p) && first.key == p.key
    requires first.appliedAt.None? && second.appliedAt.None?
    requires promote.PromoteStagedChange? && promote.id == 0 && SeniorHuman(promote.actor)
    ensures var changes := Next(parameters, [first, second], promote);
      EffectiveValue(parameters, changes, p.key) == Ok(first.newValue) && |changes| == 2 && changes[1] == second
  {
    var changes := Next(parameters, [first, second], promote);
    assert changes[..1][..0] == [];
    assert Latest(changes, p.key) == Some(0);
  }

  /** In every run exactly the staged rows that are in force name who promoted them. */
  lemma {:induction false} PromotersAreNamed(parameters: seq<Parameter>, steps: seq<Step>)
    ensures forall c :: c in Run(parameters, steps) ==>
      (c.promotedBy.Some? <==> c.staged && c.appliedAt.Some?) && (!c.staged ==> c.appliedAt.Some?)
  {
    if steps != [] {
      PromotersAreNamed(parameters, steps[..|steps| - 1]);
      var before := Run(parameters, steps[..|steps| - 1]);
      assert forall i :: 0 <= i < |before| ==> before[i] in before;
    }
  }

  /** What is not registered is refused when it is fixed and unknown otherwise. */
  lemma UnregisteredAnswers(parameters: seq<Parameter>, changes: seq<Change>, key: Key)
    requires ParameterFor(parameters, key).None?
    ensures EffectiveValue(parameters, changes, key) == if key in INVARIANTS then Refused else NoData
  {
  }

  /** A change that does not proceed is refused; only a row that is not in the log is not there. */
  lemma UnknownIsNoData(parameters: seq<Parameter>, changes: seq<Change>, step: Step)
    ensures var answer := Verdict(parameters, changes, step);
      && (answer.Ok? || answer.Refused? || answer.NoData?)
      && (answer.NoData? <==> !step.SetParameter? && step.id >= |changes|)
  {
  }

  /** A reason that neither starts nor ends with white space is readable from ten units on. */
  lemma ReadableExactly(reason: Text)
    requires reason == [] || (!IsWhitespace(reason[0]) && !IsWhitespace(reason[|reason| - 1]))
    ensures Readable(reason) <==> |reason| >= 10
  {
  }

  /** The reason a rollback records. */
  lemma RollbackReasonText(reason: Text)
    ensures RollbackReason(7, reason) == Units("Rollback of change 7: ") + reason
  {
    assert Json.Digits(7) == [0x37];
    assert ROLLBACK_OF_CHANGE == Units("Rollback of change ");
    assert Units("Rollback of change 7: ") == Units("Rollback of change ") + [0x37] + [0x3A, 0x20];
  }

  /** The row of a change says what was asked, by whom, why, what it replaces and when it came into force. */
  lemma RowsTellWho(parameters: seq<Parameter>, changes: seq<Change>, step: Step)
    requires Verdict(parameters, changes, step).Ok? && !step.PromoteStagedChange?
    ensures var after := Next(parameters, changes, step);
      |after| == |changes| + 1 && after[..|changes|] == changes
      && var row := after[|changes|];
         && EffectiveValue(parameters, changes, row.key) == Ok(row.previousValue)
         && (row.appliedAt == if row.staged then None else Some(step.now)) && row.promotedBy.None?
         && (step.SetParameter? ==>
              row.key == step.key && row.newValue == step.value && row.reason == step.reason
              && row.changedBy == step.changedBy)
         && (step.Rollback? ==>
              row.key == changes[step.id].key && row.newValue == changes[step.id].previousValue
              && row.reason == RollbackReason(step.id, step.reason) && row.changedBy == step.rolledBackBy)
  {
  }

  /** Nothing is changed, promoted or rolled back but by a human of level 3 or above. */
  lemma ChangesNeedASeniorHuman(parameters: seq<Parameter>, changes: seq<Change>, step: Step)
    ensures Next(parameters, changes, step) != changes ==>
      step.actor.Some? && step.actor.value.human && step.actor.value.authorityLevel >= 3
  {
  }

  // ---------------------------------------------------------------------------
  // The operations
  // ---------------------------------------------------------------------------

  class Desk {
    const parameters: seq<Parameter>
    var changes: seq<Change>

    constructor ()
      ensures parameters == PARAMETERS && changes == []
    {
      parameters, changes := PARAMETERS, [];
    }

    method SetParameter(key: Key, value: real, reason: Text, changedBy: Text, actor: Option<Actor>, now: Instant)
        returns (outcome: Outcome<nat>)
      modifies this
      ensures var step := Step.SetParameter(key, value, reason, changedBy, actor, now);
        outcome == Verdict(parameters, old(changes), step) && changes == Next(parameters, old(changes), step)
    {
      var parameter := ParameterFor(parameters, key);
      if parameter.None? { return Refused; }
      if !Readable(reason) { return Refused; }
      if !WithinBounds(parameter.value, value) { return Refused; }
      if !SeniorHuman(actor) { return Refused; }
      var current := EffectiveValue(parameters, changes, key);
      if current.value == value { return Refused; }
      var highRisk := parameter.value.highRisk;
      changes := changes
        + [Change(key, current.value, value, reason, changedBy, highRisk, if highRisk then None else Some(now), None)];
      return Ok(|changes| - 1);
    }

    method PromoteStagedChange(id: nat, promotedBy: Text, actor: Option<Actor>, now: Instant)
      returns (outcome: Outcome<nat>)
      modifies this
      ensures var step := Step.PromoteStagedChange(id, promotedBy, actor, now);
        outcome == Verdict(parameters, old(changes), step) && changes == Next(parameters, old(changes), step)
    {
      if id >= |changes| { return NoData; }
      if changes[id].appliedAt.Some? { return Refused; }
      if !SeniorHuman(actor) { return Refused; }
      changes := changes[id := changes[id].(appliedAt := Some(now), promotedBy := Some(promotedBy))];
      return Ok(id);
    }

    method Rollback(id: nat, reason: Text, rolledBackBy: Text, actor: Option<Actor>, now: Instant)
      returns (outcome: Outcome<nat>)
      modifies this
      ensures var step := Step.Rollback(id, reason, rolledBackBy, actor, now);
        outcome == Verdict(parameters, old(changes), step) && changes == Next(parameters, old(changes), step)
    {
      if id >= |changes| { return NoData; }
      outcome := SetParameter(changes[id].key, changes[id].previousValue, RollbackReason(id, reason), rolledBackBy,
        actor, now);
    }
  }
}
