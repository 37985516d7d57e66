/**
 * The provider governance board, its minute book, and the complaints that put a provider back in
 * front of it (packages/governance/src/board.ts, complaints.ts and standing.ts).
 */
module Governance {
  import opened Common

  datatype Status = PendingReview | Approved | UnderReview | Suspended | Blacklisted

  const MAXIMUM_REVIEW_CADENCE_DAYS := 90

  /** A governance row. */
  datatype Row = Row(
    status: Status,
    lastReviewedAt: Option<Instant>,
    reviewCadenceDays: int,
    approvedStates: seq<Text>,
    restrictedStates: seq<Text>,
    complaintCount: nat,
    complaintWindowStart: Option<Instant>,
    blacklistReason: Option<Text>)

  /** The row as the database creates it. */
  const NEW_ROW: Row := Row(PendingReview, None, MAXIMUM_REVIEW_CADENCE_DAYS, [], [], 0, None, None)

  /** Who decided and why: a person's own words, or the complaint threshold. */
  datatype Grounds = Stated(decidedBy: Text, rationale: Text) | ThresholdReached(score: nat)

  datatype Decision = Decision(providerId: Text, fromStatus: Option<Status>, toStatus: Status, grounds: Grounds)

  datatype Severity = Low | Moderate | Severe

  datatype Complaint = Complaint(providerId: Text, severity: Severity, receivedAt: Instant)

  const COMPLAINT_FLAG_THRESHOLD := 5

  function Weight(severity: Severity): nat {
    match severity case Low => 1 case Moderate => 2 case Severe => 5
  }

  /** `windowScore` */
  function WindowScore(complaints: seq<Complaint>, providerId: Text, windowStart: Option<Instant>): nat {
    if complaints == [] then 0
    else
      var c := complaints[|complaints| - 1];
      WindowScore(complaints[..|complaints| - 1], providerId, windowStart)
      + if c.providerId == providerId && (windowStart.Some? ==> c.receivedAt >= windowStart.value)
        then Weight(c.severity) else 0
  }

  datatype Archive = Archive(rows: map<Text, Row>, decisions: seq<Decision>, complaints: seq<Complaint>)

  const EMPTY_ARCHIVE: Archive := Archive(map[], [], [])

  /** A provider as the directory knows it: whether Decision D lets it be placed in V1. */
  datatype Provider = Provider(withinScope: bool)

  type Directory = Text -> Outcome<Provider>

  datatype Terms = Terms(approvedStates: seq<Text>, restrictedStates: seq<Text>, reviewCadenceDays: Option<int>)

  /** `flagForReview`, `suspend`, `blacklist` and `reinstate` */
  datatype Change = Flag | Suspend | Blacklist | Reinstate

  datatype Step =
    | SubmitForReview(providerId: Text, decidedBy: Text, rationale: Text)
    | Approve(providerId: Text, decidedBy: Text, rationale: Text, terms: Terms, now: Instant)
    | RecordReview(providerId: Text, decidedBy: Text, rationale: Text, now: Instant)
    | ChangeStatus(providerId: Text, decidedBy: Text, rationale: Text, change: Change)
    | RecordComplaint(providerId: Text, severity: Severity, summary: Text, receivedAt: Instant)

  function StatusOf(s: Archive, providerId: Text): Option<Status> {
    if providerId in s.rows then Some(s.rows[providerId].status) else None
  }

  function TargetOf(change: Change): Status {
    match change
    case Flag => UnderReview
    case Suspend => Suspended
    case Blacklist => Blacklisted
    case Reinstate => PendingReview
  }

  function Verdict(directory: Directory, s: Archive, step: Step): Outcome<()> {
    match step
    case SubmitForReview(p, _, _) => Unless(directory(p))
    case Approve(p, _, rationale, terms, _) =>
      if Blank(rationale) then Refused
      else if !directory(p).Ok? then Unless(directory(p))
      else if !directory(p).value.withinScope then Refused
      else if terms.reviewCadenceDays.Some? && terms.reviewCadenceDays.value > MAXIMUM_REVIEW_CADENCE_DAYS then Refused
      else if StatusOf(s, p) == Some(Blacklisted) then Refused
      else Ok(())
    case RecordReview(p, _, _, _) => if p !in s.rows then NoData else Ok(())
    case ChangeStatus(p, _, rationale, _) =>
      if Blank(rationale) then Refused
      else if p !in s.rows then NoData
      else Ok(())
    case RecordComplaint(_, _, summary, _) => if Blank(summary) then NoData else Ok(())
  }

  function Unless(answer: Outcome<Provider>): Outcome<()> {
    if answer.Ok? then Ok(()) else Forwarded(answer)
  }

  function ApprovedRow(row: Row, terms: Terms, now: Instant): Row {
    row.(
      status := Approved,
      lastReviewedAt := Some(now),
      reviewCadenceDays := if terms.reviewCadenceDays.Some? then terms.reviewCadenceDays.value
        else MAXIMUM_REVIEW_CADENCE_DAYS,
      approvedStates := terms.approvedStates,
      restrictedStates := terms.restrictedStates,
      complaintCount := 0,
      complaintWindowStart := Some(now))
  }

  /** The score a complaint brings its provider's window to. */
  function ScoreWith(s: Archive, step: Step): nat
    requires step.RecordComplaint?
  {
    if step.providerId in s.rows
    then
      var recorded := s.complaints + [Complaint(step.providerId, step.severity, step.receivedAt)];
      WindowScore(recorded, step.providerId, s.rows[step.providerId].complaintWindowStart)
    else Weight(step.severity)
  }

  predicate Crosses(s: Archive, step: Step)
    requires step.RecordComplaint?
  {
    step.providerId in s.rows && ScoreWith(s, step) >= COMPLAINT_FLAG_THRESHOLD
  }

  /** The row a step leaves its provider with, when it leaves one. */
  function RowAfter(s: Archive, step: Step): Option<Row> {
    var p := step.providerId;
    var row := if p in s.rows then s.rows[p] else NEW_ROW;
    match step
    case SubmitForReview(_, _, _) => Some(row.(status := PendingReview))
    case Approve(_, _, _, terms, now) => Some(ApprovedRow(row, terms, now))
    case RecordReview(_, _, _, now) =>
      Some(row.(lastReviewedAt := Some(now), complaintCount := 0, complaintWindowStart := Some(now)))
    case ChangeStatus(_, _, rationale, change) =>
      Some(row.(status := TargetOf(change),
                blacklistReason := if change.Blacklist? then Some(rationale) else row.blacklistReason))
    case RecordComplaint(_, _, _, _) =>
      if p !in s.rows then None
      else Some(row.(complaintCount := row.complaintCount + 1,
                     status := if Crosses(s, step) && row.status == Approved then UnderReview else row.status))
  }

  /** The entry a step adds to the minute book, when it adds one. */
  function Minuted(s: Archive, step: Step): seq<Decision> {
    var from := StatusOf(s, step.providerId);
    match step
    case RecordComplaint(p, _, _, _) =>
      if Crosses(s, step) && from == Some(Approved)
      then [Decision(p, from, UnderReview, ThresholdReached(ScoreWith(s, step)))]
      else []
    case _ => [Decision(step.providerId, from, RowAfter(s, step).value.status, Stated(step.decidedBy, step.rationale))]
  }

  function Next(directory: Directory, s: Archive, step: Step): Archive {
    if !Verdict(directory, s, step).Ok? then s
    else
      var row := RowAfter(s, step);
      Archive(
        if row.Some? then s.rows[step.providerId := row.value] else s.rows,
        s.decisions + Minuted(s, step),
        if step.RecordComplaint? then s.complaints + [Complaint(step.providerId, step.severity, step.receivedAt)]
          else s.complaints)
  }

  function Run(directory: Directory, steps: seq<Step>): Archive {
    if steps == [] then EMPTY_ARCHIVE else Next(directory, Run(directory, steps[..|steps| - 1]), steps[|steps| - 1])
  }

  // ---------------------------------------------------------------------------
  // The minute book
  // ---------------------------------------------------------------------------

  function DecisionsOn(decisions: seq<Decision>, providerId: Text): seq<Decision> {
    if decisions == [] then []
    else
      var d := decisions[|decisions| - 1];
      DecisionsOn(decisions[..|decisions| - 1], providerId) + if d.providerId == providerId then [d] else []
  }

  /** What the minutes say the status is. */
  function StatusByMinutes(minutes: seq<Decision>): Option<Status> {
    if minutes == [] then None else Some(minutes[|minutes| - 1].toStatus)
  }

  /** Each entry starts where the one before ended, and none approves out of a blacklist. */
  ghost predicate Chain(minutes: seq<Decision>) {
    forall i: nat :: i < |minutes| ==> Follows(minutes[i], minutes[..i])
  }

  ghost predicate Follows(d: Decision, before: seq<Decision>) {
    && d.fromStatus == StatusByMinutes(before)
    && (d.toStatus == Approved ==> d.fromStatus != Some(Blacklisted))
    && (d.toStatus == Approved && d.fromStatus != Some(Approved) ==>
          d.grounds.Stated? && !Blank(d.grounds.rationale))
  }

  ghost predicate MinutesAgreeOn(s: Archive, p: Text) {
    Chain(DecisionsOn(s.decisions, p)) && StatusByMinutes(DecisionsOn(s.decisions, p)) == StatusOf(s, p)
  }

  ghost predicate MinutesAgree(s: Archive) {
    forall p: Text :: MinutesAgreeOn(s, p)
  }

  lemma ChainExtends(minutes: seq<Decision>, d: Decision)
    requires Chain(minutes) && Follows(d, minutes)
    ensures Chain(minutes + [d])
  {
    var longer := minutes + [d];
    assert longer[..|minutes|] == minutes;
    forall i: nat | i < |longer| ensures Follows(longer[i], longer[..i]) {
      if i < |minutes| {
        assert Follows(minutes[i], minutes[..i]);
        assert longer[..i] == minutes[..i];
      }
    }
  }

  lemma DecisionsOnAppend(decisions: seq<Decision>, d: Decision, p: Text)
    ensures DecisionsOn(decisions + [d], p) == DecisionsOn(decisions, p) + if d.providerId == p then [d] else []
  {
    assert (decisions + [d])[..|decisions|] == decisions;
  }

  /** The minutes are continued to this status, or left as they are with the status. */
  ghost predicate Continues(minutes: seq<Decision>, added: seq<Decision>, before: Option<Status>,
      after: Option<Status>) {
    if added == [] then after == before
    else |added| == 1 && Follows(added[0], minutes) && after == Some(added[0].toStatus)
  }

  lemma ContinuedChain(minutes: seq<Decision>, added: seq<Decision>, before: Option<Status>, after: Option<Status>)
    requires Chain(minutes) && StatusByMinutes(minutes) == before && Continues(minutes, added, before, after)
    ensures Chain(minutes + added) && StatusByMinutes(minutes + added) == after
  {
    if added == [] {
      assert minutes + added == minutes;
    } else {
      assert added == [added[0]];
      ChainExtends(minutes, added[0]);
    }
  }

  lemma EntryKeepsMinutes(directory: Directory, s: Archive, step: Step, p: Text)
    requires MinutesAgreeOn(s, p) && MinutesAgreeOn(s, step.providerId) && Verdict(directory, s, step).Ok?
    ensures MinutesAgreeOn(Next(directory, s, step), p)
  {
    var s', added := Next(directory, s, step), Minuted(s, step);
    var own := if p == step.providerId then added else [];
    assert DecisionsOn(s'.decisions, p) == DecisionsOn(s.decisions, p) + own by {
      if added == [] {
        assert s.decisions + added == s.decisions;
      } else {
        assert added == [added[0]];
        DecisionsOnAppend(s.decisions, added[0], p);
      }
    }
    ContinuedChain(DecisionsOn(s.decisions, p), own, StatusOf(s, p), StatusOf(s', p));
  }

  lemma StepKeepsMinutes(directory: Directory, s: Archive, step: Step)
    requires MinutesAgree(s)
    ensures MinutesAgree(Next(directory, s, step))
  {
    forall p: Text ensures MinutesAgreeOn(Next(directory, s, step), p) {
      assert MinutesAgreeOn(s, p) && MinutesAgreeOn(s, step.providerId);
      if Verdict(directory, s, step).Ok? { EntryKeepsMinutes(directory, s, step, p); }
    }
  }

  /**
   * In every run the minutes on a provider are a chain from nothing to its present status, with no
   * entry that approves out of a blacklist and no first approval without a stated reason.
   */
  lemma {:induction false} MinutesTellTheStatus(directory: Directory, steps: seq<Step>)
    ensures MinutesAgree(Run(directory, steps))
  {
    if steps != [] {
      MinutesTellTheStatus(directory, steps[..|steps| - 1]);
      StepKeepsMinutes(directory, Run(directory, steps[..|steps| - 1]), steps[|steps| - 1]);
    }
  }

  // ---------------------------------------------------------------------------
  // Leaving a blacklist
  // ---------------------------------------------------------------------------

  ghost predicate LeavesBlacklist(d: Decision) {
    d.fromStatus == Some(Blacklisted) && d.toStatus != Blacklisted
  }

  /** A blacklisted provider is approved again only after a decision that takes it off the blacklist. */
  lemma BlacklistIsLeftFirst(minutes: seq<Decision>, i: nat, j: nat)
    requires Chain(minutes) && i < j < |minutes|
    requires minutes[i].toStatus == Blacklisted && minutes[j].toStatus == Approved
    ensures exists k :: i < k < j && LeavesBlacklist(minutes[k]) && minutes[k].toStatus != Approved
  {
    assert Follows(minutes[j], minutes[..j]);
    LeftBetween(minutes, i, j - 1);
    var k :| i < k <= j - 1 && LeavesBlacklist(minutes[k]);
    assert Follows(minutes[k], minutes[..k]);
  }

  lemma {:induction false} LeftBetween(minutes: seq<Decision>, i: nat, j: nat)
    requires Chain(minutes) && i <= j < |minutes|
    requires minutes[i].toStatus == Blacklisted && minutes[j].toStatus != Blacklisted
    ensures exists k :: i < k <= j && LeavesBlacklist(minutes[k])
    decreases j
  {
    assert Follows(minutes[j], minutes[..j]);
    if minutes[j - 1].toStatus == Blacklisted {
      assert LeavesBlacklist(minutes[j]);
    } else {
      LeftBetween(minutes, i, j - 1);
    }
  }

  /**
   * The steps that take a provider off the blacklist: submitting it again, which asks for no reason,
   * and flagging, suspending or reinstating it for a stated one.
   */
  lemma BlacklistIsLeftExactly(directory: Directory, s: Archive, step: Step, p: Text)
    requires StatusOf(s, p) == Some(Blacklisted)
    ensures StatusOf(Next(directory, s, step), p) != Some(Blacklisted)
       <==> step.providerId == p
            && ((step.SubmitForReview? && directory(p).Ok?)
                || (step.ChangeStatus? && !step.change.Blacklist? && !Blank(step.rationale)))
  {
  }

  /** Every decision that takes a provider off the blacklist states its reason. */
  ghost predicate ReversedForAReason(decisions: seq<Decision>) {
    forall d :: d in decisions ==> GivesAReason(d)
  }

  ghost predicate GivesAReason(d: Decision) {
    LeavesBlacklist(d) ==> d.grounds.Stated? && !Blank(d.grounds.rationale)
  }

  /** The step does not submit a blacklisted provider again without saying why. */
  predicate SubmittedForAReason(directory: Directory, s: Archive, step: Step) {
    step.SubmitForReview? && StatusOf(s, step.providerId) == Some(Blacklisted) && directory(step.providerId).Ok? ==>
      !Blank(step.rationale)
  }

  lemma MinutedForAReason(directory: Directory, s: Archive, step: Step)
    requires Verdict(directory, s, step).Ok?
    ensures ReversedForAReason(Minuted(s, step)) <==> SubmittedForAReason(directory, s, step)
  {
    if Minuted(s, step) != [] {
      var d := Minuted(s, step)[0];
      assert Minuted(s, step) == [d];
      assert GivesAReason(d) <==> SubmittedForAReason(directory, s, step);
    }
  }

  lemma ReasonedStep(directory: Directory, s: Archive, step: Step)
    ensures ReversedForAReason(Next(directory, s, step).decisions)
       <==> ReversedForAReason(s.decisions) && SubmittedForAReason(directory, s, step)
  {
    if Verdict(directory, s, step).Ok? {
      MinutedForAReason(directory, s, step);
      assert forall d :: d in s.decisions + Minuted(s, step) <==> d in s.decisions || d in Minuted(s, step);
    }
  }

  predicate SubmittedForAReasonAt(directory: Directory, steps: seq<Step>, n: nat)
    requires n < |steps|
  {
    SubmittedForAReason(directory, Run(directory, steps[..n]), steps[n])
  }

  /**
   * A blacklist is reversed by a decision with its own rationale, in every case of a run, if and only
   * if no blacklisted provider was submitted again without one.
   */
  lemma {:induction false} BlacklistsAreReversedForAReason(directory: Directory, steps: seq<Step>)
    ensures ReversedForAReason(Run(directory, steps).decisions)
       <==> forall n: nat :: n < |steps| ==> SubmittedForAReasonAt(directory, steps, n)
  {
    if steps != [] {
      var m: nat := |steps| - 1;
      var before := steps[..m];
      BlacklistsAreReversedForAReason(directory, before);
      ReasonedStep(directory, Run(directory, before), steps[m]);
      forall n: nat | n < m
        ensures SubmittedForAReasonAt(directory, steps, n) <==> SubmittedForAReasonAt(directory, before, n)
      {
        assert before[..n] == steps[..n];
      }
      assert SubmittedForAReasonAt(directory, steps, m)
        <==> SubmittedForAReason(directory, Run(directory, before), steps[m]);
    }
  }

  /** A run that blacklists a provider, submits it again without a word, and approves it. */
  lemma LeftWithoutAReason(directory: Directory, p: Text, why: Text, terms: Terms)
    requires directory(p) == Ok(Provider(true)) && !Blank(why) && terms.reviewCadenceDays.None?
    ensures var steps := [
        SubmitForReview(p, [], why), ChangeStatus(p, [], why, Blacklist), SubmitForReview(p, [], []),
        Approve(p, [], why, terms, 0)];
      StatusOf(Run(directory, steps), p) == Some(Approved) && !ReversedForAReason(Run(directory, steps).decisions)
  {
    var a, b := SubmitForReview(p, [], why), ChangeStatus(p, [], why, Blacklist);
    var c, d := SubmitForReview(p, [], []), Approve(p, [], why, terms, 0);
    assert [a][..0] == [] && [a, b][..1] == [a] && [a, b, c][..2] == [a, b] && [a, b, c, d][..3] == [a, b, c];
    var s1, s2 := Run(directory, [a]), Run(directory, [a, b]);
    var s3 := Run(directory, [a, b, c]);
    assert StatusOf(s1, p) == Some(PendingReview);
    assert StatusOf(s2, p) == Some(Blacklisted);
    var silent := Decision(p, Some(Blacklisted), PendingReview, Stated([], []));
    assert s3.decisions == s2.decisions + [silent];
    assert Run(directory, [a, b, c, d]) == Next(directory, s3, d);
    assert silent in Next(directory, s3, d).decisions && !GivesAReason(silent);
  }

  // ---------------------------------------------------------------------------
  // What an approval rests on
  // ---------------------------------------------------------------------------

  ghost predicate SoundRow(directory: Directory, p: Text, row: Row) {
    && row.reviewCadenceDays <= MAXIMUM_REVIEW_CADENCE_DAYS
    && (row.status == Approved ==>
          && row.lastReviewedAt.Some?
          && row.complaintWindowStart == row.lastReviewedAt
          && directory(p).Ok? && directory(p).value.withinScope)
  }

  /** In every run: no cadence over a quarter, and no approval without scope and a review date. */
  lemma {:induction false} ApprovalsAreSound(directory: Directory, steps: seq<Step>)
    ensures forall p :: p in Run(directory, steps).rows ==> SoundRow(directory, p, Run(directory, steps).rows[p])
  {
    if steps != [] {
      ApprovalsAreSound(directory, steps[..|steps| - 1]);
      var s, step := Run(directory, steps[..|steps| - 1]), steps[|steps| - 1];
      var rows' := Run(directory, steps).rows;
      forall p | p in rows' ensures SoundRow(directory, p, rows'[p]) {
        if p in s.rows { assert SoundRow(directory, p, s.rows[p]); }
      }
    }
  }

  datatype Blocker = NeverGoverned | NotApproved(status: Status) | ReviewOverdue | StateRestricted

  predicate Overdue(row: Row, today: Instant) {
    row.lastReviewedAt.None?
      || DaysBetween(row.lastReviewedAt.value, today) > Min(row.reviewCadenceDays, MAXIMUM_REVIEW_CADENCE_DAYS)
  }

  /** `standing`: the provider is recommendable when there is no blocker. */
  method Standing(row: Option<Row>, today: Instant, state: Option<Text>) returns (blockers: seq<Blocker>)
    ensures blockers == [] <==> Recommendable(row, today, state)
    ensures row.None? ==> blockers == [NeverGoverned]
    ensures row.Some? ==> forall b :: b in blockers <==> Blocks(row.value, b, today, state)
  {
    if row.None? { return [NeverGoverned]; }
    var snapshot := row.value;
    blockers := [];
    if snapshot.status != Approved { blockers := blockers + [NotApproved(snapshot.status)]; }
    if snapshot.status == Approved && Overdue(snapshot, today) { blockers := blockers + [ReviewOverdue]; }
    if state.Some? && state.value != [] {
      if state.value in snapshot.restrictedStates {
        blockers := blockers + [StateRestricted];
      } else if snapshot.approvedStates != [] && state.value !in snapshot.approvedStates {
        blockers := blockers + [StateRestricted];
      }
    }
  }

  ghost predicate Blocks(row: Row, blocker: Blocker, today: Instant, state: Option<Text>) {
    match blocker
    case NeverGoverned => false
    case NotApproved(status) => row.status == status != Approved
    case ReviewOverdue => row.status == Approved && Overdue(row, today)
    case StateRestricted => state.Some? && state.value != [] && !OpenIn(row, state.value)
  }

  predicate OpenIn(row: Row, state: Text) {
    state !in row.restrictedStates && (row.approvedStates == [] || state in row.approvedStates)
  }

  /** What a recommendation must be able to show. */
  predicate Recommendable(row: Option<Row>, today: Instant, state: Option<Text>) {
    && row.Some?
    && row.value.status == Approved
    && !Overdue(row.value, today)
    && (state.Some? && state.value != [] ==> OpenIn(row.value, state.value))
  }

  /** The refusals of an approval and of the other decisions, in order, and what is answered otherwise. */
  lemma AnswersInOrder(directory: Directory, s: Archive, step: Step)
    ensures var answer, provider := Verdict(directory, s, step), directory(step.providerId);
      match step
      case SubmitForReview(_, _, _) => answer == if provider.Ok? then Ok(()) else Forwarded(provider)
      case Approve(p, _, rationale, terms, _) =>
        answer == if Blank(rationale) then Refused
                  else if !provider.Ok? then Forwarded(provider)
                  else if provider.value.withinScope
                          && (terms.reviewCadenceDays.Some? ==> terms.reviewCadenceDays.value <= 90)
                          && StatusOf(s, p) != Some(Blacklisted)
                  then Ok(()) else Refused
      case RecordReview(p, _, _, _) => answer == if p in s.rows then Ok(()) else NoData
      case ChangeStatus(p, _, rationale, _) =>
        answer == if Blank(rationale) then Refused else if p in s.rows then Ok(()) else NoData
      case RecordComplaint(_, _, summary, _) => answer == if Blank(summary) then NoData else Ok(())
  {
  }

  /** Complaints on record since the board last weighed them. */
  function Unweighed(directory: Directory, steps: seq<Step>, p: Text): nat {
    if steps == [] then 0
    else
      var s, last := Run(directory, steps[..|steps| - 1]), steps[|steps| - 1];
      var before := Unweighed(directory, steps[..|steps| - 1], p);
      if last.providerId != p || !Verdict(directory, s, last).Ok? then before
      else if last.Approve? || last.RecordReview? then 0
      else if last.RecordComplaint? && p in s.rows then before + 1
      else before
  }

  /** In every run a record counts the complaints since the last approval or re-review. */
  lemma {:induction false} CountsUnweighed(directory: Directory, steps: seq<Step>, p: Text)
    ensures var rows := Run(directory, steps).rows;
      Unweighed(directory, steps, p) == if p in rows then rows[p].complaintCount else 0
  {
    if steps != [] { CountsUnweighed(directory, steps[..|steps| - 1], p); }
  }

  /** Asked for no state in particular, only the approval and its review count. */
  lemma RecommendableAnywhere(row: Row, today: Instant)
    ensures Recommendable(Some(row), today, None) <==> row.status == Approved && !Overdue(row, today)
    ensures Recommendable(Some(row), today, Some([])) <==> row.status == Approved && !Overdue(row, today)
  {
  }

  /** Where each decision of the board takes a provider. */
  lemma ChangedTo(directory: Directory, s: Archive, step: Step)
    requires Verdict(directory, s, step).Ok?
    ensures step.SubmitForReview? ==> StatusOf(Next(directory, s, step), step.providerId) == Some(PendingReview)
    ensures step.Approve? ==> StatusOf(Next(directory, s, step), step.providerId) == Some(Approved)
    ensures step.ChangeStatus? ==>
      var after := StatusOf(Next(directory, s, step), step.providerId);
      match step.change
      case Flag => after == Some(UnderReview)
      case Suspend => after == Some(Suspended)
      case Blacklist => after == Some(Blacklisted)
      case Reinstate => after == Some(PendingReview)
  {
  }

  /** A blacklisting keeps its rationale as the reason, and no other decision touches it. */
  lemma ReasonIsKept(directory: Directory, s: Archive, step: Step, p: Text)
    requires p in s.rows
    ensures p in Next(directory, s, step).rows
    ensures Next(directory, s, step).rows[p].blacklistReason ==
      if step.ChangeStatus? && step.change.Blacklist? && step.providerId == p && !Blank(step.rationale)
      then Some(step.rationale) else s.rows[p].blacklistReason
  {
  }

  /**
   * On the day of its approval a provider may be recommended in exactly the states the terms allow,
   * unless they set a cadence below nothing.
   */
  lemma ApprovedWhereAllowed(directory: Directory, s: Archive, step: Step, state: Text)
    requires step.Approve? && Verdict(directory, s, step).Ok? && state != []
    ensures var terms := step.terms;
      Recommendable(Some(Next(directory, s, step).rows[step.providerId]), step.now, Some(state))
      <==> && state !in terms.restrictedStates
           && (terms.approvedStates == [] || state in terms.approvedStates)
           && (terms.reviewCadenceDays.Some? ==> terms.reviewCadenceDays.value >= 0)
  {
  }

  /** `nextReviewDue` */
  function NextReviewDue(row: Row): Option<Instant> {
    if row.lastReviewedAt.None? then None
    else Some(row.lastReviewedAt.value + Min(row.reviewCadenceDays, MAXIMUM_REVIEW_CADENCE_DAYS) * DAY_MS)
  }

  /** A provider stays recommendable for a whole day after the date its review falls due. */
  lemma OverdueADayAfterDue(row: Row, today: Instant)
    requires row.lastReviewedAt.Some?
    ensures Overdue(row, today) <==> today >= NextReviewDue(row).value + DAY_MS
  {
  }

  /**
   * In every run, a provider that may be recommended is in scope, was reviewed less than 91 days
   * ago, and the last entry of its minutes is to approved.
   */
  lemma RecommendedProvidersAreCurrent(directory: Directory, steps: seq<Step>, p: Text, today: Instant,
      state: Option<Text>)
    requires p in Run(directory, steps).rows && Recommendable(Some(Run(directory, steps).rows[p]), today, state)
    ensures directory(p).Ok? && directory(p).value.withinScope
    ensures StatusByMinutes(DecisionsOn(Run(directory, steps).decisions, p)) == Some(Approved)
    ensures var row := Run(directory, steps).rows[p];
      row.lastReviewedAt.Some? && today < row.lastReviewedAt.value + (MAXIMUM_REVIEW_CADENCE_DAYS + 1) * DAY_MS
  {
    ApprovalsAreSound(directory, steps);
    MinutesTellTheStatus(directory, steps);
    var row := Run(directory, steps).rows[p];
    assert SoundRow(directory, p, row);
    assert MinutesAgreeOn(Run(directory, steps), p);
  }

  // ---------------------------------------------------------------------------
  // The complaint window
  // ---------------------------------------------------------------------------

  /** No approved provider stands at or above the threshold. */
  ghost predicate BelowThreshold(s: Archive) {
    forall p :: p in s.rows && s.rows[p].status == Approved
      ==> WindowScore(s.complaints, p, s.rows[p].complaintWindowStart) < COMPLAINT_FLAG_THRESHOLD
  }

  /** The step opens a window for a provider it leaves approved. */
  predicate OpensWindow(directory: Directory, s: Archive, step: Step) {
    && Verdict(directory, s, step).Ok?
    && (step.Approve? || (step.RecordReview? && s.rows[step.providerId].status == Approved))
  }

  /** What was recorded already and falls in the window the step opens scores below the threshold. */
  predicate OpensClear(s: Archive, step: Step)
    requires step.Approve? || step.RecordReview?
  {
    WindowScore(s.complaints, step.providerId, Some(step.now)) < COMPLAINT_FLAG_THRESHOLD
  }

  function CountIn(complaints: seq<Complaint>, p: Text, windowStart: Option<Instant>, severity: Severity): nat {
    if complaints == [] then 0
    else
      var c := complaints[|complaints| - 1];
      CountIn(complaints[..|complaints| - 1], p, windowStart, severity)
      + if c.severity == severity && c.providerId == p && (windowStart.Some? ==> c.receivedAt >= windowStart.value)
        then 1 else 0
  }

  lemma {:induction false} ScoreByCounts(complaints: seq<Complaint>, p: Text, windowStart: Option<Instant>)
    ensures WindowScore(complaints, p, windowStart)
         == CountIn(complaints, p, windowStart, Low)
            + 2 * CountIn(complaints, p, windowStart, Moderate)
            + 5 * CountIn(complaints, p, windowStart, Severe)
  {
    if complaints != [] { ScoreByCounts(complaints[..|complaints| - 1], p, windowStart); }
  }

  /** One severe complaint in the window is enough, or three moderate ones, or five low; four low ones are not. */
  lemma EnoughToFlag(complaints: seq<Complaint>, p: Text, windowStart: Option<Instant>)
    ensures CountIn(complaints, p, windowStart, Severe) >= 1
         || CountIn(complaints, p, windowStart, Moderate) >= 3
         || CountIn(complaints, p, windowStart, Low) >= 5
         ==> WindowScore(complaints, p, windowStart) >= COMPLAINT_FLAG_THRESHOLD
    ensures CountIn(complaints, p, windowStart, Severe) == 0 ==>
      (WindowScore(complaints, p, windowStart) >= COMPLAINT_FLAG_THRESHOLD
       <==> CountIn(complaints, p, windowStart, Low) + 2 * CountIn(complaints, p, windowStart, Moderate) >= 5)
  {
    ScoreByCounts(complaints, p, windowStart);
  }

  /** A complaint that brings its provider to the threshold takes it out of approved in the same step. */
  lemma CrossingEndsApproval(directory: Directory, s: Archive, step: Step)
    requires step.RecordComplaint? && Verdict(directory, s, step).Ok? && step.providerId in s.rows
    ensures var s' := Next(directory, s, step);
      var row' := s'.rows[step.providerId];
      && (WindowScore(s'.complaints, step.providerId, row'.complaintWindowStart) >= COMPLAINT_FLAG_THRESHOLD ==>
         row'.status != Approved)
      && (row'.status == Approved <==>
            s.rows[step.providerId].status == Approved
            && WindowScore(s'.complaints, step.providerId, row'.complaintWindowStart) < COMPLAINT_FLAG_THRESHOLD)
      && (s.rows[step.providerId].status != Approved ==>
         row'.status == s.rows[step.providerId].status && s'.decisions == s.decisions)
  {
  }

  lemma OpeningKeepsBelowExactly(directory: Directory, s: Archive, step: Step)
    requires BelowThreshold(s) && OpensWindow(directory, s, step)
    ensures BelowThreshold(Next(directory, s, step)) <==> OpensClear(s, step)
  {
    var s' := Next(directory, s, step);
    assert s'.rows[step.providerId].complaintWindowStart == Some(step.now) && s'.complaints == s.complaints;
    forall p | p in s'.rows && p != step.providerId ensures p in s.rows && s'.rows[p] == s.rows[p] {}
  }

  /** A step keeps every approved provider below the threshold exactly when any window it opens is clear. */
  lemma StepKeepsBelowExactly(directory: Directory, s: Archive, step: Step)
    requires BelowThreshold(s)
    ensures BelowThreshold(Next(directory, s, step)) <==> (OpensWindow(directory, s, step) ==> OpensClear(s, step))
  {
    if OpensWindow(directory, s, step) {
      OpeningKeepsBelowExactly(directory, s, step);
    } else if step.RecordComplaint? {
    } else {
      var s' := Next(directory, s, step);
      assert s'.complaints == s.complaints;
      forall p | p in s'.rows && s'.rows[p].status == Approved ensures p in s.rows && s'.rows[p] == s.rows[p] {}
    }
  }

  ghost predicate BelowAfter(directory: Directory, steps: seq<Step>, n: nat)
    requires n <= |steps|
  {
    BelowThreshold(Run(directory, steps[..n]))
  }

  ghost predicate ClearAt(directory: Directory, steps: seq<Step>, n: nat)
    requires n < |steps|
  {
    OpensWindow(directory, Run(directory, steps[..n]), steps[n]) ==> OpensClear(Run(directory, steps[..n]), steps[n])
  }

  lemma BelowAfterStep(directory: Directory, steps: seq<Step>, n: nat)
    requires n < |steps| && BelowAfter(directory, steps, n)
    ensures BelowAfter(directory, steps, n + 1) <==> ClearAt(directory, steps, n)
  {
    assert steps[..n + 1][..n] == steps[..n];
    StepKeepsBelowExactly(directory, Run(directory, steps[..n]), steps[n]);
  }

  /**
   * Over a whole run: approved providers are below the threshold in every state on the way exactly
   * when every approval or re-review found its window clear.
   */
  lemma BelowThresholdThroughout(directory: Directory, steps: seq<Step>)
    ensures (forall n: nat :: n <= |steps| ==> BelowAfter(directory, steps, n))
       <==> (forall n: nat :: n < |steps| ==> ClearAt(directory, steps, n))
  {
    var holds := (n: nat) => n <= |steps| && BelowAfter(directory, steps, n);
    var fits := (n: nat) => n < |steps| && ClearAt(directory, steps, n);
    forall n: nat | n < |steps| && holds(n) ensures holds(n + 1) <==> fits(n) { BelowAfterStep(directory, steps, n); }
    StepByStep(holds, fits, |steps|);
    assert forall n: nat :: n <= |steps| ==> (holds(n) <==> BelowAfter(directory, steps, n));
    assert forall n: nat :: n < |steps| ==> (fits(n) <==> ClearAt(directory, steps, n));
  }

  /** An approval or review dated after every complaint on the provider opens a clear window. */
  lemma {:induction false} LaterThanEveryComplaint(s: Archive, step: Step)
    requires step.Approve? || step.RecordReview?
    requires forall c :: c in s.complaints && c.providerId == step.providerId ==> c.receivedAt < step.now
    ensures OpensClear(s, step)
    decreases |s.complaints|
  {
    if s.complaints != [] {
      LaterThanEveryComplaint(s.(complaints := s.complaints[..|s.complaints| - 1]), step);
      assert s.complaints[|s.complaints| - 1] in s.complaints;
    }
  }

  /** An approval dated before a severe complaint that is on file leaves its provider approved at the threshold. */
  lemma BackdatedApprovalIsAtThreshold(directory: Directory, p: Text, summary: Text, rationale: Text, terms: Terms)
    requires directory(p) == Ok(Provider(true)) && !Blank(summary) && !Blank(rationale) && terms.reviewCadenceDays.None?
    ensures var steps := [RecordComplaint(p, Severe, summary, 2), Approve(p, [], rationale, terms, 1)];
      !BelowThreshold(Run(directory, steps))
  {
    var first, second := RecordComplaint(p, Severe, summary, 2), Approve(p, [], rationale, terms, 1);
    assert [first, second][..1] == [first] && [first][..0] == [];
    var complaint := Complaint(p, Severe, 2);
    assert Run(directory, [first]) == Archive(map[], [], [] + [complaint]);
    var s' := Next(directory, Run(directory, [first]), second);
    assert p in s'.rows && s'.rows[p].status == Approved;
  }

  // ---------------------------------------------------------------------------
  // The operations
  // ---------------------------------------------------------------------------

  datatype ComplaintResult = ComplaintResult(weightedScore: nat, thresholdCrossed: bool, governance: Option<Row>)

  class Board {
    const directory: Directory
    var rows: map<Text, Row>
    var decisions: seq<Decision>
    var complaints: seq<Complaint>

    ghost function State(): Archive
      reads this
    {
      Archive(rows, decisions, complaints)
    }

    constructor (directory: Directory)
      ensures State() == EMPTY_ARCHIVE && this.directory == directory
    {
      this.directory := directory;
      rows, decisions, complaints := map[], [], [];
    }

    method SubmitForReview(providerId: Text, submittedBy: Text, rationale: Text) returns (outcome: Outcome<()>)
      modifies this
      ensures var step := Step.SubmitForReview(providerId, submittedBy, rationale);
        outcome == Verdict(directory, old(State()), step) && State() == Next(directory, old(State()), step)
    {
      var provider := directory(providerId);
      if !provider.Ok? { return Unless(provider); }
      var existing := if providerId in rows then Some(rows[providerId].status) else None;
      rows := rows[providerId := (if providerId in rows then rows[providerId] else NEW_ROW).(status := PendingReview)];
      decisions := decisions + [Decision(providerId, existing, PendingReview, Stated(submittedBy, rationale))];
      return Ok(());
    }

    method Approve(providerId: Text, approvedBy: Text, rationale: Text, terms: Terms, now: Instant)
      returns (outcome: Outcome<()>)
      modifies this
      ensures var step := Step.Approve(providerId, approvedBy, rationale, terms, now);
        outcome == Verdict(directory, old(State()), step) && State() == Next(directory, old(State()), step)
    {
      if Blank(rationale) { return Refused; }
      var provider := directory(providerId);
      if !provider.Ok? { return Unless(provider); }
      if !provider.value.withinScope { return Refused; }
      if terms.reviewCadenceDays.Some? && terms.reviewCadenceDays.value > MAXIMUM_REVIEW_CADENCE_DAYS {
        return Refused;
      }
      var existing := if providerId in rows then Some(rows[providerId].status) else None;
      if existing == Some(Blacklisted) { return Refused; }
      var row := if providerId in rows then rows[providerId] else NEW_ROW;
      var cadence := MAXIMUM_REVIEW_CADENCE_DAYS;
      if terms.reviewCadenceDays.Some? { cadence := terms.reviewCadenceDays.value; }
      rows := rows[providerId :=
        Row(Approved, Some(now), cadence, terms.approvedStates, terms.restrictedStates, 0, Some(now),
          row.blacklistReason)];
      decisions := decisions + [Decision(providerId, existing, Approved, Stated(approvedBy, rationale))];
      return Ok(());
    }

    method RecordReview(providerId: Text, reviewedBy: Text, rationale: Text, now: Instant)
      returns (outcome: Outcome<()>)
      modifies this
      ensures var step := Step.RecordReview(providerId, reviewedBy, rationale, now);
        outcome == Verdict(directory, old(State()), step) && State() == Next(directory, old(State()), step)
    {
      if providerId !in rows { return NoData; }
      var existing := rows[providerId];
      rows := rows[providerId :=
        existing.(lastReviewedAt := Some(now), complaintCount := 0, complaintWindowStart := Some(now))];
      decisions :=
        decisions + [Decision(providerId, Some(existing.status), existing.status, Stated(reviewedBy, rationale))];
      return Ok(());
    }

    method Transition(providerId: Text, decidedBy: Text, rationale: Text, toStatus: Status,
        blacklistReason: Option<Text>)
        returns (outcome: Outcome<()>)
      modifies this
      ensures outcome == if Blank(rationale) then Refused else if providerId !in old(rows) then NoData else Ok(())
      ensures !outcome.Ok? ==> State() == old(State())
      ensures outcome.Ok? ==>
        var existing := old(rows)[providerId];
        var reason := if blacklistReason.Some? then blacklistReason else existing.blacklistReason;
        && rows == old(rows)[providerId := existing.(status := toStatus, blacklistReason := reason)]
        && decisions ==
           old(decisions) + [Decision(providerId, Some(existing.status), toStatus, Stated(decidedBy, rationale))]
        && complaints == old(complaints)
    {
      if Blank(rationale) { return Refused; }
      if providerId !in rows { return NoData; }
      var existing := rows[providerId];
      var updated := existing.(status := toStatus);
      if blacklistReason.Some? { updated := updated.(blacklistReason := blacklistReason); }
      rows := rows[providerId := updated];
      decisions := decisions + [Decision(providerId, Some(existing.status), toStatus, Stated(decidedBy, rationale))];
      return Ok(());
    }

    method FlagForReview(providerId: Text, decidedBy: Text, rationale: Text) returns (outcome: Outcome<()>)
      modifies this
      ensures var step := Step.ChangeStatus(providerId, decidedBy, rationale, Flag);
        outcome == Verdict(directory, old(State()), step) && State() == Next(directory, old(State()), step)
    {
      outcome := Transition(providerId, decidedBy, rationale, UnderReview, None);
    }

    method Suspend(providerId: Text, decidedBy: Text, rationale: Text) returns (outcome: Outcome<()>)
      modifies this
      ensures var step := Step.ChangeStatus(providerId, decidedBy, rationale, Change.Suspend);
        outcome == Verdict(directory, old(State()), step) && State() == Next(directory, old(State()), step)
    {
      outcome := Transition(providerId, decidedBy, rationale, Suspended, None);
    }

    method Blacklist(providerId: Text, decidedBy: Text, rationale: Text) returns (outcome: Outcome<()>)
      modifies this
      ensures var step := Step.ChangeStatus(providerId, decidedBy, rationale, Change.Blacklist);
        outcome == Verdict(directory, old(State()), step) && State() == Next(directory, old(State()), step)
    {
      outcome := Transition(providerId, decidedBy, rationale, Blacklisted, Some(rationale));
    }

    method Reinstate(providerId: Text, decidedBy: Text, rationale: Text) returns (outcome: Outcome<()>)
      modifies this
      ensures var step := Step.ChangeStatus(providerId, decidedBy, rationale, Change.Reinstate);
        outcome == Verdict(directory, old(State()), step) && State() == Next(directory, old(State()), step)
    {
      outcome := Transition(providerId, decidedBy, rationale, PendingReview, None);
    }

    method RecordComplaint(providerId: Text, severity: Severity, summary: Text, receivedAt: Instant)
        returns (outcome: Outcome<ComplaintResult>)
      modifies this
      ensures var step := Step.RecordComplaint(providerId, severity, summary, receivedAt);
        && (outcome.Ok? <==> Verdict(directory, old(State()), step).Ok?)
        && State() == Next(directory, old(State()), step)
        && (outcome.Ok? ==> outcome.value.weightedScore == ScoreWith(old(State()), step)
                            && outcome.value.thresholdCrossed == Crosses(old(State()), step))
      ensures outcome.Ok? && outcome.value.governance.Some?
        ==> providerId in rows && outcome.value.governance.value == rows[providerId]
            && rows[providerId].status == UnderReview
    {
      if Blank(summary) { return NoData; }
      complaints := complaints + [Complaint(providerId, severity, receivedAt)];
      if providerId !in rows { return Ok(ComplaintResult(Weight(severity), false, None)); }
      var record := rows[providerId];
      var weightedScore := WindowScore(complaints, providerId, record.complaintWindowStart);
      rows := rows[providerId := record.(complaintCount := record.complaintCount + 1)];
      var crossed := weightedScore >= COMPLAINT_FLAG_THRESHOLD;
      if !crossed || record.status != Approved { return Ok(ComplaintResult(weightedScore, crossed, None)); }
      rows := rows[providerId := rows[providerId].(status := UnderReview)];
      decisions := decisions + [Decision(providerId, Some(Approved), UnderReview, ThresholdReached(weightedScore))];
      return Ok(ComplaintResult(weightedScore, true, Some(rows[providerId])));
    }
  }
}
