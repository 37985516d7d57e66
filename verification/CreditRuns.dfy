/** Every run of the billing operations, and what refunds do to payments already carried forward. */
module CreditRuns {
  import opened Common
  import opened Billing
  import opened Credit

  datatype Step =
    | StartEngagement(engagement: Engagement)
    | CancelEngagement(engagementId: Id, reason: Text, cancelledOn: Instant)
    | RecordBilling(id: Id, engagementId: Id, kind: RecordKind, amountCents: int, occurredOn: Instant)
    | PayRefund(id: Id, engagementId: Id, trigger: Trigger, amountCents: int, paidOn: Instant,
      otherDue: seq<Entitlement>)
    | ApplyCredit(request: CreditRequest)

  predicate UsedRecordId(books: Books, id: Id) {
    exists r :: r in books.records && r.id == id
  }

  function Cancelled(engagements: seq<Engagement>, id: Id, on: Instant): seq<Engagement> {
    if engagements == [] then []
    else [if engagements[0].id == id then engagements[0].(cancelledOn := Some(on)) else engagements[0]]
         + Cancelled(engagements[1..], id, on)
  }

  function CancelVerdict(books: Books, id: Id, reason: Text): Outcome<()> {
    if Blank(reason) then Refused
    else if FindEngagement(books.engagements, id).None? then NoData
    else Ok(())
  }

  function RecordVerdict(books: Books, engagementId: Id, amountCents: int): Outcome<()> {
    if !SafeInteger(amountCents) || amountCents < 0 then Refused
    else if FindEngagement(books.engagements, engagementId).None? then NoData
    else Ok(())
  }

  /** A refund is paid when an entitlement of that trigger and amount is derived, paid before or not. */
  function RefundVerdict(books: Books, engagementId: Id, trigger: Trigger, amountCents: int,
      otherDue: seq<Entitlement>): Outcome<()> {
    if exists e ::
      e in RefundsDue(books, engagementId, otherDue) && e.trigger == trigger && e.amountCents == amountCents
    then Ok(()) else Refused
  }

  /** A row is created under an id no row has; a step that would reuse one cannot be taken. */
  predicate Enabled(books: Books, step: Step) {
    match step
    case StartEngagement(e) => FindEngagement(books.engagements, e.id).None?
    case CancelEngagement(_, _, _) => true
    case RecordBilling(id, _, _, _, _) => !UsedRecordId(books, id)
    case PayRefund(id, _, _, _, _, _) => !UsedRecordId(books, id)
    case ApplyCredit(request) => !UsedRecordId(books, request.recordId)
  }

  function Next(books: Books, step: Step): Books {
    if !Enabled(books, step) then books
    else
      match step
      case StartEngagement(e) => books.(engagements := books.engagements + [e])
      case CancelEngagement(id, reason, on) =>
        if CancelVerdict(books, id, reason).Ok? then books.(engagements := Cancelled(books.engagements, id, on))
          else books
      case RecordBilling(id, e, kind, amount, on) =>
        if RecordVerdict(books, e, amount).Ok?
        then books.(records := InsertRecord(books.records, BillingRecord(id, e, kind, amount, on))) else books
      case PayRefund(id, e, trigger, amount, on, otherDue) =>
        if RefundVerdict(books, e, trigger, amount, otherDue).Ok?
        then books.(records := InsertRecord(books.records, BillingRecord(id, e, Refund, amount, on))) else books
      case ApplyCredit(request) => AfterCredit(books, request)
  }

  function Run(steps: seq<Step>): Books {
    if steps == [] then EMPTY_BOOKS else Next(Run(steps[..|steps| - 1]), steps[|steps| - 1])
  }

  // ---------------------------------------------------------------------------
  // No payment is ever drawn beyond its amount
  // ---------------------------------------------------------------------------

  lemma {:induction false} FindsById(engagements: seq<Engagement>, id: Id)
    ensures FindEngagement(engagements, id).None? <==> forall i :: 0 <= i < |engagements| ==> engagements[i].id != id
  {
    if engagements != [] && engagements[0].id != id {
      FindsById(engagements[1..], id);
      assert forall i :: 0 < i < |engagements| ==> engagements[i] == engagements[1..][i - 1];
    }
  }

  lemma {:induction false} CancelledExactly(engagements: seq<Engagement>, id: Id, on: Instant)
    ensures |Cancelled(engagements, id, on)| == |engagements|
    ensures forall i :: 0 <= i < |engagements| ==>
      Cancelled(engagements, id, on)[i]
      == if engagements[i].id == id then engagements[i].(cancelledOn := Some(on)) else engagements[i]
  {
    if engagements != [] { CancelledExactly(engagements[1..], id, on); }
  }

  lemma StepKeepsSound(books: Books, step: Step)
    requires Sound(books)
    ensures Sound(Next(books, step))
  {
    if Enabled(books, step) {
      match step
      case StartEngagement(e) => FindsById(books.engagements, e.id);
      case CancelEngagement(id, reason, on) => CancelledExactly(books.engagements, id, on);
      case RecordBilling(id, e, kind, amount, on) =>
        if RecordVerdict(books, e, amount).Ok? { InsertKeepsSound(books, BillingRecord(id, e, kind, amount, on)); }
      case PayRefund(id, e, trigger, amount, on, otherDue) =>
        if RefundVerdict(books, e, trigger, amount, otherDue).Ok? {
          InsertKeepsSound(books, BillingRecord(id, e, Refund, amount, on));
        }
      case ApplyCredit(request) =>
        if CreditVerdict(books, request).Ok? { CreditMovesTheAmount(books, request); }
    }
  }

  /** In every reachable state draws are on payments and none exceeds its payment. */
  lemma {:induction false} NothingIsDrawnTwice(steps: seq<Step>)
    ensures Sound(Run(steps))
  {
    if steps != [] {
      NothingIsDrawnTwice(steps[..|steps| - 1]);
      StepKeepsSound(Run(steps[..|steps| - 1]), steps[|steps| - 1]);
    }
  }

  // ---------------------------------------------------------------------------
  // Credit stays with its client
  // ---------------------------------------------------------------------------

  ghost predicate Belongs(engagements: seq<Engagement>, e: Id, clientId: Id) {
    exists i :: 0 <= i < |engagements| && engagements[i].id == e && engagements[i].clientId == clientId
  }

  /** The draw is on a payment of one engagement of the client, for another one of the client. */
  ghost predicate WithinClient(books: Books, a: CreditApplication, clientId: Id) {
    && Belongs(books.engagements, a.toEngagementId, clientId)
    && exists p :: p in books.records && p.kind.Payment? && p.id == a.sourceRecordId
         && p.engagementId != a.toEngagementId && Belongs(books.engagements, p.engagementId, clientId)
  }

  ghost predicate WithinClients(books: Books) {
    forall a :: a in books.applications ==> exists clientId: Id :: WithinClient(books, a, clientId)
  }

  /** Rows are added and engagements keep their clients, so what was within a client stays there. */
  lemma StaysWithin(books: Books, books': Books, a: CreditApplication, clientId: Id)
    requires WithinClient(books, a, clientId)
    requires forall r :: r in books.records ==> r in books'.records
    requires |books.engagements| <= |books'.engagements|
    requires forall i :: 0 <= i < |books.engagements| ==>
      books'.engagements[i].id == books.engagements[i].id
      && books'.engagements[i].clientId == books.engagements[i].clientId
    ensures WithinClient(books', a, clientId)
  {
    forall e: Id | Belongs(books.engagements, e, clientId) ensures Belongs(books'.engagements, e, clientId) {
      var i :| 0 <= i < |books.engagements| && books.engagements[i].id == e
        && books.engagements[i].clientId == clientId;
      assert books'.engagements[i].id == e;
    }
  }

  lemma {:induction false} FoundBelongs(engagements: seq<Engagement>, id: Id)
    requires FindEngagement(engagements, id).Some?
    ensures Belongs(engagements, id, FindEngagement(engagements, id).value.clientId)
  {
    if engagements[0].id != id {
      FoundBelongs(engagements[1..], id);
      var clientId := FindEngagement(engagements, id).value.clientId;
      var i :| 0 <= i < |engagements[1..]| && engagements[1..][i].id == id && engagements[1..][i].clientId == clientId;
      assert engagements[i + 1].id == id;
    }
  }

  lemma CreditStaysWithin(books: Books, request: CreditRequest, a: CreditApplication)
    requires CreditVerdict(books, request).Ok?
    requires a in AfterCredit(books, request).applications && a !in books.applications
    ensures WithinClient(books, a, request.clientId)
  {
    var sources := NotOn(AvailableCredit(books, request.clientId), request.toEngagementId);
    NotOnMembers(AvailableCredit(books, request.clientId), request.toEngagementId);
    forall s | s in sources ensures s.availableCents > 0 { SourceHasRoom(books, request.clientId, s); }
    DrawsAreGreedy(sources, request.amountCents, request.toEngagementId);
    var draws := Draws(sources, request.amountCents, request.toEngagementId);
    assert a in draws;
    var i :| 0 <= i < |draws| && draws[i] == a;
    var source := sources[i];
    assert source in sources;
    SourceEngagement(books, books.engagements, request.clientId, source);
    PaymentsMembers(books.records, source.engagementId);
    var payments := PaymentsOf(books.records, source.engagementId);
    var k :| 0 <= k < |payments| && payments[k].id == source.recordId;
    assert payments[k] in payments;
    FoundBelongs(books.engagements, request.toEngagementId);
  }

  lemma StepStaysWithinClients(books: Books, step: Step)
    requires WithinClients(books)
    ensures WithinClients(Next(books, step))
  {
    var books' := Next(books, step);
    if Enabled(books, step) {
      match step
      case CancelEngagement(id, reason, on) => CancelledExactly(books.engagements, id, on);
      case RecordBilling(id, e, kind, amount, on) =>
        if RecordVerdict(books, e, amount).Ok? { InsertMembers(books.records, BillingRecord(id, e, kind, amount, on)); }
      case PayRefund(id, e, trigger, amount, on, otherDue) =>
        if RefundVerdict(books, e, trigger, amount, otherDue).Ok? {
          InsertMembers(books.records, BillingRecord(id, e, Refund, amount, on));
        }
      case ApplyCredit(request) =>
        if CreditVerdict(books, request).Ok? {
          InsertMembers(books.records, BillingRecord(request.recordId, request.toEngagementId, CreditApplied,
            request.amountCents, request.appliedOn));
        }
      case _ =>
    }
    forall a | a in books'.applications ensures exists clientId: Id :: WithinClient(books', a, clientId) {
      if a in books.applications {
        var clientId: Id :| WithinClient(books, a, clientId);
        StaysWithin(books, books', a, clientId);
      } else {
        CreditStaysWithin(books, step.request, a);
        StaysWithin(books, books', a, step.request.clientId);
      }
    }
  }

  /** In every run, credit is drawn on one engagement of a client for another of the same client. */
  lemma {:induction false} CreditStaysWithItsClient(steps: seq<Step>)
    ensures WithinClients(Run(steps))
  {
    if steps != [] {
      CreditStaysWithItsClient(steps[..|steps| - 1]);
      StepStaysWithinClients(Run(steps[..|steps| - 1]), steps[|steps| - 1]);
    }
  }

  /** A target that is not the client's own answers that there is none, and nothing is written. */
  lemma ForeignTargetIsRefused(books: Books, request: CreditRequest)
    requires Keyed(books) && !Belongs(books.engagements, request.toEngagementId, request.clientId)
    ensures !CreditVerdict(books, request).Ok? && Next(books, ApplyCredit(request)) == books
    ensures SafeInteger(request.amountCents) && request.amountCents > 0 && !Blank(request.rationale) ==>
      CreditVerdict(books, request).NoData?
  {
    if FindEngagement(books.engagements, request.toEngagementId).Some? {
      FoundBelongs(books.engagements, request.toEngagementId);
    }
  }

  // ---------------------------------------------------------------------------
  // What each step answers and writes
  // ---------------------------------------------------------------------------

  /** Cancelling takes a reason, sets the day on that engagement and leaves everything else. */
  lemma CancellationIsRecorded(books: Books, step: Step)
    requires step.CancelEngagement?
    ensures CancelVerdict(books, step.engagementId, step.reason) ==
      if Blank(step.reason) then Refused
      else if exists i :: 0 <= i < |books.engagements| && books.engagements[i].id == step.engagementId then Ok(())
      else NoData
    ensures var after := Next(books, step);
      after.records == books.records && after.applications == books.applications
      && |after.engagements| == |books.engagements|
      && forall i :: 0 <= i < |books.engagements| ==>
           after.engagements[i] ==
             if !Blank(step.reason) && books.engagements[i].id == step.engagementId
             then books.engagements[i].(cancelledOn := Some(step.cancelledOn)) else books.engagements[i]
  {
    FindsById(books.engagements, step.engagementId);
    CancelledExactly(books.engagements, step.engagementId, step.cancelledOn);
  }

  /** A record is written for any countable amount on an engagement in the books. */
  lemma BillingIsRecorded(books: Books, step: Step)
    requires step.RecordBilling? && Enabled(books, step)
    ensures RecordVerdict(books, step.engagementId, step.amountCents) ==
      if !(0 <= step.amountCents <= 0x1F_FFFF_FFFF_FFFF) then Refused
      else if exists i :: 0 <= i < |books.engagements| && books.engagements[i].id == step.engagementId then Ok(())
      else NoData
    ensures var after := Next(books, step);
      if 0 <= step.amountCents <= 0x1F_FFFF_FFFF_FFFF
         && exists i :: 0 <= i < |books.engagements| && books.engagements[i].id == step.engagementId
      then OneMore(books, after,
        BillingRecord(step.id, step.engagementId, step.kind, step.amountCents, step.occurredOn))
      else after == books
  {
    FindsById(books.engagements, step.engagementId);
    if RecordVerdict(books, step.engagementId, step.amountCents).Ok? {
      InsertMembers(books.records,
        BillingRecord(step.id, step.engagementId, step.kind, step.amountCents, step.occurredOn));
    }
  }

  /** A refund is written exactly when something of that trigger and that amount is due. */
  lemma RefundIsRecorded(books: Books, step: Step)
    requires step.PayRefund? && Enabled(books, step)
    ensures var answer := RefundVerdict(books, step.engagementId, step.trigger, step.amountCents, step.otherDue);
      answer.Refused? || answer.Ok?
    ensures var after := Next(books, step);
      if exists due ::
        && due in RefundsDue(books, step.engagementId, step.otherDue)
        && due.trigger == step.trigger && due.amountCents == step.amountCents
      then OneMore(books, after, BillingRecord(step.id, step.engagementId, Refund, step.amountCents, step.paidOn))
      else after == books
  {
    if RefundVerdict(books, step.engagementId, step.trigger, step.amountCents, step.otherDue).Ok? {
      InsertMembers(books.records,
        BillingRecord(step.id, step.engagementId, Refund, step.amountCents, step.paidOn));
    }
  }

  ghost predicate OneMore(books: Books, after: Books, row: BillingRecord) {
    && after.engagements == books.engagements && after.applications == books.applications
    && |after.records| == |books.records| + 1
    && forall r :: r in after.records <==> r == row || r in books.records
  }

  /** What an application of credit answers, by the amount, the reason, the target and what is left elsewhere. */
  lemma CreditAnswers(books: Books, request: CreditRequest)
    requires Keyed(books)
    ensures var left := SumAvailable(NotOn(AvailableCredit(books, request.clientId), request.toEngagementId));
      CreditVerdict(books, request) ==
        if !(1 <= request.amountCents <= 0x1F_FFFF_FFFF_FFFF) || Blank(request.rationale) then Refused
        else if !Belongs(books.engagements, request.toEngagementId, request.clientId) then NoData
        else if left > 0x1F_FFFF_FFFF_FFFF then Failed
        else if left < request.amountCents then Refused
        else Ok(request.amountCents)
  {
    FindsById(books.engagements, request.toEngagementId);
    if FindEngagement(books.engagements, request.toEngagementId).Some? {
      FoundBelongs(books.engagements, request.toEngagementId);
    }
  }

  // ---------------------------------------------------------------------------
  // Credit records and draws agree
  // ---------------------------------------------------------------------------

  /** Credit records written by `recordBilling` rather than by `applyCredit`. */
  function HandWrittenCredit(steps: seq<Step>, e: Id): nat {
    if steps == [] then 0
    else
      var books, last := Run(steps[..|steps| - 1]), steps[|steps| - 1];
      HandWrittenCredit(steps[..|steps| - 1], e)
      + if last.RecordBilling? && Enabled(books, last) && last.kind.CreditApplied? && last.engagementId == e
           && RecordVerdict(books, e, last.amountCents).Ok?
        then last.amountCents else 0
  }

  /**
   * On every engagement in every run, the credit records total what was drawn for it plus what was
   * written by hand.
   */
  lemma {:induction false} CreditRecordsMatchDraws(steps: seq<Step>, e: Id)
    ensures TotalOf(Run(steps).records, e, CreditApplied) ==
      AppliedTo(Run(steps).applications, e) + HandWrittenCredit(steps, e)
  {
    if steps != [] {
      var before, last := steps[..|steps| - 1], steps[|steps| - 1];
      var books := Run(before);
      CreditRecordsMatchDraws(before, e);
      if Enabled(books, last) {
        match last
        case RecordBilling(id, f, kind, amount, on) =>
          if RecordVerdict(books, f, amount).Ok? {
            InsertTotals(books.records, BillingRecord(id, f, kind, amount, on), e, CreditApplied);
          }
        case PayRefund(id, f, trigger, amount, on, otherDue) =>
          if RefundVerdict(books, f, trigger, amount, otherDue).Ok? {
            InsertTotals(books.records, BillingRecord(id, f, Refund, amount, on), e, CreditApplied);
          }
        case ApplyCredit(request) =>
          NothingIsDrawnTwice(before);
          CreditElsewhere(books, request, e);
        case _ =>
      }
    }
  }

  lemma CreditElsewhere(books: Books, request: CreditRequest, e: Id)
    requires Sound(books)
    ensures var books' := AfterCredit(books, request);
      TotalOf(books'.records, e, CreditApplied) - AppliedTo(books'.applications, e)
        == TotalOf(books.records, e, CreditApplied) - AppliedTo(books.applications, e)
  {
    if CreditVerdict(books, request).Ok? {
      var sources := NotOn(AvailableCredit(books, request.clientId), request.toEngagementId);
      NotOnMembers(AvailableCredit(books, request.clientId), request.toEngagementId);
      forall s | s in sources ensures s.availableCents > 0 { SourceHasRoom(books, request.clientId, s); }
      DrawsAreGreedy(sources, request.amountCents, request.toEngagementId);
      AppliedByDraws(books.applications, Draws(sources, request.amountCents, request.toEngagementId),
        request.toEngagementId, e);
      InsertTotals(books.records,
        BillingRecord(request.recordId, request.toEngagementId, CreditApplied, request.amountCents, request.appliedOn),
        e, CreditApplied);
    }
  }

  // ---------------------------------------------------------------------------
  // Refunds and draws together
  // ---------------------------------------------------------------------------

  /** Each payment covers what was drawn from it and the refund set against it, oldest first. */
  predicate Covered(payments: seq<BillingRecord>, refund: nat, applications: seq<CreditApplication>) {
    payments == []
    || (var offset := Min(refund, payments[0].amountCents);
        && DrawnFrom(applications, payments[0].id) + offset <= payments[0].amountCents
        && Covered(payments[1..], refund - offset, applications))
  }

  predicate CoveredOn(books: Books, e: Id) {
    Covered(PaymentsOf(books.records, e), RefundedOf(books.records, e), books.applications)
  }

  function DrawnOn(payments: seq<BillingRecord>, applications: seq<CreditApplication>): nat {
    if payments == [] then 0 else DrawnFrom(applications, payments[0].id) + DrawnOn(payments[1..], applications)
  }

  /** So together they never exceed what was paid. */
  lemma {:induction false} CoveredTotal(payments: seq<BillingRecord>, refund: nat, applications: seq<CreditApplication>)
    requires Covered(payments, refund, applications)
    ensures DrawnOn(payments, applications) + Min(refund, Paid(payments)) <= Paid(payments)
  {
    if payments != [] {
      CoveredTotal(payments[1..], refund - Min(refund, payments[0].amountCents), applications);
    }
  }

  /**
   * What is still offered, what is drawn and what refunds take never add to less than was paid; they
   * add to exactly what was paid when every payment is covered, and otherwise credit is offered
   * that is not there.
   */
  lemma {:induction false} OfferedIsWhatIsLeft(payments: seq<BillingRecord>, refund: nat,
      applications: seq<CreditApplication>)
    ensures var offered := SumAvailable(Sources(payments, refund, applications));
      var taken := DrawnOn(payments, applications) + Min(refund, Paid(payments));
      offered + taken >= Paid(payments)
        && (offered + taken == Paid(payments) <==> Covered(payments, refund, applications))
  {
    if payments != [] {
      var offset := Min(refund, payments[0].amountCents);
      OfferedIsWhatIsLeft(payments[1..], refund - offset, applications);
      SumConcat(SourceFrom(payments[0], offset, DrawnFrom(applications, payments[0].id)),
                Sources(payments[1..], refund - offset, applications));
    }
  }

  /** Cover asks more than the total: 100 and 100 paid, the first drawn in full, 100 refunded. */
  lemma TotalWithinPaidUncovered() returns (payments: seq<BillingRecord>, applications: seq<CreditApplication>)
    ensures DrawnOn(payments, applications) + 100 == Paid(payments)
    ensures !Covered(payments, 100, applications) && SumAvailable(Sources(payments, 100, applications)) == 100
  {
    var first, second := BillingRecord(1, 1, Payment, 100, 0), BillingRecord(2, 1, Payment, 100, 1);
    var draw := CreditApplication(1, 2, 100);
    payments, applications := [first, second], [draw];
    DrawnByOne(draw, 1);
    DrawnByOne(draw, 2);
    UndrawnPayment(second, draw);
    assert payments[1..] == [second];
    assert SourceFrom(first, 100, 100) == [];
    assert Sources(payments, 100, applications) == [] + Sources([second], 0, applications);
  }

  lemma UndrawnPayment(p: BillingRecord, a: CreditApplication)
    requires p.id != a.sourceRecordId && p.amountCents > 0
    ensures DrawnOn([p], [a]) == 0 && Paid([p]) == p.amountCents && SumAvailable(Sources([p], 0, [a])) == p.amountCents
  {
    DrawnByOne(a, p.id);
    assert [p][1..] == [];
    var source := CreditSource(p.id, p.engagementId, p.amountCents, 0, p.amountCents, p.occurredOn);
    assert Sources([p], 0, [a]) == [source];
    assert [source][1..] == [];
  }

  /**
   * How much may be refunded in all before the refund reaches into a drawn part: everything up to
   * the first drawn payment, and what that payment has left. No limit while nothing is drawn.
   */
  function RefundRoom(payments: seq<BillingRecord>, applications: seq<CreditApplication>): Option<int> {
    if payments == [] then None
    else
      var drawn := DrawnFrom(applications, payments[0].id);
      if drawn > 0 then Some(payments[0].amountCents - drawn)
      else
        var rest := RefundRoom(payments[1..], applications);
        if rest.None? then None else Some(payments[0].amountCents + rest.value)
  }

  predicate WithinRoom(payments: seq<BillingRecord>, refund: nat, applications: seq<CreditApplication>) {
    var room := RefundRoom(payments, applications);
    room.None? || refund <= room.value
  }

  ghost predicate DrawnWithin(payments: seq<BillingRecord>, applications: seq<CreditApplication>) {
    forall i :: 0 <= i < |payments| ==> DrawnFrom(applications, payments[i].id) <= payments[i].amountCents
  }

  lemma {:induction false} CoveredWithoutRefund(payments: seq<BillingRecord>, applications: seq<CreditApplication>)
    requires DrawnWithin(payments, applications)
    ensures Covered(payments, 0, applications)
  {
    if payments != [] {
      assert DrawnWithin(payments[1..], applications);
      CoveredWithoutRefund(payments[1..], applications);
    }
  }

  /** Exactly the refunds within the room leave every payment covered. */
  lemma {:induction false} CoveredExactlyWithinRoom(payments: seq<BillingRecord>, refund: nat,
      applications: seq<CreditApplication>)
    requires DrawnWithin(payments, applications)
    ensures Covered(payments, refund, applications) <==> WithinRoom(payments, refund, applications)
  {
    if payments != [] {
      var p := payments[0];
      var offset := Min(refund, p.amountCents);
      assert DrawnWithin(payments[1..], applications);
      CoveredExactlyWithinRoom(payments[1..], refund - offset, applications);
      if DrawnFrom(applications, p.id) > 0 {
        CoveredWithoutRefund(payments[1..], applications);
      } else {
        RoomNotNegative(payments[1..], applications);
      }
    }
  }

  lemma {:induction false} RoomNotNegative(payments: seq<BillingRecord>, applications: seq<CreditApplication>)
    requires DrawnWithin(payments, applications)
    ensures RefundRoom(payments, applications).Some? ==> RefundRoom(payments, applications).value >= 0
  {
    if payments != [] {
      assert DrawnWithin(payments[1..], applications);
      RoomNotNegative(payments[1..], applications);
    }
  }

  lemma {:induction false} LessRefundStaysCovered(payments: seq<BillingRecord>, refund: nat, refund': nat,
      applications: seq<CreditApplication>)
    requires Covered(payments, refund, applications) && refund' <= refund
    ensures Covered(payments, refund', applications)
  {
    if payments != [] {
      var amount := payments[0].amountCents;
      LessRefundStaysCovered(payments[1..], refund - Min(refund, amount), refund' - Min(refund', amount), applications);
    }
  }

  /** An undrawn payment inserted anywhere, even among older dates, only lightens the others. */
  lemma {:induction false} InsertedPaymentStaysCovered(payments: seq<BillingRecord>, k: nat, p: BillingRecord,
      refund: nat, applications: seq<CreditApplication>)
    requires k <= |payments| && DrawnFrom(applications, p.id) == 0
    requires Covered(payments, refund, applications)
    ensures Covered(payments[..k] + [p] + payments[k..], refund, applications)
  {
    var inserted := payments[..k] + [p] + payments[k..];
    if k == 0 {
      assert inserted == [p] + payments;
      LessRefundStaysCovered(payments, refund, refund - Min(refund, p.amountCents), applications);
    } else {
      var rest := payments[1..];
      InsertedPaymentStaysCovered(rest, k - 1, p, refund - Min(refund, payments[0].amountCents), applications);
      assert inserted[1..] == rest[..k - 1] + [p] + rest[k - 1..];
    }
  }

  lemma {:induction false} DrawElsewhereStaysCovered(payments: seq<BillingRecord>, refund: nat,
      applications: seq<CreditApplication>, a: CreditApplication)
    requires !HasPayment(payments, a.sourceRecordId)
    ensures Covered(payments, refund, applications + [a]) == Covered(payments, refund, applications)
  {
    if payments != [] {
      DrawnAfter(applications, a, payments[0].id);
      assert payments[0].id != a.sourceRecordId;
      forall i | 0 <= i < |payments[1..]| ensures payments[1..][i].id != a.sourceRecordId {
        assert payments[1..][i] == payments[i + 1];
      }
      DrawElsewhereStaysCovered(payments[1..], refund - Min(refund, payments[0].amountCents), applications, a);
    }
  }

  lemma {:induction false} DrawStaysCovered(payments: seq<BillingRecord>, refund: nat,
      applications: seq<CreditApplication>, a: CreditApplication, source: CreditSource)
    requires DistinctIds(payments) && Covered(payments, refund, applications)
    requires source in Sources(payments, refund, applications)
    requires a.sourceRecordId == source.recordId && a.amountCents <= source.availableCents
    ensures Covered(payments, refund, applications + [a])
  {
    var p, rest, refund' := payments[0], payments[1..], refund - Min(refund, payments[0].amountCents);
    DrawnAfter(applications, a, p.id);
    NotInRest(payments);
    if p.id == a.sourceRecordId {
      DrawElsewhereStaysCovered(rest, refund', applications, a);
      SourcesComeFromPayments(rest, refund', applications);
    } else {
      DrawStaysCovered(rest, refund', applications, a, source);
    }
  }

  lemma OneDrawStaysCovered(books: Books, clientId: Id, a: CreditApplication, source: CreditSource, e: Id)
    requires Sound(books) && CoveredOn(books, e)
    requires source in AvailableCredit(books, clientId)
    requires a.sourceRecordId == source.recordId && a.amountCents <= source.availableCents
    ensures CoveredOn(books.(applications := books.applications + [a]), e)
  {
    SourceEngagement(books, books.engagements, clientId, source);
    var f := source.engagementId;
    var payments, refund := PaymentsOf(books.records, e), RefundedOf(books.records, e);
    if e == f {
      PaymentsDistinct(books.records, e);
      DrawStaysCovered(payments, refund, books.applications, a, source);
    } else {
      OnlyOnOneEngagement(books, f, e, source.recordId);
      DrawElsewhereStaysCovered(payments, refund, books.applications, a);
    }
  }

  lemma {:induction false} DrawsStayCovered(books: Books, sources: seq<CreditSource>, amount: nat, clientId: Id,
      to: Id, e: Id)
    requires Sound(books) && CoveredOn(books, e) && DistinctSources(sources)
    requires forall i :: 0 <= i < |sources| ==> sources[i] in AvailableCredit(books, clientId)
    ensures CoveredOn(books.(applications := books.applications + Draws(sources, amount, to)), e)
    decreases |sources|
  {
    if amount == 0 || sources == [] {
      assert books.applications + Draws(sources, amount, to) == books.applications;
    } else {
      var draw := Min(amount, sources[0].availableCents);
      var a := CreditApplication(sources[0].recordId, to, draw);
      var books1 := books.(applications := books.applications + [a]);
      DrawFirst(books, sources, clientId, a);
      OneDrawStaysCovered(books, clientId, a, sources[0], e);
      DrawsStayCovered(books1, sources[1..], amount - draw, clientId, to, e);
      DrawnTogether(books, a, Draws(sources[1..], amount - draw, to));
    }
  }

  /** What a step adds to the refunds of an engagement. */
  function RefundWritten(books: Books, step: Step, e: Id): nat {
    if !Enabled(books, step) then 0
    else
      match step
      case RecordBilling(_, f, kind, amount, _) =>
        if kind.Refund? && f == e && RecordVerdict(books, f, amount).Ok? then amount else 0
      case PayRefund(_, f, trigger, amount, _, otherDue) =>
        if f == e && RefundVerdict(books, f, trigger, amount, otherDue).Ok? then amount else 0
      case _ => 0
  }

  /** The refund a step writes still fits ahead of the first drawn part. */
  predicate RefundFits(books: Books, step: Step, e: Id) {
    var refunded := RefundedOf(books.records, e) + RefundWritten(books, step, e);
    WithinRoom(PaymentsOf(books.records, e), refunded, books.applications)
  }

  lemma SoundDrawnWithin(books: Books, e: Id)
    requires Sound(books)
    ensures DrawnWithin(PaymentsOf(books.records, e), books.applications)
  {
    PaymentsMembers(books.records, e);
    var payments := PaymentsOf(books.records, e);
    forall i | 0 <= i < |payments| ensures DrawnFrom(books.applications, payments[i].id) <= payments[i].amountCents {
      assert payments[i] in payments;
    }
  }

  lemma InsertCovered(books: Books, r: BillingRecord, e: Id)
    requires Sound(books) && CoveredOn(books, e)
    requires forall s :: s in books.records ==> s.id != r.id
    ensures CoveredOn(books.(records := InsertRecord(books.records, r)), e)
       <==> WithinRoom(PaymentsOf(books.records, e),
                       RefundedOf(books.records, e)
                         + (if r.kind.Refund? && r.engagementId == e then r.amountCents else 0),
                       books.applications)
  {
    SoundDrawnWithin(books, e);
    InsertTotals(books.records, r, e, Refund);
    var payments, refund := PaymentsOf(books.records, e), RefundedOf(books.records, e);
    var k := InsertPayments(books.records, r, e);
    if r.kind.Payment? && r.engagementId == e {
      UndrawnNew(books, r);
      InsertedPaymentStaysCovered(payments, k, r, refund, books.applications);
      CoveredExactlyWithinRoom(payments, refund, books.applications);
    } else {
      CoveredExactlyWithinRoom(payments, RefundedOf(InsertRecord(books.records, r), e), books.applications);
    }
  }

  lemma UndrawnNew(books: Books, r: BillingRecord)
    requires Sound(books) && forall s :: s in books.records ==> s.id != r.id
    ensures DrawnFrom(books.applications, r.id) == 0
  {
    forall a | a in books.applications ensures a.sourceRecordId != r.id {
      var s :| s in books.records && s.id == a.sourceRecordId && s.kind.Payment?;
    }
    UndrawnFrom(books.applications, r.id);
  }

  /** Only a refund that does not fit can leave a covered engagement uncovered, and it always does. */
  lemma StepKeepsCoverExactly(books: Books, step: Step, e: Id)
    requires Sound(books) && CoveredOn(books, e)
    ensures CoveredOn(Next(books, step), e) <==> RefundFits(books, step, e)
  {
    SoundDrawnWithin(books, e);
    CoveredExactlyWithinRoom(PaymentsOf(books.records, e), RefundedOf(books.records, e), books.applications);
    if Enabled(books, step) {
      match step
      case RecordBilling(id, f, kind, amount, on) =>
        if RecordVerdict(books, f, amount).Ok? { InsertCovered(books, BillingRecord(id, f, kind, amount, on), e); }
      case PayRefund(id, f, trigger, amount, on, otherDue) =>
        if RefundVerdict(books, f, trigger, amount, otherDue).Ok? {
          InsertCovered(books, BillingRecord(id, f, Refund, amount, on), e);
        }
      case ApplyCredit(request) => CreditStaysCovered(books, request, e);
      case _ =>
    }
  }

  lemma CreditStaysCovered(books: Books, request: CreditRequest, e: Id)
    requires Sound(books) && CoveredOn(books, e)
    ensures CoveredOn(AfterCredit(books, request), e)
  {
    if CreditVerdict(books, request).Ok? {
      var credit := AvailableCredit(books, request.clientId);
      var sources := NotOn(credit, request.toEngagementId);
      CreditOverDistinct(books, books.engagements, request.clientId);
      NotOnMembers(credit, request.toEngagementId);
      assert forall i :: 0 <= i < |sources| ==> sources[i] in sources;
      DrawsStayCovered(books, sources, request.amountCents, request.clientId, request.toEngagementId, e);
      var row := BillingRecord(request.recordId, request.toEngagementId, CreditApplied, request.amountCents,
        request.appliedOn);
      var applications := books.applications + Draws(sources, request.amountCents, request.toEngagementId);
      CreditRecordUncovered(books.(applications := applications), row, e);
    }
  }

  lemma CreditRecordUncovered(books: Books, row: BillingRecord, e: Id)
    requires row.kind.CreditApplied?
    ensures CoveredOn(books.(records := InsertRecord(books.records, row)), e) == CoveredOn(books, e)
  {
    var k := InsertPayments(books.records, row, e);
    InsertTotals(books.records, row, e, Refund);
  }

  ghost predicate CoveredAfter(steps: seq<Step>, e: Id, n: nat)
    requires n <= |steps|
  {
    CoveredOn(Run(steps[..n]), e)
  }

  ghost predicate FitsAt(steps: seq<Step>, e: Id, n: nat)
    requires n < |steps|
  {
    RefundFits(Run(steps[..n]), steps[n], e)
  }

  lemma CoveredAfterStep(steps: seq<Step>, e: Id, n: nat)
    requires n < |steps| && CoveredAfter(steps, e, n)
    ensures CoveredAfter(steps, e, n + 1) <==> FitsAt(steps, e, n)
  {
    assert steps[..n + 1][..n] == steps[..n];
    NothingIsDrawnTwice(steps[..n]);
    StepKeepsCoverExactly(Run(steps[..n]), steps[n], e);
  }

  /**
   * Over a whole run, the payments of an engagement stay covered throughout exactly when every
   * refund fits at the moment it is written.
   */
  lemma CoveredThroughout(steps: seq<Step>, e: Id)
    ensures (forall n: nat :: n <= |steps| ==> CoveredAfter(steps, e, n))
       <==> (forall n: nat :: n < |steps| ==> FitsAt(steps, e, n))
  {
    var holds := (n: nat) => n <= |steps| && CoveredAfter(steps, e, n);
    var fits := (n: nat) => n < |steps| && FitsAt(steps, e, n);
    forall n: nat | n < |steps| && holds(n) ensures holds(n + 1) <==> fits(n) { CoveredAfterStep(steps, e, n); }
    StepByStep(holds, fits, |steps|);
    assert forall n: nat :: n <= |steps| ==> (holds(n) <==> CoveredAfter(steps, e, n));
    assert forall n: nat :: n < |steps| ==> (fits(n) <==> FitsAt(steps, e, n));
  }

  ghost predicate OffersWhatIsLeftAfter(steps: seq<Step>, e: Id, n: nat)
    requires n <= |steps|
  {
    var books := Run(steps[..n]);
    var payments := PaymentsOf(books.records, e);
    SumAvailable(SourcesOf(books, e)) + DrawnOn(payments, books.applications)
      + Min(RefundedOf(books.records, e), Paid(payments))
    == Paid(payments)
  }

  lemma OffersWhenCovered(steps: seq<Step>, e: Id, n: nat)
    requires n <= |steps|
    ensures OffersWhatIsLeftAfter(steps, e, n) <==> CoveredAfter(steps, e, n)
  {
    var books := Run(steps[..n]);
    OfferedIsWhatIsLeft(PaymentsOf(books.records, e), RefundedOf(books.records, e), books.applications);
  }

  /**
   * Over a whole run, what an engagement offers is in every state exactly what was paid less what
   * was drawn and refunded, if and only if every refund fits at the moment it is written.
   */
  lemma OffersWhatIsLeftThroughout(steps: seq<Step>, e: Id)
    ensures (forall n: nat :: n <= |steps| ==> OffersWhatIsLeftAfter(steps, e, n))
       <==> (forall n: nat :: n < |steps| ==> FitsAt(steps, e, n))
  {
    CoveredThroughout(steps, e);
    forall n: nat | n <= |steps| ensures OffersWhatIsLeftAfter(steps, e, n) <==> CoveredAfter(steps, e, n) {
      OffersWhenCovered(steps, e, n);
    }
  }

  /** In particular when its refunds all come before its first draw. */
  lemma {:induction false} RefundsFirstStaysCovered(steps: seq<Step>, e: Id)
    requires forall k :: 0 <= k < |steps| && RefundWritten(Run(steps[..k]), steps[k], e) > 0
               ==> DrawnOn(PaymentsOf(Run(steps[..k]).records, e), Run(steps[..k]).applications) == 0
    ensures CoveredOn(Run(steps), e)
    ensures var books := Run(steps);
      var payments := PaymentsOf(books.records, e);
      DrawnOn(payments, books.applications) + Min(RefundedOf(books.records, e), Paid(payments)) <= Paid(payments)
  {
    if steps != [] {
      var n := |steps| - 1;
      var before := steps[..n];
      assert forall k :: 0 <= k < n ==> before[..k] == steps[..k] && before[k] == steps[k];
      RefundsFirstStaysCovered(before, e);
      NothingIsDrawnTwice(before);
      var books := Run(before);
      SoundDrawnWithin(books, e);
      UndrawnHasRoom(PaymentsOf(books.records, e), books.applications);
      CoveredExactlyWithinRoom(PaymentsOf(books.records, e), RefundedOf(books.records, e), books.applications);
      StepKeepsCoverExactly(books, steps[n], e);
    }
    CoveredTotal(PaymentsOf(Run(steps).records, e), RefundedOf(Run(steps).records, e), Run(steps).applications);
  }

  lemma {:induction false} UndrawnHasRoom(payments: seq<BillingRecord>, applications: seq<CreditApplication>)
    ensures DrawnOn(payments, applications) == 0 ==> RefundRoom(payments, applications).None?
  {
    if payments != [] { UndrawnHasRoom(payments[1..], applications); }
  }

  lemma SameRefundsDue(books: Books, records: seq<BillingRecord>, e: Id, otherDue: seq<Entitlement>)
    requires PaymentsOf(records, e) == PaymentsOf(books.records, e)
    ensures RefundsDue(books.(records := records), e, otherDue) == RefundsDue(books, e, otherDue)
  {
  }

  /** Paying a refund leaves it due: nothing stops the same entitlement from being paid again. */
  lemma PaidRefundStaysDue(books: Books, e: Id, trigger: Trigger, amount: int, otherDue: seq<Entitlement>, id: Id,
      on: Instant)
    requires RefundVerdict(books, e, trigger, amount, otherDue).Ok? && !UsedRecordId(books, id)
    ensures var books' := Next(books, PayRefund(id, e, trigger, amount, on, otherDue));
      && RefundVerdict(books', e, trigger, amount, otherDue).Ok?
      && RefundedOf(books'.records, e) == RefundedOf(books.records, e) + amount
  {
    var row := BillingRecord(id, e, Refund, amount, on);
    InsertTotals(books.records, row, e, Refund);
    var k := InsertPayments(books.records, row, e);
    SameRefundsDue(books, InsertRecord(books.records, row), e, otherDue);
  }

  const PREPAID := Engagement(1, 7, 0, Some(10 * DAY_MS), true, None)

  lemma CancelledRun(steps: seq<Step>, reason: Text)
    requires !Blank(reason)
    requires steps == [StartEngagement(PREPAID), RecordBilling(1, 1, Payment, 100, 0),
                       CancelEngagement(1, reason, 5 * DAY_MS)]
    ensures Run(steps) == Books([PREPAID.(cancelledOn := Some(5 * DAY_MS))], [BillingRecord(1, 1, Payment, 100, 0)], [])
  {
    var s1, s2 := steps[..1], steps[..2];
    assert s1[..0] == [] && s2[..1] == s1;
    assert Run(s1) == Books([PREPAID], [], []);
    assert Run(s2) == Books([PREPAID], [BillingRecord(1, 1, Payment, 100, 0)], []);
    assert [PREPAID][1..] == [] && Cancelled([PREPAID], 1, 5 * DAY_MS) == [PREPAID.(cancelledOn := Some(5 * DAY_MS))];
  }

  /** The money due on the cancelled prepay is paid, is due again, and is paid again. */
  lemma PaidAgain(books: Books)
    requires books == Books([PREPAID.(cancelledOn := Some(5 * DAY_MS))], [BillingRecord(1, 1, Payment, 100, 0)], [])
    ensures var once := Next(books, PayRefund(2, 1, UnearnedPrepayOnCancellation, 50, 5 * DAY_MS, []));
      var twice := Next(once, PayRefund(3, 1, UnearnedPrepayOnCancellation, 50, 5 * DAY_MS, []));
      UnearnedPrepay(books, 1) == Some(Entitlement(UnearnedPrepayOnCancellation, 50))
        && RefundedOf(twice.records, 1) == 100
  {
    OnePayment(BillingRecord(1, 1, Payment, 100, 0));
    assert UnearnedPrepay(books, 1) == Some(Entitlement(UnearnedPrepayOnCancellation, 50));
    assert RefundsDue(books, 1, []) == [Entitlement(UnearnedPrepayOnCancellation, 50)];
    assert Entitlement(UnearnedPrepayOnCancellation, 50) in RefundsDue(books, 1, []);
    PaidRefundStaysDue(books, 1, UnearnedPrepayOnCancellation, 50, [], 2, 5 * DAY_MS);
    var once := Next(books, PayRefund(2, 1, UnearnedPrepayOnCancellation, 50, 5 * DAY_MS, []));
    InsertMembers(books.records, BillingRecord(2, 1, Refund, 50, 5 * DAY_MS));
    PaidRefundStaysDue(once, 1, UnearnedPrepayOnCancellation, 50, [], 3, 5 * DAY_MS);
  }

  /** Ten days prepaid with 100 and cancelled half-way: the 50 due is paid twice. */
  lemma RefundPaidTwice(reason: Text)
    requires !Blank(reason)
    ensures var steps := [StartEngagement(PREPAID), RecordBilling(1, 1, Payment, 100, 0),
                          CancelEngagement(1, reason, 5 * DAY_MS)];
      var refund := Entitlement(UnearnedPrepayOnCancellation, 50);
      var twice := steps + [PayRefund(2, 1, refund.trigger, refund.amountCents, 5 * DAY_MS, [])]
                         + [PayRefund(3, 1, refund.trigger, refund.amountCents, 5 * DAY_MS, [])];
      && UnearnedPrepay(Run(steps), 1) == Some(refund)
      && RefundedOf(Run(twice).records, 1) == 2 * refund.amountCents
  {
    var steps := [StartEngagement(PREPAID), RecordBilling(1, 1, Payment, 100, 0),
                  CancelEngagement(1, reason, 5 * DAY_MS)];
    var first := PayRefund(2, 1, UnearnedPrepayOnCancellation, 50, 5 * DAY_MS, []);
    var second := PayRefund(3, 1, UnearnedPrepayOnCancellation, 50, 5 * DAY_MS, []);
    CancelledRun(steps, reason);
    PaidAgain(Run(steps));
    var once := steps + [first];
    assert once[..3] == steps && (once + [second])[..4] == once;
  }

  lemma OnePayment(p: BillingRecord)
    requires p.kind.Payment?
    ensures PaymentsOf([p], p.engagementId) == [p] && Paid([p]) == p.amountCents && RefundedOf([p], p.engagementId) == 0
  {
    assert [p][1..] == [];
    assert PaymentsOf([p], p.engagementId) == [p] + PaymentsOf([], p.engagementId);
    assert TotalOf([], p.engagementId, Refund) == 0;
  }

  // A run that breaks cover: 100 paid, the 100 carried forward, then 100 handed back.

  const E1 := Engagement(1, 7, 0, None, false, None)
  const E2 := Engagement(2, 7, 0, None, false, None)
  const PAYMENT := BillingRecord(1, 1, Payment, 100, 0)
  const CREDIT := BillingRecord(2, 2, CreditApplied, 100, 0)
  const REFUND := BillingRecord(3, 1, Refund, 100, 0)
  const DRAW := CreditApplication(1, 2, 100)
  const REQUEST := CreditRequest(2, 7, 2, 100, [0x75], 0)

  lemma PaidRun(steps: seq<Step>)
    requires steps == [StartEngagement(E1), StartEngagement(E2), RecordBilling(1, 1, Payment, 100, 0)]
    ensures Run(steps) == Books([E1, E2], [PAYMENT], [])
  {
    var s1, s2 := steps[..1], steps[..2];
    assert s1[..0] == [] && s2[..1] == s1;
    assert Run(s1) == Books([E1], [], []);
    assert FindEngagement([E1], 2).None?;
    assert Run(s2) == Books([E1, E2], [], []);
  }

  lemma PaidSources(books: Books)
    requires books == Books([E1, E2], [PAYMENT], [])
    ensures NotOn(AvailableCredit(books, 7), 2) == [CreditSource(1, 1, 100, 0, 100, 0)]
  {
    var source := CreditSource(1, 1, 100, 0, 100, 0);
    assert [PAYMENT][1..] == [];
    assert TotalOf([PAYMENT], 1, Refund) == 0 && TotalOf([PAYMENT], 2, Refund) == 0;
    assert DrawnFrom([], 1) == 0;
    assert Sources([PAYMENT], 0, []) == [source] + Sources([], 0, []);
    assert PaymentsOf([PAYMENT], 1) == [PAYMENT] && PaymentsOf([PAYMENT], 2) == [];
    assert SourcesOf(books, 1) == [source] && SourcesOf(books, 2) == [];
    assert books.engagements[1..] == [E2];
    assert CreditOver(books, [E2], 7) == [];
    assert AvailableCredit(books, 7) == [source];
  }

  lemma CreditedBooks(books: Books)
    requires books == Books([E1, E2], [PAYMENT], [])
    ensures AfterCredit(books, REQUEST) == Books([E1, E2], [PAYMENT, CREDIT], [DRAW])
  {
    PaidSources(books);
    var source := CreditSource(1, 1, 100, 0, 100, 0);
    assert SumAvailable([source]) == 100;
    assert books.engagements[1..] == [E2];
    assert FindEngagement([E2], 2) == Some(E2);
    assert FindEngagement(books.engagements, 2) == Some(E2);
    assert !IsWhitespace(REQUEST.rationale[0]);
    assert CreditVerdict(books, REQUEST) == Ok(100);
    assert Draws([source], 100, 2) == [DRAW];
    assert InsertRecord([PAYMENT], CREDIT) == [PAYMENT, CREDIT];
  }

  const BREAKING: seq<Step> := [
    StartEngagement(E1), StartEngagement(E2), RecordBilling(1, 1, Payment, 100, 0), ApplyCredit(REQUEST),
    RecordBilling(3, 1, Refund, 100, 0)]

  lemma RefundAfterDrawIsNotCovered()
    ensures var books := Run(BREAKING);
      var payments := PaymentsOf(books.records, 1);
      && Paid(payments) == 100 && RefundedOf(books.records, 1) == 100 && DrawnOn(payments, books.applications) == 100
      && !CoveredOn(books, 1)
  {
    var s3 := [StartEngagement(E1), StartEngagement(E2), RecordBilling(1, 1, Payment, 100, 0)];
    var s4 := s3 + [ApplyCredit(REQUEST)];
    PaidRun(s3);
    CreditedBooks(Run(s3));
    assert s4[..3] == s3 && BREAKING[..4] == s4;
    assert Run(s4) == Books([E1, E2], [PAYMENT, CREDIT], [DRAW]);
    RefundedBooks(Run(s4));
    assert Run(BREAKING) == Next(Run(s4), RecordBilling(3, 1, Refund, 100, 0));
  }

  lemma RefundedBooks(books: Books)
    requires books == Books([E1, E2], [PAYMENT, CREDIT], [DRAW])
    ensures var books' := Next(books, RecordBilling(3, 1, Refund, 100, 0));
      && PaymentsOf(books'.records, 1) == [PAYMENT] && Paid([PAYMENT]) == 100
      && RefundedOf(books'.records, 1) == 100 && DrawnOn([PAYMENT], books'.applications) == 100
      && !CoveredOn(books', 1)
  {
    var books' := Next(books, RecordBilling(3, 1, Refund, 100, 0));
    assert [PAYMENT, CREDIT][1..] == [CREDIT] && [CREDIT][1..] == [];
    assert InsertRecord([CREDIT], REFUND) == [CREDIT, REFUND];
    assert [PAYMENT, CREDIT, REFUND][1..] == [CREDIT, REFUND] && [CREDIT, REFUND][1..] == [REFUND]
      && [REFUND][1..] == [];
    assert PaymentsOf([REFUND], 1) == [];
    assert TotalOf([], 1, Refund) == 0;
    assert TotalOf([REFUND], 1, Refund) == 100;
    assert InsertRecord([PAYMENT, CREDIT], REFUND) == [PAYMENT, CREDIT, REFUND];
    assert books' == Books([E1, E2], [PAYMENT, CREDIT, REFUND], [DRAW]);
    assert PaymentsOf([CREDIT, REFUND], 1) == [];
    assert RefundedOf([CREDIT, REFUND], 1) == 100;
    assert DrawnFrom([DRAW], 1) == 100;
    assert DrawnOn([PAYMENT], [DRAW]) == 100;
  }
}
