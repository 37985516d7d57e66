/**
 * What an engagement's records add up to, and what an upgrade would cost
 * (packages/billing/src/engagements.ts, packages/billing/src/credit.ts).
 */
module Balances {
  import opened Common
  import opened Money
  import opened Billing
  import opened Credit
  import opened CreditRuns

  datatype Balance = Balance(
    charged: nat,
    paid: nat,
    refunded: nat,
    credited: nat,
    outstanding: int,
    meetsMinimum: bool)

  function NetReceived(records: seq<BillingRecord>, e: Id): int {
    TotalOf(records, e, Payment) + TotalOf(records, e, CreditApplied) - TotalOf(records, e, Refund)
  }

  function Outstanding(records: seq<BillingRecord>, e: Id): int {
    AtLeastZero(TotalOf(records, e, Charge) - NetReceived(records, e))
  }

  /** `balanceOf`, for an offer with this minimum. */
  function BalanceOf(books: Books, e: Id, minimumCents: int): Outcome<Balance> {
    if FindEngagement(books.engagements, e).None? then NoData
    else
      var net := NetReceived(books.records, e);
      Ok(Balance(TotalOf(books.records, e, Charge), TotalOf(books.records, e, Payment),
                 TotalOf(books.records, e, Refund),
                 TotalOf(books.records, e, CreditApplied), Outstanding(books.records, e), net >= minimumCents))
  }

  // ---------------------------------------------------------------------------
  // Receipts and money
  // ---------------------------------------------------------------------------

  /** Cash in less cash out. */
  function Cash(records: seq<BillingRecord>, e: Id): int {
    TotalOf(records, e, Payment) - TotalOf(records, e, Refund)
  }

  /** Over a client's engagements: net receipts, cash, and credit carried to them or written by hand. */
  function NetOver(books: Books, engagements: seq<Engagement>, clientId: Id): int {
    if engagements == [] then 0
    else (if engagements[0].clientId == clientId then NetReceived(books.records, engagements[0].id) else 0)
         + NetOver(books, engagements[1..], clientId)
  }

  function CashOver(books: Books, engagements: seq<Engagement>, clientId: Id): int {
    if engagements == [] then 0
    else (if engagements[0].clientId == clientId then Cash(books.records, engagements[0].id) else 0)
         + CashOver(books, engagements[1..], clientId)
  }

  function CarriedOver(books: Books, engagements: seq<Engagement>, clientId: Id): nat {
    if engagements == [] then 0
    else (if engagements[0].clientId == clientId then AppliedTo(books.applications, engagements[0].id) else 0)
         + CarriedOver(books, engagements[1..], clientId)
  }

  function HandOver(steps: seq<Step>, engagements: seq<Engagement>, clientId: Id): nat {
    if engagements == [] then 0
    else (if engagements[0].clientId == clientId then HandWrittenCredit(steps, engagements[0].id) else 0)
         + HandOver(steps, engagements[1..], clientId)
  }

  lemma {:induction false} ReceiptsOver(steps: seq<Step>, engagements: seq<Engagement>, clientId: Id)
    ensures NetOver(Run(steps), engagements, clientId)
         == CashOver(Run(steps), engagements, clientId) + CarriedOver(Run(steps), engagements, clientId)
           + HandOver(steps, engagements, clientId)
  {
    if engagements != [] {
      CreditRecordsMatchDraws(steps, engagements[0].id);
      ReceiptsOver(steps, engagements[1..], clientId);
    }
  }

  /**
   * In every run, what a client's engagements have received exceeds the client's cash by the credit
   * carried between them and the credit written by hand: a payment counts where it was made and
   * again where it was carried. The two agree exactly when no credit was ever given.
   */
  lemma ReceiptsCountCreditAgain(steps: seq<Step>, clientId: Id)
    ensures var books := Run(steps);
      var net, cash := NetOver(books, books.engagements, clientId), CashOver(books, books.engagements, clientId);
      var carried, byHand :=
        CarriedOver(books, books.engagements, clientId), HandOver(steps, books.engagements, clientId);
      net == cash + carried + byHand && (net == cash <==> carried == 0 && byHand == 0)
  {
    ReceiptsOver(steps, Run(steps).engagements, clientId);
  }

  /** 100 paid on one engagement and carried to another is 100 of cash and 200 of net receipts. */
  lemma CarriedCreditCountsTwice()
    ensures var books := Run(BREAKING[..4]);
      NetOver(books, books.engagements, 7) == 200 && CashOver(books, books.engagements, 7) == 100
  {
    var paid := [StartEngagement(E1), StartEngagement(E2), RecordBilling(1, 1, Payment, 100, 0)];
    PaidRun(paid);
    CreditedBooks(Run(paid));
    assert BREAKING[..4] == paid + [ApplyCredit(REQUEST)] && BREAKING[..4][..3] == paid;
    CarriedOnce(Run(BREAKING[..4]));
  }

  lemma CarriedOnce(books: Books)
    requires books == Books([E1, E2], [PAYMENT, CREDIT], [DRAW])
    ensures NetOver(books, books.engagements, 7) == 200 && CashOver(books, books.engagements, 7) == 100
  {
    TotalsOfTwo(PAYMENT, CREDIT, 1);
    TotalsOfTwo(PAYMENT, CREDIT, 2);
    assert books.engagements[1..] == [E2] && [E2][1..] == [];
    assert NetOver(books, [E2], 7) == 100 && CashOver(books, [E2], 7) == 0;
  }

  lemma TotalsOfTwo(r: BillingRecord, s: BillingRecord, e: Id)
    ensures TotalOf([r, s], e, Payment) == Share(r, e, Payment) + Share(s, e, Payment)
    ensures TotalOf([r, s], e, Refund) == Share(r, e, Refund) + Share(s, e, Refund)
    ensures TotalOf([r, s], e, CreditApplied) == Share(r, e, CreditApplied) + Share(s, e, CreditApplied)
  {
    assert [r, s][1..] == [s];
    TotalOfOne(s, e, Payment);
    TotalOfOne(s, e, Refund);
    TotalOfOne(s, e, CreditApplied);
  }

  lemma TotalOfOne(r: BillingRecord, e: Id, kind: RecordKind)
    ensures TotalOf([r], e, kind) == Share(r, e, kind)
  {
    assert [r][1..] == [];
  }

  function Share(r: BillingRecord, e: Id, kind: RecordKind): nat {
    if r.kind == kind && r.engagementId == e then r.amountCents else 0
  }

  /** Credit lowers what its target owes, down to nothing, and no other balance moves. */
  lemma CreditLowersTheDebt(books: Books, request: CreditRequest, e: Id, minimumCents: int)
    requires Sound(books) && CreditVerdict(books, request).Ok?
    requires FindEngagement(books.engagements, e).Some?
    ensures var before, after :=
      BalanceOf(books, e, minimumCents), BalanceOf(AfterCredit(books, request), e, minimumCents);
      && before.Ok? && after.Ok?
      && (e != request.toEngagementId ==> after == before)
      && (e == request.toEngagementId ==>
            && after.value.credited == before.value.credited + request.amountCents
            && after.value.outstanding ==
               AtLeastZero(before.value.charged - NetReceived(books.records, e) - request.amountCents))
  {
    var row := BillingRecord(request.recordId, request.toEngagementId, CreditApplied, request.amountCents,
      request.appliedOn);
    TotalsAfter(books.records, row, e);
  }

  lemma TotalsAfter(records: seq<BillingRecord>, row: BillingRecord, e: Id)
    ensures forall kind: RecordKind ::
      TotalOf(InsertRecord(records, row), e, kind)
      == TotalOf(records, e, kind) + if row.kind == kind && row.engagementId == e then row.amountCents else 0
  {
    forall kind: RecordKind
      ensures TotalOf(InsertRecord(records, row), e, kind)
           == TotalOf(records, e, kind) + if row.kind == kind && row.engagementId == e then row.amountCents else 0
    {
      InsertTotals(records, row, e, kind);
    }
  }

  // ---------------------------------------------------------------------------
  // A quote is honoured
  // ---------------------------------------------------------------------------

  datatype Offer = Offer(rung: int, retainerCents: nat)

  datatype UpgradePath =
    UpgradePath(fromRung: int, toRung: int, creditAvailableCents: nat, newRetainerCents: nat, netToPayCents: int)

  /** `quoteUpgrade`, given the two offers as published; Failed is the error `sum` throws. */
  function QuoteUpgrade(books: Books, clientId: Id, fromOffer: Option<Offer>,
      toOffer: Option<Offer>): Outcome<UpgradePath> {
    if fromOffer.None? || toOffer.None? then NoData
    else if toOffer.value.rung <= fromOffer.value.rung then Refused
    else
      var credit := TotalAvailableCredit(books, clientId);
      if !SafeInteger(credit) then Failed
      else
        Ok(UpgradePath(fromOffer.value.rung, toOffer.value.rung, credit, toOffer.value.retainerCents,
                       AtLeastZero(toOffer.value.retainerCents - credit)))
  }

  /** A balance is there for an engagement in the books, and meets a minimum from that amount on. */
  lemma MinimumIsMet(books: Books, e: Id, minimumCents: int)
    ensures var balance := BalanceOf(books, e, minimumCents);
      if FindEngagement(books.engagements, e).None? then balance.NoData?
      else balance.Ok? && (balance.value.meetsMinimum
             <==> balance.value.paid + balance.value.credited >= minimumCents + balance.value.refunded)
  {
  }

  /** A quote needs both offers, an upgrade, and a sum that can be counted. */
  lemma QuoteAnswers(books: Books, clientId: Id, fromOffer: Option<Offer>, toOffer: Option<Offer>)
    ensures var quote := QuoteUpgrade(books, clientId, fromOffer, toOffer);
      && (quote.NoData? <==> fromOffer.None? || toOffer.None?)
      && (quote.Refused? <==> fromOffer.Some? && toOffer.Some? && fromOffer.value.rung >= toOffer.value.rung)
      && (quote.Failed? ==> TotalAvailableCredit(books, clientId) > 0x1F_FFFF_FFFF_FFFF)
      && !quote.NotBuilt?
  {
  }

  /** What is left to pay and the credit that can be used add to the retainer, with credit or without. */
  lemma QuoteAddsUp(books: Books, clientId: Id, fromOffer: Option<Offer>, toOffer: Option<Offer>)
    requires QuoteUpgrade(books, clientId, fromOffer, toOffer).Ok?
    ensures var quote := QuoteUpgrade(books, clientId, fromOffer, toOffer).value;
      && quote.netToPayCents >= 0
      && quote.netToPayCents + Min(quote.creditAvailableCents, quote.newRetainerCents) == toOffer.value.retainerCents
      && quote.creditAvailableCents == TotalAvailableCredit(books, clientId)
      && quote.newRetainerCents == toOffer.value.retainerCents
      && fromOffer.value.rung == quote.fromRung < quote.toRung == toOffer.value.rung
  {
  }

  /** Every record is on an engagement in the books. */
  ghost predicate RecordsPlaced(books: Books) {
    forall r :: r in books.records ==> FindEngagement(books.engagements, r.engagementId).Some?
  }

  lemma {:induction false} FoundInLonger(engagements: seq<Engagement>, e: Engagement, id: Id)
    ensures FindEngagement(engagements + [e], id).Some? <==> FindEngagement(engagements, id).Some? || e.id == id
  {
    if engagements != [] && engagements[0].id != id {
      FoundInLonger(engagements[1..], e, id);
      assert (engagements + [e])[1..] == engagements[1..] + [e];
    }
  }

  lemma {:induction false} FoundInCancelled(engagements: seq<Engagement>, target: Id, on: Instant, id: Id)
    ensures FindEngagement(Cancelled(engagements, target, on), id).Some? <==> FindEngagement(engagements, id).Some?
  {
    if engagements != [] && engagements[0].id != id { FoundInCancelled(engagements[1..], target, on, id); }
  }

  lemma StepKeepsPlaced(books: Books, step: Step)
    requires RecordsPlaced(books)
    ensures RecordsPlaced(Next(books, step))
  {
    if Enabled(books, step) {
      match step
      case StartEngagement(e) =>
        forall r | r in books.records { FoundInLonger(books.engagements, e, r.engagementId); }
      case CancelEngagement(id, reason, on) =>
        forall r | r in books.records { FoundInCancelled(books.engagements, id, on, r.engagementId); }
      case RecordBilling(id, e, kind, amount, on) =>
        if RecordVerdict(books, e, amount).Ok? { InsertMembers(books.records, BillingRecord(id, e, kind, amount, on)); }
      case PayRefund(id, e, trigger, amount, on, otherDue) =>
        if RefundVerdict(books, e, trigger, amount, otherDue).Ok? {
          InsertMembers(books.records, BillingRecord(id, e, Refund, amount, on));
        }
      case ApplyCredit(request) =>
        if CreditVerdict(books, request).Ok? {
          InsertMembers(books.records,
            BillingRecord(request.recordId, request.toEngagementId, CreditApplied, request.amountCents,
              request.appliedOn));
        }
    }
  }

  lemma {:induction false} RunKeepsPlaced(steps: seq<Step>)
    ensures RecordsPlaced(Run(steps))
  {
    if steps != [] {
      RunKeepsPlaced(steps[..|steps| - 1]);
      StepKeepsPlaced(Run(steps[..|steps| - 1]), steps[|steps| - 1]);
    }
  }

  lemma {:induction false} NothingOn(records: seq<BillingRecord>, e: Id)
    requires forall r :: r in records ==> r.engagementId != e
    ensures PaymentsOf(records, e) == []
    ensures forall kind: RecordKind :: TotalOf(records, e, kind) == 0
  {
    if records != [] {
      assert records[0] in records;
      NothingOn(records[1..], e);
    }
  }

  lemma {:induction false} CreditOverLonger(books: Books, engagements: seq<Engagement>, e: Engagement, clientId: Id)
    ensures CreditOver(books, engagements + [e], clientId)
         == CreditOver(books, engagements, clientId) + CreditOver(books, [e], clientId)
  {
    if engagements == [] {
      assert engagements + [e] == [e];
    } else {
      var first, rest := engagements[0], engagements[1..];
      CreditOverLonger(books, rest, e, clientId);
      assert (engagements + [e])[1..] == rest + [e];
      ThreeParts(if first.clientId == clientId then SourcesOf(books, first.id) else [],
                 CreditOver(books, rest, clientId), CreditOver(books, [e], clientId));
    }
  }

  lemma ThreeParts(a: seq<CreditSource>, b: seq<CreditSource>, c: seq<CreditSource>)
    ensures a + (b + c) == a + b + c
  {
  }

  lemma {:induction false} CreditOverSameRecords(books: Books, books': Books, engagements: seq<Engagement>,
      clientId: Id)
    requires books.records == books'.records && books.applications == books'.applications
    ensures CreditOver(books', engagements, clientId) == CreditOver(books, engagements, clientId)
  {
    if engagements != [] { CreditOverSameRecords(books, books', engagements[1..], clientId); }
  }

  lemma {:induction false} NoSourceOn(sources: seq<CreditSource>, e: Id)
    requires forall s :: s in sources ==> s.engagementId != e
    ensures NotOn(sources, e) == sources
  {
    if sources != [] {
      assert sources[0] in sources;
      NoSourceOn(sources[1..], e);
    }
  }

  /** Starting an engagement neither adds nor takes credit, and all of it is on other engagements. */
  lemma NewEngagementHasNoCredit(books: Books, e: Engagement, clientId: Id)
    requires RecordsPlaced(books) && FindEngagement(books.engagements, e.id).None?
    ensures var started := Next(books, StartEngagement(e));
      && AvailableCredit(started, clientId) == AvailableCredit(books, clientId)
      && NotOn(AvailableCredit(started, clientId), e.id) == AvailableCredit(books, clientId)
  {
    var started := Next(books, StartEngagement(e));
    assert forall r :: r in books.records ==> r.engagementId != e.id;
    NothingOn(books.records, e.id);
    CreditOverSameRecords(books, started, started.engagements, clientId);
    CreditOverLonger(books, books.engagements, e, clientId);
    FindsById(books.engagements, e.id);
    forall s | s in AvailableCredit(books, clientId) ensures s.engagementId != e.id {
      SourceEngagement(books, books.engagements, clientId, s);
    }
    NoSourceOn(AvailableCredit(books, clientId), e.id);
  }

  /** The steps of an upgrade: start the engagement, charge its retainer, carry the credit over. */
  function Upgraded(books: Books, e: Engagement, chargeId: Id, retainerCents: nat, request: CreditRequest): Books {
    Next(Next(Next(books, StartEngagement(e)), RecordBilling(chargeId, e.id, Charge, retainerCents, request.appliedOn)),
      ApplyCredit(request))
  }

  /**
   * In every run, a client who takes a quoted upgrade at once, carrying over as much of the quoted
   * credit as the retainer takes, is given it, owes exactly the quoted net, and keeps the rest.
   */
  lemma QuoteIsHonoured(steps: seq<Step>, fromOffer: Option<Offer>, toOffer: Option<Offer>, e: Engagement,
      chargeId: Id, request: CreditRequest)
    requires QuoteUpgrade(Run(steps), e.clientId, fromOffer, toOffer).Ok?
    requires var quote := QuoteUpgrade(Run(steps), e.clientId, fromOffer, toOffer).value;
      && SafeInteger(quote.newRetainerCents)
      && request.amountCents == Min(quote.creditAvailableCents, quote.newRetainerCents) > 0
    requires FindEngagement(Run(steps).engagements, e.id).None?
    requires !UsedRecordId(Run(steps), chargeId) && !UsedRecordId(Run(steps), request.recordId)
      && chargeId != request.recordId
    requires request.clientId == e.clientId && request.toEngagementId == e.id && !Blank(request.rationale)
    ensures var quote := QuoteUpgrade(Run(steps), e.clientId, fromOffer, toOffer).value;
      var after := Upgraded(Run(steps), e, chargeId, quote.newRetainerCents, request);
      && BalanceOf(after, e.id, 0).Ok?
      && BalanceOf(after, e.id, 0).value.outstanding == quote.netToPayCents
      && TotalAvailableCredit(after, e.clientId) == quote.creditAvailableCents - request.amountCents
  {
    var books := Run(steps);
    var quote := QuoteUpgrade(books, e.clientId, fromOffer, toOffer).value;
    NothingIsDrawnTwice(steps);
    RunKeepsPlaced(steps);
    UpgradeIsHonoured(books, e, chargeId, quote.newRetainerCents, request);
  }

  lemma UpgradeIsHonoured(books: Books, e: Engagement, chargeId: Id, retainer: nat, request: CreditRequest)
    requires Sound(books) && RecordsPlaced(books) && SafeInteger(retainer)
    requires SafeInteger(TotalAvailableCredit(books, e.clientId))
    requires request.amountCents == Min(TotalAvailableCredit(books, e.clientId), retainer) > 0
    requires FindEngagement(books.engagements, e.id).None?
    requires !UsedRecordId(books, chargeId) && !UsedRecordId(books, request.recordId) && chargeId != request.recordId
    requires request.clientId == e.clientId && request.toEngagementId == e.id && !Blank(request.rationale)
    ensures var after := Upgraded(books, e, chargeId, retainer, request);
      && BalanceOf(after, e.id, 0).Ok?
      && BalanceOf(after, e.id, 0).value.outstanding == retainer - request.amountCents
      && TotalAvailableCredit(after, e.clientId) == TotalAvailableCredit(books, e.clientId) - request.amountCents
  {
    var started := Next(books, StartEngagement(e));
    StepKeepsSound(books, StartEngagement(e));
    NewEngagementHasNoCredit(books, e, e.clientId);
    FoundLast(books.engagements, e);
    var charge := BillingRecord(chargeId, e.id, Charge, retainer, request.appliedOn);
    var charged := Next(started, RecordBilling(chargeId, e.id, Charge, retainer, request.appliedOn));
    StepKeepsSound(started, RecordBilling(chargeId, e.id, Charge, retainer, request.appliedOn));
    CreditRecordUnseen(started, charge, started.engagements, e.clientId);
    CreditOverSameRecords(started.(records := InsertRecord(started.records, charge)), charged, started.engagements,
      e.clientId);
    assert AvailableCredit(charged, e.clientId) == AvailableCredit(books, e.clientId);
    assert CreditVerdict(charged, request).Ok?;
    InsertMembers(started.records, charge);
    CreditMovesTheAmount(charged, request);
    NothingOn(books.records, e.id);
    TotalsAfter(books.records, charge, e.id);
    CreditLowersTheDebt(charged, request, e.id, 0);
  }

  lemma {:induction false} FoundLast(engagements: seq<Engagement>, e: Engagement)
    requires FindEngagement(engagements, e.id).None?
    ensures FindEngagement(engagements + [e], e.id) == Some(e)
  {
    if engagements != [] {
      FoundLast(engagements[1..], e);
      assert (engagements + [e])[1..] == engagements[1..] + [e];
    }
  }
}
