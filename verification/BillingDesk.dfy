/** The billing operations as they run: they read the tables and write rows one at a time. */
module BillingDesk {
  import opened Common
  import opened Money
  import opened Billing
  import opened Credit
  import opened CreditRuns

  class Desk {
    var engagements: seq<Engagement>
    var records: seq<BillingRecord>
    var applications: seq<CreditApplication>

    function State(): Books
      reads this
    {
      Books(engagements, records, applications)
    }

    constructor ()
      ensures State() == EMPTY_BOOKS && Sound(State())
    {
      engagements, records, applications := [], [], [];
    }

    /** What one engagement has left, walking its payments oldest first. */
    method SourcesOn(engagementId: Id) returns (sources: seq<CreditSource>)
      ensures sources == SourcesOf(State(), engagementId)
    {
      var payments := PaymentsOf(records, engagementId);
      var refundRemaining: nat := RefundedOf(records, engagementId);
      ghost var all := Sources(payments, refundRemaining, applications);
      sources := [];
      for i := 0 to |payments|
        invariant sources + Sources(payments[i..], refundRemaining, applications) == all
      {
        var payment := payments[i];
        var alreadyDrawn := DrawnFrom(applications, payment.id);
        var offsetByRefund := Min(refundRemaining, payment.amountCents);
        var available := AtLeastZero(payment.amountCents - offsetByRefund - alreadyDrawn);
        SourcesStep(payments, i, refundRemaining, applications, sources);
        refundRemaining := refundRemaining - offsetByRefund;
        ghost var listed := SourceFrom(payment, offsetByRefund, alreadyDrawn);
        if available == 0 {
          assert sources + listed == sources;
          continue;
        }
        sources := sources
          + [CreditSource(payment.id, payment.engagementId, payment.amountCents, alreadyDrawn, available,
             payment.occurredOn)];
      }
      assert payments[|payments|..] == [];
      assert sources + [] == sources;
    }

    static lemma SourcesStep(payments: seq<BillingRecord>, i: nat, refund: nat,
        applications: seq<CreditApplication>, found: seq<CreditSource>)
      requires i < |payments|
      ensures var offset := Min(refund, payments[i].amountCents);
        found + Sources(payments[i..], refund, applications)
          == found + SourceFrom(payments[i], offset, DrawnFrom(applications, payments[i].id))
             + Sources(payments[i + 1..], refund - offset, applications)
    {
      assert payments[i..][1..] == payments[i + 1..];
    }

    method AvailableCredit(clientId: Id) returns (sources: seq<CreditSource>)
      ensures sources == Credit.AvailableCredit(State(), clientId)
    {
      sources := [];
      ghost var books := State();
      for i := 0 to |engagements|
        invariant sources + CreditOver(books, engagements[i..], clientId) == CreditOver(books, engagements, clientId)
      {
        CreditOverStep(books, engagements, i, clientId, sources);
        if engagements[i].clientId == clientId {
          var found := SourcesOn(engagements[i].id);
          sources := sources + found;
        }
      }
    }

    static lemma CreditOverStep(books: Books, engagements: seq<Engagement>, i: nat, clientId: Id,
        found: seq<CreditSource>)
      requires i < |engagements|
      ensures found + CreditOver(books, engagements[i..], clientId)
           == if engagements[i].clientId == clientId
              then found + SourcesOf(books, engagements[i].id) + CreditOver(books, engagements[i + 1..], clientId)
              else found + CreditOver(books, engagements[i + 1..], clientId)
    {
      assert engagements[i..][1..] == engagements[i + 1..];
    }

    /** None is the error `sum` throws. */
    method TotalAvailableCredit(clientId: Id) returns (total: Option<Cents>)
      ensures var offered := Credit.TotalAvailableCredit(State(), clientId);
        total == if SafeInteger(offered) then Some(offered) else None
    {
      var sources := AvailableCredit(clientId);
      total := SumCents(sources);
    }

    static method SumCents(sources: seq<CreditSource>) returns (total: Option<Cents>)
      ensures total == if SafeInteger(SumAvailable(sources)) then Some(SumAvailable(sources)) else None
    {
      total := Sum(Amounts(sources));
      SumOfAmounts(sources);
    }

    static function Amounts(sources: seq<CreditSource>): seq<Cents> {
      seq(|sources|, i requires 0 <= i < |sources| => sources[i].availableCents)
    }

    static lemma {:induction false} SumOfAmounts(sources: seq<CreditSource>)
      ensures SumOf(Amounts(sources)) == SumAvailable(sources)
      ensures forall i :: 0 <= i < |sources| ==> 0 <= Amounts(sources)[i] <= SumAvailable(sources)
    {
      if sources != [] {
        SumOfAmounts(sources[1..]);
        SumAppend([sources[0].availableCents], Amounts(sources[1..]));
        assert Amounts(sources) == [sources[0].availableCents] + Amounts(sources[1..]);
      }
    }

    /** One application per source until the amount is met. */
    method DrawDown(sources: seq<CreditSource>, amountCents: nat, toEngagementId: Id)
      modifies this`applications
      ensures applications == old(applications) + Draws(sources, amountCents, toEngagementId)
    {
      var remaining: nat := amountCents;
      for i := 0 to |sources|
        invariant applications + Draws(sources[i..], remaining, toEngagementId)
               == old(applications) + Draws(sources, amountCents, toEngagementId)
      {
        if remaining == 0 { break; }
        var draw := Min(remaining, sources[i].availableCents);
        assert sources[i..][1..] == sources[i + 1..];
        applications := applications + [CreditApplication(sources[i].recordId, toEngagementId, draw)];
        remaining := remaining - draw;
      }
    }

    /**
     * Carry credit forward. The client's total falls by exactly the amount, the same amount is
     * drawn from earlier payments and recorded on the target; a refusal changes nothing.
     */
    method ApplyCredit(request: CreditRequest) returns (outcome: Outcome<nat>)
      requires Sound(State()) && !UsedRecordId(State(), request.recordId)
      modifies this
      ensures outcome == CreditVerdict(old(State()), request)
      ensures State() == AfterCredit(old(State()), request) == Next(old(State()), Step.ApplyCredit(request))
      ensures !outcome.Ok? ==> State() == old(State())
      ensures Sound(State())
      ensures outcome.Ok? ==>
        && Credit.TotalAvailableCredit(State(), request.clientId)
             == old(Credit.TotalAvailableCredit(State(), request.clientId)) - request.amountCents
        && AppliedTo(applications, request.toEngagementId)
             == old(AppliedTo(applications, request.toEngagementId)) + request.amountCents
    {
      if CreditVerdict(State(), request).Ok? { CreditMovesTheAmount(State(), request); }
      if !SafeInteger(request.amountCents) || request.amountCents <= 0 { return Refused; }
      if Blank(request.rationale) { return Refused; }
      var target := FindEngagement(engagements, request.toEngagementId);
      if target.None? || target.value.clientId != request.clientId { return NoData; }
      var credit := AvailableCredit(request.clientId);
      var sources := NotOn(credit, request.toEngagementId);
      var available := SumCents(sources);
      if available.None? { return Failed; }
      if available.value < request.amountCents { return Refused; }
      DrawDown(sources, request.amountCents, request.toEngagementId);
      var row := BillingRecord(request.recordId, request.toEngagementId, CreditApplied, request.amountCents,
        request.appliedOn);
      records := InsertRecord(records, row);
      return Ok(request.amountCents);
    }

    method RecordBilling(id: Id, engagementId: Id, kind: RecordKind, amountCents: int, occurredOn: Instant)
        returns (outcome: Outcome<()>)
      requires Sound(State()) && !UsedRecordId(State(), id)
      modifies this
      ensures outcome == RecordVerdict(old(State()), engagementId, amountCents)
      ensures State() == Next(old(State()), Step.RecordBilling(id, engagementId, kind, amountCents, occurredOn))
        && Sound(State())
    {
      StepKeepsSound(State(), Step.RecordBilling(id, engagementId, kind, amountCents, occurredOn));
      if !SafeInteger(amountCents) || amountCents < 0 { return Refused; }
      if FindEngagement(engagements, engagementId).None? { return NoData; }
      records := InsertRecord(records, BillingRecord(id, engagementId, kind, amountCents, occurredOn));
      return Ok(());
    }

    method PayRefund(id: Id, engagementId: Id, trigger: Trigger, amountCents: int, paidOn: Instant,
        otherDue: seq<Entitlement>)
      returns (outcome: Outcome<()>)
      requires Sound(State()) && !UsedRecordId(State(), id)
      modifies this
      ensures outcome == RefundVerdict(old(State()), engagementId, trigger, amountCents, otherDue)
      ensures State() == Next(old(State()), Step.PayRefund(id, engagementId, trigger, amountCents, paidOn, otherDue))
        && Sound(State())
    {
      StepKeepsSound(State(), Step.PayRefund(id, engagementId, trigger, amountCents, paidOn, otherDue));
      var due := RefundsDue(State(), engagementId, otherDue);
      for i := 0 to |due|
        invariant State() == old(State())
        invariant forall j :: 0 <= j < i ==> due[j].trigger != trigger || due[j].amountCents != amountCents
      {
        if due[i].trigger == trigger && due[i].amountCents == amountCents {
          assert due[i] in due;
          records := InsertRecord(records, BillingRecord(id, engagementId, Refund, amountCents, paidOn));
          return Ok(());
        }
      }
      return Refused;
    }

    method CancelEngagement(engagementId: Id, reason: Text, cancelledOn: Instant) returns (outcome: Outcome<()>)
      requires Sound(State())
      modifies this
      ensures outcome == CancelVerdict(old(State()), engagementId, reason)
      ensures State() == Next(old(State()), Step.CancelEngagement(engagementId, reason, cancelledOn)) && Sound(State())
    {
      StepKeepsSound(State(), Step.CancelEngagement(engagementId, reason, cancelledOn));
      if Blank(reason) { return Refused; }
      if FindEngagement(engagements, engagementId).None? { return NoData; }
      engagements := Cancelled(engagements, engagementId, cancelledOn);
      return Ok(());
    }

    method StartEngagement(engagement: Engagement)
      requires Sound(State()) && FindEngagement(engagements, engagement.id).None?
      modifies this
      ensures State() == Next(old(State()), Step.StartEngagement(engagement)) && Sound(State())
    {
      StepKeepsSound(State(), Step.StartEngagement(engagement));
      engagements := engagements + [engagement];
    }
  }
}
