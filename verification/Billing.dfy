/**
 * The books the credit chain reads: engagements, billing records and credit applications
 * (packages/billing/src/engagements.ts, refunds.ts, credit.ts). One tenant.
 */
module Billing {
  import opened Common
  import opened Money

  type Id = nat

  datatype RecordKind = Charge | Payment | Refund | CreditApplied

  datatype BillingRecord =
    BillingRecord(id: Id, engagementId: Id, kind: RecordKind, amountCents: nat, occurredOn: Instant)

  datatype Engagement = Engagement(
    id: Id,
    clientId: Id,
    startedOn: Instant,
    committedThrough: Option<Instant>,
    annualPrepay: bool,
    cancelledOn: Option<Instant>)

  /** One draw on one payment. */
  datatype CreditApplication = CreditApplication(sourceRecordId: Id, toEngagementId: Id, amountCents: nat)

  /** `records` is kept in the order every query asks for: by `occurredOn`, then by `id`. */
  datatype Books = Books(
    engagements: seq<Engagement>,
    records: seq<BillingRecord>,
    applications: seq<CreditApplication>)

  const EMPTY_BOOKS := Books([], [], [])

  predicate Before(r: BillingRecord, s: BillingRecord) {
    r.occurredOn < s.occurredOn || (r.occurredOn == s.occurredOn && r.id < s.id)
  }

  function InsertRecord(records: seq<BillingRecord>, r: BillingRecord): seq<BillingRecord> {
    if records == [] || Before(r, records[0]) then [r] + records
    else [records[0]] + InsertRecord(records[1..], r)
  }

  function PaymentsOf(records: seq<BillingRecord>, engagementId: Id): seq<BillingRecord> {
    if records == [] then []
    else (if records[0].kind.Payment? && records[0].engagementId == engagementId then [records[0]] else [])
         + PaymentsOf(records[1..], engagementId)
  }

  /** The total of one kind of record on one engagement. */
  function TotalOf(records: seq<BillingRecord>, engagementId: Id, kind: RecordKind): nat {
    if records == [] then 0
    else (if records[0].kind == kind && records[0].engagementId == engagementId then records[0].amountCents else 0)
         + TotalOf(records[1..], engagementId, kind)
  }

  function RefundedOf(records: seq<BillingRecord>, engagementId: Id): nat {
    TotalOf(records, engagementId, Refund)
  }

  /** `_sum` of the credit applications drawing on one record. */
  function DrawnFrom(applications: seq<CreditApplication>, recordId: Id): nat {
    if applications == [] then 0
    else
      var last := applications[|applications| - 1];
      DrawnFrom(applications[..|applications| - 1], recordId)
      + if last.sourceRecordId == recordId then last.amountCents else 0
  }

  function AppliedTo(applications: seq<CreditApplication>, engagementId: Id): nat {
    if applications == [] then 0
    else
      var last := applications[|applications| - 1];
      AppliedTo(applications[..|applications| - 1], engagementId)
      + if last.toEngagementId == engagementId then last.amountCents else 0
  }

  function FindEngagement(engagements: seq<Engagement>, id: Id): Option<Engagement> {
    if engagements == [] then None
    else if engagements[0].id == id then Some(engagements[0])
    else FindEngagement(engagements[1..], id)
  }

  // ---------------------------------------------------------------------------
  // Refund entitlements
  // ---------------------------------------------------------------------------

  datatype Trigger = ApprovedNotFunded60Days | EngagementQualityFailure | UnearnedPrepayOnCancellation

  datatype Entitlement = Entitlement(trigger: Trigger, amountCents: nat)

  function Paid(payments: seq<BillingRecord>): nat {
    if payments == [] then 0 else payments[0].amountCents + Paid(payments[1..])
  }

  /** What an annual prepay cancelled part way through did not earn. */
  function UnearnedPrepay(books: Books, engagementId: Id): Option<Entitlement> {
    var found := FindEngagement(books.engagements, engagementId);
    if found.None? || !found.value.annualPrepay || found.value.cancelledOn.None? || found.value.committedThrough.None?
      then None
    else
      var e := found.value;
      var paid := Paid(PaymentsOf(books.records, engagementId));
      var termDays := DaysBetween(e.startedOn, e.committedThrough.value);
      if paid == 0 || termDays <= 0 then None
      else
        var usedDays := AtLeastZero(DaysBetween(e.startedOn, e.cancelledOn.value));
        var unusedDays := AtLeastZero(termDays - usedDays);
        if unusedDays == 0 then None
        else
          var amount := ProportionOf(paid, unusedDays, termDays, TowardClient);
          if amount <= 0 then None else Some(Entitlement(UnearnedPrepayOnCancellation, amount))
  }

  /** An unearned prepay never exceeds what was paid, and is short of the exact share by under a cent. */
  lemma UnearnedPrepayWithinPaid(books: Books, engagementId: Id)
    requires UnearnedPrepay(books, engagementId).Some?
    ensures var amount := UnearnedPrepay(books, engagementId).value.amountCents;
      var paid := Paid(PaymentsOf(books.records, engagementId));
      var e := FindEngagement(books.engagements, engagementId).value;
      var termDays := DaysBetween(e.startedOn, e.committedThrough.value);
      var days := DaysBetween(e.startedOn, e.cancelledOn.value);
      var unusedDays := termDays - if days < 0 then 0 else days;
      0 < amount <= paid && 0 < unusedDays <= termDays
      && amount * termDays <= paid * unusedDays < (amount + 1) * termDays
  {
    var paid := Paid(PaymentsOf(books.records, engagementId));
    var e := FindEngagement(books.engagements, engagementId).value;
    var termDays := DaysBetween(e.startedOn, e.committedThrough.value);
    var unusedDays := termDays - AtLeastZero(DaysBetween(e.startedOn, e.cancelledOn.value));
    RefundShareRoundsDown(paid, unusedDays, termDays);
  }

  /** A client who cancels an annual prepay is due something exactly when unused days are worth a cent. */
  lemma UnearnedPrepayDueExactly(books: Books, engagementId: Id)
    ensures var found := FindEngagement(books.engagements, engagementId);
      UnearnedPrepay(books, engagementId).Some? <==>
        && found.Some? && found.value.annualPrepay && found.value.cancelledOn.Some?
        && found.value.committedThrough.Some?
        && var termDays := DaysBetween(found.value.startedOn, found.value.committedThrough.value);
           var days := DaysBetween(found.value.startedOn, found.value.cancelledOn.value);
           var usedDays := if days < 0 then 0 else days;
           usedDays < termDays && Paid(PaymentsOf(books.records, engagementId)) * (termDays - usedDays) >= termDays
  {
    var found := FindEngagement(books.engagements, engagementId);
    if found.Some? && found.value.cancelledOn.Some? && found.value.committedThrough.Some? {
      var paid := Paid(PaymentsOf(books.records, engagementId));
      var termDays := DaysBetween(found.value.startedOn, found.value.committedThrough.value);
      var usedDays := AtLeastZero(DaysBetween(found.value.startedOn, found.value.cancelledOn.value));
      if usedDays < termDays {
        RefundShareRoundsDown(paid, termDays - usedDays, termDays);
        AtLeastACent(ProportionOf(paid, termDays - usedDays, termDays, TowardClient), paid * (termDays - usedDays),
          termDays);
      }
    }
  }

  lemma AtLeastACent(share: int, scaled: int, denominator: int)
    requires denominator > 0 && share * denominator <= scaled < (share + 1) * denominator
    ensures share > 0 <==> scaled >= denominator
  {
    assert share > 0 ==> share * denominator >= denominator;
    assert share <= 0 ==> (share + 1) * denominator <= denominator;
  }

  /**
   * What `refundsDue` derives. The two triggers that read funding outcomes and charge descriptions
   * are not derived here: `otherDue` is whatever they found.
   */
  function RefundsDue(books: Books, engagementId: Id, otherDue: seq<Entitlement>): seq<Entitlement> {
    if FindEngagement(books.engagements, engagementId).None? then []
    else
      var unearned := UnearnedPrepay(books, engagementId);
      otherDue + if unearned.Some? then [unearned.value] else []
  }

  // ---------------------------------------------------------------------------
  // Inserting a record
  // ---------------------------------------------------------------------------

  predicate SortedRecords(records: seq<BillingRecord>) {
    forall i, j :: 0 <= i < j < |records| ==> Before(records[i], records[j])
  }

  lemma {:induction false} InsertMembers(records: seq<BillingRecord>, r: BillingRecord)
    ensures |InsertRecord(records, r)| == |records| + 1
    ensures forall s :: s in InsertRecord(records, r) <==> s == r || s in records
  {
    if records != [] && !Before(r, records[0]) {
      InsertMembers(records[1..], r);
      assert records == [records[0]] + records[1..];
    }
  }

  /** Rows stay in query order. */
  lemma {:induction false} InsertSorted(records: seq<BillingRecord>, r: BillingRecord)
    requires SortedRecords(records) && forall s :: s in records ==> s.id != r.id
    ensures SortedRecords(InsertRecord(records, r))
  {
    if records != [] && !Before(r, records[0]) {
      InsertSorted(records[1..], r);
      InsertMembers(records[1..], r);
      var rest := InsertRecord(records[1..], r);
      forall j | 0 <= j < |rest| ensures Before(records[0], rest[j]) {
        assert rest[j] == r || rest[j] in records[1..];
      }
    }
  }

  lemma {:induction false} InsertTotals(records: seq<BillingRecord>, r: BillingRecord, e: Id, kind: RecordKind)
    ensures TotalOf(InsertRecord(records, r), e, kind)
         == TotalOf(records, e, kind) + if r.kind == kind && r.engagementId == e then r.amountCents else 0
  {
    if records != [] && !Before(r, records[0]) {
      InsertTotals(records[1..], r, e, kind);
    }
  }

  /** A new payment takes some place among the payments of its engagement; nothing else moves. */
  lemma {:induction false} InsertPayments(records: seq<BillingRecord>, r: BillingRecord, e: Id) returns (k: nat)
    ensures k <= |PaymentsOf(records, e)|
    ensures PaymentsOf(InsertRecord(records, r), e)
         == if r.kind.Payment? && r.engagementId == e
            then PaymentsOf(records, e)[..k] + [r] + PaymentsOf(records, e)[k..]
            else PaymentsOf(records, e)
  {
    if records == [] || Before(r, records[0]) {
      k := 0;
      assert ([r] + records)[1..] == records;
    } else {
      var k' := InsertPayments(records[1..], r, e);
      var first := if records[0].kind.Payment? && records[0].engagementId == e then [records[0]] else [];
      var rest := PaymentsOf(records[1..], e);
      k := |first| + k';
      assert ([records[0]] + InsertRecord(records[1..], r))[1..] == InsertRecord(records[1..], r);
    }
  }

  lemma {:induction false} PaymentsMembers(records: seq<BillingRecord>, e: Id)
    ensures forall p :: p in PaymentsOf(records, e) <==> p in records && p.kind.Payment? && p.engagementId == e
  {
    if records != [] {
      PaymentsMembers(records[1..], e);
      assert records == [records[0]] + records[1..];
    }
  }

  ghost predicate DistinctIds(records: seq<BillingRecord>) {
    forall i, j :: 0 <= i < j < |records| ==> records[i].id != records[j].id
  }

  lemma {:induction false} PaymentsDistinct(records: seq<BillingRecord>, e: Id)
    requires DistinctIds(records)
    ensures DistinctIds(PaymentsOf(records, e))
  {
    if records != [] {
      assert DistinctIds(records[1..]);
      PaymentsDistinct(records[1..], e);
      PaymentsMembers(records[1..], e);
      forall p | p in PaymentsOf(records[1..], e) ensures p.id != records[0].id {
        assert p in records[1..];
        var j :| 0 <= j < |records[1..]| && records[1..][j] == p;
        assert records[0].id != records[j + 1].id;
      }
    }
  }

  lemma DrawnAfter(applications: seq<CreditApplication>, a: CreditApplication, recordId: Id)
    ensures DrawnFrom(applications + [a], recordId)
         == DrawnFrom(applications, recordId) + if a.sourceRecordId == recordId then a.amountCents else 0
    ensures AppliedTo(applications + [a], recordId)
         == AppliedTo(applications, recordId) + if a.toEngagementId == recordId then a.amountCents else 0
  {
    assert (applications + [a])[..|applications|] == applications;
  }
}
