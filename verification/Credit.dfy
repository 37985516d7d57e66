/** What a client can carry forward, and drawing on it (packages/billing/src/credit.ts). */
module Credit {
  import opened Common
  import opened Money
  import opened Billing

  datatype CreditSource = CreditSource(
    recordId: Id,
    engagementId: Id,
    paidCents: nat,
    alreadyDrawnCents: nat,
    availableCents: nat,
    occurredOn: Instant)

  /**
   * The payments of one engagement that still have something to give, after refunds totalling
   * `refundRemaining` have been set against the oldest first.
   */
  function Sources(payments: seq<BillingRecord>, refundRemaining: nat,
      applications: seq<CreditApplication>): seq<CreditSource> {
    if payments == [] then []
    else
      var offset := Min(refundRemaining, payments[0].amountCents);
      SourceFrom(payments[0], offset, DrawnFrom(applications, payments[0].id))
      + Sources(payments[1..], refundRemaining - offset, applications)
  }

  /** A payment with nothing left is not listed. */
  function SourceFrom(p: BillingRecord, offset: nat, drawn: nat): seq<CreditSource> {
    var available := AtLeastZero(p.amountCents - offset - drawn);
    if available == 0 then [] else [CreditSource(p.id, p.engagementId, p.amountCents, drawn, available, p.occurredOn)]
  }

  function SourcesOf(books: Books, engagementId: Id): seq<CreditSource> {
    Sources(PaymentsOf(books.records, engagementId), RefundedOf(books.records, engagementId), books.applications)
  }

  function CreditOver(books: Books, engagements: seq<Engagement>, clientId: Id): seq<CreditSource> {
    if engagements == [] then []
    else (if engagements[0].clientId == clientId then SourcesOf(books, engagements[0].id) else [])
         + CreditOver(books, engagements[1..], clientId)
  }

  /** `availableCredit` */
  function AvailableCredit(books: Books, clientId: Id): seq<CreditSource> {
    CreditOver(books, books.engagements, clientId)
  }

  function SumAvailable(sources: seq<CreditSource>): nat {
    if sources == [] then 0 else sources[0].availableCents + SumAvailable(sources[1..])
  }

  /** `totalAvailableCredit` */
  function TotalAvailableCredit(books: Books, clientId: Id): nat {
    SumAvailable(AvailableCredit(books, clientId))
  }

  function NotOn(sources: seq<CreditSource>, engagementId: Id): seq<CreditSource> {
    if sources == [] then []
    else (if sources[0].engagementId == engagementId then [] else [sources[0]]) + NotOn(sources[1..], engagementId)
  }

  /** One application per source, oldest source first, until the amount is met. */
  function Draws(sources: seq<CreditSource>, amount: nat, toEngagementId: Id): seq<CreditApplication> {
    if amount == 0 || sources == [] then []
    else
      var draw := Min(amount, sources[0].availableCents);
      [CreditApplication(sources[0].recordId, toEngagementId, draw)]
        + Draws(sources[1..], amount - draw, toEngagementId)
  }

  datatype CreditRequest = CreditRequest(
    recordId: Id,
    clientId: Id,
    toEngagementId: Id,
    amountCents: int,
    rationale: Text,
    appliedOn: Instant)

  /** What `applyCredit` answers before it writes anything; Failed is the error `sum` throws. */
  function CreditVerdict(books: Books, request: CreditRequest): Outcome<nat> {
    if !SafeInteger(request.amountCents) || request.amountCents <= 0 then Refused
    else if Blank(request.rationale) then Refused
    else
      var target := FindEngagement(books.engagements, request.toEngagementId);
      if target.None? || target.value.clientId != request.clientId then NoData
      else
        var sources := NotOn(AvailableCredit(books, request.clientId), request.toEngagementId);
        if !SafeInteger(SumAvailable(sources)) then Failed
        else if SumAvailable(sources) < request.amountCents then Refused
        else Ok(request.amountCents)
  }

  function AfterCredit(books: Books, request: CreditRequest): Books {
    if !CreditVerdict(books, request).Ok? then books
    else
      var sources := NotOn(AvailableCredit(books, request.clientId), request.toEngagementId);
      var row := BillingRecord(request.recordId, request.toEngagementId, CreditApplied, request.amountCents,
        request.appliedOn);
      books.(applications := books.applications + Draws(sources, request.amountCents, request.toEngagementId),
             records := InsertRecord(books.records, row))
  }

  // ---------------------------------------------------------------------------
  // One draw
  // ---------------------------------------------------------------------------

  ghost predicate HasPayment(payments: seq<BillingRecord>, id: Id) {
    exists i :: 0 <= i < |payments| && payments[i].id == id
  }

  lemma {:induction false} SourcesComeFromPayments(payments: seq<BillingRecord>, refund: nat,
      applications: seq<CreditApplication>)
    ensures forall s :: s in Sources(payments, refund, applications) ==> HasPayment(payments, s.recordId)
    ensures forall s :: s in Sources(payments, refund, applications) ==>
      exists p :: p in payments && s.engagementId == p.engagementId
  {
    if payments != [] {
      var offset := Min(refund, payments[0].amountCents);
      SourcesComeFromPayments(payments[1..], refund - offset, applications);
      forall s | s in Sources(payments, refund, applications)
        ensures HasPayment(payments, s.recordId)
        ensures exists p :: p in payments && s.engagementId == p.engagementId
      {
        assert payments[0] in payments;
        if s.recordId != payments[0].id {
          assert s in Sources(payments[1..], refund - offset, applications);
          var i :| 0 <= i < |payments[1..]| && payments[1..][i].id == s.recordId;
          assert payments[i + 1].id == s.recordId;
        }
        if s in Sources(payments[1..], refund - offset, applications) {
          var p :| p in payments[1..] && s.engagementId == p.engagementId;
          assert p in payments;
        }
      }
    }
  }

  /** What further draws leave of a source; one with nothing left is not listed. */
  function LeftOf(s: CreditSource, drawn: nat): seq<CreditSource> {
    if drawn >= s.availableCents then []
    else [s.(alreadyDrawnCents := s.alreadyDrawnCents + drawn, availableCents := s.availableCents - drawn)]
  }

  /** Every source less exactly what the draws take from it. */
  function LoweredBy(sources: seq<CreditSource>, draws: seq<CreditApplication>): seq<CreditSource> {
    if sources == [] then []
    else LeftOf(sources[0], DrawnFrom(draws, sources[0].recordId)) + LoweredBy(sources[1..], draws)
  }

  lemma {:induction false} DrawnConcat(applications: seq<CreditApplication>, draws: seq<CreditApplication>, id: Id)
    ensures DrawnFrom(applications + draws, id) == DrawnFrom(applications, id) + DrawnFrom(draws, id)
  {
    if draws == [] {
      assert applications + draws == applications;
    } else {
      var last, init := draws[|draws| - 1], draws[..|draws| - 1];
      DrawnConcat(applications, init, id);
      DrawnAfter(applications + init, last, id);
      DrawnAfter(init, last, id);
      assert applications + draws == applications + init + [last] && draws == init + [last];
    }
  }

  lemma {:induction false} LoweredConcat(s: seq<CreditSource>, t: seq<CreditSource>, draws: seq<CreditApplication>)
    ensures LoweredBy(s + t, draws) == LoweredBy(s, draws) + LoweredBy(t, draws)
  {
    if s == [] {
      assert s + t == t;
    } else {
      LoweredConcat(s[1..], t, draws);
      assert (s + t)[1..] == s[1..] + t;
    }
  }

  /** Draws lower every source of an engagement by exactly what they take from it. */
  lemma {:induction false} DrawsLower(payments: seq<BillingRecord>, refund: nat,
      applications: seq<CreditApplication>, draws: seq<CreditApplication>)
    ensures Sources(payments, refund, applications + draws) == LoweredBy(Sources(payments, refund, applications), draws)
  {
    if payments != [] {
      var p, refund' := payments[0], refund - Min(refund, payments[0].amountCents);
      var head := SourceFrom(p, refund - refund', DrawnFrom(applications, p.id));
      DrawnConcat(applications, draws, p.id);
      DrawsLower(payments[1..], refund', applications, draws);
      LoweredConcat(head, Sources(payments[1..], refund', applications), draws);
      assert LoweredBy(head, draws) == SourceFrom(p, refund - refund', DrawnFrom(applications + draws, p.id));
    }
  }

  lemma {:induction false} DrawsLowerOver(books: Books, engagements: seq<Engagement>, clientId: Id,
      draws: seq<CreditApplication>)
    ensures CreditOver(books.(applications := books.applications + draws), engagements, clientId)
         == LoweredBy(CreditOver(books, engagements, clientId), draws)
  {
    if engagements != [] {
      var e, rest := engagements[0], engagements[1..];
      DrawsLowerOver(books, rest, clientId, draws);
      DrawsLower(PaymentsOf(books.records, e.id), RefundedOf(books.records, e.id), books.applications, draws);
      var here := if e.clientId == clientId then SourcesOf(books, e.id) else [];
      LoweredConcat(here, CreditOver(books, rest, clientId), draws);
    }
  }

  ghost predicate AllPositive(sources: seq<CreditSource>) {
    forall i :: 0 <= i < |sources| ==> sources[i].availableCents > 0
  }

  lemma DrawnByOne(a: CreditApplication, id: Id)
    ensures DrawnFrom([a], id) == if a.sourceRecordId == id then a.amountCents else 0
  {
    DrawnAfter([], a, id);
    assert [] + [a] == [a];
  }

  lemma {:induction false} LoweredElsewhere(sources: seq<CreditSource>, a: CreditApplication)
    requires AllPositive(sources) && forall i :: 0 <= i < |sources| ==> sources[i].recordId != a.sourceRecordId
    ensures LoweredBy(sources, [a]) == sources
  {
    if sources != [] {
      DrawnByOne(a, sources[0].recordId);
      LoweredElsewhere(sources[1..], a);
    }
  }

  /** One draw takes its amount from the total and leaves every other source. */
  lemma {:induction false} LoweredByOne(sources: seq<CreditSource>, a: CreditApplication, k: nat)
    requires DistinctSources(sources) && AllPositive(sources) && k < |sources|
    requires a.sourceRecordId == sources[k].recordId && a.amountCents <= sources[k].availableCents
    ensures SumAvailable(LoweredBy(sources, [a])) == SumAvailable(sources) - a.amountCents
    ensures forall s :: s in sources && s.recordId != a.sourceRecordId ==> s in LoweredBy(sources, [a])
  {
    var head, rest := LeftOf(sources[0], DrawnFrom([a], sources[0].recordId)), sources[1..];
    assert DistinctSources(rest);
    DrawnByOne(a, sources[0].recordId);
    SumConcat(head, LoweredBy(rest, [a]));
    if k == 0 {
      LoweredElsewhere(rest, a);
    } else {
      LoweredByOne(rest, a, k - 1);
      assert head == [sources[0]];
    }
  }

  lemma NotInRest(payments: seq<BillingRecord>)
    requires payments != [] && DistinctIds(payments)
    ensures DistinctIds(payments[1..]) && !HasPayment(payments[1..], payments[0].id)
  {
    forall i | 0 <= i < |payments[1..]| ensures payments[1..][i].id != payments[0].id {
      assert payments[1..][i] == payments[i + 1];
    }
  }

  // ---------------------------------------------------------------------------
  // A whole application of credit
  // ---------------------------------------------------------------------------

  /** Ids are unique. */
  ghost predicate Keyed(books: Books) {
    && DistinctIds(books.records)
    && forall i, j :: 0 <= i < j < |books.engagements| ==> books.engagements[i].id != books.engagements[j].id
  }

  lemma OnlyOnOneEngagement(books: Books, e: Id, f: Id, id: Id)
    requires DistinctIds(books.records) && e != f
    requires HasPayment(PaymentsOf(books.records, e), id)
    ensures !HasPayment(PaymentsOf(books.records, f), id)
  {
    PaymentsMembers(books.records, e);
    PaymentsMembers(books.records, f);
    var ps, qs := PaymentsOf(books.records, e), PaymentsOf(books.records, f);
    var i :| 0 <= i < |ps| && ps[i].id == id;
    assert ps[i] in books.records;
    forall j | 0 <= j < |qs| ensures qs[j].id != id {
      assert qs[j] in books.records;
      SameIdSameRecord(books.records, ps[i], qs[j]);
    }
  }

  lemma SameIdSameRecord(records: seq<BillingRecord>, r: BillingRecord, s: BillingRecord)
    requires DistinctIds(records) && r in records && s in records
    ensures r.id == s.id ==> r == s
  {
    var i :| 0 <= i < |records| && records[i] == r;
    var j :| 0 <= j < |records| && records[j] == s;
  }

  lemma {:induction false} SourceEngagement(books: Books, engagements: seq<Engagement>, clientId: Id,
      source: CreditSource)
    requires source in CreditOver(books, engagements, clientId)
    ensures exists i ::
      0 <= i < |engagements| && engagements[i].id == source.engagementId && engagements[i].clientId == clientId
    ensures HasPayment(PaymentsOf(books.records, source.engagementId), source.recordId)
    ensures source in SourcesOf(books, source.engagementId)
  {
    var e := engagements[0];
    if e.clientId == clientId && source in SourcesOf(books, e.id) {
      SourcesComeFromPayments(PaymentsOf(books.records, e.id), RefundedOf(books.records, e.id), books.applications);
      PaymentsMembers(books.records, e.id);
    } else {
      SourceEngagement(books, engagements[1..], clientId, source);
      var i :| 0 <= i < |engagements[1..]| && engagements[1..][i].id == source.engagementId
        && engagements[1..][i].clientId == clientId;
      assert engagements[i + 1].id == source.engagementId;
    }
  }

  lemma {:induction false} SumConcat(s: seq<CreditSource>, t: seq<CreditSource>)
    ensures SumAvailable(s + t) == SumAvailable(s) + SumAvailable(t)
  {
    if s == [] {
      assert s + t == t;
    } else {
      SumConcat(s[1..], t);
      assert (s + t)[1..] == s[1..] + t;
    }
  }

  // ---------------------------------------------------------------------------
  // Sources are distinct payments with room
  // ---------------------------------------------------------------------------

  ghost predicate DistinctSources(sources: seq<CreditSource>) {
    forall i, j :: 0 <= i < j < |sources| ==> sources[i].recordId != sources[j].recordId
  }

  lemma {:induction false} SourcesDistinct(payments: seq<BillingRecord>, refund: nat,
      applications: seq<CreditApplication>)
    requires DistinctIds(payments)
    ensures DistinctSources(Sources(payments, refund, applications))
  {
    if payments != [] {
      var refund' := refund - Min(refund, payments[0].amountCents);
      NotInRest(payments);
      SourcesDistinct(payments[1..], refund', applications);
      SourcesComeFromPayments(payments[1..], refund', applications);
      var tail := Sources(payments[1..], refund', applications);
      forall j | 0 <= j < |tail| ensures tail[j].recordId != payments[0].id {
        assert tail[j] in tail;
      }
    }
  }

  lemma {:induction false} CreditOverDistinct(books: Books, engagements: seq<Engagement>, clientId: Id)
    requires DistinctIds(books.records)
    requires forall i, j :: 0 <= i < j < |engagements| ==> engagements[i].id != engagements[j].id
    ensures DistinctSources(CreditOver(books, engagements, clientId))
  {
    if engagements != [] {
      var e, rest := engagements[0], engagements[1..];
      assert forall i, j :: 0 <= i < j < |rest| ==> rest[i].id != rest[j].id by {
        forall i, j | 0 <= i < j < |rest| ensures rest[i].id != rest[j].id {
          assert rest[i] == engagements[i + 1] && rest[j] == engagements[j + 1];
        }
      }
      CreditOverDistinct(books, rest, clientId);
      PaymentsDistinct(books.records, e.id);
      SourcesDistinct(PaymentsOf(books.records, e.id), RefundedOf(books.records, e.id), books.applications);
      SourcesComeFromPayments(PaymentsOf(books.records, e.id), RefundedOf(books.records, e.id), books.applications);
      var here, tail := SourcesOf(books, e.id), CreditOver(books, rest, clientId);
      forall i, j | 0 <= i < |here| && 0 <= j < |tail| ensures here[i].recordId != tail[j].recordId {
        assert here[i] in here;
        SourceEngagement(books, rest, clientId, tail[j]);
        var f := tail[j].engagementId;
        var k :| 0 <= k < |rest| && rest[k].id == f;
        assert engagements[k + 1].id == f;
        OnlyOnOneEngagement(books, f, e.id, tail[j].recordId);
      }
    }
  }

  lemma {:induction false} NotOnMembers(sources: seq<CreditSource>, e: Id)
    ensures forall s :: s in NotOn(sources, e) <==> s in sources && s.engagementId != e
    ensures DistinctSources(sources) ==> DistinctSources(NotOn(sources, e))
  {
    if sources != [] {
      NotOnMembers(sources[1..], e);
      assert sources == [sources[0]] + sources[1..];
      if DistinctSources(sources) {
        assert DistinctSources(sources[1..]);
        var rest := NotOn(sources[1..], e);
        forall j | 0 <= j < |rest| ensures rest[j].recordId != sources[0].recordId {
          assert rest[j] in sources[1..];
          var i :| 0 <= i < |sources[1..]| && sources[1..][i] == rest[j];
          assert sources[0].recordId != sources[i + 1].recordId;
        }
      }
    }
  }

  function SumDrawn(draws: seq<CreditApplication>): nat {
    if draws == [] then 0 else draws[0].amountCents + SumDrawn(draws[1..])
  }

  /** The draws take a prefix of the sources, each but the last in full, and total the amount. */
  lemma {:induction false} DrawsAreGreedy(sources: seq<CreditSource>, amount: nat, to: Id)
    requires SumAvailable(sources) >= amount
    requires forall s :: s in sources ==> s.availableCents > 0
    ensures var draws := Draws(sources, amount, to);
      && |draws| <= |sources|
      && (forall i :: 0 <= i < |draws| ==>
         draws[i].sourceRecordId == sources[i].recordId && draws[i].toEngagementId == to)
      && (forall i :: 0 <= i < |draws| ==> 0 < draws[i].amountCents <= sources[i].availableCents)
      && (forall i :: 0 <= i < |draws| - 1 ==> draws[i].amountCents == sources[i].availableCents)
      && SumDrawn(draws) == amount
  {
    if amount > 0 && sources != [] {
      assert sources[0] in sources;
      DrawsAreGreedy(sources[1..], amount - Min(amount, sources[0].availableCents), to);
      assert forall i :: 0 < i < |sources| ==> sources[i] == sources[1..][i - 1];
    }
  }

  lemma {:induction false} SourcesPositive(payments: seq<BillingRecord>, refund: nat,
      applications: seq<CreditApplication>)
    ensures forall s :: s in Sources(payments, refund, applications) ==>
      s.availableCents > 0
      && exists p ::
           p in payments && p.id == s.recordId && s.availableCents + DrawnFrom(applications, p.id) <= p.amountCents
  {
    if payments != [] {
      var p, refund' := payments[0], refund - Min(refund, payments[0].amountCents);
      SourcesPositive(payments[1..], refund', applications);
      assert p in payments;
      assert forall q :: q in payments[1..] ==> q in payments;
    }
  }

  // ---------------------------------------------------------------------------
  // Nothing is drawn twice
  // ---------------------------------------------------------------------------

  /** Rows are in query order, every draw is on a payment, and no payment is drawn beyond its amount. */
  ghost predicate Sound(books: Books) {
    && Keyed(books)
    && SortedRecords(books.records)
    && (forall a :: a in books.applications ==> IsPayment(books.records, a.sourceRecordId))
    && (forall r :: r in books.records && r.kind.Payment? ==> DrawnFrom(books.applications, r.id) <= r.amountCents)
  }

  ghost predicate IsPayment(records: seq<BillingRecord>, id: Id) {
    exists r :: r in records && r.id == id && r.kind.Payment?
  }

  /** What is listed as available really is an undrawn part of a payment. */
  lemma SourceHasRoom(books: Books, clientId: Id, source: CreditSource)
    requires source in AvailableCredit(books, clientId)
    ensures source.availableCents > 0
    ensures exists p :: p in books.records && p.kind.Payment? && p.id == source.recordId
                        && source.availableCents + DrawnFrom(books.applications, p.id) <= p.amountCents
  {
    SourceEngagement(books, books.engagements, clientId, source);
    var f := source.engagementId;
    SourcesPositive(PaymentsOf(books.records, f), RefundedOf(books.records, f), books.applications);
    PaymentsMembers(books.records, f);
  }

  lemma DrawKeepsSound(books: Books, clientId: Id, source: CreditSource, a: CreditApplication)
    requires Sound(books) && source in AvailableCredit(books, clientId)
    requires a.sourceRecordId == source.recordId && a.amountCents <= source.availableCents
    ensures Sound(books.(applications := books.applications + [a]))
  {
    SourceHasRoom(books, clientId, source);
    var p :| p in books.records && p.kind.Payment? && p.id == source.recordId
             && source.availableCents + DrawnFrom(books.applications, p.id) <= p.amountCents;
    forall r | r in books.records && r.kind.Payment?
      ensures DrawnFrom(books.applications + [a], r.id) <= r.amountCents
    {
      DrawnAfter(books.applications, a, r.id);
      SameIdSameRecord(books.records, p, r);
    }
  }

  lemma DrawFirst(books: Books, sources: seq<CreditSource>, clientId: Id, a: CreditApplication)
    requires Sound(books) && DistinctSources(sources) && sources != []
    requires forall i :: 0 <= i < |sources| ==> sources[i] in AvailableCredit(books, clientId)
    requires a.sourceRecordId == sources[0].recordId && a.amountCents <= sources[0].availableCents
    ensures var books' := books.(applications := books.applications + [a]);
      && Sound(books')
      && TotalAvailableCredit(books', clientId) == TotalAvailableCredit(books, clientId) - a.amountCents
      && forall i :: 0 <= i < |sources[1..]| ==> sources[1..][i] in AvailableCredit(books', clientId)
    ensures DistinctSources(sources[1..])
  {
    var credit := AvailableCredit(books, clientId);
    DrawsLowerOver(books, books.engagements, clientId, [a]);
    CreditOverDistinct(books, books.engagements, clientId);
    forall i | 0 <= i < |credit| ensures credit[i].availableCents > 0 { SourceHasRoom(books, clientId, credit[i]); }
    var k :| 0 <= k < |credit| && credit[k] == sources[0];
    LoweredByOne(credit, a, k);
    DrawKeepsSound(books, clientId, sources[0], a);
    forall i | 0 <= i < |sources[1..]| ensures sources[1..][i] in LoweredBy(credit, [a]) {
      assert sources[1..][i] == sources[i + 1] && sources[0].recordId != sources[i + 1].recordId;
    }
  }

  lemma {:induction false} DrawEach(books: Books, sources: seq<CreditSource>, amount: nat, clientId: Id, to: Id)
    requires Sound(books) && DistinctSources(sources)
    requires forall i :: 0 <= i < |sources| ==> sources[i] in AvailableCredit(books, clientId)
    requires SumAvailable(sources) >= amount
    ensures var books' := books.(applications := books.applications + Draws(sources, amount, to));
      Sound(books') && TotalAvailableCredit(books', clientId) == TotalAvailableCredit(books, clientId) - amount
    decreases |sources|
  {
    var draws := Draws(sources, amount, to);
    if amount == 0 {
      assert books.applications + draws == books.applications;
      assert books.(applications := books.applications + draws) == books;
    } else {
      var draw := Min(amount, sources[0].availableCents);
      var a := CreditApplication(sources[0].recordId, to, draw);
      var books1 := books.(applications := books.applications + [a]);
      DrawFirst(books, sources, clientId, a);
      DrawEach(books1, sources[1..], amount - draw, clientId, to);
      DrawnTogether(books, a, Draws(sources[1..], amount - draw, to));
    }
  }

  /**
   * Drawing down a list of sources takes the amount from the client's total; and for every client
   * each source is left with exactly what was not drawn from it, whether it was on the list or not.
   */
  lemma DrawAll(books: Books, sources: seq<CreditSource>, amount: nat, clientId: Id, to: Id)
    requires Sound(books) && DistinctSources(sources)
    requires forall i :: 0 <= i < |sources| ==> sources[i] in AvailableCredit(books, clientId)
    requires SumAvailable(sources) >= amount
    ensures var draws := Draws(sources, amount, to);
      var books' := books.(applications := books.applications + draws);
      && Sound(books')
      && TotalAvailableCredit(books', clientId) == TotalAvailableCredit(books, clientId) - amount
      && forall c: Id :: AvailableCredit(books', c) == LoweredBy(AvailableCredit(books, c), draws)
  {
    DrawEach(books, sources, amount, clientId, to);
    forall c: Id { DrawsLowerOver(books, books.engagements, c, Draws(sources, amount, to)); }
  }

  lemma DrawnTogether(books: Books, a: CreditApplication, rest: seq<CreditApplication>)
    ensures var books1 := books.(applications := books.applications + [a]);
      books1.(applications := books1.applications + rest) == books.(applications := books.applications + ([a] + rest))
  {
    assert books.applications + [a] + rest == books.applications + ([a] + rest);
  }

  /** A credit record is neither a payment nor a refund, so no source notices it. */
  lemma {:induction false} CreditRecordUnseen(books: Books, r: BillingRecord, engagements: seq<Engagement>,
      clientId: Id)
    requires r.kind.CreditApplied? || r.kind.Charge?
    ensures CreditOver(books.(records := InsertRecord(books.records, r)), engagements, clientId) ==
      CreditOver(books, engagements, clientId)
  {
    if engagements != [] {
      var k := InsertPayments(books.records, r, engagements[0].id);
      InsertTotals(books.records, r, engagements[0].id, Refund);
      CreditRecordUnseen(books, r, engagements[1..], clientId);
    }
  }

  lemma InsertKeepsSound(books: Books, r: BillingRecord)
    requires Sound(books) && forall s :: s in books.records ==> s.id != r.id
    ensures Sound(books.(records := InsertRecord(books.records, r)))
  {
    var records' := InsertRecord(books.records, r);
    InsertMembers(books.records, r);
    InsertSorted(books.records, r);
    InsertDistinct(books.records, r);
    forall a | a in books.applications ensures IsPayment(records', a.sourceRecordId) {
      var s :| s in books.records && s.id == a.sourceRecordId && s.kind.Payment?;
      assert s in records';
    }
    UndrawnFrom(books.applications, r.id);
  }

  lemma {:induction false} InsertDistinct(records: seq<BillingRecord>, r: BillingRecord)
    requires DistinctIds(records) && forall s :: s in records ==> s.id != r.id
    ensures DistinctIds(InsertRecord(records, r))
  {
    if records != [] && !Before(r, records[0]) {
      NotInRest(records);
      InsertDistinct(records[1..], r);
      InsertMembers(records[1..], r);
      var rest := InsertRecord(records[1..], r);
      forall j | 0 <= j < |rest| ensures rest[j].id != records[0].id {
        assert rest[j] in rest;
        if rest[j] in records[1..] {
          var i :| 0 <= i < |records[1..]| && records[1..][i] == rest[j];
        }
      }
    }
  }

  lemma {:induction false} UndrawnFrom(applications: seq<CreditApplication>, id: Id)
    ensures (forall a :: a in applications ==> a.sourceRecordId != id) ==> DrawnFrom(applications, id) == 0
  {
    if applications != [] {
      var n := |applications| - 1;
      UndrawnFrom(applications[..n], id);
      assert applications == applications[..n] + [applications[n]];
    }
  }

  /**
   * A successful application lowers the client's total by exactly the amount asked, and writes
   * that same amount as draws on earlier payments and as one credit record.
   */
  lemma CreditMovesTheAmount(books: Books, request: CreditRequest)
    requires Sound(books) && CreditVerdict(books, request).Ok?
    requires forall r :: r in books.records ==> r.id != request.recordId
    ensures var books' := AfterCredit(books, request);
      && Sound(books')
      && TotalAvailableCredit(books', request.clientId) ==
         TotalAvailableCredit(books, request.clientId) - request.amountCents
      && AppliedTo(books'.applications, request.toEngagementId) ==
         AppliedTo(books.applications, request.toEngagementId) + request.amountCents
      && TotalOf(books'.records, request.toEngagementId, CreditApplied)
           == TotalOf(books.records, request.toEngagementId, CreditApplied) + request.amountCents
  {
    var credit := AvailableCredit(books, request.clientId);
    var sources := NotOn(credit, request.toEngagementId);
    CreditOverDistinct(books, books.engagements, request.clientId);
    NotOnMembers(credit, request.toEngagementId);
    assert forall i :: 0 <= i < |sources| ==> sources[i] in sources;
    DrawAll(books, sources, request.amountCents, request.clientId, request.toEngagementId);
    var drawn :=
      books.(applications := books.applications + Draws(sources, request.amountCents, request.toEngagementId));
    var row := BillingRecord(request.recordId, request.toEngagementId, CreditApplied, request.amountCents,
      request.appliedOn);
    CreditRecordUnseen(drawn, row, books.engagements, request.clientId);
    InsertKeepsSound(drawn, row);
    InsertTotals(books.records, row, request.toEngagementId, CreditApplied);
    forall s | s in sources ensures s.availableCents > 0 { SourceHasRoom(books, request.clientId, s); }
    DrawsAreGreedy(sources, request.amountCents, request.toEngagementId);
    AppliedByDraws(books.applications, Draws(sources, request.amountCents, request.toEngagementId),
      request.toEngagementId, request.toEngagementId);
  }

  lemma {:induction false} AppliedByDraws(applications: seq<CreditApplication>, draws: seq<CreditApplication>, to: Id,
      e: Id)
    requires forall i :: 0 <= i < |draws| ==> draws[i].toEngagementId == to
    ensures AppliedTo(applications + draws, e) == AppliedTo(applications, e) + if e == to then SumDrawn(draws) else 0
    decreases |draws|
  {
    if draws == [] {
      assert applications + draws == applications;
    } else {
      DrawnAfter(applications, draws[0], e);
      AppliedByDraws(applications + [draws[0]], draws[1..], to, e);
      assert applications + draws == applications + [draws[0]] + draws[1..];
    }
  }
}
