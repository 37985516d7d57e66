/** The approval pipeline of a client deliverable (packages/deliverables/src/approval.ts). */
module Approval {
  import opened Common
  import Json
  import Ordering
  import JsonReader

  // ---------------------------------------------------------------------------
  // Documents
  // ---------------------------------------------------------------------------

  /** Blocks are read by the renderers and the scanner only; the pipeline hashes them. */
  datatype Section = Section(heading: Text, blocks: seq<Json.Value>)

  datatype Document = Document(
    templateKey: Text,
    templateVersion: nat,
    title: Text,
    clientLegalName: Text,
    preparedOn: Text,
    sections: seq<Section>)

  const TEMPLATE_KEY: Text := [0x74, 0x65, 0x6D, 0x70, 0x6C, 0x61, 0x74, 0x65, 0x4B, 0x65, 0x79]
  const TEMPLATE_VERSION: Text :=
    [0x74, 0x65, 0x6D, 0x70, 0x6C, 0x61, 0x74, 0x65, 0x56, 0x65, 0x72, 0x73, 0x69, 0x6F, 0x6E]
  const TITLE: Text := [0x74, 0x69, 0x74, 0x6C, 0x65]
  const CLIENT_LEGAL_NAME: Text :=
    [0x63, 0x6C, 0x69, 0x65, 0x6E, 0x74, 0x4C, 0x65, 0x67, 0x61, 0x6C, 0x4E, 0x61, 0x6D, 0x65]
  const PREPARED_ON: Text := [0x70, 0x72, 0x65, 0x70, 0x61, 0x72, 0x65, 0x64, 0x4F, 0x6E]
  const SECTIONS: Text := [0x73, 0x65, 0x63, 0x74, 0x69, 0x6F, 0x6E, 0x73]
  const HEADING: Text := [0x68, 0x65, 0x61, 0x64, 0x69, 0x6E, 0x67]
  const BLOCKS: Text := [0x62, 0x6C, 0x6F, 0x63, 0x6B, 0x73]

  function SectionJson(s: Section): Json.Value {
    Json.Obj([Json.Member(HEADING, Json.Str(s.heading)), Json.Member(BLOCKS, Json.Arr(s.blocks))])
  }

  function DocumentJson(d: Document): Json.Value {
    Json.Obj([
      Json.Member(TEMPLATE_KEY, Json.Str(d.templateKey)),
      Json.Member(TEMPLATE_VERSION, Json.Num(d.templateVersion)),
      Json.Member(TITLE, Json.Str(d.title)),
      Json.Member(CLIENT_LEGAL_NAME, Json.Str(d.clientLegalName)),
      Json.Member(PREPARED_ON, Json.Str(d.preparedOn)),
      Json.Member(SECTIONS, SectionsJson(d.sections))
    ])
  }

  function SectionsJson(sections: seq<Section>): Json.Value {
    Json.Arr(seq(|sections|, i requires 0 <= i < |sections| => SectionJson(sections[i])))
  }

  lemma FieldNames()
    ensures CLIENT_LEGAL_NAME == Units("clientLegalName") && PREPARED_ON == Units("preparedOn")
    ensures SECTIONS == Units("sections") && TEMPLATE_KEY == Units("templateKey")
    ensures TEMPLATE_VERSION == Units("templateVersion") && TITLE == Units("title")
    ensures BLOCKS == Units("blocks") && HEADING == Units("heading")
  {
  }

  lemma FieldsArePlain()
    ensures Json.AllPlain(CLIENT_LEGAL_NAME) && Json.AllPlain(PREPARED_ON) && Json.AllPlain(SECTIONS)
    ensures Json.AllPlain(TEMPLATE_KEY) && Json.AllPlain(TEMPLATE_VERSION) && Json.AllPlain(TITLE)
    ensures Json.AllPlain(BLOCKS) && Json.AllPlain(HEADING)
  {
  }

  lemma FieldsInOrder()
    ensures Ordering.Less(CLIENT_LEGAL_NAME, PREPARED_ON) && Ordering.Less(PREPARED_ON, SECTIONS)
    ensures Ordering.Less(SECTIONS, TEMPLATE_KEY) && Ordering.Less(TEMPLATE_KEY, TEMPLATE_VERSION)
    ensures Ordering.Less(TEMPLATE_VERSION, TITLE) && Ordering.Less(BLOCKS, HEADING)
  {
    SmallerKey(CLIENT_LEGAL_NAME, PREPARED_ON, 0);
    SmallerKey(PREPARED_ON, SECTIONS, 0);
    SmallerKey(SECTIONS, TEMPLATE_KEY, 0);
    SmallerKey(TEMPLATE_KEY, TEMPLATE_VERSION, 8);
    SmallerKey(TEMPLATE_VERSION, TITLE, 1);
    SmallerKey(BLOCKS, HEADING, 0);
  }

  lemma SmallerKey(a: Text, b: Text, k: nat)
    requires Ordering.SmallerAt(a, b, k)
    ensures Ordering.Less(a, b)
  {
    Ordering.LessExactly(a, b);
  }

  lemma SixByKey(a: Json.Member, b: Json.Member, c: Json.Member, d: Json.Member, e: Json.Member, f: Json.Member)
    requires Printable(a) && Printable(b) && Printable(c) && Printable(d) && Printable(e) && Printable(f)
    requires Ordering.Less(a.key, b.key) && Ordering.Less(b.key, c.key) && Ordering.Less(c.key, d.key)
    requires Ordering.Less(d.key, e.key) && Ordering.Less(e.key, f.key)
    ensures Json.CanonicalJson(Json.Obj([d, e, f, a, b, c]))
         == [0x7B] + Json.CommaJoined(Json.NamedMembers([a, b, c, d, e, f])) + [0x7D]
  {
    var sorted := [a, b, c, d, e, f];
    assert sorted[3..] + sorted[..3] == [d, e, f, a, b, c];
    Json.RotatedText(sorted, 3);
  }

  ghost predicate Printable(m: Json.Member) { Json.AllPlain(m.key) && !m.value.Undefined? }

  lemma TwoByKey(a: Json.Member, b: Json.Member)
    requires Printable(a) && Printable(b) && Ordering.Less(a.key, b.key)
    ensures Json.CanonicalJson(Json.Obj([b, a])) == [0x7B] + Json.CommaJoined(Json.NamedMembers([a, b])) + [0x7D]
  {
    assert [a, b][1..] + [a, b][..1] == [b, a];
    Json.RotatedText([a, b], 1);
  }

  /** The text that is hashed: the fields of a document under their names, in the order of the names. */
  lemma DocumentText(d: Document)
    ensures Json.CanonicalJson(DocumentJson(d)) == [0x7B] + Json.CommaJoined(Json.NamedMembers([
      Json.Member(CLIENT_LEGAL_NAME, Json.Str(d.clientLegalName)),
      Json.Member(PREPARED_ON, Json.Str(d.preparedOn)),
      Json.Member(SECTIONS, SectionsJson(d.sections)),
      Json.Member(TEMPLATE_KEY, Json.Str(d.templateKey)),
      Json.Member(TEMPLATE_VERSION, Json.Num(d.templateVersion)),
      Json.Member(TITLE, Json.Str(d.title))])) + [0x7D]
  {
    FieldsArePlain();
    FieldsInOrder();
    SixByKey(Json.Member(CLIENT_LEGAL_NAME, Json.Str(d.clientLegalName)),
      Json.Member(PREPARED_ON, Json.Str(d.preparedOn)), Json.Member(SECTIONS, SectionsJson(d.sections)),
      Json.Member(TEMPLATE_KEY, Json.Str(d.templateKey)), Json.Member(TEMPLATE_VERSION, Json.Num(d.templateVersion)),
      Json.Member(TITLE, Json.Str(d.title)));
  }

  lemma SectionText(s: Section)
    ensures Json.CanonicalJson(SectionJson(s)) == [0x7B] + Json.CommaJoined(Json.NamedMembers([
      Json.Member(BLOCKS, Json.Arr(s.blocks)), Json.Member(HEADING, Json.Str(s.heading))])) + [0x7D]
  {
    FieldsArePlain();
    FieldsInOrder();
    TwoByKey(Json.Member(BLOCKS, Json.Arr(s.blocks)), Json.Member(HEADING, Json.Str(s.heading)));
  }

  /** How documents are hashed; the pipeline needs no more of it than that it is a function. */
  type Digest = Document -> Text

  /** `hashContent`: SHA-256, of which nothing is assumed, over the canonical JSON. */
  function HashContent(sha: Text -> Text): Digest {
    (d: Document) => sha(Json.CanonicalJson(DocumentJson(d)))
  }

  // ---------------------------------------------------------------------------
  // Structural QA
  // ---------------------------------------------------------------------------

  datatype QaIssue =
    EmptyTitle | NoClient | NoSections | BadDate | EmptyHeading(section: nat) | EmptySection(section: nat)

  /** `YYYY-MM-DD` */
  predicate IsoDate(s: Text) {
    |s| == 10 && forall i :: 0 <= i < 10 ==> if i == 4 || i == 7 then s[i] == 0x2D else IsDigit(s[i])
  }

  /** A document QA has nothing to say about. */
  predicate WellShaped(d: Document) {
    && !Blank(d.title)
    && !Blank(d.clientLegalName)
    && IsoDate(d.preparedOn)
    && d.sections != []
    && forall i :: 0 <= i < |d.sections| ==> !Blank(d.sections[i].heading) && d.sections[i].blocks != []
  }

  ghost predicate HasIssue(d: Document, issue: QaIssue) {
    match issue
    case EmptyTitle => Blank(d.title)
    case NoClient => Blank(d.clientLegalName)
    case NoSections => d.sections == []
    case BadDate => !IsoDate(d.preparedOn)
    case EmptyHeading(i) => i < |d.sections| && Blank(d.sections[i].heading)
    case EmptySection(i) => i < |d.sections| && d.sections[i].blocks == []
  }

  /** `qaIssues`: every issue the document has and no other. */
  method QaIssues(d: Document) returns (issues: seq<QaIssue>)
    ensures forall issue :: issue in issues <==> HasIssue(d, issue)
    ensures issues == [] <==> WellShaped(d)
  {
    issues := [];
    if Blank(d.title) { issues := issues + [EmptyTitle]; }
    if Blank(d.clientLegalName) { issues := issues + [NoClient]; }
    if d.sections == [] { issues := issues + [NoSections]; }
    if !IsoDate(d.preparedOn) { issues := issues + [BadDate]; }
    for index := 0 to |d.sections|
      invariant forall issue ::
        issue in issues <==> HasIssue(d, issue) && (SectionOf(issue).Some? ==> SectionOf(issue).value < index)
    {
      var section := d.sections[index];
      if Blank(section.heading) { issues := issues + [EmptyHeading(index)]; }
      if section.blocks == [] { issues := issues + [EmptySection(index)]; }
    }
    WellShapedHasNoIssue(d, issues);
  }

  lemma WellShapedHasNoIssue(d: Document, issues: seq<QaIssue>)
    requires forall issue :: issue in issues <==> HasIssue(d, issue)
    ensures issues == [] <==> WellShaped(d)
  {
    if issues == [] {
      assert !HasIssue(d, EmptyTitle) && !HasIssue(d, NoClient) && !HasIssue(d, NoSections) && !HasIssue(d, BadDate);
      forall i | 0 <= i < |d.sections| ensures !Blank(d.sections[i].heading) && d.sections[i].blocks != [] {
        assert !HasIssue(d, EmptyHeading(i)) && !HasIssue(d, EmptySection(i));
      }
    } else {
      assert issues[0] in issues;
      assert HasIssue(d, issues[0]);
    }
  }

  function SectionOf(issue: QaIssue): Option<nat> {
    match issue
    case EmptyHeading(i) => Some(i)
    case EmptySection(i) => Some(i)
    case _ => None
  }

  // ---------------------------------------------------------------------------
  // The pipeline as a state machine
  // ---------------------------------------------------------------------------

  datatype EventActor = EventActor(human: bool, id: Text)

  datatype Status = Draft | QaChecked | Scanned | Blocked | AwaitingHuman | Approved | Rejected | Delivered

  /** A row of the deliverables table; its id is its position. */
  datatype Deliverable = Deliverable(
    clientId: Text,
    templateKey: Text,
    templateVersion: nat,
    version: nat,
    status: Status,
    content: Document,
    contentHash: Text,
    reviewedBy: Option<Text>)

  datatype Happening =
    | WasDrafted(contentHash: Text)
    | PassedQa
    | PassedScan
    | WasBlocked
    | WasApproved(contentHash: Text)
    | WasRejected(reason: Text)
    | WasDelivered(contentHash: Text, approvedBy: Option<Text>)

  datatype Event = Event(deliverable: nat, version: nat, actor: EventActor, what: Happening)

  datatype Archive = Archive(templates: set<(Text, nat)>, rows: seq<Deliverable>, ledger: seq<Event>)

  /**
   * Whether a document's text is blocked, by the claims in force when it is scanned; the answer may
   * also be that nothing could be checked.
   */
  type Scanner = Document -> Outcome<bool>

  /**
   * The exported operations, with the answer of `findClient` and the scanner of the moment, and a
   * change to the stored content made behind the pipeline's back.
   */
  datatype Step =
    | RegisterTemplate(key: Text, templateVersion: nat)
    | DraftNew(clientId: Text, client: Outcome<()>, document: Document, actor: EventActor)
    | RunQaCheck(id: nat, actor: EventActor)
    | RunComplianceScan(id: nat, actor: EventActor, scanner: Scanner)
    | RequestHumanReview(id: nat)
    | Approve(id: nat, actor: EventActor)
    | Reject(id: nat, reason: Text, actor: EventActor)
    | Deliver(id: nat, actor: EventActor)
    | EditOutside(id: nat, content: Document)

  /** The highest version this client has of the template, or 0. */
  function LatestVersion(rows: seq<Deliverable>, clientId: Text, templateKey: Text): nat {
    if rows == [] then 0
    else
      var n := |rows| - 1;
      var rest := LatestVersion(rows[..n], clientId, templateKey);
      if rows[n].clientId == clientId && rows[n].templateKey == templateKey && rows[n].version > rest
        then rows[n].version else rest
  }

  /** What a step answers: the id of the deliverable, or why it did not proceed. */
  function Verdict(hash: Digest, s: Archive, step: Step): Outcome<nat> {
    match step
    case RegisterTemplate(_, _) => Ok(0)
    case EditOutside(id, _) => if id < |s.rows| then Ok(id) else NoData
    case DraftNew(_, client, document, _) =>
      if !client.Ok? then Forwarded(client)
      else if (document.templateKey, document.templateVersion) !in s.templates then NoData
      else Ok(|s.rows|)
    case RunQaCheck(id, _) =>
      if id >= |s.rows| then NoData
      else if s.rows[id].status != Draft || !WellShaped(s.rows[id].content) then Refused
      else Ok(id)
    case RunComplianceScan(id, _, scanner) =>
      if id >= |s.rows| then NoData
      else if s.rows[id].status != QaChecked then Refused
      else
        var blocked := scanner(s.rows[id].content);
        if !blocked.Ok? then Forwarded(blocked) else if blocked.value then Refused else Ok(id)
    case RequestHumanReview(id) =>
      if id >= |s.rows| then NoData
      else if s.rows[id].status != Scanned then Refused
      else Ok(id)
    case Approve(id, actor) =>
      if !actor.human then Refused
      else if id >= |s.rows| then NoData
      else if s.rows[id].status != AwaitingHuman && s.rows[id].status != Scanned then Refused
      else Ok(id)
    case Reject(id, _, _) => if id >= |s.rows| then NoData else Ok(id)
    case Deliver(id, _) =>
      if id >= |s.rows| then NoData
      else if s.rows[id].status != Approved then Refused
      else if hash(s.rows[id].content) != s.rows[id].contentHash then Failed
      else Ok(id)
  }

  /** A blocked scan answers a refusal and still leaves its mark. */
  predicate Acts(hash: Digest, s: Archive, step: Step) {
    || Verdict(hash, s, step).Ok?
    || (step.RunComplianceScan? && step.id < |s.rows| && s.rows[step.id].status == QaChecked
       && step.scanner(s.rows[step.id].content) == Ok(true))
  }

  function NewRow(hash: Digest, s: Archive, step: Step): Deliverable
    requires step.DraftNew?
  {
    var document := step.document;
    Deliverable(step.clientId, document.templateKey, document.templateVersion,
                LatestVersion(s.rows, step.clientId, document.templateKey) + 1,
                Draft, document, hash(document), None)
  }

  function Changed(row: Deliverable, step: Step): Deliverable {
    match step
    case RunQaCheck(_, _) => row.(status := QaChecked)
    case RunComplianceScan(_, _, scanner) =>
      row.(status := if scanner(row.content) == Ok(true) then Blocked else Scanned)
    case RequestHumanReview(_) => row.(status := AwaitingHuman)
    case Approve(_, actor) => row.(status := Approved, reviewedBy := Some(actor.id))
    case Reject(_, _, actor) => row.(status := Rejected, reviewedBy := Some(actor.id))
    case Deliver(_, _) => row.(status := Delivered)
    case EditOutside(_, content) => row.(content := content)
    case _ => row
  }

  /** What is appended to the ledger; asking for a review and editing leave no event. */
  function Recorded(row: Deliverable, step: Step): seq<Event> {
    match step
    case RunQaCheck(id, actor) => [Event(id, row.version, actor, PassedQa)]
    case RunComplianceScan(id, actor, scanner) =>
      [Event(id, row.version, actor, if scanner(row.content) == Ok(true) then WasBlocked else PassedScan)]
    case Approve(id, actor) => [Event(id, row.version, actor, WasApproved(row.contentHash))]
    case Reject(id, reason, actor) => [Event(id, row.version, actor, WasRejected(reason))]
    case Deliver(id, actor) => [Event(id, row.version, actor, WasDelivered(row.contentHash, row.reviewedBy))]
    case _ => []
  }

  function Next(hash: Digest, s: Archive, step: Step): Archive {
    if !Acts(hash, s, step) then s
    else
      match step
      case RegisterTemplate(key, version) => s.(templates := s.templates + {(key, version)})
      case DraftNew(_, _, _, actor) =>
        var row := NewRow(hash, s, step);
        s.(rows := s.rows + [row],
           ledger := s.ledger + [Event(|s.rows|, row.version, actor, WasDrafted(row.contentHash))])
      case _ =>
        var row := s.rows[step.id];
        s.(rows := s.rows[step.id := Changed(row, step)], ledger := s.ledger + Recorded(row, step))
  }

  const EMPTY_ARCHIVE: Archive := Archive({}, [], [])

  function Run(hash: Digest, steps: seq<Step>): Archive {
    if steps == [] then EMPTY_ARCHIVE else Next(hash, Run(hash, steps[..|steps| - 1]), steps[|steps| - 1])
  }

  /**
   * What is not there answers no data, whatever is asked of it by someone who may ask; what is there
   * and not ready is refused; and what another service answered is passed on.
   */
  lemma UnknownIsNoData(hash: Digest, s: Archive, step: Step)
    ensures match step
      case DraftNew(_, client, d, _) =>
        var registered := (d.templateKey, d.templateVersion) in s.templates;
        && (Verdict(hash, s, step).NoData? <==> client.NoData? || (client.Ok? && !registered))
        && (Verdict(hash, s, step).Refused? <==> client.Refused?)
      case RunComplianceScan(id, _, scanner) =>
        if id >= |s.rows| then Verdict(hash, s, step).NoData?
        else if s.rows[id].status != QaChecked then Verdict(hash, s, step).Refused?
        else
          var answer := scanner(s.rows[id].content);
          && (Verdict(hash, s, step).NoData? <==> answer.NoData?)
          && (Verdict(hash, s, step).Failed? <==> answer.Failed?)
          && (Verdict(hash, s, step).Refused? <==> answer.Refused? || answer == Ok(true))
      case Approve(id, actor) =>
        && (Verdict(hash, s, step).NoData? <==> actor.human && id >= |s.rows|)
        && (Verdict(hash, s, step).Refused? || Verdict(hash, s, step).NoData? || Verdict(hash, s, step) == Ok(id))
      case Deliver(id, _) =>
        && (Verdict(hash, s, step).NoData? <==> id >= |s.rows|)
        && (Verdict(hash, s, step).Failed? <==>
              id < |s.rows| && s.rows[id].status == Approved && hash(s.rows[id].content) != s.rows[id].contentHash)
        && !Verdict(hash, s, step).NotBuilt?
      case RegisterTemplate(_, _) => true
      case _ =>
        && (Verdict(hash, s, step).NoData? <==> step.id >= |s.rows|)
        && (step.id < |s.rows| ==> Verdict(hash, s, step).Refused? || Verdict(hash, s, step) == Ok(step.id))
  {
  }

  // ---------------------------------------------------------------------------
  // The ledger replays to the state
  // ---------------------------------------------------------------------------

  function EventsFor(ledger: seq<Event>, id: nat): seq<Event> {
    if ledger == [] then []
    else
      var n := |ledger| - 1;
      EventsFor(ledger[..n], id) + if ledger[n].deliverable == id then [ledger[n]] else []
  }

  /** What the ledger alone says of a deliverable. */
  datatype Trace = Trace(status: Status, contentHash: Text, reviewedBy: Option<Text>)

  /** The one order of events the blueprint allows. None: this event may not come next. */
  ghost function Follow(t: Trace, e: Event): Option<Trace> {
    match e.what
    case PassedQa => if t.status == Draft then Some(t.(status := QaChecked)) else None
    case PassedScan => if t.status == QaChecked then Some(t.(status := Scanned)) else None
    case WasBlocked => if t.status == QaChecked then Some(t.(status := Blocked)) else None
    case WasApproved(hash) =>
      if t.status == Scanned && hash == t.contentHash && e.actor.human
      then Some(t.(status := Approved, reviewedBy := Some(e.actor.id))) else None
    case WasRejected(_) => Some(t.(status := Rejected, reviewedBy := Some(e.actor.id)))
    case WasDelivered(hash, approver) =>
      if t.status == Approved && hash == t.contentHash && approver == t.reviewedBy
      then Some(t.(status := Delivered)) else None
    case WasDrafted(_) => None
  }

  ghost function Replay(events: seq<Event>): Option<Trace> {
    if events == [] then None
    else if |events| == 1 then
      if events[0].what.WasDrafted? then Some(Trace(Draft, events[0].what.contentHash, None)) else None
    else
      var before := Replay(events[..|events| - 1]);
      if before.None? then None else Follow(before.value, events[|events| - 1])
  }

  /** A request for review is not an event, so the ledger cannot tell it from a clean scan. */
  ghost function TraceOf(row: Deliverable): Trace {
    Trace(if row.status == AwaitingHuman then Scanned else row.status, row.contentHash, row.reviewedBy)
  }

  ghost predicate LogAgrees(s: Archive) {
    && (forall k :: 0 <= k < |s.ledger| ==> s.ledger[k].deliverable < |s.rows|)
    && (forall id: nat :: id < |s.rows| ==> RowAgrees(s.ledger, s.rows[id], id))
  }

  ghost predicate RowAgrees(ledger: seq<Event>, row: Deliverable, id: nat) {
    Replay(EventsFor(ledger, id)) == Some(TraceOf(row))
  }

  lemma EventsForAppend(ledger: seq<Event>, e: Event, id: nat)
    ensures EventsFor(ledger + [e], id) == EventsFor(ledger, id) + if e.deliverable == id then [e] else []
  {
    assert (ledger + [e])[..|ledger|] == ledger;
  }

  lemma {:induction false} NoEventsYet(ledger: seq<Event>, id: nat)
    requires forall k :: 0 <= k < |ledger| ==> ledger[k].deliverable < id
    ensures EventsFor(ledger, id) == []
  {
    if ledger != [] { NoEventsYet(ledger[..|ledger| - 1], id); }
  }

  /** Every recorded step is one the order of events allows. */
  lemma StepFollows(hash: Digest, s: Archive, step: Step)
    requires Acts(hash, s, step) && !step.RegisterTemplate? && !step.DraftNew?
    ensures step.id < |s.rows|
    ensures var row := s.rows[step.id];
      if Recorded(row, step) == [] then TraceOf(Changed(row, step)) == TraceOf(row)
      else |Recorded(row, step)| == 1 && Recorded(row, step)[0].deliverable == step.id
           && Follow(TraceOf(row), Recorded(row, step)[0]) == Some(TraceOf(Changed(row, step)))
  {
  }

  lemma FirstEvent(ledger: seq<Event>, e: Event, row: Deliverable, id: nat)
    requires forall k :: 0 <= k < |ledger| ==> ledger[k].deliverable < id
    requires e.deliverable == id && e.what == WasDrafted(row.contentHash) && row.status == Draft && row.reviewedBy.None?
    ensures RowAgrees(ledger + [e], row, id)
  {
    NoEventsYet(ledger, id);
    EventsForAppend(ledger, e, id);
    assert EventsFor(ledger + [e], id) == [e];
  }

  lemma EventElsewhere(ledger: seq<Event>, e: Event, row: Deliverable, id: nat)
    requires RowAgrees(ledger, row, id) && e.deliverable != id
    ensures RowAgrees(ledger + [e], row, id)
  {
    EventsForAppend(ledger, e, id);
    assert EventsFor(ledger, id) + [] == EventsFor(ledger, id);
  }

  lemma DraftKeepsLog(hash: Digest, s: Archive, step: Step)
    requires LogAgrees(s) && step.DraftNew? && Verdict(hash, s, step).Ok?
    ensures LogAgrees(Next(hash, s, step))
  {
    var row := NewRow(hash, s, step);
    var e := Event(|s.rows|, row.version, step.actor, WasDrafted(row.contentHash));
    RowAndEvent(s, row, e);
    assert Next(hash, s, step) == s.(rows := s.rows + [row], ledger := s.ledger + [e]);
  }

  lemma RowAndEvent(s: Archive, row: Deliverable, e: Event)
    requires LogAgrees(s) && row.status == Draft && row.reviewedBy.None?
    requires e.deliverable == |s.rows| && e.what == WasDrafted(row.contentHash)
    ensures LogAgrees(s.(rows := s.rows + [row], ledger := s.ledger + [e]))
  {
    var rows' := s.rows + [row];
    FirstEvent(s.ledger, e, row, |s.rows|);
    forall id: nat | id < |rows'| ensures RowAgrees(s.ledger + [e], rows'[id], id) {
      if id < |s.rows| {
        assert rows'[id] == s.rows[id];
        EventElsewhere(s.ledger, e, s.rows[id], id);
      }
    }
  }

  /** What a step records takes its own row's trace along. */
  lemma OwnEvents(ledger: seq<Event>, added: seq<Event>, row: Deliverable, changed: Deliverable, id: nat)
    requires RowAgrees(ledger, row, id)
    requires if added == [] then TraceOf(changed) == TraceOf(row)
             else |added| == 1 && added[0].deliverable == id && Follow(TraceOf(row), added[0]) == Some(TraceOf(changed))
    ensures RowAgrees(ledger + added, changed, id)
  {
    if added == [] {
      assert ledger + added == ledger;
    } else {
      assert added == [added[0]];
      EventsForAppend(ledger, added[0], id);
    }
  }

  lemma OtherEvents(ledger: seq<Event>, added: seq<Event>, row: Deliverable, id: nat)
    requires RowAgrees(ledger, row, id)
    requires |added| <= 1 && (added != [] ==> added[0].deliverable != id)
    ensures RowAgrees(ledger + added, row, id)
  {
    if added == [] {
      assert ledger + added == ledger;
    } else {
      assert added == [added[0]];
      EventElsewhere(ledger, added[0], row, id);
    }
  }

  lemma ChangeKeepsLog(hash: Digest, s: Archive, step: Step)
    requires LogAgrees(s) && Acts(hash, s, step) && !step.RegisterTemplate? && !step.DraftNew?
    ensures LogAgrees(Next(hash, s, step))
  {
    StepFollows(hash, s, step);
    var row, added := s.rows[step.id], Recorded(s.rows[step.id], step);
    var s' := Next(hash, s, step);
    forall id: nat | id < |s'.rows| ensures RowAgrees(s'.ledger, s'.rows[id], id) {
      if id == step.id {
        OwnEvents(s.ledger, added, row, Changed(row, step), id);
      } else {
        assert s'.rows[id] == s.rows[id];
        OtherEvents(s.ledger, added, s.rows[id], id);
      }
    }
  }

  /** In every run the ledger alone replays, in the allowed order, to the status of every row. */
  lemma {:induction false} LedgerReplaysToState(hash: Digest, steps: seq<Step>)
    ensures LogAgrees(Run(hash, steps))
  {
    if steps != [] {
      var before, last := Run(hash, steps[..|steps| - 1]), steps[|steps| - 1];
      LedgerReplaysToState(hash, steps[..|steps| - 1]);
      if Acts(hash, before, last) && !last.RegisterTemplate? {
        if last.DraftNew? { DraftKeepsLog(hash, before, last); } else { ChangeKeepsLog(hash, before, last); }
      }
    }
  }

  // ---------------------------------------------------------------------------
  // Nothing skipped, nothing twice
  // ---------------------------------------------------------------------------

  /** The four events that come before a delivery, in order, about one content. */
  ghost predicate ClearedForDelivery(events: seq<Event>, hash: Text, approver: Option<Text>) {
    && |events| == 4
    && events[0].what == WasDrafted(hash)
    && events[1].what == PassedQa
    && events[2].what == PassedScan
    && events[3].what == WasApproved(hash)
    && events[3].actor.human
    && approver == Some(events[3].actor.id)
  }

  lemma ReplayedDraft(events: seq<Event>)
    requires Replay(events).Some? && Replay(events).value.status == Draft
    ensures |events| == 1 && events[0].what == WasDrafted(Replay(events).value.contentHash)
  {
  }

  lemma ReplayedQa(events: seq<Event>)
    requires Replay(events).Some? && Replay(events).value.status == QaChecked
    ensures |events| == 2 && events[0].what == WasDrafted(Replay(events).value.contentHash)
      && events[1].what == PassedQa
  {
    ReplayedDraft(events[..|events| - 1]);
  }

  lemma ReplayedScan(events: seq<Event>)
    requires Replay(events).Some? && Replay(events).value.status == Scanned
    ensures |events| == 3 && events[2].what == PassedScan
    ensures events[0].what == WasDrafted(Replay(events).value.contentHash) && events[1].what == PassedQa
  {
    ReplayedQa(events[..|events| - 1]);
  }

  lemma ReplayedApproval(events: seq<Event>)
    requires Replay(events).Some? && Replay(events).value.status == Approved
    ensures ClearedForDelivery(events, Replay(events).value.contentHash, Replay(events).value.reviewedBy)
  {
    ReplayedScan(events[..|events| - 1]);
  }

  /**
   * In every run, the events of a deliverable before its delivery are exactly a draft, a passed QA
   * check, a clean scan and an approval by a human, the draft and the approval carrying the hash
   * that is delivered. So what was blocked or rejected before is not delivered.
   */
  lemma {:induction false} OnlyApprovedWorkIsDelivered(hash: Digest, steps: seq<Step>, k: nat)
    requires k < |Run(hash, steps).ledger| && Run(hash, steps).ledger[k].what.WasDelivered?
    ensures var ledger := Run(hash, steps).ledger;
      ClearedForDelivery(EventsFor(ledger[..k], ledger[k].deliverable), ledger[k].what.contentHash,
        ledger[k].what.approvedBy)
  {
    if steps != [] {
      var before, last := Run(hash, steps[..|steps| - 1]), steps[|steps| - 1];
      var ledger := Run(hash, steps).ledger;
      LedgerGrows(hash, before, last);
      if k < |before.ledger| {
        OnlyApprovedWorkIsDelivered(hash, steps[..|steps| - 1], k);
        assert ledger[..k] == before.ledger[..k] && ledger[k] == before.ledger[k];
      } else {
        assert ledger[..k] == before.ledger;
        LedgerReplaysToState(hash, steps[..|steps| - 1]);
        assert last.Deliver? && ledger[k].deliverable == last.id && before.rows[last.id].status == Approved;
        ReplayedApproval(EventsFor(before.ledger, last.id));
      }
    }
  }

  lemma LedgerGrows(hash: Digest, s: Archive, step: Step)
    ensures var ledger := Next(hash, s, step).ledger;
      |s.ledger| <= |ledger| <= |s.ledger| + 1 && ledger[..|s.ledger|] == s.ledger
  {
  }

  /** How far along an event is; a rejection is the end. */
  ghost function Rank(status: Status): nat {
    match status
    case Draft => 0
    case QaChecked => 1
    case Scanned => 2
    case AwaitingHuman => 3
    case Approved => 4
    case Delivered => 5
    case Blocked => 6
    case Rejected => 6
  }

  ghost function StatusAfter(e: Event): Status {
    match e.what
    case WasDrafted(_) => Draft
    case PassedQa => QaChecked
    case PassedScan => Scanned
    case WasBlocked => Blocked
    case WasApproved(_) => Approved
    case WasRejected(_) => Rejected
    case WasDelivered(_, _) => Delivered
  }

  /** A step that proceeds either is a rejection or moves its deliverable strictly forward. */
  lemma StepsMoveForward(hash: Digest, s: Archive, step: Step, id: nat)
    requires id < |s.rows|
    ensures id < |Next(hash, s, step).rows|
    ensures var row, row' := s.rows[id], Next(hash, s, step).rows[id];
      row'.status == row.status || (step.Reject? && row'.status == Rejected) || Rank(row'.status) > Rank(row.status)
    ensures var row, row' := s.rows[id], Next(hash, s, step).rows[id];
      row.status in {Blocked, Rejected, Delivered} ==> row'.status == row.status || row'.status == Rejected
  {
  }

  lemma {:induction false} LastIsReached(events: seq<Event>)
    requires Replay(events).Some?
    ensures Replay(events).value.status == StatusAfter(events[|events| - 1])
  {
  }

  lemma {:induction false} ReplayRises(events: seq<Event>, i: nat, j: nat)
    requires Replay(events).Some? && i < j < |events| && !events[j].what.WasRejected?
    ensures Rank(StatusAfter(events[i])) < Rank(StatusAfter(events[j]))
    decreases |events|
  {
    var n := |events| - 1;
    var before := events[..n];
    if j < n {
      ReplayRises(before, i, j);
    } else {
      LastIsReached(before);
      if i < n - 1 {
        assert Rank(Replay(before).value.status) < Rank(StatusAfter(events[n]));
        assert !before[n - 1].what.WasRejected?;
        ReplayRises(before, i, n - 1);
      }
    }
  }

  /** In every run, no event of a deliverable other than a rejection happens twice, or out of order. */
  lemma EventsHappenOnce(hash: Digest, steps: seq<Step>, id: nat, i: nat, j: nat)
    requires id < |Run(hash, steps).rows|
    requires i < j < |EventsFor(Run(hash, steps).ledger, id)|
    requires !EventsFor(Run(hash, steps).ledger, id)[j].what.WasRejected?
    ensures var events := EventsFor(Run(hash, steps).ledger, id);
      Rank(StatusAfter(events[i])) < Rank(StatusAfter(events[j]))
  {
    LedgerReplaysToState(hash, steps);
    assert RowAgrees(Run(hash, steps).ledger, Run(hash, steps).rows[id], id);
    ReplayRises(EventsFor(Run(hash, steps).ledger, id), i, j);
  }

  // ---------------------------------------------------------------------------
  // What is delivered is what was drafted
  // ---------------------------------------------------------------------------

  /** The documents drafted over a run, each at the position of its row. */
  function Drafts(hash: Digest, steps: seq<Step>): seq<Document> {
    if steps == [] then []
    else
      var before, last := steps[..|steps| - 1], steps[|steps| - 1];
      Drafts(hash, before)
      + if last.DraftNew? && Verdict(hash, Run(hash, before), last).Ok? then [last.document] else []
  }

  lemma HashesStay(hash: Digest, s: Archive, step: Step)
    ensures var rows := Next(hash, s, step).rows;
      |rows| == |s.rows| + (if step.DraftNew? && Verdict(hash, s, step).Ok? then 1 else 0)
      && (forall id :: 0 <= id < |s.rows| ==> rows[id].contentHash == s.rows[id].contentHash)
      && (|rows| > |s.rows| ==> rows[|s.rows|].contentHash == hash(step.document))
  {
  }

  lemma {:induction false} HashesAreOfTheDrafts(hash: Digest, steps: seq<Step>)
    ensures var rows := Run(hash, steps).rows;
      |Drafts(hash, steps)| == |rows|
      && forall id :: 0 <= id < |rows| ==> rows[id].contentHash == hash(Drafts(hash, steps)[id])
  {
    if steps != [] {
      HashesAreOfTheDrafts(hash, steps[..|steps| - 1]);
      var before, last := Run(hash, steps[..|steps| - 1]), steps[|steps| - 1];
      HashesStay(hash, before, last);
      var rows, drafts := Run(hash, steps).rows, Drafts(hash, steps[..|steps| - 1]);
      assert Drafts(hash, steps) == drafts + if |rows| > |before.rows| then [last.document] else [];
      forall id | 0 <= id < |rows| ensures rows[id].contentHash == hash(Drafts(hash, steps)[id]) {
        assert id < |before.rows| ==> rows[id].contentHash == before.rows[id].contentHash == hash(drafts[id]);
      }
    }
  }

  lemma DeliversTheDraftedHash(hash: Digest, steps: seq<Step>, id: nat, actor: EventActor)
    requires Verdict(hash, Run(hash, steps), Deliver(id, actor)).Ok?
    ensures id < |Run(hash, steps).rows| == |Drafts(hash, steps)|
    ensures hash(Run(hash, steps).rows[id].content) == hash(Drafts(hash, steps)[id])
  {
    HashesAreOfTheDrafts(hash, steps);
  }

  /**
   * Whatever edits happened on the way, a delivery that succeeds sends the drafted document, up to
   * what the canonical form ignores, unless SHA-256 maps two different texts to one hash.
   */
  lemma DeliversWhatWasDrafted(sha: Text -> Text, hash: Digest, steps: seq<Step>, id: nat, actor: EventActor)
    requires hash == HashContent(sha)
    requires Verdict(hash, Run(hash, steps), Deliver(id, actor)).Ok?
    ensures id < |Run(hash, steps).rows| == |Drafts(hash, steps)|
    ensures SameOrCollision(sha, Drafts(hash, steps)[id], Run(hash, steps).rows[id].content)
  {
    DeliversTheDraftedHash(hash, steps, id, actor);
    SameHash(sha, Drafts(hash, steps)[id], Run(hash, steps).rows[id].content);
  }

  ghost predicate SameOrCollision(sha: Text -> Text, drafted: Document, sent: Document) {
    var a, b := DocumentJson(drafted), DocumentJson(sent);
    && sha(Json.CanonicalJson(a)) == sha(Json.CanonicalJson(b))
    && (Json.WellFormed(a) && Json.WellFormed(b) ==>
          (Json.Equivalent(a, b) && (WellShaped(drafted) <==> WellShaped(sent)))
          || Json.CanonicalJson(a) != Json.CanonicalJson(b))
  }

  lemma SameHash(sha: Text -> Text, drafted: Document, sent: Document)
    requires HashContent(sha)(drafted) == HashContent(sha)(sent)
    ensures SameOrCollision(sha, drafted, sent)
  {
    var a, b := DocumentJson(drafted), DocumentJson(sent);
    if Json.WellFormed(a) && Json.WellFormed(b) { JsonReader.CanonicalJsonIsCanonical(a, b); }
    if Json.Equivalent(a, b) { EquivalentSameShape(drafted, sent); }
  }

  // ---------------------------------------------------------------------------
  // What is delivered is what was checked
  // ---------------------------------------------------------------------------

  /** Step `k` of the run is a QA check of this deliverable that passes. */
  ghost predicate QaPassedAt(hash: Digest, steps: seq<Step>, id: nat, k: nat) {
    && k < |steps| && steps[k].RunQaCheck? && steps[k].id == id
    && Verdict(hash, Run(hash, steps[..k]), steps[k]).Ok?
  }

  /** Step `k` of the run is a scan that clears this deliverable. */
  ghost predicate ScanPassedAt(hash: Digest, steps: seq<Step>, id: nat, k: nat) {
    && k < |steps| && steps[k].RunComplianceScan? && steps[k].id == id
    && Verdict(hash, Run(hash, steps[..k]), steps[k]).Ok?
  }

  /** The row as step `k` finds it. */
  function RowAt(hash: Digest, steps: seq<Step>, id: nat, k: nat): Option<Deliverable> {
    if k <= |steps| && id < |Run(hash, steps[..k]).rows| then Some(Run(hash, steps[..k]).rows[id]) else None
  }

  /** The content step `k` finds in the row still has the hash recorded for it. */
  predicate IntactAt(hash: Digest, steps: seq<Step>, id: nat, k: nat) {
    var row := RowAt(hash, steps, id, k);
    row.Some? && hash(row.value.content) == row.value.contentHash
  }

  lemma PassedEarlier(hash: Digest, steps: seq<Step>, id: nat, m: nat, k: nat)
    requires m <= |steps|
    ensures QaPassedAt(hash, steps[..m], id, k) ==> QaPassedAt(hash, steps, id, k)
    ensures ScanPassedAt(hash, steps[..m], id, k) ==> ScanPassedAt(hash, steps, id, k)
  {
    if k < m { assert steps[..m][..k] == steps[..k]; }
  }

  /** Only a QA check takes a row past its draft, and only a scan past QA, on the way to delivery. */
  lemma WhereItCameFrom(hash: Digest, s: Archive, step: Step, id: nat, rank: nat)
    requires id < |Next(hash, s, step).rows| && rank <= Rank(Next(hash, s, step).rows[id].status) <= 5
    requires || (rank == 1 && !(step.RunQaCheck? && step.id == id && Verdict(hash, s, step).Ok?))
             || (rank == 2 && !(step.RunComplianceScan? && step.id == id && Verdict(hash, s, step).Ok?))
    ensures id < |s.rows| && rank <= Rank(s.rows[id].status) <= 5
  {
  }

  lemma {:induction false} PassedQaBefore(hash: Digest, steps: seq<Step>, id: nat)
    requires id < |Run(hash, steps).rows| && 1 <= Rank(Run(hash, steps).rows[id].status) <= 5
    ensures exists q: nat :: QaPassedAt(hash, steps, id, q)
  {
    var m: nat := |steps| - 1;
    if !QaPassedAt(hash, steps, id, m) {
      WhereItCameFrom(hash, Run(hash, steps[..m]), steps[m], id, 1);
      PassedQaBefore(hash, steps[..m], id);
      var q: nat :| QaPassedAt(hash, steps[..m], id, q);
      PassedEarlier(hash, steps, id, m, q);
    }
  }

  lemma {:induction false} PassedBothBefore(hash: Digest, steps: seq<Step>, id: nat)
    requires id < |Run(hash, steps).rows| && 2 <= Rank(Run(hash, steps).rows[id].status) <= 5
    ensures exists q: nat, c: nat :: q < c && QaPassedAt(hash, steps, id, q) && ScanPassedAt(hash, steps, id, c)
  {
    var m: nat := |steps| - 1;
    if ScanPassedAt(hash, steps, id, m) {
      PassedQaBefore(hash, steps[..m], id);
      var q: nat :| QaPassedAt(hash, steps[..m], id, q);
      PassedEarlier(hash, steps, id, m, q);
    } else {
      WhereItCameFrom(hash, Run(hash, steps[..m]), steps[m], id, 2);
      PassedBothBefore(hash, steps[..m], id);
      var q: nat, c: nat :| q < c && QaPassedAt(hash, steps[..m], id, q) && ScanPassedAt(hash, steps[..m], id, c);
      PassedEarlier(hash, steps, id, m, q);
      PassedEarlier(hash, steps, id, m, c);
    }
  }

  lemma QaSaw(hash: Digest, steps: seq<Step>, id: nat, q: nat)
    requires QaPassedAt(hash, steps, id, q)
    ensures RowAt(hash, steps, id, q).Some? && WellShaped(RowAt(hash, steps, id, q).value.content)
  {
  }

  lemma ScanSaw(hash: Digest, steps: seq<Step>, id: nat, c: nat)
    requires ScanPassedAt(hash, steps, id, c)
    ensures RowAt(hash, steps, id, c).Some?
    ensures steps[c].scanner(RowAt(hash, steps, id, c).value.content) == Ok(false)
  {
  }

  lemma {:induction false} HashFromTheStart(hash: Digest, steps: seq<Step>, id: nat, k: nat)
    requires k <= |steps| && RowAt(hash, steps, id, k).Some?
    ensures id < |Run(hash, steps).rows|
    ensures RowAt(hash, steps, id, k).value.contentHash == Run(hash, steps).rows[id].contentHash
  {
    if k < |steps| {
      var before := steps[..|steps| - 1];
      assert before[..k] == steps[..k];
      HashFromTheStart(hash, before, id, k);
      HashesStay(hash, Run(hash, before), steps[|steps| - 1]);
    } else {
      assert steps[..k] == steps;
    }
  }

  /** Step `k` of the run is a QA check or a scan that this deliverable passes. */
  ghost predicate CheckedAt(hash: Digest, steps: seq<Step>, id: nat, k: nat) {
    QaPassedAt(hash, steps, id, k) || ScanPassedAt(hash, steps, id, k)
  }

  /** The content step `k` found in the row has this hash. */
  ghost predicate FoundHash(hash: Digest, steps: seq<Step>, id: nat, k: nat, contentHash: Text) {
    var row := RowAt(hash, steps, id, k);
    row.Some? && hash(row.value.content) == contentHash
  }

  lemma FoundWhenIntact(hash: Digest, steps: seq<Step>, id: nat, k: nat)
    requires id < |Run(hash, steps).rows| && CheckedAt(hash, steps, id, k)
    ensures FoundHash(hash, steps, id, k, Run(hash, steps).rows[id].contentHash) <==> IntactAt(hash, steps, id, k)
  {
    if QaPassedAt(hash, steps, id, k) { QaSaw(hash, steps, id, k); } else { ScanSaw(hash, steps, id, k); }
    HashFromTheStart(hash, steps, id, k);
  }

  /**
   * Before a delivery the row has passed QA and then a scan. What either of them looked at has the
   * hash of what is delivered if and only if the row was intact when it looked, which neither asks.
   */
  lemma DeliveredWasCheckedExactly(hash: Digest, steps: seq<Step>, id: nat, actor: EventActor)
    requires Verdict(hash, Run(hash, steps), Deliver(id, actor)).Ok?
    ensures exists q: nat, c: nat :: q < c && QaPassedAt(hash, steps, id, q) && ScanPassedAt(hash, steps, id, c)
    ensures forall k: nat :: CheckedAt(hash, steps, id, k) ==>
      (FoundHash(hash, steps, id, k, hash(Run(hash, steps).rows[id].content)) <==> IntactAt(hash, steps, id, k))
  {
    var row := Run(hash, steps).rows[id];
    assert hash(row.content) == row.contentHash && row.status == Approved;
    PassedBothBefore(hash, steps, id);
    forall k: nat | CheckedAt(hash, steps, id, k)
      ensures FoundHash(hash, steps, id, k, hash(row.content)) <==> IntactAt(hash, steps, id, k)
    {
      FoundWhenIntact(hash, steps, id, k);
    }
  }

  /** No step of the run edits this row from outside. */
  predicate Unedited(steps: seq<Step>, id: nat) {
    forall i :: 0 <= i < |steps| ==> !(steps[i].EditOutside? && steps[i].id == id)
  }

  lemma {:induction false} ContentFromTheStart(hash: Digest, steps: seq<Step>, id: nat, k: nat)
    requires Unedited(steps, id) && k <= |steps| && RowAt(hash, steps, id, k).Some?
    ensures id < |Run(hash, steps).rows|
    ensures RowAt(hash, steps, id, k).value.content == Run(hash, steps).rows[id].content
  {
    if k < |steps| {
      var before := steps[..|steps| - 1];
      assert before[..k] == steps[..k];
      ContentFromTheStart(hash, before, id, k);
    } else {
      assert steps[..k] == steps;
    }
  }

  /** In every run that does not edit a row from outside, what is delivered is well shaped and was cleared. */
  lemma UneditedWasChecked(hash: Digest, steps: seq<Step>, id: nat, actor: EventActor)
    requires Unedited(steps, id) && Verdict(hash, Run(hash, steps), Deliver(id, actor)).Ok?
    ensures var sent := Run(hash, steps).rows[id].content;
      && WellShaped(sent)
      && exists c: nat :: ScanPassedAt(hash, steps, id, c) && steps[c].scanner(sent) == Ok(false)
  {
    PassedBothBefore(hash, steps, id);
    var q: nat, c: nat :| q < c && QaPassedAt(hash, steps, id, q) && ScanPassedAt(hash, steps, id, c);
    QaSaw(hash, steps, id, q);
    ContentFromTheStart(hash, steps, id, q);
    ScanSaw(hash, steps, id, c);
    ContentFromTheStart(hash, steps, id, c);
  }

  /** Member order is all two documents of one canonical text differ in, and QA does not look at it. */
  lemma EquivalentSameShape(a: Document, b: Document)
    requires Json.Equivalent(DocumentJson(a), DocumentJson(b))
    ensures WellShaped(a) <==> WellShaped(b)
  {
    var ms, ns := DocumentJson(a).members, DocumentJson(b).members;
    forall i | 2 <= i < 6 ensures Json.Equivalent(ms[i].value, ns[i].value) { assert ms[i].key == ns[i].key; }
    assert ms[2].value == ns[2].value && ms[3].value == ns[3].value && ms[4].value == ns[4].value;
    SectionListsAlike(a.sections, b.sections, ms[5].value, ns[5].value);
  }

  lemma SectionListsAlike(xs: seq<Section>, ys: seq<Section>, v: Json.Value, w: Json.Value)
    requires v == Json.Arr(seq(|xs|, i requires 0 <= i < |xs| => SectionJson(xs[i])))
    requires w == Json.Arr(seq(|ys|, i requires 0 <= i < |ys| => SectionJson(ys[i])))
    requires Json.Equivalent(v, w)
    ensures |xs| == |ys|
    ensures forall i :: 0 <= i < |xs| ==> xs[i].heading == ys[i].heading && |xs[i].blocks| == |ys[i].blocks|
  {
    assert |xs| == |v.items| == |w.items| == |ys|;
    forall i | 0 <= i < |xs| ensures xs[i].heading == ys[i].heading && |xs[i].blocks| == |ys[i].blocks| {
      assert Json.Equivalent(v.items[i], w.items[i]);
      SectionsAlike(xs[i], ys[i]);
    }
  }

  lemma SectionsAlike(a: Section, b: Section)
    requires Json.Equivalent(SectionJson(a), SectionJson(b))
    ensures a.heading == b.heading && |a.blocks| == |b.blocks|
  {
    var ms, ns := SectionJson(a).members, SectionJson(b).members;
    assert ms[0].value == Json.Str(a.heading) && ms[1].value == Json.Arr(a.blocks);
    assert ns[0].value == Json.Str(b.heading) && ns[1].value == Json.Arr(b.blocks);
    forall i | 0 <= i < 2 ensures Json.Equivalent(ms[i].value, ns[i].value) { assert ms[i].key == ns[i].key; }
  }

  /** Whatever the edits, a delivery from a row that was intact at QA is well shaped, or SHA-256 has collided. */
  lemma IntactAtQaIsWellShaped(sha: Text -> Text, hash: Digest, steps: seq<Step>, id: nat, actor: EventActor, q: nat)
    requires hash == HashContent(sha) && Verdict(hash, Run(hash, steps), Deliver(id, actor)).Ok?
    requires QaPassedAt(hash, steps, id, q) && IntactAt(hash, steps, id, q)
    ensures var seen, sent := RowAt(hash, steps, id, q).value.content, Run(hash, steps).rows[id].content;
      WellShaped(seen) && SameOrCollision(sha, seen, sent)
  {
    var seen, sent := RowAt(hash, steps, id, q).value.content, Run(hash, steps).rows[id].content;
    HashFromTheStart(hash, steps, id, q);
    QaSaw(hash, steps, id, q);
    SameHash(sha, seen, sent);
  }

  /**
   * A run in which a document that neither QA nor the scan would pass reaches the client: it is
   * replaced from outside by one they do pass, and put back before it is approved.
   */
  lemma EditedAroundTheChecks(hash: Digest, bad: Document, good: Document, scanner: Scanner, actor: EventActor)
    requires !WellShaped(bad) && scanner(bad) == Ok(true)
    requires WellShaped(good) && scanner(good) == Ok(false) && actor.human
    ensures var drafting := [RegisterTemplate(bad.templateKey, bad.templateVersion), DraftNew([], Ok(()), bad, actor)];
      var checking := [EditOutside(0, good), RunQaCheck(0, actor), RunComplianceScan(0, actor, scanner)];
      var s := Run(hash, drafting + checking + [EditOutside(0, bad), Approve(0, actor)]);
      Verdict(hash, s, Deliver(0, actor)) == Ok(0) && s.rows[0].content == bad
  {
    var drafting := [RegisterTemplate(bad.templateKey, bad.templateVersion), DraftNew([], Ok(()), bad, actor)];
    var checking := [EditOutside(0, good), RunQaCheck(0, actor), RunComplianceScan(0, actor, scanner)];
    var row := Deliverable([], bad.templateKey, bad.templateVersion, 1, Draft, bad, hash(bad), None);
    FirstDraft(hash, bad, actor);
    ThreeSteps(hash, drafting, EditOutside(0, good), RunQaCheck(0, actor), RunComplianceScan(0, actor, scanner));
    ChecksPass(hash, Run(hash, drafting), row, good, actor, scanner);
    TwoSteps(hash, drafting + checking, EditOutside(0, bad), Approve(0, actor));
    var swapped := row.(status := Scanned, content := good);
    PutBackAndApproved(hash, Run(hash, drafting + checking), swapped, bad, actor);
  }

  lemma FirstDraft(hash: Digest, d: Document, actor: EventActor)
    ensures Run(hash, [RegisterTemplate(d.templateKey, d.templateVersion), DraftNew([], Ok(()), d, actor)]).rows
         == [Deliverable([], d.templateKey, d.templateVersion, 1, Draft, d, hash(d), None)]
  {
    var a, b := RegisterTemplate(d.templateKey, d.templateVersion), DraftNew([], Ok(()), d, actor);
    TwoSteps(hash, [], a, b);
    assert [] + [a, b] == [a, b];
  }

  lemma ChecksPass(hash: Digest, s: Archive, row: Deliverable, good: Document, actor: EventActor, scanner: Scanner)
    requires s.rows == [row] && row.status == Draft && WellShaped(good) && scanner(good) == Ok(false)
    ensures Next(hash, Next(hash, Next(hash, s, EditOutside(0, good)), RunQaCheck(0, actor)),
                 RunComplianceScan(0, actor, scanner)).rows == [row.(status := Scanned, content := good)]
  {
    var s1 := Next(hash, s, EditOutside(0, good));
    assert s1.rows == [row.(content := good)];
    var s2 := Next(hash, s1, RunQaCheck(0, actor));
    assert s2.rows == [row.(status := QaChecked, content := good)];
  }

  lemma PutBackAndApproved(hash: Digest, s: Archive, row: Deliverable, bad: Document, actor: EventActor)
    requires s.rows == [row] && row.status == Scanned && row.contentHash == hash(bad) && actor.human
    ensures var s' := Next(hash, Next(hash, s, EditOutside(0, bad)), Approve(0, actor));
      |s'.rows| == 1 && s'.rows[0].content == bad && Verdict(hash, s', Deliver(0, actor)) == Ok(0)
  {
    var s1 := Next(hash, s, EditOutside(0, bad));
    assert s1.rows == [row.(content := bad)];
  }

  lemma TwoSteps(hash: Digest, steps: seq<Step>, a: Step, b: Step)
    ensures Run(hash, steps + [a, b]) == Next(hash, Next(hash, Run(hash, steps), a), b)
  {
    assert steps + [a] + [b] == steps + [a, b];
  }

  lemma ThreeSteps(hash: Digest, steps: seq<Step>, a: Step, b: Step, c: Step)
    ensures Run(hash, steps + [a, b, c]) == Next(hash, Next(hash, Next(hash, Run(hash, steps), a), b), c)
  {
    TwoSteps(hash, steps, a, b);
    assert steps + [a, b] + [c] == steps + [a, b, c];
  }

  // ---------------------------------------------------------------------------
  // What an edit after approval does
  // ---------------------------------------------------------------------------

  function RunFrom(hash: Digest, s: Archive, steps: seq<Step>): Archive {
    if steps == [] then s else Next(hash, RunFrom(hash, s, steps[..|steps| - 1]), steps[|steps| - 1])
  }

  /** Approved once, with other content than the hash it was approved under; or rejected since. */
  ghost predicate Stopped(hash: Digest, s: Archive, id: nat) {
    && id < |s.rows|
    && hash(s.rows[id].content) != s.rows[id].contentHash
    && (s.rows[id].status == Approved || s.rows[id].status == Rejected)
  }

  lemma StoppedStays(hash: Digest, s: Archive, step: Step, id: nat)
    requires Stopped(hash, s, id) && !(step.EditOutside? && step.id == id)
    ensures Stopped(hash, Next(hash, s, step), id)
    ensures var ledger := Next(hash, s, step).ledger;
      |ledger| > |s.ledger| && ledger[|s.ledger|].deliverable == id && id < |s.rows| ==>
        !ledger[|s.ledger|].what.WasDelivered?
  {
    assert Verdict(hash, s, step).Ok? && step.Deliver? ==> step.id != id;
  }

  /**
   * An approved deliverable whose content was edited to another hash is not delivered in any run
   * that does not edit it again: it stays approved, and every delivery fails, or is rejected, and
   * every delivery is refused.
   */
  lemma {:induction false} EditStopsDelivery(hash: Digest, s: Archive, steps: seq<Step>, id: nat)
    requires Stopped(hash, s, id) && Unedited(steps, id)
    ensures var after := RunFrom(hash, s, steps);
      && Stopped(hash, after, id)
      && (forall actor :: Verdict(hash, after, Deliver(id, actor))
                          == if after.rows[id].status == Approved then Failed else Refused)
      && |s.ledger| <= |after.ledger|
      && (forall k :: |s.ledger| <= k < |after.ledger| && after.ledger[k].deliverable == id ==>
         !after.ledger[k].what.WasDelivered?)
  {
    if steps != [] {
      var before, last := steps[..|steps| - 1], steps[|steps| - 1];
      EditStopsDelivery(hash, s, before, id);
      StoppedStays(hash, RunFrom(hash, s, before), last, id);
      LedgerGrows(hash, RunFrom(hash, s, before), last);
    }
  }

  /** A scan that blocks answers a refusal, leaves the row blocked and leaves its mark in the ledger. */
  lemma BlockIsRecorded(hash: Digest, s: Archive, step: Step)
    requires step.RunComplianceScan? && step.id < |s.rows| && s.rows[step.id].status == QaChecked
    requires step.scanner(s.rows[step.id].content) == Ok(true)
    ensures Verdict(hash, s, step).Refused?
    ensures Next(hash, s, step)
         == s.(rows := s.rows[step.id := s.rows[step.id].(status := Blocked)],
               ledger := s.ledger + [Event(step.id, s.rows[step.id].version, step.actor, WasBlocked)])
  {
  }

  /**
   * A block is terminal: in every run from a blocked row it stays blocked or is rejected, it passes
   * no scan, is not approved and is not delivered, and every delivery of it is refused.
   */
  lemma {:induction false} BlockIsTerminal(hash: Digest, s: Archive, steps: seq<Step>, id: nat)
    requires id < |s.rows| && (s.rows[id].status == Blocked || s.rows[id].status == Rejected)
    ensures var after := RunFrom(hash, s, steps);
      && id < |after.rows| && (after.rows[id].status == Blocked || after.rows[id].status == Rejected)
      && (forall actor :: Verdict(hash, after, Deliver(id, actor)).Refused?)
      && |s.ledger| <= |after.ledger|
      && (forall k :: |s.ledger| <= k < |after.ledger| && after.ledger[k].deliverable == id ==>
            after.ledger[k].what.WasRejected?)
  {
    if steps != [] {
      var before, last := steps[..|steps| - 1], steps[|steps| - 1];
      BlockIsTerminal(hash, s, before, id);
      OnlyRejected(hash, RunFrom(hash, s, before), last, id);
      LedgerGrows(hash, RunFrom(hash, s, before), last);
    }
  }

  lemma OnlyRejected(hash: Digest, s: Archive, step: Step, id: nat)
    requires id < |s.rows| && (s.rows[id].status == Blocked || s.rows[id].status == Rejected)
    ensures var s' := Next(hash, s, step);
      && id < |s'.rows| && (s'.rows[id].status == Blocked || s'.rows[id].status == Rejected)
      && (|s'.ledger| > |s.ledger| && s'.ledger[|s.ledger|].deliverable == id ==>
            s'.ledger[|s.ledger|].what.WasRejected?)
  {
  }

  /** It can be delivered again exactly by editing it back to content with the approved hash. */
  lemma EditingBackExactly(hash: Digest, s: Archive, id: nat, content: Document, actor: EventActor)
    requires Stopped(hash, s, id) && s.rows[id].status == Approved
    ensures Verdict(hash, s, Deliver(id, actor)).Failed?
    ensures Verdict(hash, Next(hash, s, EditOutside(id, content)), Deliver(id, actor)).Ok?
       <==> hash(content) == s.rows[id].contentHash
  {
  }

  /** A date is four digits, two and two, with hyphens between them. */
  lemma DateForm(s: Text)
    ensures IsoDate(s) <==> exists year: Text, month: Text, day: Text ::
      AllDigits(year, 4) && AllDigits(month, 2) && AllDigits(day, 2) && s == year + [0x2D] + month + [0x2D] + day
  {
    if IsoDate(s) {
      assert s == s[..4] + [0x2D] + s[5..7] + [0x2D] + s[8..];
      assert AllDigits(s[..4], 4) && AllDigits(s[5..7], 2) && AllDigits(s[8..], 2);
    }
  }

  predicate AllDigits(s: Text, n: nat) { |s| == n && forall i :: 0 <= i < n ==> 0x30 <= s[i] <= 0x39 }

  /** Asking for a review of scanned work puts it before a human, once. */
  lemma ReviewIsAskedOnce(hash: Digest, s: Archive, id: nat)
    requires id < |s.rows| && s.rows[id].status == Scanned
    ensures var after := Next(hash, s, RequestHumanReview(id));
      && after == s.(rows := s.rows[id := s.rows[id].(status := AwaitingHuman)])
      && Verdict(hash, after, RequestHumanReview(id)).Refused?
  {
  }

  /** Well-shaped work that the scanner clears and a human approves is delivered, review asked for or not. */
  lemma CleanWorkIsDelivered(hash: Digest, s: Archive, clientId: Text, d: Document, scanner: Scanner, asked: bool,
      actor: EventActor)
    requires (d.templateKey, d.templateVersion) in s.templates && WellShaped(d) && scanner(d) == Ok(false)
    requires actor.human
    ensures var id := |s.rows|;
      var checked := RunFrom(hash, s, [DraftNew(clientId, Ok(()), d, actor), RunQaCheck(id, actor)]);
      var scanned := Next(hash, checked, RunComplianceScan(id, actor, scanner));
      var reviewed := if asked then Next(hash, scanned, RequestHumanReview(id)) else scanned;
      var approved := Next(hash, reviewed, Approve(id, actor));
      Verdict(hash, approved, Deliver(id, actor)) == Ok(id) && approved.rows[id].content == d
  {
    var id := |s.rows|;
    var draft, qa := DraftNew(clientId, Ok(()), d, actor), RunQaCheck(id, actor);
    assert [draft, qa][..1] == [draft] && [draft][..0] == [];
    var checked := Next(hash, Next(hash, s, draft), qa);
    assert RunFrom(hash, s, [draft]) == Next(hash, s, draft) && RunFrom(hash, s, [draft, qa]) == checked;
    CheckedWorkIsDelivered(hash, checked, id, scanner, asked, actor);
  }

  lemma CheckedWorkIsDelivered(hash: Digest, s: Archive, id: nat, scanner: Scanner, asked: bool, actor: EventActor)
    requires id < |s.rows| && s.rows[id].status == QaChecked && s.rows[id].contentHash == hash(s.rows[id].content)
    requires scanner(s.rows[id].content) == Ok(false) && actor.human
    ensures var scanned := Next(hash, s, RunComplianceScan(id, actor, scanner));
      var reviewed := if asked then Next(hash, scanned, RequestHumanReview(id)) else scanned;
      var approved := Next(hash, reviewed, Approve(id, actor));
      Verdict(hash, approved, Deliver(id, actor)) == Ok(id) && approved.rows[id].content == s.rows[id].content
  {
  }

  // ---------------------------------------------------------------------------
  // Versions
  // ---------------------------------------------------------------------------

  function CountOf(rows: seq<Deliverable>, clientId: Text, templateKey: Text): nat {
    if rows == [] then 0
    else
      var n := |rows| - 1;
      CountOf(rows[..n], clientId, templateKey)
      + if rows[n].clientId == clientId && rows[n].templateKey == templateKey then 1 else 0
  }

  ghost predicate Numbered(rows: seq<Deliverable>) {
    forall i :: 0 <= i < |rows| ==> rows[i].version == CountOf(rows[..i + 1], rows[i].clientId, rows[i].templateKey)
  }

  lemma {:induction false} LatestIsCount(rows: seq<Deliverable>, clientId: Text, templateKey: Text)
    requires Numbered(rows)
    ensures LatestVersion(rows, clientId, templateKey) == CountOf(rows, clientId, templateKey)
  {
    if rows != [] {
      var n := |rows| - 1;
      assert Numbered(rows[..n]) by {
        forall i | 0 <= i < n
          ensures rows[..n][i].version == CountOf(rows[..n][..i + 1], rows[i].clientId, rows[i].templateKey)
        {
          assert rows[..n][..i + 1] == rows[..i + 1];
        }
      }
      LatestIsCount(rows[..n], clientId, templateKey);
      assert rows[..n + 1] == rows;
    }
  }

  lemma {:induction false} CountUnchanged(rows: seq<Deliverable>, rows': seq<Deliverable>, clientId: Text,
      templateKey: Text)
    requires |rows| == |rows'|
    requires forall i :: 0 <= i < |rows| ==>
      rows[i].clientId == rows'[i].clientId && rows[i].templateKey == rows'[i].templateKey
    ensures CountOf(rows, clientId, templateKey) == CountOf(rows', clientId, templateKey)
  {
    if rows != [] { CountUnchanged(rows[..|rows| - 1], rows'[..|rows'| - 1], clientId, templateKey); }
  }

  lemma NumberedAfterChange(rows: seq<Deliverable>, rows': seq<Deliverable>)
    requires Numbered(rows) && |rows| == |rows'|
    requires forall i :: 0 <= i < |rows| ==>
      rows[i].clientId == rows'[i].clientId && rows[i].templateKey == rows'[i].templateKey
    requires forall i :: 0 <= i < |rows| ==> rows[i].version == rows'[i].version
    ensures Numbered(rows')
  {
    forall i | 0 <= i < |rows'|
      ensures rows'[i].version == CountOf(rows'[..i + 1], rows'[i].clientId, rows'[i].templateKey)
    {
      CountUnchanged(rows[..i + 1], rows'[..i + 1], rows'[i].clientId, rows'[i].templateKey);
    }
  }

  lemma NumberedAfterDraft(rows: seq<Deliverable>, row: Deliverable)
    requires Numbered(rows) && row.version == LatestVersion(rows, row.clientId, row.templateKey) + 1
    ensures Numbered(rows + [row])
  {
    var rows' := rows + [row];
    forall i | 0 <= i < |rows'|
      ensures rows'[i].version == CountOf(rows'[..i + 1], rows'[i].clientId, rows'[i].templateKey)
    {
      if i < |rows| {
        assert rows'[..i + 1] == rows[..i + 1];
      } else {
        LatestIsCount(rows, row.clientId, row.templateKey);
        assert rows'[..i + 1] == rows' && rows'[..i] == rows;
      }
    }
  }

  lemma StepKeepsNumbers(hash: Digest, s: Archive, step: Step)
    requires Numbered(s.rows)
    ensures Numbered(Next(hash, s, step).rows)
  {
    if step.DraftNew? && Verdict(hash, s, step).Ok? {
      NumberedAfterDraft(s.rows, NewRow(hash, s, step));
    } else {
      ChangesKeepKeys(hash, s, step);
      NumberedAfterChange(s.rows, Next(hash, s, step).rows);
    }
  }

  /** Only drafting decides whose version of what a row is. */
  lemma ChangesKeepKeys(hash: Digest, s: Archive, step: Step)
    requires !(step.DraftNew? && Verdict(hash, s, step).Ok?)
    ensures var rows' := Next(hash, s, step).rows;
      |rows'| == |s.rows|
      && forall i :: 0 <= i < |s.rows| ==>
           s.rows[i].clientId == rows'[i].clientId && s.rows[i].templateKey == rows'[i].templateKey
             && s.rows[i].version == rows'[i].version
  {
  }

  /** In every run a client's versions of a template are 1, 2, 3 and so on, in the order drafted. */
  lemma {:induction false} VersionsAreConsecutive(hash: Digest, steps: seq<Step>)
    ensures Numbered(Run(hash, steps).rows)
  {
    if steps != [] {
      VersionsAreConsecutive(hash, steps[..|steps| - 1]);
      StepKeepsNumbers(hash, Run(hash, steps[..|steps| - 1]), steps[|steps| - 1]);
    }
  }

  // ---------------------------------------------------------------------------
  // The operations
  // ---------------------------------------------------------------------------

  class Pipeline {
    const hash: Digest
    var templates: set<(Text, nat)>
    var rows: seq<Deliverable>
    var ledger: seq<Event>

    ghost function State(): Archive
      reads this
    {
      Archive(templates, rows, ledger)
    }

    constructor (hash: Digest)
      ensures State() == EMPTY_ARCHIVE && this.hash == hash
    {
      this.hash := hash;
      templates, rows, ledger := {}, [], [];
    }

    method RegisterTemplate(key: Text, version: nat)
      modifies this
      ensures State() == Next(hash, old(State()), Step.RegisterTemplate(key, version))
    {
      templates := templates + {(key, version)};
    }

    method DraftNew(clientId: Text, client: Outcome<()>, document: Document, actor: EventActor)
      returns (outcome: Outcome<nat>)
      modifies this
      ensures var step := Step.DraftNew(clientId, client, document, actor);
        outcome == Verdict(hash, old(State()), step) && State() == Next(hash, old(State()), step)
    {
      if !client.Ok? { return Forwarded(client); }
      if (document.templateKey, document.templateVersion) !in templates { return NoData; }
      var latest := LatestVersion(rows, clientId, document.templateKey);
      var hash := hash(document);
      var id := |rows|;
      var row :=
        Deliverable(clientId, document.templateKey, document.templateVersion, latest + 1, Draft, document, hash, None);
      rows := rows + [row];
      ledger := ledger + [Event(id, latest + 1, actor, WasDrafted(hash))];
      return Ok(id);
    }

    method RunQaCheck(id: nat, actor: EventActor) returns (outcome: Outcome<nat>)
      modifies this
      ensures var step := Step.RunQaCheck(id, actor);
        outcome == Verdict(hash, old(State()), step) && State() == Next(hash, old(State()), step)
    {
      if id >= |rows| { return NoData; }
      if rows[id].status != Draft { return Refused; }
      var issues := QaIssues(rows[id].content);
      if issues != [] { return Refused; }
      ledger := ledger + [Event(id, rows[id].version, actor, PassedQa)];
      rows := rows[id := rows[id].(status := QaChecked)];
      return Ok(id);
    }

    method RunComplianceScan(id: nat, actor: EventActor, scanner: Scanner) returns (outcome: Outcome<nat>)
      modifies this
      ensures var step := Step.RunComplianceScan(id, actor, scanner);
        outcome == Verdict(hash, old(State()), step) && State() == Next(hash, old(State()), step)
    {
      if id >= |rows| { return NoData; }
      if rows[id].status != QaChecked { return Refused; }
      var blocked := scanner(rows[id].content);
      if !blocked.Ok? { return Forwarded(blocked); }
      ledger := ledger + [Event(id, rows[id].version, actor, if blocked.value then WasBlocked else PassedScan)];
      rows := rows[id := rows[id].(status := if blocked.value then Blocked else Scanned)];
      return if blocked.value then Refused else Ok(id);
    }

    method RequestHumanReview(id: nat) returns (outcome: Outcome<nat>)
      modifies this
      ensures var step := Step.RequestHumanReview(id);
        outcome == Verdict(hash, old(State()), step) && State() == Next(hash, old(State()), step)
    {
      if id >= |rows| { return NoData; }
      if rows[id].status != Scanned { return Refused; }
      rows := rows[id := rows[id].(status := AwaitingHuman)];
      return Ok(id);
    }

    method Approve(id: nat, actor: EventActor) returns (outcome: Outcome<nat>)
      modifies this
      ensures var step := Step.Approve(id, actor);
        outcome == Verdict(hash, old(State()), step) && State() == Next(hash, old(State()), step)
    {
      if !actor.human { return Refused; }
      if id >= |rows| { return NoData; }
      if rows[id].status != AwaitingHuman && rows[id].status != Scanned { return Refused; }
      ledger := ledger + [Event(id, rows[id].version, actor, WasApproved(rows[id].contentHash))];
      rows := rows[id := rows[id].(status := Approved, reviewedBy := Some(actor.id))];
      return Ok(id);
    }

    method Reject(id: nat, reason: Text, actor: EventActor) returns (outcome: Outcome<nat>)
      modifies this
      ensures var step := Step.Reject(id, reason, actor);
        outcome == Verdict(hash, old(State()), step) && State() == Next(hash, old(State()), step)
    {
      if id >= |rows| { return NoData; }
      ledger := ledger + [Event(id, rows[id].version, actor, WasRejected(reason))];
      rows := rows[id := rows[id].(status := Rejected, reviewedBy := Some(actor.id))];
      return Ok(id);
    }

    method Deliver(id: nat, actor: EventActor) returns (outcome: Outcome<nat>)
      modifies this
      ensures var step := Step.Deliver(id, actor);
        outcome == Verdict(hash, old(State()), step) && State() == Next(hash, old(State()), step)
    {
      if id >= |rows| { return NoData; }
      if rows[id].status != Approved { return Refused; }
      if hash(rows[id].content) != rows[id].contentHash { return Failed; }
      ledger := ledger + [Event(id, rows[id].version, actor, WasDelivered(rows[id].contentHash, rows[id].reviewedBy))];
      rows := rows[id := rows[id].(status := Delivered)];
      return Ok(id);
    }
  }
}
