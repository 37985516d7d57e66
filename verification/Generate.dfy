/** Generating a contract from a reviewed template (packages/contracts/src/generate.ts). */
module Generate {
  import opened Common
  import opened Ordering
  import opened Placeholders
  import Templates
  import Clauses

  datatype Disclosure = Disclosure(key: Text, text: Text)

  datatype InsertedClause = InsertedClause(key: Text, text: Text, citation: Text)

  datatype ContractSection = ContractSection(
    heading: Text,
    body: Text,
    clauses: seq<InsertedClause>,
    disclosures: seq<Disclosure>)

  datatype Contract = Contract(
    templateKey: Text,
    templateVersion: nat,
    title: Text,
    state: Text,
    sections: seq<ContractSection>,
    clauseKeys: seq<Text>)

  datatype Request = Request(
    templateKey: Text,
    offerTier: Option<Text>,
    channel: Option<Text>,
    variables: map<Text, Text>)

  /** What the jurisdiction gate clears: the state and the disclosures it requires. */
  datatype Clearance = Clearance(state: Text, requiredDisclosures: seq<Disclosure>)

  /** What the compliance scanner finds in a text. */
  datatype Scan = Scan(blocked: bool, requiredDisclosures: seq<Text>)

  function WantedKeys(sections: seq<Templates.Section>): seq<Text> {
    if sections == [] then [] else sections[0].insertClauseKeys + WantedKeys(sections[1..])
  }

  function Find(clauses: seq<Clauses.Clause>, key: Text): Option<Clauses.Clause> {
    var i := Clauses.KeyIndex(clauses, key);
    if i.Some? then Some(clauses[i.value]) else None
  }

  function Insert(keys: seq<Text>, clauses: seq<Clauses.Clause>, variables: map<Text, Text>): seq<InsertedClause>
    requires forall key :: key in keys ==> Find(clauses, key).Some?
  {
    if keys == [] then []
    else
      var clause := Find(clauses, keys[0]).value;
      [InsertedClause(clause.key, Substitute(clause.text, variables), clause.citation)]
        + Insert(keys[1..], clauses, variables)
  }

  function Assemble(sections: seq<Templates.Section>, clauses: seq<Clauses.Clause>, clearance: Clearance,
      variables: map<Text, Text>): seq<ContractSection>
    requires forall key :: key in WantedKeys(sections) ==> Find(clauses, key).Some?
  {
    if sections == [] then []
    else
      var section := sections[0];
      [ContractSection(section.heading, Substitute(section.body, variables),
                       Insert(section.insertClauseKeys, clauses, variables),
                       if section.insertDisclosures then clearance.requiredDisclosures else [])]
      + Assemble(sections[1..], clauses, clearance, variables)
  }

  function SectionParts(section: ContractSection): seq<Text> {
    [section.heading, section.body]
    + seq(|section.clauses|, i requires 0 <= i < |section.clauses| => section.clauses[i].text)
    + seq(|section.disclosures|, i requires 0 <= i < |section.disclosures| => section.disclosures[i].text)
  }

  function Parts(title: Text, sections: seq<ContractSection>): seq<Text> {
    if sections == [] then [title]
    else Parts(title, sections[..|sections| - 1]) + SectionParts(sections[|sections| - 1])
  }

  /** Everything a human would read, flattened for the compliance scanner. */
  function ScannableContractText(title: Text, sections: seq<ContractSection>): Text {
    Join(Parts(title, sections))
  }

  predicate Attached(sections: seq<ContractSection>, key: Text) {
    exists i, j :: 0 <= i < |sections| && 0 <= j < |sections[i].disclosures| && sections[i].disclosures[j].key == key
  }

  /** Each named clause in its place, the one in force, with the text substituted. */
  ghost predicate FaithfulSection(section: ContractSection, from: Templates.Section, rows: seq<Clauses.Clause>,
      selector: Clauses.Selector, clearance: Clearance, request: Request) {
    && section.heading == from.heading
    && section.body == Substitute(from.body, request.variables)
    && section.disclosures == (if from.insertDisclosures then clearance.requiredDisclosures else [])
    && |section.clauses| == |from.insertClauseKeys|
    && forall j :: 0 <= j < |from.insertClauseKeys| ==>
         InForce(section.clauses[j], from.insertClauseKeys[j], rows, selector, request.variables)
  }

  ghost predicate InForce(inserted: InsertedClause, key: Text, rows: seq<Clauses.Clause>,
      selector: Clauses.Selector, variables: map<Text, Text>) {
    exists c :: Clauses.Chosen(rows, selector, c) && c.key == key
      && inserted == InsertedClause(key, Substitute(c.text, variables), c.citation)
  }

  function SelectorFor(state: Text, request: Request, wanted: seq<Text>): Clauses.Selector {
    Clauses.Selector(state, request.offerTier, request.channel, if wanted != [] then Some(wanted) else None)
  }

  /** A clause of a contract is in force for the request's own tier and channel, in its state. */
  lemma InsertedForTheRequest(inserted: InsertedClause, key: Text, rows: seq<Clauses.Clause>, state: Text,
      request: Request, wanted: seq<Text>)
    requires InForce(inserted, key, rows, SelectorFor(state, request, wanted), request.variables)
    ensures exists c: Clauses.Clause ::
      && c in rows && c.key == key && c.supersededAt.None?
      && inserted == InsertedClause(key, Substitute(c.text, request.variables), c.citation)
      && (c.jurisdiction == [0x2A] || c.jurisdiction == state)
      && (c.appliesToTiers != [] ==> request.offerTier.Some? && request.offerTier.value in c.appliesToTiers)
      && (c.appliesToChannels != [] ==> request.channel.Some? && request.channel.value in c.appliesToChannels)
  {
    var selector := SelectorFor(state, request, wanted);
    var c :| Clauses.Chosen(rows, selector, c) && c.key == key
      && inserted == InsertedClause(key, Substitute(c.text, request.variables), c.citation);
    Clauses.ChosenInItsScope(rows, selector, c);
  }

  lemma {:induction false} InsertedInForce(keys: seq<Text>, clauses: seq<Clauses.Clause>,
      rows: seq<Clauses.Clause>, selector: Clauses.Selector, variables: map<Text, Text>)
    requires forall key :: key in keys ==> Find(clauses, key).Some?
    requires forall c :: c in clauses ==> Clauses.Chosen(rows, selector, c)
    ensures |Insert(keys, clauses, variables)| == |keys|
    ensures forall j :: 0 <= j < |keys| ==>
      InForce(Insert(keys, clauses, variables)[j], keys[j], rows, selector, variables)
  {
    if keys != [] {
      InsertedInForce(keys[1..], clauses, rows, selector, variables);
      var clause := Find(clauses, keys[0]).value;
      assert clause in clauses && clause.key == keys[0];
    }
  }

  lemma {:induction false} AssembledFaithfully(sections: seq<Templates.Section>, clauses: seq<Clauses.Clause>,
      rows: seq<Clauses.Clause>, selector: Clauses.Selector, clearance: Clearance, request: Request)
    requires forall key :: key in WantedKeys(sections) ==> Find(clauses, key).Some?
    requires forall c :: c in clauses ==> Clauses.Chosen(rows, selector, c)
    ensures var assembled := Assemble(sections, clauses, clearance, request.variables);
      |assembled| == |sections|
      && forall i :: 0 <= i < |sections| ==>
         FaithfulSection(assembled[i], sections[i], rows, selector, clearance, request)
  {
    if sections != [] {
      AssembledFaithfully(sections[1..], clauses, rows, selector, clearance, request);
      InsertedInForce(sections[0].insertClauseKeys, clauses, rows, selector, request.variables);
    }
  }

  /** The template in use and the selector its clauses are chosen by. */
  ghost predicate MayGenerate(library: Templates.Library, rows: seq<Clauses.Clause>, clearance: Clearance,
      request: Request)
    requires Templates.Valid(library)
  {
    var current := Templates.CurrentIndex(library.rows, request.templateKey);
    && current.Some?
    && var template := library.rows[current.value];
       var wanted := WantedKeys(template.sections);
       && template.version <= Templates.Count(library.rows, request.templateKey)
       && Templates.CarriesReview(library, request.templateKey, template.version)
       && Resolved(rows, SelectorFor(clearance.state, request, wanted), wanted)
  }

  ghost predicate Resolved(rows: seq<Clauses.Clause>, selector: Clauses.Selector, wanted: seq<Text>) {
    forall key :: key in wanted ==> HasChosen(rows, selector, key)
  }

  /** Some clause of the key is in force for the selector. */
  ghost predicate HasChosen(rows: seq<Clauses.Clause>, selector: Clauses.Selector, key: Text) {
    exists c :: Clauses.Chosen(rows, selector, c) && c.key == key
  }

  /** The contract is what its template says, over the clauses in force. */
  ghost predicate Faithful(contract: Contract, library: Templates.Library, rows: seq<Clauses.Clause>,
      clearance: Clearance, request: Request) {
    var current := Templates.CurrentIndex(library.rows, request.templateKey);
    && current.Some?
    && var template := library.rows[current.value];
       var selector := SelectorFor(clearance.state, request, WantedKeys(template.sections));
       && contract.templateKey == template.key == request.templateKey
       && contract.templateVersion == template.version
       && contract.title == template.title
       && contract.state == clearance.state
       && FaithfulSections(contract.sections, template.sections, rows, selector, clearance, request)
       && (forall key :: key in contract.clauseKeys <==> HasChosen(rows, selector, key))
       && StrictlySorted(contract.clauseKeys, Itself)
  }

  ghost predicate FaithfulSections(sections: seq<ContractSection>, from: seq<Templates.Section>,
      rows: seq<Clauses.Clause>, selector: Clauses.Selector, clearance: Clearance, request: Request) {
    && |sections| == |from|
    && forall i :: 0 <= i < |from| ==> FaithfulSection(sections[i], from[i], rows, selector, clearance, request)
  }

  ghost predicate PassedScan(contract: Contract, scan: Outcome<Scan>) {
    && scan.Ok? && !scan.value.blocked
    && forall key :: key in scan.value.requiredDisclosures ==> Attached(contract.sections, key)
  }

  ghost predicate SomeContractPasses(library: Templates.Library, rows: seq<Clauses.Clause>, clearance: Clearance,
      request: Request, scanner: Text -> Outcome<Scan>) {
    exists contract :: Faithful(contract, library, rows, clearance, request)
      && PassedScan(contract, scanner(ScannableContractText(contract.title, contract.sections)))
  }

  /** The template in use, when counsel's review reaches it. */
  method ReviewedTemplate(library: Templates.Library, key: Text) returns (template: Outcome<Templates.Template>)
    requires Templates.Valid(library)
    ensures var current := Templates.CurrentIndex(library.rows, key);
      && (current.None? <==> template.NoData?)
      && (template.Ok? ==> current.Some? && template.value == library.rows[current.value])
      && (current.Some? ==>
            var version := library.rows[current.value].version;
            version <= Templates.Count(library.rows, key)
            && (template.Ok? <==> Templates.CarriesReview(library, key, version)))
  {
    var current := Templates.CurrentIndex(library.rows, key);
    if current.None? { return NoData; }
    var version := library.rows[current.value].version;
    Templates.CountPrefix(library.rows, current.value, key);
    Templates.GenerableCarriesReview(library, key, version);
    if !Templates.TemplateIsGenerable(library, key, version).generable { return Refused; }
    return Ok(library.rows[current.value]);
  }

  /** The clauses in force, when every key the template names is among them. */
  method ResolveClauses(rows: seq<Clauses.Clause>, selector: Clauses.Selector, wanted: seq<Text>)
      returns (clauses: Option<seq<Clauses.Clause>>)
    requires Clauses.OneLive(rows)
    ensures clauses.Some? <==> Resolved(rows, selector, wanted)
    ensures clauses.Some? ==> forall c :: c in clauses.value <==> Clauses.Chosen(rows, selector, c)
    ensures clauses.Some? ==> StrictlySorted(clauses.value, Clauses.KeyOf)
    ensures clauses.Some? ==> forall key :: key in wanted ==> Find(clauses.value, key).Some?
  {
    var applicable := Clauses.ApplicableClauses(rows, selector);
    forall key ensures Find(applicable, key).Some? <==> HasChosen(rows, selector, key) {
      FoundWhenChosen(applicable, rows, selector, key);
    }
    if exists key :: key in wanted && Find(applicable, key).None? { return None; }
    return Some(applicable);
  }

  lemma FoundWhenChosen(clauses: seq<Clauses.Clause>, rows: seq<Clauses.Clause>, selector: Clauses.Selector, key: Text)
    requires forall c :: c in clauses <==> Clauses.Chosen(rows, selector, c)
    ensures Find(clauses, key).Some? <==> HasChosen(rows, selector, key)
    ensures key in Keys(clauses, Clauses.KeyOf) <==> HasChosen(rows, selector, key)
  {
    var keys := Keys(clauses, Clauses.KeyOf);
    if key in keys {
      var i :| 0 <= i < |keys| && keys[i] == key;
      assert clauses[i] in clauses && clauses[i].key == key;
    }
    if HasChosen(rows, selector, key) {
      var c :| Clauses.Chosen(rows, selector, c) && c.key == key;
      assert c in clauses;
      var i :| 0 <= i < |clauses| && clauses[i] == c;
      assert keys[i] == key;
    }
    if Find(clauses, key).Some? { assert Find(clauses, key).value in clauses; }
  }

  /**
   * Generate and record. The one contract the current template and the clauses in force make is
   * recorded exactly when the gate clears, counsel's review reaches the template's version, every
   * clause it names is in force, and that contract passes the scanner with every disclosure its
   * language obliges in it.
   */
  method GenerateContract(
    gate: Outcome<Clearance>,
    library: Templates.Library,
    rows: seq<Clauses.Clause>,
    request: Request,
    scanner: Text -> Outcome<Scan>)
    returns (outcome: Outcome<Contract>)
    requires Templates.Valid(library) && Clauses.OneLive(rows)
    ensures !gate.Ok? ==> (outcome.NoData? <==> gate.NoData?) && (outcome.Refused? <==> gate.Refused?)
    ensures gate.Ok? ==> (Templates.CurrentIndex(library.rows, request.templateKey).None? ==> outcome.NoData?)
    ensures outcome.Ok? <==> gate.Ok? && MayGenerate(library, rows, gate.value, request)
                             && SomeContractPasses(library, rows, gate.value, request, scanner)
    ensures outcome.Ok? ==>
      && Faithful(outcome.value, library, rows, gate.value, request)
      && PassedScan(outcome.value, scanner(ScannableContractText(outcome.value.title, outcome.value.sections)))
  {
    if !gate.Ok? {
      return Forwarded(gate);
    }
    var clearance := gate.value;
    var reviewed := ReviewedTemplate(library, request.templateKey);
    if !reviewed.Ok? { return Forwarded(reviewed); }
    var template := reviewed.value;

    var wanted := WantedKeys(template.sections);
    var selector := SelectorFor(clearance.state, request, wanted);
    var resolved := ResolveClauses(rows, selector, wanted);
    if resolved.None? { return Refused; }
    var clauses := resolved.value;

    var sections := Assemble(template.sections, clauses, clearance, request.variables);
    var clauseKeys := Keys(clauses, Clauses.KeyOf);
    var contract := Contract(template.key, template.version, template.title, clearance.state, sections, clauseKeys);
    AssembledFaithfully(template.sections, clauses, rows, selector, clearance, request);
    forall key ensures key in clauseKeys <==> HasChosen(rows, selector, key) {
      FoundWhenChosen(clauses, rows, selector, key);
    }
    ghost var passes := PassedScan(contract, scanner(ScannableContractText(contract.title, contract.sections)));
    assert SomeContractPasses(library, rows, clearance, request, scanner) <==> passes by {
      OnlyThisPasses(contract, library, rows, clearance, request, scanner);
    }

    var scan := scanner(ScannableContractText(template.title, sections));
    if !scan.Ok? { return Forwarded(scan); }
    if scan.value.blocked { return Refused; }
    if exists key :: key in scan.value.requiredDisclosures && !Attached(sections, key) { return Refused; }
    return Ok(contract);
  }

  /** A disclosure is attached when the state requires it and some section of the template takes disclosures in. */
  lemma AttachedExactly(contract: Contract, library: Templates.Library, rows: seq<Clauses.Clause>,
      clearance: Clearance, request: Request, key: Text)
    requires Faithful(contract, library, rows, clearance, request)
    ensures Attached(contract.sections, key) <==>
      && (exists d :: d in clearance.requiredDisclosures && d.key == key)
      && var template := library.rows[Templates.CurrentIndex(library.rows, request.templateKey).value];
         exists section :: section in template.sections && section.insertDisclosures
  {
    var from := library.rows[Templates.CurrentIndex(library.rows, request.templateKey).value].sections;
    var selector := SelectorFor(clearance.state, request, WantedKeys(from));
    forall i | 0 <= i < |from|
      ensures contract.sections[i].disclosures
           == if from[i].insertDisclosures then clearance.requiredDisclosures else []
    {
      assert FaithfulSection(contract.sections[i], from[i], rows, selector, clearance, request);
    }
    if d, section :|
      d in clearance.requiredDisclosures && d.key == key && section in from && section.insertDisclosures
    {
      var i :| 0 <= i < |from| && from[i] == section;
      var j :| 0 <= j < |clearance.requiredDisclosures| && clearance.requiredDisclosures[j] == d;
      assert contract.sections[i].disclosures[j].key == key;
    }
  }

  /** The inputs leave one contract. */
  lemma OneContract(c: Contract, d: Contract, library: Templates.Library, rows: seq<Clauses.Clause>,
      clearance: Clearance, request: Request)
    requires Clauses.OneLive(rows)
    requires Faithful(c, library, rows, clearance, request) && Faithful(d, library, rows, clearance, request)
    ensures c == d
  {
    var template := library.rows[Templates.CurrentIndex(library.rows, request.templateKey).value];
    var selector := SelectorFor(clearance.state, request, WantedKeys(template.sections));
    forall i | 0 <= i < |template.sections| ensures c.sections[i] == d.sections[i] {
      OneSection(c.sections[i], d.sections[i], template.sections[i], rows, selector, clearance, request);
    }
    SameKeys(c.clauseKeys, d.clauseKeys);
  }

  lemma SameKeys(keys: seq<Text>, keys': seq<Text>)
    requires StrictlySorted(keys, Itself) && StrictlySorted(keys', Itself)
    requires forall key :: key in keys <==> key in keys'
    ensures keys == keys'
  {
    assert Keys(keys, Itself) == keys && Keys(keys', Itself) == keys';
    SortedUnique(keys, keys', Itself);
  }

  lemma OneSection(u: ContractSection, v: ContractSection, from: Templates.Section, rows: seq<Clauses.Clause>,
      selector: Clauses.Selector, clearance: Clearance, request: Request)
    requires Clauses.OneLive(rows)
    requires FaithfulSection(u, from, rows, selector, clearance, request)
    requires FaithfulSection(v, from, rows, selector, clearance, request)
    ensures u == v
  {
    forall j | 0 <= j < |from.insertClauseKeys| ensures u.clauses[j] == v.clauses[j] {
      var key := from.insertClauseKeys[j];
      var c :| Clauses.Chosen(rows, selector, c) && c.key == key
        && u.clauses[j] == InsertedClause(key, Substitute(c.text, request.variables), c.citation);
      var d :| Clauses.Chosen(rows, selector, d) && d.key == key
        && v.clauses[j] == InsertedClause(key, Substitute(d.text, request.variables), d.citation);
      Clauses.OneChosen(rows, selector, c, d);
    }
    assert u.clauses == v.clauses;
  }

  lemma OnlyThisPasses(contract: Contract, library: Templates.Library, rows: seq<Clauses.Clause>,
      clearance: Clearance, request: Request, scanner: Text -> Outcome<Scan>)
    requires Clauses.OneLive(rows) && Faithful(contract, library, rows, clearance, request)
    ensures SomeContractPasses(library, rows, clearance, request, scanner)
       <==> PassedScan(contract, scanner(ScannableContractText(contract.title, contract.sections)))
  {
    forall other | Faithful(other, library, rows, clearance, request) ensures other == contract {
      OneContract(other, contract, library, rows, clearance, request);
    }
  }

  predicate Inserts(sections: seq<ContractSection>, key: Text) {
    exists i, j :: 0 <= i < |sections| && 0 <= j < |sections[i].clauses| && sections[i].clauses[j].key == key
  }

  /**
   * The recorded clause keys are meant to be the clauses in the document. They are exactly when the
   * template names a clause or none applies: naming none selects every applicable clause, records
   * their keys, and inserts none of them.
   */
  lemma ClauseKeysAreTheInsertedClauses(contract: Contract, library: Templates.Library,
      rows: seq<Clauses.Clause>, clearance: Clearance, request: Request)
    requires Templates.Valid(library)
    requires MayGenerate(library, rows, clearance, request) && Faithful(contract, library, rows, clearance, request)
    ensures var wanted :=
      WantedKeys(library.rows[Templates.CurrentIndex(library.rows, request.templateKey).value].sections);
      (forall key :: key in contract.clauseKeys <==> Inserts(contract.sections, key))
      <==> (wanted != []
            || !exists c :: Clauses.Candidate(SelectorFor(clearance.state, request, wanted), c) && c in rows)
  {
    var template := library.rows[Templates.CurrentIndex(library.rows, request.templateKey).value];
    var wanted := WantedKeys(template.sections);
    var selector := SelectorFor(clearance.state, request, wanted);
    forall key ensures Inserts(contract.sections, key) <==> key in wanted {
      InsertedKeys(contract.sections, template.sections, rows, selector, clearance, request, key);
    }
    if wanted != [] {
      forall key ensures key in contract.clauseKeys <==> key in wanted {}
    } else {
      if c :| Clauses.Candidate(selector, c) && c in rows {
        assert c.key in contract.clauseKeys;
        assert !Inserts(contract.sections, c.key);
      }
      if key :| key in contract.clauseKeys {
        var c :| Clauses.Chosen(rows, selector, c) && c.key == key;
        assert Clauses.Candidate(selector, c) && c in rows;
      }
    }
  }

  lemma WantedIn(sections: seq<Templates.Section>, key: Text)
    ensures key in WantedKeys(sections) <==> exists i :: 0 <= i < |sections| && key in sections[i].insertClauseKeys
  {
    if sections != [] {
      var rest := sections[1..];
      WantedIn(rest, key);
      if i :| 0 <= i < |rest| && key in rest[i].insertClauseKeys {
        assert key in sections[i + 1].insertClauseKeys;
      }
      if i :| 0 < i < |sections| && key in sections[i].insertClauseKeys {
        assert key in rest[i - 1].insertClauseKeys;
      }
    }
  }

  lemma InsertedKeys(sections: seq<ContractSection>, from: seq<Templates.Section>, rows: seq<Clauses.Clause>,
      selector: Clauses.Selector, clearance: Clearance, request: Request, key: Text)
    requires FaithfulSections(sections, from, rows, selector, clearance, request)
    ensures Inserts(sections, key) <==> key in WantedKeys(from)
  {
    WantedIn(from, key);
    if Inserts(sections, key) {
      var i, j :| 0 <= i < |sections| && 0 <= j < |sections[i].clauses| && sections[i].clauses[j].key == key;
      assert FaithfulSection(sections[i], from[i], rows, selector, clearance, request);
      assert InForce(sections[i].clauses[j], from[i].insertClauseKeys[j], rows, selector, request.variables);
    }
    if i :| 0 <= i < |from| && key in from[i].insertClauseKeys {
      assert FaithfulSection(sections[i], from[i], rows, selector, clearance, request);
      var j :| 0 <= j < |from[i].insertClauseKeys| && from[i].insertClauseKeys[j] == key;
      assert InForce(sections[i].clauses[j], from[i].insertClauseKeys[j], rows, selector, request.variables);
    }
  }

  /** A template naming no clause, and one clause for everyone: its key is recorded, its text is nowhere. */
  lemma RecordedButNotInserted(key: Text, review: Templates.Review)
    ensures var library := Templates.Library(
          [Templates.Template(key, 1, [], [Templates.Section([], [], [], false)], Templates.Material, None)],
          map[(key, 1) := review]);
      var rows := [Clauses.Clause(key, 1, [], [], Clauses.ALL_JURISDICTIONS, [], [], None)];
      var contract := Contract(key, 1, [], [], [ContractSection([], [], [], [])], [key]);
      && Templates.Valid(library) && Clauses.OneLive(rows)
      && MayGenerate(library, rows, Clearance([], []), Request(key, None, None, map[]))
      && Faithful(contract, library, rows, Clearance([], []), Request(key, None, None, map[]))
      && !Inserts(contract.sections, key)
  {
    var sections := [Templates.Section([], [], [], false)];
    var row := Templates.Template(key, 1, [], sections, Templates.Material, None);
    assert [row][..0] == [] && Templates.Count([row], key) == 1;
    assert sections[1..] == [] && WantedKeys(sections) == [];
    var clause := Clauses.Clause(key, 1, [], [], Clauses.ALL_JURISDICTIONS, [], [], None);
    var selector := Clauses.Selector([], None, None, None);
    assert clause in [clause] && Clauses.Chosen([clause], selector, clause);
  }

  // ---------------------------------------------------------------------------
  // What is left to fill in
  // ---------------------------------------------------------------------------

  /** The placeholder stands where nothing is substituted: the title, a heading or a disclosure. */
  ghost predicate InFixedText(section: Templates.Section, clearance: Clearance, name: Text) {
    || HasPlaceholder(section.heading, name)
    || (section.insertDisclosures
        && exists d :: d in clearance.requiredDisclosures && HasPlaceholder(d.text, name))
  }

  /** The placeholder stands in the body or in a clause the section inserts. */
  ghost predicate InSource(section: Templates.Section, rows: seq<Clauses.Clause>, selector: Clauses.Selector,
      name: Text) {
    || HasPlaceholder(section.body, name)
    || exists c ::
         Clauses.Chosen(rows, selector, c) && c.key in section.insertClauseKeys && HasPlaceholder(c.text, name)
  }

  ghost predicate LeftIn(section: Templates.Section, rows: seq<Clauses.Clause>, selector: Clauses.Selector,
      clearance: Clearance, request: Request, name: Text) {
    || InFixedText(section, clearance, name)
    || (name !in request.variables && InSource(section, rows, selector, name))
  }

  /** Every brace of what is substituted is part of a placeholder, and no value has one. */
  ghost predicate CleanSources(sections: seq<Templates.Section>, rows: seq<Clauses.Clause>, selector: Clauses.Selector,
      variables: map<Text, Text>) {
    && (forall i :: 0 <= i < |sections| ==> CleanTemplate(sections[i].body))
    && (forall c :: Clauses.Chosen(rows, selector, c) ==> CleanTemplate(c.text))
    && BraceFreeValues(variables)
  }

  /**
   * A contract from clean texts still carries exactly the placeholders no value was supplied for in
   * its bodies and clauses, and those of its title, headings and disclosures, which are not filled in.
   */
  lemma UnresolvedInContract(contract: Contract, library: Templates.Library, rows: seq<Clauses.Clause>,
      clearance: Clearance, request: Request, name: Text)
    requires Clauses.OneLive(rows) && Faithful(contract, library, rows, clearance, request)
    requires var sections := library.rows[Templates.CurrentIndex(library.rows, request.templateKey).value].sections;
      CleanSources(sections, rows, SelectorFor(clearance.state, request, WantedKeys(sections)), request.variables)
    ensures var template := library.rows[Templates.CurrentIndex(library.rows, request.templateKey).value];
      var selector := SelectorFor(clearance.state, request, WantedKeys(template.sections));
      HasPlaceholder(ScannableContractText(contract.title, contract.sections), name)
      <==> HasPlaceholder(template.title, name)
           || exists i :: 0 <= i < |template.sections|
                && LeftIn(template.sections[i], rows, selector, clearance, request, name)
  {
    var template := library.rows[Templates.CurrentIndex(library.rows, request.templateKey).value];
    var selector := SelectorFor(clearance.state, request, WantedKeys(template.sections));
    var sections := contract.sections;
    JoinedPlaceholders(Parts(contract.title, sections), name);
    InSomePart(contract.title, sections, name);
    forall i | 0 <= i < |sections|
      ensures InSome(SectionParts(sections[i]), name)
         <==> LeftIn(template.sections[i], rows, selector, clearance, request, name)
    {
      LeftInSection(sections[i], template.sections[i], rows, selector, clearance, request, name);
    }
  }

  lemma {:induction false} InSomePart(title: Text, sections: seq<ContractSection>, name: Text)
    ensures InSome(Parts(title, sections), name)
       <==> HasPlaceholder(title, name)
            || exists i :: 0 <= i < |sections| && InSome(SectionParts(sections[i]), name)
  {
    if sections == [] {
      assert Parts(title, sections)[0] == title;
    } else {
      var n := |sections| - 1;
      InSomePart(title, sections[..n], name);
      InSomeConcat(Parts(title, sections[..n]), SectionParts(sections[n]), name);
      assert forall i :: 0 <= i < n ==> sections[..n][i] == sections[i];
    }
  }

  lemma InSomeConcat(parts: seq<Text>, more: seq<Text>, name: Text)
    ensures InSome(parts + more, name) <==> InSome(parts, name) || InSome(more, name)
  {
    var all := parts + more;
    if i :| 0 <= i < |all| && HasPlaceholder(all[i], name) {
      assert if i < |parts| then all[i] == parts[i] else all[i] == more[i - |parts|];
    }
    if i :| 0 <= i < |parts| && HasPlaceholder(parts[i], name) { assert all[i] == parts[i]; }
    if i :| 0 <= i < |more| && HasPlaceholder(more[i], name) { assert all[|parts| + i] == more[i]; }
  }

  lemma PartsOfSection(section: ContractSection, name: Text)
    ensures InSome(SectionParts(section), name)
       <==> || HasPlaceholder(section.heading, name)
            || HasPlaceholder(section.body, name)
            || (exists j :: 0 <= j < |section.clauses| && HasPlaceholder(section.clauses[j].text, name))
            || (exists j :: 0 <= j < |section.disclosures| && HasPlaceholder(section.disclosures[j].text, name))
  {
    var texts := seq(|section.clauses|, i requires 0 <= i < |section.clauses| => section.clauses[i].text);
    var notices := seq(|section.disclosures|, i requires 0 <= i < |section.disclosures| => section.disclosures[i].text);
    InSomeConcat([section.heading, section.body] + texts, notices, name);
    InSomeConcat([section.heading, section.body], texts, name);
    InSomeConcat([section.heading], [section.body], name);
    assert [section.heading] + [section.body] == [section.heading, section.body];
    assert forall text: Text {:trigger [text]} :: InSome([text], name) <==> HasPlaceholder([text][0], name);
    forall j | 0 <= j < |section.clauses| ensures texts[j] == section.clauses[j].text {}
    forall j | 0 <= j < |section.disclosures| ensures notices[j] == section.disclosures[j].text {}
    if j :| 0 <= j < |section.clauses| && HasPlaceholder(section.clauses[j].text, name) {
      assert HasPlaceholder(texts[j], name);
    }
    if j :| 0 <= j < |section.disclosures| && HasPlaceholder(section.disclosures[j].text, name) {
      assert HasPlaceholder(notices[j], name);
    }
  }

  lemma LeftInSection(section: ContractSection, from: Templates.Section, rows: seq<Clauses.Clause>,
      selector: Clauses.Selector, clearance: Clearance, request: Request, name: Text)
    requires Clauses.OneLive(rows)
    requires FaithfulSection(section, from, rows, selector, clearance, request)
    requires CleanSources([from], rows, selector, request.variables)
    ensures InSome(SectionParts(section), name) <==> LeftIn(from, rows, selector, clearance, request, name)
  {
    PartsOfSection(section, name);
    assert CleanTemplate([from][0].body);
    SubstituteLeavesTheUnsupplied(from.body, request.variables);
    LeftInClauses(section, from, rows, selector, clearance, request, name);
    if from.insertDisclosures {
      assert section.disclosures == clearance.requiredDisclosures;
      assert (exists j :: 0 <= j < |section.disclosures| && HasPlaceholder(section.disclosures[j].text, name))
        <==> exists d :: d in clearance.requiredDisclosures && HasPlaceholder(d.text, name);
    }
  }

  lemma LeftInClauses(section: ContractSection, from: Templates.Section, rows: seq<Clauses.Clause>,
      selector: Clauses.Selector, clearance: Clearance, request: Request, name: Text)
    requires Clauses.OneLive(rows)
    requires FaithfulSection(section, from, rows, selector, clearance, request)
    requires CleanSources([from], rows, selector, request.variables)
    ensures (exists j :: 0 <= j < |section.clauses| && HasPlaceholder(section.clauses[j].text, name))
       <==> name !in request.variables
            && exists c ::
                 Clauses.Chosen(rows, selector, c) && c.key in from.insertClauseKeys && HasPlaceholder(c.text, name)
  {
    forall c | Clauses.Chosen(rows, selector, c)
      ensures HasPlaceholder(Substitute(c.text, request.variables), name)
         <==> HasPlaceholder(c.text, name) && name !in request.variables
    {
      SubstituteLeavesTheUnsupplied(c.text, request.variables);
    }
    if j :| 0 <= j < |section.clauses| && HasPlaceholder(section.clauses[j].text, name) {
      assert InForce(section.clauses[j], from.insertClauseKeys[j], rows, selector, request.variables);
    }
    if c :| Clauses.Chosen(rows, selector, c) && c.key in from.insertClauseKeys && HasPlaceholder(c.text, name) {
      if name !in request.variables {
        var j :| 0 <= j < |from.insertClauseKeys| && from.insertClauseKeys[j] == c.key;
        assert InForce(section.clauses[j], c.key, rows, selector, request.variables);
        var d :| Clauses.Chosen(rows, selector, d) && d.key == c.key
          && section.clauses[j] == InsertedClause(c.key, Substitute(d.text, request.variables), d.citation);
        Clauses.OneChosen(rows, selector, c, d);
      }
    }
  }
}
