/** The jurisdiction-aware clause library (packages/contracts/src/clauses.ts). */
module Clauses {
  import opened Common
  import opened Ordering

  /** `*`, for a clause that applies in every jurisdiction. */
  const ALL_JURISDICTIONS: Text := [0x2A]

  datatype Clause = Clause(
    key: Text,
    version: nat,
    text: Text,
    citation: Text,
    jurisdiction: Text,
    appliesToTiers: seq<Text>,
    appliesToChannels: seq<Text>,
    supersededAt: Option<Instant>)

  function KeyOf(c: Clause): Text { c.key }

  // ---------------------------------------------------------------------------
  // Publishing
  // ---------------------------------------------------------------------------

  datatype Publication = Publication(
    key: Text,
    text: Text,
    citation: Text,
    jurisdiction: Option<Text>,
    appliesToTiers: seq<Text>,
    appliesToChannels: seq<Text>,
    now: Instant)

  predicate LiveAt(c: Clause, key: Text, jurisdiction: Text) {
    c.key == key && c.jurisdiction == jurisdiction && c.supersededAt.None?
  }

  /** The live row of the key and jurisdiction with the highest version. */
  function CurrentIndex(rows: seq<Clause>, key: Text, jurisdiction: Text): (r: Option<nat>)
    ensures r.Some? ==> r.value < |rows| && LiveAt(rows[r.value], key, jurisdiction)
    ensures r.None? ==> forall i :: 0 <= i < |rows| ==> !LiveAt(rows[i], key, jurisdiction)
  {
    if rows == [] then None
    else
      var n := |rows| - 1;
      var rest := CurrentIndex(rows[..n], key, jurisdiction);
      if LiveAt(rows[n], key, jurisdiction) && (rest.None? || rows[n].version > rows[rest.value].version)
      then Some(n) else rest
  }

  function Published(rows: seq<Clause>, p: Publication): Outcome<seq<Clause>> {
    if Blank(p.text) || Blank(p.citation) then Refused
    else
      var jurisdiction := if p.jurisdiction.Some? then p.jurisdiction.value else ALL_JURISDICTIONS;
      var current := CurrentIndex(rows, p.key, jurisdiction);
      var version := if current.Some? then rows[current.value].version + 1 else 1;
      var row := Clause(p.key, version, p.text, p.citation, jurisdiction, p.appliesToTiers, p.appliesToChannels, None);
      Ok((if current.Some? then rows[current.value := rows[current.value].(supersededAt := Some(p.now))] else rows)
        + [row])
  }

  /** Published as asked for, over the live row of its key and jurisdiction, which it supersedes. */
  lemma PublishedAsRequested(rows: seq<Clause>, p: Publication)
    ensures Published(rows, p).Ok? <==> !Blank(p.text) && !Blank(p.citation)
    ensures !Published(rows, p).Ok? ==> Published(rows, p).Refused?
    ensures Published(rows, p).Ok? ==>
      var jurisdiction := if p.jurisdiction.Some? then p.jurisdiction.value else [0x2A];
      var current, rows' := CurrentIndex(rows, p.key, jurisdiction), Published(rows, p).value;
      && |rows'| == |rows| + 1
      && rows'[|rows|] == Clause(p.key, if current.Some? then rows[current.value].version + 1 else 1, p.text,
                                 p.citation, jurisdiction, p.appliesToTiers, p.appliesToChannels, None)
      && forall i :: 0 <= i < |rows| ==>
           rows'[i] == if current == Some(i) then rows[i].(supersededAt := Some(p.now)) else rows[i]
    ensures Published(rows, p).Ok? && OneLive(rows) ==>
      var jurisdiction := if p.jurisdiction.Some? then p.jurisdiction.value else [0x2A];
      forall i :: 0 <= i < |rows| ==>
        Published(rows, p).value[i]
        == if rows[i].key == p.key && rows[i].jurisdiction == jurisdiction && rows[i].supersededAt.None?
           then rows[i].(supersededAt := Some(p.now)) else rows[i]
  {
  }

  /** The first publication of a clause is its version 1, in force. */
  lemma FirstPublication(p: Publication)
    requires !Blank(p.text) && !Blank(p.citation) && p.jurisdiction.Some?
    ensures PublishAll([p])
         == [Clause(p.key, 1, p.text, p.citation, p.jurisdiction.value, p.appliesToTiers, p.appliesToChannels, None)]
  {
    assert [p][..0] == [];
  }

  function PublishAll(publications: seq<Publication>): seq<Clause> {
    if publications == [] then []
    else
      var before := PublishAll(publications[..|publications| - 1]);
      var after := Published(before, publications[|publications| - 1]);
      if after.Ok? then after.value else before
  }

  /** At most one live clause per key and jurisdiction. */
  ghost predicate OneLive(rows: seq<Clause>) {
    forall i, j :: 0 <= i < j < |rows| && rows[i].supersededAt.None? ==>
      !LiveAt(rows[j], rows[i].key, rows[i].jurisdiction)
  }

  /** However clauses are published, one live clause per key and jurisdiction is left. */
  lemma {:induction false} PublishingKeepsOneLive(publications: seq<Publication>)
    ensures OneLive(PublishAll(publications))
  {
    if publications != [] {
      PublishingKeepsOneLive(publications[..|publications| - 1]);
      var before := PublishAll(publications[..|publications| - 1]);
      if Published(before, publications[|publications| - 1]).Ok? {
      }
    }
  }

  class Desk {
    var rows: seq<Clause>

    constructor ()
      ensures rows == [] && OneLive(rows)
    {
      rows := [];
    }

    method PublishClause(p: Publication) returns (outcome: Outcome<()>)
      requires OneLive(rows)
      modifies this
      ensures outcome.Ok? <==> Published(old(rows), p).Ok?
      ensures rows == if outcome.Ok? then Published(old(rows), p).value else old(rows)
      ensures OneLive(rows)
    {
      if Blank(p.text) { return Refused; }
      if Blank(p.citation) { return Refused; }
      var jurisdiction := if p.jurisdiction.Some? then p.jurisdiction.value else ALL_JURISDICTIONS;
      var current := CurrentIndex(rows, p.key, jurisdiction);
      var version := 1;
      if current.Some? {
        version := rows[current.value].version + 1;
        rows := rows[current.value := rows[current.value].(supersededAt := Some(p.now))];
      }
      rows := rows
        + [Clause(p.key, version, p.text, p.citation, jurisdiction, p.appliesToTiers, p.appliesToChannels, None)];
      return Ok(());
    }
  }

  // ---------------------------------------------------------------------------
  // Selecting
  // ---------------------------------------------------------------------------

  datatype Selector =
    Selector(jurisdiction: Text, offerTier: Option<Text>, channel: Option<Text>, keys: Option<seq<Text>>)

  /** An empty scope means "applies to all". */
  predicate InScope(restriction: seq<Text>, value: Option<Text>) {
    restriction == [] || (value.Some? && value.value in restriction)
  }

  predicate Candidate(selector: Selector, c: Clause) {
    && c.supersededAt.None?
    && (c.jurisdiction == ALL_JURISDICTIONS || c.jurisdiction == selector.jurisdiction)
    && (selector.keys.None? || c.key in selector.keys.value)
    && InScope(c.appliesToTiers, selector.offerTier)
    && InScope(c.appliesToChannels, selector.channel)
  }

  /** A candidate for the state itself, or a global one whose key has no candidate for the state. */
  ghost predicate Chosen(rows: seq<Clause>, selector: Selector, c: Clause) {
    && c in rows
    && Candidate(selector, c)
    && (c.jurisdiction == ALL_JURISDICTIONS ==>
          forall d :: d in rows && Candidate(selector, d) && d.key == c.key ==> d.jurisdiction == ALL_JURISDICTIONS)
  }

  /** One clause at most is chosen for a key. */
  lemma OneChosen(rows: seq<Clause>, selector: Selector, c: Clause, d: Clause)
    requires OneLive(rows) && Chosen(rows, selector, c) && Chosen(rows, selector, d) && c.key == d.key
    ensures c == d
  {
    assert c.jurisdiction == d.jurisdiction;
    var i :| 0 <= i < |rows| && rows[i] == c;
    var j :| 0 <= j < |rows| && rows[j] == d;
    assert i == j;
  }

  /** A clause is a candidate where it applies: everywhere or in the state, for the tiers and channels it names. */
  lemma CandidateExactly(selector: Selector, c: Clause)
    ensures Candidate(selector, c) <==>
      && c.supersededAt.None?
      && c.jurisdiction in {[0x2A], selector.jurisdiction}
      && (c.appliesToTiers != [] ==> exists tier :: selector.offerTier == Some(tier) && tier in c.appliesToTiers)
      && (c.appliesToChannels != [] ==>
         exists channel :: selector.channel == Some(channel) && channel in c.appliesToChannels)
      && (selector.keys.Some? ==> c.key in selector.keys.value)
  {
  }

  /** A clause written for some tiers or channels is chosen only for those, and only where it applies. */
  lemma ChosenInItsScope(rows: seq<Clause>, selector: Selector, c: Clause)
    requires Chosen(rows, selector, c)
    ensures c.supersededAt.None? && (c.jurisdiction == [0x2A] || c.jurisdiction == selector.jurisdiction)
    ensures c.appliesToTiers != [] ==> selector.offerTier.Some? && selector.offerTier.value in c.appliesToTiers
    ensures c.appliesToChannels != [] ==> selector.channel.Some? && selector.channel.value in c.appliesToChannels
    ensures selector.keys.Some? ==> c.key in selector.keys.value
  {
  }

  function KeyIndex(entries: seq<Clause>, key: Text): (r: Option<nat>)
    ensures r.Some? ==> r.value < |entries| && entries[r.value].key == key
    ensures r.None? ==> forall i :: 0 <= i < |entries| ==> entries[i].key != key
  {
    if entries == [] then None
    else if entries[0].key == key then Some(0)
    else
      var rest := KeyIndex(entries[1..], key);
      if rest.None? then None else Some(rest.value + 1)
  }

  /**
   * The clauses in force, whatever order the rows come in: each key that has a candidate exactly
   * once, in key order, the state's own clause whenever it has one.
   */
  method ApplicableClauses(rows: seq<Clause>, selector: Selector) returns (clauses: seq<Clause>)
    requires OneLive(rows)
    ensures forall c :: c in clauses <==> Chosen(rows, selector, c)
    ensures StrictlySorted(clauses, KeyOf)
    ensures forall c :: c in rows && Candidate(selector, c) ==> exists d :: d in clauses && d.key == c.key
  {
    var byKey: seq<Clause> := [];
    for i := 0 to |rows|
      invariant DistinctKeys(byKey, KeyOf)
      invariant forall c :: c in byKey <==> Chosen(rows[..i], selector, c)
      invariant forall j :: 0 <= j < i && Candidate(selector, rows[j]) ==> rows[j].key in Keys(byKey, KeyOf)
    {
      var clause := rows[i];
      if Candidate(selector, clause) {
        var existing := KeyIndex(byKey, clause.key);
        ghost var before := byKey;
        if existing.None? {
          byKey := byKey + [clause];
          FirstOfItsKey(rows, i, selector, before);
        } else if byKey[existing.value].jurisdiction == ALL_JURISDICTIONS {
          byKey := byKey[existing.value := clause];
          StateReplacesGlobal(rows, i, selector, before, existing.value, byKey);
        } else {
          StateStays(rows, i, selector, before, existing.value);
        }
      } else {
        assert forall c :: Chosen(rows[..i + 1], selector, c) <==> Chosen(rows[..i], selector, c);
      }
    }
    assert rows[..|rows|] == rows;
    clauses := Sort(byKey, KeyOf);
    SortContents(byKey, KeyOf);
    SortSorted(byKey, KeyOf);
    forall c | c in rows && Candidate(selector, c) ensures exists d :: d in clauses && d.key == c.key {
      var j :| 0 <= j < |rows| && rows[j] == c;
      var k :| 0 <= k < |byKey| && Keys(byKey, KeyOf)[k] == c.key;
      assert byKey[k] in clauses;
    }
  }

  lemma FirstOfItsKey(rows: seq<Clause>, i: nat, selector: Selector, byKey: seq<Clause>)
    requires i < |rows| && Candidate(selector, rows[i])
    requires forall c :: c in byKey <==> Chosen(rows[..i], selector, c)
    requires forall j :: 0 <= j < i && Candidate(selector, rows[j]) ==> rows[j].key in Keys(byKey, KeyOf)
    requires rows[i].key !in Keys(byKey, KeyOf)
    ensures forall c :: c in byKey + [rows[i]] <==> Chosen(rows[..i + 1], selector, c)
    ensures Keys(byKey + [rows[i]], KeyOf) == Keys(byKey, KeyOf) + [rows[i].key]
  {
    forall d | d in rows[..i] && Candidate(selector, d) ensures d.key != rows[i].key {
      var j :| 0 <= j < i && rows[j] == d;
    }
  }

  lemma StateReplacesGlobal(rows: seq<Clause>, i: nat, selector: Selector, byKey: seq<Clause>, k: nat,
      after: seq<Clause>)
    requires OneLive(rows) && i < |rows| && Candidate(selector, rows[i])
    requires DistinctKeys(byKey, KeyOf) && forall c :: c in byKey <==> Chosen(rows[..i], selector, c)
    requires k < |byKey| && byKey[k].key == rows[i].key && byKey[k].jurisdiction == ALL_JURISDICTIONS
    requires after == byKey[k := rows[i]]
    ensures rows[i].jurisdiction != ALL_JURISDICTIONS
    ensures forall c :: c in after <==> Chosen(rows[..i + 1], selector, c)
    ensures DistinctKeys(after, KeyOf)
    ensures Keys(after, KeyOf) == Keys(byKey, KeyOf)
  {
    assert Keys(byKey, KeyOf)[k] == rows[i].key;
    var clause, global := rows[i], byKey[k];
    assert global in byKey;
    var g :| 0 <= g < i && rows[g] == global;
    assert !LiveAt(rows[i], rows[g].key, rows[g].jurisdiction);
    forall c ensures c in after <==> Chosen(rows[..i + 1], selector, c) {
      ReplacedMembers(byKey, k, clause, c);
      if c in byKey && c.key != clause.key {
        assert Chosen(rows[..i], selector, c);
      }
    }
  }

  lemma ReplacedMembers(byKey: seq<Clause>, k: nat, clause: Clause, c: Clause)
    requires DistinctKeys(byKey, KeyOf) && k < |byKey| && byKey[k].key == clause.key
    ensures c in byKey[k := clause] <==> c == clause || (c in byKey && c.key != clause.key)
  {
    var replaced := byKey[k := clause];
    assert replaced[k] == clause;
    if c in byKey && c.key != clause.key {
      var m :| 0 <= m < |byKey| && byKey[m] == c;
      assert replaced[m] == c;
    }
    if c in replaced && c != clause {
      var m :| 0 <= m < |replaced| && replaced[m] == c;
      assert m != k && byKey[m] == c;
      assert KeyOf(byKey[m]) != KeyOf(byKey[k]);
    }
  }

  lemma StateStays(rows: seq<Clause>, i: nat, selector: Selector, byKey: seq<Clause>, k: nat)
    requires OneLive(rows) && i < |rows| && Candidate(selector, rows[i])
    requires forall c :: c in byKey <==> Chosen(rows[..i], selector, c)
    requires k < |byKey| && byKey[k].key == rows[i].key && byKey[k].jurisdiction != ALL_JURISDICTIONS
    ensures forall c :: c in byKey <==> Chosen(rows[..i + 1], selector, c)
    ensures rows[i].key in Keys(byKey, KeyOf)
  {
    assert Keys(byKey, KeyOf)[k] == rows[i].key;
    var state := byKey[k];
    assert state in byKey;
    var g :| 0 <= g < i && rows[g] == state;
    assert !LiveAt(rows[i], rows[g].key, rows[g].jurisdiction);
    assert rows[i].jurisdiction == ALL_JURISDICTIONS;
    assert rows[g] in rows[..i + 1];
  }

  /** The specification leaves one answer, so the order of the rows cannot matter. */
  lemma RowOrderIsIrrelevant(rows: seq<Clause>, rows': seq<Clause>, selector: Selector, clauses: seq<Clause>,
      clauses': seq<Clause>)
    requires multiset(rows) == multiset(rows')
    requires StrictlySorted(clauses, KeyOf) && forall c :: c in clauses <==> Chosen(rows, selector, c)
    requires StrictlySorted(clauses', KeyOf) && forall c :: c in clauses' <==> Chosen(rows', selector, c)
    ensures clauses == clauses'
  {
    SameElements(rows, rows');
    forall c ensures c in clauses <==> c in clauses' {
      assert Chosen(rows, selector, c) <==> Chosen(rows', selector, c);
    }
    SortedSame(clauses, clauses');
  }

  lemma SortedSame(xs: seq<Clause>, ys: seq<Clause>)
    requires StrictlySorted(xs, KeyOf) && StrictlySorted(ys, KeyOf)
    requires forall c :: c in xs <==> c in ys
    ensures xs == ys
  {
    forall k ensures k in Keys(xs, KeyOf) <==> k in Keys(ys, KeyOf) {
      if k in Keys(xs, KeyOf) {
        var i :| 0 <= i < |xs| && Keys(xs, KeyOf)[i] == k;
        assert xs[i] in ys;
        var j :| 0 <= j < |ys| && ys[j] == xs[i];
        assert Keys(ys, KeyOf)[j] == k;
      }
      if k in Keys(ys, KeyOf) {
        var i :| 0 <= i < |ys| && Keys(ys, KeyOf)[i] == k;
        assert ys[i] in xs;
        var j :| 0 <= j < |xs| && xs[j] == ys[i];
        assert Keys(xs, KeyOf)[j] == k;
      }
    }
    SortedUnique(xs, ys, KeyOf);
    assert |xs| == |Keys(xs, KeyOf)| == |Keys(ys, KeyOf)| == |ys|;
    forall i | 0 <= i < |xs| ensures xs[i] == ys[i] {
      assert xs[i] in ys;
      var j :| 0 <= j < |ys| && ys[j] == xs[i];
      assert Keys(xs, KeyOf)[i] == Keys(ys, KeyOf)[i] == KeyOf(ys[i]);
      LessTotal(KeyOf(ys[i]), KeyOf(ys[j]));
    }
  }
}
