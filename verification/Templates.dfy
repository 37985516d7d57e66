/** Versioned contract templates and counsel's reviews of them (packages/contracts/src/templates.ts). */
module Templates {
  import opened Common

  datatype ChangeKind = Material | Editorial

  datatype Section = Section(heading: Text, body: Text, insertClauseKeys: seq<Text>, insertDisclosures: bool)

  datatype Template = Template(
    key: Text,
    version: nat,
    title: Text,
    sections: seq<Section>,
    changeKind: ChangeKind,
    supersededAt: Option<Instant>)

  datatype Review = Review(reviewedBy: Text, reviewedAt: Instant, documentReference: Text)

  /** Template rows in the order they were inserted; one review at most per key and version. */
  datatype Library = Library(rows: seq<Template>, reviews: map<(Text, nat), Review>)

  const EMPTY_LIBRARY := Library([], map[])

  // ---------------------------------------------------------------------------
  // Queries
  // ---------------------------------------------------------------------------

  /** The unsuperseded row of the key with the highest version. */
  function CurrentIndex(rows: seq<Template>, key: Text): (r: Option<nat>)
    ensures r.Some? ==> r.value < |rows| && rows[r.value].key == key && rows[r.value].supersededAt.None?
    ensures r.None? ==> forall i :: 0 <= i < |rows| ==> rows[i].key != key || rows[i].supersededAt.Some?
    ensures r.Some? ==> forall i :: 0 <= i < |rows| && rows[i].key == key && rows[i].supersededAt.None?
                                   ==> rows[i].version <= rows[r.value].version
  {
    if rows == [] then None
    else
      var n := |rows| - 1;
      var rest := CurrentIndex(rows[..n], key);
      if rows[n].key == key && rows[n].supersededAt.None? && (rest.None? || rows[n].version > rows[rest.value].version)
      then Some(n) else rest
  }

  /** The highest reviewed version of the key up to `version`. */
  function LatestReview(reviews: map<(Text, nat), Review>, key: Text, version: nat): (r: Option<nat>)
    ensures r.Some? ==> r.value <= version && (key, r.value) in reviews
    ensures forall v :: (key, v) in reviews && v <= version ==> r.Some? && v <= r.value
  {
    if (key, version) in reviews then Some(version)
    else if version == 0 then None
    else LatestReview(reviews, key, version - 1)
  }

  predicate MaterialIn(rows: seq<Template>, key: Text, after: nat, upTo: nat) {
    exists i :: 0 <= i < |rows| && rows[i].key == key && after < rows[i].version <= upTo && rows[i].changeKind.Material?
  }

  datatype Generability = Generability(generable: bool, reviewedVersion: Option<nat>)

  function TemplateIsGenerable(library: Library, key: Text, version: nat): Generability {
    var latest := LatestReview(library.reviews, key, version);
    if latest.None? then Generability(false, None)
    else if latest.value == version then Generability(true, latest)
    else Generability(!MaterialIn(library.rows, key, latest.value, version), latest)
  }

  // ---------------------------------------------------------------------------
  // Steps
  // ---------------------------------------------------------------------------

  datatype Step =
    | Publish(key: Text, title: Text, sections: seq<Section>, changeKind: ChangeKind, changeRationale: Text,
      now: Instant)
    | RecordReview(key: Text, version: nat, actor: Option<Actor>, review: Review)

  function Verdict(library: Library, step: Step): Outcome<()> {
    match step
    case Publish(key, _, sections, changeKind, rationale, _) =>
      if sections == [] then Refused
      else if changeKind.Editorial? && Blank(rationale) then Refused
      else if CurrentIndex(library.rows, key).None? && changeKind.Editorial? then Refused
      else Ok(())
    case RecordReview(key, version, actor, review) =>
      if Blank(review.documentReference) || Blank(review.reviewedBy) then Refused
      else if !SeniorHuman(actor) then Refused
      else if !Published(library.rows, key, version) then NoData
      else Ok(())
  }

  predicate Published(rows: seq<Template>, key: Text, version: nat) {
    exists i :: 0 <= i < |rows| && rows[i].key == key && rows[i].version == version
  }

  function Superseded(rows: seq<Template>, key: Text, now: Instant): seq<Template> {
    var current := CurrentIndex(rows, key);
    if current.None? then rows else rows[current.value := rows[current.value].(supersededAt := Some(now))]
  }

  function NextVersion(rows: seq<Template>, key: Text): nat {
    var current := CurrentIndex(rows, key);
    if current.None? then 1 else rows[current.value].version + 1
  }

  function Next(library: Library, step: Step): Library {
    if !Verdict(library, step).Ok? then library
    else
      match step
      case Publish(key, title, sections, changeKind, _, now) =>
        var row := Template(key, NextVersion(library.rows, key), title, sections, changeKind, None);
        library.(rows := Superseded(library.rows, key, now) + [row])
      case RecordReview(key, version, _, review) =>
        library.(reviews := library.reviews[(key, version) := review])
  }

  function Run(library: Library, steps: seq<Step>): Library {
    if steps == [] then library else Next(Run(library, steps[..|steps| - 1]), steps[|steps| - 1])
  }

  class Desk {
    var rows: seq<Template>
    var reviews: map<(Text, nat), Review>

    function State(): Library
      reads this
    {
      Library(rows, reviews)
    }

    constructor ()
      ensures State() == EMPTY_LIBRARY && Valid(State())
    {
      rows, reviews := [], map[];
    }

    method PublishTemplate(key: Text, title: Text, sections: seq<Section>, changeKind: ChangeKind,
        changeRationale: Text, now: Instant)
      returns (outcome: Outcome<()>)
      requires Valid(State())
      modifies this
      ensures Valid(State())
      ensures outcome == Verdict(old(State()), Publish(key, title, sections, changeKind, changeRationale, now))
      ensures State() == Next(old(State()), Publish(key, title, sections, changeKind, changeRationale, now))
    {
      StepKeepsValid(State(), Publish(key, title, sections, changeKind, changeRationale, now));
      if sections == [] { return Refused; }
      if changeKind.Editorial? && Blank(changeRationale) { return Refused; }
      if CurrentIndex(rows, key).None? && changeKind.Editorial? { return Refused; }
      var version := Supersede(key, now);
      rows := rows + [Template(key, version, title, sections, changeKind, None)];
      return Ok(());
    }

    /** Retires the current version of the key, if there is one, and answers the next version number. */
    method Supersede(key: Text, now: Instant) returns (version: nat)
      modifies this
      ensures rows == Superseded(old(rows), key, now) && reviews == old(reviews)
      ensures version == NextVersion(old(rows), key)
    {
      var current := CurrentIndex(rows, key);
      version := 1;
      if current.Some? {
        version := rows[current.value].version + 1;
        rows := rows[current.value := rows[current.value].(supersededAt := Some(now))];
      }
    }

    method ReviewTemplate(key: Text, version: nat, actor: Option<Actor>, review: Review) returns (outcome: Outcome<()>)
      requires Valid(State())
      modifies this
      ensures Valid(State())
      ensures outcome == Verdict(old(State()), RecordReview(key, version, actor, review))
      ensures State() == Next(old(State()), RecordReview(key, version, actor, review))
    {
      StepKeepsValid(State(), RecordReview(key, version, actor, review));
      if Blank(review.documentReference) || Blank(review.reviewedBy) { return Refused; }
      if !SeniorHuman(actor) { return Refused; }
      if !Published(rows, key, version) { return NoData; }
      reviews := reviews[(key, version) := review];
      return Ok(());
    }
  }

  // ---------------------------------------------------------------------------
  // Versions are 1..n and only n is live
  // ---------------------------------------------------------------------------

  function Count(rows: seq<Template>, key: Text): nat {
    if rows == [] then 0 else Count(rows[..|rows| - 1], key) + if rows[|rows| - 1].key == key then 1 else 0
  }

  ghost predicate Numbered(rows: seq<Template>) {
    forall i :: 0 <= i < |rows| ==> rows[i].version == Count(rows[..i], rows[i].key) + 1
  }

  ghost predicate OnlyLastLive(rows: seq<Template>) {
    forall i :: 0 <= i < |rows| ==> (rows[i].supersededAt.None? <==> rows[i].version == Count(rows, rows[i].key))
  }

  ghost predicate FirstMaterial(rows: seq<Template>) {
    forall i :: 0 <= i < |rows| && rows[i].version == 1 ==> rows[i].changeKind.Material?
  }

  /**
   * The k-th row of a key has version k; only the last is live; the first is material; reviews are of
   * published versions.
   */
  ghost predicate Valid(library: Library) {
    && Numbered(library.rows)
    && OnlyLastLive(library.rows)
    && FirstMaterial(library.rows)
    && forall key, v :: (key, v) in library.reviews ==> 1 <= v <= Count(library.rows, key)
  }

  lemma {:induction false} CountPrefix(rows: seq<Template>, i: nat, key: Text)
    requires i <= |rows|
    ensures Count(rows[..i], key) <= Count(rows, key)
    ensures i < |rows| && rows[i].key == key ==> Count(rows[..i], key) < Count(rows, key)
  {
    if i < |rows| {
      CountPrefix(rows[..|rows| - 1], i, key);
      assert rows[..|rows| - 1][..i] == rows[..i];
    } else {
      assert rows[..i] == rows;
    }
  }

  /** Every version up to the count has a row. */
  lemma {:induction false} RowOfVersion(rows: seq<Template>, key: Text, v: nat)
    requires 1 <= v <= Count(rows, key)
    ensures exists i :: NthOfKey(rows, i, key, v)
  {
    var n := |rows| - 1;
    if rows[n].key == key && v == Count(rows, key) {
      assert NthOfKey(rows, n, key, v);
    } else {
      RowOfVersion(rows[..n], key, v);
      var i :| NthOfKey(rows[..n], i, key, v);
      assert rows[..n][..i] == rows[..i];
      assert NthOfKey(rows, i, key, v);
    }
  }

  ghost predicate NthOfKey(rows: seq<Template>, i: int, key: Text, v: nat) {
    0 <= i < |rows| && rows[i].key == key && Count(rows[..i], key) + 1 == v
  }

  lemma {:induction false} CountAfterUpdate(rows: seq<Template>, i: nat, row: Template, j: nat, key: Text)
    requires i < |rows| && rows[i].key == row.key && j <= |rows|
    ensures Count(rows[i := row][..j], key) == Count(rows[..j], key)
  {
    if j > 0 {
      CountAfterUpdate(rows, i, row, j - 1, key);
      assert rows[i := row][..j][..j - 1] == rows[i := row][..j - 1];
      assert rows[..j][..j - 1] == rows[..j - 1];
    }
  }

  /** The current row is the one with the highest version, and exists as soon as any version does. */
  lemma CurrentIsLatest(library: Library, key: Text)
    requires Valid(library)
    ensures CurrentIndex(library.rows, key).None? <==> Count(library.rows, key) == 0
    ensures CurrentIndex(library.rows, key).Some? ==>
      library.rows[CurrentIndex(library.rows, key).value].version == Count(library.rows, key)
  {
    var rows := library.rows;
    var current := CurrentIndex(rows, key);
    if Count(rows, key) > 0 {
      RowOfVersion(rows, key, Count(rows, key));
      var i :| NthOfKey(rows, i, key, Count(rows, key));
      assert rows[i].supersededAt.None?;
    }
    if current.Some? { CountPrefix(rows, current.value, key); }
  }

  /** Counting up to two places: more rows of the key lie before the later one. */
  lemma CountOrder(rows: seq<Template>, i: nat, j: nat, key: Text)
    requires i < j <= |rows|
    ensures Count(rows[..i], key) <= Count(rows[..j], key)
    ensures rows[i].key == key ==> Count(rows[..i], key) < Count(rows[..j], key)
  {
    CountPrefix(rows[..j], i, key);
    assert rows[..j][..i] == rows[..i];
  }

  lemma SameRow(rows: seq<Template>, i: nat, j: nat, key: Text)
    requires i < |rows| && j < |rows| && rows[i].key == key && rows[j].key == key
    requires Count(rows[..i], key) == Count(rows[..j], key)
    ensures i == j
  {
    if i < j { CountOrder(rows, i, j, key); }
    if j < i { CountOrder(rows, j, i, key); }
  }

  lemma SupersedingKeepsCounts(rows: seq<Template>, key: Text, now: Instant, j: nat, k: Text)
    requires j <= |rows|
    ensures |Superseded(rows, key, now)| == |rows|
    ensures Count(Superseded(rows, key, now)[..j], k) == Count(rows[..j], k)
  {
    var current := CurrentIndex(rows, key);
    if current.Some? {
      CountAfterUpdate(rows, current.value, rows[current.value].(supersededAt := Some(now)), j, k);
    }
  }

  lemma PublishCounts(library: Library, step: Step)
    requires step.Publish? && Verdict(library, step).Ok?
    ensures var rows, rows' := library.rows, Next(library, step).rows;
      && |rows'| == |rows| + 1
      && (forall j, k :: 0 <= j <= |rows| ==> Count(rows'[..j], k) == Count(rows[..j], k))
      && (forall k :: Count(rows', k) == Count(rows, k) + if k == step.key then 1 else 0)
  {
    var rows, rows' := library.rows, Next(library, step).rows;
    var superseded := Superseded(rows, step.key, step.now);
    assert |superseded| == |rows|;
    forall j, k | 0 <= j <= |rows| ensures Count(rows'[..j], k) == Count(rows[..j], k) {
      SupersedingKeepsCounts(rows, step.key, step.now, j, k);
      assert rows'[..j] == superseded[..j];
    }
    assert rows[..|rows|] == rows;
    forall k ensures Count(rows', k) == Count(rows, k) + if k == step.key then 1 else 0 {
      assert Count(rows'[..|rows|], k) == Count(rows[..|rows|], k);
    }
  }

  /** An older row keeps its version, and is live exactly when it was and its key is another. */
  lemma PublishedRow(library: Library, step: Step, i: nat)
    requires Valid(library) && step.Publish? && Verdict(library, step).Ok? && i < |library.rows|
    ensures var row, row' := library.rows[i], Next(library, step).rows[i];
      && row'.key == row.key && row'.version == row.version && row'.changeKind == row.changeKind
      && (row'.supersededAt.None? <==> row.supersededAt.None? && row.key != step.key)
  {
    var rows := library.rows;
    var current := CurrentIndex(rows, step.key);
    assert Next(library, step).rows[i] == Superseded(rows, step.key, step.now)[i];
    if rows[i].key == step.key && rows[i].supersededAt.None? {
      CurrentIsLatest(library, step.key);
      SameRow(rows, i, current.value, step.key);
    }
  }

  lemma PublishKeepsNumbers(library: Library, step: Step)
    requires Valid(library) && step.Publish? && Verdict(library, step).Ok?
    ensures Numbered(Next(library, step).rows)
  {
    var rows, rows' := library.rows, Next(library, step).rows;
    PublishCounts(library, step);
    CurrentIsLatest(library, step.key);
    assert rows[..|rows|] == rows;
    forall i | 0 <= i < |rows'| ensures rows'[i].version == Count(rows'[..i], rows'[i].key) + 1 {
      if i < |rows| { PublishedRow(library, step, i); }
      assert Count(rows'[..i], rows'[i].key) == Count(rows[..i], rows'[i].key);
    }
  }

  lemma PublishKeepsLive(library: Library, step: Step)
    requires Valid(library) && step.Publish? && Verdict(library, step).Ok?
    ensures OnlyLastLive(Next(library, step).rows)
  {
    var rows, rows' := library.rows, Next(library, step).rows;
    PublishCounts(library, step);
    CurrentIsLatest(library, step.key);
    forall i | 0 <= i < |rows'|
      ensures rows'[i].supersededAt.None? <==> rows'[i].version == Count(rows', rows'[i].key)
    {
      if i < |rows| {
        PublishedRow(library, step, i);
        CountPrefix(rows, i, rows[i].key);
      }
    }
  }

  lemma PublishKeepsFirst(library: Library, step: Step)
    requires Valid(library) && step.Publish? && Verdict(library, step).Ok?
    ensures FirstMaterial(Next(library, step).rows)
  {
    var rows, rows' := library.rows, Next(library, step).rows;
    PublishCounts(library, step);
    CurrentIsLatest(library, step.key);
    forall i | 0 <= i < |rows'| && rows'[i].version == 1 ensures rows'[i].changeKind.Material? {
      if i < |rows| { PublishedRow(library, step, i); }
    }
  }

  lemma PublishKeepsValid(library: Library, step: Step)
    requires Valid(library) && step.Publish? && Verdict(library, step).Ok?
    ensures Valid(Next(library, step))
    ensures Count(Next(library, step).rows, step.key) == Count(library.rows, step.key) + 1
    ensures forall key :: key != step.key ==> Count(Next(library, step).rows, key) == Count(library.rows, key)
  {
    PublishKeepsNumbers(library, step);
    PublishKeepsLive(library, step);
    PublishKeepsFirst(library, step);
    PublishCounts(library, step);
  }

  lemma StepKeepsValid(library: Library, step: Step)
    requires Valid(library)
    ensures Valid(Next(library, step))
  {
    if Verdict(library, step).Ok? {
      match step
      case Publish(_, _, _, _, _, _) => PublishKeepsValid(library, step);
      case RecordReview(key, version, _, _) =>
        var i :| 0 <= i < |library.rows| && library.rows[i].key == key && library.rows[i].version == version;
        CountPrefix(library.rows, i, key);
    }
  }

  /** Over any interleaving of publishes and reviews. */
  lemma {:induction false} RunKeepsValid(library: Library, steps: seq<Step>)
    requires Valid(library)
    ensures Valid(Run(library, steps))
  {
    if steps != [] {
      RunKeepsValid(library, steps[..|steps| - 1]);
      StepKeepsValid(Run(library, steps[..|steps| - 1]), steps[|steps| - 1]);
    }
  }

  /**
   * In every reachable library the versions of a key are exactly 1..n, n is the current one, and
   * version 1 is material.
   */
  lemma ReachableVersions(steps: seq<Step>, key: Text)
    ensures var rows := Run(EMPTY_LIBRARY, steps).rows;
      && Valid(Run(EMPTY_LIBRARY, steps))
      && (forall v: nat :: Published(rows, key, v) <==> 1 <= v <= Count(rows, key))
      && (CurrentIndex(rows, key).Some? ==> rows[CurrentIndex(rows, key).value].version == Count(rows, key))
      && (CurrentIndex(rows, key).None? <==> Count(rows, key) == 0)
  {
    var library := Run(EMPTY_LIBRARY, steps);
    RunKeepsValid(EMPTY_LIBRARY, steps);
    CurrentIsLatest(library, key);
    forall v: nat ensures Published(library.rows, key, v) <==> 1 <= v <= Count(library.rows, key) {
      if Published(library.rows, key, v) {
        var i :| 0 <= i < |library.rows| && library.rows[i].key == key && library.rows[i].version == v;
        CountPrefix(library.rows, i, key);
      }
      if 1 <= v <= Count(library.rows, key) {
        RowOfVersion(library.rows, key, v);
      }
    }
  }

  // ---------------------------------------------------------------------------
  // What may generate
  // ---------------------------------------------------------------------------

  ghost predicate EditorialSince(rows: seq<Template>, key: Text, after: nat, upTo: nat) {
    forall i :: 0 <= i < |rows| && rows[i].key == key && after < rows[i].version <= upTo ==>
      rows[i].changeKind.Editorial?
  }

  /** A version may generate exactly when some reviewed version is followed by editorial ones only. */
  lemma GenerableExactly(library: Library, key: Text, version: nat)
    ensures TemplateIsGenerable(library, key, version).generable
       <==> exists r :: r <= version && (key, r) in library.reviews && EditorialSince(library.rows, key, r, version)
  {
    var latest := LatestReview(library.reviews, key, version);
    if latest.Some? {
      assert MaterialIn(library.rows, key, latest.value, version)
         <==> !EditorialSince(library.rows, key, latest.value, version);
      assert latest.value == version ==> EditorialSince(library.rows, key, version, version);
    }
  }

  ghost function KindOf(library: Library, key: Text, v: nat): ChangeKind
    requires Valid(library) && 1 <= v <= Count(library.rows, key)
  {
    VersionHasOneRow(library, key, v);
    var i :| VersionAt(library.rows, i, key, v);
    library.rows[i].changeKind
  }

  ghost predicate VersionAt(rows: seq<Template>, i: int, key: Text, v: nat) {
    0 <= i < |rows| && rows[i].key == key && rows[i].version == v
  }

  lemma VersionHasOneRow(library: Library, key: Text, v: nat)
    requires Valid(library) && 1 <= v <= Count(library.rows, key)
    ensures exists i :: VersionAt(library.rows, i, key, v)
    ensures forall i, j :: VersionAt(library.rows, i, key, v) && VersionAt(library.rows, j, key, v) ==> i == j
  {
    RowOfVersion(library.rows, key, v);
    var k :| NthOfKey(library.rows, k, key, v);
    assert VersionAt(library.rows, k, key, v);
    forall i | VersionAt(library.rows, i, key, v) ensures i == k {
      SameRow(library.rows, i, k, key);
    }
  }

  /** The rule counsel would state: a review of this version, or an editorial change to one that may generate. */
  ghost predicate CarriesReview(library: Library, key: Text, v: nat)
    requires Valid(library) && v <= Count(library.rows, key)
  {
    v > 0 && ((key, v) in library.reviews || (KindOf(library, key, v).Editorial? && CarriesReview(library, key, v - 1)))
  }

  /** The query and the rule agree on every published version. */
  lemma {:induction false} GenerableCarriesReview(library: Library, key: Text, v: nat)
    requires Valid(library) && v <= Count(library.rows, key)
    ensures TemplateIsGenerable(library, key, v).generable <==> CarriesReview(library, key, v)
  {
    GenerableExactly(library, key, v);
    if v > 0 {
      GenerableCarriesReview(library, key, v - 1);
      GenerableExactly(library, key, v - 1);
      assert EditorialSince(library.rows, key, v, v);
      forall r: nat | r < v
        ensures EditorialSince(library.rows, key, r, v)
           <==> EditorialSince(library.rows, key, r, v - 1) && KindOf(library, key, v).Editorial?
      {
        EditorialStep(library, key, r, v);
      }
    }
  }

  lemma EditorialStep(library: Library, key: Text, r: nat, v: nat)
    requires Valid(library) && r < v <= Count(library.rows, key)
    ensures EditorialSince(library.rows, key, r, v)
       <==> EditorialSince(library.rows, key, r, v - 1) && KindOf(library, key, v).Editorial?
  {
    VersionHasOneRow(library, key, v);
    var k :| VersionAt(library.rows, k, key, v);
    assert KindOf(library, key, v) == library.rows[k].changeKind;
    forall i | 0 <= i < |library.rows| && library.rows[i].key == key && r < library.rows[i].version <= v
      ensures library.rows[i].version <= v - 1 || i == k
    {
      if library.rows[i].version == v { assert VersionAt(library.rows, i, key, v); }
    }
  }

  /** The latest material change is unseen by counsel: no review at it or after it. */
  ghost predicate MaterialUnseen(library: Library, key: Text, m: nat) {
    && 1 <= m <= Count(library.rows, key)
    && (exists i :: VersionAt(library.rows, i, key, m) && library.rows[i].changeKind.Material?)
    && forall v :: v >= m ==> (key, v) !in library.reviews
  }

  /** An unseen material change blocks its own version and every later one. */
  lemma UnseenBlocks(library: Library, key: Text, m: nat, v: nat)
    requires Valid(library) && MaterialUnseen(library, key, m) && m <= v
    ensures !TemplateIsGenerable(library, key, v).generable
  {
    GenerableExactly(library, key, v);
  }

  /**
   * No run of publishes, and of reviews that stop short of the change, makes an unseen material
   * change generable, however many editorial versions are put on top of it.
   */
  lemma {:induction false} NothingIsLaundered(library: Library, steps: seq<Step>, key: Text, m: nat)
    requires Valid(library) && MaterialUnseen(library, key, m)
    requires forall i :: 0 <= i < |steps| && steps[i].RecordReview? && steps[i].key == key ==> steps[i].version < m
    ensures Valid(Run(library, steps)) && MaterialUnseen(Run(library, steps), key, m)
    ensures forall v :: m <= v ==> !TemplateIsGenerable(Run(library, steps), key, v).generable
  {
    if steps != [] {
      var before, last := steps[..|steps| - 1], steps[|steps| - 1];
      assert forall i :: 0 <= i < |before| ==> before[i] == steps[i];
      NothingIsLaundered(library, before, key, m);
      var previous := Run(library, before);
      StepKeepsValid(previous, last);
      if last.Publish? && Verdict(previous, last).Ok? { PublishKeepsUnseen(previous, last, key, m); }
    }
    forall v | m <= v ensures !TemplateIsGenerable(Run(library, steps), key, v).generable {
      UnseenBlocks(Run(library, steps), key, m, v);
    }
  }

  /**
   * A publication is accepted when it has sections and is material, or is editorial with a reason
   * over an earlier version; it adds the next version of its key as it was asked for.
   */
  lemma PublishedAsRequested(library: Library, step: Step)
    requires Valid(library) && step.Publish?
    ensures var rows, rows' := library.rows, Next(library, step).rows;
      if step.sections != []
         && (step.changeKind == Material || (Count(rows, step.key) > 0 && !Blank(step.changeRationale)))
      then
        && |rows'| == |rows| + 1
        && rows'[|rows|]
           == Template(step.key, Count(rows, step.key) + 1, step.title, step.sections, step.changeKind, None)
        && forall i :: 0 <= i < |rows| ==> rows'[i].(supersededAt := None) == rows[i].(supersededAt := None)
      else rows' == rows && Verdict(library, step).Refused?
  {
    CurrentIsLatest(library, step.key);
  }

  /** A review is recorded exactly when a human of level 3 or above gives a reference for a published version. */
  lemma ReviewedExactly(library: Library, step: Step)
    requires Valid(library) && step.RecordReview?
    ensures Next(library, step) ==
      if step.actor.Some? && step.actor.value.human && step.actor.value.authorityLevel >= 3
         && !Blank(step.review.documentReference) && !Blank(step.review.reviewedBy)
         && 1 <= step.version <= Count(library.rows, step.key)
      then library.(reviews := library.reviews[(step.key, step.version) := step.review])
      else library
    ensures Verdict(library, step).NoData? <==>
      && step.actor.Some? && step.actor.value.human && step.actor.value.authorityLevel >= 3
      && !Blank(step.review.documentReference) && !Blank(step.review.reviewedBy)
      && !(1 <= step.version <= Count(library.rows, step.key))
    ensures Verdict(library, step).Ok? || Verdict(library, step).NoData? || Verdict(library, step).Refused?
  {
    if 1 <= step.version <= Count(library.rows, step.key) {
      RowOfVersion(library.rows, step.key, step.version);
    }
    if i :| 0 <= i < |library.rows| && library.rows[i].key == step.key && library.rows[i].version == step.version {
      CountPrefix(library.rows, i, step.key);
    }
  }

  /** What was published as material is not generable in any run until it, or a later version, is reviewed. */
  lemma MaterialWaitsForReview(library: Library, publish: Step, steps: seq<Step>)
    requires Valid(library) && publish.Publish? && publish.changeKind == Material && Verdict(library, publish).Ok?
    requires forall i :: 0 <= i < |steps| && steps[i].RecordReview? && steps[i].key == publish.key ==>
      steps[i].version <= Count(library.rows, publish.key)
    ensures forall v: nat :: v > Count(library.rows, publish.key) ==>
      !TemplateIsGenerable(Run(Next(library, publish), steps), publish.key, v).generable
  {
    var published, m := Next(library, publish), Count(library.rows, publish.key) + 1;
    PublishKeepsValid(library, publish);
    PublishedAsRequested(library, publish);
    assert VersionAt(published.rows, |library.rows|, publish.key, m);
    NothingIsLaundered(published, steps, publish.key, m);
  }

  /** A version that has just been reviewed may generate, with that review as its authority. */
  lemma ReviewOpensGeneration(library: Library, steps: seq<Step>, review: Step)
    requires review.RecordReview? && Verdict(Run(library, steps), review).Ok?
    ensures TemplateIsGenerable(Run(library, steps + [review]), review.key, review.version)
         == Generability(true, Some(review.version))
  {
    assert (steps + [review])[..|steps|] == steps;
  }

  /** A review of the latest material change lets every later version generate, until another material change. */
  lemma {:induction false} EditorialChangesKeepTheReview(library: Library, steps: seq<Step>, key: Text, m: nat)
    requires Valid(library) && (key, m) in library.reviews && EditorialAfter(library, key, m)
    requires forall i :: 0 <= i < |steps| && steps[i].Publish? && steps[i].key == key ==> steps[i].changeKind.Editorial?
    ensures var after := Run(library, steps);
      && Valid(after) && (key, m) in after.reviews && EditorialAfter(after, key, m)
      && forall v :: m <= v ==> TemplateIsGenerable(after, key, v).generable
  {
    if steps != [] {
      var before, last := steps[..|steps| - 1], steps[|steps| - 1];
      assert forall i :: 0 <= i < |before| ==> before[i] == steps[i];
      EditorialChangesKeepTheReview(library, before, key, m);
      var previous := Run(library, before);
      StepKeepsValid(previous, last);
      if last.Publish? && Verdict(previous, last).Ok? { PublishedAsRequested(previous, last); }
    }
    var after := Run(library, steps);
    forall v | m <= v ensures TemplateIsGenerable(after, key, v).generable {
      GenerableExactly(after, key, v);
      assert EditorialSince(after.rows, key, m, v);
    }
  }

  ghost predicate EditorialAfter(library: Library, key: Text, m: nat) {
    forall i :: 0 <= i < |library.rows| && library.rows[i].key == key && m < library.rows[i].version ==>
      library.rows[i].changeKind.Editorial?
  }

  lemma PublishKeepsUnseen(library: Library, step: Step, key: Text, m: nat)
    requires Valid(library) && MaterialUnseen(library, key, m) && step.Publish? && Verdict(library, step).Ok?
    ensures MaterialUnseen(Next(library, step), key, m)
  {
    PublishKeepsValid(library, step);
    var i :| VersionAt(library.rows, i, key, m) && library.rows[i].changeKind.Material?;
    var rows' := Next(library, step).rows;
    assert rows'[i] == library.rows[i] || rows'[i] == library.rows[i].(supersededAt := rows'[i].supersededAt);
    assert VersionAt(rows', i, key, m) && rows'[i].changeKind.Material?;
  }
}
