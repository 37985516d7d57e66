/** Redaction of personal data, and the assertion that none is left (packages/core/src/pii.ts). */
module Pii {
  import opened Common
  import opened Patterns
  import opened Json

  // ---------------------------------------------------------------------------
  // Names and shapes
  // ---------------------------------------------------------------------------

  const PII_FIELD_NAMES: seq<string> := [
    "ssn", "socialSecurityNumber", "ein", "employerIdentificationNumber", "taxId", "tin", "accountNumber",
    "bankAccountNumber", "routingNumber", "dateOfBirth", "dob", "driversLicense", "passportNumber", "plaidAccessToken"
  ]

  /** `toLowerCase`, on every unit whose lower case is an ASCII letter; the Kelvin sign is one. */
  function LowerUnit(c: CodeUnit): CodeUnit {
    if 0x41 <= c <= 0x5A then c + 0x20 else if c == 0x212A then 0x6B else c
  }

  function Lower(s: Text): Text {
    seq(|s|, i requires 0 <= i < |s| => LowerUnit(s[i]))
  }

  predicate IsPiiFieldName(name: Text) {
    exists i :: 0 <= i < |PII_FIELD_NAMES| && Lower(name) == Lower(Units(PII_FIELD_NAMES[i]))
  }

  /** `\b\d{3}-\d{2}-\d{4}\b` */
  const SSN_PATTERN: Pattern :=
    Then(WordBoundary, Then(Times(Digit, 3, 3), Then(One(Exactly(HYPHEN)), Then(Times(Digit, 2, 2),
    Then(One(Exactly(HYPHEN)), Then(Times(Digit, 4, 4), WordBoundary))))))

  /** `\b\d{2}-\d{7}\b` */
  const EIN_PATTERN: Pattern :=
    Then(WordBoundary, Then(Times(Digit, 2, 2), Then(One(Exactly(HYPHEN)), Then(Times(Digit, 7, 7), WordBoundary))))

  /** `(?<![A-Za-z0-9_-])\d{8,17}(?![A-Za-z0-9_-])` */
  const LONG_DIGIT_RUN: Pattern := Then(NotAfter(Identifier), Then(Times(Digit, 8, 17), NotBefore(Identifier)))

  /** Five groups of hexadecimal digits, 8-4-4-4-12. */
  const UUID_PATTERN: Pattern :=
    Then(WordBoundary, Then(Times(Hex, 8, 8), Then(One(Exactly(HYPHEN)), Then(Times(Hex, 4, 4),
    Then(One(Exactly(HYPHEN)), Then(Times(Hex, 4, 4), Then(One(Exactly(HYPHEN)), Then(Times(Hex, 4, 4),
    Then(One(Exactly(HYPHEN)), Then(Times(Hex, 12, 12), WordBoundary))))))))))

  predicate SsnAt(s: Text, i: nat) {
    && i + 11 <= |s|
    && BoundaryAt(s, i) && BoundaryAt(s, i + 11)
    && AllIn(s, i, i + 3, Digit) && s[i + 3] == HYPHEN
    && AllIn(s, i + 4, i + 6, Digit) && s[i + 6] == HYPHEN
    && AllIn(s, i + 7, i + 11, Digit)
  }

  predicate EinAt(s: Text, i: nat) {
    && i + 10 <= |s|
    && BoundaryAt(s, i) && BoundaryAt(s, i + 10)
    && AllIn(s, i, i + 2, Digit) && s[i + 2] == HYPHEN
    && AllIn(s, i + 3, i + 10, Digit)
  }

  const UUID_LENGTH := 36

  predicate UuidAt(s: Text, i: nat) {
    && i + UUID_LENGTH <= |s|
    && BoundaryAt(s, i) && BoundaryAt(s, i + UUID_LENGTH)
    && AllIn(s, i, i + 8, Hex) && s[i + 8] == HYPHEN
    && AllIn(s, i + 9, i + 13, Hex) && s[i + 13] == HYPHEN
    && AllIn(s, i + 14, i + 18, Hex) && s[i + 18] == HYPHEN
    && AllIn(s, i + 19, i + 23, Hex) && s[i + 23] == HYPHEN
    && AllIn(s, i + 24, i + 36, Hex)
  }

  /** A run of digits with no identifier character on either side. */
  predicate LoneDigits(s: Text, i: nat, j: nat) {
    && i < j <= |s|
    && AllIn(s, i, j, Digit)
    && !(i > 0 && In(s[i - 1], Identifier))
    && !(j < |s| && In(s[j], Identifier))
  }

  lemma SsnPattern(s: Text, i: nat, j: nat)
    ensures Matches(SSN_PATTERN, s, i, j) <==> j == i + 11 && SsnAt(s, i)
  {
    var p6 := WordBoundary;
    var p5 := Then(Times(Digit, 4, 4), p6);
    var p4 := Then(One(Exactly(HYPHEN)), p5);
    var p3 := Then(Times(Digit, 2, 2), p4);
    var p2 := Then(One(Exactly(HYPHEN)), p3);
    var p1 := Then(Times(Digit, 3, 3), p2);
    ThenBoundary(p1, s, i, j);
    ThenTimes(Digit, 3, p2, s, i, j);
    ThenOne(Exactly(HYPHEN), p3, s, i + 3, j);
    ThenTimes(Digit, 2, p4, s, i + 4, j);
    ThenOne(Exactly(HYPHEN), p5, s, i + 6, j);
    ThenTimes(Digit, 4, p6, s, i + 7, j);
  }

  lemma EinPattern(s: Text, i: nat, j: nat)
    ensures Matches(EIN_PATTERN, s, i, j) <==> j == i + 10 && EinAt(s, i)
  {
    var p4 := WordBoundary;
    var p3 := Then(Times(Digit, 7, 7), p4);
    var p2 := Then(One(Exactly(HYPHEN)), p3);
    var p1 := Then(Times(Digit, 2, 2), p2);
    ThenBoundary(p1, s, i, j);
    ThenTimes(Digit, 2, p2, s, i, j);
    ThenOne(Exactly(HYPHEN), p3, s, i + 2, j);
    ThenTimes(Digit, 7, p4, s, i + 3, j);
  }

  lemma UuidPattern(s: Text, i: nat, j: nat)
    ensures Matches(UUID_PATTERN, s, i, j) <==> j == i + UUID_LENGTH && UuidAt(s, i)
  {
    var p10 := WordBoundary;
    var p9 := Then(Times(Hex, 12, 12), p10);
    var p8 := Then(One(Exactly(HYPHEN)), p9);
    var p7 := Then(Times(Hex, 4, 4), p8);
    var p6 := Then(One(Exactly(HYPHEN)), p7);
    var p5 := Then(Times(Hex, 4, 4), p6);
    var p4 := Then(One(Exactly(HYPHEN)), p5);
    var p3 := Then(Times(Hex, 4, 4), p4);
    var p2 := Then(One(Exactly(HYPHEN)), p3);
    var p1 := Then(Times(Hex, 8, 8), p2);
    ThenBoundary(p1, s, i, j);
    ThenTimes(Hex, 8, p2, s, i, j);
    ThenOne(Exactly(HYPHEN), p3, s, i + 8, j);
    ThenTimes(Hex, 4, p4, s, i + 9, j);
    ThenOne(Exactly(HYPHEN), p5, s, i + 13, j);
    ThenTimes(Hex, 4, p6, s, i + 14, j);
    ThenOne(Exactly(HYPHEN), p7, s, i + 18, j);
    ThenTimes(Hex, 4, p8, s, i + 19, j);
    ThenOne(Exactly(HYPHEN), p9, s, i + 23, j);
    ThenTimes(Hex, 12, p10, s, i + 24, j);
  }

  lemma ThenRunThenNotBefore(s: Text, i: nat, j: nat)
    requires i <= j <= |s|
    ensures Matches(Then(Times(Digit, 8, 17), NotBefore(Identifier)), s, i, j)
       <==> MatchesTimes(Digit, 8, 17, s, i, j) && Matches(NotBefore(Identifier), s, j, j)
  {
    if MatchesTimes(Digit, 8, 17, s, i, j) { assert Matches(Times(Digit, 8, 17), s, i, j); }
  }

  lemma LongRunPattern(s: Text, i: nat, j: nat)
    ensures Matches(LONG_DIGIT_RUN, s, i, j) <==> LoneDigits(s, i, j) && 8 <= j - i <= 17
  {
    if i <= j <= |s| {
      TimesExactly(Digit, 8, 17, s, i, j);
      ThenRunThenNotBefore(s, i, j);
    }
  }

  // ---------------------------------------------------------------------------
  // The detector
  // ---------------------------------------------------------------------------

  /** `value.replace(UUID_PATTERN, '')`, from a position on: leftmost matches, not overlapping. */
  function WithoutUuids(s: Text, i: nat): Text
    requires i <= |s|
    decreases |s| - i
  {
    if i == |s| then []
    else if UuidAt(s, i) then WithoutUuids(s, i + UUID_LENGTH)
    else [s[i]] + WithoutUuids(s, i + 1)
  }

  predicate HasSsn(s: Text) { exists i :: 0 <= i < |s| && SsnAt(s, i) }

  predicate HasEin(s: Text) { exists i :: 0 <= i < |s| && EinAt(s, i) }

  predicate HasLongRun(s: Text) {
    exists i, j :: 0 <= i < |s| && i + 8 <= j <= i + 17 && LoneDigits(s, i, j)
  }

  predicate HasPiiShape(s: Text) { HasSsn(s) || HasEin(s) || HasLongRun(s) }

  predicate LooksLikePii(value: Text) {
    HasPiiShape(WithoutUuids(value, 0))
  }

  /**
   * The shapes are what the three patterns match; the long run is one that cannot be extended, of 8
   * to 17 digits, touching no identifier character.
   */
  lemma ShapesAreThePatterns(s: Text)
    ensures HasPiiShape(s) <==> Test(SSN_PATTERN, s) || Test(EIN_PATTERN, s) || Test(LONG_DIGIT_RUN, s)
    ensures Test(LONG_DIGIT_RUN, s) <==>
      exists i: nat, j: nat :: LoneDigits(s, i, j) && 8 <= j - i <= 17 && !(i > 0 && IsDigit(s[i - 1]))
        && !(j < |s| && IsDigit(s[j]))
  {
    TestSsn(s);
    TestEin(s);
    TestLongRun(s);
  }

  lemma TestSsn(s: Text)
    ensures Test(SSN_PATTERN, s) <==> HasSsn(s)
  {
    if i: nat, j: nat :| Matches(SSN_PATTERN, s, i, j) { SsnPattern(s, i, j); }
    if i :| 0 <= i < |s| && SsnAt(s, i) { SsnPattern(s, i, i + 11); }
  }

  lemma TestEin(s: Text)
    ensures Test(EIN_PATTERN, s) <==> HasEin(s)
  {
    if i: nat, j: nat :| Matches(EIN_PATTERN, s, i, j) { EinPattern(s, i, j); }
    if i :| 0 <= i < |s| && EinAt(s, i) { EinPattern(s, i, i + 10); }
  }

  lemma TestLongRun(s: Text)
    ensures Test(LONG_DIGIT_RUN, s) <==> HasLongRun(s)
    ensures Test(LONG_DIGIT_RUN, s) <==>
      exists i: nat, j: nat :: LoneDigits(s, i, j) && 8 <= j - i <= 17 && !(i > 0 && IsDigit(s[i - 1]))
        && !(j < |s| && IsDigit(s[j]))
  {
    if i: nat, j: nat :| Matches(LONG_DIGIT_RUN, s, i, j) {
      LongRunPattern(s, i, j);
      assert !(i > 0 && IsDigit(s[i - 1])) && !(j < |s| && IsDigit(s[j]));
    }
    if i, j :| 0 <= i < |s| && i + 8 <= j <= i + 17 && LoneDigits(s, i, j) { LongRunPattern(s, i, j); }
    if i: nat, j: nat :| LoneDigits(s, i, j) && 8 <= j - i <= 17 { LongRunPattern(s, i, j); }
  }

  /** An identifier on its own is never taken for personal data, whatever digits it is made of. */
  lemma BareUuidIsNotPii(value: Text)
    requires |value| == UUID_LENGTH && UuidAt(value, 0)
    ensures !LooksLikePii(value)
  {
    assert WithoutUuids(value, UUID_LENGTH) == [];
  }

  // ---------------------------------------------------------------------------
  // Setting identifiers aside hides nothing and makes nothing up
  // ---------------------------------------------------------------------------

  /** The texts between the UUIDs; the first one starts at `i` and is known to hold none before `j`. */
  function Stretches(s: Text, i: nat, j: nat): seq<Text>
    requires i <= j <= |s|
    decreases |s| - j
  {
    if j == |s| then [s[i..]]
    else if UuidAt(s, j) then [s[i..j]] + Stretches(s, j + UUID_LENGTH, j + UUID_LENGTH)
    else Stretches(s, i, j + 1)
  }

  /** The text is the part of `s` from `n` on, and no word runs over either end of it. */
  predicate SetApart(t: Text, s: Text, n: nat) {
    && n + |t| <= |s| && s[n..n + |t|] == t
    && (t == [] || n == 0 || !IsWord(t[0]))
    && (t == [] || n + |t| == |s| || !IsWord(t[|t| - 1]))
  }

  lemma SameUnits(t: Text, s: Text, n: nat, i: nat, j: nat)
    requires SetApart(t, s, n) && i <= j <= |t|
    ensures AllIn(s, n + i, n + j, Hex) <==> AllIn(t, i, j, Hex)
    ensures AllIn(s, n + i, n + j, Digit) <==> AllIn(t, i, j, Digit)
  {
    assert forall k :: 0 <= k < |t| ==> t[k] == s[n..n + |t|][k] == s[n + k];
    assert forall k :: n + i <= k < n + j ==> s[k] == t[k - n];
  }

  lemma SsnSetApart(t: Text, s: Text, n: nat, i: nat)
    requires SetApart(t, s, n) && i + 11 <= |t|
    ensures SsnAt(s, n + i) <==> SsnAt(t, i)
  {
    assert forall k :: 0 <= k < |t| ==> t[k] == s[n..n + |t|][k] == s[n + k];
    SameUnits(t, s, n, i, i + 3);
    SameUnits(t, s, n, i + 4, i + 6);
    SameUnits(t, s, n, i + 7, i + 11);
    assert AllIn(t, i, i + 3, Digit) ==> In(t[i], Digit);
    assert AllIn(t, i + 7, i + 11, Digit) ==> In(t[i + 10], Digit);
  }

  lemma EinSetApart(t: Text, s: Text, n: nat, i: nat)
    requires SetApart(t, s, n) && i + 10 <= |t|
    ensures EinAt(s, n + i) <==> EinAt(t, i)
  {
    assert forall k :: 0 <= k < |t| ==> t[k] == s[n..n + |t|][k] == s[n + k];
    SameUnits(t, s, n, i, i + 2);
    SameUnits(t, s, n, i + 3, i + 10);
    assert AllIn(t, i, i + 2, Digit) ==> In(t[i], Digit);
    assert AllIn(t, i + 3, i + 10, Digit) ==> In(t[i + 9], Digit);
  }

  lemma LoneDigitsSetApart(t: Text, s: Text, n: nat, i: nat, j: nat)
    requires SetApart(t, s, n) && i < j <= |t|
    ensures LoneDigits(s, n + i, n + j) <==> LoneDigits(t, i, j)
  {
    assert forall k :: 0 <= k < |t| ==> t[k] == s[n..n + |t|][k] == s[n + k];
    SameUnits(t, s, n, i, j);
    assert AllIn(t, i, j, Digit) ==> In(t[i], Digit) && In(t[j - 1], Digit);
  }

  lemma UuidSetApart(t: Text, s: Text, n: nat, i: nat)
    requires SetApart(t, s, n) && UuidAt(t, i)
    ensures UuidAt(s, n + i)
  {
    assert forall k :: 0 <= k < |t| ==> t[k] == s[n..n + |t|][k] == s[n + k];
    SameUnits(t, s, n, i, i + 8);
    SameUnits(t, s, n, i + 9, i + 13);
    SameUnits(t, s, n, i + 14, i + 18);
    SameUnits(t, s, n, i + 19, i + 23);
    SameUnits(t, s, n, i + 24, i + 36);
    assert In(t[i], Hex) && In(t[i + 35], Hex);
  }

  /** Where one text ends and the next one starts, no word unit stands on either side. */
  predicate Gap(u: Text, v: Text) {
    (u == [] || !IsWord(u[|u| - 1])) && (v == [] || !IsWord(v[0]))
  }

  lemma BothSetApart(u: Text, v: Text)
    requires Gap(u, v)
    ensures SetApart(u, u + v, 0) && SetApart(v, u + v, |u|)
  {
    assert (u + v)[0..|u|] == u && (u + v)[|u|..|u| + |v|] == v;
  }

  lemma SsnJoin(u: Text, v: Text)
    requires Gap(u, v)
    ensures HasSsn(u + v) <==> HasSsn(u) || HasSsn(v)
  {
    BothSetApart(u, v);
    var s, n := u + v, |u|;
    if i :| 0 <= i < |s| && SsnAt(s, i) {
      if i + 11 <= n { SsnSetApart(u, s, 0, i); } else { SsnSetApart(v, s, n, i - n); }
    }
    if i :| 0 <= i < |u| && SsnAt(u, i) { SsnSetApart(u, s, 0, i); }
    if i :| 0 <= i < |v| && SsnAt(v, i) { SsnSetApart(v, s, n, i); }
  }

  lemma EinJoin(u: Text, v: Text)
    requires Gap(u, v)
    ensures HasEin(u + v) <==> HasEin(u) || HasEin(v)
  {
    BothSetApart(u, v);
    var s, n := u + v, |u|;
    if i :| 0 <= i < |s| && EinAt(s, i) {
      if i + 10 <= n { EinSetApart(u, s, 0, i); } else { EinSetApart(v, s, n, i - n); }
    }
    if i :| 0 <= i < |u| && EinAt(u, i) { EinSetApart(u, s, 0, i); }
    if i :| 0 <= i < |v| && EinAt(v, i) { EinSetApart(v, s, n, i); }
  }

  lemma LongRunJoin(u: Text, v: Text)
    requires Gap(u, v)
    ensures HasLongRun(u + v) <==> HasLongRun(u) || HasLongRun(v)
  {
    BothSetApart(u, v);
    var s, n := u + v, |u|;
    if i, j :| 0 <= i < |s| && i + 8 <= j <= i + 17 && LoneDigits(s, i, j) {
      if j <= n { LoneDigitsSetApart(u, s, 0, i, j); } else { LoneDigitsSetApart(v, s, n, i - n, j - n); }
    }
    if i, j :| 0 <= i < |u| && i + 8 <= j <= i + 17 && LoneDigits(u, i, j) { LoneDigitsSetApart(u, s, 0, i, j); }
    if i, j :| 0 <= i < |v| && i + 8 <= j <= i + 17 && LoneDigits(v, i, j) { LoneDigitsSetApart(v, s, n, i, j); }
  }

  /** Nothing looked for reaches across a gap. */
  lemma ShapesJoin(u: Text, v: Text)
    requires Gap(u, v)
    ensures HasPiiShape(u + v) <==> HasPiiShape(u) || HasPiiShape(v)
  {
    SsnJoin(u, v);
    EinJoin(u, v);
    LongRunJoin(u, v);
  }

  ghost predicate SomeHasShape(texts: seq<Text>) { exists t :: t in texts && HasPiiShape(t) }

  /** What is tested has a shape exactly when one of the stretches it is joined from has. */
  lemma {:induction false} ShapeInAStretch(s: Text, i: nat, j: nat)
    requires i <= j <= |s|
    ensures HasPiiShape(s[i..j] + WithoutUuids(s, j)) <==> SomeHasShape(Stretches(s, i, j))
    decreases |s| - j
  {
    if j == |s| {
      assert s[i..j] + [] == s[i..] && [s[i..]] + [] == [s[i..]];
      FirstOrRest(s[i..], []);
    } else if UuidAt(s, j) {
      ShapeInAStretch(s, j + UUID_LENGTH, j + UUID_LENGTH);
      ShapeAroundUuid(s, i, j);
    } else {
      ShapeInAStretch(s, i, j + 1);
      OneFurther(s, i, j);
    }
  }

  lemma OneFurther(s: Text, i: nat, j: nat)
    requires i <= j < |s| && !UuidAt(s, j)
    ensures s[i..j] + WithoutUuids(s, j) == s[i..j + 1] + WithoutUuids(s, j + 1)
    ensures Stretches(s, i, j) == Stretches(s, i, j + 1)
  {
    AppendOne(s[i..j], s[j], WithoutUuids(s, j + 1));
    assert s[i..j + 1] == s[i..j] + [s[j]];
  }

  lemma AppendOne(s: Text, c: CodeUnit, rest: Text)
    ensures s + ([c] + rest) == s + [c] + rest
  {}

  lemma ShapeAroundUuid(s: Text, i: nat, j: nat)
    requires i <= j < |s| && UuidAt(s, j)
    requires var next := j + UUID_LENGTH;
      HasPiiShape(s[next..next] + WithoutUuids(s, next)) <==> SomeHasShape(Stretches(s, next, next))
    ensures HasPiiShape(s[i..j] + WithoutUuids(s, j)) <==> SomeHasShape(Stretches(s, i, j))
  {
    var next: nat := j + UUID_LENGTH;
    assert s[next..next] + WithoutUuids(s, next) == WithoutUuids(s, next);
    ShapesJoin(s[i..j], WithoutUuids(s, next));
    FirstOrRest(s[i..j], Stretches(s, next, next));
  }

  lemma FirstOrRest(first: Text, rest: seq<Text>)
    ensures SomeHasShape([first] + rest) <==> HasPiiShape(first) || SomeHasShape(rest)
  {
    assert first in [first] + rest;
  }

  /** Nothing is set aside in a stretch. */
  lemma {:induction false} StretchesHoldNoUuid(s: Text, i: nat, j: nat)
    requires i <= j <= |s| && (i == 0 || i == |s| || !IsWord(s[i]))
    requires forall k: nat :: i <= k < j ==> !UuidAt(s, k)
    ensures forall t :: t in Stretches(s, i, j) ==> WithoutUuids(t, 0) == t
    decreases |s| - j
  {
    if j == |s| {
      StretchHoldsNoUuid(s, i, j);
      assert s[i..j] == s[i..];
    } else if UuidAt(s, j) {
      StretchHoldsNoUuid(s, i, j);
      StretchesHoldNoUuid(s, j + UUID_LENGTH, j + UUID_LENGTH);
    } else {
      StretchesHoldNoUuid(s, i, j + 1);
    }
  }

  lemma StretchHoldsNoUuid(s: Text, i: nat, j: nat)
    requires i <= j <= |s| && (i == 0 || i == |s| || !IsWord(s[i])) && (j == |s| || j == 0 || !IsWord(s[j - 1]))
    requires forall k: nat :: i <= k < j ==> !UuidAt(s, k)
    ensures WithoutUuids(s[i..j], 0) == s[i..j]
  {
    var t := s[i..j];
    assert SetApart(t, s, i);
    forall k: nat ensures !UuidAt(t, k) {
      if UuidAt(t, k) { UuidSetApart(t, s, i, k); }
    }
    NothingSetAside(t, 0);
  }

  lemma {:induction false} NothingSetAside(t: Text, i: nat)
    requires i <= |t| && forall k: nat :: !UuidAt(t, k)
    ensures WithoutUuids(t, i) == t[i..]
    decreases |t| - i
  {
    if i < |t| { NothingSetAside(t, i + 1); }
  }

  /**
   * A text is detected exactly when one of the stretches between its UUIDs is: setting a UUID aside
   * hides nothing next to it, and joining what stood around it makes nothing up.
   */
  lemma DetectedInAStretch(value: Text)
    ensures LooksLikePii(value)
       <==> exists t :: t in Stretches(value, 0, 0) && LooksLikePii(t)
  {
    assert value[0..0] + WithoutUuids(value, 0) == WithoutUuids(value, 0);
    ShapeInAStretch(value, 0, 0);
    StretchesHoldNoUuid(value, 0, 0);
  }

  /** The stretches are the whole text but its UUIDs: joined, they are what the patterns are tried on. */
  lemma {:induction false} StretchesAreTheRest(s: Text, i: nat, j: nat)
    requires i <= j <= |s|
    ensures Joined(Stretches(s, i, j)) == s[i..j] + WithoutUuids(s, j)
    decreases |s| - j
  {
    if j == |s| {
      assert Joined([s[i..]]) == s[i..] + Joined([]);
    } else if UuidAt(s, j) {
      var next: nat := j + UUID_LENGTH;
      StretchesAreTheRest(s, next, next);
      assert ([s[i..j]] + Stretches(s, next, next))[1..] == Stretches(s, next, next);
    } else {
      StretchesAreTheRest(s, i, j + 1);
      OneFurther(s, i, j);
    }
  }

  function Joined(texts: seq<Text>): Text {
    if texts == [] then [] else texts[0] + Joined(texts[1..])
  }

  // ---------------------------------------------------------------------------
  // Redaction
  // ---------------------------------------------------------------------------

  /** `[REDACTED]` */
  const REDACTED: Text := [0x5B, 0x52, 0x45, 0x44, 0x41, 0x43, 0x54, 0x45, 0x44, 0x5D]

  function Redacted(v: Value): Value {
    match v
    case Str(s) => if LooksLikePii(s) then Str(REDACTED) else v
    case Arr(items) => Arr(seq(|items|, i requires 0 <= i < |items| => Redacted(items[i])))
    case Obj(members) =>
      Obj(seq(|members|, i requires 0 <= i < |members| =>
        Member(members[i].key, if IsPiiFieldName(members[i].key) then Str(REDACTED) else Redacted(members[i].value))))
    case _ => v
  }

  /** The same name, however its letters are capitalised; the Kelvin sign is a capital k. */
  ghost predicate SameButForCase(name: Text, declared: Text) {
    && |name| == |declared|
    && forall i :: 0 <= i < |name| ==>
         || name[i] == declared[i]
         || (0x61 <= declared[i] <= 0x7A && name[i] == declared[i] - 0x20)
         || (0x41 <= declared[i] <= 0x5A && name[i] == declared[i] + 0x20)
         || ((declared[i] == 0x6B || declared[i] == 0x4B) && name[i] == 0x212A)
  }

  /** A field of a declared name is redacted whatever its value is, and however the name is capitalised. */
  lemma NamedFieldsAreRedacted(name: Text, i: nat, v: Value)
    requires i < |PII_FIELD_NAMES| && SameButForCase(name, Units(PII_FIELD_NAMES[i]))
    ensures Redacted(Obj([Member(name, v)])) == Obj([Member(name, Str(REDACTED))])
  {
    assert Lower(name) == Lower(Units(PII_FIELD_NAMES[i]));
    assert Redacted(Obj([Member(name, v)])).members == [Member(name, Str(REDACTED))];
  }

  /** What stands in the place of what is redacted. */
  lemma RedactedText()
    ensures REDACTED == Units("[REDACTED]")
  {
  }

  /** `redactPii` */
  method RedactPii(input: Value) returns (output: Value)
    ensures output == Redacted(input)
    decreases input
  {
    match input
    case Str(s) => output := if LooksLikePii(s) then Str(REDACTED) else input;
    case Arr(items) =>
      var mapped: seq<Value> := [];
      for i := 0 to |items|
        invariant |mapped| == i && forall k :: 0 <= k < i ==> mapped[k] == Redacted(items[k])
      {
        var item := RedactPii(items[i]);
        mapped := mapped + [item];
      }
      output := Arr(mapped);
      assert mapped == Redacted(input).items;
    case Obj(members) =>
      var entries: seq<Member> := [];
      for i := 0 to |members|
        invariant |entries| == i
        invariant forall k :: 0 <= k < i ==>
          entries[k] ==
            Member(members[k].key, if IsPiiFieldName(members[k].key) then Str(REDACTED) else Redacted(members[k].value))
      {
        var value := Str(REDACTED);
        if !IsPiiFieldName(members[i].key) { value := RedactPii(members[i].value); }
        entries := entries + [Member(members[i].key, value)];
      }
      output := Obj(entries);
      assert entries == Redacted(input).members;
    case _ => output := input;
  }

  // ---------------------------------------------------------------------------
  // The assertion
  // ---------------------------------------------------------------------------

  datatype PathStep = Index(i: nat) | Field(key: Text)

  type Path = seq<PathStep>

  /** Personal data is found at this path below the node. */
  ghost predicate FoundAt(node: Value, path: Path)
    decreases node
  {
    match node
    case Str(s) => path == [] && s != REDACTED && LooksLikePii(s)
    case Arr(items) => path != [] && path[0].Index? && path[0].i < |items| && FoundAt(items[path[0].i], path[1..])
    case Obj(members) => exists k :: 0 <= k < |members| && FoundInMember(members[k], path)
    case _ => false
  }

  ghost predicate FoundInMember(member: Member, path: Path)
    decreases member
  {
    && path != [] && path[0] == Field(member.key)
    && if IsPiiFieldName(member.key) && member.value != Str(REDACTED) then path[1..] == []
       else FoundAt(member.value, path[1..])
  }

  /** Nothing a log must not hold is anywhere in the payload. */
  ghost predicate Clean(node: Value) {
    forall path: Path :: !FoundAt(node, path)
  }

  class Walker {
    var findings: seq<Path>

    constructor ()
      ensures findings == []
    {
      findings := [];
    }

    /** Adds the path of everything found below the node, and nothing else. */
    method Walk(node: Value, path: Path)
      modifies this
      ensures forall p :: p in findings <==> p in old(findings) || Below(path, node, p)
      decreases node
    {
      match node
      case Str(s) =>
        if s != REDACTED && LooksLikePii(s) { findings := findings + [path]; }
        assert forall p :: Below(path, node, p) ==> p == path;
        assert path + [] == path;
      case Arr(items) =>
        for index := 0 to |items|
          invariant forall p ::
            p in findings <==> p in old(findings) || exists k :: 0 <= k < index && Below(path + [Index(k)], items[k], p)
        {
          Walk(items[index], path + [Index(index)]);
        }
        forall p
          ensures Below(path, node, p) <==> exists k :: 0 <= k < |items| && Below(path + [Index(k)], items[k], p)
        {
          BelowArray(path, node, p);
        }
      case Obj(members) =>
        for index := 0 to |members|
          invariant forall p ::
            p in findings <==> p in old(findings) || exists k :: 0 <= k < index && BelowMember(path, members[k], p)
        {
          var member := members[index];
          var childPath := path + [Field(member.key)];
          forall p
            ensures BelowMember(path, member, p)
               <==> if IsPiiFieldName(member.key) && member.value != Str(REDACTED) then p == childPath
                    else Below(childPath, member.value, p)
          {
            BelowField(path, member, p);
          }
          if IsPiiFieldName(member.key) && member.value != Str(REDACTED) {
            findings := findings + [childPath];
          } else {
            Walk(member.value, childPath);
          }
        }
        forall p ensures Below(path, node, p) <==> exists k :: 0 <= k < |members| && BelowMember(path, members[k], p) {
          BelowObject(path, node, p);
        }
      case _ =>
    }
  }

  ghost predicate Below(base: Path, node: Value, path: Path) {
    base <= path && FoundAt(node, path[|base|..])
  }

  ghost predicate BelowMember(base: Path, member: Member, path: Path) {
    base <= path && FoundInMember(member, path[|base|..])
  }

  lemma Extends(base: Path, step: PathStep, path: Path)
    ensures base + [step] <= path <==> base <= path && path[|base|..] != [] && path[|base|..][0] == step
    ensures base + [step] <= path ==> path[|base + [step]|..] == path[|base|..][1..]
  {
  }

  lemma BelowArray(base: Path, node: Value, path: Path)
    requires node.Arr?
    ensures Below(base, node, path)
       <==> exists k :: 0 <= k < |node.items| && Below(base + [Index(k)], node.items[k], path)
  {
    forall k: nat { Extends(base, Index(k), path); }
    if Below(base, node, path) {
      var k := path[|base|..][0].i;
      assert Below(base + [Index(k)], node.items[k], path);
    }
  }

  lemma BelowObject(base: Path, node: Value, path: Path)
    requires node.Obj?
    ensures Below(base, node, path) <==> exists k :: 0 <= k < |node.members| && BelowMember(base, node.members[k], path)
  {
    if Below(base, node, path) {
      var k :| 0 <= k < |node.members| && FoundInMember(node.members[k], path[|base|..]);
      assert BelowMember(base, node.members[k], path);
    }
  }

  lemma BelowField(base: Path, member: Member, path: Path)
    ensures BelowMember(base, member, path)
       <==> if IsPiiFieldName(member.key) && member.value != Str(REDACTED) then path == base + [Field(member.key)]
            else Below(base + [Field(member.key)], member.value, path)
  {
    Extends(base, Field(member.key), path);
  }

  /** `assertNoPii` */
  method AssertNoPii(payload: Value) returns (thrown: bool, findings: seq<Path>)
    ensures forall p :: p in findings <==> FoundAt(payload, p)
    ensures thrown <==> !Clean(payload)
  {
    var walker := new Walker();
    walker.Walk(payload, []);
    findings := walker.findings;
    thrown := findings != [];
    forall p: Path ensures Below([], payload, p) <==> FoundAt(payload, p) { assert p[0..] == p; }
    if thrown { assert findings[0] in findings; }
  }

  // ---------------------------------------------------------------------------
  // The two agree
  // ---------------------------------------------------------------------------

  lemma CleanArray(v: Value)
    requires v.Arr?
    ensures Clean(v) <==> forall i :: 0 <= i < |v.items| ==> Clean(v.items[i])
  {
    if Clean(v) {
      forall i, path: Path | 0 <= i < |v.items| ensures !FoundAt(v.items[i], path) {
        assert ([Index(i)] + path)[1..] == path;
        assert !FoundAt(v, [Index(i)] + path);
      }
    }
    if path: Path :| FoundAt(v, path) {
      assert FoundAt(v.items[path[0].i], path[1..]);
    }
  }

  ghost predicate CleanMember(m: Member) {
    if IsPiiFieldName(m.key) then m.value == Str(REDACTED) else Clean(m.value)
  }

  ghost predicate NothingIn(m: Member) {
    forall path: Path :: !FoundInMember(m, path)
  }

  lemma CleanMemberExactly(m: Member)
    ensures CleanMember(m) <==> NothingIn(m)
  {
    if IsPiiFieldName(m.key) && m.value != Str(REDACTED) {
      var path: Path := [Field(m.key)];
      assert path[1..] == [];
      assert FoundInMember(m, path);
    } else if IsPiiFieldName(m.key) {
      assert NothingIn(m);
    } else {
      FoundUnderField(m);
    }
  }

  lemma FoundUnderField(m: Member)
    requires !IsPiiFieldName(m.key)
    ensures Clean(m.value) <==> NothingIn(m)
  {
    if path: Path :| FoundAt(m.value, path) {
      var longer := [Field(m.key)] + path;
      assert longer[1..] == path;
      assert FoundInMember(m, longer);
    }
    if path: Path :| FoundInMember(m, path) {
      assert FoundAt(m.value, path[1..]);
    }
  }

  lemma CleanObject(v: Value)
    requires v.Obj?
    ensures Clean(v) <==> forall k :: 0 <= k < |v.members| ==> CleanMember(v.members[k])
  {
    forall k | 0 <= k < |v.members| ensures CleanMember(v.members[k]) <==> NothingIn(v.members[k]) {
      CleanMemberExactly(v.members[k]);
    }
    if path: Path :| FoundAt(v, path) {
      var k :| 0 <= k < |v.members| && FoundInMember(v.members[k], path);
      assert !CleanMember(v.members[k]);
    }
    if k :| 0 <= k < |v.members| && !CleanMember(v.members[k]) {
      var path: Path :| FoundInMember(v.members[k], path);
      assert FoundAt(v, path);
    }
  }

  /** The assertion passes a payload exactly when redaction would leave it as it is. */
  lemma {:induction false} CleanExactlyWhenUnchanged(v: Value)
    ensures Clean(v) <==> Redacted(v) == v
    decreases v
  {
    match v
    case Str(s) => assert FoundAt(v, []) <==> s != REDACTED && LooksLikePii(s);
    case Arr(items) =>
      CleanArray(v);
      forall i | 0 <= i < |items|
        ensures Clean(items[i]) <==> Redacted(items[i]) == items[i]
      {
        CleanExactlyWhenUnchanged(items[i]);
      }
      assert Redacted(v) == v <==> Redacted(v).items == items;
    case Obj(members) =>
      CleanObject(v);
      forall k | 0 <= k < |members| ensures CleanMember(members[k]) <==> Redacted(v).members[k] == members[k] {
        CleanExactlyWhenUnchanged(members[k].value);
      }
      assert Redacted(v) == v <==> Redacted(v).members == members;
    case _ =>
  }

  /** What was redacted once is left alone. */
  lemma {:induction false} RedactedTwice(v: Value)
    ensures Redacted(Redacted(v)) == Redacted(v)
    decreases v
  {
    match v
    case Str(s) =>
    case Arr(items) =>
      forall i | 0 <= i < |items|
        ensures Redacted(Redacted(items[i])) == Redacted(items[i])
      {
        RedactedTwice(items[i]);
      }
      assert Redacted(Redacted(v)).items == Redacted(v).items;
    case Obj(members) =>
      forall k | 0 <= k < |members|
        ensures Redacted(Redacted(members[k].value)) == Redacted(members[k].value)
      {
        RedactedTwice(members[k].value);
      }
      assert Redacted(Redacted(v)).members == Redacted(v).members;
    case _ =>
  }

  /** The assertion never throws on a redacted payload. */
  lemma RedactedPassesTheAssertion(v: Value)
    ensures Clean(Redacted(v))
  {
    RedactedTwice(v);
    CleanExactlyWhenUnchanged(Redacted(v));
  }

  /** Same arrays, same keys in the same order; only strings and the values of named fields go. */
  ghost predicate RedactionOf(v: Value, r: Value) {
    match v
    case Str(s) => r == v || (r == Str(REDACTED) && LooksLikePii(s))
    case Arr(items) => r.Arr? && |r.items| == |items| && forall i :: 0 <= i < |items| ==>
      RedactionOf(items[i], r.items[i])
    case Obj(members) =>
      r.Obj? && |r.members| == |members| && forall i :: 0 <= i < |members| ==>
        && r.members[i].key == members[i].key
        && if IsPiiFieldName(members[i].key) then r.members[i].value == Str(REDACTED)
           else RedactionOf(members[i].value, r.members[i].value)
    case _ => r == v
  }

  lemma {:induction false} RedactionKeepsTheShape(v: Value)
    ensures RedactionOf(v, Redacted(v))
    decreases v
  {
    match v
    case Arr(items) => forall i | 0 <= i < |items| { RedactionKeepsTheShape(items[i]); }
    case Obj(members) => forall i | 0 <= i < |members| { RedactionKeepsTheShape(members[i].value); }
    case _ =>
  }
}
