/** Types every other module uses: optional values, outcomes and JavaScript text. */
module Common {

  datatype Option<+T> = None | Some(value: T)

  /** The result of an exported operation; the prose of a refusal is not modelled. */
  datatype Outcome<+T> = Ok(value: T) | NoData | Refused | Failed | NotBuilt

  /** `return clearance as Outcome<...>`: the outcome of a step that did not produce a value, passed on. */
  function Forwarded<T, U>(outcome: Outcome<T>): (r: Outcome<U>)
    requires !outcome.Ok?
    ensures !r.Ok? && (r.NoData? <==> outcome.NoData?) && (r.Refused? <==> outcome.Refused?)
    ensures (r.Failed? <==> outcome.Failed?) && (r.NotBuilt? <==> outcome.NotBuilt?)
  {
    match outcome case NoData => NoData case Refused => Refused case Failed => Failed case NotBuilt => NotBuilt
  }

  /** A JavaScript string is a sequence of UTF-16 code units and is compared unit by unit. */
  type CodeUnit = n: int | 0 <= n < 0x10000

  type Text = seq<CodeUnit>

  /** The text of an ASCII string. */
  function Units(s: string): Text {
    seq(|s|, i requires 0 <= i < |s| => if s[i] as int < 0x80 then s[i] as int else 0xFFFD)
  }

  /** A point in time, in milliseconds since the epoch. */
  type Instant = int

  const DAY_MS := 86_400_000

  /** Whole days from one instant to another, rounded down. */
  function DaysBetween(from: Instant, to: Instant): int { (to - from) / DAY_MS }

  /** `Number.MAX_SAFE_INTEGER` */
  const MAX_SAFE_INTEGER := 0x1F_FFFF_FFFF_FFFF

  predicate SafeInteger(n: int) { -MAX_SAFE_INTEGER <= n <= MAX_SAFE_INTEGER }

  lemma SafeIntegers(n: int)
    ensures SafeInteger(n) <==> -9007199254740991 <= n <= 9007199254740991
  {
  }

  /** A day is 86 400 000 milliseconds and what is left of one does not count. */
  lemma WholeDays(from: Instant, days: int, rest: nat)
    requires rest < 86_400_000
    ensures DaysBetween(from, from + days * 86_400_000 + rest) == days
  {
  }

  function Min(a: int, b: int): int { if a < b then a else b }

  /** The code units `String.prototype.trim` removes. */
  predicate IsWhitespace(c: CodeUnit) {
    || 0x09 <= c <= 0x0D || c == 0x20 || c == 0xA0 || c == 0x1680 || 0x2000 <= c <= 0x200A
    || c == 0x2028 || c == 0x2029 || c == 0x202F || c == 0x205F || c == 0x3000 || c == 0xFEFF
  }

  predicate IsDigit(c: CodeUnit) { 0x30 <= c <= 0x39 }

  /** `\w` */
  predicate IsWord(c: CodeUnit) {
    IsDigit(c) || 0x41 <= c <= 0x5A || 0x61 <= c <= 0x7A || c == 0x5F
  }

  /** `text.trim()` */
  function Trim(text: Text): Text {
    if text == [] then []
    else if IsWhitespace(text[0]) then Trim(text[1..])
    else if IsWhitespace(text[|text| - 1]) then Trim(text[..|text| - 1])
    else text
  }

  /** `text.trim() === ''` */
  predicate Blank(text: Text) {
    forall i :: 0 <= i < |text| ==> IsWhitespace(text[i])
  }

  /** Trimming keeps everything from one unit that is not whitespace to another. */
  lemma {:induction false} TrimKeeps(text: Text, i: nat, j: nat)
    requires i <= j < |text| && !IsWhitespace(text[i]) && !IsWhitespace(text[j])
    ensures |Trim(text)| >= j - i + 1
    decreases |text|
  {
    if IsWhitespace(text[0]) {
      TrimKeeps(text[1..], i - 1, j - 1);
    } else if IsWhitespace(text[|text| - 1]) {
      TrimKeeps(text[..|text| - 1], i, j);
    }
  }

  /** Trimming takes white space off both ends and nothing else. */
  lemma {:induction false} TrimTakesTheEnds(text: Text) returns (i: nat, j: nat)
    ensures i <= j <= |text| && Trim(text) == text[i..j]
    ensures forall k :: 0 <= k < i || j <= k < |text| ==> IsWhitespace(text[k])
    decreases |text|
  {
    if text == [] || (!IsWhitespace(text[0]) && !IsWhitespace(text[|text| - 1])) {
      i, j := 0, |text|;
    } else if IsWhitespace(text[0]) {
      i, j := TrimTakesTheEnds(text[1..]);
      assert text[1..][i..j] == text[i + 1..j + 1];
      i, j := i + 1, j + 1;
    } else {
      i, j := TrimTakesTheEnds(text[..|text| - 1]);
      assert text[..|text| - 1][i..j] == text[i..j];
    }
  }

  lemma {:induction false} TrimmedEnds(text: Text)
    ensures var trimmed := Trim(text);
      trimmed != [] ==> !IsWhitespace(trimmed[0]) && !IsWhitespace(trimmed[|trimmed| - 1])
    decreases |text|
  {
    if text != [] && IsWhitespace(text[0]) {
      TrimmedEnds(text[1..]);
    } else if text != [] && IsWhitespace(text[|text| - 1]) {
      TrimmedEnds(text[..|text| - 1]);
    }
  }

  /** White space is the 25 units of `WhiteSpace` and `LineTerminator`, sections 12.2 and 12.3 of ECMA-262. */
  lemma WhitespaceUnits(c: CodeUnit)
    ensures IsWhitespace(c) <==> c in [
      0x09, 0x0A, 0x0B, 0x0C, 0x0D, 0x20, 0xA0, 0x1680, 0x2000, 0x2001, 0x2002, 0x2003, 0x2004, 0x2005, 0x2006, 0x2007,
      0x2008, 0x2009, 0x200A, 0x2028, 0x2029, 0x202F, 0x205F, 0x3000, 0xFEFF]
  {
  }

  /** An actor as recorded in the identity store, not as the caller describes it. */
  datatype Actor = Actor(human: bool, authorityLevel: int)

  predicate SeniorHuman(actor: Option<Actor>) {
    actor.Some? && actor.value.human && actor.value.authorityLevel >= 3
  }

  /**
   * What holds at first, and is kept by a step exactly when the step fits, holds throughout exactly
   * when every step fits.
   */
  lemma {:induction false} StepByStep(holds: nat -> bool, fits: nat -> bool, m: nat)
    requires holds(0)
    requires forall n: nat :: n < m && holds(n) ==> (holds(n + 1) <==> fits(n))
    ensures (forall n: nat :: n <= m ==> holds(n)) <==> (forall n: nat :: n < m ==> fits(n))
  {
    if m > 0 {
      var k: nat := m - 1;
      StepByStep(holds, fits, k);
      assert holds(k) ==> (holds(k + 1) <==> fits(k));
      if forall n: nat :: n < m ==> fits(n) {
        forall n: nat | n <= m ensures holds(n) { assert n <= k || n == k + 1; }
      }
      if forall n: nat :: n <= m ==> holds(n) {
        forall n: nat | n < m ensures fits(n) { assert n < k || n == k; }
      }
    }
  }
}
