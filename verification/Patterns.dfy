/** Regular expressions of the kind the detectors use, and what it means for one to match. */
module Patterns {
  import opened Common

  datatype Class = Digit | Hex | Identifier | Exactly(c: CodeUnit)

  const HYPHEN: CodeUnit := 0x2D

  predicate In(c: CodeUnit, cls: Class) {
    match cls
    case Digit => IsDigit(c)
    case Hex => IsDigit(c) || 0x41 <= c <= 0x46 || 0x61 <= c <= 0x66
    case Identifier => IsWord(c) || c == HYPHEN
    case Exactly(d) => c == d
  }

  /** Hexadecimal digits come in both cases. */
  lemma HexUnits(c: CodeUnit)
    ensures In(c, Hex) <==> c in [
      0x30, 0x31, 0x32, 0x33, 0x34, 0x35, 0x36, 0x37, 0x38, 0x39,
      0x41, 0x42, 0x43, 0x44, 0x45, 0x46, 0x61, 0x62, 0x63, 0x64, 0x65, 0x66]
  {
  }

  /** Identifiers are joined by hyphens and underscores. */
  lemma IdentifierUnits(c: CodeUnit)
    ensures In(c, Identifier)
       <==> 0x30 <= c <= 0x39 || 0x41 <= c <= 0x5A || 0x61 <= c <= 0x7A || c == 0x5F || c == 0x2D
  {
  }

  datatype Pattern =
    | One(cls: Class)
    | Times(cls: Class, low: nat, high: nat)
    | WordBoundary
    | NotAfter(cls: Class)
    | NotBefore(cls: Class)
    | Then(first: Pattern, second: Pattern)

  /** `\b` between positions i - 1 and i */
  predicate BoundaryAt(s: Text, i: nat)
    requires i <= |s|
  {
    (i > 0 && IsWord(s[i - 1])) != (i < |s| && IsWord(s[i]))
  }

  /** At an end there is a boundary beside a word unit, elsewhere where a word unit and another meet. */
  lemma BoundaryExactly(s: Text, i: nat)
    requires i <= |s|
    ensures s == [] ==> !BoundaryAt(s, i)
    ensures s != [] && i == 0 ==> (BoundaryAt(s, i) <==> IsWord(s[0]))
    ensures s != [] && i == |s| ==> (BoundaryAt(s, i) <==> IsWord(s[i - 1]))
    ensures 0 < i < |s| ==> (BoundaryAt(s, i) <==> (IsWord(s[i - 1]) <==> !IsWord(s[i])))
  {
  }

  /** The pattern matches the units of the text from i up to j. */
  ghost predicate Matches(p: Pattern, s: Text, i: nat, j: nat) {
    i <= j <= |s| &&
    match p
    case One(cls) => j == i + 1 && In(s[i], cls)
    case Times(cls, low, high) => MatchesTimes(cls, low, high, s, i, j)
    case WordBoundary => i == j && BoundaryAt(s, i)
    case NotAfter(cls) => i == j && !(i > 0 && In(s[i - 1], cls))
    case NotBefore(cls) => i == j && !(i < |s| && In(s[i], cls))
    case Then(first, second) => exists k: nat :: i <= k <= j && Matches(first, s, i, k) && Matches(second, s, k, j)
  }

  /** One unit of the class, over and over. */
  ghost predicate MatchesTimes(cls: Class, low: nat, high: nat, s: Text, i: nat, j: nat)
    requires i <= j <= |s|
    decreases high
  {
    || (low == 0 && i == j)
    || (high > 0 && i < j && In(s[i], cls) && MatchesTimes(cls, if low == 0 then 0 else low - 1, high - 1, s, i + 1, j))
  }

  /** `pattern.test(s)` */
  ghost predicate Test(p: Pattern, s: Text) {
    exists i: nat, j: nat :: Matches(p, s, i, j)
  }

  predicate AllIn(s: Text, i: nat, j: nat, cls: Class)
    requires j <= |s|
  {
    forall k :: i <= k < j ==> In(s[k], cls)
  }

  lemma {:induction false} TimesExactly(cls: Class, low: nat, high: nat, s: Text, i: nat, j: nat)
    requires i <= j <= |s|
    ensures MatchesTimes(cls, low, high, s, i, j) <==> low <= j - i <= high && AllIn(s, i, j, cls)
    decreases high
  {
    if high > 0 && i < j {
      TimesExactly(cls, if low == 0 then 0 else low - 1, high - 1, s, i + 1, j);
      assert AllIn(s, i, j, cls) <==> In(s[i], cls) && AllIn(s, i + 1, j, cls);
    }
  }

  lemma ThenTimes(cls: Class, n: nat, rest: Pattern, s: Text, i: nat, j: nat)
    ensures Matches(Then(Times(cls, n, n), rest), s, i, j)
       <==> i + n <= |s| && AllIn(s, i, i + n, cls) && Matches(rest, s, i + n, j)
  {
    forall k: nat | i <= k <= |s| ensures MatchesTimes(cls, n, n, s, i, k) <==> k == i + n && AllIn(s, i, k, cls) {
      TimesExactly(cls, n, n, s, i, k);
    }
    if i + n <= |s| && AllIn(s, i, i + n, cls) && Matches(rest, s, i + n, j) {
      assert Matches(Times(cls, n, n), s, i, i + n);
    }
  }

  lemma ThenOne(cls: Class, rest: Pattern, s: Text, i: nat, j: nat)
    ensures Matches(Then(One(cls), rest), s, i, j) <==> i < |s| && In(s[i], cls) && Matches(rest, s, i + 1, j)
  {
    if i < |s| && In(s[i], cls) && Matches(rest, s, i + 1, j) {
      assert Matches(One(cls), s, i, i + 1);
    }
  }

  lemma ThenBoundary(rest: Pattern, s: Text, i: nat, j: nat)
    ensures Matches(Then(WordBoundary, rest), s, i, j) <==> i <= |s| && BoundaryAt(s, i) && Matches(rest, s, i, j)
  {
    if i <= |s| && BoundaryAt(s, i) && Matches(rest, s, i, j) {
      assert Matches(WordBoundary, s, i, i);
    }
  }
}
