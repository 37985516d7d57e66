/**
 * The deterministic JSON text every content hash rests on
 * (packages/deliverables/src/content.ts).
 */
module Json {
  import opened Common
  import opened Ordering

  /** A JavaScript value as `Object.entries` and `Array.isArray` present it. */
  datatype Value =
    | Undefined
    | Null
    | Bool(b: bool)
    | Num(n: int)
    | Str(s: Text)
    | Arr(items: seq<Value>)
    | Obj(members: seq<Member>)

  datatype Member = Member(key: Text, value: Value)

  /** Numbers are safe integers, and an object has one value per key. */
  ghost predicate WellFormed(v: Value)
    decreases v
  {
    match v
    case Num(n) => SafeInteger(n)
    case Arr(items) => forall i :: 0 <= i < |items| ==> WellFormed(items[i])
    case Obj(members) =>
      && (forall i, j :: 0 <= i < j < |members| ==> members[i].key != members[j].key)
      && (forall i :: 0 <= i < |members| ==> WellFormed(members[i].value))
    case _ => true
  }

  // ---------------------------------------------------------------------------
  // Scalars, as JSON.stringify prints them
  // ---------------------------------------------------------------------------

  const NULL_TEXT: Text := [0x6E, 0x75, 0x6C, 0x6C]
  const TRUE_TEXT: Text := [0x74, 0x72, 0x75, 0x65]
  const FALSE_TEXT: Text := [0x66, 0x61, 0x6C, 0x73, 0x65]
  const QUOTE: CodeUnit := 0x22
  const BACKSLASH: CodeUnit := 0x5C
  const COMMA: CodeUnit := 0x2C
  const COLON: CodeUnit := 0x3A
  const MINUS: CodeUnit := 0x2D
  const OPEN_BRACKET: CodeUnit := 0x5B
  const CLOSE_BRACKET: CodeUnit := 0x5D
  const OPEN_BRACE: CodeUnit := 0x7B
  const CLOSE_BRACE: CodeUnit := 0x7D

  function Digits(n: nat): Text {
    if n < 10 then [0x30 + n] else Digits(n / 10) + [0x30 + n % 10]
  }

  function Decimal(n: int): Text {
    if n < 0 then [MINUS] + Digits(-n) else Digits(n)
  }

  predicate LeadSurrogate(c: CodeUnit) { 0xD800 <= c < 0xDC00 }
  predicate TrailSurrogate(c: CodeUnit) { 0xDC00 <= c < 0xE000 }

  function HexDigit(d: nat): CodeUnit
    requires d < 16
  {
    if d < 10 then 0x30 + d else 0x61 + d - 10
  }

  function EscapeUnit(c: CodeUnit): Text {
    if c == QUOTE || c == BACKSLASH then [BACKSLASH, c]
    else if c == 0x08 then [BACKSLASH, 0x62]
    else if c == 0x0C then [BACKSLASH, 0x66]
    else if c == 0x0A then [BACKSLASH, 0x6E]
    else if c == 0x0D then [BACKSLASH, 0x72]
    else if c == 0x09 then [BACKSLASH, 0x74]
    else if c < 0x20 || LeadSurrogate(c) || TrailSurrogate(c) then
      [BACKSLASH, 0x75, HexDigit(c / 16 / 16 / 16), HexDigit(c / 16 / 16 % 16), HexDigit(c / 16 % 16), HexDigit(c % 16)]
    else [c]
  }

  /** A surrogate pair is printed as it is; a lone surrogate is escaped. */
  function Escape(s: Text): Text {
    if s == [] then []
    else if |s| >= 2 && LeadSurrogate(s[0]) && TrailSurrogate(s[1]) then s[..2] + Escape(s[2..])
    else EscapeUnit(s[0]) + Escape(s[1..])
  }

  function Quote(s: Text): Text {
    [QUOTE] + Escape(s) + [QUOTE]
  }

  // ---------------------------------------------------------------------------
  // canonicalJson
  // ---------------------------------------------------------------------------

  function Defined(members: seq<Member>): seq<Member> {
    if members == [] then []
    else (if members[0].value.Undefined? then [] else [members[0]]) + Defined(members[1..])
  }

  function KeyOf(m: Member): Text { m.key }

  /** The members an object prints, in the order it prints them. */
  function Entries(members: seq<Member>): (entries: seq<Member>)
    ensures forall m :: m in entries <==> m in members && !m.value.Undefined?
  {
    DefinedMembers(members);
    SortContents(Defined(members), KeyOf);
    Sort(Defined(members), KeyOf)
  }

  lemma {:induction false} DefinedMembers(members: seq<Member>)
    ensures forall m :: m in Defined(members) <==> m in members && !m.value.Undefined?
  {
    if members != [] {
      DefinedMembers(members[1..]);
      assert members == [members[0]] + members[1..];
    }
  }

  lemma EntriesSmaller(v: Value)
    requires v.Obj?
    ensures forall i :: 0 <= i < |Entries(v.members)| ==> Entries(v.members)[i].value < v
  {
    var entries := Entries(v.members);
    forall i | 0 <= i < |entries| ensures entries[i].value < v {
      assert entries[i] in v.members;
      var j :| 0 <= j < |v.members| && v.members[j] == entries[i];
    }
  }

  function CanonicalJson(v: Value): Text
    decreases v, 1, 0
  {
    match v
    case Undefined => NULL_TEXT
    case Null => NULL_TEXT
    case Bool(b) => if b then TRUE_TEXT else FALSE_TEXT
    case Num(n) => Decimal(n)
    case Str(s) => Quote(s)
    case Arr(items) => [OPEN_BRACKET] + PrintItems(v, items) + [CLOSE_BRACKET]
    case Obj(members) =>
      EntriesSmaller(v);
      [OPEN_BRACE] + PrintMembers(v, Entries(members)) + [CLOSE_BRACE]
  }

  function PrintItems(ghost parent: Value, items: seq<Value>): Text
    requires forall i :: 0 <= i < |items| ==> items[i] < parent
    decreases parent, 0, |items|
  {
    if items == [] then []
    else if |items| == 1 then CanonicalJson(items[0])
    else CanonicalJson(items[0]) + [COMMA] + PrintItems(parent, items[1..])
  }

  function PrintMembers(ghost parent: Value, entries: seq<Member>): Text
    requires forall i :: 0 <= i < |entries| ==> entries[i].value < parent
    decreases parent, 0, |entries|
  {
    if entries == [] then []
    else
      var first := Quote(entries[0].key) + [COLON] + CanonicalJson(entries[0].value);
      if |entries| == 1 then first
      else first + [COMMA] + PrintMembers(parent, entries[1..])
  }

  // ---------------------------------------------------------------------------
  // The text itself, unit by unit
  // ---------------------------------------------------------------------------

  /** `0123456789abcdef` */
  const HEX_DIGITS: Text :=
    [0x30, 0x31, 0x32, 0x33, 0x34, 0x35, 0x36, 0x37, 0x38, 0x39, 0x61, 0x62, 0x63, 0x64, 0x65, 0x66]

  /** A unit in a string as section 7 of RFC 8259 writes it, one character or an escape. */
  ghost predicate WrittenUnit(c: CodeUnit, t: Text) {
    if c == 0x22 then t == [0x5C, 0x22]
    else if c == 0x5C then t == [0x5C, 0x5C]
    else if c == 0x08 then t == [0x5C, 0x62]
    else if c == 0x09 then t == [0x5C, 0x74]
    else if c == 0x0A then t == [0x5C, 0x6E]
    else if c == 0x0C then t == [0x5C, 0x66]
    else if c == 0x0D then t == [0x5C, 0x72]
    else if 0x20 <= c < 0xD800 || 0xE000 <= c then t == [c]
    else exists a: nat, b: nat, d: nat, e: nat :: HexEscape(c, t, a, b, d, e)
  }

  /** `\u` and the four digits of the unit. */
  ghost predicate HexEscape(c: CodeUnit, t: Text, a: nat, b: nat, d: nat, e: nat) {
    && a < 16 && b < 16 && d < 16 && e < 16 && c == ((a * 16 + b) * 16 + d) * 16 + e
    && t == [0x5C, 0x75, HEX_DIGITS[a], HEX_DIGITS[b], HEX_DIGITS[d], HEX_DIGITS[e]]
  }

  /** The inside of a string: surrogate pairs as they are, every other unit written alone. */
  ghost predicate WrittenUnits(s: Text, t: Text) {
    if s == [] then t == []
    else if |s| >= 2 && 0xD800 <= s[0] <= 0xDBFF && 0xDC00 <= s[1] <= 0xDFFF then
      |t| >= 2 && t[..2] == s[..2] && WrittenUnits(s[2..], t[2..])
    else exists k: nat :: k <= |t| && WrittenUnit(s[0], t[..k]) && WrittenUnits(s[1..], t[k..])
  }

  lemma EscapeWritten(c: CodeUnit)
    ensures WrittenUnit(c, EscapeUnit(c))
  {
    if c < 0x20 || 0xD800 <= c < 0xE000 {
      var a: nat, b: nat, d: nat, e: nat := c / 16 / 16 / 16, c / 16 / 16 % 16, c / 16 % 16, c % 16;
      HexDigits(a);
      HexDigits(b);
      HexDigits(d);
      HexDigits(e);
      HexParts(c);
      assert |EscapeUnit(c)| > 2 ==> HexEscape(c, EscapeUnit(c), a, b, d, e);
    }
  }

  lemma HexDigits(d: nat)
    requires d < 16
    ensures HexDigit(d) == HEX_DIGITS[d]
  {}

  lemma HexParts(c: CodeUnit)
    ensures c / 16 / 16 / 16 < 16
    ensures c == ((c / 16 / 16 / 16 * 16 + c / 16 / 16 % 16) * 16 + c / 16 % 16) * 16 + c % 16
  {}

  lemma {:induction false} EscapedWritten(s: Text)
    ensures WrittenUnits(s, Escape(s))
  {
    if s == [] {
    } else if |s| >= 2 && LeadSurrogate(s[0]) && TrailSurrogate(s[1]) {
      EscapedWritten(s[2..]);
      assert (s[..2] + Escape(s[2..]))[2..] == Escape(s[2..]);
    } else {
      EscapedWritten(s[1..]);
      EscapeWritten(s[0]);
      var u, rest := EscapeUnit(s[0]), Escape(s[1..]);
      assert (u + rest)[..|u|] == u && (u + rest)[|u|..] == rest;
    }
  }

  /** A decimal numeral without leading zeros. */
  ghost predicate Numeral(t: Text) {
    && t != [] && (forall i :: 0 <= i < |t| ==> 0x30 <= t[i] <= 0x39)
    && (|t| > 1 ==> t[0] != 0x30)
  }

  function Magnitude(digits: Text): int {
    if digits == [] then 0
    else 10 * Magnitude(digits[..|digits| - 1]) + digits[|digits| - 1] - 0x30
  }

  lemma {:induction false} DigitsRead(n: nat)
    ensures Numeral(Digits(n)) && Magnitude(Digits(n)) == n
    ensures n > 0 ==> Digits(n)[0] != 0x30
  {
    if n >= 10 {
      DigitsRead(n / 10);
      assert Digits(n)[..|Digits(n)| - 1] == Digits(n / 10);
    }
  }

  /** `parts.join(',')` */
  ghost function CommaJoined(parts: seq<Text>): Text {
    if parts == [] then [] else if |parts| == 1 then parts[0] else parts[0] + [0x2C] + CommaJoined(parts[1..])
  }

  lemma {:induction false} ItemsJoined(parent: Value, items: seq<Value>)
    requires forall i :: 0 <= i < |items| ==> items[i] < parent
    ensures PrintItems(parent, items)
         == CommaJoined(seq(|items|, i requires 0 <= i < |items| => CanonicalJson(items[i])))
  {
    if |items| > 1 {
      ItemsJoined(parent, items[1..]);
      assert seq(|items|, i requires 0 <= i < |items| => CanonicalJson(items[i]))[1..]
          == seq(|items[1..]|, i requires 0 <= i < |items[1..]| => CanonicalJson(items[1..][i]));
    }
  }

  ghost function Pair(m: Member): Text { CanonicalJson(Str(m.key)) + [0x3A] + CanonicalJson(m.value) }

  ghost function Pairs(entries: seq<Member>): seq<Text> {
    seq(|entries|, i requires 0 <= i < |entries| => Pair(entries[i]))
  }

  lemma {:induction false} MembersJoined(parent: Value, entries: seq<Member>)
    requires forall i :: 0 <= i < |entries| ==> entries[i].value < parent
    ensures PrintMembers(parent, entries)
         == CommaJoined(Pairs(entries))
  {
    if |entries| > 1 {
      MembersJoined(parent, entries[1..]);
      assert Pairs(entries)[1..] == Pairs(entries[1..]);
    }
  }

  /** The text of every kind of value, in literal units. */
  lemma TextOfValue(v: Value)
    ensures match v
      case Undefined => CanonicalJson(v) == [0x6E, 0x75, 0x6C, 0x6C]
      case Null => CanonicalJson(v) == [0x6E, 0x75, 0x6C, 0x6C]
      case Bool(b) => CanonicalJson(v) == if b then [0x74, 0x72, 0x75, 0x65] else [0x66, 0x61, 0x6C, 0x73, 0x65]
      case Num(n) => exists t :: Numeral(t) && CanonicalJson(v) == (if n < 0 then [0x2D] + t else t)
                                 && Magnitude(t) == if n < 0 then -n else n
      case Str(s) => exists t :: WrittenUnits(s, t) && CanonicalJson(v) == [0x22] + t + [0x22]
      case Arr(items) => CanonicalJson(v)
        == [0x5B] + CommaJoined(seq(|items|, i requires 0 <= i < |items| => CanonicalJson(items[i]))) + [0x5D]
      case Obj(members) => CanonicalJson(v) == [0x7B] + CommaJoined(Pairs(Entries(members))) + [0x7D]
  {
    match v
    case Num(n) =>
      DigitsRead(if n < 0 then -n else n);
      assert Numeral(Digits(if n < 0 then -n else n));
    case Str(s) =>
      EscapedWritten(s);
      assert WrittenUnits(s, Escape(s));
    case Arr(items) => ItemsJoined(v, items);
    case Obj(members) =>
      EntriesSmaller(v);
      MembersJoined(v, Entries(members));
    case _ =>
  }

  // ---------------------------------------------------------------------------
  // What the text is meant to identify
  // ---------------------------------------------------------------------------

  ghost predicate HasKey(members: seq<Member>, key: Text) {
    exists i :: 0 <= i < |members| && members[i].key == key && !members[i].value.Undefined?
  }

  /**
   * Equal at every depth, up to the order of object members, members that are undefined, and
   * undefined standing for null outside an object.
   */
  ghost predicate Equivalent(a: Value, b: Value)
    decreases a
  {
    match (a, b)
    case (Arr(xs), Arr(ys)) =>
      |xs| == |ys| && forall i :: 0 <= i < |xs| ==> Equivalent(xs[i], ys[i])
    case (Obj(ms), Obj(ns)) =>
      && (forall key :: HasKey(ms, key) <==> HasKey(ns, key))
      && (forall i, j :: 0 <= i < |ms| && 0 <= j < |ns| && ms[i].key == ns[j].key
                         && !ms[i].value.Undefined? && !ns[j].value.Undefined?
                         ==> Equivalent(ms[i].value, ns[j].value))
    case _ => a == b || ((a.Undefined? || a.Null?) && (b.Undefined? || b.Null?))
  }

  /** The representative of a value: defined members only, sorted, at every depth. */
  function Normal(v: Value): Value
    decreases v, 1, 0
  {
    match v
    case Undefined => Null
    case Arr(items) => Arr(NormalItems(v, items))
    case Obj(members) =>
      EntriesSmaller(v);
      Obj(NormalMembers(v, Entries(members)))
    case _ => v
  }

  function NormalItems(ghost parent: Value, items: seq<Value>): (r: seq<Value>)
    requires forall i :: 0 <= i < |items| ==> items[i] < parent
    ensures |r| == |items|
    ensures forall i :: 0 <= i < |items| ==> r[i] == Normal(items[i])
    decreases parent, 0, |items|
  {
    if items == [] then [] else [Normal(items[0])] + NormalItems(parent, items[1..])
  }

  function NormalMembers(ghost parent: Value, entries: seq<Member>): (r: seq<Member>)
    requires forall i :: 0 <= i < |entries| ==> entries[i].value < parent
    ensures |r| == |entries|
    ensures forall i :: 0 <= i < |entries| ==> r[i] == Member(entries[i].key, Normal(entries[i].value))
    decreases parent, 0, |entries|
  {
    if entries == [] then []
    else [Member(entries[0].key, Normal(entries[0].value))] + NormalMembers(parent, entries[1..])
  }

  // ---------------------------------------------------------------------------
  // The representative decides equivalence
  // ---------------------------------------------------------------------------

  lemma {:induction false} DefinedDistinct(members: seq<Member>)
    requires DistinctKeys(members, KeyOf)
    ensures DistinctKeys(Defined(members), KeyOf)
  {
    if members != [] {
      assert DistinctKeys(members[1..], KeyOf);
      DefinedDistinct(members[1..]);
      DefinedMembers(members[1..]);
      forall m | m in Defined(members[1..]) ensures m.key != members[0].key {
        assert m in members[1..];
        var j :| 0 <= j < |members[1..]| && members[1..][j] == m;
        assert KeyOf(members[0]) != KeyOf(members[j + 1]);
      }
    }
  }

  lemma EntriesSorted(members: seq<Member>)
    requires DistinctKeys(members, KeyOf)
    ensures StrictlySorted(Entries(members), KeyOf)
    ensures forall i, j :: 0 <= i < j < |Entries(members)| ==>
      ComesFirst(Entries(members)[i].key, Entries(members)[j].key)
    ensures forall key :: key in Keys(Entries(members), KeyOf) <==> HasKey(members, key)
  {
    DefinedDistinct(members);
    SortSorted(Defined(members), KeyOf);
    var entries := Entries(members);
    forall i, j | 0 <= i < j < |entries| ensures ComesFirst(entries[i].key, entries[j].key) {
      LessExactly(KeyOf(entries[i]), KeyOf(entries[j]));
    }
    var keys := Keys(entries, KeyOf);
    forall key ensures key in keys <==> HasKey(members, key) {
      if key in keys {
        var i :| 0 <= i < |keys| && keys[i] == key;
        assert entries[i] in members;
        var j :| 0 <= j < |members| && members[j] == entries[i];
      }
      if HasKey(members, key) {
        var i :| 0 <= i < |members| && members[i].key == key && !members[i].value.Undefined?;
        assert members[i] in entries;
        var j :| 0 <= j < |entries| && entries[j] == members[i];
        assert keys[j] == key;
      }
    }
  }

  /** An object whose defined members are these, in strictly rising order of their keys, prints them in this order. */
  lemma TextInOrder(members: seq<Member>, sorted: seq<Member>)
    requires DistinctKeys(members, KeyOf) && StrictlySorted(sorted, KeyOf)
    requires forall m :: m in sorted <==> m in members && !m.value.Undefined?
    ensures CanonicalJson(Obj(members)) == [0x7B] + CommaJoined(Pairs(sorted)) + [0x7D]
  {
    var entries := Entries(members);
    EntriesSorted(members);
    SameMembersSameKeys(entries, sorted);
    SortedUnique(entries, sorted, KeyOf);
    assert |entries| == |Keys(entries, KeyOf)| == |sorted|;
    forall i | 0 <= i < |entries| ensures entries[i] == sorted[i] {
      assert entries[i] in sorted;
      var j :| 0 <= j < |sorted| && sorted[j] == entries[i];
      assert Keys(entries, KeyOf)[i] == Keys(sorted, KeyOf)[i];
      LessTotal(KeyOf(sorted[i]), KeyOf(sorted[j]));
      assert i == j;
    }
    assert entries == sorted;
    TextOfValue(Obj(members));
  }

  lemma SameMembersSameKeys(xs: seq<Member>, ys: seq<Member>)
    requires forall m :: m in xs <==> m in ys
    ensures forall key :: key in Keys(xs, KeyOf) <==> key in Keys(ys, KeyOf)
  {
    forall key ensures key in Keys(xs, KeyOf) <==> key in Keys(ys, KeyOf) {
      if i :| 0 <= i < |xs| && Keys(xs, KeyOf)[i] == key {
        assert xs[i] in ys;
        var j :| 0 <= j < |ys| && ys[j] == xs[i];
        assert Keys(ys, KeyOf)[j] == key;
      }
      if i :| 0 <= i < |ys| && Keys(ys, KeyOf)[i] == key {
        assert ys[i] in xs;
        var j :| 0 <= j < |xs| && xs[j] == ys[i];
        assert Keys(xs, KeyOf)[j] == key;
      }
    }
  }

  predicate Plain(c: CodeUnit) { 0x20 <= c < 0xD800 && c != 0x22 && c != 0x5C }

  /** Without quotes, backslashes, controls and surrogates: printed as it is. */
  predicate AllPlain(s: Text) { forall i :: 0 <= i < |s| ==> Plain(s[i]) }

  /** `"key":` and the value. */
  ghost function Named(m: Member): Text { [0x22] + m.key + [0x22, 0x3A] + CanonicalJson(m.value) }

  ghost function NamedMembers(members: seq<Member>): seq<Text> {
    seq(|members|, i requires 0 <= i < |members| => Named(members[i]))
  }

  lemma PlainPair(m: Member)
    requires AllPlain(m.key)
    ensures Pair(m) == Named(m)
  {
    NothingEscaped(m.key);
  }

  /** Members that were not in order print in order. */
  lemma RotatedText(sorted: seq<Member>, k: nat)
    requires k <= |sorted| && forall i :: 0 <= i < |sorted| ==> AllPlain(sorted[i].key) && !sorted[i].value.Undefined?
    requires forall i :: 0 <= i < |sorted| - 1 ==> Less(sorted[i].key, sorted[i + 1].key)
    ensures CanonicalJson(Obj(sorted[k..] + sorted[..k])) == [0x7B] + CommaJoined(NamedMembers(sorted)) + [0x7D]
  {
    var members := sorted[k..] + sorted[..k];
    RisingIsSorted(sorted, KeyOf);
    forall i, j | 0 <= i < j < |sorted| ensures KeyOf(sorted[i]) != KeyOf(sorted[j]) {
      LessTotal(KeyOf(sorted[i]), KeyOf(sorted[i]));
      assert Less(KeyOf(sorted[i]), KeyOf(sorted[j]));
    }
    assert members[|sorted| - k..] == sorted[..k];
    TextInOrder(members, sorted);
    forall i | 0 <= i < |sorted| ensures Pair(sorted[i]) == Named(sorted[i]) { PlainPair(sorted[i]); }
    assert Pairs(sorted) == NamedMembers(sorted);
  }

  lemma {:induction false} NothingEscaped(s: Text)
    requires AllPlain(s)
    ensures Escape(s) == s
  {
    if s != [] {
      NothingEscaped(s[1..]);
      assert EscapeUnit(s[0]) == [s[0]];
    }
  }

  lemma {:induction false} SameItemsPrintSame(a: Value, b: Value, xs: seq<Value>, ys: seq<Value>)
    requires |xs| == |ys|
    requires forall i :: 0 <= i < |xs| ==> xs[i] < a && ys[i] < b && CanonicalJson(xs[i]) == CanonicalJson(ys[i])
    ensures PrintItems(a, xs) == PrintItems(b, ys)
  {
    if |xs| > 1 { SameItemsPrintSame(a, b, xs[1..], ys[1..]); }
  }

  lemma {:induction false} SameMembersPrintSame(a: Value, b: Value, es: seq<Member>, fs: seq<Member>)
    requires |es| == |fs|
    requires forall i :: 0 <= i < |es| ==> es[i].value < a && fs[i].value < b && es[i].key == fs[i].key
    requires forall i :: 0 <= i < |es| ==> CanonicalJson(es[i].value) == CanonicalJson(fs[i].value)
    ensures PrintMembers(a, es) == PrintMembers(b, fs)
  {
    if |es| > 1 { SameMembersPrintSame(a, b, es[1..], fs[1..]); }
  }

  lemma {:induction false} EquivalentSameNormal(a: Value, b: Value)
    requires WellFormed(a) && WellFormed(b) && Equivalent(a, b)
    ensures Normal(a) == Normal(b) && CanonicalJson(a) == CanonicalJson(b)
    decreases a, 1
  {
    match (a, b)
    case (Arr(xs), Arr(ys)) =>
      forall i | 0 <= i < |xs| ensures Normal(xs[i]) == Normal(ys[i]) && CanonicalJson(xs[i]) == CanonicalJson(ys[i]) {
        EquivalentSameNormal(xs[i], ys[i]);
      }
      SameItemsPrintSame(a, b, xs, ys);
      assert NormalItems(a, xs) == NormalItems(b, ys);
    case (Obj(ms), Obj(ns)) =>
      EntriesSmaller(a);
      EntriesSmaller(b);
      var es, fs := Entries(ms), Entries(ns);
      EquivalentEntries(a, b);
      assert NormalMembers(a, es) == NormalMembers(b, fs);
      SameMembersPrintSame(a, b, es, fs);
    case _ =>
  }

  lemma {:induction false} EquivalentEntries(a: Value, b: Value)
    requires a.Obj? && b.Obj? && WellFormed(a) && WellFormed(b) && Equivalent(a, b)
    ensures var es, fs := Entries(a.members), Entries(b.members);
      |es| == |fs| && forall i :: 0 <= i < |es| ==>
        es[i].key == fs[i].key && Normal(es[i].value) == Normal(fs[i].value)
          && CanonicalJson(es[i].value) == CanonicalJson(fs[i].value)
    decreases a, 0
  {
    var ms, ns := a.members, b.members;
    var es, fs := Entries(ms), Entries(ns);
    EntriesSorted(ms);
    EntriesSorted(ns);
    SortedUnique(es, fs, KeyOf);
    assert |es| == |Keys(es, KeyOf)| == |Keys(fs, KeyOf)| == |fs|;
    forall i | 0 <= i < |es|
      ensures es[i].key == fs[i].key && Normal(es[i].value) == Normal(fs[i].value)
      ensures CanonicalJson(es[i].value) == CanonicalJson(fs[i].value)
    {
      assert Keys(es, KeyOf)[i] == Keys(fs, KeyOf)[i];
      assert es[i] in ms && fs[i] in ns;
      var p :| 0 <= p < |ms| && ms[p] == es[i];
      var q :| 0 <= q < |ns| && ns[q] == fs[i];
      EquivalentSameNormal(ms[p].value, ns[q].value);
    }
  }

  /** Members with one key stand at one position of the two sorted lists. */
  lemma SamePosition(ms: seq<Member>, ns: seq<Member>, i: nat, j: nat)
    requires DistinctKeys(ms, KeyOf) && DistinctKeys(ns, KeyOf)
    requires i < |ms| && j < |ns| && ms[i].key == ns[j].key
    requires !ms[i].value.Undefined? && !ns[j].value.Undefined?
    requires Keys(Entries(ms), KeyOf) == Keys(Entries(ns), KeyOf)
    ensures exists p ::
      0 <= p < |Entries(ms)| && p < |Entries(ns)| && Entries(ms)[p] == ms[i] && Entries(ns)[p] == ns[j]
  {
    var es, fs := Entries(ms), Entries(ns);
    EntriesSorted(ms);
    EntriesSorted(ns);
    assert ms[i] in es && ns[j] in fs;
    var p :| 0 <= p < |es| && es[p] == ms[i];
    var q :| 0 <= q < |fs| && fs[q] == ns[j];
    assert |es| == |Keys(es, KeyOf)| == |Keys(fs, KeyOf)| == |fs|;
    assert KeyOf(es[p]) == KeyOf(fs[q]) == Keys(fs, KeyOf)[q] == KeyOf(es[q]);
    LessTotal(KeyOf(es[p]), KeyOf(es[q]));
    assert p == q;
  }

  lemma {:induction false} SameNormalEquivalent(a: Value, b: Value)
    requires WellFormed(a) && WellFormed(b) && Normal(a) == Normal(b)
    ensures Equivalent(a, b)
    decreases a
  {
    match (a, b)
    case (Arr(xs), Arr(ys)) =>
      assert |xs| == |Normal(a).items| == |Normal(b).items| == |ys|;
      forall i | 0 <= i < |xs| ensures Equivalent(xs[i], ys[i]) {
        assert Normal(a).items[i] == Normal(xs[i]) && Normal(b).items[i] == Normal(ys[i]);
        SameNormalEquivalent(xs[i], ys[i]);
      }
    case (Obj(ms), Obj(ns)) =>
      SameNormalMembers(a, b);
      forall i, j | 0 <= i < |ms| && 0 <= j < |ns| && ms[i].key == ns[j].key
                    && !ms[i].value.Undefined? && !ns[j].value.Undefined?
        ensures Equivalent(ms[i].value, ns[j].value)
      {
        SameNormalEquivalent(ms[i].value, ns[j].value);
      }
    case _ =>
  }

  lemma SameNormalEntries(a: Value, b: Value)
    requires a.Obj? && b.Obj? && Normal(a) == Normal(b)
    ensures var es, fs := Entries(a.members), Entries(b.members);
      && |es| == |fs|
      && (forall i :: 0 <= i < |es| ==> es[i].key == fs[i].key && Normal(es[i].value) == Normal(fs[i].value))
      && Keys(es, KeyOf) == Keys(fs, KeyOf)
  {
    NormalOfObject(a);
    NormalOfObject(b);
    var es, fs := Entries(a.members), Entries(b.members);
    forall i | 0 <= i < |es| ensures es[i].key == fs[i].key && Normal(es[i].value) == Normal(fs[i].value) {
      assert Normal(a).members[i] == Normal(b).members[i];
    }
  }

  lemma NormalOfObject(v: Value)
    requires v.Obj?
    ensures var entries := Entries(v.members);
      && Normal(v).Obj? && |Normal(v).members| == |entries|
      && forall i :: 0 <= i < |entries| ==>
           Normal(v).members[i] == Member(entries[i].key, Normal(entries[i].value))
  {
    EntriesSmaller(v);
    assert Normal(v) == Obj(NormalMembers(v, Entries(v.members)));
  }

  /** Objects with one normal form have the same keys, and values of one normal form under each. */
  lemma SameNormalMembers(a: Value, b: Value)
    requires a.Obj? && b.Obj? && WellFormed(a) && WellFormed(b) && Normal(a) == Normal(b)
    ensures forall key :: HasKey(a.members, key) <==> HasKey(b.members, key)
    ensures forall i, j :: 0 <= i < |a.members| && 0 <= j < |b.members| && a.members[i].key == b.members[j].key
                           && !a.members[i].value.Undefined? && !b.members[j].value.Undefined?
              ==> Normal(a.members[i].value) == Normal(b.members[j].value)
  {
    var ms, ns := a.members, b.members;
    SameNormalEntries(a, b);
    forall i, j | 0 <= i < |ms| && 0 <= j < |ns| && ms[i].key == ns[j].key
                  && !ms[i].value.Undefined? && !ns[j].value.Undefined?
      ensures Normal(ms[i].value) == Normal(ns[j].value)
    {
      SamePosition(ms, ns, i, j);
    }
    EntriesSorted(ms);
    EntriesSorted(ns);
    forall key ensures HasKey(ms, key) <==> HasKey(ns, key) {
      assert key in Keys(Entries(ms), KeyOf) <==> HasKey(ms, key);
    }
  }
}
