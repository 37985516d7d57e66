/**
 * A reader for the texts `canonicalJson` prints: no white space between tokens, and whole numbers
 * only. Reading a printed text back shows that the text loses nothing but the order of object members.
 */
module JsonReader {
  import opened Common
  import opened Json

  predicate StartsWithDigit(s: Text) { s != [] && IsDigit(s[0]) }

  // ---------------------------------------------------------------------------
  // Numbers
  // ---------------------------------------------------------------------------

  function DigitRun(s: Text): (n: nat)
    ensures n <= |s|
  {
    if StartsWithDigit(s) then 1 + DigitRun(s[1..]) else 0
  }

  function ReadNumber(s: Text): Option<(Value, Text)> {
    if s != [] && s[0] == MINUS then
      var run := DigitRun(s[1..]);
      if run == 0 then None else Some((Num(-Magnitude(s[1..1 + run])), s[1 + run..]))
    else
      var run := DigitRun(s);
      if run == 0 then None else Some((Num(Magnitude(s[..run])), s[run..]))
  }

  lemma {:induction false} RunOf(digits: Text, rest: Text)
    requires forall i :: 0 <= i < |digits| ==> IsDigit(digits[i])
    requires !StartsWithDigit(rest)
    ensures DigitRun(digits + rest) == |digits|
  {
    if digits == [] {
      assert digits + rest == rest;
    } else {
      RunOf(digits[1..], rest);
      assert (digits + rest)[1..] == digits[1..] + rest;
    }
  }

  lemma ReadDigits(n: nat, rest: Text)
    requires !StartsWithDigit(rest)
    ensures DigitRun(Digits(n) + rest) == |Digits(n)| > 0
    ensures Magnitude((Digits(n) + rest)[..|Digits(n)|]) == n && (Digits(n) + rest)[|Digits(n)|..] == rest
  {
    DigitsRead(n);
    RunOf(Digits(n), rest);
    assert (Digits(n) + rest)[..|Digits(n)|] == Digits(n);
  }

  lemma ReadDecimal(n: int, rest: Text)
    requires !StartsWithDigit(rest)
    ensures ReadNumber(Decimal(n) + rest) == Some((Num(n), rest))
  {
    if n < 0 {
      ReadDigits(-n, rest);
      assert Decimal(n) + rest == [MINUS] + (Digits(-n) + rest);
    } else {
      ReadDigits(n, rest);
      DigitsRead(n);
      assert (Digits(n) + rest)[0] == Digits(n)[0] != MINUS;
    }
  }

  // ---------------------------------------------------------------------------
  // Strings
  // ---------------------------------------------------------------------------

  function HexValue(c: CodeUnit): Option<nat> {
    if 0x30 <= c <= 0x39 then Some(c - 0x30)
    else if 0x61 <= c <= 0x66 then Some(c - 0x61 + 10)
    else if 0x41 <= c <= 0x46 then Some(c - 0x41 + 10)
    else None
  }

  /** The code unit an escape sequence stands for and its length. */
  function ReadEscape(s: Text): (r: Option<(CodeUnit, nat)>)
    requires s != [] && s[0] == BACKSLASH
    ensures r.Some? ==> 2 <= r.value.1 <= |s|
  {
    if |s| < 2 then None
    else match s[1]
      case 0x22 => Some((0x22, 2))
      case 0x5C => Some((0x5C, 2))
      case 0x2F => Some((0x2F, 2))
      case 0x62 => Some((0x08, 2))
      case 0x66 => Some((0x0C, 2))
      case 0x6E => Some((0x0A, 2))
      case 0x72 => Some((0x0D, 2))
      case 0x74 => Some((0x09, 2))
      case 0x75 =>
        if |s| < 6 then None
        else
          (match (HexValue(s[2]), HexValue(s[3]), HexValue(s[4]), HexValue(s[5]))
           case (Some(a), Some(b), Some(c), Some(d)) =>
             var unit := 0x1000 * a + 0x100 * b + 0x10 * c + d;
             if unit < 0x10000 then Some((unit, 6)) else None
           case _ => None)
      case _ => None
  }

  function Prepend(c: CodeUnit, r: Option<(Text, Text)>): Option<(Text, Text)> {
    if r.None? then None else Some(([c] + r.value.0, r.value.1))
  }

  /** The characters of a string up to its closing quotation mark. */
  function ReadChars(s: Text): (r: Option<(Text, Text)>)
    ensures r.Some? ==> |r.value.1| < |s|
    decreases |s|
  {
    if s == [] then None
    else if s[0] == QUOTE then Some(([], s[1..]))
    else if s[0] == BACKSLASH then
      match ReadEscape(s)
      case None => None
      case Some((unit, length)) => Prepend(unit, ReadChars(s[length..]))
    else if s[0] < 0x20 then None
    else Prepend(s[0], ReadChars(s[1..]))
  }

  lemma ReadAfterEscape(s: Text, c: CodeUnit, length: nat, rest: Text)
    requires s != [] && s[0] == BACKSLASH && ReadEscape(s) == Some((c, length)) && s[length..] == rest
    ensures ReadChars(s) == Prepend(c, ReadChars(rest))
  {}

  lemma ReadUnit(c: CodeUnit, rest: Text)
    ensures ReadChars(EscapeUnit(c) + rest) == Prepend(c, ReadChars(rest))
  {
    var escaped := EscapeUnit(c);
    assert (escaped + rest)[|escaped|..] == rest;
    if |escaped| == 6 {
      ReadAfterEscape(escaped + rest, c, 6, rest);
    } else if |escaped| == 2 {
      assert ReadEscape(escaped + rest) == Some((c, 2));
      ReadAfterEscape(escaped + rest, c, 2, rest);
    } else {
      ReadRaw(c, rest);
    }
  }

  lemma ReadRaw(c: CodeUnit, rest: Text)
    requires c >= 0x20 && c != QUOTE && c != BACKSLASH
    ensures ReadChars([c] + rest) == Prepend(c, ReadChars(rest))
  {
    assert ([c] + rest)[1..] == rest;
  }

  lemma EscapePairStep(s: Text, end: Text)
    requires |s| >= 2 && LeadSurrogate(s[0]) && TrailSurrogate(s[1])
    ensures Escape(s) + end == [s[0]] + ([s[1]] + (Escape(s[2..]) + end))
  {
    assert s[..2] == [s[0], s[1]];
    ConcatPair(s[0], s[1], Escape(s[2..]), end);
  }

  lemma ConcatPair(c: CodeUnit, d: CodeUnit, s: Text, end: Text)
    ensures [c, d] + s + end == [c] + ([d] + (s + end))
  {}

  lemma EscapeUnitStep(s: Text, end: Text)
    requires s != [] && !(|s| >= 2 && LeadSurrogate(s[0]) && TrailSurrogate(s[1]))
    ensures Escape(s) + end == EscapeUnit(s[0]) + (Escape(s[1..]) + end)
  {}

  lemma ReadRawPair(c: CodeUnit, d: CodeUnit, rest: Text)
    requires LeadSurrogate(c) && TrailSurrogate(d)
    ensures ReadChars([c] + ([d] + rest)) == Prepend(c, Prepend(d, ReadChars(rest)))
  {
    ReadRaw(d, rest);
    ReadRaw(c, [d] + rest);
  }

  lemma {:induction false} ReadEscaped(s: Text, rest: Text)
    ensures ReadChars(Escape(s) + ([QUOTE] + rest)) == Some((s, rest))
    decreases |s|
  {
    var end := [QUOTE] + rest;
    if s == [] {
      assert Escape(s) + end == end;
      assert end[1..] == rest;
    } else if |s| >= 2 && LeadSurrogate(s[0]) && TrailSurrogate(s[1]) {
      ReadEscaped(s[2..], rest);
      ReadRawPair(s[0], s[1], Escape(s[2..]) + end);
      EscapePairStep(s, end);
      assert s == [s[0]] + ([s[1]] + s[2..]);
    } else {
      ReadEscaped(s[1..], rest);
      ReadUnit(s[0], Escape(s[1..]) + end);
      EscapeUnitStep(s, end);
      assert s == [s[0]] + s[1..];
    }
  }

  lemma ReadQuoted(s: Text, rest: Text)
    ensures (Quote(s) + rest)[0] == QUOTE
    ensures ReadChars((Quote(s) + rest)[1..]) == Some((s, rest))
  {
    ReadEscaped(s, rest);
    assert (Quote(s) + rest)[1..] == Escape(s) + ([QUOTE] + rest);
  }

  // ---------------------------------------------------------------------------
  // Values
  // ---------------------------------------------------------------------------

  function ReadWord(s: Text, word: Text, v: Value): (r: Option<(Value, Text)>)
    requires word != []
    ensures r.Some? ==> |r.value.1| < |s|
  {
    if |s| >= |word| && s[..|word|] == word then Some((v, s[|word|..])) else None
  }

  function ReadValue(s: Text): (r: Option<(Value, Text)>)
    ensures r.Some? ==> |r.value.1| < |s|
    decreases |s|, 0
  {
    if s == [] then None
    else if s[0] == QUOTE then
      match ReadChars(s[1..])
      case None => None
      case Some((chars, rest)) => Some((Str(chars), rest))
    else if s[0] == OPEN_BRACKET then
      if |s| >= 2 && s[1] == CLOSE_BRACKET then Some((Arr([]), s[2..]))
      else
        match ReadItems(s[1..])
        case None => None
        case Some((items, rest)) => Some((Arr(items), rest))
    else if s[0] == OPEN_BRACE then
      if |s| >= 2 && s[1] == CLOSE_BRACE then Some((Obj([]), s[2..]))
      else
        match ReadMembers(s[1..])
        case None => None
        case Some((members, rest)) => Some((Obj(members), rest))
    else if s[0] == NULL_TEXT[0] then ReadWord(s, NULL_TEXT, Null)
    else if s[0] == TRUE_TEXT[0] then ReadWord(s, TRUE_TEXT, Bool(true))
    else if s[0] == FALSE_TEXT[0] then ReadWord(s, FALSE_TEXT, Bool(false))
    else ReadNumber(s)
  }

  /** One or more values separated by commas, up to the closing bracket. */
  function ReadItems(s: Text): (r: Option<(seq<Value>, Text)>)
    ensures r.Some? ==> |r.value.1| < |s|
    decreases |s|, 1
  {
    match ReadValue(s)
    case None => None
    case Some((first, rest)) =>
      if rest == [] then None
      else if rest[0] == CLOSE_BRACKET then Some(([first], rest[1..]))
      else if rest[0] != COMMA then None
      else
        match ReadItems(rest[1..])
        case None => None
        case Some((items, after)) => Some(([first] + items, after))
  }

  function ReadMembers(s: Text): (r: Option<(seq<Member>, Text)>)
    ensures r.Some? ==> |r.value.1| < |s|
    decreases |s|, 1
  {
    if s == [] || s[0] != QUOTE then None
    else
      match ReadChars(s[1..])
      case None => None
      case Some((key, afterKey)) =>
        if afterKey == [] || afterKey[0] != COLON then None
        else
          match ReadValue(afterKey[1..])
          case None => None
          case Some((value, rest)) =>
            if rest == [] then None
            else if rest[0] == CLOSE_BRACE then Some(([Member(key, value)], rest[1..]))
            else if rest[0] != COMMA then None
            else
              match ReadMembers(rest[1..])
              case None => None
              case Some((members, after)) => Some(([Member(key, value)] + members, after))
  }

  // ---------------------------------------------------------------------------
  // Reading back what was printed
  // ---------------------------------------------------------------------------

  // One step of each reader, for a text whose parts are known.

  lemma ReadArrayStep(s: Text, items: seq<Value>, rest: Text)
    requires s != [] && s[0] != CLOSE_BRACKET && ReadItems(s) == Some((items, rest))
    ensures ReadValue([OPEN_BRACKET] + s) == Some((Arr(items), rest))
  {
    assert ([OPEN_BRACKET] + s)[1..] == s;
  }

  lemma ReadObjectStep(s: Text, members: seq<Member>, rest: Text)
    requires s != [] && s[0] != CLOSE_BRACE && ReadMembers(s) == Some((members, rest))
    ensures ReadValue([OPEN_BRACE] + s) == Some((Obj(members), rest))
  {
    assert ([OPEN_BRACE] + s)[1..] == s;
  }

  lemma ReadEmptyStep(rest: Text)
    ensures ReadValue([OPEN_BRACKET] + ([CLOSE_BRACKET] + rest)) == Some((Arr([]), rest))
    ensures ReadValue([OPEN_BRACE] + ([CLOSE_BRACE] + rest)) == Some((Obj([]), rest))
  {
    var s := [OPEN_BRACKET] + ([CLOSE_BRACKET] + rest);
    assert |s| >= 2 && s[0] == OPEN_BRACKET && s[1] == CLOSE_BRACKET && s[2..] == rest;
    var t := [OPEN_BRACE] + ([CLOSE_BRACE] + rest);
    assert |t| >= 2 && t[0] == OPEN_BRACE && t[1] == CLOSE_BRACE && t[2..] == rest;
  }

  lemma ReadLastItem(s: Text, first: Value, rest: Text)
    requires ReadValue(s) == Some((first, [CLOSE_BRACKET] + rest))
    ensures ReadItems(s) == Some(([first], rest))
  {
    var r := [CLOSE_BRACKET] + rest;
    assert r != [] && r[0] == CLOSE_BRACKET && r[1..] == rest;
  }

  lemma ReadMoreItems(s: Text, first: Value, tail: Text, items: seq<Value>, rest: Text)
    requires ReadValue(s) == Some((first, [COMMA] + tail))
    requires ReadItems(tail) == Some((items, rest))
    ensures ReadItems(s) == Some(([first] + items, rest))
  {
    var r := [COMMA] + tail;
    assert r != [] && r[0] == COMMA && r[1..] == tail;
  }

  lemma ReadLastMember(s: Text, key: Text, valueText: Text, value: Value, rest: Text)
    requires s == Quote(key) + ([COLON] + valueText)
    requires ReadValue(valueText) == Some((value, [CLOSE_BRACE] + rest))
    ensures ReadMembers(s) == Some(([Member(key, value)], rest))
  {
    ReadQuoted(key, [COLON] + valueText);
    var afterKey := [COLON] + valueText;
    assert afterKey != [] && afterKey[0] == COLON && afterKey[1..] == valueText;
    var r := [CLOSE_BRACE] + rest;
    assert r != [] && r[0] == CLOSE_BRACE && r[1..] == rest;
  }

  lemma ReadMoreMembers(s: Text, key: Text, valueText: Text, value: Value, tail: Text, members: seq<Member>, rest: Text)
    requires s == Quote(key) + ([COLON] + valueText)
    requires ReadValue(valueText) == Some((value, [COMMA] + tail))
    requires ReadMembers(tail) == Some((members, rest))
    ensures ReadMembers(s) == Some(([Member(key, value)] + members, rest))
  {
    ReadQuoted(key, [COLON] + valueText);
    var afterKey := [COLON] + valueText;
    assert afterKey != [] && afterKey[0] == COLON && afterKey[1..] == valueText;
    var r := [COMMA] + tail;
    assert r != [] && r[0] == COMMA && r[1..] == tail;
  }

  lemma ReadPrintedNumber(n: int, rest: Text)
    requires !StartsWithDigit(rest)
    ensures ReadValue(Decimal(n) + rest) == Some((Num(n), rest))
  {
    ReadDecimal(n, rest);
    DigitsRead(if n < 0 then -n else n);
    var c := (Decimal(n) + rest)[0];
    assert c == Decimal(n)[0];
    assert c == MINUS || IsDigit(c);
  }

  lemma ReadPrintedString(chars: Text, rest: Text)
    ensures ReadValue(Quote(chars) + rest) == Some((Str(chars), rest))
  {
    ReadQuoted(chars, rest);
  }

  lemma ReadPrintedWord(v: Value, rest: Text)
    requires v.Undefined? || v.Null? || v.Bool?
    ensures ReadValue(CanonicalJson(v) + rest) == Some((Normal(v), rest))
  {
    var word := CanonicalJson(v);
    assert (word + rest)[|word|..] == rest && (word + rest)[..|word|] == word && (word + rest)[0] == word[0];
  }

  /** A printed value reads back as its representative, whatever follows it. */
  lemma {:induction false} ReadPrinted(v: Value, rest: Text)
    requires !StartsWithDigit(rest)
    ensures ReadValue(CanonicalJson(v) + rest) == Some((Normal(v), rest))
    decreases v, 2, 0
  {
    match v
    case Num(n) => ReadPrintedNumber(n, rest);
    case Str(chars) => ReadPrintedString(chars, rest);
    case Arr(items) => ReadPrintedArray(v, rest);
    case Obj(members) => ReadPrintedObject(v, rest);
    case _ => ReadPrintedWord(v, rest);
  }

  lemma {:induction false} ReadPrintedArray(v: Value, rest: Text)
    requires v.Arr?
    ensures ReadValue(CanonicalJson(v) + rest) == Some((Normal(v), rest))
    decreases v, 1, 0
  {
    var s := PrintItems(v, v.items) + ([CLOSE_BRACKET] + rest);
    assert CanonicalJson(v) + rest == [OPEN_BRACKET] + s;
    if v.items != [] {
      ReadPrintedItems(v, v.items, rest);
      ReadArrayStep(s, NormalItems(v, v.items), rest);
    } else {
      assert s == [CLOSE_BRACKET] + rest;
      ReadEmptyStep(rest);
    }
  }

  lemma {:induction false} ReadPrintedObject(v: Value, rest: Text)
    requires v.Obj?
    ensures ReadValue(CanonicalJson(v) + rest) == Some((Normal(v), rest))
    decreases v, 1, 0
  {
    EntriesSmaller(v);
    var entries := Entries(v.members);
    var s := PrintMembers(v, entries) + ([CLOSE_BRACE] + rest);
    assert CanonicalJson(v) + rest == [OPEN_BRACE] + s;
    if entries != [] {
      ReadPrintedMembers(v, entries, rest);
      assert s[0] == QUOTE;
      ReadObjectStep(s, NormalMembers(v, entries), rest);
    } else {
      assert s == [CLOSE_BRACE] + rest;
      ReadEmptyStep(rest);
    }
  }

  lemma PrintItemsSplit(parent: Value, items: seq<Value>, end: Text)
    requires |items| > 1 && forall i :: 0 <= i < |items| ==> items[i] < parent
    ensures PrintItems(parent, items) + end ==
      CanonicalJson(items[0]) + ([COMMA] + (PrintItems(parent, items[1..]) + end))
  {}

  lemma {:induction false} ReadPrintedItems(parent: Value, items: seq<Value>, rest: Text)
    requires items != [] && forall i :: 0 <= i < |items| ==> items[i] < parent
    ensures ReadItems(PrintItems(parent, items) + ([CLOSE_BRACKET] + rest)) == Some((NormalItems(parent, items), rest))
    decreases parent, 0, |items|
  {
    var end := [CLOSE_BRACKET] + rest;
    if |items| == 1 {
      ReadPrinted(items[0], end);
      ReadLastItem(CanonicalJson(items[0]) + end, Normal(items[0]), rest);
      assert NormalItems(parent, items) == [Normal(items[0])];
    } else {
      var tail := PrintItems(parent, items[1..]) + end;
      ReadPrintedItems(parent, items[1..], rest);
      ReadPrinted(items[0], [COMMA] + tail);
      ReadMoreItems(
        CanonicalJson(items[0]) + ([COMMA] + tail), Normal(items[0]), tail, NormalItems(parent, items[1..]), rest);
      PrintItemsSplit(parent, items, end);
    }
  }

  lemma ConcatLast(key: Text, value: Text, end: Text)
    ensures key + [COLON] + value + end == key + ([COLON] + (value + end))
  {}

  lemma ConcatMore(key: Text, value: Text, rest: Text, end: Text)
    ensures key + [COLON] + value + [COMMA] + rest + end == key + ([COLON] + (value + ([COMMA] + (rest + end))))
  {}

  lemma {:induction false} ReadPrintedMembers(parent: Value, entries: seq<Member>, rest: Text)
    requires entries != [] && forall i :: 0 <= i < |entries| ==> entries[i].value < parent
    ensures ReadMembers(PrintMembers(parent, entries) + ([CLOSE_BRACE] + rest)) ==
      Some((NormalMembers(parent, entries), rest))
    decreases parent, 0, |entries|
  {
    var end := [CLOSE_BRACE] + rest;
    var key, value := entries[0].key, entries[0].value;
    if |entries| == 1 {
      ConcatLast(Quote(key), CanonicalJson(value), end);
      ReadPrinted(value, end);
      var valueText := CanonicalJson(value) + end;
      ReadLastMember(Quote(key) + ([COLON] + valueText), key, valueText, Normal(value), rest);
      assert NormalMembers(parent, entries) == [Member(key, Normal(value))];
    } else {
      var tail := PrintMembers(parent, entries[1..]) + end;
      ConcatMore(Quote(key), CanonicalJson(value), PrintMembers(parent, entries[1..]), end);
      ReadPrintedMembers(parent, entries[1..], rest);
      ReadPrinted(value, [COMMA] + tail);
      var valueText := CanonicalJson(value) + ([COMMA] + tail);
      ReadMoreMembers(Quote(key) + ([COLON] + valueText), key, valueText, Normal(value), tail,
                      NormalMembers(parent, entries[1..]), rest);
    }
  }

  /**
   * The canonical form is canonical: two values print the same text exactly when they are equal
   * at every depth up to member order and undefined members.
   */
  lemma CanonicalJsonIsCanonical(a: Value, b: Value)
    requires WellFormed(a) && WellFormed(b)
    ensures CanonicalJson(a) == CanonicalJson(b) <==> Equivalent(a, b)
  {
    ReadPrinted(a, []);
    ReadPrinted(b, []);
    assert CanonicalJson(a) + [] == CanonicalJson(a) && CanonicalJson(b) + [] == CanonicalJson(b);
    if CanonicalJson(a) == CanonicalJson(b) {
      SameNormalEquivalent(a, b);
    }
    if Equivalent(a, b) {
      EquivalentSameNormal(a, b);
    }
  }
}
