/** JSON texts (RFC 8259) as JavaScript's JSON.parse and Python's json.loads read them, and
    arrays of strings as JSON.stringify prints them. */
module Json {
  import opened Wrappers

  /** A UTF-16 code unit in JavaScript, a code point in Python. */
  type Code = c: int | 0 <= c < 0x110000
  type Text = seq<Code>

  const QUOTE: Code := 34
  const BACKSLASH: Code := 92
  const OPEN: Code := 91
  const CLOSE: Code := 93
  const LBRACE: Code := 123
  const RBRACE: Code := 125
  const COMMA: Code := 44
  const COLON: Code := 58
  const MINUS: Code := 45
  const PLUS: Code := 43
  const DOT: Code := 46
  const ZERO: Code := 48
  const LOWER_U: Code := 117

  const TRUE: Text := [116, 114, 117, 101]
  const FALSE: Text := [102, 97, 108, 115, 101]
  const NULL: Text := [110, 117, 108, 108]
  const NAN: Text := [78, 97, 78]
  const INFINITY: Text := [73, 110, 102, 105, 110, 105, 116, 121]

  /** Python joins an escaped surrogate pair into one code point and reads NaN and the
      infinities; JavaScript does neither. */
  datatype Dialect = JavaScript | Python

  datatype Value =
    | Null
    | Bool(b: bool)
    | Number(lexeme: Text, integral: bool)
    | String(text: Text)
    | Array(items: seq<Value>)
    | Object(members: seq<(Text, Value)>)

  /** The outcome of reading a phrase: what it denotes and where it ends. */
  datatype Parsed<T> = Fail | Done(value: T, next: nat)

  predicate Space(c: Code) {
    c == 32 || c == 9 || c == 10 || c == 13
  }

  predicate Digit(c: Code) {
    ZERO <= c <= 57
  }

  function SkipSpace(s: Text, i: nat): (j: nat)
    requires i <= |s|
    ensures i <= j <= |s|
    ensures forall k :: i <= k < j ==> Space(s[k])
    ensures j < |s| ==> !Space(s[j])
    decreases |s| - i
  {
    if i < |s| && Space(s[i]) then SkipSpace(s, i + 1) else i
  }

  // ---------------------------------------------------------------------------
  // Strings (section 7)
  // ---------------------------------------------------------------------------

  function HexDigit(c: Code): int {
    if ZERO <= c <= 57 then c - ZERO
    else if 97 <= c <= 102 then c - 87
    else if 65 <= c <= 70 then c - 55
    else -1
  }

  /** The four hexadecimal digits at `i`, or -1. */
  function Hex4(s: Text, i: nat): (v: int)
    ensures -1 <= v < 0x10000
  {
    if i + 4 > |s| then -1
    else
      var a, b, c, d := HexDigit(s[i]), HexDigit(s[i + 1]), HexDigit(s[i + 2]), HexDigit(s[i + 3]);
      if a < 0 || b < 0 || c < 0 || d < 0 then -1 else 4096 * a + 256 * b + 16 * c + d
  }

  predicate High(c: int) {
    0xD800 <= c < 0xDC00
  }

  predicate Low(c: int) {
    0xDC00 <= c < 0xE000
  }

  /** What a one-character escape stands for, or -1. */
  function ShortEscape(c: Code): int {
    if c == QUOTE || c == BACKSLASH || c == 47 then c
    else if c == 98 then 8
    else if c == 102 then 12
    else if c == 110 then 10
    else if c == 114 then 13
    else if c == 116 then 9
    else -1
  }

  /** An escaped low surrogate stands at `i`. */
  predicate EscapedLow(s: Text, i: nat) {
    i + 6 <= |s| && s[i] == BACKSLASH && s[i + 1] == LOWER_U && Low(Hex4(s, i + 2))
  }

  /** The escape whose backslash is at `i`. */
  function ParseEscape(d: Dialect, s: Text, i: nat): (r: Parsed<Code>)
    requires i < |s|
    ensures r.Done? ==> i + 2 <= r.next <= |s|
  {
    if i + 1 == |s| then Fail
    else if ShortEscape(s[i + 1]) >= 0 then Done(ShortEscape(s[i + 1]), i + 2)
    else if s[i + 1] != LOWER_U || Hex4(s, i + 2) < 0 then Fail
    else
      var u := Hex4(s, i + 2);
      if d.Python? && High(u) && EscapedLow(s, i + 6) then
        Done(0x10000 + 1024 * (u - 0xD800) + (Hex4(s, i + 8) - 0xDC00), i + 12)
      else Done(u, i + 6)
  }

  /** The rest of a string whose opening quote is before `i`. */
  function ParseChars(d: Dialect, s: Text, i: nat): (r: Parsed<Text>)
    requires i <= |s|
    ensures r.Done? ==> i < r.next <= |s|
    decreases |s| - i
  {
    if i == |s| then Fail
    else if s[i] == QUOTE then Done([], i + 1)
    else if s[i] == BACKSLASH then
      match ParseEscape(d, s, i)
      case Fail => Fail
      case Done(c, k) =>
        (match ParseChars(d, s, k)
         case Fail => Fail
         case Done(rest, j) => Done([c] + rest, j))
    else if s[i] < 32 then Fail
    else
      match ParseChars(d, s, i + 1)
      case Fail => Fail
      case Done(rest, j) => Done([s[i]] + rest, j)
  }

  // ---------------------------------------------------------------------------
  // Numbers (section 6) and literals (section 3)
  // ---------------------------------------------------------------------------

  function DigitsEnd(s: Text, i: nat): (j: nat)
    requires i <= |s|
    ensures i <= j <= |s| && forall k :: i <= k < j ==> Digit(s[k])
    decreases |s| - i
  {
    if i < |s| && Digit(s[i]) then DigitsEnd(s, i + 1) else i
  }

  predicate NumberCode(c: Code) {
    Digit(c) || c == MINUS || c == PLUS || c == DOT || c == 101 || c == 69
  }

  function FractionEnd(s: Text, i: nat): (j: nat)
    requires i <= |s|
    ensures i <= j <= |s| && forall k :: i <= k < j ==> NumberCode(s[k])
  {
    if i < |s| && s[i] == DOT && DigitsEnd(s, i + 1) > i + 1 then DigitsEnd(s, i + 1) else i
  }

  function ExponentEnd(s: Text, i: nat): (j: nat)
    requires i <= |s|
    ensures i <= j <= |s| && forall k :: i <= k < j ==> NumberCode(s[k])
  {
    if i < |s| && (s[i] == 101 || s[i] == 69) then
      var k := if i + 1 < |s| && (s[i + 1] == PLUS || s[i + 1] == MINUS) then i + 2 else i + 1;
      if DigitsEnd(s, k) > k then DigitsEnd(s, k) else i
    else i
  }

  function ParseNumber(s: Text, i: nat): (r: Parsed<Value>)
    requires i <= |s|
    ensures r.Done? ==> i < r.next <= |s| && forall k :: i <= k < r.next ==> NumberCode(s[k])
    ensures r.Done? ==> r.value.Number?
  {
    var k := if i < |s| && s[i] == MINUS then i + 1 else i;
    if k == |s| || !Digit(s[k]) then Fail
    else
      var whole := if s[k] == ZERO then k + 1 else DigitsEnd(s, k);
      var j := ExponentEnd(s, FractionEnd(s, whole));
      Done(Number(s[i..j], j == whole), j)
  }

  predicate Starts(s: Text, i: nat, word: Text) {
    i + |word| <= |s| && s[i..i + |word|] == word
  }

  // ---------------------------------------------------------------------------
  // Values, arrays and objects (sections 3 to 5)
  // ---------------------------------------------------------------------------

  function ParseValue(d: Dialect, s: Text, i: nat): (r: Parsed<Value>)
    requires i <= |s|
    ensures r.Done? ==> i < r.next <= |s|
    decreases |s| - i, 1
  {
    if i == |s| then Fail
    else if s[i] == QUOTE then
      match ParseChars(d, s, i + 1)
      case Fail => Fail
      case Done(text, j) => Done(String(text), j)
    else if s[i] == OPEN then
      var k := SkipSpace(s, i + 1);
      if k < |s| && s[k] == CLOSE then Done(Array([]), k + 1)
      else
        match ParseItems(d, s, k)
        case Fail => Fail
        case Done(items, j) => Done(Array(items), j)
    else if s[i] == LBRACE then
      var k := SkipSpace(s, i + 1);
      if k < |s| && s[k] == RBRACE then Done(Object([]), k + 1)
      else
        match ParseMembers(d, s, k)
        case Fail => Fail
        case Done(members, j) => Done(Object(members), j)
    else if Starts(s, i, TRUE) then Done(Bool(true), i + |TRUE|)
    else if Starts(s, i, FALSE) then Done(Bool(false), i + |FALSE|)
    else if Starts(s, i, NULL) then Done(Null, i + |NULL|)
    else if d.Python? && Starts(s, i, NAN) then Done(Number(NAN, false), i + |NAN|)
    else if d.Python? && Starts(s, i, INFINITY) then Done(Number(INFINITY, false), i + |INFINITY|)
    else if d.Python? && Starts(s, i, [MINUS] + INFINITY) then Done(Number([MINUS] + INFINITY, false), i + 9)
    else ParseNumber(s, i)
  }

  function Prepend(v: Value, r: Parsed<seq<Value>>): (p: Parsed<seq<Value>>)
    ensures p.Done? <==> r.Done?
    ensures p.Done? ==> p.next == r.next && |p.value| == |r.value| + 1
  {
    match r
    case Fail => Fail
    case Done(rest, n) => Done([v] + rest, n)
  }

  /** The items of a non-empty array from the first one on, its bracket included. */
  function ParseItems(d: Dialect, s: Text, i: nat): (r: Parsed<seq<Value>>)
    requires i <= |s|
    ensures r.Done? ==> i < r.next <= |s|
    decreases |s| - i, 2
  {
    match ParseValue(d, s, i)
    case Fail => Fail
    case Done(v, j) =>
      var k := SkipSpace(s, j);
      if k == |s| then Fail
      else if s[k] == CLOSE then Done([v], k + 1)
      else if s[k] != COMMA then Fail
      else
        Prepend(v, ParseItems(d, s, SkipSpace(s, k + 1)))
  }

  /** A member of an object: its key, a colon and its value. */
  function ParseMember(d: Dialect, s: Text, i: nat): (r: Parsed<(Text, Value)>)
    requires i <= |s|
    ensures r.Done? ==> i < r.next <= |s|
    decreases |s| - i, 1
  {
    if i == |s| || s[i] != QUOTE then Fail
    else
      match ParseChars(d, s, i + 1)
      case Fail => Fail
      case Done(key, j) =>
        var k := SkipSpace(s, j);
        if k == |s| || s[k] != COLON then Fail
        else
          match ParseValue(d, s, SkipSpace(s, k + 1))
          case Fail => Fail
          case Done(v, l) => Done((key, v), l)
  }

  /** The members of a non-empty object from the first one on, its brace included. */
  function ParseMembers(d: Dialect, s: Text, i: nat): (r: Parsed<seq<(Text, Value)>>)
    requires i <= |s|
    ensures r.Done? ==> i < r.next <= |s|
    decreases |s| - i, 2
  {
    match ParseMember(d, s, i)
    case Fail => Fail
    case Done(member, j) =>
      var k := SkipSpace(s, j);
      if k == |s| then Fail
      else if s[k] == RBRACE then Done([member], k + 1)
      else if s[k] != COMMA then Fail
      else
        match ParseMembers(d, s, SkipSpace(s, k + 1))
        case Fail => Fail
        case Done(rest, n) => Done([member] + rest, n)
  }

  /** A whole text: one value with white space around it. */
  function Parse(d: Dialect, s: Text): Option<Value> {
    match ParseValue(d, s, SkipSpace(s, 0))
    case Fail => None
    case Done(v, j) => if SkipSpace(s, j) == |s| then Some(v) else None
  }

  // ---------------------------------------------------------------------------
  // Printing
  // ---------------------------------------------------------------------------

  function HexCode(v: nat): Code
    requires v < 16
  {
    if v < 10 then ZERO + v else 87 + v
  }

  function UnicodeEscape(c: Code): Text
    requires c < 0x10000
  {
    [BACKSLASH, LOWER_U, HexCode(c / 4096), HexCode(c / 256 % 16), HexCode(c / 16 % 16), HexCode(c % 16)]
  }

  function EscapeOne(c: Code): Text {
    if c == QUOTE || c == BACKSLASH then [BACKSLASH, c]
    else if c == 8 then [BACKSLASH, 98]
    else if c == 9 then [BACKSLASH, 116]
    else if c == 10 then [BACKSLASH, 110]
    else if c == 12 then [BACKSLASH, 102]
    else if c == 13 then [BACKSLASH, 114]
    else if c < 32 || High(c) || Low(c) then UnicodeEscape(c)
    else [c]
  }

  /** The inside of a printed string; a surrogate is escaped unless it is half of a pair. */
  function Escape(text: Text): Text {
    if text == [] then []
    else if High(text[0]) && |text| > 1 && Low(text[1]) then text[..2] + Escape(text[2..])
    else EscapeOne(text[0]) + Escape(text[1..])
  }

  function Quoted(text: Text): Text {
    [QUOTE] + Escape(text) + [QUOTE]
  }

  /** The items of an array from the first one on, its bracket included. */
  function PrintItems(items: seq<Text>): Text
    requires items != []
    decreases |items|, 1
  {
    Quoted(items[0]) + AfterFirst(items)
  }

  /** What follows the first item. */
  function AfterFirst(items: seq<Text>): Text
    requires items != []
    decreases |items|, 0
  {
    if |items| == 1 then [CLOSE] else [COMMA] + PrintItems(items[1..])
  }

  /** `JSON.stringify` of an array of strings. */
  function Stringify(items: seq<Text>): Text {
    [OPEN] + if items == [] then [CLOSE] else PrintItems(items)
  }

  function Strings(items: seq<Text>): seq<Value> {
    seq(|items|, i requires 0 <= i < |items| => String(items[i]))
  }

  // ---------------------------------------------------------------------------
  // Parsing undoes printing
  // ---------------------------------------------------------------------------

  /** `part` stands in `s` at `i`. */
  predicate At(s: Text, i: nat, part: Text) {
    i + |part| <= |s| && s[i..i + |part|] == part
  }

  lemma AtSplit(s: Text, i: nat, a: Text, b: Text)
    requires At(s, i, a + b)
    ensures At(s, i, a) && At(s, i + |a|, b) && i + |a| + |b| <= |s|
  {
    assert s[i..i + |a|] == (a + b)[..|a|];
    assert s[i + |a|..i + |a| + |b|] == (a + b)[|a|..];
  }

  lemma AtIndex(s: Text, i: nat, part: Text, k: nat)
    requires At(s, i, part) && k < |part|
    ensures i + k < |s| && s[i + k] == part[k]
  {
  }

  lemma HexSum(c: nat)
    requires c < 0x10000
    ensures c == 4096 * (c / 4096) + 256 * (c / 256 % 16) + 16 * (c / 16 % 16) + c % 16
  {
    assert c / 16 / 16 == c / 256 && c / 256 / 16 == c / 4096;
  }

  lemma {:induction false} HexRoundTrip(s: Text, i: nat, c: Code)
    requires c < 0x10000 && At(s, i, UnicodeEscape(c))
    ensures Hex4(s, i + 2) == c
  {
    var e := UnicodeEscape(c);
    AtIndex(s, i, e, 2);
    AtIndex(s, i, e, 3);
    AtIndex(s, i, e, 4);
    AtIndex(s, i, e, 5);
    HexSum(c);
  }

  lemma {:induction false} EscapeReads(d: Dialect, s: Text, i: nat, c: Code)
    requires At(s, i, EscapeOne(c)) && |EscapeOne(c)| > 1 && (High(c) ==> !EscapedLow(s, i + 6))
    ensures s[i] == BACKSLASH && ParseEscape(d, s, i) == Done(c, i + |EscapeOne(c)|)
  {
    hide Hex4, HexCode, EscapedLow;
    AtIndex(s, i, EscapeOne(c), 0);
    AtIndex(s, i, EscapeOne(c), 1);
    if |EscapeOne(c)| == 6 {
      HexRoundTrip(s, i, c);
    }
  }

  lemma PlainReads(s: Text, i: nat, c: Code)
    requires At(s, i, EscapeOne(c)) && |EscapeOne(c)| <= 1
    ensures EscapeOne(c) == [c] && s[i] == c && c != QUOTE && c != BACKSLASH && c >= 32
  {
  }

  lemma {:induction false} OneReads(d: Dialect, s: Text, i: nat, c: Code, rest: Text, n: nat)
    requires At(s, i, EscapeOne(c)) && i + |EscapeOne(c)| <= |s| && (High(c) ==> !EscapedLow(s, i + 6))
    requires ParseChars(d, s, i + |EscapeOne(c)|) == Done(rest, n)
    ensures ParseChars(d, s, i) == Done([c] + rest, n)
  {
    hide At, EscapeOne, ParseEscape;
    if |EscapeOne(c)| > 1 {
      EscapeReads(d, s, i, c);
    } else {
      PlainReads(s, i, c);
    }
  }

  lemma PairReads(d: Dialect, s: Text, i: nat, pair: Text, rest: Text, n: nat)
    requires |pair| == 2 && High(pair[0]) && Low(pair[1]) && At(s, i, pair) && i + 2 <= |s|
    requires ParseChars(d, s, i + 2) == Done(rest, n)
    ensures ParseChars(d, s, i) == Done(pair + rest, n)
  {
    hide At, ParseEscape;
    AtIndex(s, i, pair, 0);
    AtIndex(s, i, pair, 1);
    assert ParseChars(d, s, i + 1) == Done([pair[1]] + rest, n);
    assert [pair[0]] + ([pair[1]] + rest) == pair + rest;
  }

  /** The first code, or the first pair of surrogates, is printed first. */
  lemma EscapeFirst(text: Text)
    requires text != []
    ensures if High(text[0]) && |text| > 1 && Low(text[1]) then Escape(text) == text[..2] + Escape(text[2..])
            else Escape(text) == EscapeOne(text[0]) + Escape(text[1..])
  {
    hide EscapeOne;
  }

  /** What is printed next never reads as the other half of a lone high surrogate: an escaped
      low one would be its pair, and pairs are printed raw. */
  lemma NoLowFollows(s: Text, i: nat, c: Code, rest: Text)
    requires High(c) && (rest == [] || !Low(rest[0])) && At(s, i + |EscapeOne(c)|, Escape(rest))
    requires var n := i + |EscapeOne(c)| + |Escape(rest)|; n < |s| && s[n] == QUOTE
    ensures !EscapedLow(s, i + 6)
  {
    assert |EscapeOne(c)| == 6;
    NoEscapedLow(s, i + 6, rest);
  }

  lemma NoEscapedLow(s: Text, i: nat, text: Text)
    requires (text == [] || !Low(text[0])) && At(s, i, Escape(text))
    requires i + |Escape(text)| < |s| && s[i + |Escape(text)|] == QUOTE
    ensures !EscapedLow(s, i)
  {
    hide Hex4;
    if text != [] {
      EscapeFirst(text);
      hide At, Escape, EscapeOne, EscapedLow;
      if High(text[0]) && |text| > 1 && Low(text[1]) {
        AtSplit(s, i, text[..2], Escape(text[2..]));
        AtIndex(s, i, text[..2], 0);
        StartsPlain(s, i);
      } else {
        AtSplit(s, i, EscapeOne(text[0]), Escape(text[1..]));
        OtherEscape(s, i, text[0]);
      }
    }
  }

  lemma StartsPlain(s: Text, i: nat)
    requires i < |s| && s[i] != BACKSLASH
    ensures !EscapedLow(s, i)
  {
    hide Hex4;
  }

  lemma OtherEscape(s: Text, i: nat, c: Code)
    requires At(s, i, EscapeOne(c)) && !Low(c)
    ensures !EscapedLow(s, i)
  {
    hide At, Hex4, HexCode;
    var e := EscapeOne(c);
    AtIndex(s, i, e, 0);
    if |e| > 1 {
      AtIndex(s, i, e, 1);
    }
    if |e| == 6 {
      HexRoundTrip(s, i, c);
    }
  }

  lemma NothingReads(d: Dialect, s: Text, i: nat)
    ensures Escape([]) == [] && (i < |s| && s[i] == QUOTE ==> ParseChars(d, s, i) == Done([], i + 1))
  {
  }

  lemma FirstPairReads(d: Dialect, s: Text, i: nat, text: Text, n: nat)
    requires |text| > 1 && High(text[0]) && Low(text[1]) && At(s, i, text[..2]) && i + 2 <= |s|
    requires ParseChars(d, s, i + 2) == Done(text[2..], n)
    ensures ParseChars(d, s, i) == Done(text, n)
  {
    hide At, ParseChars;
    PairReads(d, s, i, text[..2], text[2..], n);
    assert text == text[..2] + text[2..];
  }

  lemma FirstOneReads(d: Dialect, s: Text, i: nat, text: Text, n: nat)
    requires text != [] && (High(text[0]) ==> !EscapedLow(s, i + 6))
    requires var e := EscapeOne(text[0]);
             At(s, i, e) && i + |e| <= |s| && ParseChars(d, s, i + |e|) == Done(text[1..], n)
    ensures ParseChars(d, s, i) == Done(text, n)
  {
    hide At, ParseChars, EscapeOne, EscapedLow;
    OneReads(d, s, i, text[0], text[1..], n);
    assert text == [text[0]] + text[1..];
  }

  lemma {:induction false} EscapedReads(d: Dialect, s: Text, i: nat, text: Text)
    requires At(s, i, Escape(text))
    requires i + |Escape(text)| < |s| && s[i + |Escape(text)|] == QUOTE
    ensures ParseChars(d, s, i) == Done(text, i + |Escape(text)| + 1)
    decreases |text|
  {
    hide At, EscapeOne, EscapedLow, ParseChars, Escape, High, Low;
    var n := i + |Escape(text)| + 1;
    if text == [] {
      NothingReads(d, s, i);
      return;
    }
    EscapeFirst(text);
    if High(text[0]) && |text| > 1 && Low(text[1]) {
      AtSplit(s, i, text[..2], Escape(text[2..]));
      EscapedReads(d, s, i + 2, text[2..]);
      FirstPairReads(d, s, i, text, n);
    } else {
      var e, rest := EscapeOne(text[0]), text[1..];
      AtSplit(s, i, e, Escape(rest));
      EscapedReads(d, s, i + |e|, rest);
      if High(text[0]) {
        NoLowFollows(s, i, text[0], rest);
      }
      FirstOneReads(d, s, i, text, n);
    }
  }

  lemma QuotedReads(d: Dialect, s: Text, i: nat, text: Text)
    requires At(s, i, Quoted(text))
    ensures i < |s| && ParseValue(d, s, i) == Done(String(text), i + |Quoted(text)|)
  {
    hide At, ParseChars, Escape;
    AtSplit(s, i, [QUOTE] + Escape(text), [QUOTE]);
    AtIndex(s, i + 1 + |Escape(text)|, [QUOTE], 0);
    AtSplit(s, i, [QUOTE], Escape(text));
    AtIndex(s, i, [QUOTE], 0);
    EscapedReads(d, s, i + 1, text);
  }

  lemma NoSpace(s: Text, i: nat)
    requires i < |s| && !Space(s[i])
    ensures SkipSpace(s, i) == i
  {
  }

  /** An array that parses goes on after its first item with a closing bracket or a comma. */
  lemma ItemsGoOn(d: Dialect, s: Text, i: nat)
    requires i <= |s| && ParseItems(d, s, i).Done?
    ensures ParseValue(d, s, i).Done?
    ensures var k := SkipSpace(s, ParseValue(d, s, i).next);
            var j := ParseItems(d, s, i).next;
            k < |s| && if s[k] == CLOSE then j == k + 1
                       else
                         var rest := ParseItems(d, s, SkipSpace(s, k + 1));
                         rest.Done? && j == rest.next
  {
    hide ParseValue, SkipSpace, Prepend;
  }

  lemma {:induction false} ItemsClose(d: Dialect, s: Text, i: nat)
    requires i <= |s| && ParseItems(d, s, i).Done?
    ensures s[ParseItems(d, s, i).next - 1] == CLOSE
    decreases |s| - i
  {
    hide ParseItems, ParseValue, SkipSpace;
    ItemsGoOn(d, s, i);
    var k := SkipSpace(s, ParseValue(d, s, i).next);
    if s[k] != CLOSE {
      ItemsClose(d, s, SkipSpace(s, k + 1));
    }
  }

  lemma LastItem(d: Dialect, s: Text, i: nat, v: Value, j: nat)
    requires i <= |s| && ParseValue(d, s, i) == Done(v, j) && j < |s| && s[j] == CLOSE
    ensures ParseItems(d, s, i) == Done([v], j + 1)
  {
  }

  lemma {:induction false} NextItem(d: Dialect, s: Text, i: nat, v: Value, j: nat)
    requires i <= |s| && ParseValue(d, s, i) == Done(v, j) && j + 1 < |s| && s[j] == COMMA && !Space(s[j + 1])
    ensures ParseItems(d, s, i) == Prepend(v, ParseItems(d, s, j + 1))
  {
    hide ParseValue, SkipSpace, Prepend;
    NoSpace(s, j);
    NoSpace(s, j + 1);
  }

  lemma {:induction false} MoreItems(d: Dialect, s: Text, i: nat, v: Value, j: nat, rest: seq<Value>, n: nat)
    requires i <= |s| && ParseValue(d, s, i) == Done(v, j) && j + 1 < |s| && s[j] == COMMA && !Space(s[j + 1])
    requires ParseItems(d, s, j + 1) == Done(rest, n)
    ensures ParseItems(d, s, i) == Done([v] + rest, n)
  {
    NextItem(d, s, i, v, j);
    hide ParseValue, ParseItems, SkipSpace, Space;
  }

  lemma StringsCons(items: seq<Text>)
    requires items != []
    ensures Strings(items) == [String(items[0])] + Strings(items[1..])
    ensures |items| == 1 ==> Strings(items) == [String(items[0])]
  {
  }

  lemma FirstReads(d: Dialect, s: Text, i: nat, items: seq<Text>)
    requires items != []
    requires At(s, i, PrintItems(items))
    ensures ParseValue(d, s, i) == Done(String(items[0]), i + |Quoted(items[0])|)
    ensures At(s, i + |Quoted(items[0])|, AfterFirst(items))
    ensures |PrintItems(items)| == |Quoted(items[0])| + |AfterFirst(items)|
  {
    hide At, ParseValue, Quoted, AfterFirst;
    AtSplit(s, i, Quoted(items[0]), AfterFirst(items));
    QuotedReads(d, s, i, items[0]);
  }

  lemma {:induction false} ItemsRead(d: Dialect, s: Text, i: nat, items: seq<Text>)
    requires items != [] && At(s, i, PrintItems(items))
    ensures ParseItems(d, s, i) == Done(Strings(items), i + |PrintItems(items)|)
    decreases |items|
  {
    hide At, ParseItems, ParseValue, Quoted, SkipSpace, Strings, PrintItems;
    var j := i + |Quoted(items[0])|;
    FirstReads(d, s, i, items);
    AtIndex(s, j, AfterFirst(items), 0);
    if |items| == 1 {
      LastItem(d, s, i, String(items[0]), j);
      StringsCons(items);
    } else {
      var rest := items[1..];
      AtSplit(s, j, [COMMA], PrintItems(rest));
      ItemsRead(d, s, j + 1, rest);
      ItemsStart(s, j + 1, rest);
      MoreItems(d, s, i, String(items[0]), j, Strings(rest), j + 1 + |PrintItems(rest)|);
      StringsCons(items);
    }
  }

  lemma ItemsStart(s: Text, i: nat, items: seq<Text>)
    requires items != [] && At(s, i, PrintItems(items))
    ensures i < |s| && s[i] == QUOTE && SkipSpace(s, i) == i
  {
  }

  /** Parsing undoes printing, in either dialect and for every list of strings, lone
      surrogates included. */
  lemma ParseUndoesStringify(d: Dialect, items: seq<Text>)
    ensures Parse(d, Stringify(items)) == Some(Array(Strings(items)))
  {
    var s := Stringify(items);
    if items == [] {
      assert Strings(items) == [];
      EmptyReads(d, s);
    } else {
      assert At(s, 1, PrintItems(items));
      hide At, Parse, ParseItems, PrintItems, SkipSpace;
      ItemsStart(s, 1, items);
      ItemsRead(d, s, 1, items);
      ArrayReads(d, s, Strings(items));
    }
  }

  lemma EmptyReads(d: Dialect, s: Text)
    requires s == [OPEN, CLOSE]
    ensures Parse(d, s) == Some(Array([]))
  {
  }

  lemma ArrayReads(d: Dialect, s: Text, items: seq<Value>)
    requires |s| > 1 && s[0] == OPEN && s[1] == QUOTE && ParseItems(d, s, 1) == Done(items, |s|)
    ensures Parse(d, s) == Some(Array(items))
  {
  }

  lemma StringifyEnds(ids: seq<Text>)
    ensures Stringify(ids) != [] && Stringify(ids)[0] == OPEN && Stringify(ids)[|Stringify(ids)| - 1] == CLOSE
  {
    if ids != [] {
      ItemsEnd(ids);
    }
  }

  lemma {:induction false} ItemsEnd(items: seq<Text>)
    requires items != []
    ensures PrintItems(items) != [] && PrintItems(items)[|PrintItems(items)| - 1] == CLOSE
  {
    hide Quoted;
    if |items| > 1 {
      ItemsEnd(items[1..]);
    }
  }

  /** A text that is a JSON array with nothing around it. */
  predicate IsArrayText(d: Dialect, a: Text) {
    && a != [] && a[0] == OPEN && a[|a| - 1] == CLOSE
    && Parse(d, a).Some? && Parse(d, a).value.Array?
  }
}
