/** What the strict parse of a final answer gives, exactly, and how it shows what is not a string. */
module AgentAnswers {
  import opened Wrappers
  import opened Json
  import opened AgentLoop
  import Decimal

  // ---------------------------------------------------------------------------
  // Integers
  // ---------------------------------------------------------------------------

  function Codes(s: string): Text {
    seq(|s|, i requires 0 <= i < |s| => s[i] as int as Code)
  }

  /** `str(n)`. */
  function Numeral(n: int): Text {
    if n < 0 then [MINUS] + Codes(Decimal.Print(-n)) else Codes(Decimal.Print(n))
  }

  predicate Digits(s: Text) {
    s != [] && forall k :: 0 <= k < |s| ==> 48 <= s[k] <= 57
  }

  lemma {:induction false} PrintDigits(n: nat)
    ensures Digits(Codes(Decimal.Print(n))) && (n > 0 ==> Codes(Decimal.Print(n))[0] != 48)
    ensures n == 0 ==> Codes(Decimal.Print(n)) == [48]
  {
    if n < 10 {
    } else {
      PrintDigits(n / 10);
      var t := Decimal.Print(n / 10);
      assert Codes(Decimal.Print(n)) == Codes(t) + [48 + n % 10];
    }
  }

  /** Digits without a leading zero are the numeral of some number. */
  lemma {:induction false} DigitsAreNumeral(s: Text) returns (n: nat)
    requires Digits(s) && (s[0] == 48 ==> |s| == 1)
    ensures Codes(Decimal.Print(n)) == s && (n == 0 <==> s == [48])
  {
    var d: nat := s[|s| - 1] - 48;
    if |s| == 1 {
      n := d;
      assert s == [48 + d];
    } else {
      var t := s[..|s| - 1];
      var m := DigitsAreNumeral(t);
      n := 10 * m + d;
      assert n / 10 == m && n % 10 == d;
      assert Codes(Decimal.Print(n)) == Codes(Decimal.Print(m)) + [48 + d];
      assert s == t + [s[|s| - 1]];
    }
  }

  lemma {:induction false} DigitsEndIs(s: Text, i: nat, j: nat)
    requires i <= j <= |s| && (forall k :: i <= k < j ==> Digit(s[k])) && (j == |s| || !Digit(s[j]))
    ensures DigitsEnd(s, i) == j
    decreases j - i
  {
    if i == j {
    } else {
      DigitsEndIs(s, i + 1, j);
    }
  }

  lemma {:induction false} NumeralReads(n: int)
    ensures Parse(Python, Numeral(n)) == Some(Number(Numeral(n), true))
  {
    var s := Numeral(n);
    var k := if n < 0 then 1 else 0;
    PrintDigits(if n < 0 then -n else n);
    hide Decimal.Print, Codes, Numeral;
    assert k < |s| && forall i :: k <= i < |s| ==> 48 <= s[i] <= 57;
    assert s[0] == 45 || 48 <= s[0] <= 57;
    DigitsEndIs(s, k, |s|);
    NumeralParses(s, k);
  }

  lemma NumeralParses(s: Text, k: nat)
    requires k < |s| && k <= 1 && (k == 1 ==> s[0] == MINUS) && (forall i :: k <= i < |s| ==> Digit(s[i]))
    requires s[k] == 48 ==> |s| == k + 1
    requires DigitsEnd(s, k) == |s|
    ensures Parse(Python, s) == Some(Number(s, true))
  {
    hide DigitsEnd, ParseChars, ParseItems, ParseMembers;
    assert ParseNumber(s, 0) == Done(Number(s, true), |s|) by {
      assert s[0..|s|] == s;
    }
    assert s[0] != QUOTE && s[0] != OPEN && s[0] != LBRACE;
    NotAWord(s, k);
    NoSpace(s, 0);
  }

  lemma NotAWord(s: Text, k: nat)
    requires k < |s| && k <= 1 && (k == 1 ==> s[0] == MINUS) && Digit(s[k])
    ensures !Starts(s, 0, TRUE) && !Starts(s, 0, FALSE) && !Starts(s, 0, NULL)
    ensures !Starts(s, 0, NAN) && !Starts(s, 0, INFINITY) && !Starts(s, 0, [MINUS] + INFINITY)
  {
  }

  /** Whatever integer an answer holds, `-0` included, it is shown as that integer is printed. */
  lemma {:induction false} IntegersAreShown(n: int)
    ensures Parse(Python, Numeral(n)) == Some(Number(Numeral(n), true))
    ensures Shown(Number(Numeral(n), true)) == Some(Numeral(n))
    ensures Shown(Number([45, 48], true)) == Some(Numeral(0))
  {
    NumeralReads(n);
    PrintDigits(if n < 0 then -n else n);
    PrintDigits(0);
    if n < 0 {
      assert Numeral(n)[1..] == Codes(Decimal.Print(-n));
    }
    hide Decimal.Print, Codes;
  }

  lemma WholeDigits(s: Text, i: nat)
    requires i <= |s| && ParseNumber(s, i).Done? && ParseNumber(s, i).value.integral
    ensures i < |s|
    ensures var (k, j) := (if s[i] == MINUS then i + 1 else i, ParseNumber(s, i).next);
            && k < j <= |s| && Digits(s[k..j]) && (s[k..j][0] == 48 ==> |s[k..j]| == 1)
  {
    var k := if s[i] == MINUS then i + 1 else i;
    assert DigitsEnd(s, k) > k;
    hide FractionEnd, ExponentEnd;
  }

  /** And those are all the integers a JSON text can hold. */
  lemma {:induction false} IntegersAreNumerals(s: Text, i: nat, lexeme: Text) returns (n: int)
    requires i <= |s| && ParseNumber(s, i).Done? && ParseNumber(s, i).value == Number(lexeme, true)
    ensures lexeme == Numeral(n) || (lexeme == [45, 48] && n == 0)
  {
    hide Decimal.Print, Codes;
    var k := if s[i] == MINUS then i + 1 else i;
    var j := ParseNumber(s, i).next;
    WholeDigits(s, i);
    hide DigitsEnd, FractionEnd, ExponentEnd;
    assert lexeme == s[i..j];
    var digits := s[k..j];
    var m := DigitsAreNumeral(digits);
    n := m as int;
    n := if k == i then n else -n;
    if k > i {
      assert lexeme == [MINUS] + digits;
    }
  }

  /** The rest of what an answer may hold: strings as they are, booleans as Python prints them;
      fractions, exponents, nulls, arrays and objects are left out. */
  lemma OthersAreShown(v: Value)
    ensures v.String? ==> Shown(v) == Some(v.text)
    ensures v.Bool? ==> Shown(v) == Some(if v.b then [84, 114, 117, 101] else [70, 97, 108, 115, 101])
    ensures v.Number? && !v.integral ==> Shown(v) == None
    ensures v.Null? || v.Array? || v.Object? ==> Shown(v) == None
  {
  }

  // ---------------------------------------------------------------------------
  // Lists of ids
  // ---------------------------------------------------------------------------

  /** `id` shows the item at place `i`, cut to 64 characters. */
  ghost predicate ShowsAt(items: seq<Value>, i: nat, id: Text) {
    && i < |items| && Shown(items[i]).Some?
    && var text := Shown(items[i]).value;
       id == if |text| > 64 then text[..64] else text
  }

  /** `picked` are the places, in order, of all the items that can be shown, and `ids` shows them. */
  ghost predicate Shows(items: seq<Value>, picked: seq<nat>, ids: seq<Text>) {
    && |picked| == |ids|
    && (forall k, l :: 0 <= k < l < |picked| ==> picked[k] < picked[l])
    && (forall k :: 0 <= k < |picked| ==> ShowsAt(items, picked[k], ids[k]))
    && (forall i :: 0 <= i < |items| && Shown(items[i]).Some? ==> i in picked)
  }

  function Later(picked: seq<nat>): (r: seq<nat>)
    ensures |r| == |picked| && forall k :: 0 <= k < |picked| ==> r[k] == picked[k] + 1
  {
    seq(|picked|, k requires 0 <= k < |picked| => picked[k] + 1)
  }

  lemma ShowsAtLater(items: seq<Value>, i: nat, id: Text)
    requires items != [] && ShowsAt(items[1..], i, id)
    ensures ShowsAt(items, i + 1, id)
  {
  }

  lemma ShowsLater(items: seq<Value>, picked: seq<nat>, ids: seq<Text>)
    requires items != [] && Shows(items[1..], picked, ids) && Shown(items[0]).None?
    ensures Shows(items, Later(picked), ids)
  {
    hide Shown, ShowsAt, Later;
    forall k | 0 <= k < |picked|
      ensures ShowsAt(items, Later(picked)[k], ids[k])
    {
      ShowsAtLater(items, picked[k], ids[k]);
    }
    forall i | 0 <= i < |items| && Shown(items[i]).Some?
      ensures i in Later(picked)
    {
      assert items[1..][i - 1] == items[i];
      var k :| 0 <= k < |picked| && picked[k] == i - 1;
      assert Later(picked)[k] == i;
    }
  }

  lemma ShowsFirst(items: seq<Value>, picked: seq<nat>, ids: seq<Text>, id: Text)
    requires items != [] && Shows(items[1..], picked, ids) && ShowsAt(items, 0, id)
    ensures Shows(items, [0] + Later(picked), [id] + ids)
  {
    hide Shown, ShowsAt, Later;
    var all, texts := [0] + Later(picked), [id] + ids;
    forall k | 0 <= k < |all|
      ensures ShowsAt(items, all[k], texts[k])
    {
      if k > 0 {
        ShowsAtLater(items, picked[k - 1], ids[k - 1]);
      }
    }
    forall i | 0 <= i < |items| && Shown(items[i]).Some?
      ensures i in all
    {
      if i > 0 {
        assert items[1..][i - 1] == items[i];
        var k :| 0 <= k < |picked| && picked[k] == i - 1;
        assert all[k + 1] == i;
      } else {
        assert all[0] == 0;
      }
    }
  }

  lemma {:induction false} ShownIdsExactly(items: seq<Value>) returns (picked: seq<nat>)
    ensures Shows(items, picked, ShownIds(items))
  {
    hide Shown, Shows;
    if items == [] {
      picked := [];
      NothingShown();
    } else {
      var rest := ShownIdsExactly(items[1..]);
      if Shown(items[0]).Some? {
        ShowsFirst(items, rest, ShownIds(items[1..]), Clip(Shown(items[0]).value, MAX_ID_CHARS));
        picked := [0] + Later(rest);
      } else {
        ShowsLater(items, rest, ShownIds(items[1..]));
        picked := Later(rest);
      }
    }
  }

  lemma NothingShown()
    ensures Shows([], [], [])
  {
  }

  /** An answer's ids are the first eight items that the array holds, those of them that can be
      shown, in order, each cut to 64 characters. */
  lemma AnswerIdsExactly(items: seq<Value>) returns (picked: seq<nat>)
    ensures Shows(if |items| > 8 then items[..8] else items, picked, AnswerIds(items))
  {
    picked := ShownIdsExactly(if |items| > 8 then items[..8] else items);
  }

  // ---------------------------------------------------------------------------
  // The strict parse
  // ---------------------------------------------------------------------------

  /** `core` is `s` without the blanks around it. */
  ghost predicate Bare(s: Text, core: Text) {
    exists i, j ::
      && 0 <= i <= j <= |s| && core == s[i..j]
      && (forall k :: 0 <= k < i || j <= k < |s| ==> Blank(s[k]))
      && (core != [] ==> !Blank(core[0]) && !Blank(core[|core| - 1]))
  }

  lemma {:induction false} LStripExactly(s: Text) returns (i: nat)
    ensures i <= |s| && LStrip(s) == s[i..] && (forall k :: 0 <= k < i ==> Blank(s[k]))
    ensures i < |s| ==> !Blank(s[i])
  {
    i := 0;
    if s != [] && Blank(s[0]) {
      i := LStripExactly(s[1..]);
      assert s[1..][i..] == s[i + 1..];
      assert forall k :: 1 <= k < i + 1 ==> s[k] == s[1..][k - 1];
      i := i + 1;
    }
  }

  lemma {:induction false} RStripExactly(s: Text) returns (j: nat)
    ensures j <= |s| && RStrip(s) == s[..j] && (forall k :: j <= k < |s| ==> Blank(s[k]))
    ensures j > 0 ==> !Blank(s[j - 1])
  {
    j := |s|;
    if s != [] && Blank(s[|s| - 1]) {
      j := RStripExactly(s[..|s| - 1]);
      assert s[..|s| - 1][..j] == s[..j];
    } else {
      assert s[..|s|] == s;
    }
  }

  lemma StripExactly(s: Text)
    ensures Bare(s, Strip(s))
  {
    var i := LStripExactly(s);
    var j := RStripExactly(s[i..]);
    assert s[i..][..j] == s[i..i + j];
    hide Blank, LStrip, RStrip;
    assert forall k :: i + j <= k < |s| ==> s[k] == s[i..][k - i];
    if j > 0 {
      assert s[i..i + j][0] == s[i] && s[i..i + j][j - 1] == s[i..][j - 1];
    }
  }

  lemma {:induction false} FindFirst(s: Text, c: Code, i: nat)
    requires i <= |s|
    ensures var k := Find(s, c, i);
            && (k == -1 ==> forall m :: i <= m < |s| ==> s[m] != c)
            && (k != -1 ==> s[k] == c && forall m :: i <= m < k ==> s[m] != c)
    decreases |s| - i
  {
    if i == |s| {
    } else {
      FindFirst(s, c, i + 1);
    }
  }

  lemma {:induction false} FindFinal(s: Text, c: Code, n: nat)
    requires n <= |s|
    ensures var k := FindLast(s, c, n);
            && (k == -1 ==> forall m :: 0 <= m < n ==> s[m] != c)
            && (k != -1 ==> s[k] == c && forall m :: k < m < n ==> s[m] != c)
  {
    if n == 0 {
    } else {
      FindFinal(s, c, n - 1);
    }
  }

  /** The text from its first opening bracket to its last closing one. */
  ghost predicate Bracketed(text: Text, i: nat, j: nat) {
    && i <= j < |text| && text[i] == 91 && text[j] == 93
    && (forall k :: 0 <= k < i ==> text[k] != 91)
    && (forall k :: j < k < |text| ==> text[k] != 93)
  }

  /** What JSON text a final answer is read as: all of it, or else, when it is no JSON text, what is
      between its outermost brackets. */
  ghost predicate ReadAs(text: Text, v: Option<Value>) {
    if Parse(Python, text).Some? then v == Parse(Python, text)
    else if exists i: nat, j: nat :: Bracketed(text, i, j) then
      exists i: nat, j: nat :: Bracketed(text, i, j) && v == Parse(Python, text[i..j + 1])
    else v == None
  }

  /** The strict parse of any answer: of the JSON text it is read as, an array gives its ids, and
      anything else, or nothing, gives none. */
  lemma ParseFinalExactly(content: Text) returns (text: Text, v: Option<Value>)
    ensures Bare(content, text) && ReadAs(text, v)
    ensures ParseFinal(content) == if v.Some? && v.value.Array? then AnswerIds(v.value.items) else []
  {
    hide Parse, AnswerIds, Bare;
    text := Strip(content);
    StripExactly(content);
    FindFirst(text, OPEN, 0);
    FindFinal(text, CLOSE, |text|);
    var start, end := Find(text, OPEN, 0), FindLast(text, CLOSE, |text|);
    hide Strip, Find, FindLast;
    if Parse(Python, text).Some? {
      v := Parse(Python, text);
    } else if start == -1 || end == -1 || end < start {
      v := None;
    } else {
      assert Bracketed(text, start, end);
      v := Parse(Python, text[start..end + 1]);
    }
  }
}
