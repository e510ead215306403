/** Answer extraction: the first JSON array of strings in a model's prose. */
module Bridge {
  import opened Wrappers
  import opened Json

  const MAX_IDS := 8

  predicate AllStrings(v: Value) {
    v.Array? && forall i :: 0 <= i < |v.items| ==> v.items[i].String?
  }

  function TextsOf(items: seq<Value>): seq<Text>
    requires forall i :: 0 <= i < |items| ==> items[i].String?
  {
    seq(|items|, i requires 0 <= i < |items| => items[i].text)
  }

  function FirstIds(ids: seq<Text>): seq<Text> {
    if |ids| > MAX_IDS then ids[..MAX_IDS] else ids
  }

  /** The inner scan from `end`, for the candidate that opens at `start`: the ids it returns,
      or None when it gives the candidate up. */
  function Scan(text: Text, start: nat, end: nat, depth: int, quoted: bool, escaped: bool): Option<seq<Text>>
    requires start <= end
    decreases |text| - end
  {
    if end >= |text| then None
    else if quoted then
      if escaped then Scan(text, start, end + 1, depth, true, false)
      else if text[end] == BACKSLASH then Scan(text, start, end + 1, depth, true, true)
      else if text[end] == QUOTE then Scan(text, start, end + 1, depth, false, false)
      else Scan(text, start, end + 1, depth, true, false)
    else if text[end] == QUOTE then Scan(text, start, end + 1, depth, true, escaped)
    else if text[end] == OPEN then Scan(text, start, end + 1, depth + 1, false, escaped)
    else if text[end] != CLOSE then Scan(text, start, end + 1, depth, false, escaped)
    else if depth - 1 != 0 then Scan(text, start, end + 1, depth - 1, false, escaped)
    else
      match Parse(JavaScript, text[start..end + 1])
      case None => None
      case Some(v) =>
        if AllStrings(v) then Some(FirstIds(TextsOf(v.items)))
        else Scan(text, start, end + 1, 0, false, escaped)
  }

  /** The outer scan from `start`. */
  function Extract(text: Text, start: nat): seq<Text>
    decreases |text| - start
  {
    if start >= |text| then []
    else if text[start] != OPEN then Extract(text, start + 1)
    else
      match Scan(text, start, start, 0, false, false)
      case Some(ids) => ids
      case None => Extract(text, start + 1)
  }

  method IdsFrom(text: Text) returns (ids: seq<Text>)
    ensures ids == Extract(text, 0)
  {
    var start := 0;
    while start < |text|
      invariant start <= |text|
      invariant Extract(text, 0) == Extract(text, start)
    {
      if text[start] == OPEN {
        var depth := 0;
        var quoted := false;
        var escaped := false;
        var end := start;
        while end < |text|
          invariant start <= end <= |text|
          invariant Scan(text, start, start, 0, false, false) == Scan(text, start, end, depth, quoted, escaped)
          decreases |text| - end
        {
          var c := text[end];
          if quoted {
            if escaped {
              escaped := false;
            } else if c == BACKSLASH {
              escaped := true;
            } else if c == QUOTE {
              quoted := false;
            }
          } else if c == QUOTE {
            quoted := true;
          } else if c == OPEN {
            depth := depth + 1;
          } else if c == CLOSE {
            depth := depth - 1;
            if depth == 0 {
              var parsed := Parse(JavaScript, text[start..end + 1]);
              if parsed.None? {
                break;
              }
              if AllStrings(parsed.value) {
                return FirstIds(TextsOf(parsed.value.items));
              }
            }
          }
          end := end + 1;
        }
        assert Scan(text, start, start, 0, false, false) == None;
      }
      start := start + 1;
    }
    ids := [];
  }

  // ---------------------------------------------------------------------------
  // The scanner follows the grammar
  // ---------------------------------------------------------------------------

  /** A character that is neither a quote nor a bracket. */
  predicate Inert(c: Code) {
    c != QUOTE && c != OPEN && c != CLOSE
  }

  lemma {:induction false} SkipInert(text: Text, start: nat, at: nat, part: Text, i: nat, j: nat, depth: int)
    requires At(text, at, part) && start <= at && i <= j <= |part|
    requires forall k :: i <= k < j ==> Inert(part[k])
    ensures Scan(text, start, at + i, depth, false, false) == Scan(text, start, at + j, depth, false, false)
    decreases j - i
  {
    hide At, Parse;
    if i == j {
    } else {
      AtIndex(text, at, part, i);
      SkipInert(text, start, at, part, i + 1, j, depth);
    }
  }

  lemma {:induction false} SkipQuoted(text: Text, start: nat, at: nat, part: Text, i: nat, j: nat, depth: int)
    requires At(text, at, part) && start <= at && i <= j <= |part|
    requires forall k :: i <= k < j ==> part[k] != QUOTE && part[k] != BACKSLASH
    ensures Scan(text, start, at + i, depth, true, false) == Scan(text, start, at + j, depth, true, false)
    decreases j - i
  {
    hide At, Parse;
    if i == j {
    } else {
      AtIndex(text, at, part, i);
      SkipQuoted(text, start, at, part, i + 1, j, depth);
    }
  }

  /** After a backslash and one more character an escape holds only hexadecimal digits. */
  lemma EscapeShape(s: Text, i: nat)
    requires i < |s| && s[i] == BACKSLASH && ParseEscape(JavaScript, s, i).Done?
    ensures var j := ParseEscape(JavaScript, s, i).next;
            i + 2 <= j <= |s| && forall k :: i + 2 <= k < j ==> s[k] != QUOTE && s[k] != BACKSLASH
  {
  }

  /** The scanner leaves a string exactly at its own closing quote. */
  lemma {:induction false} SkipChars(text: Text, start: nat, at: nat, part: Text, i: nat, depth: int)
    requires At(text, at, part) && start <= at && i <= |part|
    requires ParseChars(JavaScript, part, i).Done?
    ensures var j := ParseChars(JavaScript, part, i).next;
            Scan(text, start, at + i, depth, true, false) == Scan(text, start, at + j, depth, false, false)
    decreases |part| - i
  {
    hide At, Parse, ParseEscape;
    AtIndex(text, at, part, i);
    if part[i] == QUOTE {
    } else if part[i] == BACKSLASH {
      var k := ParseEscape(JavaScript, part, i).next;
      EscapeShape(part, i);
      AtIndex(text, at, part, i + 1);
      SkipQuoted(text, start, at, part, i + 2, k, depth);
      SkipChars(text, start, at, part, k, depth);
    } else {
      SkipChars(text, start, at, part, i + 1, depth);
    }
  }

  lemma SkipString(text: Text, start: nat, at: nat, part: Text, i: nat, depth: int)
    requires At(text, at, part) && start <= at && i < |part| && part[i] == QUOTE
    requires ParseChars(JavaScript, part, i + 1).Done?
    ensures var j := ParseChars(JavaScript, part, i + 1).next;
            Scan(text, start, at + i, depth, false, false) == Scan(text, start, at + j, depth, false, false)
  {
    hide At, Parse, ParseChars;
    AtIndex(text, at, part, i);
    SkipChars(text, start, at, part, i + 1, depth);
  }

  lemma WordInert(s: Text, i: nat, word: Text)
    requires Starts(s, i, word) && forall k :: 0 <= k < |word| ==> Inert(word[k])
    ensures forall k :: i <= k < i + |word| ==> Inert(s[k])
  {
    forall k | i <= k < i + |word|
      ensures Inert(s[k])
    {
      assert s[k] == s[i..i + |word|][k - i];
    }
  }

  /** A number or a literal has no quote and no bracket. */
  lemma {:induction false} AtomInert(s: Text, i: nat)
    requires i < |s| && s[i] != QUOTE && s[i] != OPEN && s[i] != LBRACE
    requires ParseValue(JavaScript, s, i).Done?
    ensures forall k :: i <= k < ParseValue(JavaScript, s, i).next ==> Inert(s[k])
  {
    hide ParseChars, ParseItems, ParseMembers;
    if Starts(s, i, TRUE) {
      WordInert(s, i, TRUE);
    } else if Starts(s, i, FALSE) {
      WordInert(s, i, FALSE);
    } else if Starts(s, i, NULL) {
      WordInert(s, i, NULL);
    }
  }

  /** Inside an array the scanner passes over any JSON value and is then where it was: same
      depth, outside any string. */
  lemma {:induction false} SkipValue(text: Text, start: nat, at: nat, part: Text, i: nat, depth: int)
    requires At(text, at, part) && start <= at && i <= |part| && depth >= 1
    requires ParseValue(JavaScript, part, i).Done?
    ensures var j := ParseValue(JavaScript, part, i).next;
            Scan(text, start, at + i, depth, false, false) == Scan(text, start, at + j, depth, false, false)
    decreases |part| - i, 1
  {
    hide At, Parse, ParseChars, ParseItems, ParseMembers, ParseNumber, SkipSpace;
    AtIndex(text, at, part, i);
    var j := ParseValue(JavaScript, part, i).next;
    if part[i] == QUOTE {
      SkipString(text, start, at, part, i, depth);
    } else if part[i] == OPEN {
      var k := SkipSpace(part, i + 1);
      SkipInert(text, start, at, part, i + 1, k, depth + 1);
      if part[k] != CLOSE {
        SkipItems(text, start, at, part, k, depth + 1);
        ItemsClose(JavaScript, part, k);
      }
      AtIndex(text, at, part, j - 1);
    } else if part[i] == LBRACE {
      var k := SkipSpace(part, i + 1);
      SkipInert(text, start, at, part, i, k, depth);
      if part[k] == RBRACE {
        SkipInert(text, start, at, part, k, j, depth);
      } else {
        SkipMembers(text, start, at, part, k, depth);
      }
    } else {
      AtomInert(part, i);
      SkipInert(text, start, at, part, i, j, depth);
    }
  }

  /** The scanner reaches an array's own closing bracket at the depth of its items. */
  lemma {:induction false} SkipItems(text: Text, start: nat, at: nat, part: Text, i: nat, depth: int)
    requires At(text, at, part) && start <= at && i <= |part| && depth >= 1
    requires ParseItems(JavaScript, part, i).Done?
    ensures var j := ParseItems(JavaScript, part, i).next;
            Scan(text, start, at + i, depth, false, false) == Scan(text, start, at + j - 1, depth, false, false)
    decreases |part| - i, 2
  {
    hide At, Parse, ParseValue, Scan, SkipSpace;
    SkipValue(text, start, at, part, i, depth);
    var j := ParseValue(JavaScript, part, i).next;
    var k := SkipSpace(part, j);
    SkipInert(text, start, at, part, j, k, depth);
    if part[k] == COMMA {
      var m := SkipSpace(part, k + 1);
      SkipInert(text, start, at, part, k, m, depth);
      SkipItems(text, start, at, part, m, depth);
    }
  }

  lemma {:induction false} SkipMember(text: Text, start: nat, at: nat, part: Text, i: nat, depth: int)
    requires At(text, at, part) && start <= at && i <= |part| && depth >= 1
    requires ParseMember(JavaScript, part, i).Done?
    ensures var j := ParseMember(JavaScript, part, i).next;
            Scan(text, start, at + i, depth, false, false) == Scan(text, start, at + j, depth, false, false)
    decreases |part| - i, 2
  {
    hide At, Scan, Parse, ParseValue, ParseChars, SkipSpace;
    SkipString(text, start, at, part, i, depth);
    var j := ParseChars(JavaScript, part, i + 1).next;
    var k := SkipSpace(part, j);
    var l := SkipSpace(part, k + 1);
    SkipInert(text, start, at, part, j, l, depth);
    SkipValue(text, start, at, part, l, depth);
  }

  lemma {:induction false} SkipMembers(text: Text, start: nat, at: nat, part: Text, i: nat, depth: int)
    requires At(text, at, part) && start <= at && i <= |part| && depth >= 1
    requires ParseMembers(JavaScript, part, i).Done?
    ensures var j := ParseMembers(JavaScript, part, i).next;
            Scan(text, start, at + i, depth, false, false) == Scan(text, start, at + j, depth, false, false)
    decreases |part| - i, 3
  {
    hide At, Scan, Parse, ParseMember, SkipSpace;
    SkipMember(text, start, at, part, i, depth);
    var j := ParseMember(JavaScript, part, i).next;
    var k := SkipSpace(part, j);
    if part[k] == RBRACE {
      SkipInert(text, start, at, part, j, k + 1, depth);
    } else {
      var m := SkipSpace(part, k + 1);
      SkipInert(text, start, at, part, j, m, depth);
      SkipMembers(text, start, at, part, m, depth);
    }
  }

  /** A JSON array standing at `at` is a candidate of the scanner: it scans from its opening
      bracket straight to its own closing one. */
  lemma {:induction false} ScanReachesClose(text: Text, at: nat, a: Text)
    requires At(text, at, a) && IsArrayText(JavaScript, a)
    ensures Scan(text, at, at, 0, false, false) == Scan(text, at, at + |a| - 1, 1, false, false)
  {
    hide At, Parse, ParseItems, ParseMembers, ParseChars, ParseNumber, SkipSpace;
    AtIndex(text, at, a, 0);
    var k := SkipSpace(a, 1);
    SkipInert(text, at, at, a, 1, k, 1);
    ArrayEnds(a);
    if a[k] != CLOSE {
      SkipItems(text, at, at, a, k, 1);
    }
  }

  lemma ArrayEnds(a: Text)
    requires IsArrayText(JavaScript, a)
    ensures ParseValue(JavaScript, a, 0).Done? && ParseValue(JavaScript, a, 0).next == |a|
  {
  }

  /** Whatever the formatting and the escapes: the first JSON array of strings in a text,
      with no bracket before it, is what the scanner extracts, whatever follows it. */
  lemma ExtractsFirstArray(p: Text, a: Text, s: Text)
    requires OPEN !in p && IsArrayText(JavaScript, a) && AllStrings(Parse(JavaScript, a).value)
    ensures Extract(p + a + s, 0) == FirstIds(TextsOf(Parse(JavaScript, a).value.items))
  {
    var text, at, end := p + a + s, |p|, |p| + |a| - 1;
    SkipToArray(p, a + s, 0);
    assert p + (a + s) == text;
    assert text[at..end + 1] == a;
    assert text[at] == a[0] && text[end] == a[|a| - 1];
    hide Parse;
    ScanReachesClose(text, at, a);
  }

  lemma {:induction false} SkipToArray(p: Text, rest: Text, i: nat)
    requires OPEN !in p && i <= |p|
    ensures Extract(p + rest, i) == Extract(p + rest, |p|)
    decreases |p| - i
  {
    hide Scan;
    if i < |p| {
      assert (p + rest)[i] in p;
      SkipToArray(p, rest, i + 1);
    }
  }

  /** The scanner undoes the printer: from any prose without an opening bracket, the printed
      array of any strings, and anything after it, it recovers the first eight strings. */
  lemma ExtractUndoesStringify(p: Text, ids: seq<Text>, s: Text)
    requires OPEN !in p
    ensures Extract(p + Stringify(ids) + s, 0) == if |ids| > 8 then ids[..8] else ids
  {
    hide Extract, Parse;
    var a := Stringify(ids);
    ParseUndoesStringify(JavaScript, ids);
    StringifyEnds(ids);
    ExtractsFirstArray(p, a, s);
    assert TextsOf(Strings(ids)) == ids;
  }

  // ---------------------------------------------------------------------------
  // What is extracted from any text at all
  // ---------------------------------------------------------------------------

  /** A JSON array of strings stands in the text from `i` to `j`, brackets included. */
  predicate StandsAt(text: Text, i: nat, j: nat) {
    && i < j <= |text| && text[i] == OPEN && text[j - 1] == CLOSE
    && Parse(JavaScript, text[i..j]).Some?
    && AllStrings(Parse(JavaScript, text[i..j]).value)
  }

  /** Its first eight strings. */
  function IdsAt(text: Text, i: nat, j: nat): seq<Text>
    requires StandsAt(text, i, j)
  {
    FirstIds(TextsOf(Parse(JavaScript, text[i..j]).value.items))
  }

  /** A scan that answers has found an array standing where it began. */
  lemma {:induction false} ScanStands(text: Text, start: nat, end: nat, depth: int, quoted: bool, escaped: bool)
    requires start <= end && start < |text| && text[start] == OPEN
    ensures Scan(text, start, end, depth, quoted, escaped).Some? ==> exists j: nat :: StandsAt(text, start, j)
    decreases |text| - end
  {
    hide Parse;
    if end >= |text| {
    } else if quoted {
      if escaped {
        ScanStands(text, start, end + 1, depth, true, false);
      } else if text[end] == BACKSLASH {
        ScanStands(text, start, end + 1, depth, true, true);
      } else {
        ScanStands(text, start, end + 1, depth, text[end] != QUOTE, false);
      }
    } else if text[end] == QUOTE {
      ScanStands(text, start, end + 1, depth, true, escaped);
    } else if text[end] == OPEN {
      ScanStands(text, start, end + 1, depth + 1, false, escaped);
    } else if text[end] != CLOSE {
      ScanStands(text, start, end + 1, depth, false, escaped);
    } else {
      ScanStands(text, start, end + 1, depth - 1, false, escaped);
      assert Scan(text, start, end, depth, quoted, escaped).Some? ==>
               StandsAt(text, start, end + 1) || Scan(text, start, end + 1, depth - 1, false, escaped).Some?;
    }
  }

  /** And every array that stands is what the scan from its bracket answers. */
  lemma ScanTakes(text: Text, i: nat, j: nat)
    requires StandsAt(text, i, j)
    ensures Scan(text, i, i, 0, false, false) == Some(IdsAt(text, i, j))
  {
    var a := text[i..j];
    hide Parse;
    ScanReachesClose(text, i, a);
  }

  /** The leftmost array of strings that stands in the text from `start` on. */
  ghost predicate Leftmost(text: Text, start: nat, i: nat, j: nat) {
    start <= i && StandsAt(text, i, j) && forall i': nat, j': nat :: start <= i' < i ==> !StandsAt(text, i', j')
  }

  lemma {:induction false} ExtractsLeftmost(text: Text, start: nat, i: nat, j: nat)
    requires Leftmost(text, start, i, j)
    ensures Extract(text, start) == IdsAt(text, i, j)
    decreases i - start
  {
    hide Scan, StandsAt, IdsAt;
    assert i < |text| && text[i] == OPEN by { Brackets(text, i, j); }
    if start == i {
      ScanTakes(text, i, j);
    } else {
      if text[start] == OPEN {
        ScanStands(text, start, start, 0, false, false);
      }
      ExtractsLeftmost(text, start + 1, i, j);
    }
  }

  lemma Brackets(text: Text, i: nat, j: nat)
    requires StandsAt(text, i, j)
    ensures i < |text| && text[i] == OPEN
  {
  }

  lemma {:induction false} ExtractsNothing(text: Text, start: nat)
    requires forall i: nat, j: nat :: start <= i ==> !StandsAt(text, i, j)
    ensures Extract(text, start) == []
    decreases |text| - start
  {
    hide Scan, StandsAt;
    if start < |text| {
      if text[start] == OPEN {
        ScanStands(text, start, start, 0, false, false);
      }
      ExtractsNothing(text, start + 1);
    }
  }

  lemma {:induction false} LeftmostExists(text: Text, i: nat, j: nat)
    requires StandsAt(text, i, j)
    ensures exists i: nat, j: nat :: Leftmost(text, 0, i, j)
    decreases i
  {
    hide StandsAt;
    if i': nat, j': nat :| i' < i && StandsAt(text, i', j') {
      LeftmostExists(text, i', j');
    } else {
      assert Leftmost(text, 0, i, j);
    }
  }

  /** The whole contract of the scanner, on every text: the first eight strings of the leftmost
      JSON array of strings that stands in it, and nothing when none does. */
  lemma ExtractExact(text: Text)
    ensures forall i: nat, j: nat :: Leftmost(text, 0, i, j) ==> Extract(text, 0) == IdsAt(text, i, j)
    ensures (exists i: nat, j: nat :: StandsAt(text, i, j)) ==> exists i: nat, j: nat :: Leftmost(text, 0, i, j)
    ensures (forall i: nat, j: nat :: !StandsAt(text, i, j)) ==> Extract(text, 0) == []
    ensures |Extract(text, 0)| <= 8
  {
    hide StandsAt, Extract;
    forall i: nat, j: nat | Leftmost(text, 0, i, j)
      ensures Extract(text, 0) == IdsAt(text, i, j)
    {
      ExtractsLeftmost(text, 0, i, j);
    }
    if i: nat, j: nat :| StandsAt(text, i, j) {
      LeftmostExists(text, i, j);
    } else {
      ExtractsNothing(text, 0);
    }
  }
}
