/** What the words of a text are, without the tokenizer. */
module MemoryWords {
  import opened Memory

  /** A letter or a digit, as the tokenizer sees them. */
  predicate Alnum(c: char) {
    'a' <= c <= 'z' || 'A' <= c <= 'Z' || '0' <= c <= '9'
  }

  /** Positions i to j of a text are one of its maximal runs, and read `w`. */
  predicate RunIs(s: string, part: char -> bool, i: nat, j: nat, w: string) {
    && i < j <= |s| && s[i..j] == w
    && (forall k :: i <= k < j ==> part(s[k]))
    && (i == 0 || !part(s[i - 1]))
    && (j == |s| || !part(s[j]))
  }

  /** `w` is a maximal run of letters and digits of the text, in lower case. */
  ghost predicate IsWord(text: string, w: string) {
    exists i: nat, j: nat, run :: RunIs(text, Alnum, i, j, run) && w == LowerAll(run)
  }

  ghost predicate Occurs(s: string, w: string) {
    exists i: nat, j: nat :: RunIs(s, TokenChar, i, j, w)
  }

  lemma {:induction false} FirstRun(s: string)
    requires s != [] && TokenChar(s[0])
    ensures RunIs(s, TokenChar, 0, RunLength(s), s[..RunLength(s)])
  {
    if |s| > 1 && TokenChar(s[1]) {
      FirstRun(s[1..]);
      var r := RunLength(s[1..]);
      assert forall k :: 1 <= k < r + 1 ==> s[k] == s[1..][k - 1];
    } else {
      assert RunLength(s[1..]) == 0;
    }
  }

  /** A run past a cut that no run crosses is a run of the rest. */
  lemma Shift(s: string, r: nat, i: nat, j: nat, w: string)
    requires r <= |s| && (i > 0 || r == 0 || !TokenChar(s[r - 1]))
    ensures RunIs(s[r..], TokenChar, i, j, w) <==> RunIs(s, TokenChar, i + r, j + r, w)
  {
    if i < j && j + r <= |s| {
      assert s[r..][i..j] == s[i + r..j + r];
      assert forall k :: i <= k < j ==> s[r..][k] == s[k + r];
      assert forall k :: i + r <= k < j + r ==> s[k] == s[r..][k - r];
    }
  }

  lemma SkipFirst(s: string, w: string)
    requires s != [] && !TokenChar(s[0])
    ensures Occurs(s, w) <==> Occurs(s[1..], w)
  {
    if i: nat, j: nat :| RunIs(s, TokenChar, i, j, w) {
      assert i > 0;
      Shift(s, 1, i - 1, j - 1, w);
    }
    if i: nat, j: nat :| RunIs(s[1..], TokenChar, i, j, w) {
      Shift(s, 1, i, j, w);
    }
  }

  lemma OneFirstRun(s: string, r: nat, first: string, i: nat, j: nat, w: string)
    requires RunIs(s, TokenChar, 0, r, first) && RunIs(s, TokenChar, i, j, w)
    ensures if i == 0 then w == first else i > r
  {
    if i == 0 {
      assert j == r;
    }
  }

  lemma TakeFirst(s: string, w: string)
    requires s != [] && TokenChar(s[0])
    ensures RunLength(s) > 0
    ensures Occurs(s, w) <==> w == s[..RunLength(s)] || Occurs(s[RunLength(s)..], w)
  {
    var r := RunLength(s);
    FirstRun(s);
    if i: nat, j: nat :| RunIs(s, TokenChar, i, j, w) {
      OneFirstRun(s, r, s[..r], i, j, w);
      if i > 0 {
        Shift(s, r, i - r, j - r, w);
      }
    }
    if i: nat, j: nat :| RunIs(s[r..], TokenChar, i, j, w) {
      assert i > 0;
      Shift(s, r, i, j, w);
    }
  }

  lemma {:induction false} TokensExactly(s: string, w: string)
    ensures w in Tokens(s) <==> Occurs(s, w)
    decreases |s|
  {
    if s == [] {
    } else if !TokenChar(s[0]) {
      hide Occurs;
      TokensExactly(s[1..], w);
      SkipFirst(s, w);
    } else {
      hide Occurs;
      TakeFirst(s, w);
      TokensExactly(s[RunLength(s)..], w);
    }
  }

  lemma LowerRuns(v: string, i: nat, j: nat)
    requires i < j <= |v|
    ensures LowerAll(v)[i..j] == LowerAll(v[i..j])
    ensures RunIs(LowerAll(v), TokenChar, i, j, LowerAll(v[i..j])) <==> RunIs(v, Alnum, i, j, v[i..j])
  {
    assert forall k :: 0 <= k < |v| ==> (TokenChar(LowerAll(v)[k]) <==> Alnum(v[k]));
  }

  /** The words of a text are its maximal runs of letters and digits, in lower case. */
  lemma WordsExactly(v: string, w: string)
    ensures w in Words(v) <==> IsWord(v, w)
  {
    TokensExactly(LowerAll(v), w);
    if i: nat, j: nat :| RunIs(LowerAll(v), TokenChar, i, j, w) {
      LowerRuns(v, i, j);
      assert RunIs(v, Alnum, i, j, v[i..j]);
    }
    if i: nat, j: nat, run :| RunIs(v, Alnum, i, j, run) && w == LowerAll(run) {
      LowerRuns(v, i, j);
      assert RunIs(LowerAll(v), TokenChar, i, j, w);
    }
  }

  /** Lower case, character by character: capital letters change, nothing else does. */
  lemma LowerExactly(v: string, k: nat)
    requires k < |v|
    ensures |LowerAll(v)| == |v|
    ensures LowerAll(v)[k] == if 'A' <= v[k] <= 'Z' then (v[k] as int + 32) as char else v[k]
  {
  }

  /** The score of a memory is the number of words it shares with the query. */
  lemma ScoreExactly(query: string, m: Memory, shared: set<string>)
    requires forall w :: w in shared <==> IsWord(query, w) && IsWord(m.text, w)
    ensures Score(query, m) == |shared|
  {
    hide IsWord;
    forall w
      ensures w in shared <==> w in Words(query) * Words(m.text)
    {
      WordsExactly(query, w);
      WordsExactly(m.text, w);
    }
    assert shared == Words(query) * Words(m.text);
  }

  lemma ScorePositive(query: string, m: Memory)
    ensures Score(query, m) > 0 <==> exists w :: IsWord(query, w) && IsWord(m.text, w)
  {
    hide IsWord;
    var shared := Words(query) * Words(m.text);
    forall w
      ensures w in shared <==> IsWord(query, w) && IsWord(m.text, w)
    {
      WordsExactly(query, w);
      WordsExactly(m.text, w);
    }
    if shared != {} {
      var w :| w in shared;
      assert IsWord(query, w) && IsWord(m.text, w);
    }
  }
}
