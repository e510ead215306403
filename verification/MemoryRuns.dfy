/** What every run of the memory store keeps.  A run is any sequence of calls, restarts
    included, from the empty store. */
module MemoryRuns {
  import opened Wrappers
  import opened Ordering
  import opened Memory

  function Run(calls: seq<Call>): (s: State)
    ensures Ordered(s)
  {
    if calls == [] then EmptyState
    else
      var s, c := Run(calls[..|calls| - 1]), calls[|calls| - 1];
      StepOrdered(s, c);
      Step(s, c).0
  }

  /** The state before call `i` (or after the whole run, when i == |calls|). */
  function At(calls: seq<Call>, i: nat): (s: State)
    requires i <= |calls|
    ensures Ordered(s)
  {
    Run(calls[..i])
  }

  function Answer(calls: seq<Call>, i: nat): Decision
    requires i < |calls|
  {
    Step(At(calls, i), calls[i]).1
  }

  lemma AtNext(calls: seq<Call>, i: nat)
    requires i < |calls|
    ensures At(calls, i + 1) == Step(At(calls, i), calls[i]).0
  {
    assert calls[..i + 1][..i] == calls[..i];
  }

  /** Every memory is stored under its own id. */
  ghost predicate Keyed(s: State) {
    forall k :: k in s.memories ==> s.memories[k].memoryId == k
  }

  lemma StepKeyed(s: State, c: Call)
    requires Ordered(s) && Keyed(s)
    ensures Keyed(Step(s, c).0)
  {
    hide SortRanked, Score, Authorized, Ordered;
    match c
    case Remember(_, _, _) =>
    case Recall(_, _, _, _) =>
    case Improve(_, _, _, _, _, _) => ImproveKeyed(s, c);
    case Forget(_, _, _) =>
    case Restart =>
  }

  lemma ImproveKeyed(s: State, c: Call)
    requires Ordered(s) && Keyed(s) && c.Improve?
    ensures Keyed(Step(s, c).0)
  {
    hide Authorized, Ordered;
  }

  lemma {:induction false} RunKeyed(calls: seq<Call>)
    ensures Keyed(Run(calls))
  {
    if calls == [] {
    } else {
      RunKeyed(calls[..|calls| - 1]);
      StepKeyed(Run(calls[..|calls| - 1]), calls[|calls| - 1]);
    }
  }

  // ---------------------------------------------------------------------------
  // Recall is exact and canonical
  // ---------------------------------------------------------------------------

  /** Does a recall of `query` find the memory under `id`? */
  predicate Found(memories: map<string, Memory>, id: string, query: string, actor: Actor, asOf: int) {
    id in memories && Visible(memories[id], actor, asOf) && Score(query, memories[id]) > 0
  }

  /** The loop collects each memory it finds once, with its score. */
  lemma {:induction false} RankedMembers(memories: map<string, Memory>, keys: seq<string>, query: string,
                                         actor: Actor, asOf: int)
    requires forall k :: k in keys ==> k in memories && memories[k].memoryId == k
    requires Distinct(keys)
    ensures var ranked := Ranked(memories, keys, query, actor, asOf);
            && Distinct(ranked)
            && forall e :: e in ranked <==>
                 e.1 in keys && Found(memories, e.1, query, actor, asOf) && e.0 == Score(query, memories[e.1])
  {
    if keys == [] {
    } else {
      var rest, last := keys[..|keys| - 1], keys[|keys| - 1];
      RankedMembers(memories, rest, query, actor, asOf);
      var older := Ranked(memories, rest, query, actor, asOf);
      var ranked := Ranked(memories, keys, query, actor, asOf);
      assert keys == rest + [last] && last !in rest;
      assert forall e :: e in older ==> e.1 != last;
      var e := (Score(query, memories[last]), last);
      if Found(memories, last, query, actor, asOf) {
        assert ranked == older + [e];
      } else {
        assert ranked == older + [];
      }
    }
  }

  /** The sorted ranking of a recall, as its receipt records it. */
  function Ranking(s: State, query: string, actor: Actor, asOf: int): seq<(int, string)>
    requires Ordered(s)
  {
    SortRanked(Ranked(s.memories, s.order, query, actor, asOf))
  }

  lemma RankingExact(s: State, query: string, actor: Actor, asOf: int)
    requires Ordered(s) && Keyed(s)
    ensures var ranking := Ranking(s, query, actor, asOf);
            && Distinct(ranking) && Sorted(RankLeq, ranking)
            && forall e :: e in ranking <==>
                 Found(s.memories, e.1, query, actor, asOf) && e.0 == Score(query, s.memories[e.1])
  {
    var ranked := Ranked(s.memories, s.order, query, actor, asOf);
    RankedMembers(s.memories, s.order, query, actor, asOf);
    MultisetDistinct(ranked, SortRanked(ranked));
  }

  /** The key a memory is ranked by. */
  function RankOf(memories: map<string, Memory>, query: string, id: string): (int, string) {
    (if id in memories then Score(query, memories[id]) else 0, id)
  }

  function RanksOf(memories: map<string, Memory>, query: string, ids: seq<string>): seq<(int, string)> {
    seq(|ids|, i requires 0 <= i < |ids| => RankOf(memories, query, ids[i]))
  }

  /** What an allowed recall answers: exactly the memories it should find, each once, best
      score first and ties by id. */
  ghost predicate RanksExactly(d: Decision, memories: map<string, Memory>, query: string, actor: Actor, asOf: int) {
    && d.allowed
    && (forall id :: id in d.ids <==> Found(memories, id, query, actor, asOf))
    && Distinct(d.ids)
    && Sorted(RankLeq, RanksOf(memories, query, d.ids))
  }

  /** Over any run: a recall that gets through answers exactly what it should, in order. */
  lemma {:induction false} RecallExact(calls: seq<Call>, query: string, actor: Actor, asOf: int, nonce: string)
    requires Unclaimed(Run(calls), actor, nonce) && |query| <= MAX_QUERY_CHARS
    ensures RanksExactly(Step(Run(calls), Recall(query, actor, asOf, nonce)).1, Run(calls).memories, query, actor, asOf)
  {
    RunKeyed(calls);
    RankingRanks(Run(calls), query, actor, asOf, nonce);
  }

  lemma {:induction false} RankingRanks(s: State, query: string, actor: Actor, asOf: int, nonce: string)
    requires Ordered(s) && Keyed(s) && Unclaimed(s, actor, nonce) && |query| <= MAX_QUERY_CHARS
    ensures RanksExactly(Step(s, Recall(query, actor, asOf, nonce)).1, s.memories, query, actor, asOf)
  {
    hide Found, Score;
    RankingExact(s, query, actor, asOf);
    var ranking := Ranking(s, query, actor, asOf);
    RankingIds(s.memories, ranking, query, actor, asOf);
  }

  lemma RankingIds(memories: map<string, Memory>, ranking: seq<(int, string)>, query: string, actor: Actor, asOf: int)
    requires Distinct(ranking)
    requires forall e :: e in ranking <==>
               Found(memories, e.1, query, actor, asOf) && e.0 == Score(query, memories[e.1])
    ensures RanksOf(memories, query, Second(ranking)) == ranking && Distinct(Second(ranking))
    ensures forall id :: id in Second(ranking) <==> Found(memories, id, query, actor, asOf)
  {
    hide Score;
    var ids := Second(ranking);
    forall i | 0 <= i < |ranking|
      ensures RankOf(memories, query, ids[i]) == ranking[i] && Found(memories, ids[i], query, actor, asOf)
    {
      assert ranking[i] in ranking;
    }
    forall id | Found(memories, id, query, actor, asOf)
      ensures id in ids
    {
      var e := RankOf(memories, query, id);
      assert e in ranking;
      var i :| 0 <= i < |ranking| && ranking[i] == e;
      assert ids[i] == id;
    }
  }

  /** That answer is the only one: two decisions that rank the same memories exactly have
      the same ids in the same order. */
  lemma ExactRankingUnique(d: Decision, d': Decision, memories: map<string, Memory>, query: string, actor: Actor,
                           asOf: int)
    requires RanksExactly(d, memories, query, actor, asOf) && RanksExactly(d', memories, query, actor, asOf)
    ensures d.ids == d'.ids
  {
    hide Found, Score;
    RankIsTotalOrder();
    var a, b := RanksOf(memories, query, d.ids), RanksOf(memories, query, d'.ids);
    RanksMembers(memories, query, d.ids, d'.ids);
    RanksMembers(memories, query, d'.ids, d.ids);
    SortedDistinctUnique(RankLeq, a, b);
    assert Second(a) == d.ids && Second(b) == d'.ids;
  }

  lemma RanksMembers(memories: map<string, Memory>, query: string, ids: seq<string>, ids': seq<string>)
    requires forall id :: id in ids ==> id in ids'
    ensures forall e :: e in RanksOf(memories, query, ids) ==> e in RanksOf(memories, query, ids')
  {
    hide Score;
    forall e | e in RanksOf(memories, query, ids)
      ensures e in RanksOf(memories, query, ids')
    {
      var k :| 0 <= k < |ids| && RankOf(memories, query, ids[k]) == e;
      assert ids[k] in ids';
      var l :| 0 <= l < |ids'| && ids'[l] == ids[k];
      assert RanksOf(memories, query, ids')[l] == e;
    }
  }

  /** What the actor may see of a store. */
  function Seen(s: State, actor: Actor, asOf: int): map<string, Memory> {
    map k | k in s.memories && Visible(s.memories[k], actor, asOf) :: s.memories[k]
  }

  /** Recall is canonical: two reachable stores that agree on what the actor may see give
      the same ids and the same receipt, whatever else they hold and in whatever order
      their memories were written. */
  lemma {:induction false} RecallCanonical(calls: seq<Call>, calls': seq<Call>, query: string, actor: Actor,
                                           asOf: int, nonce: string)
    requires Seen(Run(calls), actor, asOf) == Seen(Run(calls'), actor, asOf)
    requires Unclaimed(Run(calls), actor, nonce) && Unclaimed(Run(calls'), actor, nonce)
    ensures Step(Run(calls), Recall(query, actor, asOf, nonce)).1
         == Step(Run(calls'), Recall(query, actor, asOf, nonce)).1
  {
    RunKeyed(calls);
    RunKeyed(calls');
    SameSeenSameRanking(Run(calls), Run(calls'), query, actor, asOf);
  }

  lemma {:induction false} SameSeenSameRanking(s: State, s': State, query: string, actor: Actor, asOf: int)
    requires Ordered(s) && Keyed(s) && Ordered(s') && Keyed(s')
    requires Seen(s, actor, asOf) == Seen(s', actor, asOf)
    ensures Ranking(s, query, actor, asOf) == Ranking(s', query, actor, asOf)
  {
    hide Score;
    var a, b := Ranking(s, query, actor, asOf), Ranking(s', query, actor, asOf);
    RankingExact(s, query, actor, asOf);
    RankingExact(s', query, actor, asOf);
    forall id
      ensures Found(s.memories, id, query, actor, asOf) <==> Found(s'.memories, id, query, actor, asOf)
      ensures Found(s.memories, id, query, actor, asOf) ==> s.memories[id] == s'.memories[id]
    {
      assert id in Seen(s, actor, asOf) <==> id in Seen(s', actor, asOf);
    }
    RankIsTotalOrder();
    SortedDistinctUnique(RankLeq, a, b);
  }

  // ---------------------------------------------------------------------------
  // Query words
  // ---------------------------------------------------------------------------

  /** Tokenizing across a separator is tokenizing each side. */
  lemma {:induction false} TokensSplit(a: string, sep: char, b: string)
    requires !TokenChar(sep)
    ensures Tokens(a + [sep] + b) == Tokens(a) + Tokens(b)
    decreases |a|
  {
    var s := a + [sep] + b;
    if a == [] {
      assert s[1..] == b && s[0] == sep;
    } else if !TokenChar(a[0]) {
      assert s[1..] == a[1..] + [sep] + b;
      TokensSplit(a[1..], sep, b);
    } else {
      RunStops(a, sep, b);
      var n := RunLength(a);
      assert n == RunLength(s) > 0;
      assert s[..n] == a[..n] && s[n..] == a[n..] + [sep] + b;
      TokensSplit(a[n..], sep, b);
    }
  }

  lemma {:induction false} RunStops(a: string, sep: char, b: string)
    requires !TokenChar(sep)
    ensures RunLength(a + [sep] + b) == RunLength(a)
  {
    if a != [] && TokenChar(a[0]) {
      assert (a + [sep] + b)[1..] == a[1..] + [sep] + b;
      RunStops(a[1..], sep, b);
    }
  }

  /** The words of two texts joined by a character that is no part of a word are the words
      of either. */
  lemma WordsSplit(a: string, sep: char, b: string)
    requires !TokenChar(Lower(sep))
    ensures Words(a + [sep] + b) == Words(a) + Words(b)
  {
    assert LowerAll(a + [sep] + b) == LowerAll(a) + [Lower(sep)] + LowerAll(b);
    TokensSplit(LowerAll(a), Lower(sep), LowerAll(b));
  }

  /** Texts joined by single spaces. */
  function Joined(parts: seq<string>): string {
    if parts == [] then ""
    else if |parts| == 1 then parts[0]
    else parts[0] + [' '] + Joined(parts[1..])
  }

  ghost predicate IsToken(t: string) {
    t != [] && forall i :: 0 <= i < |t| ==> TokenChar(t[i])
  }

  lemma {:induction false} WholeRun(t: string)
    requires forall i :: 0 <= i < |t| ==> TokenChar(t[i])
    ensures RunLength(t) == |t|
  {
    if t == [] {
    } else {
      WholeRun(t[1..]);
    }
  }

  /** The tokenizer undoes joining: any list of tokens comes back as it was. */
  lemma {:induction false} TokensOfJoined(parts: seq<string>)
    requires forall i :: 0 <= i < |parts| ==> IsToken(parts[i])
    ensures Tokens(Joined(parts)) == parts
  {
    if parts == [] {
    } else {
      var t := parts[0];
      assert IsToken(t);
      WholeRun(t);
      assert t[..|t|] == t && Tokens(t[|t|..]) == [];
      assert Tokens(t) == [t];
      if |parts| > 1 {
        TokensOfJoined(parts[1..]);
        TokensSplit(t, ' ', Joined(parts[1..]));
      }
    }
  }

  lemma {:induction false} WordsOfJoined(parts: seq<string>)
    ensures forall w :: w in Words(Joined(parts)) <==> exists i :: 0 <= i < |parts| && w in Words(parts[i])
  {
    if |parts| > 1 {
      WordsOfJoined(parts[1..]);
      WordsSplit(parts[0], ' ', Joined(parts[1..]));
      forall w | w in Words(Joined(parts))
        ensures exists i :: 0 <= i < |parts| && w in Words(parts[i])
      {
        if w !in Words(parts[0]) {
          var i :| 0 <= i < |parts[1..]| && w in Words(parts[1..][i]);
          assert parts[1..][i] == parts[i + 1];
        }
      }
      forall i, w | 0 <= i < |parts| && w in Words(parts[i])
        ensures w in Words(Joined(parts))
      {
        if i > 0 {
          assert parts[1..][i - 1] == parts[i];
        }
      }
    }
  }

  lemma {:induction false} SameWordsSameRanked(memories: map<string, Memory>, keys: seq<string>, q: string,
                                               q': string, actor: Actor, asOf: int)
    requires Words(q) == Words(q') && forall k :: k in keys ==> k in memories
    ensures Ranked(memories, keys, q, actor, asOf) == Ranked(memories, keys, q', actor, asOf)
  {
    if keys == [] {
    } else {
      SameWordsSameRanked(memories, keys[..|keys| - 1], q, q', actor, asOf);
    }
  }

  /** Reordering or repeating the space-joined parts of a query changes neither the ids nor
      the receipt, as long as both forms are within the query bound. */
  lemma QueryOrderIrrelevant(s: State, parts: seq<string>, parts': seq<string>, actor: Actor, asOf: int, nonce: string)
    requires Ordered(s)
    requires forall p :: p in parts <==> p in parts'
    requires |Joined(parts)| <= MAX_QUERY_CHARS && |Joined(parts')| <= MAX_QUERY_CHARS
    ensures Step(s, Recall(Joined(parts), actor, asOf, nonce)) == Step(s, Recall(Joined(parts'), actor, asOf, nonce))
  {
    var q, q' := Joined(parts), Joined(parts');
    WordsOfJoined(parts);
    WordsOfJoined(parts');
    forall w
      ensures w in Words(q) <==> w in Words(q')
    {
      if i :| 0 <= i < |parts| && w in Words(parts[i]) {
        assert parts[i] in parts';
        var j :| 0 <= j < |parts'| && parts'[j] == parts[i];
      }
      if j :| 0 <= j < |parts'| && w in Words(parts'[j]) {
        assert parts'[j] in parts;
        var i :| 0 <= i < |parts| && parts[i] == parts'[j];
      }
    }
    SameWordsSameRanked(s.memories, s.order, q, q', actor, asOf);
  }

  // ---------------------------------------------------------------------------
  // Forgetting
  // ---------------------------------------------------------------------------

  /** An improve that gets past every check and replaces something. */
  predicate Improves(s: State, c: Call)
    requires c.Improve?
  {
    && Unclaimed(s, c.actor, c.nonce) && c.actor.canMutate
    && c.key !in s.idempotency
    && c.memoryId in s.memories && s.memories[c.memoryId].sourceDigest == c.expectedDigest
    && Authorized(s.memories[c.memoryId], c.actor) && c.replacement.sensitivity <= c.actor.clearance
  }

  /** Does the call store a current memory under `id`? */
  predicate Renews(s: State, c: Call, id: string)
    requires Ordered(s)
  {
    match c
    case Remember(m, _, _) => m.memoryId == id && m.status == Current && Step(s, c).1.allowed
    case Improve(_, r, _, _, _, _) => r.memoryId == id && r.status == Current && Improves(s, c)
    case _ => false
  }

  /** Nothing current is stored under `id`. */
  ghost predicate Retired(s: State, id: string) {
    id in s.memories ==> s.memories[id].status != Current
  }

  /** A retired id stays retired exactly when the call does not store a current memory under it. */
  lemma RetiredStays(s: State, c: Call, id: string)
    requires Ordered(s) && Retired(s, id)
    ensures Retired(Step(s, c).0, id) <==> !Renews(s, c, id)
  {
  }

  lemma {:induction false} RetiredKept(calls: seq<Call>, id: string, i: nat, j: nat)
    requires i <= j <= |calls| && Retired(At(calls, i), id)
    requires forall k :: i <= k < j ==> !Renews(At(calls, k), calls[k], id)
    ensures Retired(At(calls, j), id)
    decreases j
  {
    if i == j {
    } else {
      RetiredKept(calls, id, i, j - 1);
      AtNext(calls, j - 1);
      RetiredStays(At(calls, j - 1), calls[j - 1], id);
    }
  }

  /** An allowed forget retires its target and every memory that lists it, and touches no
      other memory: the cascade is one hop. */
  lemma ForgetIsOneHop(s: State, c: Call)
    requires Ordered(s) && c.Forget? && Step(s, c).1.allowed
    ensures var s' := Step(s, c).0;
            && c.memoryId in s.memories && s'.memories.Keys == s.memories.Keys
            && forall k :: k in s.memories ==>
                 if k == c.memoryId || c.memoryId in s.memories[k].derivedFrom then
                   s'.memories[k] == s.memories[k].(status := Forgotten)
                 else s'.memories[k] == s.memories[k]
  {
  }

  /** After an allowed forget its target, and whatever then listed it as a source, is in no
      recall by anyone, until someone stores a current memory under that very id. */
  lemma {:induction false} ForgottenIsNotRecalled(calls: seq<Call>, i: nat, j: nat, id: string)
    requires i < j < |calls| && calls[i].Forget? && calls[j].Recall?
    requires Answer(calls, i).allowed
    requires id == calls[i].memoryId
             || (id in At(calls, i).memories && calls[i].memoryId in At(calls, i).memories[id].derivedFrom)
    requires forall k :: i < k < j ==> !Renews(At(calls, k), calls[k], id)
    ensures id !in Answer(calls, j).ids
  {
    ForgetIsOneHop(At(calls, i), calls[i]);
    AtNext(calls, i);
    RetiredKept(calls, id, i + 1, j);
    var c := calls[j];
    if Unclaimed(At(calls, j), c.actor, c.nonce) && |c.query| <= MAX_QUERY_CHARS {
      RecallExact(calls[..j], c.query, c.actor, c.asOf, c.nonce);
    }
  }

  // ---------------------------------------------------------------------------
  // Nonces and idempotency
  // ---------------------------------------------------------------------------

  /** The (did, nonce) pair a call burns. */
  function Burns(c: Call): Option<(string, string)> {
    match c
    case Remember(_, actor, nonce) => Some((actor.did, nonce))
    case Recall(_, actor, _, nonce) => Some((actor.did, nonce))
    case Improve(_, _, actor, nonce, _, _) => Some((actor.did, nonce))
    case Forget(_, actor, nonce) => Some((actor.did, nonce))
    case Restart => None
  }

  /** The nonces of a state are exactly those its calls have burned. */
  lemma {:induction false} NoncesAreBurned(calls: seq<Call>, key: (string, string))
    ensures key in Run(calls).nonces <==> exists i :: 0 <= i < |calls| && Burns(calls[i]) == Some(key)
  {
    hide Step;
    if calls == [] {
    } else {
      var before, c := calls[..|calls| - 1], calls[|calls| - 1];
      NoncesAreBurned(before, key);
      StepBurns(Run(before), c);
      if i :| 0 <= i < |calls| && Burns(calls[i]) == Some(key) {
        assert i == |before| || Burns(before[i]) == Some(key);
      }
      if i :| 0 <= i < |before| && Burns(before[i]) == Some(key) {
        assert Burns(calls[i]) == Some(key);
      }
    }
  }

  lemma StepBurns(s: State, c: Call)
    requires Ordered(s)
    ensures Step(s, c).0.nonces == s.nonces + if Burns(c).Some? then {Burns(c).value} else {}
  {
  }

  /** A nonce works once: any later call with the same did and nonce is refused as a replay
      and changes nothing at all. */
  lemma NonceWorksOnce(calls: seq<Call>, i: nat, j: nat)
    requires i < j < |calls| && Burns(calls[i]).Some? && Burns(calls[i]) == Burns(calls[j])
    ensures At(calls, j + 1) == At(calls, j)
    ensures !Answer(calls, j).allowed
    ensures Answer(calls, j).error == if calls[j].Recall? then "replay" else "replay-or-mutation-denied"
  {
    AtNext(calls, j);
    NoncesAreBurned(calls[..j], Burns(calls[i]).value);
    assert calls[..j][i] == calls[i];
    assert At(calls, j).nonces + {Burns(calls[j]).value} == At(calls, j).nonces;
  }

  lemma {:induction false} KeysKept(calls: seq<Call>, key: string, i: nat, j: nat)
    requires i <= j <= |calls| && key in At(calls, i).idempotency
    ensures key in At(calls, j).idempotency && At(calls, j).idempotency[key] == At(calls, i).idempotency[key]
    decreases j
  {
    hide Step;
    if i == j {
    } else {
      KeysKept(calls, key, i, j - 1);
      AtNext(calls, j - 1);
      StepKeepsKey(At(calls, j - 1), calls[j - 1], key);
    }
  }

  lemma StepKeepsKey(s: State, c: Call, key: string)
    requires Ordered(s) && key in s.idempotency
    ensures key in Step(s, c).0.idempotency && Step(s, c).0.idempotency[key] == s.idempotency[key]
  {
  }

  /** Once an improve has gone through under a key, every later improve under that key by an
      actor who may mutate, with a fresh nonce, gets the same decision and moves nothing. */
  lemma ImproveIsIdempotent(calls: seq<Call>, i: nat, j: nat)
    requires i < j < |calls| && calls[i].Improve? && calls[j].Improve? && calls[i].key == calls[j].key
    requires Improves(At(calls, i), calls[i])
    requires calls[j].actor.canMutate && Unclaimed(At(calls, j), calls[j].actor, calls[j].nonce)
    ensures Answer(calls, j) == Answer(calls, i)
    ensures At(calls, j + 1) == At(calls, j).(nonces := At(calls, j + 1).nonces)
  {
    AtNext(calls, i);
    KeysKept(calls, calls[i].key, i + 1, j);
    AtNext(calls, j);
  }
}
