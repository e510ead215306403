/** What the memory store decides, exactly, with every test written out: when each call is allowed,
    what it is told, what it changes, and what can have retired a memory. */
module MemoryDecisions {
  import opened Wrappers
  import opened Ordering
  import opened Memory
  import opened MemoryRuns
  import opened MemoryContents
  import opened MemoryWords

  // ---------------------------------------------------------------------------
  // The tests
  // ---------------------------------------------------------------------------

  /** No call of the run has been made with this nonce by this did. */
  ghost predicate FreshNonce(calls: seq<Call>, actor: Actor, nonce: string) {
    forall k :: 0 <= k < |calls| ==> Burns(calls[k]) != Some((actor.did, nonce))
  }

  lemma FreshIsUnclaimed(calls: seq<Call>, actor: Actor, nonce: string)
    ensures Unclaimed(Run(calls), actor, nonce) <==> FreshNonce(calls, actor, nonce)
  {
    hide Run;
    NoncesAreBurned(calls, (actor.did, nonce));
  }

  /** The actor's tenant, space and purpose are the memory's, and its clearance is enough. */
  predicate Owns(actor: Actor, m: Memory) {
    m.tenant == actor.tenant && m.space == actor.space && m.purpose == actor.purpose && m.sensitivity <= actor.clearance
  }

  /** A call that is refused burns its nonce and changes nothing else. */
  predicate OnlyBurns(s: State, s': State, actor: Actor, nonce: string) {
    s' == s.(nonces := s.nonces + {(actor.did, nonce)})
  }

  /** What a refused call is told. */
  function Told(error: string): Decision {
    Decision(false, [], error, NoReceipt)
  }

  // ---------------------------------------------------------------------------
  // Forgetting
  // ---------------------------------------------------------------------------

  /** This call may forget this memory. */
  predicate MayForget(s: State, c: Call)
    requires c.Forget?
  {
    c.actor.canMutate && c.memoryId in s.memories && Owns(c.actor, s.memories[c.memoryId])
  }

  /** After any run a forget is allowed exactly when its nonce is fresh, its actor may mutate, and
      the target is stored with the actor's tenant, space and purpose and within its clearance.
      An allowed one marks its target and whatever lists it; any other changes no memory. */
  lemma {:induction false} ForgetExactly(calls: seq<Call>, c: Call)
    requires c.Forget?
    ensures var (s, s', d) := (Run(calls), Step(Run(calls), c).0, Step(Run(calls), c).1);
            if FreshNonce(calls, c.actor, c.nonce) && MayForget(s, c) then
              && d == Decision(true, [c.memoryId], "", TextDigest("forget:" + c.memoryId))
              && s'.memories.Keys == s.memories.Keys && s'.idempotency == s.idempotency
              && forall k :: k in s.memories ==>
                   s'.memories[k] == if k == c.memoryId || c.memoryId in s.memories[k].derivedFrom then
                                       s.memories[k].(status := Forgotten)
                                     else s.memories[k]
            else
              && d == Told(if FreshNonce(calls, c.actor, c.nonce) && c.actor.canMutate then "authorization-denied"
                           else "replay-or-mutation-denied")
              && OnlyBurns(s, s', c.actor, c.nonce)
  {
    FreshIsUnclaimed(calls, c.actor, c.nonce);
    hide Run, FreshNonce;
  }

  /** What can turn a memory Forgotten in one call. */
  ghost predicate Retires(s: State, c: Call, id: string)
    requires Ordered(s)
  {
    && c.Forget? && Unclaimed(s, c.actor, c.nonce) && MayForget(s, c)
    && id in s.memories && (id == c.memoryId || c.memoryId in s.memories[id].derivedFrom)
  }

  lemma StepForgets(s: State, c: Call, id: string)
    requires Ordered(s) && id in Step(s, c).0.memories && Step(s, c).0.memories[id].status == Forgotten
    ensures || Retires(s, c, id)
            || (Stored(s, c) == Some(Step(s, c).0.memories[id]) && Stored(s, c).value.memoryId == id)
            || (id in s.memories && s.memories[id].status == Forgotten)
  {
    hide Ordered, Score, SortRanked;
  }

  /** Call `i` is why the memory under `id` is Forgotten: a forget that reached it, or a store of
      it as Forgotten already. */
  ghost predicate IsCause(calls: seq<Call>, i: nat, id: string)
    requires i < |calls|
  {
    var stored := Stored(At(calls, i), calls[i]);
    || Retires(At(calls, i), calls[i], id)
    || (stored.Some? && stored.value.memoryId == id && stored.value.status == Forgotten)
  }

  lemma CausePrefix(calls: seq<Call>, n: nat, i: nat, id: string)
    requires i < n <= |calls|
    ensures IsCause(calls[..n], i, id) <==> IsCause(calls, i, id)
  {
    hide Run, Retires, Stored;
    assert calls[..n][..i] == calls[..i];
  }

  lemma LastCause(calls: seq<Call>, n: nat, id: string)
    requires |calls| == n + 1 && id in Run(calls).memories && Run(calls).memories[id].status == Forgotten
    ensures IsCause(calls, n, id)
            || (id in Run(calls[..n]).memories && Run(calls[..n]).memories[id].status == Forgotten)
  {
    AtNext(calls, n);
    assert calls[..n + 1] == calls;
    hide Run, Step, Retires, Stored;
    StepForgets(At(calls, n), calls[n], id);
  }

  /** Over any run, a memory is Forgotten only if a forget by an actor of its target's tenant,
      space and purpose, cleared for it, reached it, or it was stored so. */
  lemma {:induction false} ForgottenHasCause(calls: seq<Call>, id: string)
    requires id in Run(calls).memories && Run(calls).memories[id].status == Forgotten
    ensures exists i :: 0 <= i < |calls| && IsCause(calls, i, id)
  {
    if calls == [] {
      NothingStored();
    } else {
      hide Run, IsCause;
      var n := |calls| - 1;
      LastCause(calls, n, id);
      if !IsCause(calls, n, id) {
        ForgottenHasCause(calls[..n], id);
        var i :| 0 <= i < n && IsCause(calls[..n], i, id);
        CausePrefix(calls, n, i, id);
      }
    }
  }

  // ---------------------------------------------------------------------------
  // Remembering and improving
  // ---------------------------------------------------------------------------

  /** After any run a remember is allowed exactly when its nonce is fresh, its actor may mutate,
      the text is within 4,096 characters, and the memory is of the actor's tenant and space and
      within its clearance; then the store holds it under its id, and that is all that changed. */
  lemma {:induction false} RememberExactly(calls: seq<Call>, c: Call)
    requires c.Remember?
    ensures var (s, s', d, m) := (Run(calls), Step(Run(calls), c).0, Step(Run(calls), c).1, c.memory);
            if FreshNonce(calls, c.actor, c.nonce) && c.actor.canMutate && |m.text| <= 4096
               && m.tenant == c.actor.tenant && m.space == c.actor.space && m.sensitivity <= c.actor.clearance
            then
              && d == Decision(true, [m.memoryId], "", TextDigest("remember:" + m.memoryId + ":" + m.sourceDigest))
              && s'.memories == s.memories[m.memoryId := m] && s'.idempotency == s.idempotency
            else
              && d == Told(if !FreshNonce(calls, c.actor, c.nonce) || !c.actor.canMutate then
                             "replay-or-mutation-denied"
                           else if |m.text| > 4096 then "oversized-memory"
                           else if m.tenant != c.actor.tenant || m.space != c.actor.space then "scope-denied"
                           else "clearance-denied")
              && OnlyBurns(s, s', c.actor, c.nonce)
  {
    FreshIsUnclaimed(calls, c.actor, c.nonce);
    hide Run, FreshNonce;
  }

  /** Call `i` was an improve that went through under this key. */
  ghost predicate ImprovedUnder(calls: seq<Call>, i: nat, key: string)
    requires i < |calls|
  {
    calls[i].Improve? && calls[i].key == key && Improves(At(calls, i), calls[i])
  }

  lemma StepIdempotency(s: State, c: Call, key: string)
    requires Ordered(s)
    ensures key in Step(s, c).0.idempotency <==>
            key in s.idempotency || (c.Improve? && c.key == key && Improves(s, c))
    ensures key in s.idempotency ==> Step(s, c).0.idempotency[key] == s.idempotency[key]
    ensures c.Improve? && Improves(s, c) ==>
              Step(s, c).1 == Decision(true, [c.memoryId, c.replacement.memoryId], "",
                                       TextDigest("improve:" + c.memoryId + ":" + c.replacement.memoryId))
              && Step(s, c).0.idempotency[c.key] == Step(s, c).1
  {
    hide Ordered, Score, SortRanked, Unclaimed, Authorized;
  }

  lemma PrefixSame(calls: seq<Call>, n: nat, i: nat, key: string)
    requires i < n <= |calls|
    ensures ImprovedUnder(calls[..n], i, key) <==> ImprovedUnder(calls, i, key)
    ensures Answer(calls[..n], i) == Answer(calls, i)
  {
    hide Run, Step;
    assert calls[..n][..i] == calls[..i];
  }

  lemma LastImproved(calls: seq<Call>, n: nat, key: string)
    requires |calls| == n + 1
    ensures Run(calls) == Step(At(calls, n), calls[n]).0 && At(calls, n) == Run(calls[..n])
  {
    AtNext(calls, n);
    assert calls[..n + 1] == calls;
  }

  /** The decision kept under a key is that of the improve that went through under it. */
  ghost predicate KeysMatch(calls: seq<Call>, key: string) {
    var kept := Run(calls).idempotency;
    && (key in kept ==> exists i :: 0 <= i < |calls| && ImprovedUnder(calls, i, key))
    && (forall i :: 0 <= i < |calls| && ImprovedUnder(calls, i, key) ==> key in kept && kept[key] == Answer(calls, i))
  }

  lemma KeysNext(calls: seq<Call>, n: nat, key: string)
    requires |calls| == n + 1 && KeysMatch(calls[..n], key)
    ensures KeysMatch(calls, key)
  {
    hide Run, Step, ImprovedUnder, Ordered, Answer, At, Improves;
    var before := calls[..n];
    LastImproved(calls, n, key);
    StepIdempotency(At(calls, n), calls[n], key);
    ImprovedHere(calls, n, key);
    if key in At(calls, n).idempotency {
      var i :| 0 <= i < |before| && ImprovedUnder(before, i, key);
      PrefixSame(calls, n, i, key);
    }
    forall i | 0 <= i < |calls| && ImprovedUnder(calls, i, key)
      ensures key in Run(calls).idempotency && Run(calls).idempotency[key] == Answer(calls, i)
    {
      if i < n {
        PrefixSame(calls, n, i, key);
      }
    }
  }

  lemma {:induction false} KeysAreImproves(calls: seq<Call>, key: string)
    ensures KeysMatch(calls, key)
  {
    if calls == [] {
    } else {
      KeysAreImproves(calls[..|calls| - 1], key);
      KeysNext(calls, |calls| - 1, key);
    }
  }

  lemma ImprovedHere(calls: seq<Call>, i: nat, key: string)
    requires i < |calls|
    ensures ImprovedUnder(calls, i, key) <==>
            calls[i].Improve? && calls[i].key == key && Improves(At(calls, i), calls[i])
    ensures Answer(calls, i) == Step(At(calls, i), calls[i]).1
  {
    hide Run, Step;
  }

  /** After any run an improve by someone who may mutate, with a fresh nonce, gets the earlier
      decision when its key is used.  Otherwise it goes through exactly when the memory is stored
      with the digest expected, is the actor's, and the replacement is within its clearance; then
      the memory is superseded, the replacement stored last, and the decision kept. */
  lemma {:induction false} ImproveExactly(calls: seq<Call>, c: Call)
    requires c.Improve?
    ensures var (s, s', d, r) := (Run(calls), Step(Run(calls), c).0, Step(Run(calls), c).1, c.replacement);
            var stale := c.memoryId !in s.memories || s.memories[c.memoryId].sourceDigest != c.expectedDigest;
            if !FreshNonce(calls, c.actor, c.nonce) || !c.actor.canMutate then
              d == Told("replay-or-mutation-denied") && OnlyBurns(s, s', c.actor, c.nonce)
            else if exists i :: 0 <= i < |calls| && ImprovedUnder(calls, i, c.key) then
              && (forall i :: 0 <= i < |calls| && ImprovedUnder(calls, i, c.key) ==> d == Answer(calls, i))
              && OnlyBurns(s, s', c.actor, c.nonce)
            else if stale then d == Told("stale-source") && OnlyBurns(s, s', c.actor, c.nonce)
            else if !Owns(c.actor, s.memories[c.memoryId]) || r.sensitivity > c.actor.clearance then
              d == Told("authorization-denied") && OnlyBurns(s, s', c.actor, c.nonce)
            else
              && d == Decision(true, [c.memoryId, r.memoryId], "",
                               TextDigest("improve:" + c.memoryId + ":" + r.memoryId))
              && s'.memories == s.memories[c.memoryId := s.memories[c.memoryId].(status := Superseded)][r.memoryId := r]
              && s'.idempotency == s.idempotency[c.key := d]
  {
    FreshIsUnclaimed(calls, c.actor, c.nonce);
    KeysAreImproves(calls, c.key);
    hide Run, FreshNonce, ImprovedUnder, Answer;
  }

  /** When an improve is told it went through, retries included. */
  lemma {:induction false} ImproveAllowed(calls: seq<Call>, c: Call)
    requires c.Improve?
    ensures var (s, s', d) := (Run(calls), Step(Run(calls), c).0, Step(Run(calls), c).1);
            && (d.allowed <==>
                  && FreshNonce(calls, c.actor, c.nonce) && c.actor.canMutate
                  && (|| c.key in s.idempotency
                      || (&& c.memoryId in s.memories && s.memories[c.memoryId].sourceDigest == c.expectedDigest
                          && Owns(c.actor, s.memories[c.memoryId])
                          && c.replacement.sensitivity <= c.actor.clearance)))
            && (!d.allowed ==> s'.memories == s.memories)
  {
    ImproveExactly(calls, c);
    KeysAreImproves(calls, c.key);
    hide Run, Step, FreshNonce, Answer;
    if i :| 0 <= i < |calls| && ImprovedUnder(calls, i, c.key) {
      ImprovedAllowed(calls, i, c.key);
    }
  }

  lemma ImprovedAllowed(calls: seq<Call>, i: nat, key: string)
    requires i < |calls| && ImprovedUnder(calls, i, key)
    ensures Answer(calls, i).allowed
  {
    hide Run, Step;
    StepIdempotency(At(calls, i), calls[i], key);
  }

  // ---------------------------------------------------------------------------
  // Recalling
  // ---------------------------------------------------------------------------

  /** The memory is one the actor should be given for this query at this date. */
  ghost predicate Due(m: Memory, query: string, actor: Actor, asOf: int) {
    && m.status == Current && Owns(actor, m)
    && m.validFrom <= asOf && (m.validUntil.Some? ==> asOf < m.validUntil.value)
    && exists w :: IsWord(query, w) && IsWord(m.text, w)
  }

  lemma FoundIsDue(s: State, id: string, query: string, actor: Actor, asOf: int)
    ensures Found(s.memories, id, query, actor, asOf) <==> id in s.memories && Due(s.memories[id], query, actor, asOf)
  {
    if id in s.memories {
      ScorePositive(query, s.memories[id]);
    }
    hide Score, IsWord;
  }

  /** The pairs a recall ranks: each id with the number of words its memory shares with the query. */
  ghost predicate RanksPairs(s: State, query: string, ids: seq<string>, ranked: seq<(int, string)>) {
    && |ranked| == |ids|
    && forall k :: 0 <= k < |ids| ==>
         ids[k] in s.memories && ranked[k] == (Score(query, s.memories[ids[k]]), ids[k])
  }

  /** Best first, equals by id. */
  ghost predicate InRankOrder(ranked: seq<(int, string)>) {
    forall k, l :: 0 <= k < l < |ranked| ==>
      || ranked[k].0 > ranked[l].0
      || (ranked[k].0 == ranked[l].0 && LexLeq(ranked[k].1, ranked[l].1) && ranked[k].1 != ranked[l].1)
  }

  /** After any run a recall is allowed exactly when its nonce is fresh and its query within 4,096
      characters; it then answers exactly the memories that are due, each once, by falling score
      and then id, and its receipt is of that very ranking.  It changes no memory. */
  lemma {:induction false} RecallExactly(calls: seq<Call>, c: Call)
    requires c.Recall?
    ensures var (s, s', d) := (Run(calls), Step(Run(calls), c).0, Step(Run(calls), c).1);
            && OnlyBurns(s, s', c.actor, c.nonce)
            && (d.allowed <==> FreshNonce(calls, c.actor, c.nonce) && |c.query| <= 4096)
            && (!d.allowed ==> d == Told(if FreshNonce(calls, c.actor, c.nonce) then "oversized-query" else "replay"))
            && (d.allowed ==>
                  && d.error == "" && d.receipt.RankingDigest?
                  && (forall id :: id in d.ids <==> id in s.memories && Due(s.memories[id], c.query, c.actor, c.asOf))
                  && RanksPairs(s, c.query, d.ids, d.receipt.ranked) && InRankOrder(d.receipt.ranked))
  {
    FreshIsUnclaimed(calls, c.actor, c.nonce);
    var s := Run(calls);
    if FreshNonce(calls, c.actor, c.nonce) && |c.query| <= MAX_QUERY_CHARS {
      RunKeyed(calls);
      RecallPairs(s, c.query, c.actor, c.asOf);
      RecallExact(calls, c.query, c.actor, c.asOf, c.nonce);
      forall id
        ensures Found(s.memories, id, c.query, c.actor, c.asOf) <==>
                id in s.memories && Due(s.memories[id], c.query, c.actor, c.asOf)
      {
        FoundIsDue(s, id, c.query, c.actor, c.asOf);
      }
    }
    hide Run, FreshNonce, Found, Due, SortRanked, Ranked, RanksPairs, InRankOrder;
  }

  lemma RecallPairs(s: State, query: string, actor: Actor, asOf: int)
    requires Ordered(s) && Keyed(s)
    ensures var ranking := Ranking(s, query, actor, asOf);
            RanksPairs(s, query, Second(ranking), ranking) && InRankOrder(ranking)
  {
    hide Score, Ranking, Found;
    RankingExact(s, query, actor, asOf);
    var ranking := Ranking(s, query, actor, asOf);
    forall k | 0 <= k < |ranking|
      ensures ranking[k].1 in s.memories && ranking[k].0 == Score(query, s.memories[ranking[k].1])
    {
      assert ranking[k] in ranking;
      FoundIsStored(s, ranking[k].1, query, actor, asOf);
    }
    forall k, l | 0 <= k < l < |ranking|
      ensures ranking[k].0 > ranking[l].0
              || (ranking[k].0 == ranking[l].0 && LexLeq(ranking[k].1, ranking[l].1) && ranking[k].1 != ranking[l].1)
    {
      assert RankLeq(ranking[k], ranking[l]) && ranking[k] != ranking[l];
    }
  }

  lemma FoundIsStored(s: State, id: string, query: string, actor: Actor, asOf: int)
    requires Found(s.memories, id, query, actor, asOf)
    ensures id in s.memories
  {
  }
}
