/** What the memory store holds and gives back: where every stored memory comes from, and that
    what was stored is recalled until something changes it. */
module MemoryContents {
  import opened Wrappers
  import opened Memory
  import opened MemoryRuns

  /** The memory a call stores, if it gets that far. */
  function Stored(s: State, c: Call): Option<Memory>
    requires Ordered(s)
  {
    match c
    case Remember(m, _, _) => if Step(s, c).1.allowed then Some(m) else None
    case Improve(_, replacement, _, _, _, _) => if Improves(s, c) then Some(replacement) else None
    case _ => None
  }

  // ---------------------------------------------------------------------------
  // Where memories come from
  // ---------------------------------------------------------------------------

  /** The memory as it was stored, or since retired. */
  predicate AgedFrom(m: Memory, original: Memory) {
    m == original || (m.status != Current && m == original.(status := m.status))
  }

  /** The memory lies in the actor's own tenant and space and within the size bound. */
  predicate InBounds(m: Memory, actor: Actor) {
    m.tenant == actor.tenant && m.space == actor.space && |m.text| <= MAX_TEXT_CHARS
  }

  /** This call stored the memory: by an actor who may mutate, at no more than its clearance,
      and, by a remember, within its bounds. */
  predicate StoredBy(s: State, c: Call, m: Memory)
    requires Ordered(s)
  {
    && Stored(s, c).Some? && AgedFrom(m, Stored(s, c).value)
    && c.actor.canMutate && m.sensitivity <= c.actor.clearance
    && (c.Remember? ==> InBounds(m, c.actor))
  }

  lemma StepOrigin(s: State, c: Call, id: string)
    requires Ordered(s) && Keyed(s) && id in Step(s, c).0.memories
    ensures var m := Step(s, c).0.memories[id];
            (id in s.memories && AgedFrom(m, s.memories[id])) || StoredBy(s, c, m)
  {
    hide Ordered, Authorized, Score, SortRanked;
  }

  lemma StoredByAges(s: State, c: Call, m: Memory, aged: Memory)
    requires Ordered(s) && StoredBy(s, c, m) && AgedFrom(aged, m)
    ensures StoredBy(s, c, aged)
  {
    hide Stored;
  }

  /** No write-up, over any run: whatever the store holds was stored by some call of the run,
      unchanged but for its retirement, by an actor cleared for it. */
  lemma {:induction false} StoredHasOrigin(calls: seq<Call>, id: string)
    requires id in Run(calls).memories
    ensures exists i :: 0 <= i < |calls| && StoredBy(At(calls, i), calls[i], Run(calls).memories[id])
  {
    hide Step, StoredBy, AgedFrom, Keyed, Ordered;
    if calls == [] {
      NothingStored();
    } else {
      var n := |calls| - 1;
      var before, m := calls[..n], Run(calls).memories[id];
      AtNext(calls, n);
      assert calls[..n + 1] == calls;
      RunKeyed(before);
      StepOrigin(Run(before), calls[n], id);
      if StoredBy(At(calls, n), calls[n], m) {
      } else {
        StoredHasOrigin(before, id);
        var i :| 0 <= i < n && StoredBy(At(before, i), before[i], Run(before).memories[id]);
        assert before[..i] == calls[..i];
        StoredByAges(At(calls, i), calls[i], Run(before).memories[id], m);
      }
    }
  }

  lemma NothingStored()
    ensures Run([]).memories == map[]
  {
  }

  // ---------------------------------------------------------------------------
  // What an improve does not check
  // ---------------------------------------------------------------------------

  /** A stored memory lies within its actor's bounds exactly when the call was a remember, or an
      improve whose replacement did. */
  lemma StoredInBounds(s: State, c: Call)
    requires Ordered(s) && Stored(s, c).Some?
    ensures InBounds(Stored(s, c).value, c.actor) <==> c.Remember? || InBounds(c.replacement, c.actor)
  {
    hide Put;
  }

  /** Every improve of the run that went through had a replacement within its actor's bounds. */
  ghost predicate Confined(calls: seq<Call>) {
    forall k :: 0 <= k < |calls| && calls[k].Improve? && Improves(At(calls, k), calls[k]) ==>
                  InBounds(calls[k].replacement, calls[k].actor)
  }

  /** In such a run whatever is stored lies in the tenant and space, and within the size bound,
      of an actor who stored it. */
  lemma {:induction false} ConfinedStore(calls: seq<Call>, id: string)
    requires Confined(calls) && id in Run(calls).memories
    ensures var m := Run(calls).memories[id];
            exists i :: 0 <= i < |calls| && StoredBy(At(calls, i), calls[i], m) && InBounds(m, calls[i].actor)
  {
    StoredHasOrigin(calls, id);
    var m := Run(calls).memories[id];
    hide Run, Step;
    var i :| 0 <= i < |calls| && StoredBy(At(calls, i), calls[i], m);
    StoredInBounds(At(calls, i), calls[i]);
  }

  /** Without that, an improve stores any memory its actor is cleared for, whatever its tenant,
      space, purpose, size or state: here over a memory just remembered. */
  lemma ImproveStoresAnything(m: Memory, actor: Actor, replacement: Memory)
    requires Authorized(m, actor) && actor.canMutate && |m.text| <= MAX_TEXT_CHARS
    requires replacement.sensitivity <= actor.clearance
    ensures var calls := [Remember(m, actor, "1"), Improve(m.memoryId, replacement, actor, "2", m.sourceDigest, "key")];
            Stored(At(calls, 1), calls[1]) == Some(replacement)
            && replacement.memoryId in Run(calls).memories && Run(calls).memories[replacement.memoryId] == replacement
  {
    var first := Remember(m, actor, "1");
    var second := Improve(m.memoryId, replacement, actor, "2", m.sourceDigest, "key");
    assert [first, second][..1] == [first] && [first][..0] == [];
    assert Run([first]) == Step(EmptyState, first).0;
  }

  /** Nor is the state of what is replaced checked: a forgotten memory is improved back to
      current under its own id. */
  lemma ImproveRevivesForgotten(m: Memory, actor: Actor)
    requires Authorized(m, actor) && actor.canMutate && |m.text| <= MAX_TEXT_CHARS && m.status == Current
    ensures var calls := [Remember(m, actor, "1"), Forget(m.memoryId, actor, "2"),
                          Improve(m.memoryId, m, actor, "3", m.sourceDigest, "key")];
            && Retired(At(calls, 2), m.memoryId)
            && m.memoryId in Run(calls).memories && Run(calls).memories[m.memoryId] == m
  {
    var calls := [Remember(m, actor, "1"), Forget(m.memoryId, actor, "2"),
                  Improve(m.memoryId, m, actor, "3", m.sourceDigest, "key")];
    AtNext(calls, 0);
    AtNext(calls, 1);
    AtNext(calls, 2);
    assert calls[..3] == calls;
    hide Run, Authorized;
    ForgetIsOneHop(At(calls, 1), calls[1]);
    StoreTakes(At(calls, 2), calls[2]);
  }

  // ---------------------------------------------------------------------------
  // What was stored is recalled
  // ---------------------------------------------------------------------------

  /** Does the call change what is held under `id`? */
  predicate Touches(s: State, c: Call, id: string)
    requires Ordered(s)
  {
    || (Stored(s, c).Some? && Stored(s, c).value.memoryId == id)
    || (c.Improve? && Improves(s, c) && c.memoryId == id)
    || (&& c.Forget? && Step(s, c).1.allowed && id in s.memories
        && (c.memoryId == id || c.memoryId in s.memories[id].derivedFrom))
  }

  lemma StoreTakes(s: State, c: Call)
    requires Ordered(s) && Stored(s, c).Some?
    ensures var m := Stored(s, c).value;
            m.memoryId in Step(s, c).0.memories && Step(s, c).0.memories[m.memoryId] == m
  {
  }

  lemma UntouchedStays(s: State, c: Call, id: string)
    requires Ordered(s) && id in s.memories && !Touches(s, c, id)
    ensures id in Step(s, c).0.memories && Step(s, c).0.memories[id] == s.memories[id]
  {
  }

  lemma {:induction false} UntouchedKept(calls: seq<Call>, id: string, i: nat, j: nat)
    requires i <= j <= |calls| && id in At(calls, i).memories
    requires forall k :: i <= k < j ==> !Touches(At(calls, k), calls[k], id)
    ensures id in At(calls, j).memories && At(calls, j).memories[id] == At(calls, i).memories[id]
    decreases j
  {
    if i == j {
    } else {
      UntouchedKept(calls, id, i, j - 1);
      AtNext(calls, j - 1);
      UntouchedStays(At(calls, j - 1), calls[j - 1], id);
    }
  }

  /** What a remember or an improve stored is in a later recall exactly when the recalling actor
      may see it at that date and the query shares a word with it, across restarts and whatever
      else happens, until a call changes that very id. */
  lemma {:induction false} StoredIsRecalled(calls: seq<Call>, i: nat, j: nat)
    requires i < j < |calls| && Stored(At(calls, i), calls[i]).Some?
    requires calls[j].Recall? && Answer(calls, j).allowed
    requires var id := Stored(At(calls, i), calls[i]).value.memoryId;
             forall k :: i < k < j ==> !Touches(At(calls, k), calls[k], id)
    ensures var m := Stored(At(calls, i), calls[i]).value;
            m.memoryId in Answer(calls, j).ids <==>
            Visible(m, calls[j].actor, calls[j].asOf) && Score(calls[j].query, m) > 0
  {
    hide Score, SortRanked;
    var m, c := Stored(At(calls, i), calls[i]).value, calls[j];
    AtNext(calls, i);
    StoreTakes(At(calls, i), calls[i]);
    UntouchedKept(calls, m.memoryId, i + 1, j);
    RecallExact(calls[..j], c.query, c.actor, c.asOf, c.nonce);
  }

  /** After an improve the memory it replaced is in no recall until a current one is stored
      under that id. */
  lemma {:induction false} SupersededIsNotRecalled(calls: seq<Call>, i: nat, j: nat)
    requires i < j < |calls| && calls[i].Improve? && Improves(At(calls, i), calls[i]) && calls[j].Recall?
    requires calls[i].replacement.memoryId != calls[i].memoryId
    requires forall k :: i < k < j ==> !Renews(At(calls, k), calls[k], calls[i].memoryId)
    ensures calls[i].memoryId !in Answer(calls, j).ids
  {
    AtNext(calls, i);
    RetiredKept(calls, calls[i].memoryId, i + 1, j);
    var c := calls[j];
    if Unclaimed(At(calls, j), c.actor, c.nonce) && |c.query| <= MAX_QUERY_CHARS {
      RecallExact(calls[..j], c.query, c.actor, c.asOf, c.nonce);
    }
  }
}
