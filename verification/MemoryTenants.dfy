/** Non-interference between groups of tenants.  The store shares its ids and idempotency keys
    between tenants, so two groups are kept apart only if they use different ones; if they do,
    neither can tell that the other is there. */
module MemoryTenants {
  import opened Memory
  import opened MemoryRuns

  /** What a group of actors has to itself. */
  datatype Group = Group(dids: set<string>, tenants: set<string>, ids: set<string>, keys: set<string>)

  /** The memory has an id of the group's and lists only such ids as its sources; or neither. */
  predicate Ours(g: Group, m: Memory) {
    m.memoryId in g.ids && forall d :: d in m.derivedFrom ==> d in g.ids
  }

  predicate Theirs(g: Group, m: Memory) {
    m.memoryId !in g.ids && forall d :: d in m.derivedFrom ==> d !in g.ids
  }

  /** A call by an actor of the group that names nothing but what is the group's. */
  predicate Within(g: Group, c: Call) {
    match c
    case Remember(m, actor, _) => actor.did in g.dids && actor.tenant in g.tenants && Ours(g, m)
    case Recall(_, actor, _, _) => actor.did in g.dids && actor.tenant in g.tenants
    case Improve(id, r, actor, _, _, key) =>
      && actor.did in g.dids && actor.tenant in g.tenants
      && id in g.ids && Ours(g, r) && r.tenant in g.tenants && key in g.keys
    case Forget(id, actor, _) => actor.did in g.dids && actor.tenant in g.tenants && id in g.ids
    case Restart => false
  }

  /** A call by an actor outside the group that names nothing of the group's. */
  predicate Outside(g: Group, c: Call) {
    match c
    case Remember(m, actor, _) => actor.did !in g.dids && actor.tenant !in g.tenants && Theirs(g, m)
    case Recall(_, actor, _, _) => actor.did !in g.dids && actor.tenant !in g.tenants
    case Improve(id, r, actor, _, _, key) =>
      && actor.did !in g.dids && actor.tenant !in g.tenants
      && id !in g.ids && Theirs(g, r) && r.tenant !in g.tenants && key !in g.keys
    case Forget(id, actor, _) => actor.did !in g.dids && actor.tenant !in g.tenants && id !in g.ids
    case Restart => false
  }

  ghost predicate Separated(g: Group, calls: seq<Call>) {
    forall i :: 0 <= i < |calls| ==> calls[i].Restart? || Within(g, calls[i]) || Outside(g, calls[i])
  }

  /** The run with only the group's own calls in it. */
  function Own(g: Group, calls: seq<Call>): seq<Call> {
    if calls == [] then []
    else
      var c := calls[|calls| - 1];
      Own(g, calls[..|calls| - 1]) + if Within(g, c) then [c] else []
  }

  /** A memory under one of the group's ids has its tenants and sources; any other has neither. */
  predicate Placed(g: Group, k: string, m: Memory) {
    if k in g.ids then Ours(g, m) && m.tenant in g.tenants else Theirs(g, m) && m.tenant !in g.tenants
  }

  ghost predicate Apart(g: Group, s: State) {
    forall k :: k in s.memories ==> Placed(g, k, s.memories[k])
  }

  ghost predicate SameMemories(g: Group, a: map<string, Memory>, b: map<string, Memory>) {
    forall k :: k in g.ids ==> (k in a <==> k in b) && (k in a ==> a[k] == b[k])
  }

  ghost predicate SameNonces(g: Group, a: set<(string, string)>, b: set<(string, string)>) {
    forall did, nonce :: did in g.dids ==> ((did, nonce) in a <==> (did, nonce) in b)
  }

  ghost predicate SameKeys(g: Group, a: map<string, Decision>, b: map<string, Decision>) {
    forall k :: k in g.keys ==> (k in a <==> k in b) && (k in a ==> a[k] == b[k])
  }

  /** The two states have the same of everything that is the group's. */
  ghost predicate Agree(g: Group, s: State, s': State) {
    && SameMemories(g, s.memories, s'.memories)
    && SameNonces(g, s.nonces, s'.nonces)
    && SameKeys(g, s.idempotency, s'.idempotency)
  }

  lemma AgreeTrans(g: Group, a: State, b: State, c: State)
    requires Agree(g, a, b) && Agree(g, b, c)
    ensures Agree(g, a, c)
  {
  }

  lemma StepPlaces(g: Group, s: State, c: Call, k: string)
    requires Ordered(s) && Apart(g, s) && (c.Restart? || Within(g, c) || Outside(g, c))
    requires k in Step(s, c).0.memories
    ensures Placed(g, k, Step(s, c).0.memories[k])
  {
    hide Ordered, Score, SortRanked, Unclaimed, InWindow;
    assert k in s.memories ==> Placed(g, k, s.memories[k]);
  }

  lemma ApartStays(g: Group, s: State, c: Call)
    requires Ordered(s) && Apart(g, s) && (c.Restart? || Within(g, c) || Outside(g, c))
    ensures Apart(g, Step(s, c).0)
  {
    hide Step, Within, Outside, Placed;
    forall k | k in Step(s, c).0.memories
      ensures Placed(g, k, Step(s, c).0.memories[k])
    {
      StepPlaces(g, s, c, k);
    }
  }

  lemma OutsideKeeps(g: Group, s: State, c: Call, k: string)
    requires Ordered(s) && Apart(g, s) && Outside(g, c) && k in g.ids
    ensures k in Step(s, c).0.memories <==> k in s.memories
    ensures k in s.memories ==> Step(s, c).0.memories[k] == s.memories[k]
  {
    hide Ordered, Score, SortRanked, Authorized, Unclaimed;
    assert k in s.memories ==> Placed(g, k, s.memories[k]);
  }

  lemma OutsideKeepsRest(g: Group, s: State, c: Call)
    requires Ordered(s) && Outside(g, c)
    ensures SameNonces(g, Step(s, c).0.nonces, s.nonces)
    ensures SameKeys(g, Step(s, c).0.idempotency, s.idempotency)
  {
    hide Ordered, Score, SortRanked, Authorized, Unclaimed, Cascade;
  }

  /** A call from outside leaves everything of the group's as it was. */
  lemma OutsideLeaves(g: Group, s: State, c: Call)
    requires Ordered(s) && Apart(g, s) && Outside(g, c)
    ensures Agree(g, Step(s, c).0, s)
  {
    hide Step, Outside, Apart;
    OutsideKeepsRest(g, s, c);
    forall k | k in g.ids
      ensures k in Step(s, c).0.memories <==> k in s.memories
      ensures k in s.memories ==> Step(s, c).0.memories[k] == s.memories[k]
    {
      OutsideKeeps(g, s, c, k);
    }
  }

  // ---------------------------------------------------------------------------
  // The group's own calls
  // ---------------------------------------------------------------------------

  /** One of the group's calls gets the same answer in two states that agree on what is the
      group's, and leaves them in agreement. */
  ghost predicate Indistinct(g: Group, s: State, s': State, c: Call)
    requires Ordered(s) && Ordered(s')
  {
    Step(s, c).1 == Step(s', c).1 && Agree(g, Step(s, c).0, Step(s', c).0)
  }

  lemma PutAgrees(g: Group, a: map<string, Memory>, b: map<string, Memory>, k: string, m: Memory)
    requires SameMemories(g, a, b)
    ensures SameMemories(g, a[k := m], b[k := m])
  {
  }

  lemma CascadeAgrees(g: Group, a: map<string, Memory>, b: map<string, Memory>, id: string)
    requires SameMemories(g, a, b)
    ensures SameMemories(g, Cascade(a, id), Cascade(b, id))
  {
    hide Marked;
  }

  lemma ClaimAgrees(g: Group, s: State, s': State, actor: Actor, nonce: string)
    requires Agree(g, s, s') && actor.did in g.dids
    ensures Unclaimed(s, actor, nonce) <==> Unclaimed(s', actor, nonce)
    ensures Agree(g, Claimed(s, actor, nonce), Claimed(s', actor, nonce))
  {
    hide SameMemories, SameKeys;
  }

  lemma SameSeen(g: Group, s: State, s': State, actor: Actor, asOf: int)
    requires Agree(g, s, s') && Apart(g, s) && Apart(g, s') && actor.tenant in g.tenants
    ensures Seen(s, actor, asOf) == Seen(s', actor, asOf)
  {
    hide InWindow, Ours, Theirs, SameNonces, SameKeys;
    forall k
      ensures k in Seen(s, actor, asOf) <==> k in Seen(s', actor, asOf)
      ensures k in Seen(s, actor, asOf) ==> s.memories[k] == s'.memories[k]
    {
      assert k in s.memories ==> Placed(g, k, s.memories[k]);
      assert k in s'.memories ==> Placed(g, k, s'.memories[k]);
    }
  }

  lemma RecallIndistinct(g: Group, s: State, s': State, c: Call)
    requires Ordered(s) && Ordered(s') && Keyed(s) && Keyed(s')
    requires Agree(g, s, s') && Apart(g, s) && Apart(g, s') && Within(g, c) && c.Recall?
    ensures Indistinct(g, s, s', c)
  {
    hide Ordered, Keyed, Score, SortRanked, Agree, Apart, Unclaimed, Claimed, Ranked;
    ClaimAgrees(g, s, s', c.actor, c.nonce);
    SameSeen(g, s, s', c.actor, c.asOf);
    SameSeenSameRanking(s, s', c.query, c.actor, c.asOf);
  }

  lemma RememberIndistinct(g: Group, s: State, s': State, c: Call)
    requires Ordered(s) && Ordered(s') && Agree(g, s, s') && Within(g, c) && c.Remember?
    ensures Indistinct(g, s, s', c)
  {
    hide Ordered, Unclaimed, SameMemories, SameNonces, SameKeys, Ours;
    ClaimAgrees(g, s, s', c.actor, c.nonce);
    PutAgrees(g, s.memories, s'.memories, c.memory.memoryId, c.memory);
  }

  lemma ImproveIndistinct(g: Group, s: State, s': State, c: Call)
    requires Ordered(s) && Ordered(s') && Agree(g, s, s') && Within(g, c) && c.Improve?
    ensures Indistinct(g, s, s', c)
  {
    hide Ordered, Unclaimed, SameNonces, Ours, Authorized;
    ClaimAgrees(g, s, s', c.actor, c.nonce);
    if c.memoryId in s.memories {
      var m := s.memories[c.memoryId].(status := Superseded);
      assert s'.memories[c.memoryId] == s.memories[c.memoryId];
      PutAgrees(g, s.memories, s'.memories, c.memoryId, m);
      PutAgrees(g, s.memories[c.memoryId := m], s'.memories[c.memoryId := m], c.replacement.memoryId, c.replacement);
    }
  }

  lemma ForgetIndistinct(g: Group, s: State, s': State, c: Call)
    requires Ordered(s) && Ordered(s') && Agree(g, s, s') && Within(g, c) && c.Forget?
    ensures Indistinct(g, s, s', c)
  {
    hide Ordered, Unclaimed, SameNonces, SameKeys, Authorized, Cascade;
    ClaimAgrees(g, s, s', c.actor, c.nonce);
    assert c.memoryId in s.memories ==> s'.memories[c.memoryId] == s.memories[c.memoryId];
    CascadeAgrees(g, s.memories, s'.memories, c.memoryId);
  }

  // ---------------------------------------------------------------------------
  // Runs
  // ---------------------------------------------------------------------------

  lemma RunAppend(calls: seq<Call>, c: Call)
    ensures Run(calls + [c]) == Step(Run(calls), c).0
  {
    assert (calls + [c])[..|calls|] == calls;
  }

  lemma {:induction false} OwnRunAgrees(g: Group, calls: seq<Call>)
    requires Separated(g, calls)
    ensures Agree(g, Run(calls), Run(Own(g, calls)))
    ensures Apart(g, Run(calls)) && Apart(g, Run(Own(g, calls)))
  {
    if calls == [] {
      assert Run(calls) == Run(Own(g, calls)) == EmptyState;
    } else {
      var before, c := calls[..|calls| - 1], calls[|calls| - 1];
      OwnRunAgrees(g, before);
      var s, s' := Run(before), Run(Own(g, before));
      assert Run(calls) == Step(s, c).0;
      hide Run, Step, Agree, Apart, Ordered, Within, Outside;
      ApartStays(g, s, c);
      if Within(g, c) {
        RunAppend(Own(g, before), c);
        ApartStays(g, s', c);
        RunKeyed(before);
        RunKeyed(Own(g, before));
        OwnCallIndistinct(g, s, s', c);
      } else {
        assert Own(g, calls) == Own(g, before);
        if c.Restart? {
          RestartIdle(s);
        } else {
          OutsideLeaves(g, s, c);
          AgreeTrans(g, Step(s, c).0, s, s');
        }
      }
    }
  }

  lemma RestartIdle(s: State)
    requires Ordered(s)
    ensures Step(s, Restart).0 == s
  {
  }

  lemma OwnCallIndistinct(g: Group, s: State, s': State, c: Call)
    requires Ordered(s) && Ordered(s') && Keyed(s) && Keyed(s')
    requires Agree(g, s, s') && Apart(g, s) && Apart(g, s') && Within(g, c)
    ensures Indistinct(g, s, s', c)
  {
    hide Indistinct, Agree, Apart, Within, Ordered, Keyed;
    match c
    case Remember(_, _, _) => RememberIndistinct(g, s, s', c);
    case Recall(_, _, _, _) => RecallIndistinct(g, s, s', c);
    case Improve(_, _, _, _, _, _) => ImproveIndistinct(g, s, s', c);
    case Forget(_, _, _) => ForgetIndistinct(g, s, s', c);
    case Restart => RestartIsNobodys(g);
  }

  lemma RestartIsNobodys(g: Group)
    ensures !Within(g, Restart)
  {
  }

  /** Non-interference over whole runs: if everyone keeps to the ids, keys and tenants of one
      side, each call of a group is answered as if the other side's calls, and the restarts,
      had never been made. */
  lemma {:induction false} GroupsDoNotInterfere(g: Group, calls: seq<Call>, c: Call)
    requires Separated(g, calls) && Within(g, c)
    ensures Step(Run(calls), c).1 == Step(Run(Own(g, calls)), c).1
  {
    hide Run, Step, Agree, Apart, Ordered, Within, Separated;
    OwnRunAgrees(g, calls);
    RunKeyed(calls);
    RunKeyed(Own(g, calls));
    OwnCallIndistinct(g, Run(calls), Run(Own(g, calls)), c);
  }

  /** Sharing one id is enough to break it: another tenant's actor stores its own memory under
      the id of one's own, which is then gone. */
  lemma SharedIdInterferes(m: Memory, actor: Actor, m': Memory, actor': Actor)
    requires Authorized(m, actor) && actor.canMutate && |m.text| <= MAX_TEXT_CHARS
    requires Authorized(m', actor') && actor'.canMutate && |m'.text| <= MAX_TEXT_CHARS
    requires m'.memoryId == m.memoryId && actor'.tenant != actor.tenant
    ensures var calls := [Remember(m, actor, "1"), Remember(m', actor', "2")];
            && m.memoryId in At(calls, 1).memories && At(calls, 1).memories[m.memoryId] == m
            && m.memoryId in Run(calls).memories
            && forall asOf :: !Visible(Run(calls).memories[m.memoryId], actor, asOf)
  {
    var calls := [Remember(m, actor, "1"), Remember(m', actor', "2")];
    AtNext(calls, 0);
    AtNext(calls, 1);
    assert calls[..2] == calls;
  }
}
