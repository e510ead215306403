/** What every run of the agent adapter keeps. */
module AgentRuns {
  import opened Wrappers
  import opened Identity
  import opened Agent
  import A = Authenticated
  import AR = AuthenticatedRuns
  import M = Memory
  import MR = MemoryRuns
  import Decimal

  function Run(calls: seq<Call>): (s: State)
    ensures M.Ordered(s.backend.core)
  {
    if calls == [] then FreshState
    else
      var s, c := Run(calls[..|calls| - 1]), calls[|calls| - 1];
      StepOrdered(s, c);
      Step(s, c).0
  }

  lemma StepOrdered(s: State, c: Call)
    requires M.Ordered(s.backend.core)
    ensures M.Ordered(Step(s, c).0.backend.core)
  {
    hide A.Step;
    if IsTool(c) && c.session.Some? {
      AR.StepOrdered(s.backend, BackendCall(s, c));
    } else if c.Restart? {
      AR.StepOrdered(s.backend, A.Restart);
    }
  }

  /** The backend calls made since the last reset. */
  function Made(calls: seq<Call>): seq<A.Call> {
    if calls == [] then []
    else
      var before, c := calls[..|calls| - 1], calls[|calls| - 1];
      if c.Reset? then []
      else if c.Restart? then Made(before) + [A.Restart]
      else if c.session.None? then Made(before)
      else Made(before) + [BackendCall(Run(before), c)]
  }

  /** The adapter's backend is the authenticated backend after exactly the calls made since
      the last reset, so everything proved of its runs holds here. */
  lemma {:induction false} Refines(calls: seq<Call>)
    ensures Run(calls).backend == AR.Run(Made(calls))
  {
    hide A.Step;
    if calls == [] {
    } else {
      var before, c := calls[..|calls| - 1], calls[|calls| - 1];
      Refines(before);
      if !c.Reset? && Made(calls) != Made(before) {
        var call := Made(calls)[|Made(before)|];
        assert Made(calls)[..|Made(calls)| - 1] == Made(before);
      }
    }
  }

  // ---------------------------------------------------------------------------
  // Nonces
  // ---------------------------------------------------------------------------

  /** Every nonce the core has seen is one the counter has already passed. */
  ghost predicate Spent(s: State) {
    forall key :: key in s.backend.core.nonces ==> exists k: nat :: 1 <= k <= s.counter && key.1 == Nonce(k)
  }

  lemma StepSpent(s: State, c: Call)
    requires M.Ordered(s.backend.core) && Spent(s)
    ensures Spent(Step(s, c).0)
  {
    hide Nonce;
    var s' := Step(s, c).0;
    if IsTool(c) && c.session.Some? {
      BackendBurns(s.backend, BackendCall(s, c));
      forall key | key in s'.backend.core.nonces
        ensures exists k: nat :: 1 <= k <= s'.counter && key.1 == Nonce(k)
      {
        if key in s.backend.core.nonces {
          var k: nat :| 1 <= k <= s.counter && key.1 == Nonce(k);
        } else {
          assert key.1 == Nonce(s.counter + 1);
        }
      }
    }
  }

  lemma BackendBurns(s: A.State, c: A.Call)
    requires M.Ordered(s.core) && c.Act?
    ensures forall key :: key in A.Step(s, c).0.core.nonces ==> key in s.core.nonces || key.1 == c.nonce
  {
    if Authenticate(s.records, c.did, c.credential).Some? {
      MR.StepBurns(s.core, A.CoreCall(c.request, A.ActorOf(s.records[c.did]), c.nonce));
    }
  }

  lemma {:induction false} RunSpent(calls: seq<Call>)
    ensures Spent(Run(calls))
  {
    hide Nonce, Step;
    if calls == [] {
    } else {
      RunSpent(calls[..|calls| - 1]);
      StepSpent(Run(calls[..|calls| - 1]), calls[|calls| - 1]);
    }
  }

  lemma NonceInjective(m: nat, n: nat)
    requires Nonce(m) == Nonce(n)
    ensures m == n
  {
    assert Nonce(m)[12..] == Decimal.Print(m) && Nonce(n)[12..] == Decimal.Print(n);
    Decimal.PrintInjective(m, n);
  }

  lemma NextNonceFresh(s: State, did: string)
    requires Spent(s)
    ensures (did, Nonce(s.counter + 1)) !in s.backend.core.nonces
  {
    hide Nonce;
    var key := (did, Nonce(s.counter + 1));
    if key in s.backend.core.nonces {
      var k: nat :| 1 <= k <= s.counter && key.1 == Nonce(k);
      NonceInjective(k, s.counter + 1);
    }
  }

  ghost predicate MayMutate(records: map<string, Record>) {
    forall did :: did in records ==> records[did].canMutate
  }

  lemma {:induction false} RegisterMutators(records: map<string, Record>, more: seq<Record>)
    requires MayMutate(records) && forall i :: 0 <= i < |more| ==> more[i].canMutate
    ensures MayMutate(A.Register(records, more))
  {
    if more == [] {
    } else {
      RegisterMutators(records, more[..|more| - 1]);
    }
  }

  /** The registry an adapter run works with never changes. */
  lemma {:induction false} RegistryFixed(calls: seq<Call>)
    ensures Run(calls).backend.records == A.StartState.records
  {
    if calls == [] {
    } else {
      RegistryFixed(calls[..|calls| - 1]);
    }
  }

  /** The core's refusals of a fresh nonce by someone who may mutate name no replay. */
  lemma FreshIsNoReplay(s: M.State, c: M.Call)
    requires c.Remember? || c.Recall? || c.Forget?
    requires M.Ordered(s) && c.actor.canMutate && M.Unclaimed(s, c.actor, c.nonce)
    ensures M.Step(s, c).1.error !in {"replay", "replay-or-mutation-denied"}
  {
  }

  lemma ToolErrors(s: State, c: Call)
    requires M.Ordered(s.backend.core) && IsTool(c) && c.session.Some?
    ensures Step(s, c).1.error in {"", "denied", A.Step(s.backend, BackendCall(s, c)).1.error}
  {
  }

  /** No tool call of any run, whatever session it comes with, is ever refused as a replay:
      for a caller who authenticates the core finds the nonce unclaimed. */
  lemma {:induction false} NeverRefusedAsReplay(calls: seq<Call>, c: Call)
    requires IsTool(c) && c.session.Some?
    ensures var s := Run(calls);
            var (did, credential) := c.session.value;
            var record := Authenticate(s.backend.records, did, credential);
            record.Some? ==> M.Unclaimed(s.backend.core, A.ActorOf(record.value), Nonce(s.counter + 1))
    ensures Step(Run(calls), c).1.error !in {"replay", "replay-or-mutation-denied"}
  {
    hide Nonce, Step, Run, M.Step, A.Register;
    var s, b := Run(calls), BackendCall(Run(calls), c);
    RunSpent(calls);
    NextNonceFresh(s, b.did);
    RegistryFixed(calls);
    RegisterMutators(map[], A.PRINCIPALS);
    Refines(calls);
    AR.RunFiled(Made(calls));
    ToolErrors(s, c);
    var record := Authenticate(s.backend.records, b.did, b.credential);
    if record.Some? {
      FreshIsNoReplay(s.backend.core, A.CoreCall(b.request, A.ActorOf(record.value), b.nonce));
    }
  }

  /** A session keeps working: whoever authenticates once does so in every later state. */
  lemma {:induction false} SessionsLast(calls: seq<Call>, calls': seq<Call>, did: string, credential: Credential)
    ensures Authenticate(Run(calls).backend.records, did, credential)
         == Authenticate(Run(calls').backend.records, did, credential)
  {
    RegistryFixed(calls);
    RegistryFixed(calls');
  }

  // ---------------------------------------------------------------------------
  // What the tools answer
  // ---------------------------------------------------------------------------

  lemma NoWordsNoScore(m: M.Memory)
    ensures M.Score("", m) == 0
  {
  }

  /** Listing recalls with the empty query, which scores nothing: in every run and for every
      session it succeeds with no ids. */
  lemma {:induction false} ListIsEmpty(calls: seq<Call>, session: Session)
    requires session.Some?
    ensures Step(Run(calls), ListIds(session)).1 == ToolResult(true, [], [], "")
  {
    hide Nonce, M.Score, Step, M.Step;
    var s, c := Run(calls), ListIds(session);
    var ids := A.Step(s.backend, BackendCall(s, c)).1.ids;
    Refines(calls);
    if ids != [] {
      AR.RecalledIsAuthorized(Made(calls), BackendCall(s, c), ids[0]);
      EmptyRecallIsEmpty(Made(calls), BackendCall(s, c), ids[0]);
    }
    ListAnswers(s, session);
  }

  lemma ListAnswers(s: State, session: Session)
    requires M.Ordered(s.backend.core) && session.Some?
    ensures Step(s, ListIds(session)).1.ids == A.Step(s.backend, BackendCall(s, ListIds(session))).1.ids
    ensures Step(s, ListIds(session)).1 == ToolResult(true, [], Step(s, ListIds(session)).1.ids, "")
  {
  }

  lemma {:induction false} EmptyRecallIsEmpty(calls: seq<A.Call>, c: A.Call, id: string)
    requires c.Act? && c.request.Recall? && c.request.query == ""
    ensures id !in A.Step(AR.Run(calls), c).1.ids
  {
    if id in A.Step(AR.Run(calls), c).1.ids {
      var record := Authenticate(AR.Run(calls).records, c.did, c.credential).value;
      AR.Refines(calls);
      MR.RecallExact(AR.Erased(calls), "", A.ActorOf(record), c.request.asOf, c.nonce);
      NoWordsNoScore(AR.Run(calls).core.memories[id]);
    }
  }

  /** A read answers with one row per recalled id, in order: its id and the start of its text. */
  lemma {:induction false} ReadRows(calls: seq<Call>, c: Call)
    requires c.Read? && Step(Run(calls), c).1.ok
    ensures var r := Step(Run(calls), c).1;
            var memories := Run(calls).backend.core.memories;
            && |r.results| == |r.ids|
            && forall k :: 0 <= k < |r.ids| ==>
                 r.ids[k] in memories && r.results[k] == (r.ids[k], Snippet(memories[r.ids[k]].text))
  {
    hide Nonce;
    var s, r := Run(calls), Step(Run(calls), c).1;
    Refines(calls);
    forall id | id in r.ids
      ensures id in s.backend.core.memories
    {
      AR.RecalledIsAuthorized(Made(calls), BackendCall(s, c), id);
    }
    RowsOfStored(s.backend.core.memories, r.ids);
  }

  lemma {:induction false} RowsOfStored(memories: map<string, M.Memory>, ids: seq<string>)
    requires forall id :: id in ids ==> id in memories
    ensures |Rows(memories, ids)| == |ids|
    ensures forall k :: 0 <= k < |ids| ==> Rows(memories, ids)[k] == (ids[k], Snippet(memories[ids[k]].text))
  {
    if ids == [] {
    } else {
      RowsOfStored(memories, ids[..|ids| - 1]);
    }
  }

  // ---------------------------------------------------------------------------
  // Deletion, end to end
  // ---------------------------------------------------------------------------

  function At(calls: seq<Call>, i: nat): (s: State)
    requires i <= |calls|
    ensures M.Ordered(s.backend.core)
  {
    Run(calls[..i])
  }

  lemma AtNext(calls: seq<Call>, i: nat)
    requires i < |calls|
    ensures At(calls, i + 1) == Step(At(calls, i), calls[i]).0
  {
    assert calls[..i + 1][..i] == calls[..i];
  }

  /** A write the adapter reports as done, under this id. */
  predicate Rewrites(s: State, c: Call, id: string)
    requires M.Ordered(s.backend.core)
  {
    c.Write? && c.memoryId == id && Step(s, c).1.ok
  }

  lemma GoneStays(s: State, c: Call, id: string)
    requires M.Ordered(s.backend.core)
    requires MR.Retired(s.backend.core, id) && !Rewrites(s, c, id)
    ensures MR.Retired(Step(s, c).0.backend.core, id)
  {
    hide Nonce, M.Step;
    if IsTool(c) && c.session.Some? {
      var b := BackendCall(s, c);
      var record := Authenticate(s.backend.records, b.did, b.credential);
      if record.Some? {
        MR.RetiredStays(s.backend.core, A.CoreCall(b.request, A.ActorOf(record.value), b.nonce), id);
      }
    }
  }

  lemma {:induction false} GoneKept(calls: seq<Call>, id: string, i: nat, j: nat)
    requires i <= j <= |calls| && MR.Retired(At(calls, i).backend.core, id)
    requires forall k :: i <= k < j ==> !Rewrites(At(calls, k), calls[k], id)
    ensures MR.Retired(At(calls, j).backend.core, id)
    decreases j
  {
    hide Step;
    if i == j {
    } else {
      GoneKept(calls, id, i, j - 1);
      AtNext(calls, j - 1);
      GoneStays(At(calls, j - 1), calls[j - 1], id);
    }
  }

  lemma DeleteRetires(s: State, c: Call, id: string)
    requires M.Ordered(s.backend.core) && c.Delete? && Step(s, c).1.ok
    requires var memories := s.backend.core.memories;
             id == c.memoryId || (id in memories && c.memoryId in memories[id].derivedFrom)
    ensures MR.Retired(Step(s, c).0.backend.core, id)
  {
    hide Nonce, M.Step;
    var b := BackendCall(s, c);
    var record := Authenticate(s.backend.records, b.did, b.credential).value;
    MR.ForgetIsOneHop(s.backend.core, A.CoreCall(b.request, A.ActorOf(record), b.nonce));
  }

  /** Once a delete is reported as done, its target and everything written as derived from it
      is in no later read, by anyone, across restarts and resets, until that id is written
      again. */
  lemma {:induction false} DeletedIsNotRead(calls: seq<Call>, i: nat, j: nat, id: string)
    requires i < j < |calls| && calls[i].Delete? && calls[j].Read?
    requires Step(At(calls, i), calls[i]).1.ok
    requires var memories := At(calls, i).backend.core.memories;
             id == calls[i].memoryId || (id in memories && calls[i].memoryId in memories[id].derivedFrom)
    requires forall k :: i < k < j ==> !Rewrites(At(calls, k), calls[k], id)
    ensures id !in Step(At(calls, j), calls[j]).1.ids
  {
    hide Nonce, M.Step;
    DeleteRetires(At(calls, i), calls[i], id);
    AtNext(calls, i);
    GoneKept(calls, id, i + 1, j);
    if id in Step(At(calls, j), calls[j]).1.ids {
      Refines(calls[..j]);
      AR.RecalledIsAuthorized(Made(calls[..j]), BackendCall(At(calls, j), calls[j]), id);
    }
  }
}
