/** What the agent's memory tool does, exactly: who may write, read and delete what, and that what
    was written is what is read. */
module AgentDecisions {
  import opened Wrappers
  import opened Identity
  import opened Agent
  import opened AgentRuns
  import A = Authenticated
  import AR = AuthenticatedRuns
  import AD = AuthenticatedDecisions
  import M = Memory
  import MR = MemoryRuns
  import MC = MemoryContents
  import MW = MemoryWords
  import MD = MemoryDecisions

  /** The record of a session: that of a principal presenting its own credential. */
  function Caller(session: Session): Option<Record> {
    if session.Some? && session.value.1 == Hmac(session.value.0) then AD.LastEnrolled([], session.value.0) else None
  }

  /** The store behind the tool. */
  function Store(s: State): map<string, M.Memory> {
    s.backend.core.memories
  }

  predicate Owns(r: Record, m: M.Memory) {
    m.tenant == r.tenant && m.space == r.space && m.purpose == r.purpose && m.sensitivity <= r.clearance
  }

  function Failed(error: string): ToolResult {
    ToolResult(false, [], [], error)
  }

  // ---------------------------------------------------------------------------
  // Calls that never reach the store
  // ---------------------------------------------------------------------------

  lemma CallerIsRegistered(calls: seq<Call>, c: Call)
    requires IsTool(c) && c.session.Some?
    ensures AD.Registered(Run(calls).backend, BackendCall(Run(calls), c)) <==> Caller(c.session).Some?
    ensures Caller(c.session).Some? ==> Run(calls).backend.records[c.session.value.0] == Caller(c.session).value
  {
    hide Run, AD.LastEnrolled, Nonce;
    RegistryFixed(calls);
    AD.StartRegistry(c.session.value.0);
  }

  /** Without a session, or with one that is no principal's, a tool call fails and changes no
      memory; only a listing hides that. */
  lemma {:induction false} StrangersFail(calls: seq<Call>, c: Call)
    requires IsTool(c) && Caller(c.session).None?
    ensures Step(Run(calls), c).1
         == if c.session.None? then Failed("no session")
            else if c.ListIds? then ToolResult(true, [], [], "")
            else Failed("authentication-denied")
    ensures Store(Step(Run(calls), c).0) == Store(Run(calls))
  {
    hide Run, AD.LastEnrolled, Nonce, M.Step;
    if c.session.Some? {
      CallerIsRegistered(calls, c);
    }
  }

  // ---------------------------------------------------------------------------
  // Calls by principals
  // ---------------------------------------------------------------------------

  /** The core's call behind a principal's tool call. */
  function Inner(s: State, c: Call): M.Call
    requires IsTool(c) && Caller(c.session).Some?
  {
    A.CoreCall(RequestOf(c), A.ActorOf(Caller(c.session).value), Nonce(s.counter + 1))
  }

  /** A principal's tool call is the core's, with a fresh nonce, after some run of the core. */
  lemma {:induction false} Reaches(calls: seq<Call>, c: Call) returns (inner: seq<M.Call>)
    requires IsTool(c) && Caller(c.session).Some?
    ensures var (s, k, r) := (Run(calls), Inner(Run(calls), c), Caller(c.session).value);
            && s.backend.core == MR.Run(inner) && MD.FreshNonce(inner, A.ActorOf(r), Nonce(s.counter + 1))
            && Step(s, c).0.backend.core == M.Step(MR.Run(inner), k).0
            && Step(s, c).1 == ResultOf(c, M.Step(MR.Run(inner), k).1, M.Step(MR.Run(inner), k).0.memories)
            && r.canMutate && r.did == c.session.value.0
  {
    hide M.Step, Nonce, Run, AR.Run, AD.LastEnrolled, MD.FreshNonce, AD.NonceFree, MR.Run;
    var s, b := Run(calls), BackendCall(Run(calls), c);
    inner := AR.Erased(Made(calls));
    CallerIsRegistered(calls, c);
    Refines(calls);
    AD.Enters(Made(calls), b);
    AD.CoreNonces(Made(calls), b.did, b.nonce);
    RunSpent(calls);
    NextNonceFresh(s, b.did);
    PrincipalsMutate(c.session);
  }

  lemma PrincipalsMutate(session: Session)
    requires Caller(session).Some?
    ensures Caller(session).value.canMutate && Caller(session).value.did == session.value.0
  {
  }

  /** What a write stores: the text as written, by whom, private or not, from its date on or from
      the first of January 2026 (day 739,617), in the store's own tenant, space and purpose. */
  function Written(c: Call): M.Memory
    requires c.Write? && c.session.Some?
  {
    M.Memory(c.memoryId, c.text, "agent:" + c.session.value.0, Sha(c.text), "agstack", "coffee",
             if c.secret then 3 else 1, if c.validFrom.Some? then c.validFrom.value else 739617,
             c.validUntil, M.Current, c.derivedFrom, "market-research")
  }

  /** A write succeeds exactly for a principal of the store's tenant and space, cleared for what it
      writes, with a text within bounds; then the store holds just that under its id. */
  lemma {:induction false} WriteExactly(calls: seq<Call>, c: Call)
    requires c.Write?
    ensures var (s, s', o, caller) := (Run(calls), Step(Run(calls), c).0, Step(Run(calls), c).1, Caller(c.session));
            && (o.ok <==>
                  && caller.Some? && |c.text| <= 4096
                  && caller.value.tenant == "agstack" && caller.value.space == "coffee"
                  && caller.value.clearance >= if c.secret then 3 else 1)
            && (o.ok ==> o == ToolResult(true, [], [], "") && Store(s') == Store(s)[c.memoryId := Written(c)])
            && (!o.ok ==> Store(s') == Store(s))
            && (!o.ok && caller.Some? ==>
                  o == Failed(if |c.text| > 4096 then "oversized-memory"
                              else if caller.value.tenant != "agstack" || caller.value.space != "coffee" then
                                "scope-denied"
                              else "clearance-denied"))
  {
    if Caller(c.session).Some? {
      var inner := Reaches(calls, c);
      hide Run, M.Step, MR.Run, MD.FreshNonce, Nonce, Step, Caller, Sha;
      MD.RememberExactly(inner, Inner(Run(calls), c));
    } else {
      StrangersFail(calls, c);
      hide Run, Step, Caller;
    }
  }

  /** A delete succeeds exactly for a principal that owns what is stored under the id; no other
      delete changes a memory. */
  lemma {:induction false} DeleteExactly(calls: seq<Call>, c: Call)
    requires c.Delete?
    ensures var (s, s', o, caller) := (Run(calls), Step(Run(calls), c).0, Step(Run(calls), c).1, Caller(c.session));
            && (o.ok <==> caller.Some? && c.memoryId in Store(s) && Owns(caller.value, Store(s)[c.memoryId]))
            && (o.ok ==> o == ToolResult(true, [], [c.memoryId], ""))
            && (!o.ok ==> Store(s') == Store(s))
            && (!o.ok && caller.Some? ==> o == Failed("authorization-denied"))
  {
    if Caller(c.session).Some? {
      var inner := Reaches(calls, c);
      hide Run, M.Step, MR.Run, MD.FreshNonce, Nonce, Step, Caller;
      MD.ForgetExactly(inner, Inner(Run(calls), c));
    } else {
      StrangersFail(calls, c);
      hide Run, Step, Caller;
    }
  }

  /** The memory is one the principal should read for this query at this date, by default the first
      of February 2026 (day 739,648). */
  ghost predicate Readable(m: M.Memory, r: Record, query: string, asOf: Option<int>) {
    var day := if asOf.Some? then asOf.value else 739648;
    && m.status == M.Current && Owns(r, m)
    && m.validFrom <= day && (m.validUntil.Some? ==> day < m.validUntil.value)
    && exists w :: MW.IsWord(query, w) && MW.IsWord(m.text, w)
  }

  /** A read succeeds exactly for a principal with a query within bounds, and then answers exactly
      the memories that are readable to it. */
  lemma {:induction false} ReadExactly(calls: seq<Call>, c: Call)
    requires c.Read?
    ensures var (s, s', o, caller) := (Run(calls), Step(Run(calls), c).0, Step(Run(calls), c).1, Caller(c.session));
            && (o.ok <==> caller.Some? && |c.query| <= 4096)
            && (o.ok ==> forall id :: id in o.ids <==>
                                        id in Store(s) && Readable(Store(s)[id], caller.value, c.query, c.asOf))
            && (!o.ok && caller.Some? ==> o == Failed("oversized-query"))
            && Store(s') == Store(s)
  {
    if Caller(c.session).Some? {
      var inner := Reaches(calls, c);
      hide Run, M.Step, MR.Run, MD.FreshNonce, Nonce, Step, Caller, MW.IsWord, MD.RanksPairs, MD.InRankOrder;
      MD.RecallExactly(inner, Inner(Run(calls), c));
    } else {
      StrangersFail(calls, c);
      hide Run, Step, Caller;
    }
  }

  // ---------------------------------------------------------------------------
  // What is written is read
  // ---------------------------------------------------------------------------

  /** The call changes what is held under `id`, whose sources are these. */
  predicate Disturbs(s: State, c: Call, id: string, sources: seq<string>)
    requires M.Ordered(s.backend.core)
  {
    || c.Reset?
    || (c.Write? && c.memoryId == id && Step(s, c).1.ok)
    || (c.Delete? && Step(s, c).1.ok && (c.memoryId == id || c.memoryId in sources))
  }

  lemma Undisturbed(s: State, c: Call, id: string)
    requires M.Ordered(s.backend.core) && id in Store(s) && !Disturbs(s, c, id, Store(s)[id].derivedFrom)
    ensures id in Store(Step(s, c).0) && Store(Step(s, c).0)[id] == Store(s)[id]
  {
    hide Nonce, M.Step, M.Ordered;
    if IsTool(c) && c.session.Some? {
      var b := BackendCall(s, c);
      var record := Authenticate(s.backend.records, b.did, b.credential);
      if record.Some? {
        MC.UntouchedStays(s.backend.core, A.CoreCall(b.request, A.ActorOf(record.value), b.nonce), id);
      }
    }
  }

  lemma {:induction false} UndisturbedKept(calls: seq<Call>, id: string, i: nat, j: nat)
    requires i <= j <= |calls| && id in Store(At(calls, i))
    requires forall k :: i <= k < j ==> !Disturbs(At(calls, k), calls[k], id, Store(At(calls, i))[id].derivedFrom)
    ensures id in Store(At(calls, j)) && Store(At(calls, j))[id] == Store(At(calls, i))[id]
    decreases j
  {
    hide Step, Disturbs;
    if i == j {
    } else {
      UndisturbedKept(calls, id, i, j - 1);
      AtNext(calls, j - 1);
      Undisturbed(At(calls, j - 1), calls[j - 1], id);
    }
  }

  /** After a write that succeeds, a later read that succeeds, whoever makes it, returns its id
      exactly when the query shares a word with the text written, the day is in the window written,
      and the reader is a principal of the store's tenant, space and purpose, with a clearance of
      three for a private write and of one otherwise; until that id is written again, it or one of
      its sources is deleted, or everything is reset.  The row shows the first 200 characters of
      the text written. */
  lemma {:induction false} WrittenIsRead(calls: seq<Call>, i: nat, j: nat)
    requires i < j < |calls| && calls[i].Write? && calls[j].Read?
    requires Step(At(calls, i), calls[i]).1.ok && Step(At(calls, j), calls[j]).1.ok
    requires forall k :: i < k < j ==> !Disturbs(At(calls, k), calls[k], calls[i].memoryId, calls[i].derivedFrom)
    ensures Caller(calls[j].session).Some?
    ensures var (w, c, r, o) := (calls[i], calls[j], Caller(calls[j].session).value, Step(At(calls, j), calls[j]).1);
            var day := if c.asOf.Some? then c.asOf.value else 739648;
            && (w.memoryId in o.ids <==>
                  && (exists word :: MW.IsWord(c.query, word) && MW.IsWord(w.text, word))
                  && (if w.validFrom.Some? then w.validFrom.value else 739617) <= day
                  && (w.validUntil.Some? ==> day < w.validUntil.value)
                  && r.tenant == "agstack" && r.space == "coffee" && r.purpose == "market-research"
                  && r.clearance >= if w.secret then 3 else 1)
            && (w.memoryId in o.ids ==>
                  (w.memoryId, if |w.text| > 200 then w.text[..200] else w.text) in o.results)
  {
    hide Run, Step, Caller, Disturbs, MW.IsWord, Sha;
    WriteExactly(calls[..i], calls[i]);
    assert calls[i].session.Some? by { CallerHasSession(calls[i].session); }
    AtNext(calls, i);
    UndisturbedKept(calls, calls[i].memoryId, i + 1, j);
    ReadExactly(calls[..j], calls[j]);
    ReadRows(calls[..j], calls[j]);
    var o := Step(At(calls, j), calls[j]).1;
    if calls[i].memoryId in o.ids {
      var k :| 0 <= k < |o.ids| && o.ids[k] == calls[i].memoryId;
      assert o.results[k] in o.results;
    }
  }

  lemma CallerHasSession(session: Session)
    requires Caller(session).Some?
    ensures session.Some?
  {
  }
}
