/** What the authenticated backend decides, exactly: who is let in, and what the registry's record of
    the caller, field by field, lets each request do. */
module AuthenticatedDecisions {
  import opened Wrappers
  import opened Identity
  import opened Authenticated
  import opened AuthenticatedRuns
  import M = Memory
  import MR = MemoryRuns
  import MW = MemoryWords
  import MD = MemoryDecisions

  // ---------------------------------------------------------------------------
  // The registry
  // ---------------------------------------------------------------------------

  /** The record last enrolled under a did, or else the principal of that name. */
  function LastEnrolled(calls: seq<Call>, did: string): Option<Record> {
    if calls == [] then
      if did == "did:key:operator" then Some(Record(did, "agstack", "coffee", "market-research", 3, true))
      else if did == "did:key:analyst" then Some(Record(did, "agstack", "coffee", "market-research", 1, true))
      else if did == "did:key:outsider" then Some(Record(did, "rival", "coffee", "market-research", 1, true))
      else if did == "did:key:advertiser" then Some(Record(did, "agstack", "coffee", "advertising", 1, true))
      else None
    else
      var c := calls[|calls| - 1];
      if c.Enrol? && c.record.did == did then Some(c.record) else LastEnrolled(calls[..|calls| - 1], did)
  }

  lemma StartRegistry(did: string)
    ensures did in StartState.records <==> LastEnrolled([], did).Some?
    ensures did in StartState.records ==> StartState.records[did] == LastEnrolled([], did).value
  {
    var p := PRINCIPALS;
    assert p[..4] == p && p[..4][..3] == p[..3] && p[..3][..2] == p[..2] && p[..2][..1] == p[..1] && p[..1][..0] == [];
    assert Register(map[], p[..1]) == map[p[0].did := p[0]];
    assert Register(map[], p[..2]) == Register(map[], p[..1])[p[1].did := p[1]];
    assert Register(map[], p[..3]) == Register(map[], p[..2])[p[2].did := p[2]];
    assert Register(map[], p[..4]) == Register(map[], p[..3])[p[3].did := p[3]];
  }

  /** The registry is the four principals and what was enrolled since. */
  lemma {:induction false} RegistryIsHistory(calls: seq<Call>, did: string)
    ensures did in Run(calls).records <==> LastEnrolled(calls, did).Some?
    ensures did in Run(calls).records ==> Run(calls).records[did] == LastEnrolled(calls, did).value
  {
    if calls == [] {
      StartRegistry(did);
    } else {
      RegistryIsHistory(calls[..|calls| - 1], did);
      hide M.Step, Register;
    }
  }

  // ---------------------------------------------------------------------------
  // Who is let in
  // ---------------------------------------------------------------------------

  predicate Registered(s: State, c: Call)
    requires c.Act?
  {
    c.did in s.records && c.credential == Hmac(c.did)
  }

  /** Call `k` of the run was made with this nonce by this did, registered at the time. */
  ghost predicate UsedAt(calls: seq<Call>, k: nat, did: string, nonce: string)
    requires k < |calls|
  {
    calls[k].Act? && calls[k].did == did && calls[k].nonce == nonce && Registered(Run(calls[..k]), calls[k])
  }

  ghost predicate NonceFree(calls: seq<Call>, did: string, nonce: string) {
    forall k :: 0 <= k < |calls| ==> !UsedAt(calls, k, did, nonce)
  }

  lemma NonceFreeNext(calls: seq<Call>, n: nat, did: string, nonce: string)
    requires |calls| == n + 1
    ensures NonceFree(calls, did, nonce) <==> NonceFree(calls[..n], did, nonce) && !UsedAt(calls, n, did, nonce)
  {
    hide Run, Registered;
    forall k | 0 <= k < n
      ensures UsedAt(calls[..n], k, did, nonce) <==> UsedAt(calls, k, did, nonce)
    {
      assert calls[..n][..k] == calls[..k];
    }
  }

  lemma StepNonces(s: State, c: Call, key: (string, string))
    requires M.Ordered(s.core) && Filed(s.records)
    ensures key in Step(s, c).0.core.nonces <==>
            key in s.core.nonces || (c.Act? && Registered(s, c) && key == (c.did, c.nonce))
  {
    hide M.Step, M.Ordered;
    if c.Act? && Registered(s, c) {
      MR.StepBurns(s.core, CoreCall(c.request, ActorOf(s.records[c.did]), c.nonce));
    }
  }

  lemma {:induction false} CoreNonces(calls: seq<Call>, did: string, nonce: string)
    ensures (did, nonce) !in Run(calls).core.nonces <==> NonceFree(calls, did, nonce)
  {
    if calls == [] {
    } else {
      var n := |calls| - 1;
      CoreNonces(calls[..n], did, nonce);
      RunFiled(calls[..n]);
      StepNonces(Run(calls[..n]), calls[n], (did, nonce));
      assert Run(calls) == Step(Run(calls[..n]), calls[n]).0;
      hide Run, Step, Registered, NonceFree;
      NonceFreeNext(calls, n, did, nonce);
    }
  }

  /** The core's call for a registered caller, and its nonce. */
  function AsCore(s: State, c: Call): M.Call
    requires c.Act? && Registered(s, c)
  {
    CoreCall(c.request, ActorOf(s.records[c.did]), c.nonce)
  }

  /** A registered caller's request is the core's, made after the erased run. */
  lemma {:induction false} Enters(calls: seq<Call>, c: Call)
    requires c.Act? && Registered(Run(calls), c)
    ensures var (s, k) := (Run(calls), AsCore(Run(calls), c));
            && s.core == MR.Run(Erased(calls))
            && s.records[c.did].did == c.did
            && Step(s, c).0 == s.(core := M.Step(MR.Run(Erased(calls)), k).0)
            && Step(s, c).1 == M.Step(MR.Run(Erased(calls)), k).1
    ensures NonceFree(calls, c.did, c.nonce) <==>
            MD.FreshNonce(Erased(calls), ActorOf(Run(calls).records[c.did]), c.nonce)
  {
    hide M.Step;
    Refines(calls);
    RunFiled(calls);
    CoreNonces(calls, c.did, c.nonce);
    MD.FreshIsUnclaimed(Erased(calls), ActorOf(Run(calls).records[c.did]), c.nonce);
    hide Run, MR.Run, Erased, NonceFree, MD.FreshNonce;
  }

  /** Anyone else is denied, whatever the request, and nothing changes. */
  lemma StrangersAreDenied(calls: seq<Call>, c: Call)
    requires c.Act? && !Registered(Run(calls), c)
    ensures Step(Run(calls), c) == (Run(calls), M.Decision(false, [], "authentication-denied", M.NoReceipt))
  {
    hide Run;
  }

  // ---------------------------------------------------------------------------
  // What a registered caller may do
  // ---------------------------------------------------------------------------

  /** The memory is of the record's tenant, space and purpose and within its clearance. */
  predicate RecordOwns(r: Record, m: M.Memory) {
    m.tenant == r.tenant && m.space == r.space && m.purpose == r.purpose && m.sensitivity <= r.clearance
  }

  /** A forget is allowed exactly for a registered caller with a fresh nonce whose record may mutate
      and owns the target; no other forget changes a memory. */
  lemma {:induction false} ForgetExactly(calls: seq<Call>, c: Call)
    requires c.Act? && c.request.Forget?
    ensures var (s, s', d, id) := (Run(calls), Step(Run(calls), c).0, Step(Run(calls), c).1, c.request.memoryId);
            && (d.allowed <==>
                  && Registered(s, c) && NonceFree(calls, c.did, c.nonce) && s.records[c.did].canMutate
                  && id in s.core.memories && RecordOwns(s.records[c.did], s.core.memories[id]))
            && (!d.allowed ==> s'.core.memories == s.core.memories)
            && s'.records == s.records
  {
    if Registered(Run(calls), c) {
      Enters(calls, c);
      var k := AsCore(Run(calls), c);
      hide Run, Step, M.Step, MR.Run, NonceFree, MD.FreshNonce, Erased;
      MD.ForgetExactly(Erased(calls), k);
    } else {
      StrangersAreDenied(calls, c);
      hide Run, Step;
    }
  }

  /** A remember is allowed exactly for a registered caller with a fresh nonce whose record may
      mutate, for a text within bounds of the record's tenant and space and within its clearance. */
  lemma {:induction false} RememberExactly(calls: seq<Call>, c: Call)
    requires c.Act? && c.request.Remember?
    ensures var (s, s', d, m) := (Run(calls), Step(Run(calls), c).0, Step(Run(calls), c).1, c.request.memory);
            && (d.allowed <==>
                  && Registered(s, c) && NonceFree(calls, c.did, c.nonce) && s.records[c.did].canMutate
                  && |m.text| <= 4096 && m.tenant == s.records[c.did].tenant && m.space == s.records[c.did].space
                  && m.sensitivity <= s.records[c.did].clearance)
            && s'.core.memories == (if d.allowed then s.core.memories[m.memoryId := m] else s.core.memories)
            && s'.records == s.records
  {
    if Registered(Run(calls), c) {
      Enters(calls, c);
      var k := AsCore(Run(calls), c);
      hide Run, Step, M.Step, MR.Run, NonceFree, MD.FreshNonce, Erased;
      MD.RememberExactly(Erased(calls), k);
    } else {
      StrangersAreDenied(calls, c);
      hide Run, Step;
    }
  }

  /** An improve is allowed exactly for a registered caller with a fresh nonce whose record may
      mutate, when its key is used, or when the target is stored with the expected digest, the
      record owns it and the replacement is within its clearance. */
  lemma {:induction false} ImproveExactly(calls: seq<Call>, c: Call)
    requires c.Act? && c.request.Improve?
    ensures var (s, s', d, q) := (Run(calls), Step(Run(calls), c).0, Step(Run(calls), c).1, c.request);
            && (d.allowed <==>
                  && Registered(s, c) && NonceFree(calls, c.did, c.nonce) && s.records[c.did].canMutate
                  && (|| q.key in s.core.idempotency
                      || (&& q.memoryId in s.core.memories
                          && s.core.memories[q.memoryId].sourceDigest == q.expectedDigest
                          && RecordOwns(s.records[c.did], s.core.memories[q.memoryId])
                          && q.replacement.sensitivity <= s.records[c.did].clearance)))
            && (!d.allowed ==> s'.core.memories == s.core.memories)
            && s'.records == s.records
  {
    if Registered(Run(calls), c) {
      Enters(calls, c);
      var k := AsCore(Run(calls), c);
      hide Run, Step, M.Step, MR.Run, NonceFree, MD.FreshNonce, Erased;
      MD.ImproveAllowed(Erased(calls), k);
    } else {
      StrangersAreDenied(calls, c);
      hide Run, Step;
    }
  }

  /** A recall is allowed exactly for a registered caller with a fresh nonce and a query within
      bounds; it then answers exactly the current memories the record owns whose window the date
      is in and that share a word with the query. */
  lemma {:induction false} RecallExactly(calls: seq<Call>, c: Call)
    requires c.Act? && c.request.Recall?
    ensures var (s, s', d, q) := (Run(calls), Step(Run(calls), c).0, Step(Run(calls), c).1, c.request);
            && (d.allowed <==> Registered(s, c) && NonceFree(calls, c.did, c.nonce) && |q.query| <= 4096)
            && (d.allowed ==>
                  forall id :: id in d.ids <==>
                    && id in s.core.memories && s.core.memories[id].status == M.Current
                    && RecordOwns(s.records[c.did], s.core.memories[id])
                    && s.core.memories[id].validFrom <= q.asOf
                    && (s.core.memories[id].validUntil.Some? ==> q.asOf < s.core.memories[id].validUntil.value)
                    && exists w :: MW.IsWord(q.query, w) && MW.IsWord(s.core.memories[id].text, w))
            && (!d.allowed ==> d.ids == [])
            && s'.core.memories == s.core.memories && s'.records == s.records
  {
    if Registered(Run(calls), c) {
      Enters(calls, c);
      var k := AsCore(Run(calls), c);
      hide Run, Step, M.Step, MR.Run, NonceFree, MD.FreshNonce, Erased, MW.IsWord, MD.RanksPairs, MD.InRankOrder;
      MD.RecallExactly(Erased(calls), k);
    } else {
      StrangersAreDenied(calls, c);
      hide Run, Step;
    }
  }
}
