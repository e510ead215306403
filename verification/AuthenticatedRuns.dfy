/** The authenticated backend refines the memory store behind it. */
module AuthenticatedRuns {
  import opened Wrappers
  import opened Identity
  import opened Authenticated
  import M = Memory
  import MR = MemoryRuns

  function Run(calls: seq<Call>): (s: State)
    ensures M.Ordered(s.core)
  {
    if calls == [] then StartState
    else
      var s, c := Run(calls[..|calls| - 1]), calls[|calls| - 1];
      StepOrdered(s, c);
      Step(s, c).0
  }

  lemma StepOrdered(s: State, c: Call)
    requires M.Ordered(s.core)
    ensures M.Ordered(Step(s, c).0.core)
  {
    hide M.Ordered, M.Step;
    if c.Act? && Authenticate(s.records, c.did, c.credential).Some? {
      M.StepOrdered(s.core, CoreCall(c.request, ActorOf(s.records[c.did]), c.nonce));
    }
  }

  /** The core's calls in a run: the restarts, and each authenticated request made as the
      actor of the caller's registry record.  Nothing of the others is left. */
  function Erased(calls: seq<Call>): seq<M.Call> {
    if calls == [] then []
    else
      var before, c := calls[..|calls| - 1], calls[|calls| - 1];
      Erased(before) + Visible(Run(before), c)
  }

  function Visible(s: State, c: Call): seq<M.Call> {
    match c
    case Act(did, credential, nonce, request) =>
      (match Authenticate(s.records, did, credential)
       case None => []
       case Some(record) => [CoreCall(request, ActorOf(record), nonce)])
    case Enrol(_) => []
    case Restart => [M.Restart]
  }

  lemma {:induction false} RegisterFiled(records: map<string, Record>, more: seq<Record>)
    requires Filed(records)
    ensures Filed(Register(records, more))
  {
    if more == [] {
    } else {
      RegisterFiled(records, more[..|more| - 1]);
    }
  }

  lemma {:induction false} RunFiled(calls: seq<Call>)
    ensures Filed(Run(calls).records)
  {
    if calls == [] {
      RegisterFiled(map[], PRINCIPALS);
    } else {
      RunFiled(calls[..|calls| - 1]);
    }
  }

  lemma RunAppend(calls: seq<M.Call>, c: M.Call)
    ensures MR.Run(calls + [c]) == M.Step(MR.Run(calls), c).0
  {
  }

  lemma VisibleStep(s: State, c: Call)
    requires M.Ordered(s.core)
    ensures |Visible(s, c)| <= 1
    ensures Step(s, c).0.core == if Visible(s, c) == [] then s.core else M.Step(s.core, Visible(s, c)[0]).0
  {
    hide M.Step, M.Ordered;
    if c.Restart? {
      RestartKeeps(s.core);
    }
  }

  /** Any run of the authenticated backend leaves its core exactly as the erased run leaves
      the bare one. */
  lemma {:induction false} Refines(calls: seq<Call>)
    ensures Run(calls).core == MR.Run(Erased(calls))
  {
    hide M.Step, M.Ordered, Step, Visible, MR.Run;
    if calls == [] {
      EmptyRefines();
    } else {
      var before, c := calls[..|calls| - 1], calls[|calls| - 1];
      Refines(before);
      VisibleStep(Run(before), c);
      if Visible(Run(before), c) == [] {
        assert Erased(calls) == Erased(before);
      } else {
        assert Visible(Run(before), c) == [Visible(Run(before), c)[0]];
        RunAppend(Erased(before), Visible(Run(before), c)[0]);
      }
    }
  }

  lemma EmptyRefines()
    ensures Run([]).core == MR.Run([])
  {
  }

  lemma RestartKeeps(s: M.State)
    requires M.Ordered(s)
    ensures M.Step(s, M.Restart).0 == s
  {
  }

  /** Each request is answered as the bare store would answer the registered actor whose did
      is the caller's; a caller who does not authenticate is denied and leaves no trace. */
  lemma {:induction false} AnswersRefine(calls: seq<Call>, c: Call)
    requires c.Act?
    ensures var (s', d) := Step(Run(calls), c);
            match Authenticate(Run(calls).records, c.did, c.credential)
            case None => d == DENIED && s' == Run(calls)
            case Some(record) =>
              && record.did == c.did
              && d == M.Step(MR.Run(Erased(calls)), CoreCall(c.request, ActorOf(record), c.nonce)).1
  {
    Refines(calls);
    RunFiled(calls);
  }

  /** Every recalled memory is authorised under what the registry, not the caller, says of
      the caller: tenant, space, clearance and purpose. */
  lemma {:induction false} RecalledIsAuthorized(calls: seq<Call>, c: Call, id: string)
    requires c.Act? && c.request.Recall?
    requires id in Step(Run(calls), c).1.ids
    ensures c.did in Run(calls).records && c.credential == Hmac(c.did)
    ensures id in Run(calls).core.memories
    ensures var m, r := Run(calls).core.memories[id], Run(calls).records[c.did];
            && r.did == c.did && m.status == M.Current && M.InWindow(m, c.request.asOf)
            && m.tenant == r.tenant && m.space == r.space && m.sensitivity <= r.clearance && m.purpose == r.purpose
  {
    Refines(calls);
    RunFiled(calls);
    var r := Run(calls).records[c.did];
    MR.RecallExact(Erased(calls), c.request.query, ActorOf(r), c.request.asOf, c.nonce);
  }
}
