/** What the engine's answers carry: who gets a capability or cleartext at all, what a fresh
    mint and an attenuation give, and what the audit log and the wire check amount to. */
module GuardAnswers {
  import opened Wrappers
  import opened Guard
  import opened GuardRuns

  function Answer(calls: seq<Call>, i: nat): Outcome
    requires i < |calls|
  {
    Step(At(calls, i), calls[i]).1
  }

  // ---------------------------------------------------------------------------
  // Over every call of every run
  // ---------------------------------------------------------------------------

  lemma PresentedObtainable(calls: seq<Call>, i: nat)
    requires Feasible(calls) && i < |calls|
    ensures Feasible(calls[..i]) && Obtainable(Issued(calls[..i]), Presented(calls[i]))
  {
    hide Issued, Obtainable, Presented;
    FeasiblePrefix(calls, i);
    FeasiblePrefix(calls, i + 1);
    assert calls[..i + 1][..i] == calls[..i];
  }

  /** The one call that answers with anything but the redaction marker is a reveal, it answers
      with the cleartext it was given, and a policy of the run allowed that. */
  lemma {:induction false} CleartextWasAllowed(calls: seq<Call>, i: nat)
    requires Feasible(calls) && i < |calls|
    requires Answer(calls, i).Outcome? && Answer(calls, i).revealed !in {None, Some(REDACTED)}
    ensures calls[i].Reveal? && calls[i].cap.Some?
    ensures Answer(calls, i).revealed == Some(calls[i].value.cleartext)
    ensures exists g :: ReadLevel(g) >= Level(calls[i].value.tag) >= 0
                        && AskedAndAllowed(calls[..i], calls[i].cap.value.subject, calls[i].value.resource,
                                         calls[i].cap.value.operation, g)
  {
    hide Feasible, Issued, Run, Step, AskedAndAllowed, Obtainable, Level, ReadLevel;
    PresentedObtainable(calls, i);
    OnlyRevealsReveal(At(calls, i), calls[i]);
    RevealWasAllowed(calls[..i], calls[i].cap, calls[i].value);
  }

  lemma OnlyRevealsReveal(s: State, c: Call)
    requires Step(s, c).1.Outcome? && Step(s, c).1.revealed !in {None, Some(REDACTED)}
    ensures c.Reveal? && c.cap.Some? && Step(s, c).1.ok && Step(s, c).1.revealed == Some(c.value.cleartext)
  {
    hide CapId, Grants, Widens, Elements;
  }

  /** Every capability any call answers with is bounded by a mint of the run so far, and that
      mint was no request with a field the wire check rejects. */
  lemma {:induction false} CapabilityWasMinted(calls: seq<Call>, i: nat)
    requires Feasible(calls) && i < |calls|
    requires Answer(calls, i).Outcome? && Answer(calls, i).capability.Some?
    ensures exists k :: 0 <= k <= i && DescendsFromMint(calls[..i + 1], k, Answer(calls, i).capability.value)
                        && (calls[k].Request? ==> calls[k].payload.extras == {})
  {
    hide Feasible, Issued, Run, CapId, Issues, Obtainable, Ledger, Step;
    PresentedObtainable(calls, i);
    FeasiblePrefix(calls, i + 1);
    RunLedger(calls[..i]);
    IssuedNext(calls, i);
    AnswerIsIssued(At(calls, i), calls[i], Issued(calls[..i]));
    var upto, cap := calls[..i + 1], Answer(calls, i).capability.value;
    var p :| p in Issued(upto) && p.cap == cap;
    IssuedDescendsFromMint(upto, p);
    var k :| 0 <= k < |upto| && DescendsFromMint(upto, k, cap);
    MintWasClean(upto, k, cap);
  }

  lemma MintWasClean(calls: seq<Call>, k: nat, cap: Capability)
    requires k < |calls| && DescendsFromMint(calls, k, cap)
    ensures calls[k].Request? ==> calls[k].payload.extras == {}
  {
    hide Run, Issued, Step;
    if Smuggled(calls[k]) {
      SmuggledStep(At(calls, k), calls[k]);
    }
  }

  // ---------------------------------------------------------------------------
  // The wire check and the audit log
  // ---------------------------------------------------------------------------

  predicate Smuggled(c: Call) {
    c.Request? && c.payload.extras != {}
  }

  /** The run without its smuggled requests. */
  function Clean(calls: seq<Call>): seq<Call> {
    if calls == [] then []
    else
      var c := calls[|calls| - 1];
      Clean(calls[..|calls| - 1]) + if Smuggled(c) then [] else [c]
  }

  /** The same answer, and the same state but for the audit log. */
  predicate SameButAudit(a: (State, Outcome), b: (State, Outcome)) {
    a.1 == b.1 && a.0 == b.0.(audit := a.0.audit)
  }

  lemma MintIgnoresAudit(s: State, audit: seq<Evidence>, subject: string, grants: set<string>, resource: string,
                         operation: string, lease: int)
    ensures SameButAudit(MintStep(s.(audit := audit), subject, grants, resource, operation, lease),
                         MintStep(s, subject, grants, resource, operation, lease))
  {
    hide CapId, Grants;
  }

  lemma AttenuateIgnoresAudit(s: State, audit: seq<Evidence>, cap: Option<Capability>, narrowed: Option<set<string>>,
                              shortened: Option<int>)
    ensures SameButAudit(AttenuateStep(s.(audit := audit), cap, narrowed, shortened),
                         AttenuateStep(s, cap, narrowed, shortened))
  {
    hide CapId, Grants, Widens, Elements;
  }

  lemma UseIgnoresAudit(s: State, audit: seq<Evidence>, c: Call)
    requires c.Reveal? || c.Declassify? || c.Invoke?
    ensures SameButAudit(Step(s.(audit := audit), c), Step(s, c))
  {
    hide Ceiling;
  }

  /** The audit log is written, never read. */
  lemma AuditIsWriteOnly(s: State, audit: seq<Evidence>, c: Call)
    ensures SameButAudit(Step(s.(audit := audit), c), Step(s, c))
  {
    hide MintStep, AttenuateStep, RevealStep, DeclassifyStep, InvokeStep;
    match c
    case Mint(subject, grants, resource, operation, lease) =>
      MintIgnoresAudit(s, audit, subject, grants, resource, operation, lease);
    case Attenuate(cap, narrowed, shortened) => AttenuateIgnoresAudit(s, audit, cap, narrowed, shortened);
    case Request(p) =>
      if p.subject.Some? && p.grants.Some? && p.resource.Some? {
        MintIgnoresAudit(s, audit, p.subject.value, p.grants.value, p.resource.value,
                         if p.operation.Some? then p.operation.value else "",
                         if p.lease.Some? then p.lease.value else 100);
      }
    case Reveal(_, _) => UseIgnoresAudit(s, audit, c);
    case Declassify(_, _) => UseIgnoresAudit(s, audit, c);
    case Invoke(_, _, _, _) => UseIgnoresAudit(s, audit, c);
    case _ =>
  }

  lemma {:induction false} RunAppend(calls: seq<Call>, c: Call)
    ensures Run(calls + [c]) == Step(Run(calls), c).0
  {
    assert (calls + [c])[..|calls|] == calls;
  }

  /** Smuggled requests leave no trace but their audit entries: take them all out of a run and
      every other call, then and later, gets the same answer, whatever the run. */
  lemma {:induction false} SmuggledRequestsErase(calls: seq<Call>, c: Call)
    ensures Run(calls) == Run(Clean(calls)).(audit := Run(calls).audit)
    ensures Step(Run(calls), c).1 == Step(Run(Clean(calls)), c).1
    ensures Smuggled(c) ==> Step(Run(calls), c).1 == Refused("unknown-fields", true)
  {
    hide Step;
    if calls != [] {
      var before, last := calls[..|calls| - 1], calls[|calls| - 1];
      SmuggledRequestsErase(before, last);
      AuditIsWriteOnly(Run(Clean(before)), Run(before).audit, last);
      if Smuggled(last) {
        SmuggledStep(Run(before), last);
        assert Clean(calls) == Clean(before);
      } else {
        RunAppend(Clean(before), last);
      }
    }
    AuditIsWriteOnly(Run(Clean(calls)), Run(calls).audit, c);
    if Smuggled(c) {
      SmuggledStep(Run(calls), c);
    }
  }

  lemma SmuggledStep(s: State, c: Call)
    requires Smuggled(c)
    ensures Step(s, c).0 == s.(audit := Step(s, c).0.audit) && Step(s, c).1 == Refused("unknown-fields", true)
  {
  }

  /** The audit log only grows, by at most one entry a call, and an outcome claims an audit
      entry exactly when its call wrote one. */
  lemma AuditIsHonest(s: State, c: Call)
    ensures var (s', o) := Step(s, c);
            && s.audit <= s'.audit && |s'.audit| <= |s.audit| + 1
            && (o.Outcome? ==> (o.auditPresent <==> |s'.audit| == |s.audit| + 1))
            && (o.Raised? ==> s' == s)
  {
  }

  // ---------------------------------------------------------------------------
  // Fresh mints
  // ---------------------------------------------------------------------------

  /** A fresh mint is live exactly when its lease is positive and its id was not revoked
      before it was given out. */
  lemma FreshMintIsLive(s: State, subject: string, grants: set<string>, resource: string, operation: string, lease: int)
    requires grants <= Allowed(s, subject, resource)
    ensures var (s', o) := Step(s, Mint(subject, grants, resource, operation, lease));
            Verify(s', o.capability) <==> lease > 0 && CapId(s.n + 1) !in s.revoked
  {
  }

  /** A reveal under a fresh mint hands out the cleartext exactly when that mint is live and
      one of its grants reads the value's label. */
  lemma {:induction false} FreshMintReveals(s: State, subject: string, grants: set<string>, operation: string,
                                            lease: int,
                                            value: SecureValue)
    requires grants <= Allowed(s, subject, value.resource)
    ensures var (s', o) := Step(s, Mint(subject, grants, value.resource, operation, lease));
            var r := Step(s', Reveal(o.capability, value)).1;
            && (r.Outcome? && r.ok <==> && lease > 0 && CapId(s.n + 1) !in s.revoked
                                        && exists g :: g in grants && ReadLevel(g) >= Level(value.tag) >= 0)
            && (r.Outcome? && r.ok ==> r.revealed == Some(value.cleartext))
  {
    hide CapId, Grants, Ceiling, ReadLevel;
    if Level(value.tag) >= 0 {
      ReadsUpTo(grants, Level(value.tag));
    }
  }

  lemma ReadsUpTo(grants: set<string>, level: nat)
    ensures Ceiling(Grants(grants)) >= level <==> exists g :: g in grants && ReadLevel(g) >= level
  {
    var held := Grants(grants);
    hide ReadLevel, Grants;
    GrantsAre(grants);
    assert forall g :: g in held <==> g in Elements(held);
    if g :| g in grants && ReadLevel(g) >= level {
      assert g in held && ReadLevel(g) <= Ceiling(held);
    }
    if Ceiling(held) >= level {
      var g :| g in held && ReadLevel(g) == Ceiling(held);
      assert g in grants;
    }
  }

  // ---------------------------------------------------------------------------
  // How narrow an attenuation is
  // ---------------------------------------------------------------------------

  /** Narrower, and not by name only: a shorter lease, or some grant of the parent given up. */
  ghost predicate StrictlyNarrower(cap: Capability, parent: Capability) {
    && Narrower(cap, parent)
    && (cap.expiry < parent.expiry || exists g :: g in parent.grants && !Implied(cap.grants, g))
  }

  /** A live capability can always be attenuated to one that is exactly as broad as itself. */
  lemma AttenuationMayKeepAll(s: State, cap: Option<Capability>)
    requires Verify(s, cap)
    ensures var o := Step(s, Attenuate(cap, None, None)).1;
            && o.Outcome? && o.ok && o.capability.Some?
            && Elements(o.capability.value.grants) == Elements(cap.value.grants)
            && o.capability.value.expiry == cap.value.expiry
            && Narrower(o.capability.value, cap.value) && Narrower(cap.value, o.capability.value)
            && !StrictlyNarrower(o.capability.value, cap.value)
  {
  }

  /** An attenuation that succeeds is strict exactly when it asks for an earlier end, or for
      grants that leave some grant of the parent uncovered. */
  lemma {:induction false} AttenuationIsStrict(s: State, cap: Option<Capability>, narrowed: Option<set<string>>,
                                               shortened: Option<int>)
    requires var o := Step(s, Attenuate(cap, narrowed, shortened)).1; o.Outcome? && o.ok
    ensures var derived := Step(s, Attenuate(cap, narrowed, shortened)).1.capability;
            && cap.Some? && derived.Some?
            && (StrictlyNarrower(derived.value, cap.value) <==>
                  || (shortened.Some? && s.now + shortened.value < cap.value.expiry)
                  || (narrowed.Some? && exists g :: g in cap.value.grants && !Covers(narrowed.value, g)))
  {
  }
}
