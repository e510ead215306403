/** What every run of the capability engine keeps.  A run is any sequence of calls,
    restarts included, from the fresh engine. */
module GuardRuns {
  import opened Wrappers
  import opened Ordering
  import opened Guard

  function Run(calls: seq<Call>): State {
    if calls == [] then FreshState else Step(Run(calls[..|calls| - 1]), calls[|calls| - 1]).0
  }

  /** The state before call `i` (or after the whole run, when i == |calls|). */
  function At(calls: seq<Call>, i: nat): State
    requires i <= |calls|
  {
    Run(calls[..i])
  }

  lemma AtNext(calls: seq<Call>, i: nat)
    requires i < |calls|
    ensures At(calls, i + 1) == Step(At(calls, i), calls[i]).0
  {
    assert calls[..i + 1][..i] == calls[..i];
  }

  // ---------------------------------------------------------------------------
  // The grant order
  // ---------------------------------------------------------------------------

  /** A grant some list implies reads no higher than that list's ceiling. */
  lemma ImpliedCeiling(parent: seq<string>, child: seq<string>)
    requires forall g :: g in child ==> Implied(parent, g)
    ensures Ceiling(child) <= Ceiling(parent)
  {
  }

  /** Implication composes: through the ceiling for reads, through membership otherwise. */
  lemma ImpliedTransitive(root: seq<string>, parent: seq<string>, g: string)
    requires forall p :: p in parent ==> Implied(root, p)
    requires Implied(parent, g)
    ensures Implied(root, g)
  {
    ImpliedCeiling(root, parent);
  }

  // ---------------------------------------------------------------------------
  // Where capabilities come from
  // ---------------------------------------------------------------------------

  /** How the engine came to issue a capability: by a mint, under the grants the policy
      then allowed, or by attenuating one it had issued before. */
  datatype Provenance =
    | Root(cap: Capability, allowed: set<string>)
    | Derived(cap: Capability, parent: Provenance)
  {
    function Origin(): (root: Provenance)
      ensures root.Root?
    {
      if Root? then this else parent.Origin()
    }

    predicate DescendsFrom(p: Provenance) {
      this == p || (Derived? && parent.DescendsFrom(p))
    }
  }

  ghost predicate Narrower(cap: Capability, parent: Capability) {
    && (forall g :: g in cap.grants ==> Implied(parent.grants, g))
    && cap.expiry <= parent.expiry
    && cap.subject == parent.subject && cap.resource == parent.resource
    && cap.operation == parent.operation && cap.epoch == parent.epoch
  }

  /** The capability a call presents. */
  function Presented(c: Call): Option<Capability> {
    match c
    case Attenuate(cap, _, _) => cap
    case Reveal(cap, _) => cap
    case Declassify(cap, _) => cap
    case Invoke(cap, _, _, _) => cap
    case _ => None
  }

  ghost function ProvenanceOf(issued: seq<Provenance>, cap: Capability): Provenance
    requires exists p :: p in issued && p.cap == cap
  {
    var p :| p in issued && p.cap == cap; p
  }

  /** The provenance a call adds, if the engine issues a capability in it. */
  ghost function Issues(s: State, c: Call, issued: seq<Provenance>): seq<Provenance> {
    var o := Step(s, c).1;
    if !o.Outcome? || o.capability.None? then []
    else if c.Attenuate? then
      if exists p :: p in issued && p.cap == c.cap.value then
        [Derived(o.capability.value, ProvenanceOf(issued, c.cap.value))]
      else []
    else
      var cap := o.capability.value;
      [Root(cap, Allowed(s, cap.subject, cap.resource))]
  }

  /** Everything the engine issued in a run, in order. */
  ghost function Issued(calls: seq<Call>): seq<Provenance> {
    if calls == [] then []
    else
      var before := calls[..|calls| - 1];
      Issued(before) + Issues(Run(before), calls[|calls| - 1], Issued(before))
  }

  /** Nobody but the engine can compute its MAC: a capability someone holds carries a seal
      the engine has issued, or no seal of the engine's at all.  Its fields are anything. */
  ghost predicate Obtainable(issued: seq<Provenance>, cap: Option<Capability>) {
    cap.Some? && cap.value.seal.Mac? ==> exists p :: p in issued && p.cap.seal == cap.value.seal
  }

  ghost predicate Feasible(calls: seq<Call>) {
    calls == [] ||
    var before := calls[..|calls| - 1];
    Feasible(before) && Obtainable(Issued(before), Presented(calls[|calls| - 1]))
  }

  ghost predicate Sound(p: Provenance, issued: seq<Provenance>, s: State)
    decreases p
  {
    && p in issued
    && p.cap.Sealed() == p.cap
    && p.cap.epoch <= s.minEpoch
    && if p.Root? then Elements(p.cap.grants) <= p.allowed
       else Narrower(p.cap, p.parent.cap) && Sound(p.parent, issued, s)
  }

  /** Identifiers count the issued capabilities. */
  ghost predicate Numbered(issued: seq<Provenance>, s: State) {
    |issued| == s.n && forall i :: 0 <= i < |issued| ==> issued[i].cap.capId == CapId(i + 1)
  }

  ghost predicate Ledger(issued: seq<Provenance>, s: State) {
    Numbered(issued, s) && forall p :: p in issued ==> Sound(p, issued, s)
  }

  lemma {:induction false} SoundLater(p: Provenance, issued: seq<Provenance>, s: State, more: seq<Provenance>,
                                      s': State)
    requires Sound(p, issued, s) && s.minEpoch <= s'.minEpoch
    ensures Sound(p, issued + more, s')
    decreases p
  {
    if p.Derived? {
      SoundLater(p.parent, issued, s, more, s');
    }
  }

  /** A capability the engine would accept, with a seal one can hold, is one it issued. */
  lemma AcceptedIsIssued(issued: seq<Provenance>, s: State, cap: Option<Capability>)
    requires Ledger(issued, s) && Obtainable(issued, cap) && Verify(s, cap)
    ensures exists p :: p in issued && p.cap == cap.value
  {
  }

  lemma {:induction false} DerivedSound(s: State, c: Call, issued: seq<Provenance>)
    requires Ledger(issued, s) && c.Attenuate? && Obtainable(issued, c.cap) && Verify(s, c.cap)
    ensures IssueSound(s, c, issued)
  {
    hide CapId, Grants, Widens, Elements, Ledger;
    AcceptedIsIssued(issued, s, c.cap);
    var (s', o) := Step(s, c);
    if o.capability.Some? {
      var p := ProvenanceOf(issued, c.cap.value);
      var added := [Derived(o.capability.value, p)];
      assert Sound(p, issued, s) by { SoundIn(issued, s, p); }
      SoundLater(p, issued, s, added, s');
      AttenuationNarrows(s, c);
    }
  }

  lemma SoundIn(issued: seq<Provenance>, s: State, p: Provenance)
    requires Ledger(issued, s) && p in issued
    ensures Sound(p, issued, s)
  {
  }

  lemma AttenuationNarrows(s: State, c: Call)
    requires c.Attenuate? && Verify(s, c.cap) && Step(s, c).1.capability.Some?
    ensures Narrower(Step(s, c).1.capability.value, c.cap.value)
  {
    LexIsTotalOrder();
    hide CapId, LexLeq, TotalOrder, Implied;
  }

  /** What a call issues is numbered next, and sound once it joins the ledger. */
  ghost predicate IssueSound(s: State, c: Call, issued: seq<Provenance>) {
    var added := Issues(s, c, issued);
    var s' := Step(s, c).0;
    && s'.n == s.n + |added| && |added| <= 1 && s.minEpoch <= s'.minEpoch
    && (|added| == 1 ==> added[0].cap.capId == CapId(s.n + 1) && Sound(added[0], issued + added, s'))
  }

  lemma {:induction false} IssuesSound(s: State, c: Call, issued: seq<Provenance>)
    requires Ledger(issued, s) && Obtainable(issued, Presented(c))
    ensures IssueSound(s, c, issued)
  {
    if c.Attenuate? && Verify(s, c.cap) {
      DerivedSound(s, c, issued);
    } else {
      MintedSound(s, c, issued);
    }
  }

  lemma MintedSound(s: State, c: Call, issued: seq<Provenance>)
    requires c.Attenuate? ==> !Verify(s, c.cap)
    ensures IssueSound(s, c, issued)
  {
    LexIsTotalOrder();
    hide CapId, LexLeq, TotalOrder;
  }

  lemma {:induction false} LedgerExtends(issued: seq<Provenance>, s: State, added: seq<Provenance>, s': State)
    requires Ledger(issued, s) && s'.n == s.n + |added| && |added| <= 1 && s.minEpoch <= s'.minEpoch
    requires |added| == 1 ==> added[0].cap.capId == CapId(s.n + 1) && Sound(added[0], issued + added, s')
    ensures Ledger(issued + added, s')
  {
    hide CapId;
    forall p | p in issued + added
      ensures Sound(p, issued + added, s')
    {
      if p in issued {
        SoundLater(p, issued, s, added, s');
      }
    }
  }

  lemma {:induction false} StepLedger(s: State, c: Call, issued: seq<Provenance>)
    requires Ledger(issued, s) && Obtainable(issued, Presented(c))
    ensures Ledger(issued + Issues(s, c, issued), Step(s, c).0)
  {
    IssuesSound(s, c, issued);
    LedgerExtends(issued, s, Issues(s, c, issued), Step(s, c).0);
  }

  lemma {:induction false} RunLedger(calls: seq<Call>)
    requires Feasible(calls)
    ensures Ledger(Issued(calls), Run(calls))
  {
    if calls == [] {
    } else {
      var before := calls[..|calls| - 1];
      RunLedger(before);
      StepLedger(Run(before), calls[|calls| - 1], Issued(before));
    }
  }

  lemma IssuedNext(calls: seq<Call>, i: nat)
    requires i < |calls|
    ensures Issued(calls[..i + 1]) == Issued(calls[..i]) + Issues(At(calls, i), calls[i], Issued(calls[..i]))
  {
    hide Issues, Run;
    assert calls[..i + 1][..i] == calls[..i];
  }

  lemma AnswerIsIssued(s: State, c: Call, issued: seq<Provenance>)
    requires Ledger(issued, s) && Obtainable(issued, Presented(c))
    requires Step(s, c).1.Outcome? && Step(s, c).1.capability.Some?
    ensures exists p :: p in Issues(s, c, issued) && p.cap == Step(s, c).1.capability.value
  {
    hide CapId, Grants, Widens, Elements, Ledger;
    if c.Attenuate? {
      AcceptedIsIssued(issued, s, c.cap);
      assert Issues(s, c, issued)[0].cap == Step(s, c).1.capability.value;
    } else {
      assert Issues(s, c, issued)[0].cap == Step(s, c).1.capability.value;
    }
  }

  /** What a call asks to be minted. */
  datatype Ask = Ask(subject: string, grants: set<string>, resource: string, operation: string, lease: int)

  /** A mint asks for its arguments; a request with no unknown and no missing field for its
      fields, by default for no operation and a lease of 100; no other call asks. */
  function Asked(c: Call): Option<Ask> {
    match c
    case Mint(subject, grants, resource, operation, lease) => Some(Ask(subject, grants, resource, operation, lease))
    case Request(Payload(Some(subject), Some(grants), Some(resource), operation, lease, extras)) =>
      if extras != {} then None
      else
        Some(Ask(subject, grants, resource, if operation.Some? then operation.value else "",
                 if lease.Some? then lease.value else 100))
    case _ => None
  }

  /** The capability is what was asked for and no more: the very grants, in order and once each,
      for this subject, resource and operation, ending with the lease, of the current epoch, with
      the next identifier, and sealed. */
  ghost predicate MintOf(a: Ask, s: State, cap: Capability) {
    && Elements(cap.grants) == a.grants && |cap.grants| == |a.grants| && Sorted(LexLeq, cap.grants)
    && cap.subject == a.subject && cap.resource == a.resource && cap.operation == a.operation
    && cap.expiry == s.now + a.lease && cap.epoch == s.minEpoch && cap.capId == CapId(s.n + 1)
    && cap.seal == Mac(cap.capId, cap.subject, cap.grants, cap.resource, cap.operation, cap.expiry, cap.epoch)
  }

  /** Call `i` of the run minted `cap` as it was asked to, under a policy that then allowed
      exactly `allowed`, and that allowed all it asked for. */
  ghost predicate MintedAt(calls: seq<Call>, i: nat, cap: Capability, allowed: set<string>)
    requires i < |calls|
  {
    && Asked(calls[i]).Some? && MintOf(Asked(calls[i]).value, At(calls, i), cap)
    && Step(At(calls, i), calls[i]).1 == Outcome(true, "", Some(cap), None, true)
    && allowed == Allowed(At(calls, i), cap.subject, cap.resource)
    && Asked(calls[i]).value.grants <= allowed
  }

  /** Every root in the ledger is the answer of a mint call of the run. */
  lemma {:induction false} RootWasMinted(calls: seq<Call>, root: Provenance)
    requires root in Issued(calls) && root.Root?
    ensures exists i :: 0 <= i < |calls| && MintedAt(calls, i, root.cap, root.allowed)
    decreases |calls|
  {
    var n := |calls| - 1;
    var before := calls[..n];
    if root in Issued(before) {
      RootWasMinted(before, root);
      var i :| 0 <= i < n && MintedAt(before, i, root.cap, root.allowed);
      assert before[..i] == calls[..i];
      assert MintedAt(calls, i, root.cap, root.allowed);
    } else {
      RootHere(Run(before), calls[n], Issued(before), root);
      assert MintedAt(calls, n, root.cap, root.allowed);
    }
  }

  lemma RootHere(s: State, c: Call, issued: seq<Provenance>, root: Provenance)
    requires root in Issues(s, c, issued) && root.Root?
    ensures Asked(c).Some? && MintOf(Asked(c).value, s, root.cap)
    ensures Step(s, c).1 == Outcome(true, "", Some(root.cap), None, true)
    ensures root.allowed == Allowed(s, root.cap.subject, root.cap.resource)
    ensures Asked(c).value.grants <= root.allowed
  {
    hide CapId, Grants, Widens, Elements, MintOf;
    assert Asked(c).Some?;
    MintAnswers(s, c);
  }

  lemma GrantsAre(grants: set<string>)
    ensures Elements(Grants(grants)) == grants && |Grants(grants)| == |grants|
    ensures Sorted(LexLeq, Grants(grants))
  {
    LexIsTotalOrder();
    ElementsAreSorted(LexLeq, grants);
    hide LexLeq, TotalOrder, Sorted;
  }

  /** A mint, or a request the wire check lets through, answers with exactly what was asked for
      when the policy allows all of it, and with a refusal when it does not. */
  lemma {:induction false} MintAnswers(s: State, c: Call)
    requires Asked(c).Some?
    ensures var (a, s', o) := (Asked(c).value, Step(s, c).0, Step(s, c).1);
            if a.grants <= Allowed(s, a.subject, a.resource) then
              && o.Outcome? && o.capability.Some? && o == Outcome(true, "", o.capability, None, true)
              && MintOf(a, s, o.capability.value)
              && s' == s.(n := s.n + 1,
                          audit := s.audit + [Minted(o.capability.value.capId, a.subject, a.resource)])
            else
              && o == Outcome(false, "policy-denied", None, None, true)
              && s' == s.(audit := s.audit + [MintDenied(a.subject, a.resource)])
  {
    GrantsAre(Asked(c).value.grants);
    hide CapId, Grants, Elements, Sorted;
  }

  // ---------------------------------------------------------------------------
  // Authority is bounded by the policy at the root mint
  // ---------------------------------------------------------------------------

  lemma {:induction false} NarrowerThanAncestor(p: Provenance, a: Provenance, issued: seq<Provenance>, s: State)
    requires Sound(p, issued, s) && p.DescendsFrom(a)
    ensures Narrower(p.cap, a.cap)
    decreases p
  {
    if p == a {
      forall g | g in p.cap.grants
        ensures Implied(p.cap.grants, g)
      {
      }
    } else {
      NarrowerThanAncestor(p.parent, a, issued, s);
      forall g | g in p.cap.grants
        ensures Implied(a.cap.grants, g)
      {
        ImpliedTransitive(a.cap.grants, p.parent.cap.grants, g);
      }
    }
  }

  lemma {:induction false} OriginSound(p: Provenance, issued: seq<Provenance>, s: State)
    requires Sound(p, issued, s)
    ensures p.DescendsFrom(p.Origin()) && Sound(p.Origin(), issued, s)
    decreases p
  {
    if p.Derived? {
      OriginSound(p.parent, issued, s);
    }
  }

  /** A set of allowed grants covers `g`: a read at or above its level, or `g` itself. */
  ghost predicate Covers(allowed: set<string>, g: string) {
    if ReadLevel(g) >= 0 then exists a :: a in allowed && ReadLevel(a) >= ReadLevel(g) else g in allowed
  }

  lemma ImpliedIsCovered(grants: seq<string>, allowed: set<string>, g: string)
    requires Elements(grants) <= allowed && Implied(grants, g)
    ensures Covers(allowed, g)
  {
  }

  lemma {:induction false} FeasiblePrefix(calls: seq<Call>, i: nat)
    requires Feasible(calls) && i <= |calls|
    ensures Feasible(calls[..i])
    decreases |calls|
  {
    if i < |calls| {
      FeasiblePrefix(calls[..|calls| - 1], i);
      assert calls[..|calls| - 1][..i] == calls[..i];
    } else {
      assert calls[..i] == calls;
    }
  }

  /** `cap` descends by attenuation from the capability call `i` minted, narrower than it in
      every respect, and every one of its grants is covered by what that call asked for, all of
      which the policy then in force allowed. */
  ghost predicate DescendsFromMint(calls: seq<Call>, i: nat, cap: Capability)
    requires i < |calls|
  {
    exists p, allowed ::
      && p in Issued(calls) && p.cap == cap
      && MintedAt(calls, i, p.Origin().cap, allowed)
      && p.DescendsFrom(p.Origin())
      && Narrower(cap, p.Origin().cap)
      && forall g :: g in cap.grants ==> Covers(Asked(calls[i]).value.grants, g)
  }

  /** Over any run, every capability the engine issues goes back through finitely many
      attenuations to one mint, and is bounded by it. */
  lemma {:induction false} IssuedDescendsFromMint(calls: seq<Call>, p: Provenance)
    requires Feasible(calls) && p in Issued(calls)
    ensures exists i :: 0 <= i < |calls| && DescendsFromMint(calls, i, p.cap)
  {
    hide Feasible, Issued, Run, CapId;
    RunLedger(calls);
    var issued, s := Issued(calls), Run(calls);
    assert Sound(p, issued, s);
    OriginSound(p, issued, s);
    NarrowerThanAncestor(p, p.Origin(), issued, s);
    RootWasMinted(calls, p.Origin());
    var i :| 0 <= i < |calls| && MintedAt(calls, i, p.Origin().cap, p.Origin().allowed);
    forall g | g in p.cap.grants
      ensures Covers(Asked(calls[i]).value.grants, g)
    {
      ImpliedIsCovered(p.Origin().cap.grants, Asked(calls[i]).value.grants, g);
    }
    assert DescendsFromMint(calls, i, p.cap);
  }

  /** So, whatever capability is presented, if the engine accepts it, it is bounded by a mint
      of the run. */
  lemma {:induction false} AcceptedDescendsFromMint(calls: seq<Call>, cap: Option<Capability>)
    requires Feasible(calls) && Obtainable(Issued(calls), cap) && Verify(Run(calls), cap)
    ensures exists i :: 0 <= i < |calls| && DescendsFromMint(calls, i, cap.value)
  {
    hide Feasible, Issued, Run, CapId;
    RunLedger(calls);
    AcceptedIsIssued(Issued(calls), Run(calls), cap);
    var p :| p in Issued(calls) && p.cap == cap.value;
    IssuedDescendsFromMint(calls, p);
  }

  /** Some mint of the run asked for this: for the subject, on the resource, for the operation,
      `g` or more; and the policy then in force allowed all it asked for. */
  ghost predicate AskedAndAllowed(calls: seq<Call>, subject: string, resource: string, operation: string, g: string) {
    exists i, root, allowed ::
      && 0 <= i < |calls| && MintedAt(calls, i, root, allowed)
      && var a := Asked(calls[i]).value;
         a.subject == subject && a.resource == resource && a.operation == operation && Covers(a.grants, g)
  }

  lemma {:induction false} GrantWasAllowed(calls: seq<Call>, cap: Option<Capability>, g: string)
    requires Feasible(calls) && Obtainable(Issued(calls), cap) && Verify(Run(calls), cap)
    requires g in cap.value.grants
    ensures AskedAndAllowed(calls, cap.value.subject, cap.value.resource, cap.value.operation, g)
  {
    AcceptedDescendsFromMint(calls, cap);
    var i :| 0 <= i < |calls| && DescendsFromMint(calls, i, cap.value);
    var p, allowed :|
      && p in Issued(calls) && p.cap == cap.value
      && MintedAt(calls, i, p.Origin().cap, allowed)
      && p.DescendsFrom(p.Origin())
      && Narrower(cap.value, p.Origin().cap)
      && forall g :: g in cap.value.grants ==> Covers(Asked(calls[i]).value.grants, g);
    assert MintedAt(calls, i, p.Origin().cap, allowed) && Covers(Asked(calls[i]).value.grants, g);
  }

  /** Cleartext leaves the engine only under a read grant, at the value's level or above, that
      the mint of the subject's authority over that very resource asked for and the policy then
      in force allowed. */
  lemma {:induction false} RevealWasAllowed(calls: seq<Call>, cap: Option<Capability>, value: SecureValue)
    requires Feasible(calls) && Obtainable(Issued(calls), cap)
    requires var o := Step(Run(calls), Reveal(cap, value)).1; o.Outcome? && o.ok
    ensures exists g :: ReadLevel(g) >= Level(value.tag) >= 0
                        && AskedAndAllowed(calls, cap.value.subject, value.resource, cap.value.operation, g)
  {
    var g :| g in cap.value.grants && ReadLevel(g) == Ceiling(cap.value.grants);
    GrantWasAllowed(calls, cap, g);
  }

  /** A tool runs only for the resource and operation its authority was minted for, by a mint
      that asked for that tool outright under a policy that allowed it. */
  lemma {:induction false} InvokeWasAllowed(calls: seq<Call>, cap: Option<Capability>, tool: string,
                                            resource: string, operation: string)
    requires Feasible(calls) && Obtainable(Issued(calls), cap)
    requires Step(Run(calls), Invoke(cap, tool, resource, operation)).1.ok
    ensures AskedAndAllowed(calls, cap.value.subject, resource, operation, "tool:" + tool)
  {
    GrantWasAllowed(calls, cap, "tool:" + tool);
  }

  lemma {:induction false} DeclassifyWasAllowed(calls: seq<Call>, cap: Option<Capability>, value: SecureValue)
    requires Feasible(calls) && Obtainable(Issued(calls), cap)
    requires Step(Run(calls), Declassify(cap, value)).1.ok
    ensures AskedAndAllowed(calls, cap.value.subject, value.resource, cap.value.operation, "declassify")
  {
    GrantWasAllowed(calls, cap, "declassify");
  }
}
