/** When the engine refuses a capability for good: revocation, the clock, and what a
    revocation does and does not reach. */
module GuardDeath {
  import opened Wrappers
  import opened Guard
  import opened GuardRuns
  import opened GuardAnswers
  import Decimal

  // ---------------------------------------------------------------------------
  // Revocation is permanent
  // ---------------------------------------------------------------------------

  /** Refused for a reason no clock can mend: absent, forged, or revoked by id or by epoch. */
  predicate Revoked(s: State, cap: Option<Capability>) {
    || cap.None?
    || cap.value.Sealed().seal != cap.value.seal
    || cap.value.capId in s.revoked
    || cap.value.epoch < s.minEpoch
  }

  lemma RevokedStays(s: State, c: Call, cap: Option<Capability>)
    requires Revoked(s, cap)
    ensures Revoked(Step(s, c).0, cap)
  {
    hide CapId, Grants, Widens, Elements, Ceiling;
  }

  lemma {:induction false} RevocationIsPermanent(calls: seq<Call>, cap: Option<Capability>, i: nat, j: nat)
    requires i <= j <= |calls| && Revoked(At(calls, i), cap)
    ensures Revoked(At(calls, j), cap) && !Verify(At(calls, j), cap)
    decreases j
  {
    if i == j {
    } else {
      RevocationIsPermanent(calls, cap, i, j - 1);
      AtNext(calls, j - 1);
      RevokedStays(At(calls, j - 1), calls[j - 1], cap);
    }
  }

  // ---------------------------------------------------------------------------
  // Expiry is as permanent as the clock is monotone
  // ---------------------------------------------------------------------------

  /** Once refused, a capability is refused whenever the clock is not behind where it was,
      whatever happened meanwhile. */
  lemma {:induction false} DeathIsPermanent(calls: seq<Call>, cap: Option<Capability>, i: nat, j: nat)
    requires i <= j <= |calls| && !Verify(At(calls, i), cap)
    requires At(calls, i).now <= At(calls, j).now
    ensures !Verify(At(calls, j), cap)
  {
    if Revoked(At(calls, i), cap) {
      RevocationIsPermanent(calls, cap, i, j);
    }
  }

  /** A capability refused at one moment is accepted at a later one exactly when its lease had
      ended, the clock was then turned back to before its end, and no revocation reached it. */
  lemma {:induction false} RevivalIsTheClock(calls: seq<Call>, cap: Option<Capability>, i: nat, j: nat)
    requires i <= j <= |calls|
    ensures !Verify(At(calls, i), cap) && Verify(At(calls, j), cap) <==>
            !Revoked(At(calls, j), cap) && At(calls, j).now < cap.value.expiry <= At(calls, i).now
  {
    if Revoked(At(calls, i), cap) {
      RevocationIsPermanent(calls, cap, i, j);
    }
  }

  /** Whatever could be presented and was refused at `i` is refused at `j`. */
  ghost predicate DeathKept(calls: seq<Call>, i: nat, j: nat)
    requires i <= j <= |calls|
  {
    forall cap :: Obtainable(Issued(calls[..j]), cap) && !Verify(At(calls, i), cap) ==> !Verify(At(calls, j), cap)
  }

  /** Some capability the engine issued has its lease end between the two clocks, the later
      one being behind, and was not revoked. */
  ghost predicate LeaseReopened(calls: seq<Call>, i: nat, j: nat)
    requires i <= j <= |calls|
  {
    exists p ::
      && p in Issued(calls[..j]) && !Revoked(At(calls, j), Some(p.cap))
      && At(calls, j).now < p.cap.expiry <= At(calls, i).now
  }

  /** Between two moments of a run death is kept exactly when no lease was reopened. */
  lemma {:induction false} DeathKeptExactly(calls: seq<Call>, i: nat, j: nat)
    requires Feasible(calls) && i <= j <= |calls|
    ensures DeathKept(calls, i, j) <==> !LeaseReopened(calls, i, j)
  {
    hide Feasible, Issued, Run, CapId;
    FeasiblePrefix(calls, j);
    RunLedger(calls[..j]);
    var issued, s := Issued(calls[..j]), At(calls, j);
    if p :| && p in issued && !Revoked(s, Some(p.cap)) && s.now < p.cap.expiry <= At(calls, i).now {
      assert Obtainable(issued, Some(p.cap)) && Verify(s, Some(p.cap)) && !Verify(At(calls, i), Some(p.cap));
    }
    if cap :| Obtainable(issued, cap) && !Verify(At(calls, i), cap) && Verify(s, cap) {
      AcceptedIsIssued(issued, s, cap);
      RevivalIsTheClock(calls, cap, i, j);
    }
  }

  // ---------------------------------------------------------------------------
  // Ticks
  // ---------------------------------------------------------------------------

  /** After this run and a tick, whatever could be presented and was refused still is. */
  ghost predicate TickIsSafe(calls: seq<Call>, ticks: int) {
    forall cap :: Obtainable(Issued(calls), cap) && !Verify(Run(calls), cap) ==>
                    !Verify(Step(Run(calls), Tick(ticks)).0, cap)
  }

  /** A tick is safe after every run exactly when it does not turn the clock back. */
  lemma TickKeepsDeath(ticks: int)
    ensures (forall calls :: Feasible(calls) ==> TickIsSafe(calls, ticks)) <==> ticks >= 0
  {
    if ticks < 0 {
      var calls, cap := ExpiredLease();
      assert !Verify(Run(calls), cap) && Verify(Step(Run(calls), Tick(ticks)).0, cap);
      assert !TickIsSafe(calls, ticks);
    }
  }

  /** Grant, mint with a lease of one, tick once: the capability the engine issued has just
      expired, and any tick back makes it live again. */
  lemma ExpiredLease() returns (calls: seq<Call>, cap: Option<Capability>)
    ensures Feasible(calls) && Obtainable(Issued(calls), cap)
    ensures !Verify(Run(calls), cap) && forall ticks :: ticks < 0 ==> Verify(Step(Run(calls), Tick(ticks)).0, cap)
  {
    hide Feasible, Run, Issued, CapId, Grants, Step, Verify, Issues, Allowed;
    var grants := {"read:public"};
    var mint := Mint("ada", grants, "notes", "search", 1);
    calls := [GrantPolicy("ada", "notes", grants), mint, Tick(1)];
    AfterGrant(calls, "ada", "notes", grants);
    NothingPresented(calls);
    var s := At(calls, 1);
    LeaseOfOne(s, mint);
    cap := Step(s, mint).1.capability;
    AtNext(calls, 1);
    AtNext(calls, 2);
    assert calls[..3] == calls;
    IssuedNext(calls, 1);
    IssuedNext(calls, 2);
    MintIsIssued(s, mint, Issued(calls[..1]));
  }

  /** A mint with a lease of one expires at the next tick and is revived by any tick back. */
  lemma LeaseOfOne(s: State, c: Call)
    requires c.Mint? && c.lease == 1 && c.grants <= Allowed(s, c.subject, c.resource) && s.revoked == {}
    ensures var (minted, o) := Step(s, c);
            var expired := Step(minted, Tick(1)).0;
            && o.Outcome? && o.capability.Some? && !Verify(expired, o.capability)
            && forall ticks :: ticks < 0 ==> Verify(Step(expired, Tick(ticks)).0, o.capability)
  {
    hide CapId, Grants;
  }

  lemma AfterGrant(calls: seq<Call>, subject: string, resource: string, grants: set<string>)
    requires |calls| > 0 && calls[0] == GrantPolicy(subject, resource, grants)
    ensures At(calls, 1).revoked == {} && At(calls, 1).n == 0 && Allowed(At(calls, 1), subject, resource) == grants
  {
    AtNext(calls, 0);
  }

  lemma MintIsIssued(s: State, c: Call, issued: seq<Provenance>)
    requires c.Mint? && Step(s, c).1.Outcome? && Step(s, c).1.capability.Some?
    ensures exists p :: p in Issues(s, c, issued) && p.cap == Step(s, c).1.capability.value
  {
    hide CapId, Grants;
    assert Issues(s, c, issued)[0].cap == Step(s, c).1.capability.value;
  }

  lemma {:induction false} NothingPresented(calls: seq<Call>)
    requires forall i :: 0 <= i < |calls| ==> Presented(calls[i]).None?
    ensures Feasible(calls)
  {
    hide Issued;
    if calls == [] {
    } else {
      NothingPresented(calls[..|calls| - 1]);
    }
  }

  // ---------------------------------------------------------------------------
  // What a revocation reaches
  // ---------------------------------------------------------------------------

  lemma CapIdInjective(m: nat, n: nat)
    requires CapId(m) == CapId(n)
    ensures m == n
  {
    assert CapId(m)[4..] == Decimal.Padded(m) && CapId(n)[4..] == Decimal.Padded(n);
    Decimal.PaddedInjective(m, n);
  }

  lemma {:induction false} IssuedId(calls: seq<Call>, i: nat)
    requires Feasible(calls) && i < |Issued(calls)|
    ensures Issued(calls)[i].cap.capId == CapId(i + 1)
  {
    RunLedger(calls);
  }

  /** Revoking one issued capability by its id kills it and changes the verdict on no other
      capability the engine has issued, its own descendants included. */
  lemma {:induction false} RevokeIsPrecise(calls: seq<Call>, i: nat, j: nat)
    requires Feasible(calls) && i < |Issued(calls)| && j < |Issued(calls)|
    ensures var cap, other := Issued(calls)[i].cap, Issued(calls)[j].cap;
            var s' := Step(Run(calls), Revoke(cap.capId)).0;
            Verify(s', Some(other)) <==> Verify(Run(calls), Some(other)) && i != j
  {
    hide CapId, Feasible, Issued, Run;
    IssuedId(calls, i);
    IssuedId(calls, j);
    if CapId(i + 1) == CapId(j + 1) {
      CapIdInjective(i + 1, j + 1);
    }
  }

  /** So a revocation does not cascade: attenuate any capability the engine accepts, whatever
      the run, then revoke it; it is refused and the derived one accepted, unless the id the
      derived one was to get had been revoked in advance. */
  lemma {:induction false} RevokeDoesNotCascade(calls: seq<Call>, cap: Option<Capability>)
    requires Feasible(calls) && Obtainable(Issued(calls), cap) && Verify(Run(calls), cap)
    ensures var (s, o) := Step(Run(calls), Attenuate(cap, None, None));
            var after := Step(s, Revoke(cap.value.capId)).0;
            && o.Outcome? && o.capability.Some? && !Verify(after, cap)
            && (Verify(after, o.capability) <==> CapId(Run(calls).n + 1) !in Run(calls).revoked)
  {
    hide Feasible, Issued, Run, CapId;
    RunLedger(calls);
    AcceptedIsIssued(Issued(calls), Run(calls), cap);
    var p :| p in Issued(calls) && p.cap == cap.value;
    var k :| 0 <= k < |Issued(calls)| && Issued(calls)[k] == p;
    if cap.value.capId == CapId(Run(calls).n + 1) {
      CapIdInjective(k + 1, Run(calls).n + 1);
    }
    AttenuationMayKeepAll(Run(calls), cap);
    DerivedAfterRevoke(Run(calls), cap);
  }

  lemma DerivedAfterRevoke(s: State, cap: Option<Capability>)
    requires Verify(s, cap) && cap.value.capId != CapId(s.n + 1)
    requires var o := Step(s, Attenuate(cap, None, None)).1; o.Outcome? && o.capability.Some?
    ensures var (s', o) := Step(s, Attenuate(cap, None, None));
            var after := Step(s', Revoke(cap.value.capId)).0;
            !Verify(after, cap) && (Verify(after, o.capability) <==> CapId(s.n + 1) !in s.revoked)
  {
    hide CapId, Grants, Widens, Elements;
  }

  /** Grant, revoke the first id, mint: the engine gives out a capability it refuses. */
  lemma FreshIdRevoked() returns (calls: seq<Call>, cap: Option<Capability>)
    ensures Feasible(calls) && |calls| == 3 && calls[2].Mint? && calls[2].lease > 0
    ensures cap.Some? && Step(At(calls, 2), calls[2]).1 == Outcome(true, "", cap, None, true)
    ensures Obtainable(Issued(calls), cap) && !Verify(Run(calls), cap)
  {
    hide Feasible, Run, Issued, CapId, Grants, Step, Verify, Issues, Allowed;
    var grants := {"read:public"};
    var mint := Mint("ada", grants, "notes", "search", 100);
    calls := [GrantPolicy("ada", "notes", grants), Revoke(CapId(1)), mint];
    AfterGrant(calls, "ada", "notes", grants);
    NothingPresented(calls);
    AtNext(calls, 1);
    AfterRevoke(At(calls, 1), "ada", "notes");
    var s := At(calls, 2);
    MintOfRevokedId(s, mint);
    cap := Step(s, mint).1.capability;
    AtNext(calls, 2);
    assert calls[..3] == calls;
    IssuedNext(calls, 2);
    MintIsIssued(s, mint, Issued(calls[..2]));
  }

  lemma AfterRevoke(s: State, subject: string, resource: string)
    requires s.n == 0
    ensures var s' := Step(s, Revoke(CapId(1))).0;
            CapId(s'.n + 1) in s'.revoked && Allowed(s', subject, resource) == Allowed(s, subject, resource)
  {
    hide CapId;
  }

  lemma MintOfRevokedId(s: State, c: Call)
    requires c.Mint? && c.grants <= Allowed(s, c.subject, c.resource) && CapId(s.n + 1) in s.revoked
    ensures var (s', o) := Step(s, c);
            && o.Outcome? && o.capability.Some? && o == Outcome(true, "", o.capability, None, true)
            && !Verify(s', o.capability)
  {
    hide CapId, Grants;
  }

  lemma StepEpoch(s: State, c: Call)
    ensures s.minEpoch <= Step(s, c).0.minEpoch
  {
  }

  lemma {:induction false} EpochsRise(calls: seq<Call>, i: nat, j: nat)
    requires i <= j <= |calls|
    ensures At(calls, i).minEpoch <= At(calls, j).minEpoch
    decreases j
  {
    if i == j {
    } else {
      EpochsRise(calls, i, j - 1);
      AtNext(calls, j - 1);
      StepEpoch(At(calls, j - 1), calls[j - 1]);
    }
  }

  lemma {:induction false} AncestorSound(p: Provenance, a: Provenance, issued: seq<Provenance>, s: State)
    requires Sound(p, issued, s) && p.DescendsFrom(a)
    ensures Sound(a, issued, s)
    decreases p
  {
    if p != a {
      AncestorSound(p.parent, a, issued, s);
    }
  }

  /** What an issued capability and its ancestors have in common. */
  lemma {:induction false} Genealogy(calls: seq<Call>, p: Provenance, ancestor: Provenance)
    requires Feasible(calls) && p in Issued(calls) && p.DescendsFrom(ancestor)
    ensures ancestor in Issued(calls) && ancestor.cap.Sealed() == ancestor.cap
    ensures Narrower(p.cap, ancestor.cap) && ancestor.cap.epoch <= Run(calls).minEpoch
  {
    RunLedger(calls);
    assert Sound(p, Issued(calls), Run(calls));
    NarrowerThanAncestor(p, ancestor, Issued(calls), Run(calls));
    AncestorSound(p, ancestor, Issued(calls), Run(calls));
  }

  /** A general revocation kills for good every capability issued before it, and every
      capability that will ever be derived from one of those. */
  lemma {:induction false} RevokeAllKills(calls: seq<Call>, i: nat, j: nat, ancestor: Provenance, p: Provenance)
    requires Feasible(calls) && i < j <= |calls| && calls[i].RevokeAll?
    requires ancestor in Issued(calls[..i]) && p in Issued(calls[..j]) && p.DescendsFrom(ancestor)
    ensures !Verify(At(calls, j), Some(p.cap))
  {
    hide CapId, Feasible, Issued, Run;
    FeasiblePrefix(calls, i);
    FeasiblePrefix(calls, j);
    Genealogy(calls[..i], ancestor, ancestor);
    Genealogy(calls[..j], p, ancestor);
    AtNext(calls, i);
    EpochsRise(calls, i + 1, j);
  }

  /** A live capability's ancestors are all unexpired and of a live epoch: only a revocation
      by id can have killed one of them alone. */
  lemma {:induction false} LiveAncestors(calls: seq<Call>, p: Provenance, ancestor: Provenance)
    requires Feasible(calls) && p in Issued(calls) && p.DescendsFrom(ancestor)
    requires Verify(Run(calls), Some(p.cap))
    ensures ancestor in Issued(calls)
    ensures Verify(Run(calls), Some(ancestor.cap)) <==> ancestor.cap.capId !in Run(calls).revoked
  {
    Genealogy(calls, p, ancestor);
  }
}
