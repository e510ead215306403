/** What the engine decides, exactly: its state as the history of the run, which capabilities it
    accepts, and what every guarded call answers and logs. */
module GuardDecisions {
  import opened Wrappers
  import opened Ordering
  import opened Guard
  import opened GuardRuns
  import Decimal

  // ---------------------------------------------------------------------------
  // The state is the history
  // ---------------------------------------------------------------------------

  /** The ticks of the run added up. */
  function Clock(calls: seq<Call>): int {
    if calls == [] then 0
    else
      var c := calls[|calls| - 1];
      Clock(calls[..|calls| - 1]) + if c.Tick? then c.ticks else 0
  }

  /** How many general revocations there were. */
  function Epoch(calls: seq<Call>): nat {
    if calls == [] then 0
    else Epoch(calls[..|calls| - 1]) + if calls[|calls| - 1].RevokeAll? then 1 else 0
  }

  /** What the last word of the policy on this subject and resource was. */
  function LastGranted(calls: seq<Call>, subject: string, resource: string): set<string> {
    if calls == [] then {}
    else
      var c := calls[|calls| - 1];
      if c.GrantPolicy? && c.subject == subject && c.resource == resource then c.grants
      else LastGranted(calls[..|calls| - 1], subject, resource)
  }

  lemma StepHistory(s: State, c: Call)
    ensures Step(s, c).0.now == s.now + if c.Tick? then c.ticks else 0
    ensures Step(s, c).0.minEpoch == s.minEpoch + if c.RevokeAll? then 1 else 0
    ensures Step(s, c).0.revoked == s.revoked + if c.Revoke? then {c.capId} else {}
  {
    hide CapId, Grants, Widens, Elements, Ceiling;
  }

  lemma {:induction false} StateIsHistory(calls: seq<Call>)
    ensures Run(calls).now == Clock(calls) && Run(calls).minEpoch == Epoch(calls)
    ensures forall id :: id in Run(calls).revoked <==> exists k :: 0 <= k < |calls| && calls[k] == Revoke(id)
  {
    if calls == [] {
    } else {
      var n := |calls| - 1;
      var before, c := calls[..n], calls[n];
      StateIsHistory(before);
      StepHistory(Run(before), c);
      assert Run(calls) == Step(Run(before), c).0;
      hide Run, Step;
      forall id
        ensures id in Run(calls).revoked <==> exists k :: 0 <= k < |calls| && calls[k] == Revoke(id)
      {
        if k :| 0 <= k < n && before[k] == Revoke(id) {
          assert calls[k] == Revoke(id);
        }
      }
    }
  }

  lemma StepAllowed(s: State, c: Call, subject: string, resource: string)
    ensures Allowed(Step(s, c).0, subject, resource)
         == if c.GrantPolicy? && c.subject == subject && c.resource == resource then c.grants
            else Allowed(s, subject, resource)
  {
    hide CapId, Grants, Widens, Elements, Ceiling;
  }

  lemma {:induction false} PolicyIsHistory(calls: seq<Call>, subject: string, resource: string)
    ensures Allowed(Run(calls), subject, resource) == LastGranted(calls, subject, resource)
  {
    if calls == [] {
    } else {
      var before, c := calls[..|calls| - 1], calls[|calls| - 1];
      PolicyIsHistory(before, subject, resource);
      StepAllowed(Run(before), c, subject, resource);
      assert Run(calls) == Step(Run(before), c).0;
      hide Run, Step, Allowed;
    }
  }

  /** Over any run, whatever is presented: the engine accepts it exactly when it is one of the
      capabilities the engine issued, its id was never revoked, no general revocation came after
      the epoch it was minted in, and the clock has not reached its end. */
  lemma {:induction false} AcceptedExactly(calls: seq<Call>, cap: Option<Capability>)
    requires Feasible(calls) && Obtainable(Issued(calls), cap)
    ensures Verify(Run(calls), cap) <==>
            && (exists p :: p in Issued(calls) && cap == Some(p.cap))
            && (forall k :: 0 <= k < |calls| ==> calls[k] != Revoke(cap.value.capId))
            && cap.value.epoch >= Epoch(calls) && Clock(calls) < cap.value.expiry
  {
    hide Feasible, Issued, Run, CapId, Obtainable;
    StateIsHistory(calls);
    RunLedger(calls);
    if Verify(Run(calls), cap) {
      AcceptedIsIssued(Issued(calls), Run(calls), cap);
      var p :| p in Issued(calls) && p.cap == cap.value;
    }
    if p :| p in Issued(calls) && cap == Some(p.cap) {
      SoundIn(Issued(calls), Run(calls), p);
    }
  }

  /** The n-th identifier is "cap-" and n in decimal, with zeros in front up to four digits. */
  lemma CapIdExactly(n: nat)
    ensures var digits := CapId(n)[4..];
            && CapId(n)[..4] == "cap-" && Decimal.Value(digits) == n
            && (forall k :: 0 <= k < |digits| ==> '0' <= digits[k] <= '9')
            && |digits| >= 4 && (|digits| > 4 ==> digits[0] != '0')
  {
    Decimal.PaddedValue(n);
    Decimal.PrintShape(n);
    assert CapId(n)[4..] == Decimal.Padded(n);
  }

  // ---------------------------------------------------------------------------
  // Labels and grants
  // ---------------------------------------------------------------------------

  /** There are three labels, public below internal below sensitive; a grant "read:" and a label
      reads up to that label, and no other grant reads at all. */
  lemma Clearance(g: string)
    ensures 0 <= Level("public") < Level("internal") < Level("sensitive")
    ensures Level(g) >= 0 <==> g in {"public", "internal", "sensitive"}
    ensures ReadLevel("read:" + g) == Level(g)
    ensures ReadLevel(g) >= 0 <==> g in {"read:public", "read:internal", "read:sensitive"}
    ensures ReadLevel("read:public") < ReadLevel("read:internal") < ReadLevel("read:sensitive")
  {
    assert ("read:" + g)[5..] == g;
    assert "read:public"[5..] == "public" && "read:internal"[5..] == "internal" && "read:sensitive"[5..] == "sensitive";
    if READ <= g {
      ReadGrant(g, g[5..]);
    }
  }

  lemma ReadGrant(g: string, tag: string)
    requires READ <= g && tag == g[5..]
    ensures tag in {"public", "internal", "sensitive"} <==> g in {"read:public", "read:internal", "read:sensitive"}
  {
    assert g == READ + tag;
    assert READ + "public" == "read:public" && READ + "internal" == "read:internal";
    assert READ + "sensitive" == "read:sensitive";
  }

  /** A list of grants implies a read exactly when it holds a read at least as high, and any other
      grant exactly when it holds that very grant. */
  lemma ImpliedExactly(parent: seq<string>, g: string)
    ensures Implied(parent, g) <==> Covers(Elements(parent), g)
  {
    hide ReadLevel;
  }

  // ---------------------------------------------------------------------------
  // Answers
  // ---------------------------------------------------------------------------

  /** What an attenuation asks for: the given grants and end, or else the parent's. */
  function AskedGrants(cap: Capability, narrowed: Option<set<string>>): set<string> {
    if narrowed.Some? then narrowed.value else set g | g in cap.grants
  }

  function AskedEnd(s: State, cap: Capability, shortened: Option<int>): int {
    if shortened.Some? then s.now + shortened.value else cap.expiry
  }

  /** The derived capability has exactly the grants and the end asked for, and everything else
      from its parent. */
  ghost predicate DerivedAs(s: State, parent: Capability, grants: set<string>, end: int, cap: Capability) {
    var a := Ask(parent.subject, grants, parent.resource, parent.operation, end - s.now);
    MintOf(a, s.(minEpoch := parent.epoch), cap)
  }

  /** An attenuation succeeds exactly on an accepted parent that covers every grant asked for and
      ends no earlier, and gives exactly what was asked; otherwise the first test that fails is
      what it answers. */
  lemma {:induction false} AttenuateAnswers(s: State, cap: Option<Capability>, narrowed: Option<set<string>>,
                                            shortened: Option<int>)
    ensures var (s', o) := Step(s, Attenuate(cap, narrowed, shortened));
            if !Verify(s, cap) then
              o == Outcome(false, "invalid-parent", None, None, false) && s' == s
            else
              var (grants, end) := (AskedGrants(cap.value, narrowed), AskedEnd(s, cap.value, shortened));
              if exists g :: g in grants && !Covers(Elements(cap.value.grants), g) then
                && o == Outcome(false, "permission-widened", None, None, true)
                && s' == s.(audit := s.audit + [AttenuateDenied("widen")])
              else if end > cap.value.expiry then
                && o == Outcome(false, "lease-extended", None, None, true)
                && s' == s.(audit := s.audit + [AttenuateDenied("extend")])
              else
                && o.Outcome? && o.capability.Some? && o == Outcome(true, "", o.capability, None, true)
                && DerivedAs(s, cap.value, grants, end, o.capability.value)
                && s' == s.(n := s.n + 1,
                            audit := s.audit + [Attenuated(cap.value.capId, o.capability.value.capId)])
  {
    hide CapId, Grants, Verify, Implied, Covers;
    if Verify(s, cap) {
      assert cap.Some? by { AcceptedIsSome(s, cap); }
      var grants := AskedGrants(cap.value, narrowed);
      GrantsAre(grants);
      forall g
        ensures Implied(cap.value.grants, g) <==> Covers(Elements(cap.value.grants), g)
      {
        ImpliedExactly(cap.value.grants, g);
      }
      assert grants == if narrowed.Some? then narrowed.value else Elements(cap.value.grants);
    }
    hide Sorted, LexLeq;
  }

  lemma AcceptedIsSome(s: State, cap: Option<Capability>)
    requires Verify(s, cap)
    ensures cap.Some?
  {
  }

  /** A value is revealed exactly to an accepted capability for its resource with a grant that
      reads its label, which must be a known one. */
  lemma {:induction false} RevealAnswers(s: State, cap: Option<Capability>, value: SecureValue)
    ensures var (s', o) := Step(s, Reveal(cap, value));
            if !Verify(s, cap) || cap.value.resource != value.resource then
              && o == Outcome(false, "unauthorized", None, Some("<redacted>"), true)
              && s' == s.(audit := s.audit + [RevealRefused(value.resource)])
            else if value.tag !in {"public", "internal", "sensitive"} then o == Raised("ValueError") && s' == s
            else if exists g :: g in cap.value.grants && ReadLevel(g) >= Level(value.tag) then
              && o == Outcome(true, "", None, Some(value.cleartext), true)
              && s' == s.(audit := s.audit + [Revealed(cap.value.capId, value.resource)])
            else
              && o == Outcome(false, "below-clearance", None, Some("<redacted>"), true)
              && s' == s.(audit := s.audit + [RevealRedacted(value.resource, value.tag)])
  {
    Clearance(value.tag);
    hide Level, ReadLevel;
    if cap.Some? {
      assert forall g :: g in cap.value.grants ==> ReadLevel(g) <= Ceiling(cap.value.grants);
    }
  }

  /** A label is lowered exactly for an accepted capability for the value's resource that holds
      the declassify grant. */
  lemma DeclassifyAnswers(s: State, cap: Option<Capability>, value: SecureValue)
    ensures var (s', o) := Step(s, Declassify(cap, value));
            if !Verify(s, cap) || cap.value.resource != value.resource then
              o == Outcome(false, "unauthorized", None, None, false) && s' == s
            else if "declassify" in cap.value.grants then
              && o == Outcome(true, "", None, None, true)
              && s' == s.(audit := s.audit + [Declassified(cap.value.capId, value.resource)])
            else
              && o == Outcome(false, "no-declassify-grant", None, None, true)
              && s' == s.(audit := s.audit + [DeclassifyRefused(value.resource)])
  {
  }

  /** A tool runs exactly for an accepted capability that holds its grant, for that resource and
      that operation. */
  lemma InvokeAnswers(s: State, cap: Option<Capability>, tool: string, resource: string, operation: string)
    ensures var (s', o) := Step(s, Invoke(cap, tool, resource, operation));
            if Verify(s, cap) && cap.value.resource == resource && cap.value.operation == operation
               && "tool:" + tool in cap.value.grants
            then
              && o == Outcome(true, "", None, None, true)
              && s' == s.(audit := s.audit + [Invoked(cap.value.capId, tool, resource)])
            else
              var (error, reason) := if !Verify(s, cap) then ("ambient-denied", "no-capability")
                                     else if cap.value.resource != resource then ("cross-resource", "resource")
                                     else ("confused-deputy", "confused-deputy");
              && o == Outcome(false, error, None, None, true)
              && s' == s.(audit := s.audit + [InvokeDenied(tool, reason)])
  {
  }

  /** A request the wire check lets through but that lacks a field raises; the setters answer
      nothing and log only revocations. */
  lemma {:induction false} OtherAnswers(s: State, c: Call)
    requires Asked(c).None? && Presented(c).None?
    requires !c.Attenuate? && !c.Reveal? && !c.Declassify? && !c.Invoke?
    ensures var (s', o) := Step(s, c);
            && (c.Request? && c.payload.extras != {} ==>
                  && o == Outcome(false, "unknown-fields", None, None, true)
                  && exists names :: Sorted(LexLeq, names) && |names| == |c.payload.extras|
                                     && Elements(names) == c.payload.extras
                                     && s' == s.(audit := s.audit + [WireRejected(names)]))
            && (c.Request? && c.payload.extras == {} ==> o == Raised("KeyError") && s' == s)
            && (!c.Request? ==> o == Done)
            && (c.GrantPolicy? || c.Tick? || c.Restart? ==> s'.audit == s.audit)
            && (c.Revoke? ==> s'.audit == s.audit + [RevokedId(c.capId)])
            && (c.RevokeAll? ==> s'.audit == s.audit + [RevokedAll(s.minEpoch + 1)])
            && (!c.Request? ==> s'.n == s.n)
  {
    if c.Request? && c.payload.extras != {} {
      GrantsAre(c.payload.extras);
    }
    hide Grants, CapId, Sorted, LexLeq;
  }
}
