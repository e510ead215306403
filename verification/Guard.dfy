/** The capability engine: grants and their lattice, capabilities and their seals, the
    engine's transition functions, and the class that performs them in place. */
module Guard {
  import opened Wrappers
  import opened Ordering
  import Decimal

  // ---------------------------------------------------------------------------
  // Grants
  // ---------------------------------------------------------------------------

  const READ := "read:"
  const REDACTED := "<redacted>"

  /** The rank of a clearance label, or -1 for a string that is not one. */
  function Level(tag: string): int {
    if tag == "public" then 0 else if tag == "internal" then 1 else if tag == "sensitive" then 2 else -1
  }

  /** The level a grant lets its holder read, or -1 if it is not a read grant. */
  function ReadLevel(g: string): int {
    if READ <= g then Level(g[5..]) else -1
  }

  /** The level of the best read grant of a list; -1 when it has none. */
  function Ceiling(grants: seq<string>): (best: int)
    ensures -1 <= best <= 2
    ensures forall g :: g in grants ==> ReadLevel(g) <= best
    ensures best == -1 || exists g :: g in grants && ReadLevel(g) == best
  {
    if grants == [] then -1
    else
      var g, rest := grants[|grants| - 1], Ceiling(grants[..|grants| - 1]);
      assert grants == grants[..|grants| - 1] + [g];
      if ReadLevel(g) > rest then ReadLevel(g) else rest
  }

  method ReadCeiling(grants: seq<string>) returns (best: int)
    ensures best == Ceiling(grants)
  {
    best := -1;
    for i := 0 to |grants|
      invariant best == Ceiling(grants[..i])
    {
      var g := grants[i];
      assert grants[..i + 1][..i] == grants[..i];
      if READ <= g && Level(g[5..]) >= 0 {
        best := if Level(g[5..]) > best then Level(g[5..]) else best;
      }
    }
    assert grants[..|grants|] == grants;
  }

  /** Is `g` no broader than what `parent` holds?  Reads obey the lattice; every other
      grant is atomic. */
  predicate Implied(parent: seq<string>, g: string) {
    if ReadLevel(g) >= 0 then Ceiling(parent) >= ReadLevel(g) else g in parent
  }

  /** Do these grants go beyond what `parent` holds? */
  predicate Widens(parent: seq<string>, grants: set<string>) {
    exists g :: g in grants && !Implied(parent, g)
  }

  function Elements(grants: seq<string>): set<string> {
    set g | g in grants
  }

  // ---------------------------------------------------------------------------
  // Capabilities
  // ---------------------------------------------------------------------------

  /** The engine's MAC is a free term over the sealed body: no other body has it. */
  datatype Seal =
    | Unsealed(text: string)
    | Mac(capId: string, subject: string, grants: seq<string>, resource: string, operation: string,
          expiry: int, epoch: int)

  datatype Capability = Capability(
    capId: string, subject: string, grants: seq<string>, resource: string, operation: string,
    expiry: int, epoch: int, seal: Seal)
  {
    function Sealed(): Capability {
      this.(seal := Mac(capId, subject, grants, resource, operation, expiry, epoch))
    }
  }

  datatype SecureValue = SecureValue(tag: string, cleartext: string, resource: string)

  /** An audit entry: the digest of a decision, a free term over what it names. */
  datatype Evidence =
    | MintDenied(subject: string, resource: string)
    | Minted(capId: string, subject: string, resource: string)
    | AttenuateDenied(reason: string)
    | Attenuated(parent: string, capId: string)
    | RevokedId(capId: string)
    | RevokedAll(epoch: int)
    | RevealRefused(resource: string)
    | RevealRedacted(resource: string, tag: string)
    | Revealed(capId: string, resource: string)
    | DeclassifyRefused(resource: string)
    | Declassified(capId: string, resource: string)
    | InvokeDenied(tool: string, reason: string)
    | Invoked(capId: string, tool: string, resource: string)
    | WireRejected(fields: seq<string>)

  /** What a call answers; Done for the setters, Raised for a Python exception. */
  datatype Outcome =
    | Outcome(ok: bool, error: string, capability: Option<Capability>, revealed: Option<string>, auditPresent: bool)
    | Done
    | Raised(exception: string)

  function Refused(error: string, audited: bool): Outcome {
    Outcome(false, error, None, None, audited)
  }

  /** A request off the wire; `extras` are the fields outside the known set. */
  datatype Payload = Payload(
    subject: Option<string>, grants: Option<set<string>>, resource: Option<string>,
    operation: Option<string>, lease: Option<int>, extras: set<string>)

  datatype State = State(
    policy: map<string, map<string, set<string>>>, revoked: set<string>, minEpoch: int, now: int,
    audit: seq<Evidence>, n: nat)

  const FreshState := State(map[], {}, 0, 0, [], 0)

  datatype Call =
    | GrantPolicy(subject: string, resource: string, grants: set<string>)
    | Tick(ticks: int)
    | Mint(subject: string, grants: set<string>, resource: string, operation: string, lease: int)
    | Attenuate(cap: Option<Capability>, narrowed: Option<set<string>>, shortened: Option<int>)
    | Revoke(capId: string)
    | RevokeAll
    | Reveal(cap: Option<Capability>, value: SecureValue)
    | Declassify(cap: Option<Capability>, value: SecureValue)
    | Invoke(cap: Option<Capability>, tool: string, resource: string, operation: string)
    | Request(payload: Payload)
    | Restart

  // ---------------------------------------------------------------------------
  // Transitions
  // ---------------------------------------------------------------------------

  predicate Verify(s: State, cap: Option<Capability>) {
    && cap.Some?
    && cap.value.Sealed().seal == cap.value.seal
    && cap.value.capId !in s.revoked
    && cap.value.epoch >= s.minEpoch
    && s.now < cap.value.expiry
  }

  function CapId(n: nat): string {
    "cap-" + Decimal.Padded(n)
  }

  function Grants(s: set<string>): seq<string> {
    LexIsTotalOrder();
    SortedElements(LexLeq, s)
  }

  function Logged(s: State, e: Evidence): State {
    s.(audit := s.audit + [e])
  }

  /** What the policy in force lets a subject be minted on a resource. */
  function Allowed(s: State, subject: string, resource: string): set<string> {
    if subject in s.policy && resource in s.policy[subject] then s.policy[subject][resource] else {}
  }

  function GrantPolicyStep(s: State, subject: string, resource: string, grants: set<string>): State {
    var resources := if subject in s.policy then s.policy[subject] else map[];
    s.(policy := s.policy[subject := resources[resource := grants]])
  }

  function MintStep(s: State, subject: string, grants: set<string>, resource: string, operation: string, lease: int)
    : (State, Outcome)
  {
    if !(grants <= Allowed(s, subject, resource)) then
      (Logged(s, MintDenied(subject, resource)), Refused("policy-denied", true))
    else
      var cap := Capability(CapId(s.n + 1), subject, Grants(grants), resource, operation, s.now + lease,
                            s.minEpoch, Unsealed("")).Sealed();
      (Logged(s.(n := s.n + 1), Minted(cap.capId, subject, resource)), Outcome(true, "", Some(cap), None, true))
  }

  function AttenuateStep(s: State, cap: Option<Capability>, narrowed: Option<set<string>>, shortened: Option<int>)
    : (State, Outcome)
  {
    if !Verify(s, cap) then (s, Refused("invalid-parent", false))
    else
      var parent := cap.value;
      var grants := if narrowed.Some? then narrowed.value else Elements(parent.grants);
      var expiry := if shortened.Some? then s.now + shortened.value else parent.expiry;
      if Widens(parent.grants, grants) then
        (Logged(s, AttenuateDenied("widen")), Refused("permission-widened", true))
      else if expiry > parent.expiry then
        (Logged(s, AttenuateDenied("extend")), Refused("lease-extended", true))
      else
        var derived := Capability(CapId(s.n + 1), parent.subject, Grants(grants), parent.resource,
                                  parent.operation, expiry, parent.epoch, Unsealed("")).Sealed();
        (Logged(s.(n := s.n + 1), Attenuated(parent.capId, derived.capId)),
         Outcome(true, "", Some(derived), None, true))
  }

  function RevealStep(s: State, cap: Option<Capability>, value: SecureValue): (State, Outcome) {
    if !Verify(s, cap) || cap.value.resource != value.resource then
      (Logged(s, RevealRefused(value.resource)), Outcome(false, "unauthorized", None, Some(REDACTED), true))
    else if Level(value.tag) < 0 then (s, Raised("ValueError"))
    else if Ceiling(cap.value.grants) < Level(value.tag) then
      (Logged(s, RevealRedacted(value.resource, value.tag)),
       Outcome(false, "below-clearance", None, Some(REDACTED), true))
    else
      (Logged(s, Revealed(cap.value.capId, value.resource)), Outcome(true, "", None, Some(value.cleartext), true))
  }

  function DeclassifyStep(s: State, cap: Option<Capability>, value: SecureValue): (State, Outcome) {
    if !Verify(s, cap) || cap.value.resource != value.resource then (s, Refused("unauthorized", false))
    else if "declassify" !in cap.value.grants then
      (Logged(s, DeclassifyRefused(value.resource)), Refused("no-declassify-grant", true))
    else
      (Logged(s, Declassified(cap.value.capId, value.resource)), Outcome(true, "", None, None, true))
  }

  function InvokeStep(s: State, cap: Option<Capability>, tool: string, resource: string, operation: string)
    : (State, Outcome)
  {
    if !Verify(s, cap) then (Logged(s, InvokeDenied(tool, "no-capability")), Refused("ambient-denied", true))
    else if cap.value.resource != resource then
      (Logged(s, InvokeDenied(tool, "resource")), Refused("cross-resource", true))
    else if "tool:" + tool !in cap.value.grants || cap.value.operation != operation then
      (Logged(s, InvokeDenied(tool, "confused-deputy")), Refused("confused-deputy", true))
    else (Logged(s, Invoked(cap.value.capId, tool, resource)), Outcome(true, "", None, None, true))
  }

  function RequestStep(s: State, p: Payload): (State, Outcome) {
    if p.extras != {} then (Logged(s, WireRejected(Grants(p.extras))), Refused("unknown-fields", true))
    else if p.subject.None? || p.grants.None? || p.resource.None? then (s, Raised("KeyError"))
    else
      MintStep(s, p.subject.value, p.grants.value, p.resource.value,
               if p.operation.Some? then p.operation.value else "",
               if p.lease.Some? then p.lease.value else 100)
  }

  function Step(s: State, c: Call): (State, Outcome) {
    match c
    case GrantPolicy(subject, resource, grants) => (GrantPolicyStep(s, subject, resource, grants), Done)
    case Tick(ticks) => (s.(now := s.now + ticks), Done)
    case Mint(subject, grants, resource, operation, lease) => MintStep(s, subject, grants, resource, operation, lease)
    case Attenuate(cap, narrowed, shortened) => AttenuateStep(s, cap, narrowed, shortened)
    case Revoke(id) => (Logged(s.(revoked := s.revoked + {id}), RevokedId(id)), Done)
    case RevokeAll => (Logged(s.(minEpoch := s.minEpoch + 1), RevokedAll(s.minEpoch + 1)), Done)
    case Reveal(cap, value) => RevealStep(s, cap, value)
    case Declassify(cap, value) => DeclassifyStep(s, cap, value)
    case Invoke(cap, tool, resource, operation) => InvokeStep(s, cap, tool, resource, operation)
    case Request(payload) => RequestStep(s, payload)
    case Restart => (s, Done)
  }

  // ---------------------------------------------------------------------------
  // The engine
  // ---------------------------------------------------------------------------

  class Engine {
    var policy: map<string, map<string, set<string>>>
    var revoked: set<string>
    var minEpoch: int
    var now: int
    var audit: seq<Evidence>
    var n: nat

    ghost function Snapshot(): State
      reads this
    {
      State(policy, revoked, minEpoch, now, audit, n)
    }

    constructor ()
      ensures Snapshot() == FreshState
    {
      policy, revoked, minEpoch, now, audit, n := map[], {}, 0, 0, [], 0;
    }

    method SetPolicy(subject: string, resource: string, grants: set<string>)
      modifies this
      ensures Snapshot() == Step(old(Snapshot()), GrantPolicy(subject, resource, grants)).0
    {
      if subject !in policy {
        policy := policy[subject := map[]];
      }
      policy := policy[subject := policy[subject][resource := grants]];
      assert policy == GrantPolicyStep(old(Snapshot()), subject, resource, grants).policy;
    }

    method Advance(ticks: int)
      modifies this
      ensures Snapshot() == Step(old(Snapshot()), Tick(ticks)).0
    {
      now := now + ticks;
    }

    method NextId() returns (id: string)
      modifies `n
      ensures n == old(n) + 1 && id == CapId(n)
    {
      n := n + 1;
      id := "cap-" + Decimal.Padded(n);
    }

    method Log(e: Evidence)
      modifies `audit
      ensures audit == old(audit) + [e]
    {
      audit := audit + [e];
    }

    method Check(cap: Option<Capability>) returns (ok: bool)
      ensures ok == Verify(Snapshot(), cap)
    {
      if cap.None? {
        return false;
      }
      if cap.value.Sealed().seal != cap.value.seal {
        return false;
      }
      if cap.value.capId in revoked {
        return false;
      }
      if cap.value.epoch < minEpoch {
        return false;
      }
      if now >= cap.value.expiry {
        return false;
      }
      return true;
    }

    method MintCapability(subject: string, grants: set<string>, resource: string, operation: string, lease: int)
      returns (o: Outcome)
      modifies this
      ensures (Snapshot(), o) == Step(old(Snapshot()), Mint(subject, grants, resource, operation, lease))
    {
      var allowed := if subject in policy && resource in policy[subject] then policy[subject][resource] else {};
      if !(grants <= allowed) {
        Log(MintDenied(subject, resource));
        return Refused("policy-denied", true);
      }
      var id := NextId();
      var cap := Capability(id, subject, Grants(grants), resource, operation, now + lease, minEpoch,
                            Unsealed("")).Sealed();
      Log(Minted(cap.capId, subject, resource));
      o := Outcome(true, "", Some(cap), None, true);
    }

    method AttenuateCapability(cap: Option<Capability>, narrowed: Option<set<string>>, shortened: Option<int>)
      returns (o: Outcome)
      modifies this
      ensures (Snapshot(), o) == Step(old(Snapshot()), Attenuate(cap, narrowed, shortened))
    {
      hide CapId, Widens, Elements;
      var ok := Check(cap);
      if !ok {
        return Refused("invalid-parent", false);
      }
      var parent := cap.value;
      var grants := if narrowed.Some? then narrowed.value else Elements(parent.grants);
      if Widens(parent.grants, grants) {
        Log(AttenuateDenied("widen"));
        return Refused("permission-widened", true);
      }
      var expiry := if shortened.Some? then now + shortened.value else parent.expiry;
      if expiry > parent.expiry {
        Log(AttenuateDenied("extend"));
        return Refused("lease-extended", true);
      }
      var id := NextId();
      var derived := Capability(id, parent.subject, Grants(grants), parent.resource, parent.operation, expiry,
                                parent.epoch, Unsealed("")).Sealed();
      Log(Attenuated(parent.capId, derived.capId));
      o := Outcome(true, "", Some(derived), None, true);
    }

    method RevokeCapability(id: string)
      modifies this
      ensures Snapshot() == Step(old(Snapshot()), Revoke(id)).0
    {
      revoked := revoked + {id};
      Log(RevokedId(id));
    }

    method RevokeEpoch()
      modifies this
      ensures Snapshot() == Step(old(Snapshot()), RevokeAll).0
    {
      minEpoch := minEpoch + 1;
      Log(RevokedAll(minEpoch));
    }

    method RevealValue(cap: Option<Capability>, value: SecureValue) returns (o: Outcome)
      modifies this
      ensures (Snapshot(), o) == Step(old(Snapshot()), Reveal(cap, value))
    {
      var ok := Check(cap);
      if !ok || cap.value.resource != value.resource {
        Log(RevealRefused(value.resource));
        return Outcome(false, "unauthorized", None, Some(REDACTED), true);
      }
      if Level(value.tag) < 0 {
        return Raised("ValueError");
      }
      var ceiling := ReadCeiling(cap.value.grants);
      if ceiling < Level(value.tag) {
        Log(RevealRedacted(value.resource, value.tag));
        return Outcome(false, "below-clearance", None, Some(REDACTED), true);
      }
      Log(Revealed(cap.value.capId, value.resource));
      o := Outcome(true, "", None, Some(value.cleartext), true);
    }

    method DeclassifyValue(cap: Option<Capability>, value: SecureValue) returns (o: Outcome)
      modifies this
      ensures (Snapshot(), o) == Step(old(Snapshot()), Declassify(cap, value))
    {
      var ok := Check(cap);
      if !ok || cap.value.resource != value.resource {
        return Refused("unauthorized", false);
      }
      if "declassify" !in cap.value.grants {
        Log(DeclassifyRefused(value.resource));
        return Refused("no-declassify-grant", true);
      }
      Log(Declassified(cap.value.capId, value.resource));
      o := Outcome(true, "", None, None, true);
    }

    method InvokeTool(cap: Option<Capability>, tool: string, resource: string, operation: string)
      returns (o: Outcome)
      modifies this
      ensures (Snapshot(), o) == Step(old(Snapshot()), Invoke(cap, tool, resource, operation))
    {
      var ok := Check(cap);
      if !ok {
        Log(InvokeDenied(tool, "no-capability"));
        return Refused("ambient-denied", true);
      }
      if cap.value.resource != resource {
        Log(InvokeDenied(tool, "resource"));
        return Refused("cross-resource", true);
      }
      if "tool:" + tool !in cap.value.grants || cap.value.operation != operation {
        Log(InvokeDenied(tool, "confused-deputy"));
        return Refused("confused-deputy", true);
      }
      Log(Invoked(cap.value.capId, tool, resource));
      o := Outcome(true, "", None, None, true);
    }

    method Accept(p: Payload) returns (o: Outcome)
      modifies this
      ensures (Snapshot(), o) == Step(old(Snapshot()), Request(p))
    {
      if p.extras != {} {
        Log(WireRejected(Grants(p.extras)));
        return Refused("unknown-fields", true);
      }
      if p.subject.None? || p.grants.None? || p.resource.None? {
        return Raised("KeyError");
      }
      o := MintCapability(p.subject.value, p.grants.value, p.resource.value,
                          if p.operation.Some? then p.operation.value else "",
                          if p.lease.Some? then p.lease.value else 100);
    }

    method RestartEngine() returns (other: Engine)
      ensures fresh(other) && other.Snapshot() == Step(Snapshot(), Restart).0
    {
      other := new Engine();
      other.policy, other.revoked, other.minEpoch := policy, revoked, minEpoch;
      other.now, other.audit, other.n := now, audit, n;
    }
  }
}
