/** The memory store behind authenticated identities. */
module Authenticated {
  import opened Wrappers
  import opened Identity
  import M = Memory

  const DENIED := M.Denied("authentication-denied")

  /** The benchmark principals, registered when the backend is built. */
  const PRINCIPALS := [
    Record("did:key:operator", "agstack", "coffee", "market-research", 3, true),
    Record("did:key:analyst", "agstack", "coffee", "market-research", 1, true),
    Record("did:key:outsider", "rival", "coffee", "market-research", 1, true),
    Record("did:key:advertiser", "agstack", "coffee", "advertising", 1, true)]

  function Register(records: map<string, Record>, more: seq<Record>): map<string, Record> {
    if more == [] then records
    else Register(records, more[..|more| - 1])[more[|more| - 1].did := more[|more| - 1]]
  }

  function ActorOf(r: Record): M.Actor {
    M.Actor(r.did, r.tenant, r.space, r.purpose, r.clearance, r.canMutate)
  }

  /** What a caller may ask for: nothing in it says who the caller is. */
  datatype Request =
    | Remember(memory: M.Memory)
    | Recall(query: string, asOf: int)
    | Improve(memoryId: string, replacement: M.Memory, expectedDigest: string, key: string)
    | Forget(memoryId: string)

  datatype Call =
    | Act(did: string, credential: Credential, nonce: string, request: Request)
    | Enrol(record: Record)
    | Restart

  /** The core's call for a request made by `actor`. */
  function CoreCall(request: Request, actor: M.Actor, nonce: string): M.Call {
    match request
    case Remember(m) => M.Remember(m, actor, nonce)
    case Recall(query, asOf) => M.Recall(query, actor, asOf, nonce)
    case Improve(id, replacement, digest, key) => M.Improve(id, replacement, actor, nonce, digest, key)
    case Forget(id) => M.Forget(id, actor, nonce)
  }

  datatype State = State(core: M.State, records: map<string, Record>)

  const StartState := State(M.EmptyState, Register(map[], PRINCIPALS))

  function Step(s: State, c: Call): (State, M.Decision)
    requires M.Ordered(s.core)
  {
    match c
    case Act(did, credential, nonce, request) =>
      (match Authenticate(s.records, did, credential)
       case None => (s, DENIED)
       case Some(record) =>
         var (core, d) := M.Step(s.core, CoreCall(request, ActorOf(record), nonce));
         (s.(core := core), d))
    case Enrol(record) => (s.(records := s.records[record.did := record]), M.Decision(true, [], "", M.NoReceipt))
    case Restart => (s, M.Decision(true, [], "", M.NoReceipt))
  }

  class AuthenticatedBackend {
    var core: M.AdversarialBackend
    var identities: IdentityRegistry
    var credentials: map<string, Credential>

    ghost predicate Valid()
      reads this, core, identities
    {
      core.Valid() && identities.Valid()
    }

    ghost function Snapshot(): State
      reads this, core, identities
    {
      State(core.Snapshot(), identities.records)
    }

    constructor ()
      ensures Valid() && fresh(core) && fresh(identities) && Snapshot() == StartState
      ensures forall did :: did in credentials <==> did in identities.records
      ensures forall did :: did in credentials ==> credentials[did] == Hmac(did)
    {
      core := new M.AdversarialBackend();
      identities := new IdentityRegistry();
      credentials := map[];
      new;
      for i := 0 to |PRINCIPALS|
        invariant Valid() && fresh(identities) && core.Snapshot() == M.EmptyState && fresh(core)
        invariant identities.records == Register(map[], PRINCIPALS[..i])
        invariant credentials.Keys == identities.records.Keys
        invariant forall did :: did in credentials ==> credentials[did] == Hmac(did)
      {
        var record := PRINCIPALS[i];
        assert PRINCIPALS[..i + 1][..i] == PRINCIPALS[..i];
        var credential := identities.Register(record);
        credentials := credentials[record.did := credential];
      }
      assert PRINCIPALS[..|PRINCIPALS|] == PRINCIPALS;
    }

    method RestartBackend()
      requires Valid()
      modifies this
      ensures Valid() && fresh(core) && identities == old(identities)
      ensures Snapshot() == Step(old(Snapshot()), Restart).0
    {
      core := core.RestartBackend();
    }

    method RememberMemory(m: M.Memory, did: string, credential: Credential, nonce: string) returns (d: M.Decision)
      requires Valid()
      modifies core
      ensures Valid() && (Snapshot(), d) == Step(old(Snapshot()), Act(did, credential, nonce, Remember(m)))
    {
      var session := identities.Open(did, credential);
      if session.None? {
        return DENIED;
      }
      d := core.RememberMemory(m, ActorOf(session.value), nonce);
    }

    method RecallIds(query: string, did: string, credential: Credential, asOf: int, nonce: string)
      returns (d: M.Decision)
      requires Valid()
      modifies core
      ensures Valid() && (Snapshot(), d) == Step(old(Snapshot()), Act(did, credential, nonce, Recall(query, asOf)))
    {
      var session := identities.Open(did, credential);
      if session.None? {
        return DENIED;
      }
      d := core.RecallIds(query, ActorOf(session.value), asOf, nonce);
    }

    method ImproveMemory(id: string, replacement: M.Memory, did: string, credential: Credential, nonce: string,
                         expectedDigest: string, key: string)
      returns (d: M.Decision)
      requires Valid()
      modifies core
      ensures Valid()
      ensures (Snapshot(), d)
           == Step(old(Snapshot()), Act(did, credential, nonce, Improve(id, replacement, expectedDigest, key)))
    {
      var session := identities.Open(did, credential);
      if session.None? {
        return DENIED;
      }
      d := core.ImproveMemory(id, replacement, ActorOf(session.value), nonce, expectedDigest, key);
    }

    method ForgetMemory(id: string, did: string, credential: Credential, nonce: string) returns (d: M.Decision)
      requires Valid()
      modifies core
      ensures Valid() && (Snapshot(), d) == Step(old(Snapshot()), Act(did, credential, nonce, Forget(id)))
    {
      var session := identities.Open(did, credential);
      if session.None? {
        return DENIED;
      }
      d := core.ForgetMemory(id, ActorOf(session.value), nonce);
    }
  }
}
