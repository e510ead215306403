/** The authenticated backend as the agent harness's memory tool. */
module Agent {
  import opened Wrappers
  import opened Identity
  import A = Authenticated
  import M = Memory
  import Decimal

  const DEFAULT_FROM := 739617   // 2026-01-01
  const DEFAULT_AS_OF := 739648  // 2026-02-01
  const SNIPPET := 200

  datatype ToolResult = ToolResult(ok: bool, results: seq<(string, string)>, ids: seq<string>, error: string)

  /** What `open_session` hands out: a did and the secret it authenticated with. */
  type Session = Option<(string, Credential)>

  datatype Call =
    | Write(session: Session, memoryId: string, text: string, validFrom: Option<int>, validUntil: Option<int>,
            secret: bool, derivedFrom: seq<string>)
    | Read(session: Session, query: string, asOf: Option<int>)
    | Delete(session: Session, memoryId: string)
    | ListIds(session: Session)
    | Restart
    | Reset

  datatype State = State(backend: A.State, counter: nat)

  const FreshState := State(A.StartState, 0)
  const NO_SESSION := ToolResult(false, [], [], "no session")

  /** Stands for the hexadecimal SHA-256 of a text; any injection would do. */
  function Sha(text: string): string {
    "sha256:" + text
  }

  function Nonce(n: nat): string {
    "agent-nonce-" + Decimal.Print(n)
  }

  function Or<T>(value: Option<T>, default: T): T {
    if value.Some? then value.value else default
  }

  /** The memory a write stores: tenant, space and purpose are the defaults of the store. */
  function MemoryOf(c: Call): M.Memory
    requires c.Write? && c.session.Some?
  {
    M.Memory(c.memoryId, c.text, "agent:" + c.session.value.0, Sha(c.text), "agstack", "coffee",
             if c.secret then 3 else 1, Or(c.validFrom, DEFAULT_FROM), c.validUntil, M.Current, c.derivedFrom,
             "market-research")
  }

  /** The backend request behind a tool call. */
  function RequestOf(c: Call): A.Request
    requires (c.Write? || c.Read? || c.Delete? || c.ListIds?) && c.session.Some?
  {
    match c
    case Write(_, _, _, _, _, _, _) => A.Remember(MemoryOf(c))
    case Read(_, query, asOf) => A.Recall(query, Or(asOf, DEFAULT_AS_OF))
    case Delete(_, id) => A.Forget(id)
    case ListIds(_) => A.Recall("", DEFAULT_AS_OF)
  }

  predicate IsTool(c: Call) {
    c.Write? || c.Read? || c.Delete? || c.ListIds?
  }

  /** The backend call a tool call makes; it burns the next nonce. */
  function BackendCall(s: State, c: Call): A.Call
    requires IsTool(c) && c.session.Some?
  {
    A.Act(c.session.value.0, c.session.value.1, Nonce(s.counter + 1), RequestOf(c))
  }

  function Snippet(text: string): string {
    if |text| > SNIPPET then text[..SNIPPET] else text
  }

  /** One row for every recalled id the store holds. */
  function Rows(memories: map<string, M.Memory>, ids: seq<string>): seq<(string, string)> {
    if ids == [] then []
    else
      var last := ids[|ids| - 1];
      Rows(memories, ids[..|ids| - 1]) + if last in memories then [(last, Snippet(memories[last].text))] else []
  }

  function ResultOf(c: Call, d: M.Decision, memories: map<string, M.Memory>): ToolResult {
    match c
    case Write(_, _, _, _, _, _, _) => ToolResult(d.allowed, [], [], d.error)
    case Read(_, _, _) =>
      if !d.allowed then ToolResult(false, [], [], if d.error != "" then d.error else "denied")
      else ToolResult(true, Rows(memories, d.ids), d.ids, "")
    case Delete(_, _) => ToolResult(d.allowed, [], d.ids, d.error)
    case _ => ToolResult(true, [], d.ids, "")
  }

  function Step(s: State, c: Call): (State, ToolResult)
    requires M.Ordered(s.backend.core)
  {
    if IsTool(c) then
      if c.session.None? then (s, NO_SESSION)
      else
        var (b, d) := A.Step(s.backend, BackendCall(s, c));
        (State(b, s.counter + 1), ResultOf(c, d, b.core.memories))
    else if c.Restart? then (s.(backend := A.Step(s.backend, A.Restart).0), ToolResult(true, [], [], ""))
    else (FreshState, ToolResult(true, [], [], ""))
  }

  method CollectRows(memories: map<string, M.Memory>, ids: seq<string>) returns (rows: seq<(string, string)>)
    ensures rows == Rows(memories, ids)
  {
    rows := [];
    for i := 0 to |ids|
      invariant rows == Rows(memories, ids[..i])
    {
      assert ids[..i + 1][..i] == ids[..i];
      if ids[i] in memories {
        rows := rows + [(ids[i], Snippet(memories[ids[i]].text))];
      }
    }
    assert ids[..|ids|] == ids;
  }

  class MarcianaAgentBackend {
    var backend: A.AuthenticatedBackend
    var nonce: nat

    ghost predicate Valid()
      reads this, backend, backend.core, backend.identities
    {
      backend.Valid()
    }

    ghost function Snapshot(): State
      reads this, backend, backend.core, backend.identities
    {
      State(backend.Snapshot(), nonce)
    }

    constructor ()
      ensures Valid() && fresh(backend) && fresh(backend.core) && fresh(backend.identities)
      ensures Snapshot() == FreshState
    {
      backend := new A.AuthenticatedBackend();
      nonce := 0;
    }

    method ResetBackend()
      modifies this
      ensures Valid() && fresh(backend) && fresh(backend.core) && fresh(backend.identities)
      ensures Snapshot() == FreshState
    {
      backend := new A.AuthenticatedBackend();
      nonce := 0;
    }

    method RestartBackend()
      requires Valid()
      modifies backend
      ensures Valid() && fresh(backend.core) && backend.identities == old(backend.identities)
      ensures Snapshot() == Step(old(Snapshot()), Restart).0
    {
      backend.RestartBackend();
    }

    method OpenSession(name: string, credential: Credential) returns (session: Session)
      requires Valid()
      ensures var did := "did:key:" + name;
              session == if Authenticate(Snapshot().backend.records, did, credential).Some?
                         then Some((did, credential)) else None
    {
      var did := "did:key:" + name;
      var record := backend.identities.Open(did, credential);
      session := if record.None? then None else Some((did, credential));
    }

    method NextNonce() returns (n: string)
      modifies `nonce
      ensures nonce == old(nonce) + 1 && n == Nonce(nonce)
    {
      nonce := nonce + 1;
      n := "agent-nonce-" + Decimal.Print(nonce);
    }

    method WriteMemory(session: Session, id: string, text: string, validFrom: Option<int>, validUntil: Option<int>,
                       secret: bool, derivedFrom: seq<string>)
      returns (r: ToolResult)
      requires Valid()
      modifies `nonce, backend.core
      ensures Valid()
      ensures var c := Write(session, id, text, validFrom, validUntil, secret, derivedFrom);
              Snapshot() == Step(old(Snapshot()), c).0 && r == Step(old(Snapshot()), c).1
    {
      if session.None? {
        return NO_SESSION;
      }
      var (did, credential) := session.value;
      var memory := M.Memory(id, text, "agent:" + did, Sha(text), "agstack", "coffee", if secret then 3 else 1,
                             Or(validFrom, DEFAULT_FROM), validUntil, M.Current, derivedFrom, "market-research");
      var n := NextNonce();
      var d := backend.RememberMemory(memory, did, credential, n);
      r := ToolResult(d.allowed, [], [], d.error);
    }

    method ReadMemories(session: Session, query: string, asOf: Option<int>) returns (r: ToolResult)
      requires Valid()
      modifies `nonce, backend.core
      ensures Valid()
      ensures Snapshot() == Step(old(Snapshot()), Read(session, query, asOf)).0
      ensures r == Step(old(Snapshot()), Read(session, query, asOf)).1
    {
      if session.None? {
        return NO_SESSION;
      }
      var (did, credential) := session.value;
      var when := Or(asOf, DEFAULT_AS_OF);
      var n := NextNonce();
      var d := backend.RecallIds(query, did, credential, when, n);
      if !d.allowed {
        return ToolResult(false, [], [], if d.error != "" then d.error else "denied");
      }
      var rows := CollectRows(backend.core.memories, d.ids);
      r := ToolResult(true, rows, d.ids, "");
    }

    method DeleteMemory(session: Session, id: string) returns (r: ToolResult)
      requires Valid()
      modifies `nonce, backend.core
      ensures Valid()
      ensures Snapshot() == Step(old(Snapshot()), Delete(session, id)).0
      ensures r == Step(old(Snapshot()), Delete(session, id)).1
    {
      if session.None? {
        return NO_SESSION;
      }
      var (did, credential) := session.value;
      var n := NextNonce();
      var d := backend.ForgetMemory(id, did, credential, n);
      r := ToolResult(d.allowed, [], d.ids, d.error);
    }

    method List(session: Session) returns (r: ToolResult)
      requires Valid()
      modifies `nonce, backend.core
      ensures Valid()
      ensures Snapshot() == Step(old(Snapshot()), ListIds(session)).0
      ensures r == Step(old(Snapshot()), ListIds(session)).1
    {
      if session.None? {
        return NO_SESSION;
      }
      var (did, credential) := session.value;
      var n := NextNonce();
      var d := backend.RecallIds("", did, credential, DEFAULT_AS_OF, n);
      r := ToolResult(true, [], d.ids, "");
    }
  }
}
