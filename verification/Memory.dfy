/** The policy-filtered memory store: memories, the tokenizer, the transition functions,
    and the class that performs them in place. */
module Memory {
  import opened Wrappers
  import opened Ordering

  const MAX_QUERY_CHARS := 4096
  const MAX_TEXT_CHARS := 4096

  datatype Actor = Actor(
    did: string, tenant: string, space: string, purpose: string, clearance: int, canMutate: bool)

  /** A memory's state; a caller may store one under a name of its own. */
  datatype Status = Current | Superseded | Forgotten | OtherStatus(name: string)

  /** Dates are day numbers. */
  datatype Memory = Memory(
    memoryId: string, text: string, source: string, sourceDigest: string, tenant: string, space: string,
    sensitivity: int, validFrom: int, validUntil: Option<int>, status: Status, derivedFrom: seq<string>,
    purpose: string)

  /** The digest of a text, or of a printed ranking, or no receipt at all. */
  datatype Receipt =
    | NoReceipt
    | TextDigest(text: string)
    | RankingDigest(ranked: seq<(int, string)>)

  datatype Decision = Decision(allowed: bool, ids: seq<string>, error: string, receipt: Receipt)

  function Denied(error: string): Decision {
    Decision(false, [], error, NoReceipt)
  }

  // ---------------------------------------------------------------------------
  // Words
  // ---------------------------------------------------------------------------

  function Lower(c: char): char {
    if 'A' <= c <= 'Z' then c - 'A' + 'a' else c
  }

  function LowerAll(s: string): string {
    seq(|s|, i requires 0 <= i < |s| => Lower(s[i]))
  }

  predicate TokenChar(c: char) {
    'a' <= c <= 'z' || '0' <= c <= '9'
  }

  /** The length of the longest prefix of token characters. */
  function RunLength(s: string): (n: nat)
    ensures n <= |s|
  {
    if s == [] || !TokenChar(s[0]) then 0 else 1 + RunLength(s[1..])
  }

  /** `TOKEN.findall(s)`: the maximal runs of token characters, left to right. */
  function Tokens(s: string): seq<string>
    decreases |s|
  {
    if s == [] then []
    else if !TokenChar(s[0]) then Tokens(s[1..])
    else
      assert RunLength(s) > 0;
      [s[..RunLength(s)]] + Tokens(s[RunLength(s)..])
  }

  function Words(value: string): set<string> {
    set w | w in Tokens(LowerAll(value))
  }

  // ---------------------------------------------------------------------------
  // The store
  // ---------------------------------------------------------------------------

  /** `order` is the order in which the dictionary of memories yields its keys. */
  datatype State = State(
    memories: map<string, Memory>, order: seq<string>, nonces: set<(string, string)>,
    idempotency: map<string, Decision>)

  const EmptyState := State(map[], [], {}, map[])

  ghost predicate Ordered(s: State) {
    && (forall k :: k in s.order <==> k in s.memories)
    && (forall i, j :: 0 <= i < j < |s.order| ==> s.order[i] != s.order[j])
  }

  /** Assignment to a dictionary key: a new key goes last, an old one keeps its place. */
  function Put(s: State, key: string, m: Memory): State {
    s.(memories := s.memories[key := m], order := if key in s.memories then s.order else s.order + [key])
  }

  datatype Call =
    | Remember(memory: Memory, actor: Actor, nonce: string)
    | Recall(query: string, actor: Actor, asOf: int, nonce: string)
    | Improve(memoryId: string, replacement: Memory, actor: Actor, nonce: string, expectedDigest: string, key: string)
    | Forget(memoryId: string, actor: Actor, nonce: string)
    | Restart

  predicate Authorized(m: Memory, actor: Actor) {
    && m.tenant == actor.tenant
    && m.space == actor.space
    && m.sensitivity <= actor.clearance
    && m.purpose == actor.purpose
  }

  predicate Unclaimed(s: State, actor: Actor, nonce: string) {
    (actor.did, nonce) !in s.nonces
  }

  /** The state once the nonce is burned, which an attempt does whether or not it is fresh. */
  function Claimed(s: State, actor: Actor, nonce: string): State {
    s.(nonces := s.nonces + {(actor.did, nonce)})
  }

  function RememberStep(s: State, m: Memory, actor: Actor, nonce: string): (State, Decision) {
    var s1 := Claimed(s, actor, nonce);
    if !Unclaimed(s, actor, nonce) || !actor.canMutate then (s1, Denied("replay-or-mutation-denied"))
    else if |m.text| > MAX_TEXT_CHARS then (s1, Denied("oversized-memory"))
    else if m.tenant != actor.tenant || m.space != actor.space then (s1, Denied("scope-denied"))
    else if m.sensitivity > actor.clearance then (s1, Denied("clearance-denied"))
    else
      (Put(s1, m.memoryId, m),
       Decision(true, [m.memoryId], "", TextDigest("remember:" + m.memoryId + ":" + m.sourceDigest)))
  }

  predicate InWindow(m: Memory, asOf: int) {
    m.validFrom <= asOf && (m.validUntil.Some? ==> asOf < m.validUntil.value)
  }

  /** May the actor see this memory at this date at all? */
  predicate Visible(m: Memory, actor: Actor, asOf: int) {
    m.status == Current && Authorized(m, actor) && InWindow(m, asOf)
  }

  function Score(query: string, m: Memory): nat {
    |Words(query) * Words(m.text)|
  }

  /** What the recall loop collects from the memories under `keys`, in their order. */
  function Ranked(memories: map<string, Memory>, keys: seq<string>, query: string, actor: Actor, asOf: int)
    : seq<(int, string)>
    requires forall k :: k in keys ==> k in memories
  {
    if keys == [] then []
    else
      var last := keys[|keys| - 1];
      var m := memories[last];
      Ranked(memories, keys[..|keys| - 1], query, actor, asOf)
      + if Visible(m, actor, asOf) && Score(query, m) > 0 then [(Score(query, m), m.memoryId)] else []
  }

  /** Higher scores first, then smaller ids: Python's order on `(-score, id)`. */
  predicate RankLeq(a: (int, string), b: (int, string)) {
    a.0 > b.0 || (a.0 == b.0 && LexLeq(a.1, b.1))
  }

  lemma {:induction false} RankIsTotalOrder()
    ensures TotalOrder(RankLeq)
  {
    LexIsTotalOrder();
  }

  function SortRanked(ranked: seq<(int, string)>): (r: seq<(int, string)>)
    ensures Sorted(RankLeq, r) && multiset(r) == multiset(ranked)
  {
    RankIsTotalOrder();
    Sort(RankLeq, ranked)
  }

  function Second(ranked: seq<(int, string)>): seq<string> {
    seq(|ranked|, i requires 0 <= i < |ranked| => ranked[i].1)
  }

  function RecallStep(s: State, query: string, actor: Actor, asOf: int, nonce: string): (State, Decision)
    requires Ordered(s)
  {
    var s1 := Claimed(s, actor, nonce);
    if !Unclaimed(s, actor, nonce) then (s1, Denied("replay"))
    else if |query| > MAX_QUERY_CHARS then (s1, Denied("oversized-query"))
    else
      var ranked := SortRanked(Ranked(s.memories, s.order, query, actor, asOf));
      (s1, Decision(true, Second(ranked), "", RankingDigest(ranked)))
  }

  function ImproveStep(s: State, id: string, replacement: Memory, actor: Actor, nonce: string,
                       expectedDigest: string, key: string)
    : (State, Decision)
  {
    var s1 := Claimed(s, actor, nonce);
    if !Unclaimed(s, actor, nonce) || !actor.canMutate then (s1, Denied("replay-or-mutation-denied"))
    else if key in s.idempotency then (s1, s.idempotency[key])
    else if id !in s.memories || s.memories[id].sourceDigest != expectedDigest then (s1, Denied("stale-source"))
    else if !Authorized(s.memories[id], actor) || replacement.sensitivity > actor.clearance then
      (s1, Denied("authorization-denied"))
    else
      var d := Decision(true, [id, replacement.memoryId], "",
                        TextDigest("improve:" + id + ":" + replacement.memoryId));
      var s2 := Put(s1, id, s.memories[id].(status := Superseded));
      var s3 := Put(s2, replacement.memoryId, replacement);
      (s3.(idempotency := s.idempotency[key := d]), d)
  }

  /** A memory after something it may be derived from was forgotten. */
  function Marked(m: Memory, id: string): Memory {
    if id in m.derivedFrom then m.(status := Forgotten) else m
  }

  /** Forgetting `id` takes with it every memory that lists it among its sources. */
  function Cascade(memories: map<string, Memory>, id: string): map<string, Memory> {
    map k | k in memories :: if k == id then memories[k].(status := Forgotten) else Marked(memories[k], id)
  }

  function ForgetStep(s: State, id: string, actor: Actor, nonce: string): (State, Decision) {
    var s1 := Claimed(s, actor, nonce);
    if !Unclaimed(s, actor, nonce) || !actor.canMutate then (s1, Denied("replay-or-mutation-denied"))
    else if id !in s.memories || !Authorized(s.memories[id], actor) then (s1, Denied("authorization-denied"))
    else (s1.(memories := Cascade(s.memories, id)), Decision(true, [id], "", TextDigest("forget:" + id)))
  }

  function Step(s: State, c: Call): (State, Decision)
    requires Ordered(s)
  {
    match c
    case Remember(m, actor, nonce) => RememberStep(s, m, actor, nonce)
    case Recall(query, actor, asOf, nonce) => RecallStep(s, query, actor, asOf, nonce)
    case Improve(id, replacement, actor, nonce, digest, key) =>
      ImproveStep(s, id, replacement, actor, nonce, digest, key)
    case Forget(id, actor, nonce) => ForgetStep(s, id, actor, nonce)
    case Restart => (s, Decision(true, [], "", NoReceipt))
  }

  lemma PutOrdered(s: State, key: string, m: Memory)
    requires Ordered(s)
    ensures Ordered(Put(s, key, m))
  {
  }

  lemma ClaimedOrdered(s: State, actor: Actor, nonce: string)
    requires Ordered(s)
    ensures Ordered(Claimed(s, actor, nonce))
  {
  }

  lemma ImproveOrdered(s: State, c: Call)
    requires Ordered(s) && c.Improve?
    ensures Ordered(Step(s, c).0)
  {
    hide Put, Authorized;
    ClaimedOrdered(s, c.actor, c.nonce);
    if c.memoryId in s.memories {
      hide Ordered;
      var s1, m := Claimed(s, c.actor, c.nonce), s.memories[c.memoryId].(status := Superseded);
      PutOrdered(s1, c.memoryId, m);
      PutOrdered(Put(s1, c.memoryId, m), c.replacement.memoryId, c.replacement);
    }
  }

  lemma StepOrdered(s: State, c: Call)
    requires Ordered(s)
    ensures Ordered(Step(s, c).0)
  {
    hide SortRanked, Score, Put, Authorized;
    match c
    case Remember(m, actor, nonce) => PutOrdered(Claimed(s, actor, nonce), m.memoryId, m);
    case Improve(_, _, _, _, _, _) => ImproveOrdered(s, c);
    case _ =>
  }

  lemma CascadeInTwoSteps(before: map<string, Memory>, after: map<string, Memory>, id: string)
    requires id in before && after.Keys == before.Keys
    requires var first := before[id := before[id].(status := Forgotten)];
             forall k :: k in after ==> after[k] == Marked(first[k], id)
    ensures after == Cascade(before, id)
  {
  }

  class AdversarialBackend {
    var memories: map<string, Memory>
    var order: seq<string>
    var nonces: set<(string, string)>
    var idempotency: map<string, Decision>

    ghost function Snapshot(): State
      reads this
    {
      State(memories, order, nonces, idempotency)
    }

    ghost predicate Valid()
      reads this
    {
      Ordered(Snapshot())
    }

    constructor ()
      ensures Valid() && Snapshot() == EmptyState
    {
      memories, order, nonces, idempotency := map[], [], {}, map[];
    }

    method Claim(actor: Actor, nonce: string) returns (ok: bool)
      modifies `nonces
      ensures ok == Unclaimed(old(Snapshot()), actor, nonce)
      ensures Snapshot() == Claimed(old(Snapshot()), actor, nonce)
    {
      var key := (actor.did, nonce);
      if key in nonces {
        assert nonces == nonces + {key};
        return false;
      }
      nonces := nonces + {key};
      return true;
    }

    method Store(key: string, m: Memory)
      requires Valid()
      modifies `memories, `order
      ensures Valid() && Snapshot() == Put(old(Snapshot()), key, m)
    {
      if key !in memories {
        order := order + [key];
      }
      memories := memories[key := m];
    }

    method RememberMemory(m: Memory, actor: Actor, nonce: string) returns (d: Decision)
      requires Valid()
      modifies this
      ensures Valid() && (Snapshot(), d) == Step(old(Snapshot()), Remember(m, actor, nonce))
    {
      var claimed := Claim(actor, nonce);
      if !claimed || !actor.canMutate {
        return Denied("replay-or-mutation-denied");
      }
      if |m.text| > MAX_TEXT_CHARS {
        return Denied("oversized-memory");
      }
      if m.tenant != actor.tenant || m.space != actor.space {
        return Denied("scope-denied");
      }
      if m.sensitivity > actor.clearance {
        return Denied("clearance-denied");
      }
      Store(m.memoryId, m);
      d := Decision(true, [m.memoryId], "", TextDigest("remember:" + m.memoryId + ":" + m.sourceDigest));
    }

    method RecallIds(query: string, actor: Actor, asOf: int, nonce: string) returns (d: Decision)
      requires Valid()
      modifies `nonces
      ensures Valid() && (Snapshot(), d) == Step(old(Snapshot()), Recall(query, actor, asOf, nonce))
    {
      var claimed := Claim(actor, nonce);
      if !claimed {
        return Denied("replay");
      }
      if |query| > MAX_QUERY_CHARS {
        return Denied("oversized-query");
      }
      var queryWords := Words(query);
      var ranked: seq<(int, string)> := [];
      for i := 0 to |order|
        invariant ranked == Ranked(memories, order[..i], query, actor, asOf)
      {
        var m := memories[order[i]];
        assert order[..i + 1][..i] == order[..i];
        if m.status != Current || !Authorized(m, actor) {
          continue;
        }
        if m.validFrom > asOf || (m.validUntil.Some? && asOf >= m.validUntil.value) {
          continue;
        }
        var score := |queryWords * Words(m.text)|;
        if score > 0 {
          ranked := ranked + [(score, m.memoryId)];
        }
      }
      assert order[..|order|] == order;
      ranked := SortRanked(ranked);
      d := Decision(true, Second(ranked), "", RankingDigest(ranked));
    }

    method ImproveMemory(id: string, replacement: Memory, actor: Actor, nonce: string, expectedDigest: string,
                         key: string)
      returns (d: Decision)
      requires Valid()
      modifies this
      ensures Valid()
      ensures (Snapshot(), d) == Step(old(Snapshot()), Improve(id, replacement, actor, nonce, expectedDigest, key))
    {
      var claimed := Claim(actor, nonce);
      if !claimed || !actor.canMutate {
        return Denied("replay-or-mutation-denied");
      }
      if key in idempotency {
        return idempotency[key];
      }
      if id !in memories || memories[id].sourceDigest != expectedDigest {
        return Denied("stale-source");
      }
      if !Authorized(memories[id], actor) || replacement.sensitivity > actor.clearance {
        return Denied("authorization-denied");
      }
      Store(id, memories[id].(status := Superseded));
      Store(replacement.memoryId, replacement);
      d := Decision(true, [id, replacement.memoryId], "",
                    TextDigest("improve:" + id + ":" + replacement.memoryId));
      idempotency := idempotency[key := d];
    }

    method ForgetMemory(id: string, actor: Actor, nonce: string) returns (d: Decision)
      requires Valid()
      modifies this
      ensures Valid() && (Snapshot(), d) == Step(old(Snapshot()), Forget(id, actor, nonce))
    {
      var claimed := Claim(actor, nonce);
      if !claimed || !actor.canMutate {
        return Denied("replay-or-mutation-denied");
      }
      if id !in memories || !Authorized(memories[id], actor) {
        return Denied("authorization-denied");
      }
      memories := memories[id := memories[id].(status := Forgotten)];
      ForgetDerived(id);
      CascadeInTwoSteps(old(memories), memories, id);
      d := Decision(true, [id], "", TextDigest("forget:" + id));
    }

    /** The cascade loop, over a copy of the dictionary taken before it starts. */
    method ForgetDerived(id: string)
      requires Valid()
      modifies `memories
      ensures memories.Keys == old(memories).Keys
      ensures forall k :: k in memories ==> memories[k] == Marked(old(memories)[k], id)
    {
      var items := memories;
      for i := 0 to |order|
        invariant memories.Keys == items.Keys
        invariant forall j :: 0 <= j < |order| ==>
                    memories[order[j]] == if j < i then Marked(items[order[j]], id) else items[order[j]]
      {
        var key := order[i];
        if id in items[key].derivedFrom {
          memories := memories[key := items[key].(status := Forgotten)];
        }
      }
      forall k | k in memories
        ensures memories[k] == Marked(items[k], id)
      {
        assert k in order;
      }
    }

    method RestartBackend() returns (other: AdversarialBackend)
      requires Valid()
      ensures fresh(other) && other.Valid() && other.Snapshot() == Step(Snapshot(), Restart).0
    {
      other := new AdversarialBackend();
      other.memories, other.order := memories, order;
      other.nonces, other.idempotency := nonces, idempotency;
    }
  }
}
