/** Which commits win: what a table's pointer says of its history, and what an idempotency key
    promises. */
module CatalogCommits {
  import opened Wrappers
  import opened Catalog
  import opened CatalogRuns

  // ---------------------------------------------------------------------------
  // Pointers between creates
  // ---------------------------------------------------------------------------

  /** The stored pointer names its table and encodes its snapshot. */
  ghost predicate PointerNames(t: Text, entry: Table) {
    if entry.snapshotId == 0 then entry.metadata == CreationPointer(t)
    else
      && entry.metadata.CommitPointer?
      && entry.metadata.table == t
      && entry.metadata.snapshot == entry.snapshotId
  }

  lemma {:induction false} PointersName(calls: seq<Call>, t: Text)
    requires t in Run(calls).tables
    ensures PointerNames(t, Run(calls).tables[t])
  {
    RunChained(calls);
  }

  lemma {:induction false} SnapshotsGrow(calls: seq<Call>, t: Text, i: nat, j: nat)
    requires i <= j <= |calls| && t in At(calls, i).tables
    requires forall k :: i <= k < j ==> !Creates(calls[k], t)
    ensures t in At(calls, j).tables
    ensures At(calls, i).tables[t].snapshotId <= At(calls, j).tables[t].snapshotId
    decreases j
  {
    if i == j {
    } else {
      hide Step, Wins;
      SnapshotsGrow(calls, t, i, j - 1);
      AtNext(calls, j - 1);
      SnapshotNext(At(calls, j - 1), calls[j - 1], t);
    }
  }

  lemma SnapshotNext(s: State, c: Call, t: Text)
    requires t in s.tables && !Creates(c, t)
    ensures t in Step(s, c).0.tables && s.tables[t].snapshotId <= Step(s, c).0.tables[t].snapshotId
  {
    hide CommitReceipt, DropReceipt;
  }

  /** Between two creates of a table at most one commit wins on a given expected pointer:
      two that won on the same pointer have a create of that table between them. */
  lemma OneWinnerPerPointer(calls: seq<Call>, i: nat, j: nat)
    requires i < j < |calls| && calls[i].CommitCall? && calls[j].CommitCall?
    requires calls[i].table == calls[j].table && calls[i].expected == calls[j].expected
    requires Wins(At(calls, i), calls[i]) && Wins(At(calls, j), calls[j])
    ensures exists k :: i < k < j && Creates(calls[k], calls[i].table)
  {
    var t := calls[i].table;
    if forall k :: i < k < j ==> !Creates(calls[k], t) {
      AtNext(calls, i);
      SnapshotsGrow(calls, t, i + 1, j);
      PointersName(calls[..i], t);
      PointersName(calls[..j], t);
      assert false;
    }
  }

  /** Between creates, a table's pointers at two moments are equal exactly when no commit
      to it won in between. */
  lemma PointersDistinct(calls: seq<Call>, t: Text, i: nat, j: nat)
    requires i <= j <= |calls| && t in At(calls, i).tables
    requires forall k :: i <= k < j ==> !Creates(calls[k], t)
    ensures t in At(calls, j).tables
    ensures At(calls, i).tables[t].metadata == At(calls, j).tables[t].metadata <==>
            forall k :: i <= k < j && calls[k].CommitCall? && calls[k].table == t ==> !Wins(At(calls, k), calls[k])
  {
    SnapshotsGrow(calls, t, i, j);
    PointersName(calls[..i], t);
    PointersName(calls[..j], t);
    if k :| i <= k < j && calls[k].CommitCall? && calls[k].table == t && Wins(At(calls, k), calls[k]) {
      SnapshotsGrow(calls, t, i, k);
      AtNext(calls, k);
      SnapshotsGrow(calls, t, k + 1, j);
    } else {
      PointerStands(calls, t, i, j);
    }
  }

  lemma {:induction false} PointerStands(calls: seq<Call>, t: Text, i: nat, j: nat)
    requires i <= j <= |calls| && t in At(calls, i).tables
    requires forall k :: i <= k < j ==> !Creates(calls[k], t)
    requires forall k :: i <= k < j && calls[k].CommitCall? && calls[k].table == t ==> !Wins(At(calls, k), calls[k])
    ensures t in At(calls, j).tables && At(calls, i).tables[t].metadata == At(calls, j).tables[t].metadata
    decreases j
  {
    if i == j {
    } else {
      PointerStands(calls, t, i, j - 1);
      AtNext(calls, j - 1);
    }
  }

  // ---------------------------------------------------------------------------
  // The exact extent, creates or not
  // ---------------------------------------------------------------------------

  /** The commits to `t` that won since its last create: how many, and what the last one wrote. */
  function Since(calls: seq<Call>, t: Text): (nat, Text) {
    if calls == [] then (0, EMPTY)
    else
      var before, c := calls[..|calls| - 1], calls[|calls| - 1];
      if Creates(c, t) then (0, EMPTY)
      else if c.CommitCall? && c.table == t && Wins(Run(before), c) then (Since(before, t).0 + 1, c.update)
      else Since(before, t)
  }

  /** The pointer that history leaves. */
  function PointerAfter(t: Text, since: (nat, Text)): Text {
    if since.0 == 0 then CreationPointer(t) else CommitPointer(t, since.0, since.1)
  }

  lemma SinceAppend(calls: seq<Call>, c: Call, t: Text)
    ensures Since(calls + [c], t)
         == if Creates(c, t) then (0, EMPTY)
            else if c.CommitCall? && c.table == t && Wins(Run(calls), c) then (Since(calls, t).0 + 1, c.update)
            else Since(calls, t)
  {
    assert (calls + [c])[..|calls|] == calls;
    hide Run, Wins;
  }

  lemma StepSince(calls: seq<Call>, c: Call, t: Text)
    requires t in Step(Run(calls), c).0.tables
    requires t in Run(calls).tables ==>
               var (entry, since) := (Run(calls).tables[t], Since(calls, t));
               entry.snapshotId == since.0 && entry.metadata == PointerAfter(t, since)
    ensures var (entry, since) := (Step(Run(calls), c).0.tables[t], Since(calls + [c], t));
            entry.snapshotId == since.0 && entry.metadata == PointerAfter(t, since)
  {
    SinceAppend(calls, c, t);
    hide Run, Since;
    if Creates(c, t) {
      assert Step(Run(calls), c).0.tables[t] == Table(CreationPointer(t), 0, EMPTY, false);
    } else if Wins(Run(calls), c) && c.table == t {
      hide Step;
      if c.CommitCall? {
        CommitWins(Run(calls), c);
      } else {
        DropWins(Run(calls), c);
      }
    } else {
      hide Step;
      TableStands(Run(calls), c, t);
    }
  }

  /** In every run a table's pointer says exactly how many commits to it have won since its last
      create and what the last of them wrote. */
  lemma {:induction false} PointerIsHistory(calls: seq<Call>, t: Text)
    requires t in Run(calls).tables
    ensures Run(calls).tables[t].snapshotId == Since(calls, t).0
    ensures Run(calls).tables[t].metadata == PointerAfter(t, Since(calls, t))
  {
    if calls == [] {
      assert false;
    } else {
      var before, c := calls[..|calls| - 1], calls[|calls| - 1];
      assert before + [c] == calls;
      if t in Run(before).tables {
        PointerIsHistory(before, t);
      }
      hide Step, Since;
      StepSince(before, c, t);
    }
  }

  /** At any two moments, of one run or of two, pointers are equal exactly when they are of one
      table, as many commits to it have won since its last create, and, if any has, the last
      one wrote the same. */
  lemma {:induction false} PointersEqualExactly(calls: seq<Call>, t: Text, calls': seq<Call>, t': Text)
    requires t in Run(calls).tables && t' in Run(calls').tables
    ensures Run(calls).tables[t].metadata == Run(calls').tables[t'].metadata <==>
            var since, since' := Since(calls, t), Since(calls', t');
            t == t' && since.0 == since'.0 && (since.0 > 0 ==> since.1 == since'.1)
  {
    hide Run, Since;
    PointerIsHistory(calls, t);
    PointerIsHistory(calls', t');
  }

  /** So an assertion read off a table at one moment wins at a later one exactly when the table
      is live, the call is within bounds and under no used key, and the history since the last
      create is alike: a create in between makes a stale assertion win again. */
  lemma {:induction false} AssertionWinsExactly(calls: seq<Call>, i: nat, j: nat, c: Call)
    requires i <= j <= |calls| && c.CommitCall? && c.table in At(calls, i).tables
    requires c.expected == At(calls, i).tables[c.table].metadata
    ensures Wins(At(calls, j), c) <==>
            && Live(At(calls, j), c.table) && !Oversized(c.update, c.policy)
            && (c.key == EMPTY || c.key !in At(calls, j).idempotency)
            && var since, since' := Since(calls[..i], c.table), Since(calls[..j], c.table);
               since.0 == since'.0 && (since.0 > 0 ==> since.1 == since'.1)
  {
    hide Run, Since;
    if c.table in At(calls, j).tables {
      PointersEqualExactly(calls[..i], c.table, calls[..j], c.table);
    }
  }

  /** The smallest such run: create, commit, create, commit, both commits on the first pointer. */
  lemma RecreateReusesPointer()
    ensures var t := Plain("t");
            var create := CreateCall(t, EMPTY);
            var commit := CommitCall(t, CreationPointer(t), EMPTY, EMPTY, EMPTY, EMPTY, EMPTY);
            var calls := [create, commit, create, commit];
            Wins(At(calls, 1), calls[1]) && Wins(At(calls, 3), calls[3])
  {
  }

  // ---------------------------------------------------------------------------
  // Idempotency keys
  // ---------------------------------------------------------------------------

  lemma {:induction false} KeysKept(calls: seq<Call>, key: Text, i: nat, j: nat)
    requires i <= j <= |calls| && key in At(calls, i).idempotency
    ensures key in At(calls, j).idempotency && At(calls, j).idempotency[key] == At(calls, i).idempotency[key]
    decreases j
  {
    if i == j {
    } else {
      KeysKept(calls, key, i, j - 1);
      AtNext(calls, j - 1);
    }
  }

  /** Once a commit under a non-empty key has won, no later commit with that key ever wins,
      and each one that is not oversized gets the first outcome back unchanged, whatever
      else it asks for and whatever happened meanwhile. */
  lemma KeyWinsOnce(calls: seq<Call>, i: nat, j: nat)
    requires i < j < |calls| && calls[i].CommitCall? && calls[j].CommitCall?
    requires calls[i].key == calls[j].key != EMPTY && Wins(At(calls, i), calls[i])
    ensures !Wins(At(calls, j), calls[j])
    ensures At(calls, j + 1) == At(calls, j)
    ensures !Oversized(calls[j].update, calls[j].policy) ==> Answer(calls, j) == Answer(calls, i)
  {
    AtNext(calls, i);
    KeysKept(calls, calls[i].key, i + 1, j);
    AtNext(calls, j);
  }

  /** The receipt is evidence of this very request: its arguments, principal and policy. */
  predicate Attests(r: Receipt, c: Call)
    requires c.CommitCall?
  {
    && r.requestHash == CommitRequest(c.table, c.expected, c.update, c.nonce)
    && r.principal == c.principal && r.policyHash == PolicyDigest(c.policy)
  }

  /** What a commit under a used key gets back attests its own request exactly when it repeats
      the first call in every argument. */
  lemma RetryAttestsExactly(calls: seq<Call>, i: nat, j: nat)
    requires i < j < |calls| && calls[i].CommitCall? && calls[j].CommitCall?
    requires calls[i].key == calls[j].key != EMPTY && Wins(At(calls, i), calls[i])
    requires !Oversized(calls[j].update, calls[j].policy)
    ensures Answer(calls, j).ok && Answer(calls, j).receipt.Some?
    ensures Attests(Answer(calls, j).receipt.value, calls[j]) <==> calls[i] == calls[j]
  {
    KeyWinsOnce(calls, i, j);
    StepEvidence(At(calls, i), calls[i]);
    hide At;
    assert Answer(calls, i).receipt == Some(CommitReceipt(At(calls, i).tables[calls[i].table], calls[i]));
  }

  /** So a "retry" that asks for something else is told it succeeded: here the table was even
      dropped in between, and the second request is for another table and by someone else. */
  lemma RetryOfAnotherRequest()
    ensures var t := Plain("t");
            var first := CommitCall(t, CreationPointer(t), Plain("a"), Plain("ada"), EMPTY, EMPTY, Plain("key"));
            var other := CommitCall(Plain("u"), EMPTY, Plain("b"), Plain("bob"), EMPTY, EMPTY, Plain("key"));
            var calls := [CreateCall(t, EMPTY), first, TombstoneCall(t, EMPTY, EMPTY, EMPTY), other];
            && Answer(calls, 3) == Answer(calls, 1) && Answer(calls, 3).ok && Answer(calls, 3).receipt.Some?
            && !Attests(Answer(calls, 3).receipt.value, other)
  {
    var t := Plain("t");
    var first := CommitCall(t, CreationPointer(t), Plain("a"), Plain("ada"), EMPTY, EMPTY, Plain("key"));
    var other := CommitCall(Plain("u"), EMPTY, Plain("b"), Plain("bob"), EMPTY, EMPTY, Plain("key"));
    var calls := [CreateCall(t, EMPTY), first, TombstoneCall(t, EMPTY, EMPTY, EMPTY), other];
    AtNext(calls, 0);
    assert Wins(At(calls, 1), first);
    hide At, Wins;
    KeyWinsOnce(calls, 1, 3);
    RetryAttestsExactly(calls, 1, 3);
  }
}
