/** What every run of the catalog keeps.  A run is any sequence of calls, restarts
    included, from the empty catalog. */
module CatalogRuns {
  import opened Wrappers
  import opened Catalog

  function Run(calls: seq<Call>): State {
    if calls == [] then EmptyState else Step(Run(calls[..|calls| - 1]), calls[|calls| - 1]).0
  }

  /** The state before call `i` (or after the whole run, when i == |calls|). */
  function At(calls: seq<Call>, i: nat): State
    requires i <= |calls|
  {
    Run(calls[..i])
  }

  function Answer(calls: seq<Call>, i: nat): Outcome
    requires i < |calls|
  {
    Step(At(calls, i), calls[i]).1
  }

  lemma AtNext(calls: seq<Call>, i: nat)
    requires i < |calls|
    ensures At(calls, i + 1) == Step(At(calls, i), calls[i]).0
  {
    assert calls[..i + 1][..i] == calls[..i];
  }

  /** The call changes a table through a receipt: a commit that is neither refused nor
      a retry, or the drop of a live table. */
  predicate Wins(s: State, c: Call) {
    match c
    case CommitCall(t, expected, update, _, policy, _, key) =>
      && !Oversized(update, policy)
      && (key == EMPTY || key !in s.idempotency)
      && Live(s, t)
      && expected == s.tables[t].metadata
    case TombstoneCall(t, _, _, _) => Live(s, t)
    case _ => false
  }

  predicate Creates(c: Call, t: Text) {
    c.CreateCall? && c.table == t
  }

  // ---------------------------------------------------------------------------
  // Receipt chains
  // ---------------------------------------------------------------------------

  ghost predicate Recorded(receipts: map<Text, Receipt>, h: Text) {
    h in receipts && receipts[h].receiptHash == h && receipts[h].Verifies()
  }

  /** Follow `prev_receipt` from `h` to the empty hash: the receipts met, newest first,
      or None when the walk meets a hash with no verifying receipt of its own. */
  ghost function History(receipts: map<Text, Receipt>, h: Text): Option<seq<Receipt>>
    decreases h
  {
    if h == EMPTY then Some([])
    else if !Recorded(receipts, h) then None
    else
      match History(receipts, receipts[h].prevReceipt)
      case None => None
      case Some(older) => Some([receipts[h]] + older)
  }

  /** `h` heads a chain of exactly `n` commits to `t` that ends at `pointer`. */
  ghost predicate Chain(receipts: map<Text, Receipt>, t: Text, h: Text, n: nat, pointer: Text)
    decreases n
  {
    if n == 0 then h == EMPTY && pointer == CreationPointer(t)
    else
      && Recorded(receipts, h)
      && var r := receipts[h];
      && r.table == t && r.kind == Commit && r.snapshotId == n && r.newMetadata == pointer
      && pointer.CommitPointer? && pointer.table == t && pointer.snapshot == n
      && Chain(receipts, t, r.prevReceipt, n - 1, r.previousMetadata)
  }

  ghost predicate Dropped(r: Receipt, t: Text, entry: Table) {
    r.table == t && r.kind == Tombstone && r.snapshotId == entry.snapshotId && r.previousMetadata == entry.metadata
  }

  ghost predicate Chained(receipts: map<Text, Receipt>, t: Text, entry: Table) {
    if entry.tombstoned then
      && Recorded(receipts, entry.headReceipt)
      && Dropped(receipts[entry.headReceipt], t, entry)
      && Chain(receipts, t, receipts[entry.headReceipt].prevReceipt, entry.snapshotId, entry.metadata)
    else Chain(receipts, t, entry.headReceipt, entry.snapshotId, entry.metadata)
  }

  ghost predicate ReceiptsSound(receipts: map<Text, Receipt>) {
    forall h :: h in receipts ==> Recorded(receipts, h)
  }

  ghost predicate Grows(rs: map<Text, Receipt>, rs': map<Text, Receipt>) {
    forall h :: h in rs ==> h in rs' && rs'[h] == rs[h]
  }

  lemma {:induction false} ChainGrows(rs: map<Text, Receipt>, rs': map<Text, Receipt>, t: Text, h: Text, n: nat,
                                      pointer: Text)
    requires Grows(rs, rs') && Chain(rs, t, h, n, pointer)
    ensures Chain(rs', t, h, n, pointer)
    decreases n
  {
    if n > 0 {
      ChainGrows(rs, rs', t, rs[h].prevReceipt, n - 1, rs[h].previousMetadata);
    }
  }

  /** A sealed receipt can only be stored over itself: its hash fixes every field. */
  lemma AddReceipt(receipts: map<Text, Receipt>, r: Receipt)
    requires ReceiptsSound(receipts) && r.Verifies()
    ensures ReceiptsSound(receipts[r.receiptHash := r]) && Grows(receipts, receipts[r.receiptHash := r])
  {
  }

  /** One call only ever adds receipts, each under its own seal. */
  lemma {:induction false} StepReceipts(s: State, c: Call)
    requires ReceiptsSound(s.receipts)
    ensures ReceiptsSound(Step(s, c).0.receipts) && Grows(s.receipts, Step(s, c).0.receipts)
  {
    hide Step, ReceiptsSound;
    if Wins(s, c) && c.CommitCall? {
      CommitWins(s, c);
      AddReceipt(s.receipts, CommitReceipt(s.tables[c.table], c));
    } else if Wins(s, c) {
      DropWins(s, c);
      AddReceipt(s.receipts, DropReceipt(s.tables[c.table], c));
    } else {
      StepEvidence(s, c);
    }
  }

  lemma CommitExtends(receipts: map<Text, Receipt>, entry: Table, c: Call)
    requires c.CommitCall? && ReceiptsSound(receipts)
    requires Chained(receipts, c.table, entry) && !entry.tombstoned && c.expected == entry.metadata
    ensures var r := CommitReceipt(entry, c);
            Chained(receipts[r.receiptHash := r], c.table,
                    Table(r.newMetadata, entry.snapshotId + 1, r.receiptHash, false))
  {
    var r := CommitReceipt(entry, c);
    AddReceipt(receipts, r);
    ChainGrows(receipts, receipts[r.receiptHash := r], c.table, entry.headReceipt, entry.snapshotId, entry.metadata);
  }

  lemma DropExtends(receipts: map<Text, Receipt>, entry: Table, c: Call)
    requires c.TombstoneCall? && ReceiptsSound(receipts)
    requires Chained(receipts, c.table, entry) && !entry.tombstoned
    ensures var r := DropReceipt(entry, c);
            Chained(receipts[r.receiptHash := r], c.table,
                    Table(entry.metadata, entry.snapshotId, r.receiptHash, true))
  {
    var r := DropReceipt(entry, c);
    AddReceipt(receipts, r);
    ChainGrows(receipts, receipts[r.receiptHash := r], c.table, entry.headReceipt, entry.snapshotId, entry.metadata);
  }

  lemma ChainedGrows(rs: map<Text, Receipt>, rs': map<Text, Receipt>, t: Text, entry: Table)
    requires Grows(rs, rs') && Chained(rs, t, entry)
    ensures Chained(rs', t, entry)
  {
    var h := if entry.tombstoned then rs[entry.headReceipt].prevReceipt else entry.headReceipt;
    ChainGrows(rs, rs', t, h, entry.snapshotId, entry.metadata);
  }

  ghost predicate AllChained(s: State) {
    ReceiptsSound(s.receipts) && forall t :: t in s.tables ==> Chained(s.receipts, t, s.tables[t])
  }

  lemma CommitWins(s: State, c: Call)
    requires c.CommitCall? && Wins(s, c)
    ensures var (s', r) := (Step(s, c).0, CommitReceipt(s.tables[c.table], c));
            && s'.receipts == s.receipts[r.receiptHash := r]
            && s'.tables
               == s.tables[c.table := Table(r.newMetadata, s.tables[c.table].snapshotId + 1, r.receiptHash, false)]
  {
  }

  lemma DropWins(s: State, c: Call)
    requires c.TombstoneCall? && Wins(s, c)
    ensures var (s', r) := (Step(s, c).0, DropReceipt(s.tables[c.table], c));
            && s'.receipts == s.receipts[r.receiptHash := r]
            && s'.tables == s.tables[c.table := s.tables[c.table].(headReceipt := r.receiptHash, tombstoned := true)]
  {
  }

  lemma CreateChains(s: State, c: Call, t: Text)
    requires Creates(c, t)
    ensures Chained(Step(s, c).0.receipts, t, Step(s, c).0.tables[t])
  {
  }

  lemma TableStands(s: State, c: Call, t: Text)
    requires t in Step(s, c).0.tables && !Creates(c, t) && !(Wins(s, c) && c.table == t)
    ensures t in s.tables && Step(s, c).0.tables[t] == s.tables[t]
  {
  }

  lemma {:induction false} TableChained(s: State, c: Call, t: Text)
    requires AllChained(s) && t in Step(s, c).0.tables
    ensures Chained(Step(s, c).0.receipts, t, Step(s, c).0.tables[t])
  {
    hide Step, Chained, ReceiptsSound, CommitReceipt, DropReceipt;
    if Creates(c, t) {
      CreateChains(s, c, t);
    } else if Wins(s, c) && c.table == t && c.CommitCall? {
      CommitWins(s, c);
      CommitExtends(s.receipts, s.tables[t], c);
    } else if Wins(s, c) && c.table == t {
      DropWins(s, c);
      DropExtends(s.receipts, s.tables[t], c);
    } else {
      TableStands(s, c, t);
      StepReceipts(s, c);
      ChainedGrows(s.receipts, Step(s, c).0.receipts, t, s.tables[t]);
    }
  }

  lemma {:induction false} StepChained(s: State, c: Call)
    requires AllChained(s)
    ensures AllChained(Step(s, c).0)
  {
    StepReceipts(s, c);
    forall t | t in Step(s, c).0.tables
      ensures Chained(Step(s, c).0.receipts, t, Step(s, c).0.tables[t])
    {
      TableChained(s, c, t);
    }
  }

  lemma {:induction false} RunChained(calls: seq<Call>)
    ensures AllChained(Run(calls))
  {
    if calls == [] {
    } else {
      RunChained(calls[..|calls| - 1]);
      StepChained(Run(calls[..|calls| - 1]), calls[|calls| - 1]);
    }
  }

  /** The receipts of a walk over `n` commits to `t` ending at `pointer`. */
  ghost predicate CommitWalk(walk: seq<Receipt>, t: Text, n: nat, pointer: Text) {
    && |walk| == n
    && (forall i :: 0 <= i < n ==>
          && walk[i].Verifies() && walk[i].table == t && walk[i].kind == Commit
          && walk[i].snapshotId == n - i
          && walk[i].previousMetadata == (if i + 1 < n then walk[i + 1].newMetadata else CreationPointer(t)))
    && pointer == (if n > 0 then walk[0].newMetadata else CreationPointer(t))
  }

  lemma {:induction false} ChainHistory(receipts: map<Text, Receipt>, t: Text, h: Text, n: nat, pointer: Text)
    requires Chain(receipts, t, h, n, pointer)
    ensures History(receipts, h).Some? && CommitWalk(History(receipts, h).value, t, n, pointer)
    decreases n
  {
    if n > 0 {
      var r := receipts[h];
      ChainHistory(receipts, t, r.prevReceipt, n - 1, r.previousMetadata);
      var older := History(receipts, r.prevReceipt).value;
      var walk := [r] + older;
      assert History(receipts, h) == Some(walk);
      forall i | 0 < i < n
        ensures walk[i] == older[i - 1]
      {
      }
    }
  }

  /** The walk behind a table: its drop first if it was dropped, then its commits. */
  ghost predicate TableWalk(walk: seq<Receipt>, t: Text, entry: Table) {
    if entry.tombstoned then
      && |walk| == entry.snapshotId + 1
      && walk[0].Verifies() && Dropped(walk[0], t, entry)
      && CommitWalk(walk[1..], t, entry.snapshotId, entry.metadata)
    else CommitWalk(walk, t, entry.snapshotId, entry.metadata)
  }

  lemma ChainedHistory(receipts: map<Text, Receipt>, t: Text, entry: Table)
    requires Chained(receipts, t, entry)
    ensures var h := History(receipts, entry.headReceipt); h.Some? && TableWalk(h.value, t, entry)
  {
    if entry.tombstoned {
      var r := receipts[entry.headReceipt];
      ChainHistory(receipts, t, r.prevReceipt, entry.snapshotId, entry.metadata);
      var older := History(receipts, r.prevReceipt).value;
      assert History(receipts, entry.headReceipt) == Some([r] + older);
      assert ([r] + older)[1..] == older;
    } else {
      ChainHistory(receipts, t, entry.headReceipt, entry.snapshotId, entry.metadata);
    }
  }

  /** In every reachable catalog the walk from a table's head receipt reaches the start in
      exactly `snapshotId` steps (one more for a dropped table); on the way every receipt
      verifies, names the table, counts the snapshots down to 1 and links to the pointer the
      next one asserted; and the newest commit installed the stored pointer. */
  lemma {:induction false} ChainWellFormed(calls: seq<Call>, t: Text)
    requires t in Run(calls).tables
    ensures var s := Run(calls);
            var h := History(s.receipts, s.tables[t].headReceipt);
            h.Some? && TableWalk(h.value, t, s.tables[t])
  {
    RunChained(calls);
    ChainedHistory(Run(calls).receipts, t, Run(calls).tables[t]);
  }

  // ---------------------------------------------------------------------------
  // Tamper evidence and replay
  // ---------------------------------------------------------------------------

  lemma {:induction false} SameHashSameHistory(rs: map<Text, Receipt>, rs': map<Text, Receipt>, h: Text)
    requires History(rs, h).Some? && History(rs', h).Some?
    ensures History(rs, h) == History(rs', h)
    decreases h
  {
    if h != EMPTY {
      assert rs[h] == rs'[h];
      SameHashSameHistory(rs, rs', rs[h].prevReceipt);
    }
  }

  /** A head hash commits to the whole past: take any store of receipts whatever, altered as
      one likes; if the walk from a table's recorded head verifies in it, it meets exactly the
      receipts the catalog recorded, in their order, down to the creation of the table. */
  lemma {:induction false} HeadDeterminesHistory(calls: seq<Call>, t: Text, store: map<Text, Receipt>)
    requires t in Run(calls).tables
    requires History(store, Run(calls).tables[t].headReceipt).Some?
    ensures var entry := Run(calls).tables[t];
            && History(store, entry.headReceipt) == History(Run(calls).receipts, entry.headReceipt)
            && TableWalk(History(store, entry.headReceipt).value, t, entry)
  {
    hide Run, History, TableWalk;
    ChainWellFormed(calls, t);
    SameHashSameHistory(Run(calls).receipts, store, Run(calls).tables[t].headReceipt);
  }

  lemma ReceiptsNext(calls: seq<Call>, i: nat)
    requires i < |calls|
    ensures Grows(At(calls, i).receipts, At(calls, i + 1).receipts)
  {
    AtNext(calls, i);
    RunChained(calls[..i]);
    StepReceipts(At(calls, i), calls[i]);
  }

  lemma {:induction false} ReceiptsKept(calls: seq<Call>, i: nat, j: nat)
    requires i <= j <= |calls|
    ensures Grows(At(calls, i).receipts, At(calls, j).receipts)
    decreases j
  {
    if i == j {
    } else {
      ReceiptsKept(calls, i, j - 1);
      ReceiptsNext(calls, j - 1);
    }
  }

  /** Once accepted, always accepted: through restarts, drops and re-creations. */
  lemma ReplayPermanent(calls: seq<Call>, i: nat, j: nat, r: Receipt)
    requires i <= j <= |calls| && Replays(At(calls, i), r)
    ensures Replays(At(calls, j), r)
  {
    ReceiptsKept(calls, i, j);
  }

  /** Some winning call among the first `n` answered with `r`. */
  ghost predicate Answered(calls: seq<Call>, n: nat, r: Receipt)
    requires n <= |calls|
  {
    exists i :: 0 <= i < n && Wins(At(calls, i), calls[i]) && Answer(calls, i).receipt == Some(r)
  }

  /** Replay accepts a receipt exactly when some earlier winning call of the run answered
      with that very receipt, field for field. */
  lemma {:induction false} ReplayExact(calls: seq<Call>, r: Receipt)
    ensures Replays(Run(calls), r) <==> Answered(calls, |calls|, r)
  {
    assert calls[..|calls|] == calls;
    if Replays(Run(calls), r) {
      ReceiptHasOrigin(calls, |calls|, r);
    }
    if Answered(calls, |calls|, r) {
      var i :| 0 <= i < |calls| && Wins(At(calls, i), calls[i]) && Answer(calls, i).receipt == Some(r);
      AnsweredReplays(calls, i, r);
      ReplayPermanent(calls, i + 1, |calls|, r);
    }
  }

  lemma AnsweredReplays(calls: seq<Call>, i: nat, r: Receipt)
    requires i < |calls| && Wins(At(calls, i), calls[i]) && Answer(calls, i).receipt == Some(r)
    ensures Replays(At(calls, i + 1), r)
  {
    AtNext(calls, i);
  }

  lemma NewReceipt(s: State, c: Call, r: Receipt)
    requires ReceiptsSound(s.receipts) && Replays(Step(s, c).0, r) && !Replays(s, r)
    ensures Wins(s, c) && Step(s, c).1.receipt == Some(r)
  {
  }

  lemma {:induction false} ReceiptHasOrigin(calls: seq<Call>, n: nat, r: Receipt)
    requires n <= |calls| && Replays(At(calls, n), r)
    ensures Answered(calls, n, r)
    decreases n
  {
    if n > 0 {
      AtNext(calls, n - 1);
      RunChained(calls[..n - 1]);
      if Replays(At(calls, n - 1), r) {
        ReceiptHasOrigin(calls, n - 1, r);
      } else {
        NewReceipt(At(calls, n - 1), calls[n - 1], r);
      }
    }
  }

  /** A receipt is evidence of one call: two winning calls, in whatever states, that answer
      with the same receipt asked for the same thing with the same arguments. */
  lemma ReceiptDeterminesCall(s: State, c: Call, s': State, c': Call)
    requires Wins(s, c) && Wins(s', c') && Step(s, c).1.receipt == Step(s', c').1.receipt
    ensures c == c'
  {
  }

  /** A scan receipt authorises exactly the policy it was planned under. */
  lemma ScanReceiptBindsPolicy(s: State, table: Text, principal: Text, policy: Text, expected: seq<Text>)
    requires Live(s, table)
    ensures var r := ScanStep(s, table, principal, policy).scanReceipt;
            r.Some? && (r.value.Verifies(expected) <==> expected == [PolicyDigest(policy)])
  {
  }

  // ---------------------------------------------------------------------------
  // Evidence conservation
  // ---------------------------------------------------------------------------

  /** The hashes of the run's accepted transitions, in order. */
  ghost function Log(calls: seq<Call>): seq<Text> {
    if calls == [] then []
    else
      var s, c := Run(calls[..|calls| - 1]), calls[|calls| - 1];
      Log(calls[..|calls| - 1])
      + if Wins(s, c) && Step(s, c).1.receipt.Some? then [Step(s, c).1.receipt.value.receiptHash] else []
  }

  ghost function CommitsOf(log: seq<Text>): seq<Text> {
    if log == [] then []
    else
      var h := log[|log| - 1];
      CommitsOf(log[..|log| - 1]) + if h.ReceiptDigest? && h.kind == Commit then [h] else []
  }

  /** The three event logs and the receipt store all record `log` and nothing else. */
  ghost predicate Evidences(s: State, log: seq<Text>) {
    && s.audit == seq(|log|, i requires 0 <= i < |log| => AuditDigest(log[i]))
    && s.outbox == seq(|log|, i requires 0 <= i < |log| => OutboxDigest(log[i]))
    && s.lineage == seq(|CommitsOf(log)|, i requires 0 <= i < |CommitsOf(log)| => LineageDigest(CommitsOf(log)[i]))
    && s.receipts.Keys == set h | h in log
  }

  /** A call that does not win leaves every piece of evidence alone and, unless it is a
      create, every table too; a call that wins answers with a receipt of its own. */
  lemma StepEvidence(s: State, c: Call)
    ensures var (s', o) := Step(s, c);
            if Wins(s, c) then
              && o.ok && o.auditPresent && o.outboxPresent && o.lineagePresent == c.CommitCall?
              && o.receipt.Some?
              && o.receipt.value.Verifies()
              && o.receipt.value.table == c.table
              && s'.tables[c.table].headReceipt == o.receipt.value.receiptHash
              && o.receipt.value.prevReceipt == s.tables[c.table].headReceipt
              && s'.audit == s.audit + [AuditDigest(o.receipt.value.receiptHash)]
              && s'.outbox == s.outbox + [OutboxDigest(o.receipt.value.receiptHash)]
              && s'.lineage == s.lineage
                               + (if c.CommitCall? then [LineageDigest(o.receipt.value.receiptHash)] else [])
              && (forall t :: t != c.table ==> (t in s'.tables <==> t in s.tables))
              && (forall t :: t != c.table && t in s.tables ==> s'.tables[t] == s.tables[t])
            else s' == s.(tables := s'.tables) && (!c.CreateCall? ==> s' == s)
  {
  }

  lemma EvidenceGrows(s: State, s': State, log: seq<Text>, h: Text)
    requires Evidences(s, log) && h.ReceiptDigest?
    requires s'.audit == s.audit + [AuditDigest(h)] && s'.outbox == s.outbox + [OutboxDigest(h)]
    requires s'.lineage == if h.kind == Commit then s.lineage + [LineageDigest(h)] else s.lineage
    requires s'.receipts.Keys == s.receipts.Keys + {h}
    ensures Evidences(s', log + [h])
  {
  }

  /** There is one log of accepted transitions, and the audit trail, the outbox, the
      lineage (its commits only) and the receipt store are all exactly that log. */
  lemma {:induction false} EvidenceConserved(calls: seq<Call>)
    ensures Evidences(Run(calls), Log(calls))
  {
    if calls == [] {
    } else {
      var before := calls[..|calls| - 1];
      var s, c := Run(before), calls[|calls| - 1];
      EvidenceConserved(before);
      StepEvidence(s, c);
      if Wins(s, c) {
        EvidenceGrows(s, Step(s, c).0, Log(before), Step(s, c).1.receipt.value.receiptHash);
      } else {
        assert Log(calls) == Log(before);
      }
    }
  }

  /** An outcome's evidence flags are true of the catalog. */
  ghost predicate Honest(s: State, o: Outcome) {
    && (o.auditPresent ==> o.receipt.Some? && AuditDigest(o.receipt.value.receiptHash) in s.audit)
    && (o.outboxPresent ==> o.receipt.Some? && OutboxDigest(o.receipt.value.receiptHash) in s.outbox)
    && (o.lineagePresent ==> o.receipt.Some? && LineageDigest(o.receipt.value.receiptHash) in s.lineage)
    && (o.receipt.Some? ==> o.ok && Replays(s, o.receipt.value))
  }

  ghost predicate RetriesHonest(s: State) {
    forall k :: k in s.idempotency ==> Honest(s, s.idempotency[k])
  }

  lemma {:induction false} RunHonest(calls: seq<Call>)
    ensures RetriesHonest(Run(calls))
  {
    if calls == [] {
    } else {
      var s, c := Run(calls[..|calls| - 1]), calls[|calls| - 1];
      RunHonest(calls[..|calls| - 1]);
      StepHonest(s, c);
    }
  }

  lemma WinHonest(s: State, c: Call)
    requires Wins(s, c)
    ensures Honest(Step(s, c).0, Step(s, c).1)
  {
  }

  lemma StepHonest(s: State, c: Call)
    requires RetriesHonest(s)
    ensures RetriesHonest(Step(s, c).0) && Honest(Step(s, c).0, Step(s, c).1)
  {
    hide CommitReceipt, DropReceipt;
    var (s', o) := Step(s, c);
    if Wins(s, c) {
      WinHonest(s, c);
    }
    forall k | k in s.idempotency
      ensures Honest(s', s.idempotency[k])
    {
      HonestGrows(s, s', s.idempotency[k]);
    }
  }

  lemma HonestGrows(s: State, s': State, o: Outcome)
    requires Honest(s, o)
    requires s.audit <= s'.audit && s.outbox <= s'.outbox && s.lineage <= s'.lineage
    requires s.receipts.Keys <= s'.receipts.Keys
    ensures Honest(s', o)
  {
  }

  /** Whatever a call of any run answers, first try or retry, the evidence it claims is
      in the logs and its receipt is accepted by replay. */
  lemma OutcomesHonest(calls: seq<Call>, i: nat)
    requires i < |calls|
    ensures Honest(At(calls, i + 1), Answer(calls, i))
  {
    AtNext(calls, i);
    RunHonest(calls[..i]);
    StepHonest(At(calls, i), calls[i]);
  }
}
