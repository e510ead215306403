/** What the catalog answers, in terms of the history of the run alone: which tables stand, which
    keys are used, what each call is told and which receipt it gets. */
module CatalogAnswers {
  import opened Wrappers
  import opened Catalog
  import opened CatalogRuns
  import opened CatalogCommits

  // ---------------------------------------------------------------------------
  // The state is the history
  // ---------------------------------------------------------------------------

  predicate Drops(c: Call, t: Text) {
    c.TombstoneCall? && c.table == t
  }

  /** The table was created, and no drop of it came after its last creation. */
  ghost predicate Standing(calls: seq<Call>, t: Text) {
    exists k :: 0 <= k < |calls| && Creates(calls[k], t) && forall l :: k < l < |calls| ==> !Drops(calls[l], t)
  }

  lemma StepLive(s: State, c: Call, t: Text)
    ensures Live(Step(s, c).0, t) <==> Creates(c, t) || (Live(s, t) && !Drops(c, t))
  {
    hide CommitReceipt, DropReceipt;
  }

  lemma {:induction false} LiveExactly(calls: seq<Call>, t: Text)
    ensures Live(Run(calls), t) <==> Standing(calls, t)
  {
    if calls == [] {
    } else {
      var before, c := calls[..|calls| - 1], calls[|calls| - 1];
      LiveExactly(before, t);
      StepLive(Run(before), c, t);
      assert Run(calls) == Step(Run(before), c).0;
      hide Live, Step, Run;
      StandingNext(calls, t);
    }
  }

  lemma StandingNext(calls: seq<Call>, t: Text)
    requires calls != []
    ensures var (before, c) := (calls[..|calls| - 1], calls[|calls| - 1]);
            Standing(calls, t) <==> Creates(c, t) || (Standing(before, t) && !Drops(c, t))
  {
    var n := |calls| - 1;
    var before := calls[..n];
    if k :| 0 <= k < n && Creates(before[k], t) && forall l :: k < l < n ==> !Drops(before[l], t) {
      if !Drops(calls[n], t) {
        assert Creates(calls[k], t) && forall l :: k < l < |calls| ==> !Drops(calls[l], t);
      }
    }
    if k :| 0 <= k < |calls| && Creates(calls[k], t) && forall l :: k < l < |calls| ==> !Drops(calls[l], t) {
      if k < n {
        assert Creates(before[k], t) && forall l :: k < l < n ==> !Drops(before[l], t);
      }
    }
  }

  /** A commit of the run won under this key. */
  ghost predicate KeyUsed(calls: seq<Call>, key: Text) {
    exists k :: 0 <= k < |calls| && calls[k].CommitCall? && calls[k].key == key && Wins(At(calls, k), calls[k])
  }

  lemma StepKeys(s: State, c: Call, key: Text)
    ensures key in Step(s, c).0.idempotency <==>
            key in s.idempotency || (c.CommitCall? && c.key == key != EMPTY && Wins(s, c))
  {
    hide CommitReceipt, DropReceipt;
  }

  lemma {:induction false} KeysAreWins(calls: seq<Call>, key: Text)
    ensures key in Run(calls).idempotency <==> key != EMPTY && KeyUsed(calls, key)
  {
    if calls == [] {
    } else {
      var n := |calls| - 1;
      var before, c := calls[..n], calls[n];
      KeysAreWins(before, key);
      StepKeys(Run(before), c, key);
      assert Run(calls) == Step(Run(before), c).0;
      assert forall k :: 0 <= k < n ==> before[..k] == calls[..k];
      hide Step, Run, Wins;
      if k :| 0 <= k < n && before[k].CommitCall? && before[k].key == key && Wins(At(before, k), before[k]) {
        assert calls[k].CommitCall? && Wins(At(calls, k), calls[k]);
      }
    }
  }

  /** The hash of the last receipt sealed for the table since its last create, if any. */
  function LastReceipt(calls: seq<Call>, t: Text): Text {
    if calls == [] then EMPTY
    else
      var before, c := calls[..|calls| - 1], calls[|calls| - 1];
      if Creates(c, t) then EMPTY
      else if Wins(Run(before), c) && c.CommitCall? && c.table == t then
        ReceiptOf(LastReceipt(before, t), Since(before, t).0, c).receiptHash
      else if Wins(Run(before), c) && c.TombstoneCall? && c.table == t then
        DropOf(LastReceipt(before, t), Since(before, t), c).receiptHash
      else LastReceipt(before, t)
  }

  /** The receipt of a commit that is the next after `n` of its table, in full. */
  function ReceiptOf(head: Text, n: nat, c: Call): Receipt
    requires c.CommitCall?
  {
    var pointer := CommitPointer(c.table, n + 1, c.update);
    var request := CommitRequest(c.table, c.expected, c.update, c.nonce);
    var response := CommitResponse(c.table, pointer, n + 1);
    Receipt(c.table, Commit, c.expected, pointer, n + 1, c.principal, PolicyDigest(c.policy), c.key, request, response,
            head,
            ReceiptDigest(c.table, Commit, c.expected, pointer, n + 1, c.principal, PolicyDigest(c.policy), c.key,
                          request, response, head))
  }

  /** The receipt of a drop, in full. */
  function DropOf(head: Text, since: (nat, Text), c: Call): Receipt
    requires c.TombstoneCall?
  {
    var pointer, request := PointerAfter(c.table, since), DropRequest(c.table, c.nonce);
    Receipt(c.table, Tombstone, pointer, DropPointer(c.table), since.0, c.principal, PolicyDigest(c.policy), EMPTY,
            request, DropResponse, head,
            ReceiptDigest(c.table, Tombstone, pointer, DropPointer(c.table), since.0, c.principal,
                          PolicyDigest(c.policy), EMPTY, request, DropResponse, head))
  }

  /** A table's entry is its history: how many commits it has had since its last create, what the
      last one wrote, the last receipt, and whether it was dropped. */
  lemma {:induction false} TableIsHistory(calls: seq<Call>, t: Text)
    ensures t in Run(calls).tables <==> exists k :: 0 <= k < |calls| && Creates(calls[k], t)
    ensures t in Run(calls).tables ==>
              Run(calls).tables[t]
              == Table(PointerAfter(t, Since(calls, t)), Since(calls, t).0, LastReceipt(calls, t), !Standing(calls, t))
  {
    CreatedExactly(calls, t);
    LiveExactly(calls, t);
    if t in Run(calls).tables {
      hide Run, Since, LastReceipt;
      PointerIsHistory(calls, t);
      HeadIsHistory(calls, t);
    }
  }

  lemma StepTables(s: State, c: Call, t: Text)
    ensures t in Step(s, c).0.tables <==> t in s.tables || Creates(c, t)
  {
    hide CommitReceipt, DropReceipt;
  }

  lemma {:induction false} CreatedExactly(calls: seq<Call>, t: Text)
    ensures t in Run(calls).tables <==> exists k :: 0 <= k < |calls| && Creates(calls[k], t)
  {
    if calls == [] {
    } else {
      var n := |calls| - 1;
      var before, c := calls[..n], calls[n];
      CreatedExactly(before, t);
      StepTables(Run(before), c, t);
      hide Step;
      if k :| 0 <= k < n && Creates(before[k], t) {
        assert Creates(calls[k], t);
      }
    }
  }

  lemma StepHead(s: State, c: Call, t: Text)
    requires t in Step(s, c).0.tables
    ensures Step(s, c).0.tables[t].headReceipt
         == if Creates(c, t) then EMPTY
            else if Wins(s, c) && c.table == t && c.CommitCall? then CommitReceipt(s.tables[t], c).receiptHash
            else if Wins(s, c) && c.table == t then DropReceipt(s.tables[t], c).receiptHash
            else s.tables[t].headReceipt
  {
    hide CommitReceipt, DropReceipt;
  }

  lemma {:induction false} HeadIsHistory(calls: seq<Call>, t: Text)
    requires t in Run(calls).tables
    ensures Run(calls).tables[t].headReceipt == LastReceipt(calls, t)
  {
    var before, c := calls[..|calls| - 1], calls[|calls| - 1];
    StepHead(Run(before), c, t);
    StepTables(Run(before), c, t);
    if !Creates(c, t) {
      HeadIsHistory(before, t);
      PointerIsHistory(before, t);
    }
    hide Run, Step, Since, PointerAfter;
  }

  // ---------------------------------------------------------------------------
  // Answers
  // ---------------------------------------------------------------------------

  /** The update or the policy is longer than a catalog text may be. */
  predicate TooLong(c: Call)
    requires c.CommitCall?
  {
    c.update.Length() > 4096 || c.policy.Length() > 4096
  }

  /** The commit is under a key that a commit of the run has won under. */
  ghost predicate Retries(calls: seq<Call>, c: Call)
    requires c.CommitCall?
  {
    c.key != EMPTY && KeyUsed(calls, c.key)
  }

  ghost predicate Succeeds(calls: seq<Call>, c: Call)
    requires c.CommitCall?
  {
    && !TooLong(c) && !Retries(calls, c) && Standing(calls, c.table)
    && c.expected == PointerAfter(c.table, Since(calls, c.table))
  }

  lemma {:induction false} WinsExactly(calls: seq<Call>, c: Call)
    requires c.CommitCall?
    ensures Wins(Run(calls), c) <==> Succeeds(calls, c)
  {
    hide Run, Since, Standing, KeyUsed, PointerAfter;
    LiveExactly(calls, c.table);
    KeysAreWins(calls, c.key);
    if c.table in Run(calls).tables {
      PointerIsHistory(calls, c.table);
    }
  }

  /** What a refused call is told: the error and nothing else. */
  function Told(error: string): Outcome {
    Outcome(false, error, None, None, false, false, false)
  }

  /** After any run a commit is told it succeeded exactly when it wins the compare-and-swap on a
      standing table, within the size bound and under no used key, or repeats a used key within
      the bound.  A win gets its own receipt and all the evidence; a refusal is told the first
      test it fails and gets nothing. */
  lemma {:induction false} CommitAnswersExactly(calls: seq<Call>, c: Call)
    requires c.CommitCall?
    ensures var o := Step(Run(calls), c).1;
            && (o.ok <==> Succeeds(calls, c) || (!TooLong(c) && Retries(calls, c)))
            && (Succeeds(calls, c) ==>
                  o == Outcome(true, "", Some(ReceiptOf(LastReceipt(calls, c.table), Since(calls, c.table).0, c)), None,
                               true, true, true))
            && (!o.ok ==> o == Told(if TooLong(c) then "oversized"
                                    else if !Standing(calls, c.table) then "no-such-table"
                                    else "stale-metadata"))
  {
    WinsExactly(calls, c);
    LiveExactly(calls, c.table);
    KeysAreWins(calls, c.key);
    RunHonest(calls);
    KeyedOk(calls);
    if c.table in Run(calls).tables {
      PointerIsHistory(calls, c.table);
      HeadIsHistory(calls, c.table);
    }
    hide Run, Since, LastReceipt, Standing, KeyUsed, PointerAfter, RetriesHonest;
  }

  lemma {:induction false} KeyedOk(calls: seq<Call>)
    ensures forall k :: k in Run(calls).idempotency ==> Run(calls).idempotency[k].ok
  {
    if calls == [] {
    } else {
      var before, c := calls[..|calls| - 1], calls[|calls| - 1];
      KeyedOk(before);
      hide CommitReceipt, DropReceipt;
    }
  }

  /** A scan succeeds exactly on a standing table, with a receipt for its reader, its policy and
      the table's current snapshot; it never claims evidence. */
  lemma {:induction false} ScanAnswersExactly(calls: seq<Call>, t: Text, principal: Text, policy: Text)
    ensures Step(Run(calls), ScanCall(t, principal, policy)).1
         == if Standing(calls, t) then
              var (policies, n) := ([PolicyDigest(policy)], Since(calls, t).0);
              var receipt := ScanReceipt(t, principal, policies, n, ScanDigest(t, principal, policies, n));
              Outcome(true, "", None, Some(receipt), false, false, false)
            else Told("no-such-table")
  {
    LiveExactly(calls, t);
    if t in Run(calls).tables {
      PointerIsHistory(calls, t);
    }
    hide Run, Since, Standing;
  }

  /** A drop succeeds exactly on a standing table, with a receipt and evidence of its own. */
  lemma {:induction false} DropAnswersExactly(calls: seq<Call>, c: Call)
    requires c.TombstoneCall?
    ensures Step(Run(calls), c).1
         == if Standing(calls, c.table) then
              Outcome(true, "", Some(DropOf(LastReceipt(calls, c.table), Since(calls, c.table), c)), None,
                      true, true, false)
            else Told("no-such-table")
  {
    LiveExactly(calls, c.table);
    if c.table in Run(calls).tables {
      PointerIsHistory(calls, c.table);
      HeadIsHistory(calls, c.table);
    }
    hide Run, Since, LastReceipt, Standing, PointerAfter;
  }

  /** The other calls answer without evidence: creates and restarts always succeed, and a replay
      succeeds exactly on a receipt the run has answered with. */
  lemma {:induction false} PlainAnswers(calls: seq<Call>, c: Call)
    requires c.CreateCall? || c.ReplayCall? || c.RestartCall?
    ensures var o := Step(Run(calls), c).1;
            && o.error == "" && o.receipt.None? && o.scanReceipt.None?
            && !o.auditPresent && !o.outboxPresent && !o.lineagePresent
            && (o.ok <==> (c.ReplayCall? ==> Answered(calls, |calls|, c.receipt)))
  {
    if c.ReplayCall? {
      ReplayExact(calls, c.receipt);
    }
    hide Run, Answered;
  }
}
