/** The provable-transaction catalog: its values, its transition functions, and
    the class that performs those transitions in place. */
module Catalog {
  import opened Wrappers

  const MAX_TEXT := 4096

  /** The operation a receipt names. A receipt handed in for replay may name anything. */
  datatype Kind = Commit | Tombstone | OtherKind(name: string)

  /** A string of the catalog.  A digest is a free term over the argument tuple it was
      computed from, so two digests are equal exactly when their arguments are. */
  datatype Text =
    | Plain(chars: string)
    | PolicyDigest(policy: Text)
    | CreationPointer(table: Text)
    | CommitPointer(table: Text, snapshot: int, update: Text)
    | DropPointer(table: Text)
    | CommitRequest(table: Text, expected: Text, update: Text, nonce: Text)
    | DropRequest(table: Text, nonce: Text)
    | CommitResponse(table: Text, pointer: Text, snapshot: int)
    | DropResponse
    | ReceiptDigest(table: Text, kind: Kind, previous: Text, pointer: Text, snapshot: int, principal: Text,
                    policyHash: Text, key: Text, request: Text, response: Text, prevReceipt: Text)
    | ScanDigest(table: Text, principal: Text, policies: seq<Text>, snapshot: int)
    | AuditDigest(receipt: Text)
    | OutboxDigest(receipt: Text)
    | LineageDigest(receipt: Text)
  {
    // "sha256:" and 64 hexadecimal digits
    function Length(): nat {
      if Plain? then |chars| else 71
    }
  }

  const EMPTY := Plain("")

  datatype Receipt = Receipt(
    table: Text, kind: Kind, previousMetadata: Text, newMetadata: Text, snapshotId: int, principal: Text,
    policyHash: Text, key: Text, requestHash: Text, responseHash: Text, prevReceipt: Text, receiptHash: Text)
  {
    function Sealed(): Receipt {
      this.(receiptHash := ReceiptDigest(table, kind, previousMetadata, newMetadata, snapshotId, principal,
                                         policyHash, key, requestHash, responseHash, prevReceipt))
    }

    predicate Verifies() {
      Sealed().receiptHash == receiptHash
    }
  }

  datatype ScanReceipt = ScanReceipt(
    table: Text, principal: Text, policyHashes: seq<Text>, snapshotId: int, receiptHash: Text)
  {
    function Sealed(): ScanReceipt {
      this.(receiptHash := ScanDigest(table, principal, policyHashes, snapshotId))
    }

    predicate Verifies(expected: seq<Text>) {
      policyHashes != [] && policyHashes == expected && Sealed().receiptHash == receiptHash
    }
  }

  datatype Outcome = Outcome(
    ok: bool, error: string, receipt: Option<Receipt>, scanReceipt: Option<ScanReceipt>,
    auditPresent: bool, outboxPresent: bool, lineagePresent: bool)

  function Refused(error: string): Outcome {
    Outcome(false, error, None, None, false, false, false)
  }

  datatype Table = Table(metadata: Text, snapshotId: nat, headReceipt: Text, tombstoned: bool)

  datatype State = State(
    tables: map<Text, Table>, idempotency: map<Text, Outcome>,
    audit: seq<Text>, outbox: seq<Text>, lineage: seq<Text>, receipts: map<Text, Receipt>)

  const EmptyState := State(map[], map[], [], [], [], map[])

  datatype Call =
    | CreateCall(table: Text, principal: Text)
    | CommitCall(table: Text, expected: Text, update: Text, principal: Text, policy: Text, nonce: Text, key: Text)
    | ScanCall(table: Text, principal: Text, policy: Text)
    | TombstoneCall(table: Text, principal: Text, policy: Text, nonce: Text)
    | ReplayCall(receipt: Receipt)
    | RestartCall

  predicate Oversized(update: Text, policy: Text) {
    update.Length() > MAX_TEXT || policy.Length() > MAX_TEXT
  }

  predicate Live(s: State, table: Text) {
    table in s.tables && !s.tables[table].tombstoned
  }

  function CreateStep(s: State, table: Text): (State, Outcome) {
    (s.(tables := s.tables[table := Table(CreationPointer(table), 0, EMPTY, false)]),
     Outcome(true, "", None, None, false, false, false))
  }

  /** The receipt a commit on `entry` seals. */
  function CommitReceipt(entry: Table, c: Call): Receipt
    requires c.CommitCall?
  {
    var snapshot := entry.snapshotId + 1;
    var pointer := CommitPointer(c.table, snapshot, c.update);
    Receipt(c.table, Commit, c.expected, pointer, snapshot, c.principal, PolicyDigest(c.policy), c.key,
            CommitRequest(c.table, c.expected, c.update, c.nonce), CommitResponse(c.table, pointer, snapshot),
            entry.headReceipt, EMPTY).Sealed()
  }

  /** What a commit that won does to the table and the evidence. */
  function Committed(s: State, c: Call): (State, Outcome)
    requires c.CommitCall? && c.table in s.tables
  {
    var entry := s.tables[c.table];
    var r := CommitReceipt(entry, c);
    (s.(tables := s.tables[c.table := entry.(metadata := r.newMetadata, snapshotId := entry.snapshotId + 1,
                                             headReceipt := r.receiptHash)],
        audit := s.audit + [AuditDigest(r.receiptHash)],
        outbox := s.outbox + [OutboxDigest(r.receiptHash)],
        lineage := s.lineage + [LineageDigest(r.receiptHash)],
        receipts := s.receipts[r.receiptHash := r]),
     Outcome(true, "", Some(r), None, true, true, true))
  }

  function CommitStep(s: State, c: Call): (State, Outcome)
    requires c.CommitCall?
  {
    if Oversized(c.update, c.policy) then (s, Refused("oversized"))
    else if c.key != EMPTY && c.key in s.idempotency then (s, s.idempotency[c.key])
    else if !Live(s, c.table) then (s, Refused("no-such-table"))
    else if c.expected != s.tables[c.table].metadata then (s, Refused("stale-metadata"))
    else
      var (s', o) := Committed(s, c);
      (if c.key != EMPTY then s'.(idempotency := s'.idempotency[c.key := o]) else s', o)
  }

  function ScanStep(s: State, table: Text, principal: Text, policy: Text): Outcome {
    if !Live(s, table) then Refused("no-such-table")
    else
      Outcome(true, "", None,
              Some(ScanReceipt(table, principal, [PolicyDigest(policy)], s.tables[table].snapshotId, EMPTY).Sealed()),
              false, false, false)
  }

  /** The receipt that dropping `entry` seals. */
  function DropReceipt(entry: Table, c: Call): Receipt
    requires c.TombstoneCall?
  {
    Receipt(c.table, Tombstone, entry.metadata, DropPointer(c.table), entry.snapshotId, c.principal,
            PolicyDigest(c.policy), EMPTY, DropRequest(c.table, c.nonce), DropResponse,
            entry.headReceipt, EMPTY).Sealed()
  }

  function TombstoneStep(s: State, c: Call): (State, Outcome)
    requires c.TombstoneCall?
  {
    if !Live(s, c.table) then (s, Refused("no-such-table"))
    else
      var entry := s.tables[c.table];
      var r := DropReceipt(entry, c);
      (s.(tables := s.tables[c.table := entry.(headReceipt := r.receiptHash, tombstoned := true)],
          audit := s.audit + [AuditDigest(r.receiptHash)],
          outbox := s.outbox + [OutboxDigest(r.receiptHash)],
          receipts := s.receipts[r.receiptHash := r]),
       Outcome(true, "", Some(r), None, true, true, false))
  }

  predicate Replays(s: State, receipt: Receipt) {
    receipt.Verifies() && receipt.receiptHash in s.receipts
  }

  /** One call: the state it leaves and what it answers. */
  function Step(s: State, c: Call): (State, Outcome) {
    match c
    case CreateCall(t, _) => CreateStep(s, t)
    case CommitCall(_, _, _, _, _, _, _) => CommitStep(s, c)
    case ScanCall(t, p, policy) => (s, ScanStep(s, t, p, policy))
    case TombstoneCall(_, _, _, _) => TombstoneStep(s, c)
    case ReplayCall(r) => (s, Outcome(Replays(s, r), "", None, None, false, false, false))
    case RestartCall => (s, Outcome(true, "", None, None, false, false, false))
  }

  /** A table's mutable entry. */
  class TableEntry {
    var metadata: Text
    var snapshotId: nat
    var headReceipt: Text
    var tombstoned: bool

    constructor (value: Table)
      ensures Value() == value
    {
      metadata, snapshotId, headReceipt, tombstoned :=
        value.metadata, value.snapshotId, value.headReceipt, value.tombstoned;
    }

    method Set(value: Table)
      modifies this
      ensures Value() == value
    {
      metadata, snapshotId, headReceipt, tombstoned :=
        value.metadata, value.snapshotId, value.headReceipt, value.tombstoned;
    }

    function Value(): Table
      reads this
    {
      Table(metadata, snapshotId, headReceipt, tombstoned)
    }
  }

  class ReferenceCatalog {
    var tables: map<Text, TableEntry>
    var idempotency: map<Text, Outcome>
    var audit: seq<Text>
    var outbox: seq<Text>
    var lineage: seq<Text>
    var receipts: map<Text, Receipt>
    ghost var view: map<Text, Table>  // the values of the entries

    /** No two tables share an entry, and `view` holds each entry's value. */
    ghost predicate Valid()
      reads `tables, `view, tables.Values
    {
      && (forall a, b :: a in tables && b in tables && a != b ==> tables[a] != tables[b])
      && view.Keys == tables.Keys
      && (forall t :: t in tables ==> tables[t].Value() == view[t])
    }

    ghost function Snapshot(): State
      reads this
    {
      State(view, idempotency, audit, outbox, lineage, receipts)
    }

    constructor ()
      ensures Valid() && tables == map[] && Snapshot() == EmptyState
    {
      tables, idempotency, audit, outbox, lineage, receipts := map[], map[], [], [], [], map[];
      view := map[];
    }

    method Pointer(table: Text) returns (p: Text)
      requires Valid()
      ensures p == if table in Snapshot().tables then Snapshot().tables[table].metadata else EMPTY
    {
      p := if table in tables then tables[table].metadata else EMPTY;
    }

    method Create(table: Text, principal: Text) returns (o: Outcome)
      requires Valid()
      modifies this
      ensures Valid() && fresh(tables.Values - old(tables.Values))
      ensures (Snapshot(), o) == Step(old(Snapshot()), CreateCall(table, principal))
    {
      var entry := new TableEntry(Table(CreationPointer(table), 0, EMPTY, false));
      tables := tables[table := entry];
      view := view[table := entry.Value()];
      o := Outcome(true, "", None, None, false, false, false);
    }

    /** Update one table's entry in place. */
    method Update(table: Text, value: Table)
      requires Valid() && table in tables
      modifies `view, tables[table]
      ensures Valid() && view == old(view)[table := value]
    {
      tables[table].Set(value);
      view := view[table := value];
    }

    /** Record a receipt together with its audit and outbox events. */
    method Stage(receipt: Receipt)
      modifies `receipts, `audit, `outbox
      ensures receipts == old(receipts)[receipt.receiptHash := receipt]
      ensures audit == old(audit) + [AuditDigest(receipt.receiptHash)]
      ensures outbox == old(outbox) + [OutboxDigest(receipt.receiptHash)]
    {
      receipts := receipts[receipt.receiptHash := receipt];
      audit := audit + [AuditDigest(receipt.receiptHash)];
      outbox := outbox + [OutboxDigest(receipt.receiptHash)];
    }

    /** The commit that won: one atomic transition advances the pointer and stages
        every piece of evidence. */
    method Advance(table: Text, expected: Text, update: Text, principal: Text, policy: Text, nonce: Text, key: Text)
      returns (o: Outcome)
      requires Valid() && table in tables && expected == tables[table].metadata
      modifies this, tables[table]
      ensures Valid() && tables == old(tables)
      ensures var c := CommitCall(table, expected, update, principal, policy, nonce, key);
              Snapshot() == Committed(old(Snapshot()), c).0 && o == Committed(old(Snapshot()), c).1
    {
      var entry := tables[table];
      var newSnapshot := entry.snapshotId + 1;
      var newMeta := CommitPointer(table, newSnapshot, update);
      var receipt := Receipt(table, Commit, expected, newMeta, newSnapshot, principal, PolicyDigest(policy), key,
                             CommitRequest(table, expected, update, nonce), CommitResponse(table, newMeta, newSnapshot),
                             entry.headReceipt, EMPTY).Sealed();
      assert receipt == CommitReceipt(view[table], CommitCall(table, expected, update, principal, policy, nonce, key));
      hide CommitReceipt, TableEntry.Value;
      Update(table, Table(newMeta, newSnapshot, receipt.receiptHash, entry.tombstoned));
      Stage(receipt);
      lineage := lineage + [LineageDigest(receipt.receiptHash)];
      o := Outcome(true, "", Some(receipt), None, true, true, true);
    }

    method CommitTo(table: Text, expected: Text, update: Text, principal: Text, policy: Text, nonce: Text, key: Text)
      returns (o: Outcome)
      requires Valid()
      modifies this, tables.Values
      ensures Valid() && tables == old(tables)
      ensures var c := CommitCall(table, expected, update, principal, policy, nonce, key);
              Snapshot() == CommitStep(old(Snapshot()), c).0 && o == CommitStep(old(Snapshot()), c).1
    {
      hide CommitReceipt;
      if Oversized(update, policy) {
        return Refused("oversized");
      }
      if key != EMPTY && key in idempotency {
        return idempotency[key];
      }
      if table !in tables || tables[table].tombstoned {
        return Refused("no-such-table");
      }
      var entry := tables[table];
      if expected != entry.metadata {
        return Refused("stale-metadata");
      }
      o := Advance(table, expected, update, principal, policy, nonce, key);
      if key != EMPTY {
        idempotency := idempotency[key := o];
      }
    }

    method Scan(table: Text, principal: Text, policy: Text) returns (o: Outcome)
      requires Valid()
      ensures o == Step(Snapshot(), ScanCall(table, principal, policy)).1
    {
      if table !in tables || tables[table].tombstoned {
        return Refused("no-such-table");
      }
      var receipt := ScanReceipt(table, principal, [PolicyDigest(policy)], tables[table].snapshotId, EMPTY).Sealed();
      o := Outcome(true, "", None, Some(receipt), false, false, false);
    }

    method Drop(table: Text, principal: Text, policy: Text, nonce: Text) returns (o: Outcome)
      requires Valid()
      modifies this, tables.Values
      ensures Valid() && tables == old(tables)
      ensures (Snapshot(), o) == Step(old(Snapshot()), TombstoneCall(table, principal, policy, nonce))
    {
      if table !in tables || tables[table].tombstoned {
        return Refused("no-such-table");
      }
      var entry := tables[table];
      var receipt := Receipt(table, Tombstone, entry.metadata, DropPointer(table), entry.snapshotId, principal,
                             PolicyDigest(policy), EMPTY, DropRequest(table, nonce), DropResponse,
                             entry.headReceipt, EMPTY).Sealed();
      Update(table, Table(entry.metadata, entry.snapshotId, receipt.receiptHash, true));
      Stage(receipt);
      o := Outcome(true, "", Some(receipt), None, true, true, false);
    }

    method Replay(receipt: Receipt) returns (b: bool)
      ensures b == Step(Snapshot(), ReplayCall(receipt)).1.ok
    {
      b := receipt.Verifies() && receipt.receiptHash in receipts;
    }

    method CopyEntries() returns (copied: map<Text, TableEntry>)
      requires Valid()
      ensures copied.Keys == tables.Keys && fresh(copied.Values)
      ensures forall t :: t in copied ==> copied[t].Value() == view[t]
      ensures forall a, b :: a in copied && b in copied && a != b ==> copied[a] != copied[b]
    {
      copied := map[];
      var left := tables.Keys;
      while left != {}
        invariant copied.Keys == tables.Keys - left && left <= tables.Keys
        invariant forall t :: t in copied ==> fresh(copied[t])
        invariant forall t :: t in copied ==> copied[t].Value() == view[t]
        invariant forall a, b :: a in copied && b in copied && a != b ==> copied[a] != copied[b]
        decreases left
      {
        var t :| t in left;
        var entry := new TableEntry(tables[t].Value());
        copied := copied[t := entry];
        left := left - {t};
      }
    }

    /** The restarted catalog holds the same state in entries of its own, so nothing
        done to either object afterwards reaches the other. */
    method Restart() returns (other: ReferenceCatalog)
      requires Valid()
      ensures fresh(other) && other.Valid() && fresh(other.tables.Values)
      ensures other.Snapshot() == Step(Snapshot(), RestartCall).0
    {
      other := new ReferenceCatalog();
      var copied := CopyEntries();
      other.Adopt(copied, this);
    }

    method Adopt(copied: map<Text, TableEntry>, from: ReferenceCatalog)
      requires from != this
      modifies this
      ensures tables == copied && Snapshot() == from.Snapshot()
    {
      tables, view := copied, from.view;
      idempotency := from.idempotency;
      audit, outbox, lineage := from.audit, from.outbox, from.lineage;
      receipts := from.receipts;
    }
  }
}
