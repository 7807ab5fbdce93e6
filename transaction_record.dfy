/** The ledger entry of a completed transfer (the `TransactionRecord` entity),
    and the store-side wrapper that gives it its generated id. */
module TransactionRecords {

  /** The primary key of a user record; a record refers to its sender and its
      recipient by this key. */
  type UserId = int

  /** What the 4-argument constructor receives, and nothing more: the two
      account references, the principal and the incentive, both in integer
      minor units. A datatype value never changes, so a record is immutable
      once built. */
  datatype TransactionRecord = TransactionRecord(
    sender: UserId,
    recipient: UserId,
    amount: int,
    incentive: int)
  {
    function GetSender(): UserId { sender }
    function GetRecipient(): UserId { recipient }
    function GetAmount(): int { amount }
    function GetIncentive(): int { incentive }
  }

  /** Each getter returns the constructor argument in its own position:
      the sender and the recipient are never swapped. */
  lemma GettersReturnConstructorArguments(sender: UserId, recipient: UserId, amount: int, incentive: int)
    ensures TransactionRecord(sender, recipient, amount, incentive).GetSender() == sender
    ensures TransactionRecord(sender, recipient, amount, incentive).GetRecipient() == recipient
    ensures TransactionRecord(sender, recipient, amount, incentive).GetAmount() == amount
    ensures TransactionRecord(sender, recipient, amount, incentive).GetIncentive() == incentive
  {
  }

  /** A record is determined by its four getters: two records that agree on
      them were built from the same arguments. */
  lemma RecordDeterminedByGetters(r: TransactionRecord, s: TransactionRecord)
    requires r.GetSender() == s.GetSender() && r.GetRecipient() == s.GetRecipient()
    requires r.GetAmount() == s.GetAmount() && r.GetIncentive() == s.GetIncentive()
    ensures r == s
  {
  }

  /** A record as the ledger store holds it: the constructor leaves the id
      unset, and the store assigns it when the record is saved. */
  datatype StoredRecord = StoredRecord(id: nat, record: TransactionRecord)

  /** The store's ids grow with every save, and all lie below the next id it
      will hand out. */
  predicate IdsAscending(ledger: seq<StoredRecord>, nextId: nat)
  {
    && (forall i, j :: 0 <= i < j < |ledger| ==> ledger[i].id < ledger[j].id)
    && (forall i :: 0 <= i < |ledger| ==> ledger[i].id < nextId)
  }

  /** Ascending ids are unique ids. */
  lemma AscendingIdsAreUnique(ledger: seq<StoredRecord>, nextId: nat, i: nat, j: nat)
    requires IdsAscending(ledger, nextId)
    requires i < |ledger| && j < |ledger| && i != j
    ensures ledger[i].id != ledger[j].id
  {
  }

  /** Appending a record under the next id keeps the ids ascending. */
  lemma AppendKeepsIdsAscending(ledger: seq<StoredRecord>, nextId: nat, r: TransactionRecord)
    requires IdsAscending(ledger, nextId)
    ensures IdsAscending(ledger + [StoredRecord(nextId, r)], nextId + 1)
  {
  }

  /** The records of a ledger, without their ids, in ledger order. */
  function Records(ledger: seq<StoredRecord>): (rs: seq<TransactionRecord>)
    ensures |rs| == |ledger|
    ensures forall i :: 0 <= i < |ledger| ==> rs[i] == ledger[i].record
  {
    if ledger == [] then [] else Records(ledger[..|ledger| - 1]) + [ledger[|ledger| - 1].record]
  }

  /** Saving one more record adds exactly that record at the end. */
  lemma RecordsAppend(ledger: seq<StoredRecord>, s: StoredRecord)
    ensures Records(ledger + [s]) == Records(ledger) + [s.record]
  {
  }
}
