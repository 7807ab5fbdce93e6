# Midas core: the transaction listener

A Dafny model of how the Midas core processes one peer-to-peer transfer
event. The listener looks up the sender's and the recipient's user records.
It drops the event if either is missing or if the sender's balance is below
the amount. Otherwise it asks the incentive service for a bonus, which counts
as 0 when the reply has no body; if the call itself fails, the event ends
there with nothing changed. It then debits the sender by the
amount, credits the recipient with the amount plus the incentive, saves both
user records, and appends one `TransactionRecord` to the ledger.

Files:

- `wrappers.dfy`: module `Wrappers`, the `Option` type used for lookups that
  can miss and for the incentive reply's body, which may be missing.
- `transaction_record.dfy`: module `TransactionRecords`. It holds the
  immutable ledger entry (`TransactionRecord`) with its four getters. It also
  holds the ledger store's wrapper `StoredRecord`, which adds the id that the
  store generates when it saves a record.
- `transaction_listener.dfy`: module `TransferProcessing`.
  - `Transfer` is the pure specification of one event.
  - The class `TransactionListener` holds the user store (a map from user id
    to balance), the ledger (a sequence of stored records) and the id
    generator. Its method `Listen` works step by step, like the Java method,
    and is proved to match `Transfer`.
  - `Effect`, `Net`, `Step`, `Replay` and `Reconciles` are the independent
    reference: each balance equals its opening balance plus the net effect of
    the ledger records. The class keeps this as its invariant, and
    `ReplayReconciles` proves it for any stream of events. Saves always
    succeed in the model, so this holds for runs in which every save
    succeeds (see "Left out").

Modelling choices:

- Amounts are Java `float` in the source. Here they are `int`, read as
  integer minor units, so the arithmetic is exact.
- The result of the incentive service's HTTP call is a parameter
  `reply: IncentiveReply`. `CallFailed` stands for the client throwing (an
  I/O error or an error status): the event then ends before any balance is
  set, and nothing is saved. `Replied(None)` stands for a null body, which
  gives an incentive of 0. `Replied(Some(x))` gives x. Kafka delivery is the
  call itself, and a stream of deliveries is a sequence in `Replay`.
- `userRepository.findById` is a map lookup that returns `None` when the id
  is absent. `databaseConduit.save` is a map update.
  `transactionRecordRepository.save` appends to the ledger under the next
  value of a counter.
- The two lookups (lines 42-43) may or may not return the same object. The
  listener declares no transaction, so the source alone cannot settle this:
  it depends on the persistence context's scope. The model reads them as two
  separate copies, saved sender first and recipient second (lines 66-67). On
  a transfer to oneself the second save then overwrites the first, so the
  account ends at old balance + amount + incentive, and the debit is lost.
  `SelfTransferLastSaveWins` states this, and `Effect` accounts for it. The
  other reading is listed under "Left out".
- Because a transfer to oneself is credited rather than debited, the sender
  bound `SenderNotOverdrawn` holds only between distinct accounts.
  `SelfTransferCanOverdraw` shows an account at 10 ending at -85 after
  sending itself 5 with an incentive of -100.
- The listener does not reject a non-positive amount, and it does not clamp
  a negative incentive (lines 46 and 55). Neither does the model
  (`NonPositiveAmountNotRejected`, `IncentiveAmount`).
- The listener has no transaction boundary. The model applies the steps in
  order, every save succeeds, and it claims no atomicity under failure.

## Model

| member | source | states |
|---|---|---|
| `TransferProcessing.IncentiveAmount` | src/main/java/com/jpmc/midascore/kafka/TransactionListener.java:55 | A missing reply body gives 0. A present one gives its amount unchanged, negative amounts included. |
| `TransferProcessing.Transfer` | src/main/java/com/jpmc/midascore/kafka/TransactionListener.java:40-79 | The event is dropped iff an account is missing. It is dropped for insufficient funds iff both accounts exist and the sender's balance is below the amount. It ends on a failed incentive call iff both guards pass and the call fails. Otherwise it is applied: the sender (if distinct) loses the amount; the recipient gains amount + incentive; every other account and the key set are unchanged; the record is (sender, recipient, amount, applied incentive). |
| `TransferProcessing.DistinctPairSum` | src/main/java/com/jpmc/midascore/kafka/TransactionListener.java:58-67 | Between distinct accounts, an applied transfer raises the sum of the two balances by exactly the incentive. |
| `TransferProcessing.SenderNotOverdrawn` | src/main/java/com/jpmc/midascore/kafka/TransactionListener.java:46-58 | After an applied transfer between distinct accounts, the sender's balance is at least 0, for any sign of the amount. |
| `TransferProcessing.SelfTransferCanOverdraw` | src/main/java/com/jpmc/midascore/kafka/TransactionListener.java:42-67 | Concrete case: an account at 10 that sends itself 5 with an incentive reply of -100 ends at -85, so the sender bound needs distinct accounts. |
| `TransferProcessing.SelfTransferLastSaveWins` | src/main/java/com/jpmc/midascore/kafka/TransactionListener.java:42-67 | When sender and recipient are the same account, its balance ends at old + amount + incentive: the recipient's save overwrites the sender's. |
| `TransferProcessing.NonPositiveAmountNotRejected` | src/main/java/com/jpmc/midascore/kafka/TransactionListener.java:45-46 | A zero or negative amount is applied whenever both accounts exist, the sender's balance is at least the amount and the incentive call answers. |
| `TransferProcessing.TransferMatchesRecord` | src/main/java/com/jpmc/midascore/kafka/TransactionListener.java:58-78 | An applied transfer changes each account by exactly the `Effect` of the record it appends, and leaves the set of accounts unchanged. |
| `TransferProcessing.NetAppend` | src/main/java/com/jpmc/midascore/kafka/TransactionListener.java:70-78 | Appending one record adds exactly that record's effect to each account's net ledger change. |
| `TransferProcessing.StepReconciles` | src/main/java/com/jpmc/midascore/kafka/TransactionListener.java:40-79 | Processing one event, dropped or applied, keeps every balance equal to its opening balance plus the net effect of the ledger records. |
| `TransferProcessing.ReplayReconciles` | src/main/java/com/jpmc/midascore/kafka/TransactionListener.java:36-79 | For any stream of events in which every save succeeds, the books stay reconciled with the ledger. The ledger only grows at its end, by at most one record per event. |
| `TransferProcessing.TransactionListener.FindById` | src/main/java/com/jpmc/midascore/kafka/TransactionListener.java:42-45 | The lookup yields a balance iff a user with that id exists, and the balance is that user's. |
| `TransferProcessing.TransactionListener.SaveUser` | src/main/java/com/jpmc/midascore/kafka/TransactionListener.java:66-67 | Saving a user record sets that account's balance and changes nothing else. |
| `TransferProcessing.TransactionListener.SaveRecord` | src/main/java/com/jpmc/midascore/kafka/TransactionListener.java:78 | Saving a record assigns it the next id, returns that id and appends the record at the end of the ledger. Balances are unchanged. |
| `TransferProcessing.TransactionListener.Listen` | src/main/java/com/jpmc/midascore/kafka/TransactionListener.java:40-79 | On a dropped event (missing account, insufficient funds, failed incentive call), nothing changes: balances, ledger and id counter. On an applied one, the balances are `Transfer`'s and exactly one record, under the next id, is appended. Ids stay ascending, and the books stay reconciled with the ledger. |
| `TransactionRecords.GettersReturnConstructorArguments` | src/main/java/com/jpmc/midascore/entity/TransactionRecord.java:24-42 | `getSender`, `getRecipient`, `getAmount` and `getIncentive` return the constructor's arguments in their own positions. Sender and recipient are never swapped. |
| `TransactionRecords.RecordDeterminedByGetters` | src/main/java/com/jpmc/midascore/entity/TransactionRecord.java:22-43 | Two records that agree on all four getters are equal: a record holds nothing beyond its four constructor arguments (no id). Immutability itself comes from `TransactionRecord` being a datatype, not from this lemma. |
| `TransactionRecords.Records` | src/main/java/com/jpmc/midascore/entity/TransactionRecord.java:24-32 | The ledger's records, without their store ids, keep the ledger's order and length. |
| `TransactionRecords.RecordsAppend` | src/main/java/com/jpmc/midascore/kafka/TransactionListener.java:70-78 | Saving one more record adds exactly that record at the end of the record sequence. |
| `TransactionRecords.AppendKeepsIdsAscending` | src/main/java/com/jpmc/midascore/entity/TransactionRecord.java:8-10 | Saving under the next generated id keeps the ledger's ids strictly ascending and below the next id. |
| `TransactionRecords.AscendingIdsAreUnique` | src/main/java/com/jpmc/midascore/entity/TransactionRecord.java:8-10 | Ascending generated ids are unique: no two ledger entries share an id. |

## Left out

- Kafka wiring: the `@KafkaListener` annotation, its topic and its group id (TransactionListener.java:36-39). One call of `Listen` is one delivered event.
- The HTTP call to the incentive service (lines 49-53) is network I/O. Its result is the `reply` parameter, given whether or not the call is reached. What happens to the exception of a failed call after `listen` exits (the stream's error handling and any redelivery) is not modelled.
- Spring constructor injection (lines 25-34) only stores collaborators. The model's constructor instead starts from a given user store and an empty ledger.
- JPA persistence. Repositories, `DatabaseConduit` and `@GeneratedValue` are a map, a sequence and a counter. The model's ids are consecutive from 0, so they are strictly ascending; that order is a property of the model's counter. Only uniqueness, which `@Id @GeneratedValue` promises, is meant to carry over to the real store.
- Java `float` arithmetic (rounding, overflow, NaN) is floating point. Amounts are exact integer minor units.
- Failing saves. `SaveUser` and `SaveRecord` always succeed. In the source, a save that throws leaves a partial update. If it throws at line 67, the sender has been debited with no credit and no record. If it throws at line 78, both balances are saved with no ledger entry. The model has no outcome for either case. `Reconciles`, `StepReconciles`, `ReplayReconciles` and the class invariant hold for runs in which every save succeeds.
- Concurrency, locking, rollback and redelivery. The source has none of these, so the model claims no atomicity and no deduplication.
- The `getId` getter and the protected no-argument constructor of `TransactionRecord`. These are for the persistence framework; the id lives in `StoredRecord`.
- The alternative self-transfer outcome, where the repository returns the same object for both lookups (the account would end at old + incentive). The model fixes the two-copies reading.
