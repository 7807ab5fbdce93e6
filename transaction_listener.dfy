/** The transfer rule applied to each transaction event taken off the stream
    (`TransactionListener.listen`): look up both accounts, drop the event if
    either is missing or the sender cannot cover the amount, apply the
    incentive (0 when the reply has no body; a failed call ends the event),
    debit the
    sender, credit the recipient with amount plus incentive, save both
    accounts and append one ledger record. */
module TransferProcessing {
  import opened Wrappers
  import opened TransactionRecords

  /** The user store: the balance of each user record, by id, in integer
      minor units. */
  type Balances = map<UserId, int>

  /** A transfer event as delivered by the stream. */
  datatype Transaction = Transaction(senderId: UserId, recipientId: UserId, amount: int)

  /** What the call to the incentive service gives: it fails (the client
      throws on an I/O error or an error status), or it replies with a body
      that may be missing. */
  datatype IncentiveReply = CallFailed | Replied(body: Option<int>)

  /** Why an event left the books unchanged. On a missing account or
      insufficient funds the listener returns silently; on a failed
      incentive call it ends by the exception, before any balance is set.
      The label only lets the model say which case it was. */
  datatype DropReason = AccountNotFound | InsufficientFunds | IncentiveCallFailed

  /** What one event does to the user store: nothing, or the new balances
      together with the record that goes to the ledger. */
  datatype Outcome = Dropped(reason: DropReason) | Applied(balances: Balances, record: TransactionRecord)

  /** The incentive that is applied, given the body of a successful reply:
      the service's amount exactly as it answered (a negative amount is not
      clamped), or 0 when the body is missing. */
  function IncentiveAmount(body: Option<int>): (incentive: int)
    ensures body.None? ==> incentive == 0
    ensures body.Some? ==> incentive == body.value
  {
    body.GetOr(0)
  }

  /** One event, as the listener processes it. The model reads the two
      lookups as separate copies, saved sender first and recipient second,
      so when they are the same account the recipient's save is the one
      that remains.
      A non-positive amount is not rejected. The incentive service's reply
      only matters once both guards have passed, which is when it is called. */
  function Transfer(balances: Balances, t: Transaction, reply: IncentiveReply): (o: Outcome)
    ensures o == Dropped(AccountNotFound) <==> t.senderId !in balances || t.recipientId !in balances
    ensures o == Dropped(InsufficientFunds) <==>
      t.senderId in balances && t.recipientId in balances && balances[t.senderId] < t.amount
    ensures o == Dropped(IncentiveCallFailed) <==>
      t.senderId in balances && t.recipientId in balances && balances[t.senderId] >= t.amount && reply.CallFailed?
    ensures o.Applied? ==> reply.Replied?
    ensures o.Applied? ==> o.record == TransactionRecord(t.senderId, t.recipientId, t.amount, IncentiveAmount(reply.body))
    ensures o.Applied? ==> o.balances.Keys == balances.Keys
    ensures o.Applied? && t.senderId != t.recipientId ==>
      o.balances[t.senderId] == balances[t.senderId] - t.amount
    ensures o.Applied? ==>
      o.balances[t.recipientId] == balances[t.recipientId] + t.amount + IncentiveAmount(reply.body)
    ensures o.Applied? ==> forall id :: id in balances && id != t.senderId && id != t.recipientId ==>
      o.balances[id] == balances[id]
  {
    if t.senderId !in balances || t.recipientId !in balances then Dropped(AccountNotFound)
    else
      var senderBalance := balances[t.senderId];
      var recipientBalance := balances[t.recipientId];
      if senderBalance < t.amount then Dropped(InsufficientFunds)
      else if reply.CallFailed? then Dropped(IncentiveCallFailed)
      else
        var incentive := IncentiveAmount(reply.body);
        var senderSaved := balances[t.senderId := senderBalance - t.amount];
        var recipientSaved := senderSaved[t.recipientId := recipientBalance + t.amount + incentive];
        Applied(recipientSaved, TransactionRecord(t.senderId, t.recipientId, t.amount, incentive))
  }

  /** Between two distinct accounts, the pair's combined balance rises by
      exactly the incentive. */
  lemma DistinctPairSum(balances: Balances, t: Transaction, reply: IncentiveReply)
    requires t.senderId != t.recipientId
    requires Transfer(balances, t, reply).Applied?
    ensures var after := Transfer(balances, t, reply).balances;
      after[t.senderId] + after[t.recipientId]
      == balances[t.senderId] + balances[t.recipientId] + IncentiveAmount(reply.body)
  {
  }

  /** The guard leaves the sender of a transfer between distinct accounts
      with a balance of at least 0, whatever the sign of the amount. */
  lemma SenderNotOverdrawn(balances: Balances, t: Transaction, reply: IncentiveReply)
    requires t.senderId != t.recipientId
    requires Transfer(balances, t, reply).Applied?
    ensures Transfer(balances, t, reply).balances[t.senderId] >= 0
  {
  }

  /** A transfer to oneself keeps only the recipient's save: the balance
      grows by amount plus incentive, and the debit is lost. */
  lemma SelfTransferLastSaveWins(balances: Balances, t: Transaction, reply: IncentiveReply)
    requires t.senderId == t.recipientId
    requires Transfer(balances, t, reply).Applied?
    ensures Transfer(balances, t, reply).balances[t.senderId]
      == balances[t.senderId] + t.amount + IncentiveAmount(reply.body)
  {
  }

  /** Why the sender bound needs distinct accounts: a transfer to oneself is
      credited, not debited, so a negative incentive can leave the account
      below 0. Here 10 - 5 is lost, 10 + 5 - 100 remains. */
  lemma SelfTransferCanOverdraw()
    ensures Transfer(map[1 := 10], Transaction(1, 1, 5), Replied(Some(-100)))
      == Applied(map[1 := -85], TransactionRecord(1, 1, 5, -100))
  {
  }

  /** A zero or negative amount passes the guards like any other: with both
      accounts present, the sender's balance at least the amount and the
      incentive call answered, the transfer is applied (and a negative amount moves money the other way). */
  lemma NonPositiveAmountNotRejected(balances: Balances, t: Transaction, reply: IncentiveReply)
    requires t.amount <= 0
    requires reply.Replied?
    requires t.senderId in balances && t.recipientId in balances
    requires balances[t.senderId] >= t.amount
    ensures Transfer(balances, t, reply).Applied?
  {
  }

  /** The change that a recorded transfer made to account `id`. The
      recipient's credit comes first: on a transfer to oneself it is the
      only change that remains. */
  function Effect(r: TransactionRecord, id: UserId): int
  {
    if id == r.recipient then r.amount + r.incentive
    else if id == r.sender then -r.amount
    else 0
  }

  /** The total change that a sequence of records made to account `id`. */
  function Net(rs: seq<TransactionRecord>, id: UserId): int
  {
    if rs == [] then 0 else Net(rs[..|rs| - 1], id) + Effect(rs[|rs| - 1], id)
  }

  /** Appending a record adds exactly its effect to each account's net change. */
  lemma NetAppend(rs: seq<TransactionRecord>, r: TransactionRecord, id: UserId)
    ensures Net(rs + [r], id) == Net(rs, id) + Effect(r, id)
  {
  }

  /** An applied transfer changes every account by exactly what its ledger
      record says. */
  lemma TransferMatchesRecord(balances: Balances, t: Transaction, reply: IncentiveReply)
    requires Transfer(balances, t, reply).Applied?
    ensures var o := Transfer(balances, t, reply);
      o.balances.Keys == balances.Keys &&
      forall id :: id in balances ==> o.balances[id] == balances[id] + Effect(o.record, id)
  {
  }

  /** The user store and the ledger records, as a stream of events leaves them. */
  datatype Books = Books(balances: Balances, records: seq<TransactionRecord>)

  /** One delivered event, with the answer the incentive service gives for it. */
  datatype Delivery = Delivery(transaction: Transaction, reply: IncentiveReply)

  /** Processing one delivery: a dropped event leaves the books as they are,
      an applied one saves the new balances and appends its record. */
  function Step(books: Books, d: Delivery): Books
  {
    match Transfer(books.balances, d.transaction, d.reply)
    case Dropped(_) => books
    case Applied(after, record) => Books(after, books.records + [record])
  }

  /** Processing the deliveries one after another, in stream order. */
  function Replay(books: Books, ds: seq<Delivery>): Books
    decreases |ds|
  {
    if ds == [] then books else Replay(Step(books, ds[0]), ds[1..])
  }

  /** Every balance equals its opening balance plus the net effect of the
      ledger records. Every save here succeeds, so in the model the ledger
      accounts for every change to the store. */
  ghost predicate Reconciles(opening: Balances, books: Books)
  {
    && books.balances.Keys == opening.Keys
    && forall id :: id in opening ==> books.balances[id] == opening[id] + Net(books.records, id)
  }

  /** One event, dropped or applied, keeps the books reconciled. */
  lemma StepReconciles(opening: Balances, books: Books, d: Delivery)
    requires Reconciles(opening, books)
    ensures Reconciles(opening, Step(books, d))
  {
    var o := Transfer(books.balances, d.transaction, d.reply);
    if o.Applied? {
      TransferMatchesRecord(books.balances, d.transaction, d.reply);
      forall id | id in opening
        ensures Step(books, d).balances[id] == opening[id] + Net(books.records + [o.record], id)
      {
        NetAppend(books.records, o.record, id);
      }
    }
  }

  /** However a stream of events falls out (dropped or applied, any order),
      as long as every save succeeds, the books stay reconciled, and the ledger only ever grows at its end,
      by at most one record per event. */
  lemma {:induction false} ReplayReconciles(opening: Balances, books: Books, ds: seq<Delivery>)
    requires Reconciles(opening, books)
    ensures Reconciles(opening, Replay(books, ds))
    ensures |books.records| <= |Replay(books, ds).records| <= |books.records| + |ds|
    ensures Replay(books, ds).records[..|books.records|] == books.records
    decreases |ds|
  {
    if ds != [] {
      var next := Step(books, ds[0]);
      StepReconciles(opening, books, ds[0]);
      ReplayReconciles(opening, next, ds[1..]);
      assert next.records[..|books.records|] == books.records;
    }
  }

  /** The listener over its collaborators: the user store, the ledger store
      and the ledger store's id generator. */
  class TransactionListener {
    var balances: Balances
    var ledger: seq<StoredRecord>
    var nextId: nat
    /** The balances as they were before the first event this listener processed. */
    ghost var opening: Balances

    ghost predicate Valid()
      reads this
    {
      IdsAscending(ledger, nextId) && Reconciles(opening, Books(balances, Records(ledger)))
    }

    /** The listener wired to a user store holding `accounts` and an empty
        ledger. */
    constructor (accounts: Balances)
      ensures Valid()
      ensures balances == accounts && opening == accounts
      ensures ledger == [] && nextId == 0
    {
      balances := accounts;
      ledger := [];
      nextId := 0;
      opening := accounts;
    }

    /** The user store's lookup: the account's balance, or None when there
        is no user with that id. */
    method FindById(id: UserId) returns (balance: Option<int>)
      ensures balance.Some? <==> id in balances
      ensures balance.Some? ==> balance.value == balances[id]
    {
      if id in balances {
        balance := Some(balances[id]);
      } else {
        balance := None;
      }
    }

    /** The user store's save of one account with its new balance. */
    method SaveUser(id: UserId, balance: int)
      modifies this
      ensures balances == old(balances)[id := balance]
      ensures ledger == old(ledger) && nextId == old(nextId) && opening == old(opening)
    {
      balances := balances[id := balance];
    }

    /** The ledger store's save: the record gets the next id, which is
        returned, and goes at the end of the ledger. */
    method SaveRecord(record: TransactionRecord) returns (id: nat)
      modifies this
      ensures id == old(nextId) && nextId == old(nextId) + 1
      ensures ledger == old(ledger) + [StoredRecord(id, record)]
      ensures balances == old(balances) && opening == old(opening)
    {
      id := nextId;
      ledger := ledger + [StoredRecord(id, record)];
      nextId := nextId + 1;
    }

    /** Processes one event; `reply` is what the incentive service's call
        gives. A failed call ends the event before any balance is set. */
    method Listen(t: Transaction, reply: IncentiveReply)
      requires Valid()
      modifies this
      ensures Valid() && opening == old(opening)
      ensures Books(balances, Records(ledger)) == Step(old(Books(balances, Records(ledger))), Delivery(t, reply))
      ensures match Transfer(old(balances), t, reply)
        case Dropped(_) => balances == old(balances) && ledger == old(ledger) && nextId == old(nextId)
        case Applied(after, record) =>
          && balances == after
          && ledger == old(ledger) + [StoredRecord(old(nextId), record)]
          && nextId == old(nextId) + 1
    {
      ghost var books := Books(balances, Records(ledger));
      ghost var o := Transfer(balances, t, reply);
      var sender := FindById(t.senderId);
      var recipient := FindById(t.recipientId);
      if sender.None? || recipient.None? {
        return;
      }
      if sender.value < t.amount {
        return;
      }
      if reply.CallFailed? {
        return;
      }
      var incentive := IncentiveAmount(reply.body);
      var senderBalance := sender.value - t.amount;
      var recipientBalance := recipient.value + t.amount + incentive;
      SaveUser(t.senderId, senderBalance);
      SaveUser(t.recipientId, recipientBalance);
      var record := TransactionRecord(t.senderId, t.recipientId, t.amount, incentive);
      assert o == Applied(balances, record);
      var id := SaveRecord(record);
      RecordsAppend(old(ledger), StoredRecord(id, record));
      AppendKeepsIdsAscending(old(ledger), old(nextId), record);
      StepReconciles(opening, books, Delivery(t, reply));
      assert Step(books, Delivery(t, reply)) == Books(o.balances, books.records + [record]);
    }
  }
}
