/**
 The charge protocol: read the balance, compute the charge, authorize when
 the balance covers it, and only then debit the store. Both backends follow
 the same protocol; they differ in how an absent key reads back and in how
 clients are opened and closed.
 */
module ChargeProtocol {
  import opened BalanceStore

  datatype Backend = Redis | Memcached

  /**
   What one attempt returns to its caller. The read latency index.js
   reports alongside is not modelled.
   */
  datatype ChargeResult = ChargeResult(remainingBalance: Reading, charges: int, isAuthorized: bool)

  /**
   An attempt either completes with a result, or fails because the store
   reported an error on the decrement (the error propagates; the store is
   left as it was at that point).
   */
  datatype Attempt = Completed(result: ChargeResult, store: Store) | Failed(store: Store)

  /** Reset returns the value it set, and the store after the set. */
  datatype ResetOutcome = ResetOutcome(value: int, store: Store)

  /**
   `getCharges`: one percent of the default balance. The division is exact,
   so the JavaScript floating-point quotient is this integer.
   */
  function Charges(): (c: int)
    ensures c * 100 == DefaultBalance
    ensures 0 < c <= DefaultBalance
  {
    DefaultBalance / 100
  }

  /** `authorizeRequest`: `balance >= charges`; NaN compares false. */
  function Authorize(balance: Reading, charges: int): (ok: bool)
    ensures ok <==> balance.Num? && charges <= balance.n
  {
    match balance
    case Num(n) => n >= charges
    case NaN => false
  }

  /** The value a backend's balance read yields for the stored value. */
  function ReadBalance(b: Backend, s: Store): (r: Reading)
    ensures b == Redis ==> r == Num(if s.balance.Some? then s.balance.value else 0)
    ensures b == Memcached ==> (r.NaN? <==> s.balance.None?)
    ensures s.balance.Some? ==> r == Num(s.balance.value)
  {
    match b
    case Redis => Num(ParseRedis(s.balance))
    case Memcached => NumberOf(s.balance)
  }

  /** The observed balance authorizes the fixed charge exactly when the key holds at least that much. */
  lemma ReadAuthorizes(b: Backend, s: Store)
    ensures Authorize(ReadBalance(b, s), Charges()) <==> s.balance.Some? && s.balance.value >= Charges()
  {
  }

  /** `chargeRequestRedis`: connect, read, authorize, and debit and disconnect only when authorized. */
  function ChargeRequestRedis(s: Store): (r: Attempt)
    ensures r.Completed?
    ensures r.result.isAuthorized <==> s.balance.Some? && s.balance.value >= Charges()
    ensures !r.result.isAuthorized ==>
              && r.result == ChargeResult(Num(ParseRedis(s.balance)), 0, false)
              && r.store.balance == s.balance
              && r.store.openClients == s.openClients + 1
    ensures r.result.isAuthorized ==>
              && r.result.charges == Charges()
              && r.store.balance == Some(s.balance.value - Charges())
              && r.result.remainingBalance == Num(r.store.balance.value)
              && r.store.openClients == s.openClients
  {
    var s1 := Connect(s);
    var remaining := Num(ParseRedis(s1.balance));
    var charges := Charges();
    var isAuthorized := Authorize(remaining, charges);
    if !isAuthorized then
      Completed(ChargeResult(remaining, 0, isAuthorized), s1)
    else
      match Decrement(s1, charges)
      case KeyAbsent => Failed(s1)
      case Decremented(s2, after) =>
        Completed(ChargeResult(Num(after), charges, isAuthorized), Disconnect(s2))
  }

  /** `chargeRequestMemcached`: read through the shared client, authorize, and debit only when authorized. */
  function ChargeRequestMemcached(s: Store): (r: Attempt)
    ensures r.Completed?
    ensures r.store.openClients == s.openClients
    ensures r.result.isAuthorized <==> s.balance.Some? && s.balance.value >= Charges()
    ensures !r.result.isAuthorized ==>
              && r.result == ChargeResult(NumberOf(s.balance), 0, false)
              && r.store == s
    ensures r.result.isAuthorized ==>
              && r.result.charges == Charges()
              && r.store.balance == Some(s.balance.value - Charges())
              && r.result.remainingBalance == Num(r.store.balance.value)
  {
    var remaining := NumberOf(s.balance);
    var charges := Charges();
    var isAuthorized := Authorize(remaining, charges);
    if !Authorize(remaining, charges) then
      Completed(ChargeResult(remaining, 0, isAuthorized), s)
    else
      match Decrement(s, charges)
      case KeyAbsent => Failed(s)
      case Decremented(s2, after) =>
        Completed(ChargeResult(Num(after), charges, isAuthorized), s2)
  }

  /** The public entry point, selecting the backend. */
  function ChargeRequest(b: Backend, s: Store): Attempt
  {
    match b
    case Redis => ChargeRequestRedis(s)
    case Memcached => ChargeRequestMemcached(s)
  }

  /** `resetRedis`: connect, set the default balance, disconnect, return the default. */
  function ResetRedis(s: Store): (r: ResetOutcome)
    ensures r.value == DefaultBalance
    ensures r.store.balance == Some(DefaultBalance)
    ensures r.store.openClients == s.openClients
  {
    var s1 := Connect(s);
    var s2 := SetBalance(s1, DefaultBalance);
    ResetOutcome(DefaultBalance, Disconnect(s2))
  }

  /**
   `resetMemcached` on a set the cache acknowledges: set the default balance
   (with a 30-day expiration, not modelled) and return it. This is the reset
   as intended; `ResetMemcachedSettled` covers both replies of the cache.
   */
  function ResetMemcached(s: Store): (r: ResetOutcome)
    ensures r.value == DefaultBalance
    ensures r.store == Store(Some(DefaultBalance), s.openClients)
  {
    ResetOutcome(DefaultBalance, SetBalance(s, DefaultBalance))
  }

  // ---------------------------------------------------------------------
  // The cache reset's callback
  // ---------------------------------------------------------------------

  /** How the cache answers a set: acknowledged, or an error. */
  datatype SetReply = SetAcknowledged | SetError

  /** How the promise a reset returns settles. */
  datatype Settled = Resolved(value: int) | Rejected

  datatype SettledReset = SettledReset(settled: Settled, store: Store)

  /**
   The truthiness of the two arguments the cache client passes to a set
   callback. Like its `get` and `decr` callbacks, they come error first:
   the error (empty on success), then the result (a truthy acknowledgement).
   */
  function SetCallbackArgs(reply: SetReply): (args: (bool, bool))
    ensures args.0 <==> reply == SetError
    ensures args.1 <==> reply == SetAcknowledged
  {
    match reply
    case SetAcknowledged => (false, true)
    case SetError => (true, false)
  }

  /** The store after the set: it holds the default only if the cache acknowledged. */
  function StoreAfterSet(s: Store, reply: SetReply): (r: Store)
    ensures reply == SetAcknowledged ==> r == SetBalance(s, DefaultBalance)
    ensures reply == SetError ==> r == s
  {
    match reply
    case SetAcknowledged => SetBalance(s, DefaultBalance)
    case SetError => s
  }

  /**
   `resetMemcached` as written: the callback names its parameters
   `(res, error)` and rejects when the second one is truthy, which under the
   error-first order is the success acknowledgement.
   */
  function ResetMemcachedAsWritten(s: Store, reply: SetReply): (r: SettledReset)
    ensures r.store == StoreAfterSet(s, reply)
    ensures r.settled.Rejected? <==> SetCallbackArgs(reply).1
    ensures r.settled.Rejected? <==> ResetMemcachedSettled(s, reply).settled.Resolved?
    ensures r.store == ResetMemcachedSettled(s, reply).store
  {
    var (res, error) := SetCallbackArgs(reply);
    var settled := if error then Rejected else Resolved(DefaultBalance);
    SettledReset(settled, StoreAfterSet(s, reply))
  }

  /**
   The as-written reset inverts its outcome: an acknowledged set rejects
   although the store now holds the default, and a failed set resolves the
   default although the store was not changed.
   */
  lemma AsWrittenResetInverted(s: Store)
    ensures ResetMemcachedAsWritten(s, SetAcknowledged).settled == Rejected
    ensures ResetMemcachedAsWritten(s, SetAcknowledged).store.balance == Some(DefaultBalance)
    ensures ResetMemcachedAsWritten(s, SetError).settled == Resolved(DefaultBalance)
    ensures ResetMemcachedAsWritten(s, SetError).store == s
  {
  }

  /** `resetMemcached` with the callback read error first, as intended. */
  function ResetMemcachedSettled(s: Store, reply: SetReply): (r: SettledReset)
    ensures r.store == StoreAfterSet(s, reply)
    ensures r.settled == Resolved(DefaultBalance) <==> reply == SetAcknowledged
    ensures r.settled.Rejected? <==> reply == SetError
    ensures r.settled.Resolved? ==> r.store.balance == Some(r.settled.value)
  {
    var (err, _) := SetCallbackArgs(reply);
    var settled := if err then Rejected else Resolved(DefaultBalance);
    SettledReset(settled, StoreAfterSet(s, reply))
  }

  /**
   The intended reset resolves exactly when the store was set, to the value
   the store then holds, and on acknowledgement it agrees with the
   `ResetMemcached` the rest of the model uses.
   */
  lemma SettledResetAgrees(s: Store, reply: SetReply)
    ensures ResetMemcachedSettled(s, reply).settled.Resolved? <==>
            ResetMemcachedSettled(s, reply).store.balance == Some(DefaultBalance) && reply == SetAcknowledged
    ensures ResetMemcachedSettled(s, SetAcknowledged) ==
            SettledReset(Resolved(ResetMemcached(s).value), ResetMemcached(s).store)
  {
  }

  /** The reset entry point, selecting the backend. */
  function Reset(b: Backend, s: Store): ResetOutcome
  {
    match b
    case Redis => ResetRedis(s)
    case Memcached => ResetMemcached(s)
  }

  // ---------------------------------------------------------------------
  // Properties of single attempts and resets
  // ---------------------------------------------------------------------

  /** The tie authorizes, anything below the charge does not, and NaN never does. */
  lemma AuthorizeThreshold(n: int, c: int)
    ensures Authorize(Num(n), c) <==> n >= c
    ensures Authorize(Num(c), c)
    ensures n < c ==> !Authorize(Num(n), c)
    ensures !Authorize(NaN, c)
  {
  }

  /** Authorization is monotone in the observed balance. */
  lemma AuthorizeMonotone(n: int, m: int, c: int)
    requires n <= m
    ensures Authorize(Num(n), c) ==> Authorize(Num(m), c)
  {
  }

  /**
   Either backend: a rejected attempt leaves the balance unchanged and charges
   nothing, and an authorized one lowers the balance by exactly the charge it
   reports, which is the same charge it authorized against.
   */
  lemma ChargeConservesBalance(b: Backend, s: Store)
    ensures ChargeRequest(b, s).Completed?
    ensures var r := ChargeRequest(b, s);
            r.result.isAuthorized == Authorize(ReadBalance(b, s), Charges())
    ensures var r := ChargeRequest(b, s);
            !r.result.isAuthorized ==> r.result.charges == 0 && r.store.balance == s.balance
    ensures var r := ChargeRequest(b, s);
            r.result.isAuthorized ==>
              && s.balance.Some? && r.store.balance.Some?
              && s.balance.value - r.store.balance.value == r.result.charges == Charges()
  {
  }

  /** A rejected attempt reports the balance it observed, which for either backend is what the store holds. */
  lemma RejectionReportsObserved(b: Backend, s: Store)
    requires !ChargeRequest(b, s).result.isAuthorized
    ensures ChargeRequest(b, s).result.remainingBalance == ReadBalance(b, s)
  {
  }

  /** The absent key: Redis reads 0 and rejects, the cache reads NaN and rejects; neither decrements. */
  lemma AbsentKeyRejected(b: Backend, s: Store)
    requires s.balance.None?
    ensures ChargeRequest(b, s).result.isAuthorized == false
    ensures ChargeRequest(b, s).result.charges == 0
    ensures ChargeRequest(b, s).store.balance.None?
    ensures b == Redis ==> ChargeRequest(b, s).result.remainingBalance == Num(0)
    ensures b == Memcached ==> ChargeRequest(b, s).result.remainingBalance == NaN
  {
  }

  /** Starting from the default balance one attempt leaves 99 and charges 1. */
  lemma FromDefaultBalance(b: Backend, s: Store)
    requires s.balance == Some(DefaultBalance)
    ensures ChargeRequest(b, s).result == ChargeResult(Num(99), 1, true)
    ensures ChargeRequest(b, s).store.balance == Some(99)
  {
  }

  /** Starting from an empty balance one attempt is rejected and reports 0. */
  lemma FromZeroBalance(b: Backend, s: Store)
    requires s.balance == Some(0)
    ensures ChargeRequest(b, s).result == ChargeResult(Num(0), 0, false)
    ensures ChargeRequest(b, s).store.balance == Some(0)
  {
  }

  /**
   Redis client accounting: an authorized attempt opens and closes its
   client, a rejected one returns before closing it and leaves it open.
   */
  lemma RedisClientAccounting(s: Store)
    ensures var r := ChargeRequestRedis(s);
            r.store.openClients == s.openClients + (if r.result.isAuthorized then 0 else 1)
  {
  }

  /**
   Either backend: reset returns the default, a following read observes it,
   and resetting again changes nothing.
   */
  lemma ResetIdempotent(b: Backend, s: Store)
    ensures Reset(b, s).value == DefaultBalance
    ensures ReadBalance(b, Reset(b, s).store) == Num(DefaultBalance)
    ensures Reset(b, Reset(b, s).store) == Reset(b, s)
  {
  }
}
