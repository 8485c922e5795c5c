/**
 The balance record as the two backing stores hold it, and the three store
 primitives the charge protocol uses on it: read, decrement and set.

 The remote key/value store is abstracted to the one key the protocol touches
 (`account1/balance`): its value is either absent or an integer. For the
 connection-oriented (Redis) backend the store also counts the clients that
 have been opened and not yet closed.
 */
module BalanceStore {

  /** The starting (and reset) balance of the account. */
  const DefaultBalance: int := 100

  datatype Option<+T> = None | Some(value: T)

  /**
   The balance record plus the number of Redis clients currently open.
   `balance == None` means the key has never been set.
   */
  datatype Store = Store(balance: Option<int>, openClients: nat)

  /**
   A JavaScript number as the protocol sees it after a read: an integer, or
   NaN (what `Number(undefined)` yields for an absent cache entry).
   */
  datatype Reading = Num(n: int) | NaN

  /** Redis read: `parseInt(res || "0")`, so an absent key reads as 0. */
  function ParseRedis(v: Option<int>): (r: int)
    ensures v.Some? ==> r == v.value
    ensures v.None? ==> r == 0
  {
    match v
    case Some(n) => n
    case None => 0
  }

  /** Cache read: `Number(data)`, so an absent entry reads as NaN. */
  function NumberOf(v: Option<int>): (r: Reading)
    ensures r.NaN? <==> v.None?
    ensures r.Num? ==> r.n == ParseRedis(v)
  {
    match v
    case Some(n) => Num(n)
    case None => NaN
  }

  /** The outcome of a decrement: the new store and the post-decrement value. */
  datatype Decremented = Decremented(store: Store, value: int) | KeyAbsent

  /**
   Atomic decrement of the balance by `amount`, returning the value after the
   decrement. A decrement of an absent key is reported as a store error.
   */
  function Decrement(s: Store, amount: int): (r: Decremented)
    ensures r.KeyAbsent? <==> s.balance.None?
    ensures r.Decremented? ==> r.value == s.balance.value - amount
    ensures r.Decremented? ==> r.store.balance == Some(r.value)
    ensures r.Decremented? ==> r.store.openClients == s.openClients
    ensures r.Decremented? ==> r.value == ParseRedis(s.balance) - amount
    ensures r.Decremented? ==> ParseRedis(r.store.balance) == r.value && NumberOf(r.store.balance) == Num(r.value)
  {
    match s.balance
    case None => KeyAbsent
    case Some(n) => Decremented(s.(balance := Some(n - amount)), n - amount)
  }

  /** Administrative overwrite of the balance; leaves the client count alone. */
  function SetBalance(s: Store, value: int): (r: Store)
    ensures r.balance == Some(value)
    ensures ParseRedis(r.balance) == value && NumberOf(r.balance) == Num(value)
    ensures r.openClients == s.openClients
  {
    s.(balance := Some(value))
  }

  /** `getRedisClient`: one more client is open. */
  function Connect(s: Store): (r: Store)
    ensures r.openClients == s.openClients + 1
    ensures r.balance == s.balance
  {
    s.(openClients := s.openClients + 1)
  }

  /** `disconnectRedis`: an open client is closed. */
  function Disconnect(s: Store): (r: Store)
    requires s.openClients > 0
    ensures r.openClients + 1 == s.openClients
    ensures r.balance == s.balance
  {
    s.(openClients := s.openClients - 1)
  }

  /**
   The two backends read a present key alike, as its stored value, and differ
   exactly on an absent key: Redis reads 0, the cache reads NaN.
   */
  lemma ReadsAgree(v: Option<int>)
    ensures v.Some? <==> NumberOf(v) == Num(ParseRedis(v))
    ensures v.Some? ==> Some(ParseRedis(v)) == v
    ensures v.None? ==> ParseRedis(v) == 0 && NumberOf(v) == NaN
  {
  }

  /**
   Two decrements in a row act as one decrement by the sum: what the second
   returns is what a single decrement by both amounts would return.
   */
  lemma DecrementsCompose(s: Store, a: int, c: int)
    requires s.balance.Some?
    ensures Decrement(s, a).Decremented?
    ensures Decrement(Decrement(s, a).store, c) == Decrement(s, a + c)
  {
  }

  /** Closing the client just opened restores the store, and opening after a close restores it too. */
  lemma DisconnectUndoesConnect(s: Store)
    ensures Disconnect(Connect(s)) == s
    ensures s.openClients > 0 ==> Connect(Disconnect(s)) == s
  {
  }

  /** The balance record holds no negative value. */
  predicate NonNegative(s: Store) {
    s.balance.None? || s.balance.value >= 0
  }
}
