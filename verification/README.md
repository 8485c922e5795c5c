# CloudCharging charge protocol, modelled in Dafny

CloudCharging admits a request only after charging it against one balance
record, `account1/balance`, kept in a remote store. Each attempt reads the
balance and computes the charge. The charge is `DEFAULT_BALANCE / 100`, which
is 1. The attempt is authorized when `balance >= charge`. Only an authorized
attempt decrements the store, and it then reports the value left after the
decrement. An administrative reset sets the balance back to 100. There are
two backends:

- Redis. Each call connects. Resets and authorized attempts disconnect;
  rejected attempts do not. An absent key reads as 0.
- Memcached. One long-lived client is shared. An absent key reads as `NaN`,
  and `NaN` never authorizes.

The model is a pure state machine:

- `BalanceStore` (`store.dfy`): the store state and its primitives. The state
  is an optional integer balance plus a count of Redis clients that are open.
  The primitives are read (for each backend), decrement, set, connect and
  disconnect.
- `ChargeProtocol` (`protocol.dfy`): `getCharges`, `authorizeRequest`, the two
  `chargeRequest*` functions and the two `reset*` functions, with their
  single-call properties.
- `SequentialRuns` (`sequential.dfy`): attempts and resets run one after
  another. Under that schedule the balance never goes negative. It falls by
  exactly one charge per authorization. Every rejected Redis attempt leaves
  one client open.
- `Interleaving` (`interleaving.dfy`): each attempt is split at its
  check-then-debit gap into `Begin` (read and authorize) and `Finish` (debit).
  The lemmas show attempts that share one snapshot all authorizing and driving
  the balance negative. From a balance of 1, two such attempts end at -1.

The race is reproduced as the code behaves, not fixed. A balance-conserving
design would fold the check into the store's decrement as a conditional
"decrement only if sufficient" primitive. The code does not do that, so the
model does not either.

Three behaviours of the code shape the model:

- Absent key. The Memcached read yields `NaN` (`Number(undefined)`), not 0.
- Rejected Redis attempt. It returns before `disconnectRedis`, so its client
  is never released.
- Negative balances. The balance record can go negative (through the race),
  so the store holds any integer.

## Model

| member | source | states |
|---|---|---|
| BalanceStore.ReadsAgree | index.js:123-141 | The Redis and cache reads agree exactly when the key is present, and then give its stored value; on an absent key Redis reads 0 and the cache reads NaN. |
| BalanceStore.Decrement | index.js:127-129 | Decrementing an absent key is a store error; otherwise the value returned is the previous read minus the amount, and the next read on either backend observes exactly that returned value. |
| BalanceStore.DecrementsCompose | index.js:127-129 | Two decrements in a row return and leave what one decrement by the sum of the amounts would. |
| BalanceStore.SetBalance | index.js:38 | After a set, a read on either backend observes the value set; no client is opened or closed. |
| BalanceStore.DisconnectUndoesConnect | index.js:84-116 | Quitting the Redis client just acquired restores the store, and acquiring one after a quit restores it as well. |
| ChargeProtocol.Charges | index.js:120-122 | The charge divides the default balance exactly 100 times (so the floating-point quotient is this integer) and is positive and at most the default balance. |
| ChargeProtocol.ReadBalance | index.js:123-141 | A present key reads as its value on both backends; an absent key reads 0 on Redis and NaN on Memcached. |
| ChargeProtocol.ReadAuthorizes | index.js:13-17 | On either backend the observed balance authorizes the charge exactly when the key holds at least the charge. |
| ChargeProtocol.ChargeRequestRedis | index.js:10-34 | The attempt never fails; it authorizes iff the key holds at least the charge; a rejection returns the observed balance with charge 0, leaves the balance, and leaves its client open; an authorization debits exactly the charge, returns the post-debit value and closes its client. |
| ChargeProtocol.ChargeRequestMemcached | index.js:61-83 | The attempt never fails and opens no client; it authorizes iff the key holds at least the charge; a rejection returns the observed reading (NaN when absent) with charge 0 and changes nothing; an authorization debits exactly the charge and returns the post-debit value. |
| ChargeProtocol.ResetRedis | index.js:35-49 | Reset returns 100, leaves the balance at 100, and leaves the open-client count as it found it. |
| ChargeProtocol.ResetMemcached | index.js:50-60 | On an acknowledged set, reset returns 100 and leaves the balance at 100 with nothing else changed (the intended outcome; see Findings). |
| ChargeProtocol.ResetMemcachedAsWritten | index.js:50-60 | The reset as written settles the opposite way to the intended reset: it rejects exactly when the intended reset resolves, while leaving the store exactly as the intended reset does. |
| ChargeProtocol.AsWrittenResetInverted | index.js:52-57 | As written, an acknowledged set rejects although the store now holds 100, and a failed set resolves 100 although the store is unchanged. |
| ChargeProtocol.ResetMemcachedSettled | index.js:50-60 | The intended reset resolves 100 exactly when the set was acknowledged, rejects exactly on an error, and a resolved value is what the store then holds. |
| ChargeProtocol.SettledResetAgrees | index.js:50-60 | The intended reset resolves exactly when the store was set to 100, and on acknowledgement it equals the reset the rest of the model uses. |
| ChargeProtocol.AuthorizeThreshold | index.js:117-119 | A numeric balance authorizes exactly when it is at least the charge; the tie `balance == charge` authorizes, any balance below the charge is rejected, and NaN is rejected. |
| ChargeProtocol.AuthorizeMonotone | index.js:117-119 | A larger observed balance authorizes whenever a smaller one does. |
| ChargeProtocol.ChargeConservesBalance | index.js:16-33 | For either backend the authorization uses the same charge as the debit; a rejection charges 0 and leaves the balance unchanged; an authorization lowers the stored balance by exactly the reported charge. |
| ChargeProtocol.RejectionReportsObserved | index.js:18-25 | A rejected attempt reports as remaining balance the value its read observed. |
| ChargeProtocol.AbsentKeyRejected | index.js:124-137 | With the key absent, both backends reject without decrementing; Redis reports 0 and Memcached reports NaN. |
| ChargeProtocol.FromDefaultBalance | index.js:7-33 | From a balance of 100 one attempt returns remaining 99, charge 1, authorized, and the store holds 99. |
| ChargeProtocol.FromZeroBalance | index.js:13-25 | From a balance of 0 one attempt returns remaining 0, charge 0, not authorized, and the store still holds 0. |
| ChargeProtocol.RedisClientAccounting | index.js:11-27 | An authorized Redis attempt leaves the open-client count unchanged; a rejected one raises it by one. |
| ChargeProtocol.ResetIdempotent | index.js:35-60 | On either backend (Memcached: the intended reset; see Findings) reset returns 100, a following read observes 100, and a second reset yields the same outcome as the first. |
| SequentialRuns.RunKeepsNonNegative | index.js:10-83 | Any sequence of attempts and resets run one at a time, starting from a non-negative or absent balance, ends with a non-negative or absent balance. |
| SequentialRuns.RunDebitsPerAuthorization | index.js:16-33 | Over any sequence of attempts without resets the balance falls by the charge times the number of authorized attempts. |
| SequentialRuns.RedisLeaksOnePerRejection | index.js:10-49 | Over any sequence of Redis attempts and resets the open-client count grows by exactly the number of rejected attempts. |
| SequentialRuns.MemcachedOpensNoClients | index.js:50-83 | Memcached attempts and resets never change the open-client count. |
| SequentialRuns.SequentialDrain | index.js:10-83 | From a balance v, n attempts one after another authorize exactly min(n, v) of them and leave v - min(n, v). |
| SequentialRuns.SequentialPairFromOne | index.js:10-83 | From a balance of 1, two attempts one after the other authorize the first, reject the second, and leave 0. |
| Interleaving.Begin | index.js:11-17 | The first half of an attempt observes the backend's read of the balance, fixes the charge, authorizes by the threshold, changes no balance, and opens one client on Redis. |
| Interleaving.Finish | index.js:18-33 | The second half of an attempt does nothing when rejected; when authorized it debits the store as it is at that moment, reports the post-debit value, and closes the Redis client; an absent key is a store error. |
| Interleaving.SplitIsChargeRequest | index.js:10-83 | Running Begin and then Finish with nothing in between is exactly one charge attempt, on either backend. |
| Interleaving.TwoAttemptRace | index.js:13-33 | With two attempts ordered read, read, debit, debit from any balance covering one charge, both observe the same balance, both authorize, and the balance falls by two charges. |
| Interleaving.RaceFromOne | index.js:13-26 | From a balance of 1, the interleaved pair both observe 1 and authorize, report 0 and -1, and leave the balance at -1. |
| Interleaving.BeginAll | index.js:11-17 | k reads in a row all observe the same pending decision, change no balance, and open k Redis clients. |
| Interleaving.FinishAllAuthorized | index.js:26-33 | Finishing n copies of one authorized decision in order authorizes all n and lowers the balance by n times the charge. |
| Interleaving.SnapshotRace | index.js:13-33 | k attempts that all read before any debits all authorize, lower the balance by k, close all their clients, and leave it negative whenever it started below k. |

## Left out

- Client libraries and their wire protocols. This covers Redis client
  construction, the `ready` event and the `quit` reply check (index.js:84-116).
  They are modelled only as connect and disconnect steps on the open-client
  count.
- Environment configuration (`ENDPOINT`, `PORT`). It has no effect on the
  protocol's logic.
- The `checkBalanceTimeTaken` latency (`process.hrtime`). It is wall-clock
  time and floating-point arithmetic, so `ChargeResult` has no timing field.
- Promise rejections. Store errors on read, decrement and the Redis set are
  not modelled, and neither are `quit` errors. The one exception is the
  cache reset, whose callback outcome is modelled (see Findings). The model has no retries or
  recovery, and index.js has none either.
- Library behaviour of a decrement. Redis `DECRBY` on an absent key and
  Memcached `decr` clamping at zero are not visible in index.js. A decrement
  is plain integer subtraction, and a decrement of an absent key is modelled
  as a store error. No attempt reaches that error, because an absent key
  never authorizes.
- Expiration. The Memcached reset attaches a 30-day expiration
  (`MAX_EXPIRATION`, index.js:8), but expiry depends on time, so the entry
  never expires in the model.
- The key name. The store has only the one record `account1/balance`, so it
  is not modelled as a map.
- The `input` argument of both charge functions. index.js never uses it.
- The promise plumbing of `resetRedis`. It returns the set's promise after
  awaiting `disconnectRedis`; the store sees the set and then the quit, and
  the model applies them in that order.
- ResetMemcached: promises only the outcome of an acknowledged set, the
  intended one. The as-written callback, which inverts the outcome, is
  modelled separately under Findings.
- Real concurrent scheduling. Only explicit interleavings of the two halves
  of attempts are modelled: two attempts, and k attempts that share one
  snapshot.

## Findings

| source | as written | input that shows it | evidently intended | confidence | as-written member | corrected member |
|---|---|---|---|---|---|---|
| index.js:52-57 | The set callback is declared `(res, error)` and rejects when `error` is truthy; the client passes the error first and the result second, as its `get` and `decr` callbacks at index.js:132 and index.js:144 are written | A set the cache acknowledges (no error, truthy result): the promise rejects while the store holds 100; a failed set resolves 100 while the store is unchanged | Resolve 100 when the set is acknowledged, reject when it reports an error | medium, not executed | ChargeProtocol.AsWrittenResetInverted | ChargeProtocol.ResetMemcachedSettled |
