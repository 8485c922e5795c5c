/**
 Charge attempts and resets run one after another against one backend, each
 completing before the next starts. Under this schedule the check-then-debit
 protocol is safe: the balance never goes below zero, and it falls by exactly
 the charge for every authorization.
 */
module SequentialRuns {
  import opened BalanceStore
  import opened ChargeProtocol

  datatype Op = Charge | ResetBalance

  /** The store after one operation. */
  function Step(b: Backend, s: Store, op: Op): Store
  {
    match op
    case Charge => ChargeRequest(b, s).store
    case ResetBalance => Reset(b, s).store
  }

  /** The store after running `ops` in order. */
  function Run(b: Backend, s: Store, ops: seq<Op>): Store
    decreases |ops|
  {
    if |ops| == 0 then s else Run(b, Step(b, s, ops[0]), ops[1..])
  }

  /** How many of the charge attempts in `ops` are authorized. */
  function Authorized(b: Backend, s: Store, ops: seq<Op>): nat
    decreases |ops|
  {
    if |ops| == 0 then 0
    else
      var hit := if ops[0] == Charge && ChargeRequest(b, s).result.isAuthorized then 1 else 0;
      hit + Authorized(b, Step(b, s, ops[0]), ops[1..])
  }

  /** How many of the charge attempts in `ops` are rejected. */
  function Rejected(b: Backend, s: Store, ops: seq<Op>): nat
    decreases |ops|
  {
    if |ops| == 0 then 0
    else
      var miss := if ops[0] == Charge && !ChargeRequest(b, s).result.isAuthorized then 1 else 0;
      miss + Rejected(b, Step(b, s, ops[0]), ops[1..])
  }

  /** `n` charge attempts in a row. */
  function ChargeOps(n: nat): (ops: seq<Op>)
    ensures |ops| == n
    ensures forall i :: 0 <= i < n ==> ops[i] == Charge
  {
    seq(n, i => Charge)
  }

  /** A sequential run that starts from a non-negative (or absent) balance never drives it negative. */
  lemma {:induction false} RunKeepsNonNegative(b: Backend, s: Store, ops: seq<Op>)
    requires NonNegative(s)
    ensures NonNegative(Run(b, s, ops))
    decreases |ops|
  {
    if |ops| > 0 {
      ChargeConservesBalance(b, s);
      RunKeepsNonNegative(b, Step(b, s, ops[0]), ops[1..]);
    }
  }

  /** Without resets, the balance falls by exactly one charge per authorized attempt. */
  lemma {:induction false} RunDebitsPerAuthorization(b: Backend, s: Store, ops: seq<Op>)
    requires s.balance.Some?
    requires forall i :: 0 <= i < |ops| ==> ops[i] == Charge
    ensures Run(b, s, ops).balance == Some(s.balance.value - Charges() * Authorized(b, s, ops))
    decreases |ops|
  {
    if |ops| > 0 {
      ChargeConservesBalance(b, s);
      RunDebitsPerAuthorization(b, Step(b, s, ops[0]), ops[1..]);
    }
  }

  /** Redis: every rejected attempt leaves one client open; authorized attempts and resets leave none. */
  lemma {:induction false} RedisLeaksOnePerRejection(s: Store, ops: seq<Op>)
    ensures Run(Redis, s, ops).openClients == s.openClients + Rejected(Redis, s, ops)
    decreases |ops|
  {
    if |ops| > 0 {
      RedisLeaksOnePerRejection(Step(Redis, s, ops[0]), ops[1..]);
    }
  }

  /** The cache backend uses its shared client and opens nothing. */
  lemma {:induction false} MemcachedOpensNoClients(s: Store, ops: seq<Op>)
    ensures Run(Memcached, s, ops).openClients == s.openClients
    decreases |ops|
  {
    if |ops| > 0 {
      MemcachedOpensNoClients(Step(Memcached, s, ops[0]), ops[1..]);
    }
  }

  /**
   From a balance of `v`, `n` sequential attempts authorize exactly
   `min(n, v)` of them (the charge is 1) and leave `v - min(n, v)`.
   */
  lemma {:induction false} SequentialDrain(b: Backend, s: Store, v: nat, n: nat)
    requires s.balance == Some(v)
    ensures Authorized(b, s, ChargeOps(n)) == (if n <= v then n else v)
    ensures Run(b, s, ChargeOps(n)).balance == Some(v - (if n <= v then n else v))
    decreases n
  {
    if n > 0 {
      var ops := ChargeOps(n);
      assert ops[1..] == ChargeOps(n - 1);
      var s' := Step(b, s, Charge);
      if v > 0 {
        SequentialDrain(b, s', v - 1, n - 1);
      } else {
        SequentialDrain(b, s', 0, n - 1);
      }
    }
  }

  /** Two sequential attempts from a balance of 1: the first authorizes, the second is rejected, the balance ends at 0. */
  lemma SequentialPairFromOne(b: Backend, s: Store)
    requires s.balance == Some(1)
    ensures ChargeRequest(b, s).result.isAuthorized
    ensures !ChargeRequest(b, ChargeRequest(b, s).store).result.isAuthorized
    ensures Run(b, s, [Charge, Charge]).balance == Some(0)
  {
  }
}
