/**
 The time-of-check/time-of-use gap of the charge protocol. Each attempt is
 split at its one gap into two steps: `Begin` (acquire a client, read the
 balance, compute the charge, authorize) and `Finish` (debit and release when
 authorized). Running the steps of several attempts in an interleaved order,
 one step at a time, shows how attempts that share a balance snapshot all
 authorize and drive the balance below what each of them saw.
 */
module Interleaving {
  import opened BalanceStore
  import opened ChargeProtocol

  /** What an attempt has decided after its read, before its debit. */
  datatype Pending = Pending(observed: Reading, charge: int, authorized: bool)

  datatype Begun = Begun(pending: Pending, store: Store)

  /** Several attempts finished in order: their results and the final store, or a store error. */
  datatype Batch = Batch(results: seq<ChargeResult>, store: Store) | BatchFailed(store: Store)

  /** First half of an attempt: connect (Redis), read, compute the charge, authorize. */
  function Begin(b: Backend, s: Store): (r: Begun)
    ensures r.pending.observed == ReadBalance(b, s)
    ensures r.pending.charge == Charges()
    ensures r.pending.authorized == Authorize(r.pending.observed, r.pending.charge)
    ensures r.store.balance == s.balance
    ensures r.store.openClients == s.openClients + (if b == Redis then 1 else 0)
  {
    var s1 := if b == Redis then Connect(s) else s;
    var observed := ReadBalance(b, s1);
    var charges := Charges();
    Begun(Pending(observed, charges, Authorize(observed, charges)), s1)
  }

  /**
   Second half of an attempt: when authorized, debit the store as it is NOW
   and report the value after the debit, then disconnect (Redis); when
   rejected, report the observed balance and touch nothing.
   */
  function Finish(b: Backend, p: Pending, s: Store): (r: Attempt)
    requires b == Redis && p.authorized ==> s.openClients > 0
    ensures !p.authorized ==> r == Completed(ChargeResult(p.observed, 0, false), s)
    ensures p.authorized && s.balance.None? ==> r == Failed(s)
    ensures p.authorized && s.balance.Some? ==>
              && r.Completed?
              && r.result == ChargeResult(Num(s.balance.value - p.charge), p.charge, true)
              && r.store.balance == Some(s.balance.value - p.charge)
              && r.store.openClients + (if b == Redis then 1 else 0) == s.openClients
  {
    if !p.authorized then
      Completed(ChargeResult(p.observed, 0, false), s)
    else
      match Decrement(s, p.charge)
      case KeyAbsent => Failed(s)
      case Decremented(s2, after) =>
        Completed(ChargeResult(Num(after), p.charge, true), if b == Redis then Disconnect(s2) else s2)
  }

  /** Running the two halves back to back is exactly one charge attempt, for either backend. */
  lemma SplitIsChargeRequest(b: Backend, s: Store)
    ensures Finish(b, Begin(b, s).pending, Begin(b, s).store) == ChargeRequest(b, s)
  {
  }

  /**
   The race: attempts A and B both read before either debits (read A, read B,
   debit A, debit B). Both observe the same balance, both authorize, and
   together they debit twice the charge, although each authorization only
   checked that the balance covered one.
   */
  lemma TwoAttemptRace(b: Backend, s: Store)
    requires s.balance.Some? && s.balance.value >= Charges()
    ensures var a := Begin(b, s);
            var c := Begin(b, a.store);
            && a.pending.observed == c.pending.observed == Num(s.balance.value)
            && a.pending.authorized && c.pending.authorized
            && var fa := Finish(b, a.pending, c.store);
               && fa.Completed? && fa.result.isAuthorized
               && var fc := Finish(b, c.pending, fa.store);
                  && fc.Completed? && fc.result.isAuthorized
                  && fc.store.balance == Some(s.balance.value - 2 * Charges())
                  && fc.store.openClients == s.openClients
  {
  }

  /**
   The concrete race from a balance of 1 with the charge of 1: both attempts
   see 1, both authorize, and the balance ends at -1, whereas the same two
   attempts run one after the other leave 0 and reject the second.
   */
  lemma RaceFromOne(b: Backend, s: Store)
    requires s.balance == Some(1)
    ensures var a := Begin(b, s);
            var c := Begin(b, a.store);
            && a.pending == c.pending == Pending(Num(1), 1, true)
            && var fa := Finish(b, a.pending, c.store);
               && fa.Completed? && fa.result == ChargeResult(Num(0), 1, true)
               && var fc := Finish(b, c.pending, fa.store);
                  && fc.Completed? && fc.result == ChargeResult(Num(-1), 1, true)
                  && fc.store.balance == Some(-1)
                  && !NonNegative(fc.store)
  {
  }

  /** `k` attempts read back to back before any of them debits. */
  function BeginAll(b: Backend, s: Store, k: nat): (r: (seq<Pending>, Store))
    ensures |r.0| == k
    ensures forall i :: 0 <= i < k ==> r.0[i] == Begin(b, s).pending
    ensures r.1.balance == s.balance
    ensures r.1.openClients == s.openClients + (if b == Redis then k else 0)
    decreases k
  {
    if k == 0 then ([], s)
    else
      var first := Begin(b, s);
      var rest := BeginAll(b, first.store, k - 1);
      ([first.pending] + rest.0, rest.1)
  }

  /** The pending attempts finished one after another, in order, from store `s`. */
  function FinishAll(b: Backend, ps: seq<Pending>, s: Store): Batch
    requires b == Redis ==> s.openClients >= |ps|
    decreases |ps|
  {
    if |ps| == 0 then Batch([], s)
    else
      match Finish(b, ps[0], s)
      case Failed(s') => BatchFailed(s')
      case Completed(r, s') =>
        match FinishAll(b, ps[1..], s')
        case BatchFailed(s'') => BatchFailed(s'')
        case Batch(rs, s'') => Batch([r] + rs, s'')
  }

  /** Finishing `n` copies of one authorized decision debits the current store `n` times. */
  lemma {:induction false} FinishAllAuthorized(b: Backend, p: Pending, ps: seq<Pending>, s: Store)
    requires p.authorized
    requires forall i :: 0 <= i < |ps| ==> ps[i] == p
    requires s.balance.Some?
    requires b == Redis ==> s.openClients >= |ps|
    ensures var r := FinishAll(b, ps, s);
            && r.Batch?
            && |r.results| == |ps|
            && (forall i :: 0 <= i < |ps| ==> r.results[i].isAuthorized && r.results[i].charges == p.charge)
            && r.store.balance == Some(s.balance.value - |ps| * p.charge)
            && r.store.openClients == s.openClients - (if b == Redis then |ps| else 0)
    decreases |ps|
  {
    if |ps| > 0 {
      var f := Finish(b, p, s);
      var tail := ps[1..];
      FinishAllAuthorized(b, p, tail, f.store);
      assert s.balance.value - p.charge - |tail| * p.charge == s.balance.value - |ps| * p.charge;
    }
  }

  /**
   The race with `k` attempts sharing one snapshot: all `k` read before any
   debits, every one of them authorizes, and the balance falls by `k` charges
   whatever it was, so from any balance below `k` it ends negative.
   */
  lemma SnapshotRace(b: Backend, s: Store, k: nat)
    requires s.balance.Some? && s.balance.value >= Charges()
    ensures var begun := BeginAll(b, s, k);
            var r := FinishAll(b, begun.0, begun.1);
            && r.Batch?
            && |r.results| == k
            && (forall i :: 0 <= i < k ==> r.results[i].isAuthorized)
            && r.store.balance == Some(s.balance.value - k)
            && r.store.openClients == s.openClients
            && (s.balance.value < k ==> !NonNegative(r.store))
  {
    var begun := BeginAll(b, s, k);
    FinishAllAuthorized(b, Begin(b, s).pending, begun.0, begun.1);
  }
}
