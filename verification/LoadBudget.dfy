/** The reload rate limit over whole traces of one cipher used by one call at a
    time: arbitrary streams of blobs, store failures and cancellations. */
module LoadBudget {
  import opened Aead
  import opened Blobs
  import opened Ciphers

  datatype Event =
    | EvEncrypt(plaintext: seq<byte>, call: Call)
    | EvDecrypt(blob: Blob, call: Call)
    | EvReload(reload: Reload)

  function ReloadOf(ev: Event): (r: Reload) {
    if ev.EvReload? then ev.reload else ev.call.reload
  }

  function StartOf(ev: Event): (t: Time) {
    if ev.EvReload? then ev.reload.entered else ev.call.check
  }

  function EndOf(ev: Event): (t: Time) { ReloadOf(ev).startedAt }

  /** Clock readings of one call never go back. */
  predicate Timely(ev: Event) {
    && ReloadOf(ev).entered <= ReloadOf(ev).startedAt
    && (!ev.EvReload? ==> ev.call.check <= ev.call.rateCheck <= ReloadOf(ev).entered)
  }

  function After(st: State, ev: Event): (st': State) {
    match ev
    case EvEncrypt(plaintext, call) => if plaintext == [] then st else EncryptState(st, true, call)
    case EvDecrypt(blob, call) => DecryptState(st, true, blob, call).0
    case EvReload(reload) => Reloaded(st, reload).0
  }

  /** The states of the trace are those the calls themselves leave. */
  lemma AfterIsTheCall(g: Aead, st: State, ev: Event)
    ensures ev.EvEncrypt? ==> After(st, ev) == Encrypted(g, st, true, ev.plaintext, ev.call).0
    ensures ev.EvDecrypt? ==> After(st, ev) == Decrypted(g, st, true, ev.blob, ev.call).0
  {
  }

  /** The call reaches the store with a live context, so its load is charged. */
  predicate Charges(st: State, r: Reload) {
    st.keys.loadedAt <= r.entered && r.answer != LoadFailed(true)
  }

  /** Encrypt or a decrypt decided to reload on its own. */
  predicate Triggers(st: State, ev: Event) {
    match ev
    case EvEncrypt(plaintext, call) => plaintext != [] && EncryptReloads(st, call)
    case EvDecrypt(blob, call) => DecryptReloads(st, blob, call)
    case EvReload(_) => false
  }

  function StateAt(st: State, evs: seq<Event>, n: nat): (st': State)
    requires n <= |evs|
  {
    if n == 0 then st else After(StateAt(st, evs, n - 1), evs[n - 1])
  }

  predicate IsCharged(st: State, evs: seq<Event>, i: nat)
    requires i < |evs|
  {
    var s := StateAt(st, evs, i);
    (evs[i].EvReload? || Triggers(s, evs[i])) && Charges(s, ReloadOf(evs[i]))
  }

  /** Start of the latest charged load of any kind; the constructor's at first. */
  function LatestCharge(st: State, evs: seq<Event>, n: nat): (t: Time)
    requires n <= |evs|
  {
    if n == 0 then st.lastLoadAttempt
    else if IsCharged(st, evs, n - 1) then EndOf(evs[n - 1])
    else LatestCharge(st, evs, n - 1)
  }

  /** lastLoadAttempt is always the start of the latest load that did not fail
      under a cancelled context. */
  lemma {:induction false} LastAttemptIsLatestCharge(st: State, evs: seq<Event>, n: nat)
    requires n <= |evs|
    ensures StateAt(st, evs, n).lastLoadAttempt == LatestCharge(st, evs, n)
  {
    if n > 0 {
      LastAttemptIsLatestCharge(st, evs, n - 1);
    }
  }

  predicate OneAtATime(st: State, evs: seq<Event>) {
    && (forall i | 0 <= i < |evs| :: Timely(evs[i]) && st.lastLoadAttempt <= StartOf(evs[i]))
    && (forall i, j | 0 <= i < j < |evs| :: EndOf(evs[i]) <= StartOf(evs[j]))
  }

  lemma {:induction false} LatestChargeInOrder(st: State, evs: seq<Event>, n: nat)
    requires n <= |evs| && OneAtATime(st, evs)
    ensures n < |evs| ==> LatestCharge(st, evs, n) <= StartOf(evs[n])
  {
    if n > 0 {
      LatestChargeInOrder(st, evs, n - 1);
      assert Timely(evs[n - 1]);
      assert LatestCharge(st, evs, n - 1) <= StartOf(evs[n - 1]) <= EndOf(evs[n - 1]);
    }
  }

  lemma {:induction false} LatestChargeCovers(st: State, evs: seq<Event>, i: nat, n: nat)
    requires i < n <= |evs| && OneAtATime(st, evs) && IsCharged(st, evs, i)
    ensures EndOf(evs[i]) <= LatestCharge(st, evs, n)
  {
    hide IsCharged;
    if i < n - 1 {
      LatestChargeCovers(st, evs, i, n - 1);
      LatestChargeInOrder(st, evs, n - 1);
      assert Timely(evs[n - 1]);
    }
  }

  /** Call i decided to load on its own, and the load is charged. */
  predicate IsTriggered(st: State, evs: seq<Event>, i: nat)
    requires i < |evs|
  {
    Triggers(StateAt(st, evs, i), evs[i]) && IsCharged(st, evs, i)
  }

  /** No other call reaches the store, or changes anything. */
  lemma OnlyTriggersLoad(st: State, ev: Event)
    requires !ev.EvReload? && !Triggers(st, ev)
    ensures After(st, ev) == st
  {
  }

  /** Two triggered charged loads begin at least the minimum interval apart, even
      with unconditional reloads in between. */
  lemma TriggeredLoadsSpaced(st: State, evs: seq<Event>, i: nat, j: nat)
    requires i < j < |evs| && OneAtATime(st, evs) && IsTriggered(st, evs, i) && IsTriggered(st, evs, j)
    ensures EndOf(evs[j]) - EndOf(evs[i]) >= 5_000_000_000
  {
    hide StateAt, LatestCharge, IsCharged;
    LastAttemptIsLatestCharge(st, evs, j);
    LatestChargeCovers(st, evs, i, j);
    assert Timely(evs[j]);
  }

  lemma {:induction false} SpacedFromFirst(st: State, evs: seq<Event>, calls: seq<nat>, k: nat)
    requires OneAtATime(st, evs) && k < |calls|
    requires forall i | 0 <= i < |calls| :: calls[i] < |evs| && IsTriggered(st, evs, calls[i])
    requires forall i, j | 0 <= i < j < |calls| :: calls[i] < calls[j]
    ensures EndOf(evs[calls[k]]) - EndOf(evs[calls[0]]) >= k * 5_000_000_000
  {
    hide OneAtATime, IsTriggered;
    if k > 0 {
      SpacedFromFirst(st, evs, calls, k - 1);
      TriggeredLoadsSpaced(st, evs, calls[k - 1], calls[k]);
    }
  }

  /** The budget: of the calls whose triggered, charged loads begin in any window of
      length `length`, there are at most 1 + length / interval. */
  lemma LoadBudgetHolds(st: State, evs: seq<Event>, from: Time, length: nat, calls: seq<nat>)
    requires OneAtATime(st, evs)
    requires forall i | 0 <= i < |calls| :: calls[i] < |evs| && IsTriggered(st, evs, calls[i])
    requires forall i, j | 0 <= i < j < |calls| :: calls[i] < calls[j]
    requires forall i | 0 <= i < |calls| :: from <= EndOf(evs[calls[i]]) <= from + length
    ensures |calls| <= 1 + length / 5_000_000_000
  {
    hide OneAtATime, IsTriggered;
    if calls != [] {
      SpacedFromFirst(st, evs, calls, |calls| - 1);
    }
  }
}
