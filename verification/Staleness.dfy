/** How stale an encryption key can get: loads succeed, a cipher serves one call at
    a time, and a rotation is one instant. The table's history and the calls of
    the cipher otherwise interleave freely. */
module Staleness {
  import opened Wrappers
  import opened Aead
  import opened Blobs
  import opened KeyTables
  import opened Ciphers
  import opened LoadBudget

  /** The table from the instant `at` on, and the operation that made it so. */
  datatype Moment = Moment(at: Time, op: Op, table: Table)

  predicate StampedNow(op: Op, at: Time) {
    !op.Init? ==> op.now == at
  }

  ghost predicate Follows(prev: Moment, next: Moment) {
    prev.at <= next.at && TableStep(prev.table, next.op, next.table) && StampedNow(next.op, next.at)
  }

  ghost predicate FollowsAt(h: seq<Moment>, i: nat)
    requires 0 < i < |h|
  {
    Follows(h[i - 1], h[i])
  }

  ghost predicate IsHistory(h: seq<Moment>) {
    && |h| > 0 && TableInv(h[0].table) && h[0].table != map[]
    && forall i | 0 < i < |h| :: FollowsAt(h, i)
  }

  /** A load's query ran at `at` and saw moment `i` of the history. */
  datatype Seen = Seen(i: nat, at: Time)

  ghost predicate IsView(h: seq<Moment>, seen: Seen) {
    && seen.i < |h| && h[seen.i].at <= seen.at
    && (seen.i + 1 < |h| ==> seen.at <= h[seen.i + 1].at)
  }

  lemma {:induction false} HistoryInv(h: seq<Moment>, i: nat)
    requires IsHistory(h) && i < |h|
    ensures TableInv(h[i].table) && h[i].table != map[]
  {
    hide TableInv, TableStep;
    if i > 0 {
      HistoryInv(h, i - 1);
      assert FollowsAt(h, i);
      StepKeepsInv(h[i - 1].table, h[i].op, h[i].table);
    }
  }

  lemma HistoryStep(h: seq<Moment>, i: nat)
    requires IsHistory(h) && 0 < i < |h|
    ensures FollowsAt(h, i)
  {
    hide FollowsAt, TableInv;
  }

  lemma {:induction false} HistoryInOrder(h: seq<Moment>, i: nat, j: nat)
    requires IsHistory(h) && i <= j < |h|
    ensures h[i].at <= h[j].at && Later(h[i].table, h[j].table)
    decreases j - i
  {
    hide IsHistory, TableInv, Later, TableStep;
    if i == j {
      LaterReflexive(h[i].table);
    } else {
      HistoryInOrder(h, i, j - 1);
      HistoryInv(h, j - 1);
      HistoryStep(h, j);
      StepIsLater(h[j - 1].table, h[j].op, h[j].table);
      LaterTransitive(h[i].table, h[j - 1].table, h[j].table);
    }
  }

  // ------------------------------------------------------------------ when a key was retired

  /** A step that retires a row does it at its own instant, and gives it no
      deadline or one at least a day away. */
  lemma RetiringStep(prev: Moment, next: Moment, v: uint32)
    requires TableInv(prev.table) && Follows(prev, next) && v in prev.table && IsActive(prev.table[v])
    requires v in next.table && !IsActive(next.table[v])
    ensures next.table[v].retiredAt == Some(next.at)
    ensures next.table[v].decryptableUntil.Some? ==> next.table[v].decryptableUntil.value >= next.at + DAY
  {
    if next.op.Rotate? && next.op.grace.Some? {
      assert next.op.grace.value * DAY >= DAY;
    }
  }

  predicate LeavesGraceAlone(op: Op, v: uint32) {
    !(op.Flag? && op.version == v && op.change.Grace?)
  }

  lemma RetiredStep(prev: Moment, next: Moment, v: uint32)
    requires TableInv(prev.table) && Follows(prev, next) && v in prev.table && !IsActive(prev.table[v])
    ensures v in next.table && next.table[v].retiredAt == prev.table[v].retiredAt
    ensures LeavesGraceAlone(next.op, v) ==> next.table[v].decryptableUntil == prev.table[v].decryptableUntil
  {
  }

  /** A key that is active at moment i and retired by moment j was retired no
      earlier than the moment after i. */
  lemma {:induction false} RetiredLater(h: seq<Moment>, i: nat, j: nat, v: uint32)
    requires IsHistory(h) && i <= j < |h| && v in h[i].table && IsActive(h[i].table[v])
    ensures v in h[j].table
    ensures !IsActive(h[j].table[v]) ==> i < j && h[j].table[v].retiredAt.value >= h[i + 1].at
    ensures !IsActive(h[j].table[v]) && (forall k | i < k <= j :: LeavesGraceAlone(h[k].op, v))
              && h[j].table[v].decryptableUntil.Some? ==>
              h[j].table[v].decryptableUntil.value >= h[i + 1].at + DAY
    decreases j - i
  {
    hide IsHistory, TableInv, Follows;
    HistoryInOrder(h, i, j);
    if i < j && !IsActive(h[j].table[v]) {
      RetiredLater(h, i, j - 1, v);
      HistoryInv(h, j - 1);
      HistoryStep(h, j);
      HistoryInOrder(h, i + 1, j);
      if IsActive(h[j - 1].table[v]) {
        RetiringStep(h[j - 1], h[j], v);
      } else {
        RetiredStep(h[j - 1], h[j], v);
      }
    }
  }

  // ------------------------------------------------------------------ the cipher's snapshot

  /** The held snapshot is what one load saw, that load began no later than it
      ran, and the rate limit counts from it. */
  ghost predicate Fresh(h: seq<Moment>, st: State, seen: Seen) {
    && IsView(h, seen) && st.keys.loadedAt <= seen.at && st.lastLoadAttempt == st.keys.loadedAt
    && TableInv(h[seen.i].table) && h[seen.i].table != map[]
    && st.keys == SnapshotOf(h[seen.i].table, seen.at, st.keys.loadedAt)
  }

  /** The load this call would make succeeds and lists the table at some instant
      not before it began. */
  ghost predicate LoadsSucceed(h: seq<Moment>, r: Reload, seen: Seen) {
    && IsView(h, seen) && r.startedAt <= seen.at
    && r.answer.Rows? && IsListing(r.answer.recs, h[seen.i].table, seen.at)
  }

  lemma ReloadKeepsFresh(h: seq<Moment>, st: State, before: Seen, r: Reload, seen: Seen)
    requires IsHistory(h) && Fresh(h, st, before) && LoadsSucceed(h, r, seen)
    ensures Fresh(h, Reloaded(st, r).0, if st.keys.loadedAt > r.entered then before else seen)
    ensures Reloaded(st, r).1.Ok?
  {
    hide IsHistory, TableInv, IsListing;
    HistoryInv(h, seen.i);
    ListingBuilds(r.answer.recs, h[seen.i].table, seen.at, r.startedAt);
  }

  /** Which load the snapshot stems from after the call. */
  function SourceAfter(st: State, before: Seen, ev: Event, seen: Seen): (src: Seen) {
    if After(st, ev) == st then before else seen
  }

  lemma CallKeepsFresh(h: seq<Moment>, st: State, before: Seen, ev: Event, seen: Seen)
    requires IsHistory(h) && Fresh(h, st, before) && LoadsSucceed(h, ReloadOf(ev), seen)
    ensures Fresh(h, After(st, ev), SourceAfter(st, before, ev, seen))
  {
    hide IsHistory, Fresh, LoadsSucceed;
    ReloadKeepsFresh(h, st, before, ReloadOf(ev), seen);
    SkippedReload(st, ReloadOf(ev));
  }

  lemma SkippedReload(st: State, r: Reload)
    ensures st.keys.loadedAt > r.entered ==> Reloaded(st, r).0 == st
  {
  }

  function SourceAt(st: State, src: Seen, evs: seq<Event>, views: seq<Seen>, n: nat): (s: Seen)
    requires n <= |evs| == |views|
  {
    if n == 0 then src
    else SourceAfter(StateAt(st, evs, n - 1), SourceAt(st, src, evs, views, n - 1), evs[n - 1], views[n - 1])
  }

  /** After any number of calls the snapshot is still fresh. */
  lemma {:induction false} TraceKeepsFresh(h: seq<Moment>, st: State, src: Seen, evs: seq<Event>, views: seq<Seen>, n: nat)
    requires IsHistory(h) && Fresh(h, st, src) && n <= |evs| == |views|
    requires forall i | 0 <= i < |evs| :: LoadsSucceed(h, ReloadOf(evs[i]), views[i])
    ensures Fresh(h, StateAt(st, evs, n), SourceAt(st, src, evs, views, n))
  {
    hide IsHistory, Fresh, LoadsSucceed, After, SourceAfter, ReloadOf;
    if n > 0 {
      TraceKeepsFresh(h, st, src, evs, views, n - 1);
      assert LoadsSucceed(h, ReloadOf(evs[n - 1]), views[n - 1]);
      CallKeepsFresh(h, StateAt(st, evs, n - 1), SourceAt(st, src, evs, views, n - 1), evs[n - 1], views[n - 1]);
    }
  }

  // ------------------------------------------------------------------ the bounds

  /** The load behind the snapshot an Encrypt uses ran less than the TTL before
      the call's first clock reading, or after it: the rate limit cannot hold back
      a refresh the TTL asks for. */
  lemma EncryptUsesRecentLoad(h: seq<Moment>, st: State, before: Seen, ev: Event, seen: Seen)
    requires IsHistory(h) && Fresh(h, st, before) && LoadsSucceed(h, ReloadOf(ev), seen)
    requires ev.EvEncrypt? && ev.plaintext != [] && Timely(ev) && st.keys.loadedAt <= ev.call.check
    ensures SourceAfter(st, before, ev, seen).at > ev.call.check - KEY_SET_TTL
  {
    hide IsHistory, TableInv, IsListing;
    ReloadKeepsFresh(h, st, before, ReloadOf(ev), seen);
    var r := ReloadOf(ev);
    if EncryptReloads(st, ev.call) {
      assert Reloaded(st, r).0.keys.loadedAt == r.startedAt;
    } else {
      assert After(st, ev) == st;
    }
  }

  /** No process seals under a key that was retired a TTL or longer before the
      call: if the sealing version is ever seen retired, its retirement is later
      than check - 60s. */
  lemma SealingKeyRetiredRecently(h: seq<Moment>, st: State, src: Seen, evs: seq<Event>, views: seq<Seen>, n: nat, j: nat)
    requires IsHistory(h) && Fresh(h, st, src) && n < |evs| == |views| && j < |h|
    requires OneAtATime(st, evs) && evs[n].EvEncrypt? && evs[n].plaintext != []
    requires forall i | 0 <= i < |evs| :: LoadsSucceed(h, ReloadOf(evs[i]), views[i])
    ensures var v := StateAt(st, evs, n + 1).keys.active;
            v in h[j].table && !IsActive(h[j].table[v]) ==>
              h[j].table[v].retiredAt.value > evs[n].call.check - KEY_SET_TTL
  {
    hide IsHistory, TableInv, LoadsSucceed, Fresh, OneAtATime, StateAt;
    var source := SealSource(h, st, src, evs, views, n);
    var v := StateAt(st, evs, n + 1).keys.active;
    if v in h[j].table && !IsActive(h[j].table[v]) {
      if j < source.i {
        HistoryInOrder(h, j, source.i);
        RetiredStaysRetired(h, j, source.i, v);
      } else {
        RetiredLater(h, source.i, j, v);
      }
    }
  }

  lemma RetiredStaysRetired(h: seq<Moment>, i: nat, j: nat, v: uint32)
    requires IsHistory(h) && i <= j < |h| && v in h[i].table && !IsActive(h[i].table[v])
    ensures v in h[j].table && !IsActive(h[j].table[v])
  {
    HistoryInOrder(h, i, j);
  }

  /** The load behind a seal, with everything known about it. */
  lemma SealSource(h: seq<Moment>, st: State, src: Seen, evs: seq<Event>, views: seq<Seen>, n: nat) returns (source: Seen)
    requires IsHistory(h) && Fresh(h, st, src) && n < |evs| == |views|
    requires OneAtATime(st, evs) && evs[n].EvEncrypt? && evs[n].plaintext != []
    requires forall i | 0 <= i < |evs| :: LoadsSucceed(h, ReloadOf(evs[i]), views[i])
    ensures IsView(h, source) && source.at > evs[n].call.check - KEY_SET_TTL
    ensures Fresh(h, StateAt(st, evs, n + 1), source)
    ensures var v := StateAt(st, evs, n + 1).keys.active;
            v in h[source.i].table && IsActive(h[source.i].table[v])
  {
    hide IsHistory, TableInv, IsListing;
    TraceKeepsFresh(h, st, src, evs, views, n);
    TraceKeepsFresh(h, st, src, evs, views, n + 1);
    LastAttemptIsLatestCharge(st, evs, n);
    LatestChargeInOrder(st, evs, n);
    EncryptUsesRecentLoad(h, StateAt(st, evs, n), SourceAt(st, src, evs, views, n), evs[n], views[n]);
    source := SourceAt(st, src, evs, views, n + 1);
  }

  /** A sealed blob stays decryptable for at least a day less the TTL after the
      call began: any load of any later state of the table at such an instant
      yields a snapshot that opens it, unless its key's grace was changed. */
  lemma SealedBlobStaysDecryptable(g: Aead, h: seq<Moment>, st: State, src: Seen, evs: seq<Event>, views: seq<Seen>, n: nat,
                                   j: nat, now: Time, loadedAt: Time)
    requires IsHistory(h) && Fresh(h, st, src) && n < |evs| == |views|
    requires OneAtATime(st, evs) && evs[n].EvEncrypt? && evs[n].plaintext != [] && |evs[n].call.nonce| == NONCE_SIZE
    requires forall i | 0 <= i < |evs| :: LoadsSucceed(h, ReloadOf(evs[i]), views[i])
    requires j < |h| && StateAt(st, evs, n + 1).keys.active in h[j].table
    requires now <= evs[n].call.check + DAY - KEY_SET_TTL
    requires forall k | 0 <= k < |h| :: LeavesGraceAlone(h[k].op, StateAt(st, evs, n + 1).keys.active)
    ensures TableInv(h[j].table) && h[j].table != map[]
    ensures var sealer := StateAt(st, evs, n + 1).keys;
            var blob := Seal(g, sealer, evs[n].call.nonce, evs[n].plaintext);
            && blob.Ok?
            && var reader := SnapshotOf(h[j].table, now, loadedAt);
               sealer.active in reader.byVersion &&
               OpenIn(g, reader, blob.value, now)
               == Ok(Opened(evs[n].plaintext, sealer.active, reader.byVersion[sealer.active]))
  {
    hide IsHistory, TableInv, IsListing, LoadsSucceed, StateAt, OneAtATime, UsableRow;
    var source := SealSource(h, st, src, evs, views, n);
    var sealer := StateAt(st, evs, n + 1).keys;
    var v := sealer.active;
    HistoryInv(h, j);
    HistoryInv(h, source.i);
    var sealing := h[source.i].table;
    LaterReflexive(sealing);
    SnapshotFitsLaterTable(sealing, source.at, sealer.loadedAt, sealing);
    StillUsable(h, source, j, v, now, evs[n].call.check);
    KeyStaysTheSame(h, source.i, j, v);
    LoadedIsUsable(h[j].table, now, loadedAt, v);
    SealedByAnyOpensInAny(g, sealer, SnapshotOf(h[j].table, now, loadedAt), evs[n].call.nonce, evs[n].plaintext, now);
  }

  lemma LoadedIsUsable(t: Table, now: Time, loadedAt: Time, v: uint32)
    requires TableInv(t) && v in t && t != map[] && UsableRow(t[v], now)
    ensures Usable(SnapshotOf(t, now, loadedAt), v, now).Some?
    ensures SnapshotOf(t, now, loadedAt).byVersion[v].key == t[v].key
  {
    assert RowOk(t[v]);
  }

  lemma KeyStaysTheSame(h: seq<Moment>, i: nat, j: nat, v: uint32)
    requires IsHistory(h) && i < |h| && j < |h| && v in h[i].table && v in h[j].table
    ensures h[i].table[v].key == h[j].table[v].key
  {
    hide IsHistory, TableInv;
    if i <= j {
      HistoryInOrder(h, i, j);
    } else {
      HistoryInOrder(h, j, i);
    }
  }

  lemma StillUsable(h: seq<Moment>, source: Seen, j: nat, v: uint32, now: Time, check: Time)
    requires IsHistory(h) && IsView(h, source) && j < |h| && v in h[j].table
    requires v in h[source.i].table && IsActive(h[source.i].table[v])
    requires source.at > check - KEY_SET_TTL && now <= check + DAY - KEY_SET_TTL
    requires forall k | 0 <= k < |h| :: LeavesGraceAlone(h[k].op, v)
    ensures UsableRow(h[j].table[v], now)
  {
    hide IsHistory, TableInv;
    if !IsActive(h[j].table[v]) {
      if j < source.i {
        RetiredStaysRetired(h, j, source.i, v);
      } else {
        RetiredLater(h, source.i, j, v);
      }
    }
  }
}
