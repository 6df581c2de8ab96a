/** The read as code and the read as a participant of the write-back protocol are
    the same read: what the code's attempts report on surroundings drawn from a run
    is what the protocol's reader becomes by the matching steps of that run, with
    any number of other participants' steps in between. */
module RotatingProtocol {
  import opened Wrappers
  import opened Aead
  import opened Blobs
  import opened TaxIds
  import opened WriteBack
  import KeyAdmin
  import Code = RotatingCiphers
  import Stores = TaxIdStores

  /** The states an attempt's own steps start from and lead to; those it has no use
      for are arbitrary. */
  datatype Path = Path(first: State, swapped: State, reread: State, verified: State, last: State, end: State)

  predicate HasTables(t: Path) {
    && |t.first.tables| > 0 && |t.swapped.tables| > 0 && |t.reread.tables| > 0
    && |t.verified.tables| > 0 && |t.last.tables| > 0 && |t.end.tables| > 0
  }

  /** The statement finds in the row what it holds in the state. */
  predicate Sees(rows: Stores.Rows, e: Entity, s: State) { Stores.BlobOf(rows, e) == RowOf(s, e) }

  /** The others have left the reader alone. */
  predicate Kept(s: State, s': State, r: Tid) {
    r in s.readers && r in s'.readers && s'.readers[r] == s.readers[r]
  }

  ghost predicate Ends(g: Aead, r: Tid, commit: KeyAdmin.CommitAnswer, s: State, s': State)
    requires |s.tables| > 0
  {
    match commit
    case Commits => Step(g, s, CommitRead(r, true), s')
    case CommitUnreported => Step(g, s, CommitRead(r, false), s')
    case CommitRefused => Step(g, s, FailAttempt(r, false), s')
  }

  predicate SwapIsReached(u: Code.Surroundings) { u.begins && u.boundsLockWait && u.swap.SwapRuns? }

  /** The path takes the protocol's steps that the surroundings call for. */
  ghost predicate Takes(g: Aead, r: Tid, u: Code.Surroundings, t: Path)
    requires HasTables(t)
  {
    && r in t.first.readers && t.first.readers[r].Rotating? && t.first.readers[r].phase.Started?
    && var e := t.first.readers[r].job.e;
       if !SwapIsReached(u) then
         Step(g, t.first, FailAttempt(r, u.begins && u.boundsLockWait && u.swap.LockTimedOut?), t.end)
       else
         && Step(g, t.first, Swap(r), t.swapped) && Sees(u.atSwap, e, t.first)
         && r in t.swapped.readers
         && match t.swapped.readers[r]
            case Rotating(_, _, Lost) =>
              if !u.rereads then Kept(t.swapped, t.last, r) && Step(g, t.last, FailAttempt(r, false), t.end)
              else
                && Kept(t.swapped, t.reread, r) && Sees(u.atReread, e, t.reread)
                && Step(g, t.reread, Verify(r), t.verified) && r in t.verified.readers
                && if t.verified.readers[r].Finished? then t.end == t.verified
                   else Kept(t.verified, t.last, r) && Ends(g, r, u.commit, t.last, t.end)
            case Rotating(_, _, _) => Kept(t.swapped, t.last, r) && Ends(g, r, u.commit, t.last, t.end)
            case _ => t.end == t.swapped
  }

  /** What the reader has become after an attempt that reports `result`. */
  function Became(rd: Reader, result: Result<Unit, Code.AttemptError>): (rd': Reader)
    requires rd.Rotating?
  {
    if result.Ok? then Finish(rd.job, true) else FailResult(rd, result.error.LockTimeout?)
  }

  lemma EndsAs(g: Aead, r: Tid, commit: KeyAdmin.CommitAnswer, s: State, s': State)
    requires |s.tables| > 0 && r in s.readers && s.readers[r].Rotating?
    requires (s.readers[r].phase.Swapped? || s.readers[r].phase.Verified?) && Ends(g, r, commit, s, s')
    ensures r in s'.readers && s'.readers[r] == (if commit.Commits? then Finish(s.readers[r].job, true)
                                                 else FailResult(s.readers[r], false))
    ensures s'.cols == if s.readers[r].phase.Swapped? && !commit.CommitRefused?
                       then s.cols[s.readers[r].job.e := Bytes(s.readers[r].job.rot.blob)] else s.cols
  {
    hide Adjudicate;
  }

  lemma SwapBecomes(g: Aead, r: Tid, s: State, s': State)
    requires |s.tables| > 0 && r in s.readers && Step(g, s, Swap(r), s')
    ensures r in s'.readers && s'.readers[r] == SwapResult(s, s.readers[r]) && s'.cols == s.cols
  {
    hide Adjudicate, SwapMatches, SwapResult;
  }

  lemma VerifyBecomes(g: Aead, r: Tid, s: State, s': State)
    requires |s.tables| > 0 && r in s.readers && Step(g, s, Verify(r), s')
    ensures r in s'.readers && s'.readers[r] == VerifyResult(s, s.readers[r]) && s'.cols == s.cols
  {
    hide Adjudicate, VerifyStale, VerifyResult;
  }

  lemma FailBecomes(g: Aead, r: Tid, lockTimeout: bool, s: State, s': State)
    requires |s.tables| > 0 && r in s.readers && Step(g, s, FailAttempt(r, lockTimeout), s')
    ensures r in s'.readers && s'.readers[r] == FailResult(s.readers[r], lockTimeout) && s'.cols == s.cols
  {
    hide Adjudicate, FailResult;
  }

  /** One attempt: what the code reports decides what the reader becomes, and its
      swap lands in the one exactly when it lands in the other. */
  lemma AttemptIsTheProtocol(g: Aead, r: Tid, u: Code.Surroundings, t: Path)
    requires HasTables(t) && Takes(g, r, u, t)
    ensures var rd := t.first.readers[r];
            && r in t.end.readers
            && t.end.readers[r] == Became(rd, Code.AttemptResult(true, rd.job.e, rd.job.blob, rd.job.rot, u))
            && (if Code.Lands(true, rd.job.e, rd.job.blob, u)
                then t.end.cols == t.last.cols[rd.job.e := Bytes(rd.job.rot.blob)]
                else t.end.cols == t.first.cols || t.end.cols == t.reread.cols || t.end.cols == t.last.cols)
  {
    hide Step, Adjudicate, VerifyStale, SwapMatches, Ends;
    if !SwapIsReached(u) {
      FailBecomes(g, r, u.begins && u.boundsLockWait && u.swap.LockTimedOut?, t.first, t.end);
    } else {
      SwapBecomes(g, r, t.first, t.swapped);
      var rd := t.swapped.readers[r];
      if rd.Rotating? && rd.phase.Lost? {
        if !u.rereads {
          FailBecomes(g, r, false, t.last, t.end);
        } else {
          VerifyBecomes(g, r, t.reread, t.verified);
          if t.verified.readers[r].Rotating? {
            EndsAs(g, r, u.commit, t.last, t.end);
          }
        }
      } else if rd.Rotating? {
        EndsAs(g, r, u.commit, t.last, t.end);
      }
    }
  }

  /** Both attempts: the protocol's read ends with exactly the result the code
      returns for it. `t2` is the retry, which starts from what the first attempt
      left of the reader. */
  lemma WriteBackIsTheProtocol(g: Aead, r: Tid, u1: Code.Surroundings, u2: Code.Surroundings, t1: Path, t2: Path)
    requires HasTables(t1) && HasTables(t2) && Takes(g, r, u1, t1)
    requires r in t1.first.readers && t1.first.readers[r].Rotating? && t1.first.readers[r].attempt == 1
    requires r in t1.end.readers && t1.end.readers[r].Rotating? ==>
               Takes(g, r, u2, t2) && t2.first.readers[r] == t1.end.readers[r]
    ensures var job := t1.first.readers[r].job;
            var persisted := Code.WriteBackResult(true, job.e, job.blob, job.rot, u1, u2).Ok?;
            var end := if Code.AttemptResult(true, job.e, job.blob, job.rot, u1) == Err(Code.LockTimeout) then t2.end else t1.end;
            && r in end.readers
            && end.readers[r] == Finished(job.e, job.asOf, Some(job), Adjudicate(persisted, job.rot, job.plaintext))
  {
    hide Takes, Code.AttemptResult, Adjudicate, Code.Lands;
    StartsRotating(g, r, u1, t1);
    var job := t1.first.readers[r].job;
    AttemptIsTheProtocol(g, r, u1, t1);
    if Code.AttemptResult(true, job.e, job.blob, job.rot, u1) == Err(Code.LockTimeout) {
      AttemptIsTheProtocol(g, r, u2, t2);
    }
  }

  lemma StartsRotating(g: Aead, r: Tid, u: Code.Surroundings, t: Path)
    requires HasTables(t) && Takes(g, r, u, t)
    ensures r in t.first.readers && t.first.readers[r].Rotating?
  {
    hide Step, Ends;
  }

  /** The decrypt before it: on the snapshot the cipher holds after its call, the
      protocol's read refuses what the code refuses, with the same error, returns
      what the code returns, and starts to rotate with what the code writes back. */
  lemma OpeningIsTheProtocol(g: Aead, st: Ciphers.State, hasStore: bool, call: Ciphers.Call, rd: Reader)
    requires rd.Fetched?
    ensures var (st', d) := Ciphers.Decrypted(g, st, hasStore, rd.blob, call);
            var rd' := OpenedReader(g, st'.keys, rd, call.check, call.nonce);
            match d
            case Err(ReloadFailed(error)) =>
              RefusedReader(rd, error) == Finished(rd.e, rd.asOf, None, Err(CannotOpen(d.error)))
            case Err(Refused(_)) => rd' == Finished(rd.e, rd.asOf, None, Err(CannotOpen(d.error)))
            case Ok((plaintext, rot)) =>
              if rot.Needed() then rd' == Rotating(ReadJob(rd.e, rd.blob, rd.asOf, plaintext, rot), 1, Started)
              else rd' == Finished(rd.e, rd.asOf, None, Ok(plaintext))
  {
    hide DecryptIn;
  }
}
