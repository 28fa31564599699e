/**
 * The commit phase, quarantine promotion and crash recovery over two refs and the commit-state file
 * (commit.rs, quarantine.rs). A process dies after any number of durable writes; nobody else writes meanwhile.
 */
module CommitRecovery {
  import opened Prelude

  type Oid = string

  datatype CommitPhase = Commit | Committed

  datatype CommitState = CommitState(phase: CommitPhase, before: Oid, candidate: Oid, epochUpdated: bool, branchUpdated: bool)

  /** What survives a crash. A ref may be missing. */
  datatype View = View(epoch: Option<Oid>, branch: Option<Oid>, file: Option<CommitState>)

  /** One merge: where epoch and branch stood, and where both are to go. */
  datatype Merge = Merge(before: Oid, branchBefore: Oid, candidate: Oid)

  datatype CommitReturn = CommitDone | CommitMismatch | CommitDied

  datatype PromoteReturn = PromoteDone | PromoteMismatch | PromoteDied

  datatype RecoveryReturn = AlreadyCommitted | FinalizedMainRef | NotCommitted | InconsistentRefState | RecoveryDied

  function InCommit(m: Merge): CommitState { CommitState(Commit, m.before, m.candidate, false, false) }

  function AfterCommit(m: Merge): CommitState { CommitState(Committed, m.before, m.candidate, true, true) }

  // ----- the three operations, with `steps` durable writes before the process dies

  function RunCommit(v: View, m: Merge, steps: nat): (View, CommitReturn) {
    if steps == 0 then (v, CommitDied)
    else
      var v1 := v.(file := Some(InCommit(m)));
      if steps == 1 then (v1, CommitDied)
      else if v1.epoch != Some(m.before) || v1.branch != Some(m.branchBefore) then (v1, CommitMismatch)
      else
        var v2 := v1.(epoch := Some(m.candidate), branch := Some(m.candidate));
        if steps == 2 then (v2, CommitDied)
        else
          var v3 := v2.(file := Some(AfterCommit(m)));
          (v3, if steps == 3 then CommitDied else CommitDone)
  }

  /** Promotion moves the refs one after the other, both away from the epoch, and never touches the commit-state file. */
  function RunPromote(v: View, m: Merge, steps: nat): (View, PromoteReturn) {
    if steps == 0 then (v, PromoteDied)
    else if v.epoch != Some(m.before) then (v, PromoteMismatch)
    else
      var v1 := v.(epoch := Some(m.candidate));
      if steps == 1 then (v1, PromoteDied)
      else if v1.branch != Some(m.before) then (v1, PromoteMismatch)
      else (v1.(branch := Some(m.candidate)), if steps == 2 then PromoteDied else PromoteDone)
  }

  function RunRecover(v: View, m: Merge, steps: nat): (View, RecoveryReturn) {
    if v.epoch == Some(m.candidate) && v.branch == Some(m.candidate) then (v, AlreadyCommitted)
    else if v.epoch == Some(m.candidate) && v.branch == Some(m.branchBefore) then
      if steps == 0 then (v, RecoveryDied)
      else
        var v1 := v.(branch := Some(m.candidate));
        if steps == 1 then (v1, RecoveryDied)
        else (v1.(file := Some(AfterCommit(m))), if steps == 2 then RecoveryDied else FinalizedMainRef)
    else if v.epoch == Some(m.before) && v.branch == Some(m.branchBefore) then (v, NotCommitted)
    else (v, InconsistentRefState)
  }

  /** The repository: refs moved by compare-and-swap, and the state file rewritten step by step. */
  class Repository {
    var epoch: Option<Oid>
    var branch: Option<Oid>
    var file: Option<CommitState>

    function Durable(): View
      reads this
    {
      View(epoch, branch, file)
    }

    constructor (epoch: Option<Oid>, branch: Option<Oid>)
      ensures Durable() == View(epoch, branch, None)
    {
      this.epoch, this.branch, file := epoch, branch, None;
    }

    /** All or nothing, on both refs. */
    method UpdateRefsAtomic(oldEpoch: Oid, oldBranch: Oid, candidate: Oid) returns (ok: bool)
      modifies this
      ensures ok <==> old(epoch) == Some(oldEpoch) && old(branch) == Some(oldBranch)
      ensures Durable() == if ok then old(Durable()).(epoch := Some(candidate), branch := Some(candidate)) else old(Durable())
    {
      ok := epoch == Some(oldEpoch) && branch == Some(oldBranch);
      if ok { epoch, branch := Some(candidate), Some(candidate); }
    }

    method AdvanceEpoch(oldEpoch: Oid, candidate: Oid) returns (ok: bool)
      modifies this
      ensures ok <==> old(epoch) == Some(oldEpoch)
      ensures Durable() == if ok then old(Durable()).(epoch := Some(candidate)) else old(Durable())
    {
      ok := epoch == Some(oldEpoch);
      if ok { epoch := Some(candidate); }
    }

    method WriteBranchCas(oldBranch: Oid, candidate: Oid) returns (ok: bool)
      modifies this
      ensures ok <==> old(branch) == Some(oldBranch)
      ensures Durable() == if ok then old(Durable()).(branch := Some(candidate)) else old(Durable())
    {
      ok := branch == Some(oldBranch);
      if ok { branch := Some(candidate); }
    }

    method RunCommitPhase(m: Merge, steps: nat) returns (r: CommitReturn)
      modifies this
      ensures (Durable(), r) == RunCommit(old(Durable()), m, steps)
    {
      if steps == 0 { return CommitDied; }
      var state := CommitState(Commit, m.before, m.candidate, false, false);
      file := Some(state);
      if steps == 1 { return CommitDied; }
      var moved := UpdateRefsAtomic(m.before, m.branchBefore, m.candidate);
      if !moved { return CommitMismatch; }
      if steps == 2 { return CommitDied; }
      state := state.(phase := Committed, epochUpdated := true, branchUpdated := true);
      file := Some(state);
      return if steps == 3 then CommitDied else CommitDone;
    }

    method PromoteRefs(m: Merge, steps: nat) returns (r: PromoteReturn)
      modifies this
      ensures (Durable(), r) == RunPromote(old(Durable()), m, steps)
    {
      if steps == 0 { return PromoteDied; }
      var advanced := AdvanceEpoch(m.before, m.candidate);
      if !advanced { return PromoteMismatch; }
      if steps == 1 { return PromoteDied; }
      var moved := WriteBranchCas(m.before, m.candidate);
      if !moved { return PromoteMismatch; }
      return if steps == 2 then PromoteDied else PromoteDone;
    }

    method RecoverPartialCommit(m: Merge, steps: nat) returns (r: RecoveryReturn)
      modifies this
      ensures (Durable(), r) == RunRecover(old(Durable()), m, steps)
    {
      var epochNow, branchNow := epoch, branch;
      if epochNow == Some(m.candidate) && branchNow == Some(m.candidate) { return AlreadyCommitted; }
      if epochNow == Some(m.candidate) && branchNow == Some(m.branchBefore) {
        if steps == 0 { return RecoveryDied; }
        var moved := WriteBranchCas(m.branchBefore, m.candidate);
        if steps == 1 { return RecoveryDied; }
        file := Some(CommitState(Committed, m.before, m.candidate, true, true));
        return if steps == 2 then RecoveryDied else FinalizedMainRef;
      }
      if epochNow == Some(m.before) && branchNow == Some(m.branchBefore) { return NotCommitted; }
      return InconsistentRefState;
    }

    /** Recovery that is allowed to finish, and a retry when nothing had moved. */
    method Finish(m: Merge) returns (verdict: RecoveryReturn)
      modifies this
      ensures Durable() == Finished(old(Durable()), m) && verdict == RunRecover(old(Durable()), m, 3).1
    {
      verdict := RecoverPartialCommit(m, 3);
      if verdict == NotCommitted { var r := RunCommitPhase(m, 4); }
    }
  }

  // ----- what each operation reports

  /**
   * A commit that is allowed to finish: done, with both refs at the candidate and the file saying so in full, exactly when
   * both refs stood where the merge expects them; otherwise a mismatch, with the refs as they were.
   */
  lemma {:induction false} CommitReports(v: View, m: Merge)
    ensures var (w, r) := RunCommit(v, m, 4);
            if v.epoch == Some(m.before) && v.branch == Some(m.branchBefore) then
              r == CommitDone
              && w == View(Some(m.candidate), Some(m.candidate), Some(CommitState(Committed, m.before, m.candidate, true, true)))
            else
              r == CommitMismatch
              && w == View(v.epoch, v.branch, Some(CommitState(Commit, m.before, m.candidate, false, false)))
  {
  }

  /** A promotion that is allowed to finish: done exactly when both refs stood at the epoch; the epoch moves without the branch. */
  lemma {:induction false} PromotionReports(v: View, m: Merge)
    ensures var (w, r) := RunPromote(v, m, 3);
            && (r == PromoteDone <==> v.epoch == Some(m.before) && v.branch == Some(m.before))
            && (r == PromoteMismatch <==> !(v.epoch == Some(m.before) && v.branch == Some(m.before)))
            && w == View(if v.epoch == Some(m.before) then Some(m.candidate) else v.epoch,
                         if r == PromoteDone then Some(m.candidate) else v.branch,
                         v.file)
  {
  }

  /** What recovery reports of any two refs whatever, when it is allowed to finish, and what it leaves behind. */
  lemma {:induction false} RecoveryReports(v: View, m: Merge)
    ensures var (w, r) := RunRecover(v, m, 3);
            var epochMoved, branchMoved := v.epoch == Some(m.candidate), v.branch == Some(m.candidate);
            && (r == AlreadyCommitted <==> epochMoved && branchMoved)
            && (r == FinalizedMainRef <==> epochMoved && !branchMoved && v.branch == Some(m.branchBefore))
            && (r == NotCommitted <==> && v.epoch == Some(m.before) && v.branch == Some(m.branchBefore)
                                       && !(epochMoved && branchMoved) && !(epochMoved && v.branch == Some(m.branchBefore)))
            && r in {AlreadyCommitted, FinalizedMainRef, NotCommitted, InconsistentRefState}
            && w == if r == FinalizedMainRef then
                      View(Some(m.candidate), Some(m.candidate), Some(CommitState(Committed, m.before, m.candidate, true, true)))
                    else v
  {
  }

  /** An operation that died says so, and one that did not die does not. */
  lemma {:induction false} DeathsReported(v: View, m: Merge, steps: nat)
    ensures steps >= 4 ==> RunCommit(v, m, steps) == RunCommit(v, m, 4) && RunCommit(v, m, 4).1 != CommitDied
    ensures steps >= 3 ==> RunPromote(v, m, steps) == RunPromote(v, m, 3) && RunPromote(v, m, 3).1 != PromoteDied
    ensures steps >= 3 ==> RunRecover(v, m, steps) == RunRecover(v, m, 3) && RunRecover(v, m, 3).1 != RecoveryDied
    ensures steps <= 1 ==> RunCommit(v, m, steps).1 == CommitDied
    ensures steps == 0 ==> RunPromote(v, m, steps) == (v, PromoteDied) && RunCommit(v, m, steps).0 == v
  {
  }

  // ----- any number of crashes

  datatype Attempt = TryCommit(steps: nat) | TryPromote(steps: nat) | TryRecover(steps: nat)

  function Try(v: View, m: Merge, a: Attempt): View {
    match a
    case TryCommit(n) => RunCommit(v, m, n).0
    case TryPromote(n) => RunPromote(v, m, n).0
    case TryRecover(n) => RunRecover(v, m, n).0
  }

  function TryAll(v: View, m: Merge, attempts: seq<Attempt>): View {
    if attempts == [] then v else Try(TryAll(v, m, attempts[..|attempts| - 1]), m, attempts[|attempts| - 1])
  }

  ghost predicate Untouched(v: View, m: Merge) {
    v.epoch == Some(m.before) && v.branch == Some(m.branchBefore)
  }

  ghost predicate HalfMoved(v: View, m: Merge) {
    v.epoch == Some(m.candidate) && v.branch == Some(m.branchBefore)
  }

  ghost predicate Moved(v: View, m: Merge) {
    v.epoch == Some(m.candidate) && v.branch == Some(m.candidate)
  }

  lemma {:induction false} RefsStayAccountable(v: View, m: Merge, attempts: seq<Attempt>)
    requires Untouched(v, m)
    ensures var w := TryAll(v, m, attempts); Untouched(w, m) || HalfMoved(w, m) || Moved(w, m)
  {
    if attempts != [] { RefsStayAccountable(v, m, attempts[..|attempts| - 1]); }
  }

  /**
   * Any number of attempts at one merge, each dying anywhere in commit, in promotion's ref updates or in recovery:
   * recovery never reports an inconsistent state; and when the candidate differs from both old values, its verdict says
   * exactly which refs have moved.
   */
  lemma {:induction false} RecoveryVerdictExact(v: View, m: Merge, attempts: seq<Attempt>, steps: nat)
    requires Untouched(v, m)
    ensures var w := TryAll(v, m, attempts);
            var verdict := RunRecover(w, m, steps).1;
            && verdict != InconsistentRefState
            && (m.candidate != m.before && m.candidate != m.branchBefore ==>
                  && (verdict == AlreadyCommitted <==> Moved(w, m))
                  && (verdict == NotCommitted <==> Untouched(w, m))
                  && (verdict in {FinalizedMainRef, RecoveryDied} <==> HalfMoved(w, m)))
  {
    RefsStayAccountable(v, m, attempts);
  }

  /** The refs once recovery, and a retry if it asks for one, have been allowed to finish. */
  function Finished(v: View, m: Merge): View {
    var (w, verdict) := RunRecover(v, m, 3);
    if verdict == NotCommitted then RunCommit(w, m, 4).0 else w
  }

  /** However the attempts died, finishing them ends with both refs at the candidate. */
  lemma {:induction false} RecoveryConverges(v: View, m: Merge, attempts: seq<Attempt>)
    requires Untouched(v, m)
    ensures Moved(Finished(TryAll(v, m, attempts), m), m)
  {
    RefsStayAccountable(v, m, attempts);
  }

  // ----- successive merges and the state file

  /** The file says a merge is committed only while both refs stand at that merge's candidate. */
  ghost predicate FileTellsTruth(v: View) {
    v.file.Some? && v.file.value.phase == Committed ==>
      v.epoch == Some(v.file.value.candidate) && v.branch == Some(v.file.value.candidate)
  }

  function TryMerges(v: View, attempts: seq<(Merge, Attempt)>): View {
    if attempts == [] then v
    else
      var (m, a) := attempts[|attempts| - 1];
      Try(TryMerges(v, attempts[..|attempts| - 1]), m, a)
  }

  /** Commits and recoveries of any merges, each dying anywhere, keep the file truthful. */
  lemma {:induction false} FileTruthfulWithoutPromotion(v: View, attempts: seq<(Merge, Attempt)>)
    requires FileTellsTruth(v) && forall i :: 0 <= i < |attempts| ==> !attempts[i].1.TryPromote?
    ensures FileTellsTruth(TryMerges(v, attempts))
  {
    if attempts != [] { FileTruthfulWithoutPromotion(v, attempts[..|attempts| - 1]); }
  }

  /** A promotion keeps the file truthful exactly when there is no committed merge on file, or it never moves the epoch. */
  lemma {:induction false} PromotionTruthfulIff(v: View, m: Merge, steps: nat)
    requires FileTellsTruth(v)
    ensures FileTellsTruth(RunPromote(v, m, steps).0)
            <==> || v.file.None? || v.file.value.phase == Commit
                 || steps == 0 || v.epoch != Some(m.before) || m.candidate == m.before
  {
  }

  /** One merge committed, the next promoted, nobody crashing: the file names the first as committed, the refs are at the second. */
  lemma {:induction false} PromotionLeavesFileBehind(a: Oid, b: Oid, c: Oid, file: Option<CommitState>)
    requires b != c
    ensures var v := TryMerges(View(Some(a), Some(a), file), [(Merge(a, a, b), TryCommit(4)), (Merge(b, b, c), TryPromote(3))]);
            v == View(Some(c), Some(c), Some(AfterCommit(Merge(a, a, b)))) && !FileTellsTruth(v)
  {
    var attempts := [(Merge(a, a, b), TryCommit(4)), (Merge(b, b, c), TryPromote(3))];
    var start := View(Some(a), Some(a), file);
    assert attempts[..1] == [attempts[0]] && attempts[..1][..0] == [];
    assert TryMerges(start, attempts[..1]) == View(Some(b), Some(b), Some(AfterCommit(Merge(a, a, b))));
  }

  // ----- when the file of a merge is closed

  /** The candidate is a new commit. */
  ghost predicate NewCandidate(m: Merge) {
    m.candidate != m.before && m.candidate != m.branchBefore
  }

  /** An attempt that moves some ref when none has moved yet. */
  predicate Moves(a: Attempt) {
    (a.TryCommit? && a.steps >= 2) || (a.TryPromote? && a.steps >= 1)
  }

  /** A promotion that stops after the epoch: it dies there, or the branch did not stand at the epoch. */
  predicate MovesHalf(m: Merge, a: Attempt) {
    a.TryPromote? && a.steps >= 1 && (a.steps == 1 || m.branchBefore != m.before)
  }

  ghost predicate NothingMoved(attempts: seq<Attempt>) {
    forall i :: 0 <= i < |attempts| ==> !Moves(attempts[i])
  }

  /** The first attempt that moved anything was attempt `k`, and it stopped after the epoch. */
  ghost predicate HalfMovedAt(m: Merge, attempts: seq<Attempt>, k: nat) {
    k < |attempts| && MovesHalf(m, attempts[k]) && NothingMoved(attempts[..k])
  }

  /** Only the epoch has moved: a first half move, and no recovery since that wrote anything. */
  ghost predicate OnlyEpochMoved(m: Merge, attempts: seq<Attempt>) {
    exists k :: HalfMovedAt(m, attempts, k) && NoRecoverySince(attempts, k)
  }

  ghost predicate NoRecoverySince(attempts: seq<Attempt>, k: nat) {
    forall i :: k < i < |attempts| && attempts[i].TryRecover? ==> attempts[i].steps == 0
  }

  lemma {:induction false} OneMoreHalf(m: Merge, attempts: seq<Attempt>)
    requires attempts != []
    ensures var front, last := attempts[..|attempts| - 1], attempts[|attempts| - 1];
            && (NothingMoved(attempts) <==> NothingMoved(front) && !Moves(last))
            && (OnlyEpochMoved(m, attempts)
                <==> || (OnlyEpochMoved(m, front) && !(last.TryRecover? && last.steps > 0))
                     || (NothingMoved(front) && MovesHalf(m, last)))
  {
    var n := |attempts| - 1;
    var front, last := attempts[..n], attempts[n];
    assert forall k :: 0 <= k <= n ==> attempts[..k] == front[..k];
    if NothingMoved(front) && !Moves(last) {
      assert forall i :: 0 <= i < n ==> attempts[i] == front[i];
    }
    if NothingMoved(attempts) { assert forall i :: 0 <= i < n ==> front[i] == attempts[i]; }
    if k: nat :| HalfMovedAt(m, attempts, k) && NoRecoverySince(attempts, k) {
      if k < n {
        assert HalfMovedAt(m, front, k) && NoRecoverySince(front, k);
      } else {
        assert attempts[..n] == front;
      }
    }
    if k: nat :| HalfMovedAt(m, front, k) && NoRecoverySince(front, k) && !(last.TryRecover? && last.steps > 0) {
      assert HalfMovedAt(m, attempts, k) && NoRecoverySince(attempts, k);
    }
    if NothingMoved(front) && MovesHalf(m, last) {
      assert HalfMovedAt(m, attempts, n) && NoRecoverySince(attempts, n);
    }
  }

  /** The history alone says which refs have moved. */
  lemma {:induction false} RefsFollowHistory(v: View, m: Merge, attempts: seq<Attempt>)
    requires Untouched(v, m) && NewCandidate(m)
    ensures Untouched(TryAll(v, m, attempts), m) <==> NothingMoved(attempts)
    ensures HalfMoved(TryAll(v, m, attempts), m) <==> OnlyEpochMoved(m, attempts)
  {
    RefsStayAccountable(v, m, attempts);
    if attempts != [] {
      RefsStayAccountable(v, m, attempts[..|attempts| - 1]);
      RefsFollowHistory(v, m, attempts[..|attempts| - 1]);
      OneMoreHalf(m, attempts);
    }
  }

  /** The attempt writes that the merge is committed: the commit that moves the refs, or a recovery that finishes them. */
  ghost predicate Closes(m: Merge, before: seq<Attempt>, a: Attempt) {
    || (a.TryCommit? && a.steps >= 3 && NothingMoved(before))
    || (a.TryRecover? && a.steps >= 2 && OnlyEpochMoved(m, before))
  }

  ghost predicate NoCommitSince(attempts: seq<Attempt>, j: nat) {
    forall i :: j < i < |attempts| && attempts[i].TryCommit? ==> attempts[i].steps == 0
  }

  ghost predicate ClosedAt(m: Merge, attempts: seq<Attempt>, j: nat) {
    j < |attempts| && Closes(m, attempts[..j], attempts[j]) && NoCommitSince(attempts, j)
  }

  lemma {:induction false} OneMoreClosed(m: Merge, attempts: seq<Attempt>)
    requires attempts != []
    ensures var front, last := attempts[..|attempts| - 1], attempts[|attempts| - 1];
            (exists j :: ClosedAt(m, attempts, j))
            <==> || Closes(m, front, last)
                 || ((exists j :: ClosedAt(m, front, j)) && !(last.TryCommit? && last.steps > 0))
  {
    var n := |attempts| - 1;
    var front, last := attempts[..n], attempts[n];
    assert forall j :: 0 <= j <= n ==> attempts[..j] == front[..j];
    if j: nat :| ClosedAt(m, attempts, j) {
      if j < n { assert ClosedAt(m, front, j); } else { assert attempts[..n] == front; }
    }
    if Closes(m, front, last) { assert ClosedAt(m, attempts, n); }
    if j: nat :| ClosedAt(m, front, j) && !(last.TryCommit? && last.steps > 0) { assert ClosedAt(m, attempts, j); }
  }

  /**
   * When the commit-state file ends up saying that the merge is committed, for any attempts that die anywhere: some
   * attempt wrote so, namely the commit that moved both refs (and lived to its third write), or a recovery that moved the
   * branch after a promotion had stopped at the epoch (and lived to its second); and no commit was started after it.
   */
  lemma {:induction false} FileClosedIff(v: View, m: Merge, attempts: seq<Attempt>)
    requires Untouched(v, m) && NewCandidate(m) && v.file != Some(AfterCommit(m))
    ensures TryAll(v, m, attempts).file == Some(AfterCommit(m)) <==> exists j :: ClosedAt(m, attempts, j)
  {
    if attempts != [] {
      var front := attempts[..|attempts| - 1];
      RefsStayAccountable(v, m, front);
      FileClosedIff(v, m, front);
      RefsFollowHistory(v, m, front);
      OneMoreClosed(m, attempts);
    }
  }

  /** The same without promotions: the first commit that wrote twice wrote three times, and no later one wrote at all. */
  lemma {:induction false} FileClosedWithoutPromotionIff(v: View, m: Merge, attempts: seq<Attempt>)
    requires Untouched(v, m) && NewCandidate(m) && v.file != Some(AfterCommit(m))
    requires forall i :: 0 <= i < |attempts| ==> !attempts[i].TryPromote?
    ensures TryAll(v, m, attempts).file == Some(AfterCommit(m))
            <==> exists j :: && 0 <= j < |attempts| && attempts[j].TryCommit? && attempts[j].steps >= 3
                             && (forall i :: 0 <= i < j && attempts[i].TryCommit? ==> attempts[i].steps < 2)
                             && (forall i :: j < i < |attempts| && attempts[i].TryCommit? ==> attempts[i].steps == 0)
  {
    FileClosedIff(v, m, attempts);
    if j: nat :| ClosedAt(m, attempts, j) {
      assert !OnlyEpochMoved(m, attempts[..j]);
      assert forall i :: 0 <= i < j ==> attempts[..j][i] == attempts[i];
    }
    if j :| && 0 <= j < |attempts| && attempts[j].TryCommit? && attempts[j].steps >= 3
            && (forall i :: 0 <= i < j && attempts[i].TryCommit? ==> attempts[i].steps < 2)
            && (forall i :: j < i < |attempts| && attempts[i].TryCommit? ==> attempts[i].steps == 0)
    {
      assert NothingMoved(attempts[..j]);
      assert ClosedAt(m, attempts, j);
    }
  }

  /** Once both refs have moved and the file does not say so, it never will: every recovery reports the merge and writes nothing. */
  lemma {:induction false} OpenForGood(w: View, m: Merge, attempts: seq<Attempt>, steps: nat)
    requires Moved(w, m) && NewCandidate(m) && w.file != Some(AfterCommit(m))
    ensures Moved(TryAll(w, m, attempts), m) && TryAll(w, m, attempts).file != Some(AfterCommit(m))
    ensures RunRecover(TryAll(w, m, attempts), m, steps) == (TryAll(w, m, attempts), AlreadyCommitted)
  {
    if attempts != [] { OpenForGood(w, m, attempts[..|attempts| - 1], steps); }
  }

  /** A retry after a completed commit reopens the file, and fails to move the refs. */
  lemma {:induction false} RetryReopensFile(v: View, m: Merge)
    requires Untouched(v, m) && NewCandidate(m)
    ensures var w := RunCommit(v, m, 4).0;
            && w.file == Some(AfterCommit(m)) && Moved(w, m)
            && RunCommit(w, m, 4) == (w.(file := Some(InCommit(m))), CommitMismatch)
  {
  }

  /** A promotion that completes is found committed by recovery, and leaves the file as it was. */
  lemma {:induction false} PromotionNeverClosesFile(v: View, m: Merge, steps: nat)
    requires Untouched(v, m) && m.branchBefore == m.before
    ensures var w := RunPromote(v, m, 3).0;
            Moved(w, m) && w.file == v.file && RunRecover(w, m, steps) == (w, AlreadyCommitted)
  {
  }

  /** A commit that dies between moving the refs and its last write is found committed, but its file never says so. */
  lemma {:induction false} RecoveryLeavesFileOpen(v: View, m: Merge, steps: nat)
    requires Untouched(v, m)
    ensures var w := RunCommit(v, m, 2).0;
            RunRecover(w, m, steps) == (w, AlreadyCommitted) && w.file == Some(InCommit(m))
  {
  }
}
