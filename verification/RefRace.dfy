/**
 * Committers and one quarantine promotion racing on the epoch ref and one branch ref (commit.rs, quarantine.rs).
 * A committer moves both refs in one compare-and-swap; a promotion takes two steps.
 */
module RefRace {
  import opened Prelude

  type Oid = string

  /** One replacement of the epoch: what it stood at, and the commit built on it. */
  datatype Advance = Advance(built: Oid, candidate: Oid)

  /** `inFlight` is the promotion that has moved the epoch and not yet the branch; `log` lists every epoch advance. */
  datatype Race = Race(epoch: Oid, branch: Oid, inFlight: Option<Advance>, log: seq<Advance>)

  datatype Step =
    | TryCommit(epochRead: Oid, branchRead: Oid, candidate: Oid)
    | PromoteEpoch(before: Oid, candidate: Oid)
    | PromoteBranch

  /** The commit's compare-and-swap on both refs would succeed. */
  predicate Succeeds(s: Race, step: Step) {
    match step
    case TryCommit(e, b, _) => s.epoch == e && s.branch == b
    case PromoteEpoch(before, _) => s.inFlight.None? && s.epoch == before
    case PromoteBranch => s.inFlight.Some? && s.branch == s.inFlight.value.built
  }

  function After(s: Race, step: Step): Race {
    match step
    case TryCommit(e, _, c) =>
      if Succeeds(s, step) then Race(c, c, s.inFlight, s.log + [Advance(e, c)]) else s
    case PromoteEpoch(before, c) =>
      if Succeeds(s, step) then Race(c, s.branch, Some(Advance(before, c)), s.log + [Advance(before, c)]) else s
    case PromoteBranch =>
      if s.inFlight.None? then s
      else if Succeeds(s, step) then s.(branch := s.inFlight.value.candidate, inFlight := None)
      else s.(inFlight := None)
  }

  /** Any interleaving: the k-th state follows from the k-th step, taken by whichever process comes next. */
  function StateAfter(start: Oid, steps: seq<Step>): Race {
    if steps == [] then Race(start, start, None, [])
    else After(StateAfter(start, steps[..|steps| - 1]), steps[|steps| - 1])
  }

  /** A committer on one branch expects the branch where it read the epoch, and a promotion's commit is a new one. */
  predicate OneBranch(step: Step) {
    match step
    case TryCommit(e, b, _) => e == b
    case PromoteEpoch(before, c) => before != c
    case PromoteBranch => true
  }

  predicate AllOneBranch(steps: seq<Step>) {
    forall i | 0 <= i < |steps| :: OneBranch(steps[i])
  }

  // ----- lock-step

  ghost predicate InLockStep(s: Race) {
    match s.inFlight
    case None => s.epoch == s.branch
    case Some(p) => s.epoch == p.candidate && s.branch == p.built && p.built != p.candidate
  }

  ghost predicate Chained(start: Oid, log: seq<Advance>, end: Oid) {
    && (log == [] ==> end == start)
    && (log != [] ==> log[0].built == start && log[|log| - 1].candidate == end)
    && forall i :: 0 <= i < |log| - 1 ==> log[i + 1].built == log[i].candidate
  }

  lemma {:induction false} LockStep(start: Oid, steps: seq<Step>)
    requires AllOneBranch(steps)
    ensures InLockStep(StateAfter(start, steps)) && Chained(start, StateAfter(start, steps).log, StateAfter(start, steps).epoch)
  {
    if steps != [] {
      var front, last := steps[..|steps| - 1], steps[|steps| - 1];
      LockStep(start, front);
      assert OneBranch(last);
    }
  }

  /**
   * Any number of committers on one branch and one promotion at a time, in any interleaving: the refs differ exactly
   * while a promotion is between its two steps; no commit succeeds in that window; the promotion's second step always
   * does; and the advances form one chain, each replacing exactly the epoch it was built on.
   */
  lemma {:induction false} RefsInLockStep(start: Oid, steps: seq<Step>, next: Step)
    requires AllOneBranch(steps) && OneBranch(next)
    ensures var s := StateAfter(start, steps);
            && (s.epoch == s.branch <==> s.inFlight.None?)
            && (s.inFlight.Some? && next.TryCommit? ==> !Succeeds(s, next))
            && (s.inFlight.Some? ==> Succeeds(s, PromoteBranch) && After(s, PromoteBranch).epoch == After(s, PromoteBranch).branch)
            && (next.TryCommit? && Succeeds(s, next) ==> next.epochRead == s.epoch == s.branch)
            && Chained(start, s.log, s.epoch)
  {
    LockStep(start, steps);
  }

  // ----- committers that read the branch separately

  /**
   * A committer that reads the two refs separately succeeds inside the window exactly when it read both between the
   * promotion's steps; the promotion's second step then fails, unless the commit put the branch back to where it was.
   */
  lemma {:induction false} WindowCommitIff(start: Oid, steps: seq<Step>, epochRead: Oid, branchRead: Oid, candidate: Oid)
    requires AllOneBranch(steps) && StateAfter(start, steps).inFlight.Some?
    ensures var s := StateAfter(start, steps);
            var p, commit := s.inFlight.value, TryCommit(epochRead, branchRead, candidate);
            && (Succeeds(s, commit) <==> epochRead == p.candidate && branchRead == p.built)
            && (Succeeds(s, commit) ==> (Succeeds(After(s, commit), PromoteBranch) <==> candidate == p.built))
  {
    LockStep(start, steps);
  }

  // ----- steps that fail

  /** A step that fails moves no ref; a failed second step gives the promotion up, and nothing else changes. */
  lemma {:induction false} FailedStep(s: Race, step: Step)
    requires !Succeeds(s, step)
    ensures After(s, step) == if step.PromoteBranch? then s.(inFlight := None) else s
  {
  }

  /** What a step that succeeds has found, and what it leaves. */
  lemma {:induction false} SuccessfulStep(s: Race, step: Step)
    requires Succeeds(s, step)
    ensures step.TryCommit? ==>
              && s.epoch == step.epochRead && s.branch == step.branchRead
              && After(s, step) == Race(step.candidate, step.candidate, s.inFlight, s.log + [Advance(s.epoch, step.candidate)])
    ensures step.PromoteEpoch? ==>
              && s.epoch == step.before && s.inFlight == None
              && After(s, step)
                 == Race(step.candidate, s.branch, Some(Advance(s.epoch, step.candidate)), s.log + [Advance(s.epoch, step.candidate)])
    ensures step.PromoteBranch? ==>
              && s.inFlight.Some? && s.branch == s.inFlight.value.built
              && After(s, step) == Race(s.epoch, s.inFlight.value.candidate, None, s.log)
  {
  }

  // ----- a class for the refs

  /** The two refs as the processes share them; each method is one atomic step. */
  class SharedRefs {
    var epoch: Oid
    var branch: Oid
    var inFlight: Option<Advance>
    ghost var log: seq<Advance>

    ghost function State(): Race
      reads this
    {
      Race(epoch, branch, inFlight, log)
    }

    constructor (start: Oid)
      ensures State() == StateAfter(start, [])
    {
      epoch, branch, inFlight, log := start, start, None, [];
    }

    method CommitBoth(epochRead: Oid, branchRead: Oid, candidate: Oid) returns (ok: bool)
      modifies this
      ensures State() == After(old(State()), TryCommit(epochRead, branchRead, candidate))
      ensures ok == Succeeds(old(State()), TryCommit(epochRead, branchRead, candidate))
    {
      ok := epoch == epochRead && branch == branchRead;
      if ok {
        log := log + [Advance(epochRead, candidate)];
        epoch, branch := candidate, candidate;
      }
    }

    method PromoteFirst(before: Oid, candidate: Oid) returns (ok: bool)
      requires inFlight.None?
      modifies this
      ensures State() == After(old(State()), PromoteEpoch(before, candidate))
      ensures ok == Succeeds(old(State()), PromoteEpoch(before, candidate))
    {
      ok := epoch == before;
      if ok {
        log := log + [Advance(before, candidate)];
        epoch, inFlight := candidate, Some(Advance(before, candidate));
      }
    }

    method PromoteSecond() returns (ok: bool)
      requires inFlight.Some?
      modifies this
      ensures State() == After(old(State()), PromoteBranch)
      ensures ok == Succeeds(old(State()), PromoteBranch)
    {
      ok := branch == inFlight.value.built;
      if ok { branch := inFlight.value.candidate; }
      inFlight := None;
    }
  }
}
