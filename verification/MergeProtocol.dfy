/** The merge protocol as a state machine with crashes at every phase, for any set of workspaces (model.rs). */
module MergeProtocol {

  type Oid = nat

  datatype Phase =
    | Idle | Prepare | Build | Validate | CommitEpoch | CommitBranch | Cleanup
    | Crashed | Recovering | Complete | Aborted

  datatype WorkspaceState = WorkspaceState(head: Oid, dirty: bool, present: bool)

  datatype MergeState = MergeState(
    phase: Phase, epochRef: Oid, branchRef: Oid, candidate: Oid, recoveryRefs: set<Oid>,
    workspaces: map<string, WorkspaceState>, mergeStateOnDisk: bool, committedPre: set<Oid>, recoveryCaptured: set<string>)

  datatype Action =
    | DoPrepare | DoBuild | ValidatePass | ValidateFail | DoCommitEpoch | DoCommitBranch | DoCleanup
    | CaptureRecovery(name: string) | DestroyWorkspace(name: string)
    | Abort | Crash | Recover

  const INITIAL_EPOCH: Oid := 1
  const CANDIDATE: Oid := 2

  // ----- the initial state

  /** Workspace `i` starts with head `10 + i`; a repeated name keeps its last head. */
  function Workspaces(names: seq<string>): (m: map<string, WorkspaceState>)
    ensures forall n :: n in m <==> n in names
    ensures forall n :: n in m ==> m[n].present && m[n].head >= 10
  {
    if names == [] then map[]
    else
      assert names == names[..|names| - 1] + [names[|names| - 1]];
      Workspaces(names[..|names| - 1])[names[|names| - 1] := WorkspaceState(10 + |names| - 1, false, true)]
  }

  function Heads(workspaces: map<string, WorkspaceState>): set<Oid> {
    set n | n in workspaces :: workspaces[n].head
  }

  function Initial(names: seq<string>): MergeState {
    var workspaces := Workspaces(names);
    MergeState(Idle, INITIAL_EPOCH, INITIAL_EPOCH, 0, {}, workspaces, false, {INITIAL_EPOCH} + Heads(workspaces), {})
  }

  method InitialState(names: seq<string>) returns (s: MergeState)
    ensures s == Initial(names)
  {
    var workspaces := map[];
    for i := 0 to |names|
      invariant workspaces == Workspaces(names[..i])
    {
      assert names[..i + 1][..i] == names[..i];
      workspaces := workspaces[names[i] := WorkspaceState(10 + i, false, true)];
    }
    assert names[..|names|] == names;
    var committed := {INITIAL_EPOCH};
    var rest := workspaces.Keys;
    while rest != {}
      invariant rest <= workspaces.Keys
      invariant committed == {INITIAL_EPOCH} + set n | n in workspaces && n !in rest :: workspaces[n].head
      decreases rest
    {
      var n :| n in rest;
      committed := committed + {workspaces[n].head};
      ghost var before := rest;
      rest := rest - {n};
      assert (set k | k in workspaces && k !in rest) == (set k | k in workspaces && k !in before) + {n};
    }
    s := MergeState(Idle, INITIAL_EPOCH, INITIAL_EPOCH, 0, {}, workspaces, false, committed, {});
  }

  // ----- actions

  predicate Standing(s: MergeState, name: string) {
    name in s.workspaces && s.workspaces[name].present
  }

  predicate AllHandled(names: seq<string>, s: MergeState) {
    forall n | n in names :: n in s.recoveryCaptured || !Standing(s, n)
  }

  /** The actions offered in a state. */
  predicate Enabled(names: seq<string>, s: MergeState, a: Action) {
    match a
    case DoPrepare => s.phase == Idle
    case DoBuild => s.phase == Prepare
    case ValidatePass => s.phase == Build
    case ValidateFail => s.phase == Build
    case DoCommitEpoch => s.phase == Validate
    case DoCommitBranch => s.phase == CommitEpoch
    case DoCleanup => s.phase == CommitBranch || (s.phase == Cleanup && AllHandled(names, s))
    case CaptureRecovery(n) => s.phase == Cleanup && n in names && n !in s.recoveryCaptured && Standing(s, n)
    case DestroyWorkspace(n) => s.phase == Cleanup && n in names && n in s.recoveryCaptured && Standing(s, n)
    case Abort => s.phase in {Prepare, Build, Validate}
    case Crash => s.phase in {Prepare, Build, Validate, CommitEpoch, CommitBranch, Cleanup}
    case Recover => s.phase == Crashed
  }

  method Actions(names: seq<string>, s: MergeState) returns (actions: seq<Action>)
    ensures forall a :: a in actions <==> Enabled(names, s, a)
  {
    match s.phase {
      case Idle => actions := [DoPrepare];
      case Prepare => actions := [DoBuild, Abort, Crash];
      case Build => actions := [ValidatePass, ValidateFail, Abort, Crash];
      case Validate => actions := [DoCommitEpoch, Abort, Crash];
      case CommitEpoch => actions := [DoCommitBranch, Crash];
      case CommitBranch => actions := [DoCleanup, Crash];
      case Cleanup =>
        actions := [];
        for i := 0 to |names|
          invariant forall a :: a in actions <==>
            a.CaptureRecovery? && a.name in names[..i] && a.name !in s.recoveryCaptured && Standing(s, a.name)
        {
          assert names[..i + 1] == names[..i] + [names[i]];
          if names[i] !in s.recoveryCaptured && Standing(s, names[i]) { actions := actions + [CaptureRecovery(names[i])]; }
        }
        assert names[..|names|] == names;
        for i := 0 to |names|
          invariant forall a :: a in actions <==>
            || (a.CaptureRecovery? && a.name in names && a.name !in s.recoveryCaptured && Standing(s, a.name))
            || (a.DestroyWorkspace? && a.name in names[..i] && a.name in s.recoveryCaptured && Standing(s, a.name))
        {
          assert names[..i + 1] == names[..i] + [names[i]];
          if names[i] in s.recoveryCaptured && Standing(s, names[i]) { actions := actions + [DestroyWorkspace(names[i])]; }
        }
        if AllHandled(names, s) { actions := actions + [DoCleanup]; }
        actions := actions + [Crash];
      case Crashed => actions := [Recover];
      case Recovering => actions := [];
      case Complete => actions := [];
      case Aborted => actions := [];
    }
  }

  // ----- steps

  /** Recovery looks at the refs alone, once it knows that a merge-state file exists. */
  function Recovered(s: MergeState): MergeState {
    if !s.mergeStateOnDisk then s.(phase := Idle)
    else if s.epochRef == s.candidate && s.branchRef == s.candidate then s.(phase := Cleanup)
    else if s.epochRef == s.candidate && s.branchRef == INITIAL_EPOCH then s.(branchRef := s.candidate, phase := Cleanup)
    else s.(phase := Aborted, mergeStateOnDisk := false) // neither ref moved, or they stand inconsistently
  }

  function Next(s: MergeState, a: Action): MergeState {
    match a
    case DoPrepare => s.(phase := Prepare, mergeStateOnDisk := true)
    case DoBuild => s.(phase := Build, candidate := CANDIDATE)
    case ValidatePass => s.(phase := Validate)
    case ValidateFail => s.(phase := Aborted, mergeStateOnDisk := false)
    case DoCommitEpoch => s.(epochRef := s.candidate, phase := CommitEpoch)
    case DoCommitBranch => s.(branchRef := s.candidate, phase := CommitBranch)
    case DoCleanup =>
      if s.phase == CommitBranch then s.(phase := Cleanup) else s.(phase := Complete, mergeStateOnDisk := false)
    case CaptureRecovery(n) =>
      if n in s.workspaces then
        s.(recoveryRefs := s.recoveryRefs + {s.workspaces[n].head}, recoveryCaptured := s.recoveryCaptured + {n})
      else s
    case DestroyWorkspace(n) =>
      if n in s.workspaces then s.(workspaces := s.workspaces[n := s.workspaces[n].(present := false)]) else s
    case Abort => s.(phase := Aborted, mergeStateOnDisk := false)
    case Crash => s.(phase := Crashed)
    case Recover => Recovered(s)
  }

  /** A run: states joined by offered actions, from the initial state. */
  ghost predicate IsRun(names: seq<string>, states: seq<MergeState>, actions: seq<Action>) {
    && |states| == |actions| + 1 && states[0] == Initial(names)
    && forall i :: 0 <= i < |actions| ==> Enabled(names, states[i], actions[i]) && states[i + 1] == Next(states[i], actions[i])
  }

  // ----- safety

  /** Where the refs and the candidate stand in each phase. */
  ghost predicate RefsInStep(s: MergeState) {
    var unmoved := s.epochRef == INITIAL_EPOCH && s.branchRef == INITIAL_EPOCH;
    var moved := s.epochRef == s.candidate == s.branchRef;
    match s.phase
    case Idle => s.candidate == 0 && unmoved
    case Prepare => s.candidate == 0 && unmoved
    case Build => s.candidate == CANDIDATE && unmoved
    case Validate => s.candidate == CANDIDATE && unmoved
    case CommitEpoch => s.candidate == CANDIDATE && s.epochRef == s.candidate && s.branchRef == INITIAL_EPOCH
    case CommitBranch => s.candidate == CANDIDATE && moved
    case Cleanup => s.candidate == CANDIDATE && moved
    case Complete => s.candidate == CANDIDATE && moved
    case Aborted => s.candidate in {0, CANDIDATE} && unmoved
    case Crashed =>
      || (s.candidate in {0, CANDIDATE} && unmoved)
      || (s.candidate == CANDIDATE && s.epochRef == s.candidate && s.branchRef in {INITIAL_EPOCH, CANDIDATE})
    case Recovering => false
  }

  /** Workspaces keep their heads, and none goes before its head is in the recovery refs. */
  ghost predicate WorkspacesSafe(names: seq<string>, s: MergeState) {
    && s.workspaces.Keys == Workspaces(names).Keys
    && s.recoveryCaptured <= s.workspaces.Keys
    && (forall n :: n in s.workspaces ==>
          && s.workspaces[n].head == Workspaces(names)[n].head
          && (n in s.recoveryCaptured ==> s.workspaces[n].head in s.recoveryRefs)
          && (!s.workspaces[n].present ==> n in s.recoveryCaptured))
  }

  ghost predicate Invariant(names: seq<string>, s: MergeState) {
    && RefsInStep(s)
    && WorkspacesSafe(names, s)
    && s.committedPre == Initial(names).committedPre
    && (s.mergeStateOnDisk <==> s.phase !in {Idle, Complete, Aborted})
    && (s.phase == Complete ==> s.recoveryCaptured == s.workspaces.Keys)
  }

  lemma {:induction false} StepKeepsInvariant(names: seq<string>, s: MergeState, a: Action)
    requires Invariant(names, s) && Enabled(names, s, a)
    ensures Invariant(names, Next(s, a))
  {
  }

  lemma {:induction false} RunKeepsInvariant(names: seq<string>, states: seq<MergeState>, actions: seq<Action>, i: nat)
    requires IsRun(names, states, actions) && i < |states|
    ensures Invariant(names, states[i])
  {
    if i > 0 {
      RunKeepsInvariant(names, states, actions, i - 1);
      StepKeepsInvariant(names, states[i - 1], actions[i - 1]);
    }
  }

  /** The commits that refs, recovery refs and remaining workspaces keep alive; the first epoch is an ancestor of any epoch. */
  function Reachable(s: MergeState): set<Oid> {
    {s.epochRef, s.branchRef} + s.recoveryRefs + (set n | n in s.workspaces && s.workspaces[n].present :: s.workspaces[n].head)
    + if s.epochRef != 0 then {INITIAL_EPOCH} else {}
  }

  ghost predicate NoLossInStablePhases(s: MergeState) {
    s.phase in {Idle, Complete, Aborted, Cleanup} ==> s.committedPre <= Reachable(s)
  }

  ghost predicate CommitAtomic(s: MergeState) {
    s.phase in {Cleanup, Complete} ==> s.epochRef == s.candidate && s.branchRef == s.candidate
  }

  ghost predicate DestructiveGate(s: MergeState) {
    forall n :: n in s.workspaces && !s.workspaces[n].present ==> n in s.recoveryCaptured
  }

  lemma {:induction false} NothingLost(names: seq<string>, s: MergeState)
    requires Invariant(names, s)
    ensures s.committedPre <= Reachable(s)
  {
    forall oid | oid in s.committedPre ensures oid in Reachable(s) {
      if oid != INITIAL_EPOCH {
        var n :| n in Workspaces(names) && Workspaces(names)[n].head == oid;
        assert s.workspaces[n].head == oid;
      }
    }
  }

  /**
   * Every state of every run, whatever the workspaces and wherever the crashes: the three checked properties hold; nothing
   * committed is ever unreachable, stable phase or not; the head of a destroyed workspace is in the recovery refs;
   * a finished merge has captured every head; and a crashed merge finds its state file and refs it can account for.
   */
  lemma {:induction false} Safety(names: seq<string>, states: seq<MergeState>, actions: seq<Action>, i: nat)
    requires IsRun(names, states, actions) && i < |states|
    ensures var s := states[i];
            && NoLossInStablePhases(s) && CommitAtomic(s) && DestructiveGate(s)
            && s.committedPre == {INITIAL_EPOCH} + Heads(Workspaces(names)) && s.committedPre <= Reachable(s)
            && s.workspaces.Keys == Workspaces(names).Keys
            && (forall n :: n in s.workspaces && !s.workspaces[n].present ==> Workspaces(names)[n].head in s.recoveryRefs)
            && (s.phase == Complete ==> Heads(Workspaces(names)) <= s.recoveryRefs)
            && (s.phase == Crashed ==>
                  && s.mergeStateOnDisk
                  && (|| (s.epochRef == s.candidate && s.branchRef == s.candidate)
                      || (s.epochRef == s.candidate && s.branchRef == INITIAL_EPOCH)
                      || (s.epochRef == INITIAL_EPOCH && s.branchRef == INITIAL_EPOCH)))
  {
    RunKeepsInvariant(names, states, actions, i);
    NothingLost(names, states[i]);
  }

  // ----- what can happen

  /** Workspace `i` starts present and clean, with head `10 + i`, unless its name is used again. */
  lemma {:induction false} WorkspacesExact(names: seq<string>, i: nat)
    requires i < |names| && forall j :: i < j < |names| ==> names[j] != names[i]
    ensures names[i] in Workspaces(names) && Workspaces(names)[names[i]] == WorkspaceState(10 + i, false, true)
  {
    var n := |names| - 1;
    if i < n { WorkspacesExact(names[..n], i); }
  }

  /** While a merge is under way it can crash at any time, and can be aborted exactly as long as the epoch has not moved. */
  lemma {:induction false} AbortableIff(names: seq<string>, states: seq<MergeState>, actions: seq<Action>, i: nat)
    requires IsRun(names, states, actions) && i < |states|
    requires states[i].phase !in {Idle, Crashed, Complete, Aborted}
    ensures Enabled(names, states[i], Abort) <==> states[i].epochRef == INITIAL_EPOCH
    ensures Enabled(names, states[i], Crash)
  {
    RunKeepsInvariant(names, states, actions, i);
  }

  /** In Cleanup a standing workspace can be captured until it has been, and destroyed from then on; nothing else can be. */
  lemma {:induction false} CleanupOffers(names: seq<string>, s: MergeState, n: string)
    requires s.phase == Cleanup && n in names
    ensures Standing(s, n) ==> (Enabled(names, s, CaptureRecovery(n)) <==> !Enabled(names, s, DestroyWorkspace(n)))
    ensures Standing(s, n) ==> (Enabled(names, s, DestroyWorkspace(n)) <==> n in s.recoveryCaptured)
    ensures !Standing(s, n) ==> !Enabled(names, s, CaptureRecovery(n)) && !Enabled(names, s, DestroyWorkspace(n))
  {
  }

  // ----- what has happened in a run

  ghost predicate Happened(actions: seq<Action>, i: nat, a: Action)
    requires i <= |actions|
  {
    exists k :: 0 <= k < i && actions[k] == a
  }

  lemma {:induction false} OneMoreAction(actions: seq<Action>, i: nat, a: Action)
    requires i < |actions|
    ensures Happened(actions, i + 1, a) <==> Happened(actions, i, a) || actions[i] == a
  {
    if actions[i] == a { assert Happened(actions, i + 1, a); }
  }

  /** Recovery finished a commit that had moved the epoch. */
  ghost predicate Finalized(states: seq<MergeState>, actions: seq<Action>, i: nat)
    requires i <= |actions| < |states|
  {
    exists k :: 0 <= k < i && actions[k] == Recover && states[k].epochRef == CANDIDATE
  }

  lemma {:induction false} OneMoreRecovery(states: seq<MergeState>, actions: seq<Action>, i: nat)
    requires i < |actions| < |states|
    ensures Finalized(states, actions, i + 1)
            <==> Finalized(states, actions, i) || (actions[i] == Recover && states[i].epochRef == CANDIDATE)
  {
    if actions[i] == Recover && states[i].epochRef == CANDIDATE { assert Finalized(states, actions, i + 1); }
  }

  ghost predicate RefsTell(states: seq<MergeState>, actions: seq<Action>, i: nat)
    requires i <= |actions| < |states|
  {
    && states[i].epochRef == (if Happened(actions, i, DoCommitEpoch) then CANDIDATE else INITIAL_EPOCH)
    && states[i].branchRef
       == (if Happened(actions, i, DoCommitBranch) || Finalized(states, actions, i) then CANDIDATE else INITIAL_EPOCH)
  }

  ghost predicate WorkspaceTells(s: MergeState, actions: seq<Action>, i: nat, n: string)
    requires i <= |actions|
  {
    && (Standing(s, n) <==> n in s.workspaces && !Happened(actions, i, DestroyWorkspace(n)))
    && (n in s.recoveryCaptured <==> Happened(actions, i, CaptureRecovery(n)))
  }

  /** Nothing is committed without validation, and nothing but an aborted state follows an abort. */
  ghost predicate PhaseTells(s: MergeState, actions: seq<Action>, i: nat)
    requires i <= |actions|
  {
    && (s.phase == Aborted || !(Happened(actions, i, Abort) || Happened(actions, i, ValidateFail)))
    && (s.phase in {Validate, CommitEpoch, CommitBranch, Cleanup, Complete} ==> Happened(actions, i, ValidatePass))
    && (s.epochRef == CANDIDATE ==> Happened(actions, i, ValidatePass))
  }

  /** The recovery refs are the heads captured, and no others. */
  ghost predicate RecoveryRefsTell(names: seq<string>, s: MergeState) {
    s.recoveryRefs == (set n | n in s.recoveryCaptured && n in Workspaces(names) :: Workspaces(names)[n].head)
  }

  ghost predicate TellsHistory(names: seq<string>, states: seq<MergeState>, actions: seq<Action>, i: nat)
    requires i <= |actions| < |states|
  {
    && RefsTell(states, actions, i)
    && (forall n :: WorkspaceTells(states[i], actions, i, n))
    && PhaseTells(states[i], actions, i)
    && RecoveryRefsTell(names, states[i])
  }

  lemma {:induction false} StepTellsRefs(names: seq<string>, states: seq<MergeState>, actions: seq<Action>, i: nat)
    requires IsRun(names, states, actions) && i < |actions| && RefsTell(states, actions, i) && Invariant(names, states[i])
    ensures RefsTell(states, actions, i + 1)
  {
    OneMoreAction(actions, i, DoCommitEpoch);
    OneMoreAction(actions, i, DoCommitBranch);
    OneMoreRecovery(states, actions, i);
    StepOfRefs(names, states[i], actions[i]);
    assert states[i + 1] == Next(states[i], actions[i]);
  }

  /** Which steps move which ref. */
  lemma {:induction false} StepOfRefs(names: seq<string>, s: MergeState, a: Action)
    requires Invariant(names, s) && Enabled(names, s, a)
    ensures Next(s, a).epochRef == if a == DoCommitEpoch then CANDIDATE else s.epochRef
    ensures Next(s, a).branchRef
         == if a == DoCommitBranch || (a == Recover && s.epochRef == CANDIDATE) then CANDIDATE else s.branchRef
  {
  }

  lemma {:induction false} StepTellsWorkspace(names: seq<string>, s: MergeState, actions: seq<Action>, i: nat, n: string)
    requires i < |actions| && Enabled(names, s, actions[i]) && WorkspaceTells(s, actions, i, n)
    ensures WorkspaceTells(Next(s, actions[i]), actions, i + 1, n)
  {
    OneMoreAction(actions, i, DestroyWorkspace(n));
    OneMoreAction(actions, i, CaptureRecovery(n));
  }

  lemma {:induction false} StepTellsPhase(names: seq<string>, s: MergeState, actions: seq<Action>, i: nat)
    requires i < |actions| && Enabled(names, s, actions[i]) && PhaseTells(s, actions, i) && Invariant(names, s)
    ensures PhaseTells(Next(s, actions[i]), actions, i + 1)
  {
    OneMoreAction(actions, i, Abort);
    OneMoreAction(actions, i, ValidateFail);
    OneMoreAction(actions, i, ValidatePass);
  }

  lemma {:induction false} StepTellsRecoveryRefs(names: seq<string>, s: MergeState, a: Action)
    requires Invariant(names, s) && Enabled(names, s, a) && RecoveryRefsTell(names, s)
    ensures RecoveryRefsTell(names, Next(s, a))
  {
  }

  /**
   * In every run the refs, the workspaces and the recovery refs follow from the steps taken: the epoch stands at the
   * candidate exactly when it was committed, the branch when it was committed or recovery finished it; a workspace is gone
   * exactly when it was destroyed; the recovery refs are the heads captured and no others. And nothing is committed without
   * validation, or after an abort.
   */
  lemma {:induction false} HistoryDecides(names: seq<string>, states: seq<MergeState>, actions: seq<Action>, i: nat)
    requires IsRun(names, states, actions) && i < |states|
    ensures TellsHistory(names, states, actions, i)
  {
    if i > 0 {
      HistoryDecides(names, states, actions, i - 1);
      RunKeepsInvariant(names, states, actions, i - 1);
      StepTellsRefs(names, states, actions, i - 1);
      forall n ensures WorkspaceTells(states[i], actions, i, n) {
        StepTellsWorkspace(names, states[i - 1], actions, i - 1, n);
      }
      StepTellsPhase(names, states[i - 1], actions, i - 1);
      StepTellsRecoveryRefs(names, states[i - 1], actions[i - 1]);
    }
  }

  /** Once the epoch has moved it is never taken back, and the merge never aborts. */
  lemma {:induction false} EpochStays(names: seq<string>, states: seq<MergeState>, actions: seq<Action>, i: nat, j: nat)
    requires IsRun(names, states, actions) && i <= j < |states| && states[i].epochRef == CANDIDATE
    ensures states[j].epochRef == CANDIDATE && states[j].phase != Aborted
  {
    HistoryDecides(names, states, actions, i);
    HistoryDecides(names, states, actions, j);
    RunKeepsInvariant(names, states, actions, j);
  }

  /** Recovery rolls a merge forward to Cleanup, both refs at the candidate, if its epoch had moved, and back otherwise. */
  lemma {:induction false} RecoveryExact(names: seq<string>, states: seq<MergeState>, actions: seq<Action>, i: nat)
    requires IsRun(names, states, actions) && i < |actions| && actions[i] == Recover
    ensures var s, t := states[i], states[i + 1];
            && (if s.epochRef == CANDIDATE then
                  t.phase == Cleanup && t.epochRef == CANDIDATE && t.branchRef == CANDIDATE && t.mergeStateOnDisk
                else
                  t.phase == Aborted && t.epochRef == INITIAL_EPOCH && t.branchRef == INITIAL_EPOCH && !t.mergeStateOnDisk)
            && t.workspaces == s.workspaces && t.recoveryCaptured == s.recoveryCaptured && t.recoveryRefs == s.recoveryRefs
  {
    RunKeepsInvariant(names, states, actions, i);
  }

  /** An abort or a failed validation is the last step of its run, and leaves both refs where they were. */
  lemma {:induction false} AbortEnds(names: seq<string>, states: seq<MergeState>, actions: seq<Action>, i: nat)
    requires IsRun(names, states, actions) && i < |actions| && actions[i] in {Abort, ValidateFail}
    ensures i + 1 == |actions| && states[i + 1].phase == Aborted
    ensures states[i + 1].epochRef == INITIAL_EPOCH && states[i + 1].branchRef == INITIAL_EPOCH && !states[i + 1].mergeStateOnDisk
  {
    if i + 1 < |actions| { NotAborted(names, states, actions, i + 1); }
    RunKeepsInvariant(names, states, actions, i);
  }

  lemma {:induction false} NotAborted(names: seq<string>, states: seq<MergeState>, actions: seq<Action>, i: nat)
    requires IsRun(names, states, actions) && i < |actions|
    ensures states[i].phase != Aborted
  {
    assert Enabled(names, states[i], actions[i]);
  }

  // ----- progress

  ghost predicate Terminal(s: MergeState) {
    s.phase in {Complete, Aborted}
  }

  lemma {:induction false} AlwaysAStep(names: seq<string>, s: MergeState) returns (a: Action)
    requires Invariant(names, s) && !Terminal(s)
    ensures a != Crash && Enabled(names, s, a)
  {
    match s.phase {
      case Idle => a := DoPrepare;
      case Prepare => a := DoBuild;
      case Build => a := ValidatePass;
      case Validate => a := DoCommitEpoch;
      case CommitEpoch => a := DoCommitBranch;
      case CommitBranch => a := DoCleanup;
      case Cleanup =>
        if AllHandled(names, s) {
          a := DoCleanup;
        } else {
          var n :| n in names && n !in s.recoveryCaptured && Standing(s, n);
          a := CaptureRecovery(n);
        }
      case Crashed => a := Recover;
    }
  }

  function ToDestroy(s: MergeState): set<string> {
    set n | n in s.workspaces && s.workspaces[n].present
  }

  function ToCapture(s: MergeState): set<string> {
    set n | n in s.workspaces && s.workspaces[n].present && n !in s.recoveryCaptured
  }

  function Pending(s: MergeState): nat {
    |ToDestroy(s)| + |ToCapture(s)|
  }

  /** An upper bound on the steps still to come, crashes apart. */
  function Measure(s: MergeState): nat {
    var n := |s.workspaces.Keys|;
    match s.phase
    case Idle => 7 + 2 * n
    case Prepare => 6 + 2 * n
    case Build => 5 + 2 * n
    case Validate => 4 + 2 * n
    case CommitEpoch => 3 + 2 * n
    case CommitBranch => 2 + 2 * n
    case Cleanup => 1 + Pending(s)
    case Crashed => 2 + Pending(s)
    case Recovering => 0
    case Complete => 0
    case Aborted => 0
  }

  lemma {:induction false} SubsetSize<T>(a: set<T>, b: set<T>)
    requires a <= b
    ensures |a| <= |b|
  {
    assert b == a + (b - a);
  }

  lemma {:induction false} PendingBound(s: MergeState)
    ensures Pending(s) <= 2 * |s.workspaces.Keys|
  {
    SubsetSize(ToDestroy(s), s.workspaces.Keys);
    SubsetSize(ToCapture(s), s.workspaces.Keys);
  }

  lemma {:induction false} CaptureLowers(s: MergeState, name: string)
    requires Standing(s, name) && name !in s.recoveryCaptured
    ensures Pending(Next(s, CaptureRecovery(name))) == Pending(s) - 1
  {
    assert ToDestroy(Next(s, CaptureRecovery(name))) == ToDestroy(s);
    assert ToCapture(Next(s, CaptureRecovery(name))) == ToCapture(s) - {name};
  }

  lemma {:induction false} DestroyLowers(s: MergeState, name: string)
    requires Standing(s, name) && name in s.recoveryCaptured
    ensures Pending(Next(s, DestroyWorkspace(name))) == Pending(s) - 1
  {
    assert ToDestroy(Next(s, DestroyWorkspace(name))) == ToDestroy(s) - {name};
    assert ToCapture(Next(s, DestroyWorkspace(name))) == ToCapture(s);
  }

  /** Every step but a crash lowers the measure; a crash raises it by at most one. */
  lemma {:induction false} StepLowers(names: seq<string>, s: MergeState, a: Action)
    requires Invariant(names, s) && Enabled(names, s, a)
    ensures Measure(Next(s, a)) <= if a == Crash then Measure(s) + 1 else Measure(s) - 1
  {
    if a.CaptureRecovery? {
      CaptureLowers(s, a.name);
    } else if a.DestroyWorkspace? {
      DestroyLowers(s, a.name);
    } else if a == Recover {
      RecoverLowers(names, s);
    } else {
      PhaseStepLowers(names, s, a);
    }
  }

  lemma {:induction false} RecoverLowers(names: seq<string>, s: MergeState)
    requires Invariant(names, s) && s.phase == Crashed
    ensures Measure(Next(s, Recover)) <= Measure(s) - 1
  {
    assert s.mergeStateOnDisk;
    OthersKeepPending(s, Recover);
  }

  lemma {:induction false} PhaseStepLowers(names: seq<string>, s: MergeState, a: Action)
    requires Enabled(names, s, a) && !a.CaptureRecovery? && !a.DestroyWorkspace? && a != Recover
    ensures Measure(Next(s, a)) <= if a == Crash then Measure(s) + 1 else Measure(s) - 1
  {
    PendingBound(s);
    OthersKeepPending(s, a);
  }

  lemma {:induction false} OthersKeepPending(s: MergeState, a: Action)
    requires !a.CaptureRecovery? && !a.DestroyWorkspace?
    ensures Pending(Next(s, a)) == Pending(s) && Next(s, a).workspaces == s.workspaces
  {
    assert ToDestroy(Next(s, a)) == ToDestroy(s) && ToCapture(Next(s, a)) == ToCapture(s);
  }

  function Crashes(actions: seq<Action>): nat {
    if actions == [] then 0 else Crashes(actions[..|actions| - 1]) + if actions[|actions| - 1] == Crash then 1 else 0
  }

  lemma {:induction false} RunSpendsMeasure(names: seq<string>, states: seq<MergeState>, actions: seq<Action>, i: nat)
    requires IsRun(names, states, actions) && i < |states|
    ensures i + Measure(states[i]) <= Measure(states[0]) + 2 * Crashes(actions[..i])
  {
    if i > 0 {
      RunSpendsMeasure(names, states, actions, i - 1);
      RunKeepsInvariant(names, states, actions, i - 1);
      StepLowers(names, states[i - 1], actions[i - 1]);
      assert actions[..i][..i - 1] == actions[..i - 1];
    }
  }

  /**
   * With n workspaces and c crashes a run has at most 7 + 2n + 2c steps; and a run that has not reached a terminal state
   * can always take a step that is not a crash.
   */
  lemma {:induction false} Progress(names: seq<string>, states: seq<MergeState>, actions: seq<Action>)
    requires IsRun(names, states, actions)
    ensures |actions| <= 7 + 2 * |Workspaces(names).Keys| + 2 * Crashes(actions)
    ensures Terminal(states[|actions|]) || exists a :: a != Crash && Enabled(names, states[|actions|], a)
  {
    RunSpendsMeasure(names, states, actions, |actions|);
    assert actions[..|actions|] == actions;
    RunKeepsInvariant(names, states, actions, |actions|);
    if !Terminal(states[|actions|]) { var a := AlwaysAStep(names, states[|actions|]); }
  }
}
