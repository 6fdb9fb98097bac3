/** What each state of the writer says about its run, and what refused and failed commands leave behind. */
module FlashWriterStates {
  import opened Common
  import opened FlashWriter
  import opened FlashWriterRuns

  ghost predicate InOpenSession(capacity: nat, turns: seq<Turn>) {
    exists j :: OpenSession(capacity, turns, j)
  }

  ghost predicate InCompleteSession(capacity: nat, turns: seq<Turn>) {
    exists j :: CompleteSession(capacity, turns, j)
  }

  /** After `turns`, `t` is out of place: a block outside an open session, or a commit outside a complete one. */
  ghost predicate Refused(capacity: nat, turns: seq<Turn>, t: Turn) {
    || (t.cmd.WriteBlock? && !InOpenSession(capacity, turns))
    || (t.cmd.Commit? && !InCompleteSession(capacity, turns))
  }

  /** The command is in place, but its flash operation fails. */
  ghost predicate Failed(capacity: nat, turns: seq<Turn>, t: Turn) {
    || (t.cmd.StartUpdate? && !PrepareOk(capacity, t.env))
    || (t.cmd.WriteBlock? && InOpenSession(capacity, turns) && !BlockWritten(capacity, t))
  }

  lemma {:induction false} StateShowsSession(w: World, turns: seq<Turn>)
    requires OutsideSession(w) && !Run(w, turns).panicked
    ensures Run(w, turns).status.state == Updating <==> InOpenSession(|w.flash|, turns)
    ensures Run(w, turns).status.state == ReadyToCommit <==> InCompleteSession(|w.flash|, turns)
  {
    var r := Run(w, turns);
    if r.status.state == Updating || r.status.state == ReadyToCommit {
      var j := ActiveOnlyInSession(w, turns);
    }
    hide OutsideSession;
    if j :| OpenSession(|w.flash|, turns, j) {
      SessionNotPanicked(w, turns, j);
      SessionProgress(w, turns, j);
    }
    if j :| CompleteSession(|w.flash|, turns, j) {
      SessionNotPanicked(w, turns, j);
      SessionProgress(w, turns, j);
    }
  }

  /** One step, by the state it meets: which state it leads to. */
  lemma {:induction false} StateAfterStep(w: World, t: Turn)
    requires w.status.state != Preparing
    requires !Step(w, t.cmd, t.env).panicked
    ensures var r, s := Step(w, t.cmd, t.env), w.status.state;
            && (r.status.state == Idle <==> t.cmd.Abort?)
            && (r.status.state == Complete <==> t.cmd.Commit? && s == ReadyToCommit)
            && (r.status.state == WriteError <==>
                  || (t.cmd.StartUpdate? && !PrepareOk(|w.flash|, t.env))
                  || (t.cmd.WriteBlock? && s == Updating && !BlockWritten(|w.flash|, t)))
            && (r.status.state == ProtocolError <==>
                  (t.cmd.WriteBlock? && s != Updating) || (t.cmd.Commit? && s != ReadyToCommit))
  {
    hide Erase, PrepareOk, ProgramBlock, ScatterDebris;
  }

  /**
   All seven states over all runs: after its last turn the writer is idle exactly if that was an abort, updating or
   ready to commit exactly in an open or complete session, in write error exactly if the turn failed, in protocol
   error exactly if it was refused, and complete exactly if it was the commit of a complete session.
   */
  lemma {:induction false} WhatEachStateMeans(w: World, turns: seq<Turn>)
    requires OutsideSession(w) && w.status.state != Preparing
    requires turns != [] && !Run(w, turns).panicked
    ensures var n, capacity := |turns| - 1, |w.flash|;
            var pre, last, state := turns[..n], turns[n], Run(w, turns).status.state;
            && (state == Idle <==> last.cmd.Abort?)
            && (state == Updating <==> InOpenSession(capacity, turns))
            && (state == ReadyToCommit <==> InCompleteSession(capacity, turns))
            && (state == WriteError <==> Failed(capacity, pre, last))
            && (state == ProtocolError <==> Refused(capacity, pre, last))
            && (state == Complete <==> last.cmd.Commit? && InCompleteSession(capacity, pre))
            && state != Preparing
  {
    var n := |turns| - 1;
    var pre := turns[..n];
    PartitionKeepsItsSize(w, pre);
    NeverLeftPreparing(w, turns);
    NeverLeftPreparing(w, pre);
    StateShowsSession(w, turns);
    StateAfterStep(Run(w, pre), turns[n]);
    PanickedStays(Run(w, pre), turns[n]);
    StateShowsSession(w, pre);
    hide Step, OutsideSession, InOpenSession, InCompleteSession, BlockWritten, PrepareOk;
  }

  lemma {:induction false} PanickedStays(w: World, t: Turn)
    ensures w.panicked ==> Step(w, t.cmd, t.env) == w
  {
  }

  function StateName(s: UpdateState): string {
    match s
    case Idle | Complete => "idle"
    case Updating => "updating"
    case ReadyToCommit => "ready to commit"
    case Preparing | WriteError | ProtocolError => "error"
  }

  /** A refused command changes nothing but the state and its error text: counters, flash and marks are kept. */
  lemma {:induction false} RefusalKeepsTheRest(w: World, turns: seq<Turn>)
    requires OutsideSession(w) && w.status.state != Preparing
    requires turns != [] && !Run(w, turns).panicked
    requires Refused(|w.flash|, turns[..|turns| - 1], turns[|turns| - 1])
    ensures var before, r := Run(w, turns[..|turns| - 1]), Run(w, turns);
            && r.flash == before.flash && r.marks == before.marks
            && r.status == before.status.(state := ProtocolError, errorDetails := r.status.errorDetails)
            && r.status.errorDetails == Some("Invalid request in " + StateName(before.status.state) + " state")
  {
    WhatEachStateMeans(w, turns);
    var n := |turns| - 1;
    StepToProtocolError(Run(w, turns[..n]), turns[n]);
    NeverLeftPreparing(w, turns[..n]);
    hide Step, Refused, OutsideSession;
  }

  lemma {:induction false} StepToProtocolError(w: World, t: Turn)
    requires t.cmd.WriteBlock? || t.cmd.Commit?
    requires Step(w, t.cmd, t.env).status.state == ProtocolError && !Step(w, t.cmd, t.env).panicked
    ensures var r := Step(w, t.cmd, t.env);
            && r.flash == w.flash && r.marks == w.marks
            && r.status == w.status.(state := ProtocolError, errorDetails := r.status.errorDetails)
            && r.status.errorDetails == Some("Invalid request in " + StateName(w.status.state) + " state")
  {
    hide AcceptBlock;
    RefusalTexts();
    if t.cmd.WriteBlock? && w.status.state == Updating {
      BlockIsNoProtocolError(w, t);
    }
  }

  lemma {:induction false} RefusalTexts()
    ensures "Invalid request in " + "idle" + " state" == "Invalid request in idle state"
    ensures "Invalid request in " + "updating" + " state" == "Invalid request in updating state"
    ensures "Invalid request in " + "ready to commit" + " state" == "Invalid request in ready to commit state"
    ensures "Invalid request in " + "error" + " state" == "Invalid request in error state"
  {
  }

  lemma {:induction false} BlockIsNoProtocolError(w: World, t: Turn)
    requires t.cmd.WriteBlock? && w.status.state == Updating
    ensures AcceptBlock(w, t.cmd.blockNum, t.cmd.data, t.env).status.state != ProtocolError
  {
    hide ProgramBlock, ScatterDebris;
  }

  function FailureText(t: Turn): string {
    if t.cmd.WriteBlock? then "Flash write failed"
    else if PartitionAccessible(t.env) then "Flash erase failed"
    else if t.env.bootState.Some? then "Firmware is not in a booted state"
    else "Failed to get firmware state"
  }

  /** Where a failed flash operation leaves debris: in its own erase chunk or block. */
  predicate Disturbed(capacity: nat, t: Turn, i: nat) {
    match t.cmd
    case StartUpdate(_) => PartitionAccessible(t.env) && i / BLOCK == t.env.eraseFailsAt
    case WriteBlock(num, _) => InPartition(capacity, num) && i / BLOCK == num
    case _ => false
  }

  predicate PartitionAccessible(env: FlashEnv) {
    env.bootState.Some? && !env.bootState.value.OtherState?
  }

  /**
   A failed turn never touches the marks. A failed block keeps all counters, and every byte outside its own block; a
   failed start has cleared the counters, and has erased what lies before the failing chunk and nothing beyond it. The
   chunk or block itself can hold anything.
   */
  lemma {:induction false} FailureKeepsTheRest(w: World, turns: seq<Turn>, i: nat)
    requires OutsideSession(w) && w.status.state != Preparing
    requires turns != [] && !Run(w, turns).panicked
    requires Failed(|w.flash|, turns[..|turns| - 1], turns[|turns| - 1])
    requires i < |w.flash|
    ensures |Run(w, turns).flash| == |Run(w, turns[..|turns| - 1]).flash| == |w.flash|
    ensures var last, before, r := turns[|turns| - 1], Run(w, turns[..|turns| - 1]), Run(w, turns);
            && r.marks == before.marks
            && r.status.errorDetails == Some(FailureText(last))
            && (last.cmd.WriteBlock? ==>
                  r.status == before.status.(state := WriteError, errorDetails := r.status.errorDetails))
            && (last.cmd.StartUpdate? ==>
                  r.status.blocksReceived == 0 && r.status.offset == 0 && r.status.totalSize == last.cmd.totalSize)
            && r.flash[i] == if Disturbed(|w.flash|, last, i) then Debris(last.env, i)
                             else if last.cmd.StartUpdate? && PartitionAccessible(last.env)
                                     && i / BLOCK < last.env.eraseFailsAt
                             then ERASED
                             else before.flash[i]
  {
    WhatEachStateMeans(w, turns);
    var n := |turns| - 1;
    PartitionKeepsItsSize(w, turns);
    PartitionKeepsItsSize(w, turns[..n]);
    StepToWriteError(Run(w, turns[..n]), turns[n], i);
    hide Step, Failed, OutsideSession, Disturbed, PartitionAccessible, FailureText;
  }

  lemma {:induction false} StepToWriteError(w: World, t: Turn, i: nat)
    requires t.cmd.WriteBlock? || t.cmd.StartUpdate?
    requires Step(w, t.cmd, t.env).status.state == WriteError && !Step(w, t.cmd, t.env).panicked
    requires i < |w.flash|
    ensures |Step(w, t.cmd, t.env).flash| == |w.flash|
    ensures var r := Step(w, t.cmd, t.env);
            && r.marks == w.marks
            && r.status.errorDetails == Some(FailureText(t))
            && (t.cmd.WriteBlock? ==>
                  r.status == w.status.(state := WriteError, errorDetails := r.status.errorDetails))
            && (t.cmd.StartUpdate? ==>
                  r.status.blocksReceived == 0 && r.status.offset == 0 && r.status.totalSize == t.cmd.totalSize)
            && r.flash[i] == if Disturbed(|w.flash|, t, i) then Debris(t.env, i)
                             else if t.cmd.StartUpdate? && PartitionAccessible(t.env)
                                     && i / BLOCK < t.env.eraseFailsAt
                             then ERASED
                             else w.flash[i]
  {
    hide ProgramBlock, NumBlocks;
  }

  /** A commit keeps the flash and records its outcome; it clears the counters exactly if it succeeded. */
  lemma {:induction false} CommitOutcome(w: World, turns: seq<Turn>)
    requires OutsideSession(w)
    requires turns != [] && !Run(w, turns).panicked
    requires turns[|turns| - 1].cmd.Commit? && InCompleteSession(|w.flash|, turns[..|turns| - 1])
    ensures var last, before, r := turns[|turns| - 1], Run(w, turns[..|turns| - 1]), Run(w, turns);
            && r.flash == before.flash
            && r.marks == before.marks + [last.env.markOk]
            && (if last.env.markOk then r.status == IDLE.(state := Complete)
                else r.status == before.status.(state := Complete, errorDetails := r.status.errorDetails)
                     && r.status.errorDetails.Some?)
  {
    var n := |turns| - 1;
    PanickedStays(Run(w, turns[..n]), turns[n]);
    StateShowsSession(w, turns[..n]);
    hide OutsideSession, InCompleteSession;
  }
}
