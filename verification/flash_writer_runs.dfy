/** What holds over every run of the writer task: counters, commit gating, panics, and the contents of the partition. */
module FlashWriterRuns {
  import opened Common
  import opened FlashWriter

  datatype Turn = Turn(cmd: Command, env: FlashEnv)

  function Run(w: World, turns: seq<Turn>): World {
    if turns == [] then w
    else
      var last := turns[|turns| - 1];
      Step(Run(w, turns[..|turns| - 1]), last.cmd, last.env)
  }

  lemma {:induction false} PartitionKeepsItsSize(w: World, turns: seq<Turn>)
    ensures |Run(w, turns).flash| == |w.flash|
  {
    if turns != [] {
      PartitionKeepsItsSize(w, turns[..|turns| - 1]);
    }
  }

  // ---------------------------------------------------------------- counters

  predicate CountersInRange(s: Status) {
    && s.blocksReceived <= 0xFFFF
    && s.offset <= BLOCK * s.blocksReceived < 0x1_0000_0000
    && (s.state == Updating ==> s.blocksReceived < Max(1, s.totalNumBlocks))
    && (s.state == ReadyToCommit ==> s.blocksReceived == Max(1, s.totalNumBlocks))
  }

  lemma {:induction false} StepKeepsCounters(w: World, t: Turn)
    requires CountersInRange(w.status)
    ensures CountersInRange(Step(w, t.cmd, t.env).status)
  {
    if !w.panicked && w.status.state == Updating && t.cmd.WriteBlock? {
      BlockKeepsCounters(w, t);
    }
    hide Erase, AcceptBlock, PrepareOk, EraseError;
  }

  lemma {:induction false} BlockKeepsCounters(w: World, t: Turn)
    requires CountersInRange(w.status) && w.status.state == Updating
    requires t.cmd.WriteBlock?
    ensures CountersInRange(AcceptBlock(w, t.cmd.blockNum, t.cmd.data, t.env).status)
  {
    hide ProgramBlock, ScatterDebris;
  }

  /** Neither `blocks_received += 1` nor `offset += data_len` ever wraps. */
  lemma {:induction false} CountersStayInRange(w: World, turns: seq<Turn>)
    requires CountersInRange(w.status)
    ensures CountersInRange(Run(w, turns).status)
  {
    if turns != [] {
      var n := |turns| - 1;
      CountersStayInRange(w, turns[..n]);
      StepKeepsCounters(Run(w, turns[..n]), turns[n]);
      hide Step, CountersInRange;
    }
  }

  // ---------------------------------------------------------------- sessions

  /** The number of successful block writes after which a session may be committed. */
  function Needed(totalSize: U32): nat {
    Max(1, NumBlocks(totalSize))
  }

  predicate BlockWritten(capacity: nat, t: Turn) {
    && t.cmd.WriteBlock?
    && |t.cmd.data| <= BLOCK
    && InPartition(capacity, t.cmd.blockNum)
    && t.env.writeOk
  }

  /** Turn `j` starts an update and erases the whole partition; every turn after it writes one block. */
  predicate Session(capacity: nat, turns: seq<Turn>, j: int) {
    && 0 <= j < |turns|
    && turns[j].cmd.StartUpdate?
    && PrepareOk(capacity, turns[j].env)
    && forall i :: j < i < |turns| ==> BlockWritten(capacity, turns[i])
  }

  /** A session that has written exactly the blocks its start announced. */
  predicate CompleteSession(capacity: nat, turns: seq<Turn>, j: int) {
    Session(capacity, turns, j) && |turns| - 1 - j == Needed(turns[j].cmd.totalSize)
  }

  predicate OpenSession(capacity: nat, turns: seq<Turn>, j: int) {
    Session(capacity, turns, j) && |turns| - 1 - j < Needed(turns[j].cmd.totalSize)
  }

  function ErasedPartition(capacity: nat): seq<Byte> {
    seq(capacity, _ => ERASED)
  }

  function ProgramAll(flash: seq<Byte>, blocks: seq<Turn>): (r: seq<Byte>)
    requires forall i :: 0 <= i < |blocks| ==> blocks[i].cmd.WriteBlock?
    ensures |r| == |flash|
  {
    if blocks == [] then flash
    else
      var last := blocks[|blocks| - 1].cmd;
      ProgramBlock(ProgramAll(flash, blocks[..|blocks| - 1]), last.blockNum, last.data)
  }

  function TotalLength(blocks: seq<Turn>): nat
    requires forall i :: 0 <= i < |blocks| ==> blocks[i].cmd.WriteBlock?
  {
    if blocks == [] then 0
    else TotalLength(blocks[..|blocks| - 1]) + |blocks[|blocks| - 1].cmd.data|
  }

  lemma {:induction false} EraseFillsPartition(flash: seq<Byte>, env: FlashEnv)
    requires PrepareOk(|flash|, env)
    ensures Erase(flash, env) == ErasedPartition(|flash|)
  {
    forall i | 0 <= i < |flash| ensures Erase(flash, env)[i] == ERASED {
      assert i / BLOCK < env.eraseFailsAt;
    }
  }

  /** Where a session announcing `total` bytes has got to after the successful writes `blocks`. */
  predicate Progress(r: World, total: U32, blocks: seq<Turn>)
    requires forall i :: 0 <= i < |blocks| ==> blocks[i].cmd.WriteBlock?
  {
    && !r.panicked
    && if |blocks| <= Needed(total) then
         && r.status.totalSize == total && r.status.errorDetails.None?
         && r.status.totalNumBlocks == NumBlocks(total)
         && r.status.state == (if |blocks| < Needed(total) then Updating else ReadyToCommit)
         && r.status.blocksReceived == |blocks|
         && r.status.offset == TotalLength(blocks)
         && r.flash == ProgramAll(ErasedPartition(|r.flash|), blocks)
       else
         r.status.state == ProtocolError
  }

  lemma {:induction false} ProgressOfStart(w: World, t: Turn)
    requires !w.panicked
    requires t.cmd.StartUpdate?
    requires PrepareOk(|w.flash|, t.env)
    ensures Progress(Step(w, t.cmd, t.env), t.cmd.totalSize, [])
    ensures Step(w, t.cmd, t.env).marks == w.marks
  {
    EraseFillsPartition(w.flash, t.env);
  }

  lemma {:induction false} ProgressOfOneWrite(r: World, total: U32, blocks: seq<Turn>, t: Turn)
    requires forall i :: 0 <= i < |blocks| ==> blocks[i].cmd.WriteBlock?
    requires Progress(r, total, blocks)
    requires BlockWritten(|r.flash|, t)
    ensures Progress(Step(r, t.cmd, t.env), total, blocks + [t])
    ensures Step(r, t.cmd, t.env).marks == r.marks
  {
    var more := blocks + [t];
    assert more[..|more| - 1] == blocks;
    var r' := Step(r, t.cmd, t.env);
    if |more| <= Needed(total) {
      assert r'.flash == ProgramBlock(r.flash, t.cmd.blockNum, t.cmd.data);
    } else {
      assert r'.status.state == ProtocolError;
    }
  }

  /** A session makes progress whatever state the writer was in before it started. */
  lemma {:induction false} SessionProgress(w: World, turns: seq<Turn>, j: int)
    requires Session(|w.flash|, turns, j)
    requires !Run(w, turns[..j]).panicked
    ensures Progress(Run(w, turns), turns[j].cmd.totalSize, turns[j + 1..])
    ensures Run(w, turns).marks == Run(w, turns[..j]).marks
    decreases |turns|
  {
    hide Step, Progress;
    var n := |turns| - 1;
    var pre := turns[..n];
    PartitionKeepsItsSize(w, pre);
    if j == n {
      ProgressOfStart(Run(w, pre), turns[n]);
      assert turns[j + 1..] == [];
    } else {
      assert pre[..j] == turns[..j];
      SessionProgress(w, pre, j);
      assert turns[j + 1..] == pre[j + 1..] + [turns[n]];
      ProgressOfOneWrite(Run(w, pre), turns[j].cmd.totalSize, pre[j + 1..], turns[n]);
    }
  }

  predicate OutsideSession(w: World) {
    w.status.state != Updating && w.status.state != ReadyToCommit && !w.panicked
  }

  lemma {:induction false} StepIntoSession(w: World, t: Turn)
    requires var r := Step(w, t.cmd, t.env);
             !r.panicked && (r.status.state == Updating || r.status.state == ReadyToCommit)
    ensures !w.panicked
    ensures (t.cmd.StartUpdate? && PrepareOk(|w.flash|, t.env))
            || (w.status.state == Updating && BlockWritten(|w.flash|, t))
  {
  }

  lemma {:induction false} StepCallsMarkUpdated(w: World, t: Turn)
    ensures |Step(w, t.cmd, t.env).marks| > |w.marks| <==>
            !w.panicked && w.status.state == ReadyToCommit && t.cmd.Commit?
  {
  }

  lemma {:induction false} SessionState(w: World, turns: seq<Turn>, j: int)
    requires Session(|w.flash|, turns, j)
    requires !Run(w, turns[..j]).panicked
    requires Run(w, turns).status.state == Updating || Run(w, turns).status.state == ReadyToCommit
    ensures Run(w, turns).status.state == Updating <==> OpenSession(|w.flash|, turns, j)
    ensures Run(w, turns).status.state == ReadyToCommit <==> CompleteSession(|w.flash|, turns, j)
  {
    SessionProgress(w, turns, j);
    hide Run, Needed, ProgramAll, TotalLength;
  }

  /** The run begins outside any session, or with a start, which ends whatever session was open. */
  predicate FromOutside(w: World, turns: seq<Turn>) {
    OutsideSession(w) || (turns != [] && turns[0].cmd.StartUpdate?)
  }

  /** The converse: the writer is collecting blocks, or ready to commit, only because of a session. */
  lemma {:induction false} ActiveOnlyInSession(w: World, turns: seq<Turn>) returns (j: int)
    requires FromOutside(w, turns)
    requires Run(w, turns).status.state == Updating || Run(w, turns).status.state == ReadyToCommit
    requires !Run(w, turns).panicked
    ensures Session(|w.flash|, turns, j)
    ensures !Run(w, turns[..j]).panicked
    ensures Run(w, turns).status.state == Updating <==> OpenSession(|w.flash|, turns, j)
    ensures Run(w, turns).status.state == ReadyToCommit <==> CompleteSession(|w.flash|, turns, j)
    decreases |turns|
  {
    var n := |turns| - 1;
    var pre := turns[..n];
    PartitionKeepsItsSize(w, pre);
    StepIntoSession(Run(w, pre), turns[n]);
    hide Step, BlockWritten, CompleteSession, OpenSession;
    if turns[n].cmd.StartUpdate? {
      j := n;
    } else {
      j := ActiveOnlyInSession(w, pre);
      assert pre[..j] == turns[..j];
      forall i | j < i < |turns| ensures BlockWritten(|w.flash|, turns[i]) {
        if i < n { assert BlockWritten(|w.flash|, pre[i]); }
      }
    }
    SessionState(w, turns, j);
  }

  /** Abort and start are accepted in every state, and forget whatever went wrong before. */
  lemma {:induction false} AlwaysRecoverable(w: World, t: Turn)
    requires !w.panicked
    requires t.cmd.Abort? || t.cmd.StartUpdate?
    ensures var r := Step(w, t.cmd, t.env);
            && !r.panicked && r.marks == w.marks
            && r.status.blocksReceived == r.status.offset == 0
            && (t.cmd.Abort? ==> r.status == IDLE && r.flash == w.flash)
            && (t.cmd.StartUpdate? ==>
                  && r.status.totalSize == t.cmd.totalSize
                  && (r.status.state == Updating <==> PrepareOk(|w.flash|, t.env))
                  && (r.status.state == WriteError <==> !PrepareOk(|w.flash|, t.env)))
            && (r.status.errorDetails.None? <==> r.status.state != WriteError)
  {
  }

  lemma {:induction false} NeverLeftPreparing(w: World, turns: seq<Turn>)
    requires w.status.state != Preparing
    ensures Run(w, turns).status.state != Preparing
  {
    if turns != [] {
      var n := |turns| - 1;
      NeverLeftPreparing(w, turns[..n]);
      StepLeavesPreparing(Run(w, turns[..n]), turns[n]);
      hide Step;
    }
  }

  lemma {:induction false} StepLeavesPreparing(w: World, t: Turn)
    requires w.status.state != Preparing
    ensures Step(w, t.cmd, t.env).status.state != Preparing
  {
    hide Erase, ProgramBlock, ScatterDebris;
  }

  // ---------------------------------------------------------------- commit gating

  /** Turn `k` calls mark_updated. */
  predicate CallsMarkUpdated(w: World, turns: seq<Turn>, k: int)
    requires 0 <= k < |turns|
  {
    |Run(w, turns[..k + 1]).marks| > |Run(w, turns[..k]).marks|
  }

  lemma {:induction false} PanicLasts(w: World, turns: seq<Turn>, k: int)
    requires 0 <= k <= |turns|
    requires Run(w, turns[..k]).panicked
    ensures Run(w, turns).panicked
    decreases |turns|
  {
    if k < |turns| {
      assert turns[..|turns| - 1][..k] == turns[..k];
      PanicLasts(w, turns[..|turns| - 1], k);
    } else {
      assert turns[..k] == turns;
    }
  }

  lemma {:induction false} SessionNotPanicked(w: World, turns: seq<Turn>, j: int)
    requires 0 <= j <= |turns|
    requires !Run(w, turns).panicked
    ensures !Run(w, turns[..j]).panicked
  {
    hide Step;
    if Run(w, turns[..j]).panicked {
      PanicLasts(w, turns, j);
    }
  }

  /**
   mark_updated is called exactly by a Commit that directly follows a complete session: a start
   whose erase succeeded, then exactly the announced number of successful writes and nothing else.
   */
  lemma {:induction false} CommitGate(w: World, turns: seq<Turn>, k: int)
    requires OutsideSession(w)
    requires 0 <= k < |turns|
    requires !Run(w, turns[..k]).panicked
    ensures CallsMarkUpdated(w, turns, k) <==>
            turns[k].cmd.Commit? && exists j :: CompleteSession(|w.flash|, turns[..k], j)
  {
    var pre := turns[..k];
    assert turns[..k + 1][..k] == pre;
    StepCallsMarkUpdated(Run(w, pre), turns[k]);
    hide Step;
    if CallsMarkUpdated(w, turns, k) {
      var j := ActiveOnlyInSession(w, pre);
    }
    if j :| turns[k].cmd.Commit? && CompleteSession(|w.flash|, pre, j) {
      SessionNotPanicked(w, pre, j);
      SessionProgress(w, pre, j);
    }
  }

  /** Turn `k` hands the writer a block of more than 4096 bytes while a session is open. */
  ghost predicate OversizedBlock(w: World, turns: seq<Turn>, k: int) {
    && 0 <= k < |turns|
    && !Run(w, turns[..k]).panicked
    && turns[k].cmd.WriteBlock?
    && BLOCK < |turns[k].cmd.data|
    && exists j :: OpenSession(|w.flash|, turns[..k], j)
  }

  lemma {:induction false} TurnPanics(w: World, turns: seq<Turn>, k: int)
    requires OutsideSession(w)
    requires 0 <= k < |turns|
    requires !Run(w, turns[..k]).panicked
    ensures Run(w, turns[..k + 1]).panicked <==> OversizedBlock(w, turns, k)
  {
    var pre := turns[..k];
    assert turns[..k + 1][..k] == pre;
    if Run(w, turns[..k + 1]).panicked {
      var j := ActiveOnlyInSession(w, pre);
    }
    if j :| OpenSession(|w.flash|, pre, j) {
      SessionNotPanicked(w, pre, j);
      SessionProgress(w, pre, j);
    }
  }

  /** The task panics exactly when an oversized block arrives inside an open session. */
  lemma {:induction false} PanicOnlyOnOversizedBlock(w: World, turns: seq<Turn>)
    requires OutsideSession(w)
    ensures Run(w, turns).panicked <==> exists k :: OversizedBlock(w, turns, k)
  {
    if k :| OversizedBlock(w, turns, k) {
      TurnPanics(w, turns, k);
      PanicLasts(w, turns, k + 1);
    }
    if Run(w, turns).panicked {
      var n := |turns| - 1;
      var pre := turns[..n];
      assert turns[..n + 1] == turns;
      PanicOnlyOnOversizedBlock(w, pre);
      if Run(w, pre).panicked {
        var k :| OversizedBlock(w, pre, k);
        assert pre[..k] == turns[..k];
        assert OversizedBlock(w, turns, k);
      } else {
        TurnPanics(w, turns, n);
      }
    }
  }

  // ---------------------------------------------------------------- what Complete means

  predicate CompletionRecorded(w: World) {
    && CountersInRange(w.status)
    && (w.status.state == Complete ==>
          w.marks != [] && (w.marks[|w.marks| - 1] <==> w.status.blocksReceived == 0))
  }

  lemma {:induction false} StepRecordsCompletion(w: World, t: Turn)
    requires CompletionRecorded(w)
    ensures CompletionRecorded(Step(w, t.cmd, t.env))
  {
    StepKeepsCounters(w, t);
    var r := Step(w, t.cmd, t.env);
    assert r.status.state == Complete ==> r == w || r == CommitUpdate(w, t.env);
  }

  /**
   Complete alone does not say that the commit succeeded. In every reachable Complete state it did
   succeed if and only if the block counter, which the host can read, is back at zero.
   */
  lemma {:induction false} CompleteMeansCommittedIffCounterZero(w: World, turns: seq<Turn>)
    requires CompletionRecorded(w)
    ensures CompletionRecorded(Run(w, turns))
  {
    if turns != [] {
      var n := |turns| - 1;
      CompleteMeansCommittedIffCounterZero(w, turns[..n]);
      StepRecordsCompletion(Run(w, turns[..n]), turns[n]);
      hide Step, CompletionRecorded;
    }
  }

  /** A run that ends in Complete although mark_updated failed. */
  lemma {:induction false} CompleteAfterFailedCommit()
    ensures exists w: World, turns: seq<Turn> ::
              OutsideSession(w) && CompletionRecorded(w)
              && Run(w, turns).status.state == Complete && Run(w, turns).marks == [false]
  {
    var fine := FlashEnv(Some(Boot), 1, true, true, _ => 0);
    var start := Turn(StartUpdate(1), fine);
    var block := Turn(WriteBlock(0, [7]), fine);
    var commit := Turn(Commit, fine.(markOk := false));
    var w := World(IDLE, ErasedPartition(BLOCK), [], false);
    var turns := [start, block];
    assert turns[..0] == [] && turns[1..] == [block];
    assert CompleteSession(|w.flash|, turns, 0);
    SessionProgress(w, turns, 0);
    assert [start, block, commit][..2] == turns;
    assert Run(w, [start, block, commit]).marks == [false];
  }
}
