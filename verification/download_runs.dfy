/** Every run of the download, with any interleaving of any peers over any number of rounds. */
module DownloadRuns {
  import opened Machine
  import opened Client
  import opened Layout
  import opened Disk
  import opened DiskContent
  import opened Pieces
  import opened Download
  import opened DownloadOwnership
  import opened DownloadSafety
  import DiskFiles

  // ---- Any peers ----

  lemma {:induction false} RunsAreAccounted(w: World, states: seq<State>, steps: seq<Step>, n: nat)
    requires ValidWorld(w) && w.plan.lengths != [] && Run(w, states, steps) && n <= |steps|
    ensures Accounted(w, states[n])
  {
    hide Accounted, Possible, After, ValidWorld, Init;
    if n == 0 {
      AccountedAtStart(w);
    } else {
      RunsAreAccounted(w, states, steps, n - 1);
      StepKeeps(w, states[n - 1], steps[n - 1]);
    }
  }

  lemma AttainableAccounted(w: World, s: State)
    requires ValidWorld(w) && w.plan.lengths != [] && Attainable(w, s)
    ensures Accounted(w, s)
  {
    hide Accounted, Possible, After, ValidWorld;
    var states, steps :| Run(w, states, steps) && states[|steps|] == s;
    RunsAreAccounted(w, states, steps, |steps|);
  }

  lemma ReachableIsAttainable(w: World, s: State)
    requires w.plan.lengths != [] && Reachable(w, s)
    ensures Attainable(w, s)
  {
    hide Truthful, Possible, After;
    var states, steps :| Run(w, states, steps) && Truthful(w, states, steps) && states[|steps|] == s;
    assert Run(w, states, steps) && states[|steps|] == s;
  }

  /** Whatever the peers send: each issued piece is downloaded, held by one peer or queued once. */
  lemma PiecesAreCounted(w: World, s: State)
    requires ValidWorld(w) && Attainable(w, s)
    ensures s.sched.next == s.sched.done + |s.sched.pieces|
    ensures |s.sched.pieces| == |Held(s)| + |s.sched.retry|
  {
    AttainableAccounted(w, s);
    IssuedCount(s);
    OwnedCount(s);
    hide *;
  }

  lemma AccountedParts(w: World, s: State) returns (content: seq<byte>)
    requires Accounted(w, s)
    ensures s.sched.g == w.plan.g && Issued(s) && Owned(s)
    ensures w.plan.lengths != [] && |content| == w.plan.g.total
    ensures WriteAllF(w.plan, content, w.fs, s.log) == Some(s.disk)
  {
    hide Issued, Owned, SizedPieces, WriteAllF;
    content :| Assembled(w, content, s);
  }

  lemma WrittenTotal(p: Plan, content: seq<byte>, fs: map<string, seq<byte>>, d: Disk)
    requires ValidPlan(p) && Finished(p, content, fs, d)
    ensures Sum(DiskFiles.WrittenCounts(d)) == p.g.total
  {
    hide OnlyTorrentFiles, Off;
    forall k | 0 <= k < |d.files|
      ensures d.files[k].written == p.lengths[k]
    {
      assert FinishedFile(p, content, d, k);
    }
    assert DiskFiles.WrittenCounts(d) == p.lengths;
  }

  /** Whatever the peers send: when the main loop is left, every piece was handed to the disk exactly once,
      nothing is queued, the written bytes add up, and the files hold some content of the torrent's size. */
  lemma ExitedMeansComplete(w: World, s: State)
    requires ValidWorld(w) && Attainable(w, s) && Exited(s)
    ensures CompleteLog(w.plan.g, s.log)
    ensures s.sched.pieces == map[] && s.sched.retry == []
    ensures Writable(w.plan, w.fs)
    ensures Sum(DiskFiles.WrittenCounts(s.disk)) == w.plan.g.total
    ensures exists content: seq<byte> :: |content| == w.plan.g.total && Finished(w.plan, content, w.fs, s.disk)
  {
    AttainableAccounted(w, s);
    hide *;
    var content := AccountedParts(w, s);
    ExitedParts(s);
    LogIsComplete(s);
    ValidWorldParts(w);
    WritingAllPieces(w.plan, content, w.fs, s.log);
    WrittenTotal(w.plan, content, w.fs, s.disk);
  }

  lemma ExitedParts(s: State)
    requires Exited(s)
    ensures AllEnded(s) && s.sched.done >= s.sched.g.count
  {
  }

  lemma ValidWorldParts(w: World)
    requires ValidWorld(w)
    ensures ValidPlan(w.plan) && |w.content| == w.plan.g.total && w.plan.g.pieceSize > 0
  {
    PlanFacts(w.plan);
  }

  // ---- Truthful peers ----

  lemma InvAtStart(w: World)
    requires ValidWorld(w)
    ensures Inv(w, Init(w))
  {
    AccountedAtStart(w);
    hide NewDisk, Accounted;
  }

  /** The piece after the log cannot be written. */
  ghost predicate Refused(w: World, log: seq<nat>, i: nat)
    requires w.plan.lengths != [] && |w.content| == w.plan.g.total
  {
    PiecesOf(w.plan.g, log + [i]) && WriteAllF(w.plan, w.content, w.fs, log + [i]).None?
  }

  /** The invariant holds, or the disk has refused a piece: no other assertion can fail. */
  ghost predicate Safe(w: World, s: State)
    requires w.plan.lengths != [] && |w.content| == w.plan.g.total
  {
    if s.aborted then exists i :: Refused(w, s.log, i) else Inv(w, s)
  }

  lemma CompleteSafe(w: World, s: State, id: nat)
    requires ValidWorld(w) && Inv(w, s) && !s.aborted && InLoop(s, id, false) && !Wants(s, id)
    ensures Safe(w, AfterComplete(w, s, id))
  {
    CompleteStep(w, s, id);
    CompletionIs(w, s, id);
    hide Inv, WriteAllF, WritePieceF, PieceData, ValidWorld, Wants, PieceSizeOf, PiecesOf, AfterComplete;
    if AfterComplete(w, s, id).aborted {
      assert Refused(w, s.log, s.peers[id].phase.piece);
    }
  }

  lemma PassiveStep(w: World, s: State, step: Step)
    requires ValidWorld(w) && Inv(w, s) && Enabled(w, s, step)
    requires step.Connect? || step.SkipSend? || step.Announced?
    ensures Inv(w, After(w, s, step)) && !After(w, s, step).aborted
  {
    var id := step.id;
    PhaseOf(w, s, id);
    var s' := After(w, s, step);
    var peer := s'.peers[id];
    if step.SkipSend? {
      HeldPiece(w, s, id);
      var i := peer.phase.piece;
      SamePipeline(w, i, s.sched.pieces[i], s.peers[id], peer, peer.phase.backlog);
      DownloadingPeer(w, s.sched, i, peer, peer.phase.backlog);
    } else {
      IdlePeer(w, s.sched, peer);
    }
    hide Inv, PeerInv, Pipeline, ValidWorld, Wants, MaySend;
    PeerStep(w, s, id, peer);
  }

  lemma PhaseOf(w: World, s: State, id: nat)
    requires Inv(w, s) && id in s.peers
    ensures s.peers[id].phase.Downloading? || s.peers[id].phase.Ended? || s.peers[id].outstanding == []
  {
    hide Accounted, WriteAllF, Pipeline;
    assert PeerInv(w, s.sched, s.peers[id]);
  }

  /** Every step keeps the invariant, or ends in a refusal of the disk when a piece is completed. */
  lemma SafeStep(w: World, s: State, step: Step)
    requires ValidWorld(w) && Inv(w, s) && Enabled(w, s, step)
    ensures Safe(w, After(w, s, step))
    ensures After(w, s, step).aborted ==> step.Complete?
  {
    match step {
      case Connect(_, _) => PassiveStep(w, s, step);
      case SkipSend(_) => PassiveStep(w, s, step);
      case Announced(_) => PassiveStep(w, s, step);
      case NewRound(ids) => NewRoundStep(w, s, ids);
      case Pop(id) => PopStep(w, s, id);
      case SendRequest(id) => SendStep(w, s, id);
      case Receive(id, msg, k) => ReceiveStep(w, s, id, msg, k);
      case Complete(id) => CompleteSafe(w, s, id);
      case Fail(id) => FailStep(w, s, id);
    }
    hide Inv, ValidWorld, Wants, MaySend, InLoop, Answers, PopStepF, PushF, RequestedF, Refused;
  }

  /** Every reachable state is safe. */
  lemma {:induction false} RunsAreSafe(w: World, states: seq<State>, steps: seq<Step>, n: nat)
    requires ValidWorld(w) && Run(w, states, steps) && Truthful(w, states, steps) && n <= |steps|
    ensures Safe(w, states[n])
  {
    hide Inv, Enabled, Possible, After, Refused, ValidWorld;
    if n == 0 {
      InvAtStart(w);
      NotAbortedAtStart(w);
    } else {
      RunsAreSafe(w, states, steps, n - 1);
      NotAborted(states[n - 1], steps[n - 1]);
      SafeStep(w, states[n - 1], steps[n - 1]);
    }
  }

  lemma NotAborted(s: State, step: Step)
    requires Possible(s, step)
    ensures !s.aborted
  {
  }

  lemma NotAbortedAtStart(w: World)
    ensures !Init(w).aborted
  {
  }

  lemma ReachableSafe(w: World, s: State)
    requires ValidWorld(w) && Reachable(w, s)
    ensures Safe(w, s)
  {
    hide Inv, Enabled, Possible, After, Refused;
    var states, steps :| Run(w, states, steps) && Truthful(w, states, steps) && states[|steps|] == s;
    RunsAreSafe(w, states, steps, |steps|);
  }

  // ---- When the program can be aborted ----

  lemma NeverRefused(w: World, log: seq<nat>, i: nat)
    requires ValidWorld(w) && Writable(w.plan, w.fs)
    ensures !Refused(w, log, i)
  {
    PlanFacts(w.plan);
    AllInPlace(w.plan);
    hide ValidPlan, WriteAllF, DiskInv, FitsIn32Bits, EmptyFilesLast, NamesUsable, NoDup, InPlace, Misplaced;
    if Refused(w, log, i) {
      AllWritten(w.plan, w.content, w.fs, log + [i]);
    }
  }

  /** If the files can be written, no run fails an assertion. */
  lemma NeverAborts(w: World, s: State)
    requires ValidWorld(w) && Reachable(w, s) && Writable(w.plan, w.fs)
    ensures !s.aborted && Inv(w, s)
  {
    ReachableSafe(w, s);
    hide ValidWorld, Reachable, Inv, Refused, Writable;
    if s.aborted {
      var i :| Refused(w, s.log, i);
      NeverRefused(w, s.log, i);
    }
  }

  // ---- What holds during a run ----

  /** The request pipeline of every peer that holds a piece, in every reachable state: the requests sent are the
      blocks of 16384 bytes of the piece, in order, the last one shorter; at most five are outstanding. */
  lemma PipelineInRuns(w: World, s: State, id: nat)
    requires ValidWorld(w) && Reachable(w, s) && !s.aborted
    requires id in s.peers && s.peers[id].phase.Downloading?
    ensures var i := s.peers[id].phase.piece;
            i in s.sched.pieces && Pipeline(w, i, s.sched.pieces[i], s.peers[id], s.peers[id].phase.backlog)
    ensures var peer, i := s.peers[id], s.peers[id].phase.piece;
            var size := PieceSizeOf(w.plan.g, i);
            && |peer.outstanding| == peer.phase.backlog <= 5
            && s.sched.pieces[i].requested == Min(16384 * |peer.sent|, size)
            && forall k | 0 <= k < |peer.sent| ::
                 16384 * k < size && peer.sent[k] == Request(i, 16384 * k, Min(16384, size - 16384 * k))
  {
    ReachableSafe(w, s);
    hide *;
    HeldPiece(w, s, id);
    var i := s.peers[id].phase.piece;
    PipelineNumbers(w, i, s.sched.pieces[i], s.peers[id], s.peers[id].phase.backlog);
  }

  lemma PipelineNumbers(w: World, i: nat, p: Progress, peer: Peer, backlog: int)
    requires Pipeline(w, i, p, peer, backlog)
    ensures var size := PieceSizeOf(w.plan.g, i);
            && |peer.outstanding| == backlog <= 5
            && p.requested == Min(16384 * |peer.sent|, size)
            && forall k | 0 <= k < |peer.sent| ::
                 16384 * k < size && peer.sent[k] == Request(i, 16384 * k, Min(16384, size - 16384 * k))
  {
    hide PieceSizeOf, TrueBytes, TotalLength, Sized;
    var size := PieceSizeOf(w.plan.g, i);
    forall k | 0 <= k < |peer.sent|
      ensures 16384 * k < size && peer.sent[k] == Request(i, 16384 * k, Min(16384, size - 16384 * k))
    {
      assert peer.sent[k] == BlockAt(i, size, k);
    }
  }

  /** At any moment the disk has exactly the bytes of the completed pieces, all of them true, unless some
      piece of the torrent is misplaced. */
  lemma DiskInRuns(w: World, s: State)
    requires ValidWorld(w) && Reachable(w, s) && !s.aborted && NoneMisplaced(w.plan)
    ensures w.plan.g.pieceSize > 0
    ensures DiskInv(w.plan, w.content, w.fs, s.disk, CoveredFiles(w.plan, Elems(s.log)))
  {
    ReachableSafe(w, s);
    hide *;
    InvParts(w, s);
    IssuedPieces(s);
    ValidWorldParts(w);
    NoneInLog(w.plan, s.log);
    AllWritten(w.plan, w.content, w.fs, s.log);
  }

  lemma IssuedPieces(s: State)
    requires Issued(s)
    ensures PiecesOf(s.sched.g, s.log)
  {
    hide NoDup;
  }

  lemma NoneInLog(p: Plan, log: seq<nat>)
    requires NoneMisplaced(p) && PiecesOf(p.g, log)
    ensures forall i | i in log :: !Misplaced(p, i)
  {
    hide Misplaced, NoDup;
  }

  // ---- When the main loop has been left ----

  /** When the main loop is left, every piece was handed to the disk exactly once, nothing is queued,
      every file is finished and closed with its slice of the content, and the written bytes add up.
      This is only possible when the files are writable. */
  lemma ExitedMeansDownloaded(w: World, s: State)
    requires ValidWorld(w) && Reachable(w, s) && Exited(s)
    ensures CompleteLog(w.plan.g, s.log)
    ensures s.sched.pieces == map[] && s.sched.retry == []
    ensures Writable(w.plan, w.fs) && Finished(w.plan, w.content, w.fs, s.disk)
    ensures Sum(DiskFiles.WrittenCounts(s.disk)) == w.plan.g.total
  {
    ReachableSafe(w, s);
    hide *;
    ExitedIsSafe(w, s);
    ReachableIsAttainable(w, s);
    ExitedMeansComplete(w, s);
    InvParts(w, s);
    ValidWorldParts(w);
    WritingAllPieces(w.plan, w.content, w.fs, s.log);
  }

  lemma ExitedIsSafe(w: World, s: State)
    requires w.plan.lengths != [] && |w.content| == w.plan.g.total && Safe(w, s) && Exited(s)
    ensures Inv(w, s)
  {
    hide Inv, Refused;
  }
}
