/** Pieces whose 32-bit range is not their own, in runs of the download. */
module DownloadMisplaced {
  import opened Machine
  import opened Client
  import opened Bitfield
  import opened Disk
  import opened DiskContent
  import opened DiskOverread
  import opened Pieces
  import opened Download
  import opened DownloadOwnership
  import opened DownloadSafety
  import opened DownloadRuns
  import opened DownloadProgress

  /** The bitfield of a peer that has one piece. */
  function OneBit(count: nat, i: nat): seq<bv8> {
    SetPiece(seq(count / 8 + 2, _ => 0), i)
  }

  lemma HasOnly(count: nat, i: nat, j: nat)
    requires i < count
    ensures |OneBit(count, i)| > 0
    ensures HasPiece(OneBit(count, i), j) <==> j == i
  {
    HasAfterSet(seq(count / 8 + 2, _ => 0), i, j);
    NoBitSet(j % 8);
    hide BitOf;
  }

  lemma NoBitSet(k: nat)
    requires k < 8
    ensures !BitOf(0, k)
  {
  }

  /** Peer 0, alone, has only piece i, and pops until it gets it. */
  lemma {:induction false} PopUntil(w: World, s: State, i: nat) returns (t: State)
    requires ValidWorld(w) && Sound(w, s) && Idle(s) && s.peers[0].bits == OneBit(s.sched.g.count, i)
    requires s.sched.next <= i < s.sched.g.count
    ensures w.plan.lengths != [] && Sound(w, t) && Leads(w, s, t) && Popped(t)
    ensures t.peers[0].phase.piece == i && t.log == s.log
    decreases i - s.sched.next
  {
    hide ValidWorld, Sound, Leads, PopStepF, After, Enabled, Possible, OneBit, Popped;
    var bits := s.peers[0].bits;
    HasOnly(s.sched.g.count, i, s.sched.next);
    PopNew(s.sched, bits);
    if s.sched.next == i {
      t := TakePiece(w, s);
    } else {
      SoundFacts(w, s);
      MayPop(w, s);
      var u := Take(w, s, Pop(0));
      AfterSkipped(w, s, u);
      t := PopUntil(w, u, i);
      LeadsOn(w, s, u, t);
    }
  }

  lemma PopNew(s: Sched, bits: seq<bv8>)
    requires s.next < s.g.count
    ensures PopStepF(s, bits).1 == if HasPiece(bits, s.next) then Got(s.next) else Skipped
    ensures PopStepF(s, bits).0.next == s.next + 1 && PopStepF(s, bits).0.g == s.g
  {
    hide HasPiece;
  }

  lemma AfterSkipped(w: World, s: State, u: State)
    requires w.plan.lengths != [] && Idle(s) && Possible(s, Pop(0)) && u == After(w, s, Pop(0))
    requires s.sched.next < s.sched.g.count && PopStepF(s.sched, s.peers[0].bits).1.Skipped?
    ensures Idle(u) && u.peers[0].bits == s.peers[0].bits && u.log == s.log
    ensures u.sched.g == s.sched.g && u.sched.next == s.sched.next + 1
  {
    PopNew(s.sched, s.peers[0].bits);
    hide PopStepF;
  }

  /** A truthful peer that has only piece i: all of it arrives first. */
  lemma FirstPiece(w: World, i: nat) returns (t: State)
    requires ValidWorld(w) && i < w.plan.g.count
    ensures w.plan.lengths != [] && Sound(w, t) && Leads(w, Init(w), t) && Solo(t) && !Wants(t, 0)
    ensures t.peers[0].phase.piece == i && t.log == []
  {
    PlanFacts(w.plan);
    StartIsSound(w);
    hide ValidPlan, Sound, Solo, Wants, OneBit, Leads, Popped, NewDisk;
    var s := Init(w);
    HasOnly(w.plan.g.count, i, i);
    var a := StartPeer(w, s, OneBit(w.plan.g.count, i));
    var b := PopUntil(w, a, i);
    LeadsOn(w, s, a, b);
    var c := Unchoked(w, b);
    LeadsOn(w, s, b, c);
    t := AllBlocks(w, c);
    LeadsOn(w, s, c, t);
  }

  /** A misplaced piece can be the first one completed: then no assertion has failed, and the disk does not
      hold the bytes of the piece. */
  lemma MisplacedInRuns(p: Plan, fs: map<string, seq<byte>>, i: nat) returns (t: State)
    requires ValidPlan(p) && NamesUsable(p, fs) && i < p.g.count && Misplaced(p, i)
    ensures p.lengths != [] && p.g.pieceSize > 0
    ensures Reachable(World(p, Ones(p.g.total), fs), t) && !t.aborted && t.log == [i]
    ensures !DiskInv(p, Ones(p.g.total), fs, t.disk, CoveredFiles(p, {i}))
  {
    hide *;
    PlanFacts(p);
    OnesSize(p.g.total);
    var w := World(p, Ones(p.g.total), fs);
    WorldIs(w);
    var s := FirstPiece(w, i);
    MisplacedIsWritten(p, fs, i);
    FirstCompleted(w, s, i);
    t := Take(w, s, Complete(0));
    LeadsOn(w, Init(w), s, t);
    LeadsToReachable(w, t);
    SoundParts(w, t);
  }

  lemma WorldIs(w: World)
    requires ValidPlan(w.plan) && |w.content| == w.plan.g.total
    ensures ValidWorld(w)
  {
  }

  lemma FirstCompleted(w: World, s: State, i: nat)
    requires ValidWorld(w) && Sound(w, s) && Solo(s) && !Wants(s, 0) && s.peers[0].phase.piece == i && s.log == []
    requires |w.content| == w.plan.g.total && WriteAllF(w.plan, w.content, w.fs, [i]).Some?
    ensures Enabled(w, s, Complete(0)) && !After(w, s, Complete(0)).aborted && After(w, s, Complete(0)).log == [i]
  {
    hide Inv, Reachable, WriteAllF, WritePieceF, PieceData, Wants, Accounted, ValidPlan, AfterComplete;
    CompleteStep(w, s, 0);
    CompletionIs(w, s, 0);
    assert [] + [i] == [i];
  }

  lemma SoundParts(w: World, t: State)
    requires Sound(w, t)
    ensures !t.aborted && w.plan.lengths != [] && |w.content| == w.plan.g.total
    ensures WriteAllF(w.plan, w.content, w.fs, t.log) == Some(t.disk)
  {
    SoundFacts(w, t);
    InvParts(w, t);
    hide Sound, Inv, WriteAllF;
  }

  /** The disk holds the true bytes at every moment of every run, for every content, exactly when no piece of
      the torrent is misplaced. */
  lemma DiskInRunsIff(p: Plan, fs: map<string, seq<byte>>)
    requires ValidPlan(p) && NamesUsable(p, fs)
    ensures p.lengths != [] && p.g.pieceSize > 0
    ensures (forall content: seq<byte>, s |
               |content| == p.g.total && Reachable(World(p, content, fs), s) && !s.aborted ::
               DiskInv(p, content, fs, s.disk, CoveredFiles(p, Elems(s.log))))
            <==> NoneMisplaced(p)
  {
    PlanFacts(p);
    hide ValidPlan, NamesUsable, Misplaced, Reachable, DiskInv, CoveredFiles, Elems;
    if NoneMisplaced(p) {
      forall content: seq<byte>, s | |content| == p.g.total && Reachable(World(p, content, fs), s) && !s.aborted
        ensures DiskInv(p, content, fs, s.disk, CoveredFiles(p, Elems(s.log)))
      {
        DiskInRuns(World(p, content, fs), s);
      }
    } else {
      var i: nat :| i < p.g.count && Misplaced(p, i);
      var t := MisplacedInRuns(p, fs, i);
      ElemsOfOne(i);
      OnesSize(p.g.total);
      hide Ones;
    }
  }

  lemma ElemsOfOne(i: nat)
    ensures Elems([i]) == {i}
  {
  }

  // ---- A read past the data ----

  /** The piece that peer id has completed is about to be read past its end. */
  ghost predicate AboutToReadPast(p: Plan, s: State, id: nat)
    requires p.lengths != []
  {
    && InLoop(s, id, false) && !Wants(s, id)
    && PieceReadsPast(p, s.disk, s.peers[id].phase.piece, s.sched.pieces[s.peers[id].phase.piece].data)
  }

  /** With such a piece completed, no assertion has failed before the read. */
  lemma OverreadInRuns(p: Plan, fs: map<string, seq<byte>>, i: nat) returns (t: State)
    requires ValidPlan(p) && NamesUsable(p, fs) && i < p.g.count && Overread(p, i)
    ensures p.lengths != []
    ensures Reachable(World(p, Ones(p.g.total), fs), t) && !t.aborted && AboutToReadPast(p, t, 0)
  {
    hide *;
    PlanFacts(p);
    OnesSize(p.g.total);
    var w := World(p, Ones(p.g.total), fs);
    WorldIs(w);
    t := FirstPiece(w, i);
    LeadsToReachable(w, t);
    SoundParts(w, t);
    NothingWritten(w);
    OverreadReadsPast(p, fs, i);
    HeldIsTrue(w, t);
    AboutIs(p, t);
  }

  lemma NothingWritten(w: World)
    requires w.plan.lengths != [] && |w.content| == w.plan.g.total
    ensures WriteAllF(w.plan, w.content, w.fs, []) == Some(NewDisk(w.fs, |w.plan.lengths|))
  {
    hide NewDisk;
  }

  lemma HeldIsTrue(w: World, s: State)
    requires ValidWorld(w) && Sound(w, s) && Solo(s) && !Wants(s, 0)
    ensures var i := s.peers[0].phase.piece;
            s.sched.pieces[i].data == PieceData(w.plan.g, w.content, i)
  {
    SoundFacts(w, s);
    hide Sound, Inv, PieceSizeOf, PieceData, ValidWorld, Pipeline;
    HeldPiece(w, s, 0);
    var i := s.peers[0].phase.piece;
    CompletePiece(w, i, s.sched.pieces[i], s.peers[0], s.peers[0].phase.backlog);
  }

  lemma AboutIs(p: Plan, s: State)
    requires p.lengths != [] && Solo(s) && !Wants(s, 0)
    requires PieceReadsPast(p, s.disk, s.peers[0].phase.piece, s.sched.pieces[s.peers[0].phase.piece].data)
    ensures AboutToReadPast(p, s, 0)
  {
    hide PieceReadsPast, Wants;
  }

  lemma ReadPastNeedsOverread(w: World, s: State, id: nat)
    requires ValidWorld(w) && w.plan.lengths != [] && Reachable(w, s) && !s.aborted && AboutToReadPast(w.plan, s, id)
    ensures var i := s.peers[id].phase.piece; i < w.plan.g.count && Overread(w.plan, i)
  {
    ReachableSafe(w, s);
    hide Reachable, Inv, PieceReadsPast, ValidPlan, PieceData, Overread, PieceSizeOf, Pipeline;
    HeldPiece(w, s, id);
    SameGeometry(w, s);
    var i := s.peers[id].phase.piece;
    var p := s.sched.pieces[i];
    CompletePiece(w, i, p, s.peers[id], s.peers[id].phase.backlog);
    RequestedInPiece(w, i, p, s.peers[id], s.peers[id].phase.backlog);
    PlanFacts(w.plan);
    PieceDataSize(w, i);
    ReadPastIsOverread(w.plan, s.disk, i, p.data);
  }

  lemma PieceDataSize(w: World, i: nat)
    requires ValidWorld(w) && i < w.plan.g.count
    ensures |PieceData(w.plan.g, w.content, i)| == PieceSizeOf(w.plan.g, i)
  {
    PieceSizeExact(w.plan.g, i);
    PieceDataIs(w.plan.g, w.content, i);
    hide PieceSizeOf, PieceData, PieceStart, PieceEnd, ValidSizes;
  }

  /** Some run comes to a read past the data of a piece exactly when the last piece starts at or above 2^32, is
      shorter than the others, and its whole 32-bit range can be cut up to where its data ends inside a file. */
  lemma ReadPastIff(p: Plan, fs: map<string, seq<byte>>)
    requires ValidPlan(p) && NamesUsable(p, fs)
    ensures p.lengths != []
    ensures (exists content: seq<byte>, s, id ::
               |content| == p.g.total && Reachable(World(p, content, fs), s) && !s.aborted && AboutToReadPast(p, s, id))
            <==> exists i: nat :: i < p.g.count && Overread(p, i)
  {
    PlanFacts(p);
    hide ValidPlan, NamesUsable, Overread, Reachable, AboutToReadPast;
    if content: seq<byte>, s, id :|
      |content| == p.g.total && Reachable(World(p, content, fs), s) && !s.aborted && AboutToReadPast(p, s, id)
    {
      ReadPastNeedsOverread(World(p, content, fs), s, id);
    }
    if i: nat :| i < p.g.count && Overread(p, i) {
      var t := OverreadInRuns(p, fs, i);
      OnesSize(p.g.total);
      hide Ones;
    }
  }
}
