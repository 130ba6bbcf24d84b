/** What a run of the download tells about its past: what peers have said, what is sent, when it stops. */
module DownloadHistory {
  import opened Machine
  import opened Client
  import opened Bitfield
  import opened Disk
  import opened DiskContent
  import opened Pieces
  import opened Download
  import opened DownloadOwnership
  import opened DownloadSafety
  import opened DownloadRuns
  import opened DownloadProgress

  // ---- What peers have said ----

  /** The last Choke or Unchoke of the peer since the round began was an Unchoke. */
  ghost function LastWasUnchoke(steps: seq<Step>, id: nat): bool {
    if steps == [] then false else
    var before := LastWasUnchoke(steps[..|steps| - 1], id);
    match steps[|steps| - 1]
    case NewRound(_) => false
    case Receive(from, msg, _) =>
      if from == id && msg == Choke then false else if from == id && msg == Unchoke then true else before
    case _ => before
  }

  /** The bits the peer connected with in this round. */
  ghost function ConnectedWith(steps: seq<Step>, id: nat): seq<bv8> {
    if steps == [] then [] else
    var before := ConnectedWith(steps[..|steps| - 1], id);
    match steps[|steps| - 1]
    case NewRound(_) => []
    case Connect(from, bits) => if from == id then bits else before
    case _ => before
  }

  /** The pieces the peer has announced since it connected. */
  ghost function AnnouncedPieces(steps: seq<Step>, id: nat): seq<nat> {
    if steps == [] then [] else
    var before := AnnouncedPieces(steps[..|steps| - 1], id);
    match steps[|steps| - 1]
    case NewRound(_) => []
    case Connect(from, _) => if from == id then [] else before
    case Receive(from, msg, _) => if from == id && msg.Have? then before + [msg.index] else before
    case _ => before
  }

  /** What a step does to what is known of a peer. */
  lemma StepSays(w: World, s: State, step: Step, id: nat)
    requires w.plan.lengths != [] && Possible(s, step)
    requires id in After(w, s, step).peers && !step.NewRound?
    ensures id in s.peers
    ensures var peer, peer' := s.peers[id], After(w, s, step).peers[id];
            && peer'.unchoked
               == (if step.Receive? && step.id == id && step.msg == Choke then false
                   else if step.Receive? && step.id == id && step.msg == Unchoke then true
                   else peer.unchoked)
            && peer'.bits
               == (if step.Connect? && step.id == id then step.bits
                   else if step.Receive? && step.id == id && step.msg.Have? then SetPiece(peer.bits, step.msg.index)
                   else peer.bits)
  {
    hide PopStepF, PushF, RequestedF, ReceiveF, BlockFits, WritePieceF, DownloadedF, SetPiece, Wants, MaySend, Answered,
         BlockSize, PieceSizeOf;
  }

  /** In every run, with any peers: a peer is taken to be unchoking exactly when its last word said so, and to
      have exactly the pieces it connected with and has announced since. */
  lemma {:induction false} PeersAreHeard(w: World, states: seq<State>, steps: seq<Step>, n: nat, id: nat)
    requires w.plan.lengths != [] && Run(w, states, steps) && n <= |steps| && id in states[n].peers
    ensures states[n].peers[id].unchoked == LastWasUnchoke(steps[..n], id)
    ensures states[n].peers[id].bits == AfterHaves(ConnectedWith(steps[..n], id), AnnouncedPieces(steps[..n], id))
  {
    hide Possible, After, SetPiece;
    if n == 0 {
      NobodyAtStart(w, id);
    } else {
      var step := steps[n - 1];
      assert steps[..n][..n - 1] == steps[..n - 1] && steps[..n][n - 1] == step;
      if step.NewRound? {
        NewPeers(w, states[n - 1], step, id);
      } else {
        StepSays(w, states[n - 1], step, id);
        PeersAreHeard(w, states, steps, n - 1, id);
        AnnouncedOne(ConnectedWith(steps[..n - 1], id), AnnouncedPieces(steps[..n - 1], id), step);
      }
    }
  }

  lemma NobodyAtStart(w: World, id: nat)
    ensures id !in Init(w).peers
  {
  }

  lemma NewPeers(w: World, s: State, step: Step, id: nat)
    requires w.plan.lengths != [] && Possible(s, step) && step.NewRound? && id in After(w, s, step).peers
    ensures After(w, s, step).peers[id] == NEW_PEER
  {
  }

  lemma AnnouncedOne(bits: seq<bv8>, haves: seq<nat>, step: Step)
    ensures step.Receive? && step.msg.Have? ==>
              AfterHaves(bits, haves + [step.msg.index]) == SetPiece(AfterHaves(bits, haves), step.msg.index)
    ensures step.Connect? ==> AfterHaves(step.bits, []) == step.bits
  {
    hide SetPiece;
    if step.Receive? && step.msg.Have? {
      assert (haves + [step.msg.index])[..|haves|] == haves;
    }
  }

  ghost predicate Connected(phase: Phase) {
    !phase.Connecting? && !phase.Ended?
  }

  lemma StaysConnected(w: World, s: State, step: Step, id: nat)
    requires w.plan.lengths != [] && Possible(s, step) && id in After(w, s, step).peers && !step.NewRound?
    requires Connected(After(w, s, step).peers[id].phase)
    ensures id in s.peers && (Connected(s.peers[id].phase) || (step.Connect? && step.id == id))
    ensures step.Connect? ==> |step.bits| > 0
  {
    hide PopStepF, PushF, RequestedF, ReceiveF, BlockFits, WritePieceF, DownloadedF, SetPiece, Wants, MaySend, Answered,
         BlockSize, PieceSizeOf;
  }

  /** In every run, with any peers: a connected peer has a bitfield message with at least its id, so that the size
      from which one is subtracted is never zero. */
  lemma {:induction false} BitsAreThere(w: World, states: seq<State>, steps: seq<Step>, n: nat, id: nat)
    requires w.plan.lengths != [] && Run(w, states, steps) && n <= |steps| && id in states[n].peers
    requires Connected(states[n].peers[id].phase)
    ensures |states[n].peers[id].bits| > 0
  {
    hide Possible, After, SetPiece;
    if n == 0 {
      NobodyAtStart(w, id);
    } else {
      var step := steps[n - 1];
      if step.NewRound? {
        NewPeers(w, states[n - 1], step, id);
      } else {
        StepSays(w, states[n - 1], step, id);
        StaysConnected(w, states[n - 1], step, id);
        assert states[n] == After(w, states[n - 1], step);
        if Connected(states[n - 1].peers[id].phase) {
          BitsAreThere(w, states, steps, n - 1, id);
        }
        SameLength(states[n - 1].peers[id].bits, step);
      }
    }
  }

  lemma SameLength(bits: seq<bv8>, step: Step)
    ensures step.Receive? && step.msg.Have? ==> |SetPiece(bits, step.msg.index)| == |bits|
  {
  }

  /** In every run: a request is sent only to a peer whose last word was Unchoke, with a backlog below five. */
  lemma RequestsAreWelcome(w: World, states: seq<State>, steps: seq<Step>, n: nat)
    requires w.plan.lengths != [] && Run(w, states, steps) && n < |steps| && steps[n].SendRequest?
    ensures var id := steps[n].id;
            && id in states[n].peers && states[n].peers[id].phase.Downloading?
            && LastWasUnchoke(steps[..n], id)
            && states[n].peers[id].phase.backlog < 5
  {
    var id := steps[n].id;
    assert Possible(states[n], steps[n]);
    hide Possible, After;
    SendGuard(states[n], id);
    PeersAreHeard(w, states, steps, n, id);
  }

  lemma SendGuard(s: State, id: nat)
    requires Possible(s, SendRequest(id))
    ensures InLoop(s, id, false) && Wants(s, id) && s.peers[id].unchoked && s.peers[id].phase.backlog < 5
    ensures s.sched.pieces[s.peers[id].phase.piece].requested < PieceSizeOf(s.sched.g, s.peers[id].phase.piece)
  {
    hide PieceSizeOf;
  }

  /** A peer in the request loop that holds an unfinished piece is sent a request exactly when it is unchoking,
      fewer than five requests are outstanding and not all of the piece has been requested: the next block of
      16384 bytes, or what is left. */
  lemma RequestIff(w: World, s: State, id: nat)
    requires ValidWorld(w) && Reachable(w, s) && !s.aborted && InLoop(s, id, false) && Wants(s, id)
    ensures var peer, i := s.peers[id], s.peers[id].phase.piece;
            var size := PieceSizeOf(w.plan.g, i);
            && (Possible(s, SendRequest(id))
                <==> peer.unchoked && |peer.outstanding| < 5 && 16384 * |peer.sent| < size)
            && (Possible(s, SendRequest(id)) ==>
                  var next := Request(i, 16384 * |peer.sent|, Min(16384, size - 16384 * |peer.sent|));
                  var peer' := AfterSend(s, id).peers[id];
                  peer'.sent == peer.sent + [next] && peer'.outstanding == peer.outstanding + [next])
  {
    PipelineInRuns(w, s, id);
    ReachableSafe(w, s);
    SameGeometry(w, s);
    hide Reachable, Inv, Pipeline, PieceSizeOf, ValidWorld, RequestedF;
  }

  // ---- When the program stops ----

  /** With any peers: a state that is not aborted has no next step exactly when the main loop has been left. */
  lemma StopsExactly(w: World, s: State)
    requires ValidWorld(w) && w.plan.lengths != [] && Attainable(w, s) && !s.aborted
    ensures (forall step :: !Possible(s, step)) <==> Exited(s)
  {
    AttainableAccounted(w, s);
    hide Attainable, Possible, Accounted, ValidWorld;
    if Exited(s) {
      forall step
        ensures !Possible(s, step)
      {
        NothingPossible(s, step);
      }
    } else {
      var step := SomethingPossible(w, s);
    }
  }

  lemma NothingPossible(s: State, step: Step)
    requires Exited(s)
    ensures !Possible(s, step)
  {
    hide Wants, MaySend;
  }

  lemma SomethingPossible(w: World, s: State) returns (step: Step)
    requires Accounted(w, s) && !s.aborted && !Exited(s)
    ensures Possible(s, step)
  {
    hide Issued, SizedPieces, Assembled, Owned;
    if AllEnded(s) {
      step := NewRound({0});
      assert 0 in {0};
    } else {
      var id :| id in s.peers && !s.peers[id].phase.Ended?;
      if s.peers[id].phase.Downloading? {
        OnlyHolder(s, id, s.peers[id].phase.piece);
      }
      EndingStepEnabled(w, s, id);
      step := EndingStep(s, id);
    }
  }

  /** A round begins exactly when no coroutine is left and pieces are missing. */
  lemma RoundsHaveWork(s: State, ids: set<nat>)
    ensures Possible(s, NewRound(ids)) <==>
              !s.aborted && ids != {} && AllEnded(s) && s.sched.done < s.sched.g.count
  {
  }
}
