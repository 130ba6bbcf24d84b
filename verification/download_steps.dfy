/**
 The steps of the state machine are what the objects do: the contracts of the scheduler's methods, read on the
 scheduler and the peer of a state, give the next state.
 */
module DownloadSteps {
  import opened Machine
  import opened Client
  import opened Bitfield
  import opened Disk
  import opened Pieces
  import opened PiecesToDownload
  import opened Download
  import opened DownloadOwnership
  import opened DownloadProgress

  /** OnMessage: the same outcome, and the same scheduler, bits, flag and backlog. */
  lemma MessageStep(s: State, id: nat, msg: Message, k: nat)
    requires !s.aborted && InLoop(s, id, true)
    ensures var s', peer, i := AfterReceive(s, id, msg, k), s.peers[id], s.peers[id].phase.piece;
            && (s'.aborted <==> !MessageOutcome(s.sched, i, msg).Handled?)
            && (MessageOutcome(s.sched, i, msg).Handled? ==>
                  var peer' := s'.peers[id];
                  && s'.peers == s.peers[id := peer']
                  && s'.sched == (if msg.Block? then ReceiveF(s.sched, i, msg.begin, msg.data) else s.sched)
                  && peer'.unchoked == (if msg.Choke? then false else if msg.Unchoke? then true else peer.unchoked)
                  && peer'.bits == (if msg.Have? then SetPiece(peer.bits, msg.index) else peer.bits)
                  && peer'.phase
                     == Downloading(i, if msg.Block? then peer.phase.backlog - 1 else peer.phase.backlog, false)
                  && s'.log == s.log && s'.disk == s.disk)
  {
    hide ReceiveF, BlockAsserted, SetPiece, Answered, PieceSizeOf;
  }

  /** NextRequest: a request, or none, before the next message is read. */
  lemma RequestStep(s: State, id: nat)
    requires !s.aborted && InLoop(s, id, false) && Wants(s, id)
    ensures var peer, i := s.peers[id], s.peers[id].phase.piece;
            if CanSend(s.sched, i, peer.unchoked, peer.phase.backlog) then
              && Possible(s, SendRequest(id)) && !Possible(s, SkipSend(id))
              && AfterSend(s, id).sched == RequestedF(s.sched, i)
              && AfterSend(s, id).peers[id].phase == Downloading(i, peer.phase.backlog + 1, true)
              && AfterSend(s, id).peers[id].sent
                 == peer.sent + [Request(i, s.sched.pieces[i].requested, BlockSize(s.sched, i))]
            else
              Possible(s, SkipSend(id)) && !Possible(s, SendRequest(id))
  {
    hide PieceSizeOf, RequestedF;
  }

  /** NextPiece: popping until the peer has the piece, one step of the machine for each pop. */
  lemma {:induction false} PopSteps(w: World, s: State, id: nat) returns (t: State)
    requires w.plan.lengths != [] && !s.aborted && id in s.peers && s.peers[id].phase.Ready?
    ensures Leads(w, s, t) && t.sched == PopSkipF(s.sched, s.peers[id].bits).0
    ensures id in t.peers && t.peers == s.peers[id := t.peers[id]] && t.log == s.log && t.disk == s.disk
    ensures match PopSkipF(s.sched, s.peers[id].bits).1
            case Got(i) => t.peers[id] == s.peers[id].(phase := Downloading(i, 0, false), sent := [])
            case _ => t.peers[id].phase == Ended
    decreases s.sched.g.count - s.sched.next
  {
    var bits := s.peers[id].bits;
    PopSkipEnds(s.sched, bits);
    PopProgress(s.sched, bits);
    SkipsAreNew(s.sched, bits);
    hide PopStepF, HasPiece, Leads;
    var u := AfterPop(s, id);
    assert Possible(s, Pop(id));
    OneStepLeads(w, s, Pop(id));
    if PopStepF(s.sched, bits).1.Skipped? {
      t := PopSteps(w, u, id);
      LeadsOn(w, s, u, t);
    } else {
      t := u;
    }
  }

  /** OnPieceDownloaded, after the assertion on the size: the piece is stored and the scheduler forgets it, or the
      program ends. */
  lemma CompletionStep(w: World, s: State, id: nat)
    requires w.plan.lengths != [] && !s.aborted && InLoop(s, id, false) && !Wants(s, id)
    ensures var s', i := AfterComplete(w, s, id), s.peers[id].phase.piece;
            var ending := PieceEnding(w.plan, s.disk, i, s.sched.pieces[i].data);
            var goes := s.sched.pieces[i].downloaded == PieceSizeOf(s.sched.g, i) && ending.Stored?;
            && (s'.aborted <==> !goes)
            && (goes ==>
                  && s'.sched == DownloadedF(s.sched, i) && s'.log == s.log + [i]
                  && WritePieceF(w.plan, s.disk, i, s.sched.pieces[i].data) == Some(s'.disk)
                  && s'.peers == s.peers[id := s.peers[id].(phase := Announcing)])
  {
    hide WritePieceF, PieceReadsPast, PieceSizeOf;
  }

  /** A connection starts with the bits of the peer, choking; and goes on with another piece after one has been
      announced. */
  lemma ConnectionSteps(w: World, s: State, id: nat, bits: seq<bv8>)
    requires w.plan.lengths != []
    ensures Possible(s, Connect(id, bits)) ==>
              After(w, s, Connect(id, bits)) == s.(peers := s.peers[id := s.peers[id].(phase := Ready, bits := bits)])
    ensures Possible(s, Announced(id)) ==>
              After(w, s, Announced(id)) == s.(peers := s.peers[id := s.peers[id].(phase := Ready)])
    ensures Possible(s, SkipSend(id)) ==>
              var phase := s.peers[id].phase;
              After(w, s, SkipSend(id))
              == s.(peers := s.peers[id := s.peers[id].(phase := Downloading(phase.piece, phase.backlog, true))])
  {
    hide Wants, MaySend;
  }

  /** A round replaces the peers by new ones, and changes nothing else. */
  lemma RoundStep(w: World, s: State, ids: set<nat>)
    requires w.plan.lengths != [] && Possible(s, NewRound(ids))
    ensures After(w, s, NewRound(ids)).peers.Keys == ids
    ensures forall id | id in ids :: After(w, s, NewRound(ids)).peers[id] == Peer(Connecting, [], false, [], [])
    ensures After(w, s, NewRound(ids)) == s.(peers := After(w, s, NewRound(ids)).peers)
  {
  }

  /** The peer whose coroutine takes the step. */
  function Actor(step: Step): Option<nat> {
    match step
    case NewRound(_) => None
    case Connect(id, _) => Some(id)
    case Pop(id) => Some(id)
    case SendRequest(id) => Some(id)
    case SkipSend(id) => Some(id)
    case Receive(id, _, _) => Some(id)
    case Complete(id) => Some(id)
    case Announced(id) => Some(id)
    case Fail(id) => Some(id)
  }

  /** What a coroutine may do next: between two waits there is one way to go on, and it can only fail where it
      waits, for a connection, a message, or the end of a send. */
  lemma OwnSteps(s: State, step: Step, id: nat)
    requires Possible(s, step) && Actor(step) == Some(id)
    ensures id in s.peers
    ensures match s.peers[id].phase
            case Connecting => step.Connect? || step.Fail?
            case Ready => step.Pop?
            case Downloading(i, _, true) => step.Receive? || step.Fail?
            case Downloading(i, _, false) =>
              if !Wants(s, id) then step.Complete?
              else if MaySend(s, id) then step.SendRequest? || step.Fail?
              else step.SkipSend?
            case Announcing => step.Announced? || step.Fail?
            case Ended => false
  {
    hide Wants, MaySend;
  }

  /** The coroutine that ends gives back the piece it holds, and no other. */
  lemma FailureStep(s: State, id: nat)
    requires id in s.peers
    ensures var s', phase := AfterFail(s, id), s.peers[id].phase;
            && s'.sched == (if phase.Downloading? then PushF(s.sched, phase.piece) else s.sched)
            && s'.peers == s.peers[id := s.peers[id].(phase := Ended)]
            && s'.log == s.log && s'.disk == s.disk && s'.aborted == s.aborted
  {
  }
}
