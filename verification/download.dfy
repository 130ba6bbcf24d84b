/**
 The download as a state machine: any number of peers over any number of tracker rounds,
 sharing one scheduler and interleaving at every point where a coroutine waits.

 A peer may be silent, choke, unchoke, announce pieces, send any block or disconnect at any time. The
 blocks of a truthful peer answer its outstanding requests, in any order, with the true bytes. A failed
 assertion, a write outside a buffer, or a read past the data of a piece ends the program: the state is
 aborted.
 */
module Download {
  import opened Machine
  import opened Client
  import opened Bitfield
  import opened Disk
  import opened Pieces

  datatype Request = Request(piece: nat, offset: nat, length: nat)

  datatype Message =
    | KeepAlive
    | Choke
    | Unchoke
    | Have(index: nat)
    | Block(piece: nat, begin: nat, data: seq<byte>)
    | Other

  /** Where the coroutine of a peer is. Downloading(piece, backlog, reading) is inside the request loop:
      at its head, or waiting for a message. */
  datatype Phase =
    | Connecting
    | Ready
    | Downloading(piece: nat, backlog: int, reading: bool)
    | Announcing
    | Ended

  /** sent and outstanding describe the connection: the requests sent for the current piece, and those
      the peer has not answered. */
  datatype Peer = Peer(phase: Phase, bits: seq<bv8>, unchoked: bool, sent: seq<Request>, outstanding: seq<Request>)

  const NEW_PEER: Peer := Peer(Connecting, [], false, [], [])

  /** log lists the completed pieces in the order they were handed to the disk. */
  datatype State = State(sched: Sched, peers: map<nat, Peer>, log: seq<nat>, disk: Disk, aborted: bool)

  datatype Step =
    | NewRound(ids: set<nat>)
    | Connect(id: nat, bits: seq<bv8>)
    | Pop(id: nat)
    | SendRequest(id: nat)
    | SkipSend(id: nat)
    | Receive(id: nat, msg: Message, answered: nat)
    | Complete(id: nat)
    | Announced(id: nat)
    | Fail(id: nat)

  /** The torrent, its content, and the directory before the download. */
  datatype World = World(plan: Plan, content: seq<byte>, fs: map<string, seq<byte>>)

  ghost predicate ValidWorld(w: World) {
    ValidPlan(w.plan) && |w.content| == w.plan.g.total
  }

  function Init(w: World): State {
    State(Sched(w.plan.g, 0, map[], [], 0), map[], [], NewDisk(w.fs, |w.plan.lengths|), false)
  }

  ghost predicate AllEnded(s: State) {
    forall id | id in s.peers :: s.peers[id].phase.Ended?
  }

  /** The main loop has been left. */
  ghost predicate Exited(s: State) {
    !s.aborted && AllEnded(s) && s.sched.done >= s.sched.g.count
  }

  /** The bytes of the content a request asks for. */
  function BlockData(w: World, r: Request): seq<byte> {
    var from := PieceStart(w.plan.g, r.piece) + r.offset;
    if from + r.length <= |w.content| then w.content[from..from + r.length] else []
  }

  /** What a truthful peer sends: messages the client handles, and blocks that answer one of its
      outstanding requests with the true bytes. */
  ghost predicate Answers(w: World, peer: Peer, msg: Message, k: nat) {
    && !msg.Other?
    && (msg.Block? ==>
          && k < |peer.outstanding|
          && var r := peer.outstanding[k];
             msg == Block(r.piece, r.offset, BlockData(w, r)))
  }

  // ---- Steps ----

  ghost predicate InLoop(s: State, id: nat, reading: bool) {
    && id in s.peers
    && s.peers[id].phase.Downloading?
    && s.peers[id].phase.reading == reading
    && s.peers[id].phase.piece in s.sched.pieces
  }

  /** The request loop goes on. */
  ghost predicate Wants(s: State, id: nat)
    requires InLoop(s, id, false)
  {
    var i := s.peers[id].phase.piece;
    s.sched.pieces[i].downloaded < PieceSizeOf(s.sched.g, i)
  }

  ghost predicate MaySend(s: State, id: nat)
    requires InLoop(s, id, false)
  {
    var peer := s.peers[id];
    CanSend(s.sched, peer.phase.piece, peer.unchoked, peer.phase.backlog)
  }

  /** The steps of the program with any peers. */
  ghost predicate Possible(s: State, step: Step) {
    !s.aborted &&
    match step
    case NewRound(ids) => ids != {} && AllEnded(s) && s.sched.done < s.sched.g.count
    case Connect(id, bits) => id in s.peers && s.peers[id].phase.Connecting? && |bits| > 0
    case Pop(id) => id in s.peers && s.peers[id].phase.Ready?
    case SendRequest(id) => InLoop(s, id, false) && Wants(s, id) && MaySend(s, id)
    case SkipSend(id) => InLoop(s, id, false) && Wants(s, id) && !MaySend(s, id)
    case Receive(id, msg, _) => InLoop(s, id, true) && (msg.Block? ==> FieldsFit(msg.begin, msg.data))
    case Complete(id) => InLoop(s, id, false) && !Wants(s, id)
    case Announced(id) => id in s.peers && s.peers[id].phase.Announcing?
    case Fail(id) =>
      && id in s.peers
      && (|| s.peers[id].phase.Connecting?
          || s.peers[id].phase.Announcing?
          || InLoop(s, id, true)
          || (InLoop(s, id, false) && Wants(s, id) && MaySend(s, id)))
  }

  /** The steps with truthful peers. */
  ghost predicate Enabled(w: World, s: State, step: Step) {
    Possible(s, step) && (step.Receive? ==> Answers(w, s.peers[step.id], step.msg, step.answered))
  }

  ghost function WithPeer(s: State, id: nat, peer: Peer): State {
    s.(peers := s.peers[id := peer])
  }

  ghost function AfterPop(s: State, id: nat): State
    requires id in s.peers
  {
    var peer := s.peers[id];
    var (sched, r) := PopStepF(s.sched, peer.bits);
    var phase := match r
      case NoPiece => Ended
      case Skipped => Ready
      case Got(i) => Downloading(i, 0, false);
    WithPeer(s.(sched := sched), id, peer.(phase := phase, sent := []))
  }

  ghost function AfterSend(s: State, id: nat): State
    requires InLoop(s, id, false) && MaySend(s, id)
  {
    var peer := s.peers[id];
    var i := peer.phase.piece;
    var request := Request(i, s.sched.pieces[i].requested, BlockSize(s.sched, i));
    WithPeer(s.(sched := RequestedF(s.sched, i)), id,
             peer.(phase := Downloading(i, peer.phase.backlog + 1, true),
                   sent := peer.sent + [request],
                   outstanding := peer.outstanding + [request]))
  }

  /** A block must be of the held piece and fit; other messages are not handled. */
  ghost function AfterReceive(s: State, id: nat, msg: Message, k: nat): State
    requires InLoop(s, id, true)
  {
    var peer := s.peers[id];
    var i := peer.phase.piece;
    var atHead := peer.(phase := peer.phase.(reading := false));
    match msg
    case KeepAlive => WithPeer(s, id, atHead)
    case Choke => WithPeer(s, id, atHead.(unchoked := false))
    case Unchoke => WithPeer(s, id, atHead.(unchoked := true))
    case Have(index) => WithPeer(s, id, atHead.(bits := SetPiece(peer.bits, index)))
    case Block(piece, begin, data) =>
      if piece != i || !BlockFits(s.sched, i, begin, data) then s.(aborted := true) else
      WithPeer(s.(sched := ReceiveF(s.sched, i, begin, data)), id,
               atHead.(phase := Downloading(i, peer.phase.backlog - 1, false),
                       outstanding := Answered(peer.outstanding, k)))
    case Other => s.(aborted := true)
  }

  /** The requests still outstanding once request k, if there is one, has been answered. */
  function Answered(requests: seq<Request>, k: nat): seq<Request> {
    if k < |requests| then Without(requests, k) else requests
  }

  /** The finished piece goes to the disk. */
  ghost function AfterComplete(w: World, s: State, id: nat): State
    requires InLoop(s, id, false) && w.plan.lengths != []
  {
    var peer := s.peers[id];
    var i := peer.phase.piece;
    var piece := s.sched.pieces[i];
    if piece.downloaded != PieceSizeOf(s.sched.g, i) then s.(aborted := true) else
    var disk := WritePieceF(w.plan, s.disk, i, piece.data);
    if disk.None? then s.(aborted := true) else
    WithPeer(s.(sched := DownloadedF(s.sched, i), log := s.log + [i], disk := disk.value), id,
             peer.(phase := Announcing))
  }

  /** The coroutine ends; a held piece goes back to the queue. */
  ghost function AfterFail(s: State, id: nat): State
    requires id in s.peers
  {
    var peer := s.peers[id];
    var sched := if peer.phase.Downloading? then PushF(s.sched, peer.phase.piece) else s.sched;
    WithPeer(s.(sched := sched), id, peer.(phase := Ended))
  }

  ghost function After(w: World, s: State, step: Step): State
    requires Possible(s, step) && w.plan.lengths != []
  {
    match step
    case NewRound(ids) => s.(peers := map id | id in ids :: NEW_PEER)
    case Connect(id, bits) => WithPeer(s, id, s.peers[id].(phase := Ready, bits := bits))
    case Pop(id) => AfterPop(s, id)
    case SendRequest(id) => AfterSend(s, id)
    case SkipSend(id) => WithPeer(s, id, s.peers[id].(phase := s.peers[id].phase.(reading := true)))
    case Receive(id, msg, k) => AfterReceive(s, id, msg, k)
    case Complete(id) => AfterComplete(w, s, id)
    case Announced(id) => WithPeer(s, id, s.peers[id].(phase := Ready))
    case Fail(id) => AfterFail(s, id)
  }

  /** A run of the program: the states after each of a sequence of steps. */
  ghost predicate Run(w: World, states: seq<State>, steps: seq<Step>)
    requires w.plan.lengths != []
  {
    && |states| == |steps| + 1
    && states[0] == Init(w)
    && forall n | 0 <= n < |steps| :: Possible(states[n], steps[n]) && states[n + 1] == After(w, states[n], steps[n])
  }

  /** The peers of the run were truthful. */
  ghost predicate Truthful(w: World, states: seq<State>, steps: seq<Step>)
    requires |states| == |steps| + 1
  {
    forall n | 0 <= n < |steps| :: Enabled(w, states[n], steps[n])
  }

  /** Reachable with any peers. */
  ghost predicate Attainable(w: World, s: State)
    requires w.plan.lengths != []
  {
    exists states, steps :: Run(w, states, steps) && states[|steps|] == s
  }

  /** Reachable with truthful peers. */
  ghost predicate Reachable(w: World, s: State)
    requires w.plan.lengths != []
  {
    exists states, steps :: Run(w, states, steps) && Truthful(w, states, steps) && states[|steps|] == s
  }
}
