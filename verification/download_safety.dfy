/** What holds in every state reachable with truthful peers. */
module DownloadSafety {
  import opened Machine
  import opened Client
  import opened Bitfield
  import opened Disk
  import opened DiskContent
  import opened Pieces
  import opened Download
  import opened DownloadOwnership

  // ---- The request pipeline ----

  function TotalLength(requests: seq<Request>): nat {
    if requests == [] then 0
    else TotalLength(requests[..|requests| - 1]) + requests[|requests| - 1].length
  }

  /** Block k of piece i: full-sized, but for the last. */
  function BlockAt(i: nat, size: nat, k: nat): Request
    requires k * MAX_BLOCK <= size
  {
    Request(i, k * MAX_BLOCK, Min(MAX_BLOCK, size - k * MAX_BLOCK))
  }

  /** The requests are the first blocks of the piece, in order and without gaps, and cover [0, end). */
  ghost predicate BlocksSent(i: nat, size: nat, sent: seq<Request>, end: nat) {
    && end == Min(|sent| * MAX_BLOCK, size)
    && forall k | 0 <= k < |sent| :: k * MAX_BLOCK < size && sent[k] == BlockAt(i, size, k)
  }

  ghost predicate InRequest(x: nat, r: Request) {
    r.offset <= x < r.offset + r.length
  }

  ghost predicate Awaited(x: nat, outstanding: seq<Request>) {
    exists k :: 0 <= k < |outstanding| && InRequest(x, outstanding[k])
  }

  /** Every requested byte that is not awaited is the true one. */
  ghost predicate TrueBytes(w: World, i: nat, p: Progress, outstanding: seq<Request>) {
    forall x: nat | x < p.requested && !Awaited(x, outstanding) ::
      && x < |p.data|
      && PieceStart(w.plan.g, i) + x < |w.content|
      && p.data[x] == w.content[PieceStart(w.plan.g, i) + x]
  }

  ghost predicate Pipeline(w: World, i: nat, p: Progress, peer: Peer, backlog: int) {
    var size := PieceSizeOf(w.plan.g, i);
    && i < w.plan.g.count
    && Sized(w.plan.g, i, p)
    && BlocksSent(i, size, peer.sent, p.requested)
    && (forall r | r in peer.outstanding ::
          r in peer.sent && r.piece == i && 0 < r.length && r.offset + r.length <= p.requested)
    && backlog == |peer.outstanding| <= MAX_BACKLOG
    && p.downloaded + TotalLength(peer.outstanding) == p.requested
    && TrueBytes(w, i, p, peer.outstanding)
  }

  ghost predicate PeerInv(w: World, sched: Sched, peer: Peer) {
    match peer.phase
    case Downloading(i, backlog, _) => i in sched.pieces && Pipeline(w, i, sched.pieces[i], peer, backlog)
    case Ended => true
    case _ => peer.outstanding == []
  }

  /** Every piece has one owner, every peer's pipeline is in order, and the true pieces have been written. */
  ghost predicate Inv(w: World, s: State) {
    && Accounted(w, s)
    && (forall id | id in s.peers :: PeerInv(w, s.sched, s.peers[id]))
    && Assembled(w, w.content, s)
  }

  lemma InvParts(w: World, s: State)
    requires Inv(w, s)
    ensures s.sched.g == w.plan.g && Issued(s) && Owned(s) && Accounted(w, s)
    ensures w.plan.lengths != [] && |w.content| == w.plan.g.total
    ensures WriteAllF(w.plan, w.content, w.fs, s.log) == Some(s.disk)
  {
    hide Issued, Owned, WriteAllF, PeerInv, SizedPieces;
  }

  // ---- Steps of one peer ----

  /** Other peers do not notice a change of a piece they do not hold. */
  lemma OthersKept(w: World, s: State, sched: Sched, i: nat, id: nat)
    requires forall q | q in s.peers :: PeerInv(w, s.sched, s.peers[q])
    requires forall j | j in s.sched.pieces && j != i :: j in sched.pieces && sched.pieces[j] == s.sched.pieces[j]
    requires forall q | q in s.peers && q != id :: !Holds(s.peers[q], i)
    ensures forall q | q in s.peers && q != id :: PeerInv(w, sched, s.peers[q])
  {
    hide Pipeline;
    forall q | q in s.peers && q != id
      ensures PeerInv(w, sched, s.peers[q])
    {
      assert PeerInv(w, s.sched, s.peers[q]);
      if s.peers[q].phase.Downloading? {
        assert Holds(s.peers[q], s.peers[q].phase.piece);
      }
    }
  }

  /** A peer and one piece that no other peer holds have changed; ownership is kept. */
  lemma OneChanged(w: World, s: State, id: nat, i: nat, sched: Sched, peer: Peer)
    requires Inv(w, s) && id in s.peers && PeerInv(w, sched, peer)
    requires forall j | j in s.sched.pieces && j != i :: j in sched.pieces && sched.pieces[j] == s.sched.pieces[j]
    requires forall q | q in s.peers && q != id :: !Holds(s.peers[q], i)
    requires Accounted(w, WithPeer(s.(sched := sched), id, peer))
    ensures Inv(w, WithPeer(s.(sched := sched), id, peer))
  {
    hide PeerInv, Accounted, WriteAllF, Holds;
    OthersKept(w, s, sched, i, id);
  }

  /** The peer changes, but not the piece it holds. */
  lemma PeerStep(w: World, s: State, id: nat, peer: Peer)
    requires Inv(w, s) && id in s.peers && PeerInv(w, s.sched, peer)
    requires forall i :: Holds(peer, i) <==> Holds(s.peers[id], i)
    ensures Inv(w, WithPeer(s, id, peer))
  {
    hide PeerInv, Accounted, WriteAllF, Holds;
    QuietKeeps(w, s, id, peer);
  }

  lemma NewRoundStep(w: World, s: State, ids: set<nat>)
    requires Inv(w, s) && AllEnded(s)
    ensures Inv(w, s.(peers := map id | id in ids :: NEW_PEER))
  {
    hide Accounted, WriteAllF;
    NewRoundKeeps(w, s, ids);
  }

  lemma FreshPipeline(w: World, i: nat, peer: Peer)
    requires i < w.plan.g.count && peer.sent == [] && peer.outstanding == []
    ensures Pipeline(w, i, NOTHING, peer, 0)
  {
  }

  lemma ReadyPeer(w: World, s: State, id: nat)
    requires Inv(w, s) && id in s.peers && s.peers[id].phase.Ready?
    ensures s.peers[id].outstanding == []
  {
    hide Accounted, WriteAllF, Pipeline;
    assert PeerInv(w, s.sched, s.peers[id]);
  }

  lemma DownloadingPeer(w: World, sched: Sched, i: nat, peer: Peer, backlog: int)
    requires i in sched.pieces && Pipeline(w, i, sched.pieces[i], peer, backlog)
    requires peer.phase.Downloading? && peer.phase.piece == i && peer.phase.backlog == backlog
    ensures PeerInv(w, sched, peer)
  {
  }

  lemma IdlePeer(w: World, sched: Sched, peer: Peer)
    requires !peer.phase.Downloading? && (peer.phase.Ended? || peer.outstanding == [])
    ensures PeerInv(w, sched, peer)
  {
  }

  /** The piece taken is new to every peer, and starts from nothing. */
  lemma GotStep(w: World, s: State, id: nat, sched: Sched, i: nat, peer: Peer)
    requires Inv(w, s) && id in s.peers && s.peers[id].phase.Ready?
    requires PopF(s.sched, s.peers[id].bits) == (sched, Some(i))
    requires peer == s.peers[id].(phase := Downloading(i, 0, false), sent := [])
    ensures Inv(w, WithPeer(s.(sched := sched), id, peer))
  {
    hide PeerInv, Accounted, WriteAllF, Issued, Owned, PopF, Pipeline, Inv, NoDup;
    InvParts(w, s);
    TakeKeeps(w, s, id, sched, i, peer);
    PoppedPiece(s, s.peers[id].bits);
    ReadyPeer(w, s, id);
    FreshPipeline(w, i, peer);
    DownloadingPeer(w, sched, i, peer, 0);
    OneChanged(w, s, id, i, sched, peer);
  }

  /** The peer that holds a piece gives it back. */
  lemma Release(w: World, s: State, id: nat, i: nat, peer: Peer)
    requires Inv(w, s) && id in s.peers && Holds(s.peers[id], i)
    requires !peer.phase.Downloading? && (peer.phase.Ended? || peer.outstanding == [])
    ensures Inv(w, WithPeer(s.(sched := PushF(s.sched, i)), id, peer))
  {
    hide Inv, PeerInv, Accounted, Issued, Owned, Holds;
    InvParts(w, s);
    ReleaseKeeps(w, s, id, i, peer);
    OnlyHolder(s, id, i);
    IdlePeer(w, PushF(s.sched, i), peer);
    OneChanged(w, s, id, i, PushF(s.sched, i), peer);
  }

  lemma PopStep(w: World, s: State, id: nat)
    requires Inv(w, s) && id in s.peers && s.peers[id].phase.Ready?
    ensures Inv(w, AfterPop(s, id))
  {
    hide Inv, PeerInv, PopF, HasPiece, AfterPop;
    var peer := s.peers[id];
    var (sched, o) := PopF(s.sched, peer.bits);
    ReadyPeer(w, s, id);
    AfterPopIs(s, id);
    match o {
      case None =>
        IdlePeer(w, s.sched, peer.(phase := Ended, sent := []));
        PeerStep(w, s, id, peer.(phase := Ended, sent := []));
      case Some(i) =>
        var holding := peer.(phase := Downloading(i, 0, false), sent := []);
        GotStep(w, s, id, sched, i, holding);
        if !HasPiece(peer.bits, i) {
          SkippedStep(w, s, id, sched, i, holding);
        }
    }
  }

  lemma SkippedStep(w: World, s: State, id: nat, sched: Sched, i: nat, holding: Peer)
    requires id in s.peers && Holds(holding, i) && holding.outstanding == []
    requires PopF(s.sched, s.peers[id].bits) == (sched, Some(i)) && !HasPiece(s.peers[id].bits, i)
    requires holding == s.peers[id].(phase := holding.phase, sent := [])
    requires Inv(w, WithPeer(s.(sched := sched), id, holding))
    ensures Inv(w, AfterPop(s, id))
  {
    hide Inv, PopF, HasPiece, AfterPop, PushF;
    AfterPopIs(s, id);
    var idle := holding.(phase := Ready);
    var held := WithPeer(s.(sched := sched), id, holding);
    Release(w, held, id, i, idle);
    assert s.peers[id := holding][id := idle] == s.peers[id := idle];
  }

  lemma FailStep(w: World, s: State, id: nat)
    requires Inv(w, s) && id in s.peers
    ensures Inv(w, AfterFail(s, id))
  {
    hide Inv, PeerInv;
    var peer := s.peers[id];
    if peer.phase.Downloading? {
      Release(w, s, id, peer.phase.piece, peer.(phase := Ended));
    } else {
      IdlePeer(w, s.sched, peer.(phase := Ended));
      PeerStep(w, s, id, peer.(phase := Ended));
    }
  }

  // ---- Progress on the held piece ----

  lemma HeldPiece(w: World, s: State, id: nat)
    requires Inv(w, s) && id in s.peers && s.peers[id].phase.Downloading?
    ensures var i := s.peers[id].phase.piece;
            i in s.sched.pieces && Pipeline(w, i, s.sched.pieces[i], s.peers[id], s.peers[id].phase.backlog)
  {
    hide Accounted, WriteAllF, Pipeline;
    assert PeerInv(w, s.sched, s.peers[id]);
  }

  /** The held piece and its peer change together. */
  lemma ProgressStep(w: World, s: State, id: nat, i: nat, p: Progress, peer: Peer)
    requires Inv(w, s) && id in s.peers && Holds(s.peers[id], i) && Holds(peer, i)
    requires Pipeline(w, i, p, peer, peer.phase.backlog)
    ensures Inv(w, WithPeer(s.(sched := s.sched.(pieces := s.sched.pieces[i := p])), id, peer))
  {
    var sched := s.sched.(pieces := s.sched.pieces[i := p]);
    DownloadingPeer(w, sched, i, peer, peer.phase.backlog);
    hide Inv, PeerInv, Accounted, Issued, Owned, Holds, Pipeline;
    InvParts(w, s);
    PipelineSized(w, i, p, peer, peer.phase.backlog);
    ProgressKeeps(w, s, id, i, p, peer);
    OnlyHolder(s, id, i);
    OneChanged(w, s, id, i, sched, peer);
  }

  lemma PipelineSized(w: World, i: nat, p: Progress, peer: Peer, backlog: int)
    requires Pipeline(w, i, p, peer, backlog)
    ensures Sized(w.plan.g, i, p)
  {
  }

  lemma TotalLengthAppend(requests: seq<Request>, r: Request)
    ensures TotalLength(requests + [r]) == TotalLength(requests) + r.length
  {
    assert (requests + [r])[..|requests|] == requests;
  }

  lemma {:induction false} TotalLengthWithout(requests: seq<Request>, k: nat)
    requires k < |requests|
    ensures TotalLength(requests) == TotalLength(Without(requests, k)) + requests[k].length
    decreases |requests|
  {
    var n := |requests| - 1;
    if k < n {
      TotalLengthWithout(requests[..n], k);
      TotalLengthAppend(Without(requests[..n], k), requests[n]);
      assert Without(requests, k) == Without(requests[..n], k) + [requests[n]];
    } else {
      assert Without(requests, k) == requests[..n];
    }
  }

  lemma SomethingOutstanding(requests: seq<Request>)
    requires requests != [] && forall r | r in requests :: 0 < r.length
    ensures TotalLength(requests) > 0
  {
    assert requests[|requests| - 1] in requests;
  }

  lemma NothingOutstanding(requests: seq<Request>)
    requires TotalLength(requests) == 0 && forall r | r in requests :: 0 < r.length
    ensures requests == []
  {
    hide TotalLength;
    if requests != [] {
      SomethingOutstanding(requests);
    }
  }

  lemma NextBlock(i: nat, size: nat, sent: seq<Request>, end: nat)
    requires BlocksSent(i, size, sent, end) && end < size
    ensures var r := Request(i, end, Min(MAX_BLOCK, size - end));
            0 < r.length <= MAX_BLOCK && BlocksSent(i, size, sent + [r], end + r.length)
  {
    assert end == |sent| * MAX_BLOCK;
  }

  lemma AwaitedAppend(requests: seq<Request>, r: Request, x: nat)
    ensures Awaited(x, requests + [r]) <==> Awaited(x, requests) || InRequest(x, r)
  {
    hide InRequest;
    var all := requests + [r];
    if k :| 0 <= k < |requests| && InRequest(x, requests[k]) {
      assert all[k] == requests[k];
    }
    if InRequest(x, r) {
      assert all[|requests|] == r;
    }
  }

  lemma AwaitedWithout(requests: seq<Request>, k: nat, x: nat)
    requires k < |requests|
    ensures Awaited(x, requests) <==> Awaited(x, Without(requests, k)) || InRequest(x, requests[k])
  {
    hide InRequest;
    var rest := Without(requests, k);
    if j :| 0 <= j < |requests| && InRequest(x, requests[j]) {
      if j < k {
        assert rest[j] == requests[j];
      } else if j > k {
        assert rest[j - 1] == requests[j];
      }
    }
    if j :| 0 <= j < |rest| && InRequest(x, rest[j]) {
      assert rest[j] == requests[if j < k then j else j + 1];
    }
  }

  lemma SentPipeline(w: World, i: nat, p: Progress, peer: Peer, backlog: int, r: Request, peer': Peer)
    requires Pipeline(w, i, p, peer, backlog) && backlog < MAX_BACKLOG
    requires p.requested < PieceSizeOf(w.plan.g, i)
    requires r == Request(i, p.requested, Min(MAX_BLOCK, PieceSizeOf(w.plan.g, i) - p.requested))
    requires peer'.sent == peer.sent + [r] && peer'.outstanding == peer.outstanding + [r]
    ensures Pipeline(w, i, p.(requested := p.requested + r.length), peer', backlog + 1)
  {
    hide Awaited, InRequest;
    var p' := p.(requested := p.requested + r.length);
    NextBlock(i, PieceSizeOf(w.plan.g, i), peer.sent, p.requested);
    TotalLengthAppend(peer.outstanding, r);
    forall x: nat | x < p'.requested && !Awaited(x, peer'.outstanding)
      ensures x < p.requested && !Awaited(x, peer.outstanding)
    {
      AwaitedAppend(peer.outstanding, r, x);
      LastBytesRequested(p.requested, r, x);
    }
    hide BlocksSent, TotalLength, PieceSizeOf, PieceStart;
  }

  lemma LastBytesRequested(requested: nat, r: Request, x: nat)
    requires r.offset == requested && x < requested + r.length
    ensures x < requested || InRequest(x, r)
  {
  }

  lemma SendStep(w: World, s: State, id: nat)
    requires Inv(w, s) && InLoop(s, id, false) && MaySend(s, id)
    ensures Inv(w, AfterSend(s, id))
  {
    HeldPiece(w, s, id);
    SameGeometry(w, s);
    var peer := s.peers[id];
    var i, backlog := peer.phase.piece, peer.phase.backlog;
    var p, size := s.sched.pieces[i], BlockSize(s.sched, i);
    var r := Request(i, p.requested, size);
    var peer' := peer.(phase := Downloading(i, backlog + 1, true), sent := peer.sent + [r],
                       outstanding := peer.outstanding + [r]);
    SendIs(s, id, i, p, r, peer');
    hide *;
    SentPipeline(w, i, p, peer, backlog, r, peer');
    ProgressStep(w, s, id, i, p.(requested := p.requested + r.length), peer');
  }

  lemma SendIs(s: State, id: nat, i: nat, p: Progress, r: Request, peer': Peer)
    requires InLoop(s, id, false) && MaySend(s, id)
    requires i == s.peers[id].phase.piece && p == s.sched.pieces[i]
    requires r == Request(i, p.requested, BlockSize(s.sched, i))
    requires peer' == s.peers[id].(phase := Downloading(i, s.peers[id].phase.backlog + 1, true),
                                   sent := s.peers[id].sent + [r],
                                   outstanding := s.peers[id].outstanding + [r])
    ensures s.peers[id].phase.backlog < MAX_BACKLOG
    ensures p.requested < PieceSizeOf(s.sched.g, i)
    ensures r == Request(i, p.requested, Min(MAX_BLOCK, PieceSizeOf(s.sched.g, i) - p.requested))
    ensures Holds(s.peers[id], i) && Holds(peer', i)
    ensures AfterSend(s, id)
         == WithPeer(s.(sched := s.sched.(pieces := s.sched.pieces[i := p.(requested := p.requested + r.length)])),
                     id, peer')
  {
    hide PieceSizeOf;
  }

  lemma SameGeometry(w: World, s: State)
    requires Inv(w, s)
    ensures s.sched.g == w.plan.g
  {
  }

  /** The answered request, its data, and what the code asserts of them. */
  lemma AnsweredBlock(w: World, i: nat, p: Progress, peer: Peer, backlog: int, k: nat)
    requires ValidWorld(w) && Pipeline(w, i, p, peer, backlog) && k < |peer.outstanding|
    ensures var r := peer.outstanding[k];
            var data, from := BlockData(w, r), PieceStart(w.plan.g, i) + r.offset;
            && r.piece == i
            && |data| == r.length > 0
            && from + r.length <= |w.content| && data == w.content[from..from + r.length]
            && p.downloaded + |data| <= PieceSizeOf(w.plan.g, i)
            && r.offset + |data| <= p.requested
            && backlog >= 1
  {
    var r := peer.outstanding[k];
    assert r in peer.outstanding;
    PieceSizeExact(w.plan.g, i);
    TotalLengthWithout(peer.outstanding, k);
    hide TrueBytes, BlocksSent, TotalLength, PieceSizeOf, PieceStart, PieceEnd, ValidSizes;
  }

  lemma PlacedAt(buffer: seq<byte>, size: nat, begin: nat, data: seq<byte>)
    requires (buffer == [] || |buffer| == size) && begin + |data| <= size
    ensures var b := Placed(buffer, size, begin, data);
            && |b| == size
            && (forall x | 0 <= x < |data| :: b[begin + x] == data[x])
            && (forall x | 0 <= x < |buffer| && !(begin <= x < begin + |data|) :: b[x] == buffer[x])
  {
  }

  lemma ReceivedBytes(w: World, i: nat, p: Progress, peer: Peer, k: nat, data: seq<byte>, b: seq<byte>, x: nat)
    requires TrueBytes(w, i, p, peer.outstanding) && k < |peer.outstanding|
    requires x < p.requested && !Awaited(x, Without(peer.outstanding, k))
    requires var r := peer.outstanding[k];
             var from := PieceStart(w.plan.g, i) + r.offset;
             && from + r.length <= |w.content| && data == w.content[from..from + r.length]
             && p.requested <= |b|
             && (forall y | 0 <= y < |data| :: r.offset + y < |b| && b[r.offset + y] == data[y])
             && (forall y | 0 <= y < |p.data| && !(r.offset <= y < r.offset + |data|) :: y < |b| && b[y] == p.data[y])
    ensures x < |b| && PieceStart(w.plan.g, i) + x < |w.content| && b[x] == w.content[PieceStart(w.plan.g, i) + x]
  {
    hide PieceStart;
    var r := peer.outstanding[k];
    AwaitedWithout(peer.outstanding, k, x);
    if InRequest(x, r) {
      assert b[r.offset + (x - r.offset)] == data[x - r.offset];
    } else {
      assert !Awaited(x, peer.outstanding);
    }
  }

  lemma ReceivedPipeline(w: World, i: nat, p: Progress, peer: Peer, backlog: int, k: nat, peer': Peer)
    requires ValidWorld(w) && Pipeline(w, i, p, peer, backlog) && k < |peer.outstanding|
    requires peer'.sent == peer.sent && peer'.outstanding == Answered(peer.outstanding, k)
    ensures var r := peer.outstanding[k];
            var data, size := BlockData(w, r), PieceSizeOf(w.plan.g, i);
            && r.offset + |data| <= size
            && Pipeline(w, i, Progress(p.downloaded + |data|, p.requested, Placed(p.data, size, r.offset, data)),
                        peer', backlog - 1)
  {
    var r := peer.outstanding[k];
    var data, size := BlockData(w, r), PieceSizeOf(w.plan.g, i);
    AnsweredBlock(w, i, p, peer, backlog, k);
    TotalLengthWithout(peer.outstanding, k);
    PlacedAt(p.data, size, r.offset, data);
    hide Placed, BlockData, BlocksSent, TotalLength, PieceSizeOf, PieceStart, ValidWorld, TrueBytes;
    RemainingRequests(peer.outstanding, k);
    ReceivedTrue(w, i, p, peer, k, data, Placed(p.data, size, r.offset, data));
  }

  lemma ReceivedTrue(w: World, i: nat, p: Progress, peer: Peer, k: nat, data: seq<byte>, b: seq<byte>)
    requires TrueBytes(w, i, p, peer.outstanding) && k < |peer.outstanding|
    requires var r := peer.outstanding[k];
             var from := PieceStart(w.plan.g, i) + r.offset;
             && from + r.length <= |w.content| && data == w.content[from..from + r.length]
             && p.requested <= |b| && r.offset + |data| <= |b| && |p.data| <= |b|
             && (forall y | 0 <= y < |data| :: b[r.offset + y] == data[y])
             && (forall y | 0 <= y < |p.data| && !(r.offset <= y < r.offset + |data|) :: b[y] == p.data[y])
    ensures TrueBytes(w, i, Progress(p.downloaded + |data|, p.requested, b), Without(peer.outstanding, k))
  {
    hide PieceStart, Awaited, Without;
    var rest := Without(peer.outstanding, k);
    forall x: nat | x < p.requested && !Awaited(x, rest)
      ensures x < |b| && PieceStart(w.plan.g, i) + x < |w.content| && b[x] == w.content[PieceStart(w.plan.g, i) + x]
    {
      ReceivedBytes(w, i, p, peer, k, data, b, x);
    }
  }

  lemma RemainingRequests(requests: seq<Request>, k: nat)
    requires k < |requests|
    ensures |Without(requests, k)| == |requests| - 1
    ensures forall r | r in Without(requests, k) :: r in requests
  {
  }

  /** What the answer does to the held piece, and the code's assertions on it. */
  lemma AnswerFits(w: World, sched: Sched, i: nat, p: Progress, peer: Peer, backlog: int, msg: Message, k: nat,
                   peer': Peer)
    requires ValidWorld(w) && Pipeline(w, i, p, peer, backlog)
    requires msg.Block? && Answers(w, peer, msg, k)
    requires sched.g == w.plan.g && i in sched.pieces && sched.pieces[i] == p
    requires peer'.sent == peer.sent && peer'.outstanding == Answered(peer.outstanding, k)
    ensures msg.piece == i && BlockFits(sched, i, msg.begin, msg.data)
    ensures Pipeline(w, i, ReceiveF(sched, i, msg.begin, msg.data).pieces[i], peer', backlog - 1)
  {
    AnsweredBlock(w, i, p, peer, backlog, k);
    ReceivedPipeline(w, i, p, peer, backlog, k, peer');
    SmallSize(w, i);
    hide Pipeline, Placed, PieceSizeOf, BlockData, Without, ValidWorld, PieceStart;
  }

  lemma SmallSize(w: World, i: nat)
    requires ValidWorld(w)
    ensures i < w.plan.g.count ==> PieceSizeOf(w.plan.g, i) < TWO_32
    ensures forall n: nat | n < TWO_32 :: U32(n) == n
  {
    if i < w.plan.g.count {
      PieceSizeExact(w.plan.g, i);
    }
  }

  lemma BlockStep(w: World, s: State, id: nat, msg: Message, k: nat)
    requires ValidWorld(w) && Inv(w, s) && InLoop(s, id, true) && msg.Block? && Answers(w, s.peers[id], msg, k)
    requires !s.aborted
    ensures !AfterReceive(s, id, msg, k).aborted
    ensures Inv(w, AfterReceive(s, id, msg, k))
  {
    hide Inv, ValidWorld, Pipeline, Answers, BlockFits, Answered, Placed, PieceSizeOf, AfterReceive, WithPeer, Holds;
    HeldPiece(w, s, id);
    SameGeometry(w, s);
    var peer := s.peers[id];
    var i, backlog := peer.phase.piece, peer.phase.backlog;
    var peer' := peer.(phase := Downloading(i, backlog - 1, false), outstanding := Answered(peer.outstanding, k));
    AnswerFits(w, s.sched, i, s.sched.pieces[i], peer, backlog, msg, k, peer');
    BlockMessage(s, id, msg, k);
    var p := ReceiveF(s.sched, i, msg.begin, msg.data).pieces[i];
    ProgressStep(w, s, id, i, p, peer');
    SameAborted(s, s.sched.(pieces := s.sched.pieces[i := p]), id, peer');
  }

  lemma SameAborted(s: State, sched: Sched, id: nat, peer: Peer)
    ensures WithPeer(s.(sched := sched), id, peer).aborted == s.aborted
  {
  }

  /** Any message, when blocks are answers: no assertion fails. */
  lemma ReceiveStep(w: World, s: State, id: nat, msg: Message, k: nat)
    requires ValidWorld(w) && Inv(w, s) && InLoop(s, id, true) && Answers(w, s.peers[id], msg, k)
    requires !s.aborted
    ensures !AfterReceive(s, id, msg, k).aborted
    ensures Inv(w, AfterReceive(s, id, msg, k))
  {
    if msg.Block? {
      hide Inv, Answers, ValidWorld;
      BlockStep(w, s, id, msg, k);
    } else {
      QuietMessage(s, id, msg, k);
      HeldPiece(w, s, id);
      var peer, peer' := s.peers[id], AfterReceive(s, id, msg, k).peers[id];
      var i := peer.phase.piece;
      QuietPipeline(s, id, msg, k);
      SamePipeline(w, i, s.sched.pieces[i], peer, peer', peer.phase.backlog);
      DownloadingPeer(w, s.sched, i, peer', peer.phase.backlog);
      hide *;
      PeerStep(w, s, id, peer');
    }
  }

  lemma QuietPipeline(s: State, id: nat, msg: Message, k: nat)
    requires InLoop(s, id, true) && !msg.Block? && !msg.Other?
    ensures var peer, peer' := s.peers[id], AfterReceive(s, id, msg, k).peers[id];
            && peer'.phase == peer.phase.(reading := false)
            && peer'.sent == peer.sent && peer'.outstanding == peer.outstanding
    ensures AfterReceive(s, id, msg, k).aborted == s.aborted
  {
    hide SetPiece;
  }

  lemma SamePipeline(w: World, i: nat, p: Progress, peer: Peer, peer': Peer, backlog: int)
    requires Pipeline(w, i, p, peer, backlog) && peer'.sent == peer.sent && peer'.outstanding == peer.outstanding
    ensures Pipeline(w, i, p, peer', backlog)
  {
  }

  // ---- Completing a piece ----

  /** When the request loop ends, everything has been answered and the buffer is the true piece. */
  lemma CompletePiece(w: World, i: nat, p: Progress, peer: Peer, backlog: int)
    requires ValidWorld(w) && Pipeline(w, i, p, peer, backlog)
    requires p.downloaded >= PieceSizeOf(w.plan.g, i)
    ensures p.downloaded == p.requested == PieceSizeOf(w.plan.g, i)
    ensures peer.outstanding == [] && backlog == 0
    ensures p.data == PieceData(w.plan.g, w.content, i)
  {
    NothingOutstanding(peer.outstanding);
    WholePiece(w, i, p);
    hide BlocksSent, TotalLength, PieceSizeOf, TrueBytes, PieceData, ValidWorld;
  }

  lemma WholePiece(w: World, i: nat, p: Progress)
    requires ValidWorld(w) && i < w.plan.g.count
    requires p.requested == PieceSizeOf(w.plan.g, i) && (p.data == [] || |p.data| == p.requested)
    requires TrueBytes(w, i, p, [])
    ensures p.data == PieceData(w.plan.g, w.content, i)
  {
    PieceSizeExact(w.plan.g, i);
    hide PieceSizeOf, PieceStart, PieceEnd, ValidSizes;
    var from := PieceStart(w.plan.g, i);
    forall x: nat | x < p.requested
      ensures x < |p.data| && from + x < |w.content| && p.data[x] == w.content[from + x]
    {
      assert !Awaited(x, []);
    }
    assert !Awaited(0, []);
  }

  /** A completed piece is the true one; the only assertion that can fail is the disk's. */
  lemma CompleteStep(w: World, s: State, id: nat)
    requires ValidWorld(w) && Inv(w, s) && !s.aborted && InLoop(s, id, false) && !Wants(s, id)
    ensures var s' := AfterComplete(w, s, id);
            var i := s.peers[id].phase.piece;
            && PiecesOf(w.plan.g, s.log + [i])
            && WriteAllF(w.plan, w.content, w.fs, s.log + [i])
               == WritePieceF(w.plan, s.disk, i, PieceData(w.plan.g, w.content, i))
            && (s'.aborted <==> WriteAllF(w.plan, w.content, w.fs, s.log + [i]).None?)
            && (!s'.aborted ==> Inv(w, s'))
  {
    hide Inv, Accounted, Issued, Owned, WriteAllF, WritePieceF, PeerInv, PieceSizeOf, PieceData, Pipeline, Holds, NoDup;
    var peer := s.peers[id];
    var i, backlog := peer.phase.piece, peer.phase.backlog;
    var p := s.sched.pieces[i];
    InvParts(w, s);
    HeldPiece(w, s, id);
    CompletePiece(w, i, p, peer, backlog);
    IssuedPiece(s, i);
    WriteAllAppend(w, w.content, s.log, i);
    CompleteKeeps(w, s, id);
    var s' := AfterComplete(w, s, id);
    if !s'.aborted {
      CompletedInv(w, s, id);
    }
  }

  lemma CompletedInv(w: World, s: State, id: nat)
    requires Inv(w, s) && InLoop(s, id, false) && !s.aborted && !AfterComplete(w, s, id).aborted
    requires s.peers[id].outstanding == []
    requires var s', i := AfterComplete(w, s, id), s.peers[id].phase.piece;
             && Accounted(w, s')
             && WriteAllF(w.plan, w.content, w.fs, s.log + [i])
                == WritePieceF(w.plan, s.disk, i, s.sched.pieces[i].data)
    ensures Inv(w, AfterComplete(w, s, id))
  {
    hide AfterComplete, Accounted, Issued, Owned, WriteAllF, WritePieceF, PeerInv, Holds;
    InvParts(w, s);
    CompletionIs(w, s, id);
    var s', i := AfterComplete(w, s, id), s.peers[id].phase.piece;
    OnlyHolder(s, id, i);
    OthersKept(w, s, s'.sched, i, id);
    CompletedPeer(w, s, id);
    IdlePeer(w, s'.sched, s'.peers[id]);
  }

  lemma CompletedPeer(w: World, s: State, id: nat)
    requires Inv(w, s) && InLoop(s, id, false) && !AfterComplete(w, s, id).aborted
    ensures AfterComplete(w, s, id).peers[id].phase.Announcing?
    ensures AfterComplete(w, s, id).peers[id].outstanding == s.peers[id].outstanding
  {
    hide Accounted, WritePieceF, WriteAllF, PeerInv;
  }
}
