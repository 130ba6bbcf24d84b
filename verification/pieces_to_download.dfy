/**
 The scheduler and the work of one peer between two waits, as objects changed in place. The
 contracts say that the objects go through the states of Pieces.
 */
module PiecesToDownload {
  import opened Machine
  import opened Client
  import opened Bitfield
  import opened Disk
  import opened DiskFiles
  import opened Pieces
  import Download

  class PieceState {
    const index: nat
    var downloaded: nat
    var requested: nat
    var data: seq<byte>

    constructor (index: nat)
      ensures this.index == index && Progress() == NOTHING
    {
      this.index := index;
      downloaded, requested, data := 0, 0, [];
    }

    function Progress(): Progress
      reads this
    {
      Pieces.Progress(downloaded, requested, data)
    }

    /** Copies a block into the buffer. */
    method Store(begin: nat, block: seq<byte>)
      requires begin + |block| <= |data|
      modifies this
      ensures data == old(data)[..begin] + block + old(data)[begin + |block|..]
      ensures downloaded == U32(old(downloaded) + |block|) && requested == old(requested)
    {
      data := data[..begin] + block + data[begin + |block|..];
      downloaded := U32(downloaded + |block|);
    }
  }

  /** What becomes of a message: handled, a failed assertion, or a write outside the piece's buffer. */
  datatype Outcome = Handled | Rejected | OutOfBuffer

  ghost function BlockOutcome(s: Sched, i: nat, begin: nat, data: seq<byte>): Outcome
    requires i in s.pieces
  {
    if !BlockAsserted(s, i, begin, data) then Rejected
    else if !BlockFits(s, i, begin, data) then OutOfBuffer
    else Handled
  }

  /** The outcome in plain numbers: the sums of the assertions are taken modulo 2^32, and a block that they let
      pass lies outside the buffer exactly when the sum for its end has wrapped. */
  lemma BlockOutcomeMeans(s: Sched, i: nat, begin: nat, data: seq<byte>)
    requires i in s.pieces && FieldsFit(begin, data) && PieceSizeOf(s.g, i) < 0x1_0000_0000
    ensures var size, received, end := PieceSizeOf(s.g, i), s.pieces[i].downloaded + |data|, begin + |data|;
            var fits := end <= size || 0x1_0000_0000 <= end <= 0x1_0000_0000 + size;
            BlockOutcome(s, i, begin, data)
            == if received % 0x1_0000_0000 > size || !fits then Rejected
               else if end > size then OutOfBuffer
               else Handled
  {
    hide PieceSizeOf;
    Wraps(begin + |data|);
  }

  lemma Wraps(x: nat)
    requires x < 2 * 0x1_0000_0000
    ensures U32(x) == if x < 0x1_0000_0000 then x else x - 0x1_0000_0000
  {
  }

  lemma PlacedInBuffer(buffer: seq<byte>, size: nat, begin: nat, data: seq<byte>)
    requires buffer == [] || |buffer| == size
    ensures var b := if buffer == [] then seq(size, _ => 0) else buffer;
            begin + |data| <= size ==> Placed(buffer, size, begin, data) == b[..begin] + data + b[begin + |data|..]
  {
  }

  /** Every buffer is unallocated or has the size of its piece. */
  ghost predicate AllSized(g: Geometry, pieces: seq<PieceState>)
    reads pieces
  {
    forall p | p in pieces :: p.data == [] || |p.data| == PieceSizeOf(g, p.index)
  }

  /** s without its first x. */
  function Erased<T(==)>(s: seq<T>, x: T): seq<T> {
    if s == [] then [] else if s[0] == x then s[1..] else [s[0]] + Erased(s[1..], x)
  }

  lemma {:induction false} ErasedMembers<T>(s: seq<T>, x: T)
    requires NoDup(s)
    ensures NoDup(Erased(s, x))
    ensures forall y :: y in Erased(s, x) <==> y in s && y != x
  {
    if s != [] {
      assert s == [s[0]] + s[1..];
      ErasedMembers(s[1..], x);
      assert s[0] !in s[1..];
    }
  }

  function Indices(queue: seq<PieceState>): seq<nat> {
    seq(|queue|, k requires 0 <= k < |queue| => queue[k].index)
  }

  lemma {:induction false} ErasedSized(g: Geometry, pieces: seq<PieceState>, piece: PieceState)
    requires AllSized(g, pieces)
    ensures AllSized(g, Erased(pieces, piece))
    decreases |pieces|
  {
    hide PieceSizeOf;
    if pieces != [] {
      assert pieces[0] in pieces;
      assert forall p | p in pieces[1..] :: p in pieces;
      ErasedSized(g, pieces[1..], piece);
    }
  }

  class Scheduler {
    const g: Geometry
    var pieces: seq<PieceState>
    var toRetry: seq<PieceState>
    var nextPieceIndex: nat
    var downloadedPiecesCount: nat

    /** The pieces by index. */
    ghost var at: map<nat, PieceState>

    ghost predicate Valid()
      reads this, pieces
    {
      && NoDup(pieces)
      && AllSized(g, pieces)
      && (forall i | i in at :: i < nextPieceIndex <= g.count && at[i].index == i && at[i] in pieces)
      && (forall p | p in pieces :: p.index in at && at[p.index] == p)
      && (forall p | p in toRetry :: p in pieces)
    }

    ghost function Model(): Sched
      reads this, pieces
      requires Valid()
    {
      hide NoDup;
      Sched(g, nextPieceIndex, map i | i in at :: at[i].Progress(), Indices(toRetry), downloadedPiecesCount)
    }

    constructor (g: Geometry)
      ensures Valid() && Model() == Sched(g, 0, map[], [], 0)
      ensures pieces == []
    {
      this.g := g;
      pieces, toRetry, nextPieceIndex, downloadedPiecesCount := [], [], 0, 0;
      at := map[];
    }

    method GetPieceSize(index: nat) returns (size: nat)
      requires ValidSizes(g) && index < g.count
      ensures size == PieceSizeOf(g, index) == PieceEnd(g, index) - PieceStart(g, index)
    {
      PieceSizeExact(g, index);
      if index < U32(g.count - 1) {
        return g.pieceSize;
      }
      size := U32(g.pieceSize * U32(g.count - 1));
      assert g.total > size;
      size := U32(U64(g.total - size));
    }

    /** A new piece while there is one, without asking whether the peer has it. */
    method PopPieceToDownload(have: MessageBitfield) returns (piece: PieceState?)
      requires Valid()
      modifies this
      ensures Valid() && Model() == PopF(old(Model()), have.data[..]).0
      ensures match PopF(old(Model()), have.data[..]).1
              case None => piece == null
              case Some(i) => piece != null && piece in pieces && piece.index == i
      ensures forall p | p in pieces :: p in old(pieces) || fresh(p)
    {
      hide HasPiece, NoDup;
      if nextPieceIndex < g.count {
        var added := new PieceState(nextPieceIndex);
        NoDupAppend(pieces, added);
        pieces := pieces + [added];
        at := at[nextPieceIndex := added];
        nextPieceIndex := nextPieceIndex + 1;
        return added;
      }
      piece := PopRetryPiece(have);
    }

    /** The first queued piece that the peer has. */
    method PopRetryPiece(have: MessageBitfield) returns (piece: PieceState?)
      requires Valid() && nextPieceIndex >= g.count
      modifies this`toRetry
      ensures Valid() && Model() == PopF(old(Model()), have.data[..]).0
      ensures match PopF(old(Model()), have.data[..]).1
              case None => piece == null
              case Some(i) => piece != null && piece in pieces && piece.index == i
    {
      hide HasPiece, NoDup, AllSized;
      ghost var retry := Model().retry;
      for k := 0 to |toRetry|
        invariant toRetry == old(toRetry) && Valid() && Model() == old(Model())
        invariant FirstHad(retry, have.data[..], 0) == FirstHad(retry, have.data[..], k)
      {
        var has := have.HasPieceAt(toRetry[k].index);
        if has {
          piece := toRetry[k];
          toRetry := Without(toRetry, k);
          assert Indices(toRetry) == Without(retry, k);
          return;
        }
      }
      return null;
    }

    method PushPieceToRetry(piece: PieceState)
      requires Valid() && piece in pieces
      modifies this, piece
      ensures Valid() && pieces == old(pieces) && Model() == PushF(old(Model()), piece.index)
    {
      piece.downloaded, piece.requested, piece.data := 0, 0, [];
      toRetry := toRetry + [piece];
      hide NoDup;
      assert Indices(toRetry) == Indices(old(toRetry)) + [piece.index];
      assert Model().pieces == old(Model()).pieces[piece.index := NOTHING];
    }

    /** A block of the piece: accepted, refused by an assertion, or accepted and written past the buffer. */
    method OnPiecePartReceive(piece: PieceState, begin: nat, data: seq<byte>) returns (outcome: Outcome)
      requires Valid() && piece in pieces && ValidSizes(g) && FieldsFit(begin, data)
      modifies piece
      ensures Valid()
      ensures outcome == BlockOutcome(old(Model()), piece.index, begin, data)
      ensures outcome.Handled? ==> Model() == ReceiveF(old(Model()), piece.index, begin, data)
    {
      hide NoDup, PieceSizeOf, Placed, U32;
      var size := GetPieceSize(piece.index);
      PlacedInBuffer(piece.data, size, begin, data);
      assert Model().pieces[piece.index] == piece.Progress();
      assert BlockOutcome(Model(), piece.index, begin, data)
          == if |data| == 0 || U32(piece.downloaded + |data|) > size || U32(begin + |data|) > size then Rejected
             else if begin + |data| > size then OutOfBuffer else Handled;
      hide BlockOutcome, BlockAsserted, BlockFits;
      if piece.data == [] {
        piece.data := seq(size, _ => 0);
      }
      if |data| == 0 || U32(piece.downloaded + |data|) > size || U32(begin + |data|) > size {
        return Rejected;
      }
      if begin + |data| > size {
        return OutOfBuffer;
      }
      piece.Store(begin, data);
      assert piece.Progress() == ReceiveF(old(Model()), piece.index, begin, data).pieces[piece.index];
      hide Placed, U32;
      assert Valid();
      hide AllSized;
      assert Model().pieces == ReceiveF(old(Model()), piece.index, begin, data).pieces;
      return Handled;
    }

    /** The finished piece goes to the files. */
    method OnPieceDownloaded(piece: PieceState, disk: FilesOnDisk) returns (ending: Ending)
      requires Valid() && piece in pieces && piece !in toRetry && disk.Valid()
      modifies this, disk.fs, disk.files
      ensures ending == PieceEnding(disk.plan, old(disk.Snapshot()), piece.index, old(piece.data))
      ensures ending.Stored? ==>
                && WritePieceF(disk.plan, old(disk.Snapshot()), piece.index, old(piece.data)) == Some(disk.Snapshot())
                && Valid() && Model() == DownloadedF(old(Model()), piece.index)
    {
      hide WritePieceF, PieceEnding, NoDup, PieceSizeOf, FilesOnDisk.Snapshot, FilesOnDisk.Valid, Erased;
      downloadedPiecesCount := downloadedPiecesCount + 1;
      assert Valid() && Model() == old(Model()).(done := downloadedPiecesCount);
      ending := disk.WritePiece(piece.index, piece.data);
      assert Valid();
      assert Model() == old(Model()).(done := downloadedPiecesCount);
      hide AllSized;
      if ending.Stored? {
        Erase(piece);
      }
    }

    /** The piece is taken out of the list. */
    method Erase(piece: PieceState)
      requires Valid() && piece in pieces && piece !in toRetry
      modifies this`pieces, this`at
      ensures Valid() && Model() == old(Model()).(pieces := old(Model()).pieces - {piece.index})
      ensures pieces == Erased(old(pieces), piece)
    {
      hide NoDup, PieceSizeOf;
      ErasedMembers(pieces, piece);
      ErasedSized(g, pieces, piece);
      pieces := Erased(pieces, piece);
      at := at - {piece.index};
      assert Model().pieces == old(Model()).pieces - {piece.index};
    }
  }

  // ---- The coroutine of one peer, from one wait to the next ----

  class TorrentPeer {
    var bitfield: MessageBitfield
    var unchoked: bool

    constructor (bitfield: MessageBitfield)
      ensures this.bitfield == bitfield && !unchoked
    {
      this.bitfield := bitfield;
      unchoked := false;
    }
  }

  function Left(g: Geometry, next: nat): nat {
    if next < g.count then g.count - next else 0
  }

  /** Pops until the peer has the piece, giving back those it lacks; at most one pop for each piece not
      yet issued, and one more. */
  method NextPiece(peer: TorrentPeer, scheduler: Scheduler) returns (piece: PieceState?, pops: nat)
    requires scheduler.Valid()
    modifies scheduler, scheduler.pieces
    ensures scheduler.Valid()
    ensures scheduler.Model() == PopSkipF(old(scheduler.Model()), peer.bitfield.data[..]).0
    ensures match PopSkipF(old(scheduler.Model()), peer.bitfield.data[..]).1
            case Got(i) => piece != null && piece in scheduler.pieces && piece.index == i
            case _ => piece == null
    ensures pops <= Left(scheduler.g, old(scheduler.nextPieceIndex)) + 1
  {
    hide HasPiece, PopF, PushF, NoDup;
    ghost var bits := peer.bitfield.data[..];
    ghost var end := PopSkipF(scheduler.Model(), bits);
    pops := 0;
    while true
      invariant scheduler.Valid() && peer.bitfield.data[..] == bits
      invariant forall p | p in scheduler.pieces :: p in old(scheduler.pieces) || fresh(p)
      invariant PopSkipF(scheduler.Model(), bits) == end
      invariant pops + Left(scheduler.g, scheduler.nextPieceIndex) <= Left(scheduler.g, old(scheduler.nextPieceIndex))
      decreases Left(scheduler.g, scheduler.nextPieceIndex)
    {
      SkipsAreNew(scheduler.Model(), bits);
      piece := scheduler.PopPieceToDownload(peer.bitfield);
      pops := pops + 1;
      if piece == null {
        return;
      }
      var has := peer.bitfield.HasPieceAt(piece.index);
      if has {
        return;
      }
      scheduler.PushPieceToRetry(piece);
    }
  }

  /** The request sent before the next message is read, if any. */
  method NextRequest(peer: TorrentPeer, scheduler: Scheduler, piece: PieceState, backlog: int)
    returns (request: Option<Download.Request>, backlog': int)
    requires scheduler.Valid() && piece in scheduler.pieces && ValidSizes(scheduler.g)
    requires piece.requested <= PieceSizeOf(scheduler.g, piece.index)
    modifies piece
    ensures scheduler.Valid()
    ensures var s, i := old(scheduler.Model()), piece.index;
            if CanSend(s, i, peer.unchoked, backlog) then
              && request == Some(Download.Request(i, old(piece.requested), BlockSize(s, i)))
              && scheduler.Model() == RequestedF(s, i) && backlog' == backlog + 1
            else request == None && scheduler.Model() == s && backlog' == backlog
    ensures request.Some? <==>
              peer.unchoked && backlog < 5 && old(piece.requested) < PieceSizeOf(scheduler.g, piece.index)
    ensures request.Some? ==>
              && request.value.length == Min(16384, PieceSizeOf(scheduler.g, piece.index) - old(piece.requested))
              && piece.requested == old(piece.requested) + request.value.length
  {
    hide NoDup, PieceSizeOf;
    var size := scheduler.GetPieceSize(piece.index);
    request, backlog' := None, backlog;
    if peer.unchoked {
      if backlog < MAX_BACKLOG && piece.requested < size {
        var needed := size - piece.requested;
        var blockSize := Min(MAX_BLOCK, needed);
        request := Some(Download.Request(piece.index, piece.requested, blockSize));
        backlog' := backlog + 1;
        piece.requested := piece.requested + blockSize;
        assert scheduler.Model().pieces == RequestedF(old(scheduler.Model()), piece.index).pieces;
      }
    }
  }

  /** A message from the peer. */
  method OnMessage(peer: TorrentPeer, scheduler: Scheduler, piece: PieceState, msg: Download.Message, backlog: int)
    returns (outcome: Outcome, backlog': int)
    requires scheduler.Valid() && piece in scheduler.pieces && ValidSizes(scheduler.g)
    requires msg.Block? ==> FieldsFit(msg.begin, msg.data)
    requires peer.bitfield.data.Length > 0
    modifies peer, peer.bitfield.data, piece
    ensures peer.bitfield == old(peer.bitfield) && scheduler.Valid()
    ensures peer.unchoked == (if msg.Choke? then false else if msg.Unchoke? then true else old(peer.unchoked))
    ensures peer.bitfield.data[..]
         == if msg.Have? then SetPiece(old(peer.bitfield.data[..]), msg.index) else old(peer.bitfield.data[..])
    ensures outcome == MessageOutcome(old(scheduler.Model()), piece.index, msg)
    ensures backlog' == if msg.Block? then backlog - 1 else backlog
    ensures outcome.Handled? ==>
              scheduler.Model() == if msg.Block? then ReceiveF(old(scheduler.Model()), piece.index, msg.begin, msg.data)
                                   else old(scheduler.Model())
  {
    hide NoDup, PieceSizeOf, ReceiveF, SetPiece, InRange, BlockAsserted, BlockFits;
    outcome, backlog' := Handled, backlog;
    match msg
    case KeepAlive =>
    case Choke => peer.unchoked := false;
    case Unchoke => peer.unchoked := true;
    case Have(index) => var _ := peer.bitfield.SetPieceAt(index);
    case Block(i, begin, data) =>
      backlog' := backlog - 1;
      if i != piece.index {
        return Rejected, backlog';
      }
      outcome := scheduler.OnPiecePartReceive(piece, begin, data);
    case Other => outcome := Rejected;
  }

  /** Blocks of another piece, and messages that are not handled, fail an assertion. */
  ghost function MessageOutcome(s: Sched, i: nat, msg: Download.Message): Outcome
    requires i in s.pieces
  {
    match msg
    case Block(piece, begin, data) => if piece == i then BlockOutcome(s, i, begin, data) else Rejected
    case Other => Rejected
    case _ => Handled
  }
}
