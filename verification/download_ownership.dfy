/**
 Who owns a piece: what every step keeps with any peers, whatever they send. An issued piece is
 downloaded, or waits in the retry queue, or is held by one peer.
 */
module DownloadOwnership {
  import opened Machine
  import opened Client
  import opened Bitfield
  import opened Disk
  import opened DiskContent
  import opened Pieces
  import opened Download

  ghost predicate Holds(peer: Peer, i: nat) {
    peer.phase.Downloading? && peer.phase.piece == i
  }

  /** Issued pieces are either unfinished or in the log, never both. */
  ghost predicate Issued(s: State) {
    && s.sched.next <= s.sched.g.count
    && s.sched.done == |s.log|
    && NoDup(s.log)
    && (forall i | i in s.sched.pieces :: i < s.sched.next && i !in s.log)
    && (forall i | i in s.log :: i < s.sched.next)
    && (forall i: nat | i < s.sched.next :: i in s.sched.pieces || i in s.log)
  }

  /** An unfinished piece waits once in the retry queue or is held by one peer, never both. */
  ghost predicate Owned(s: State) {
    && NoDup(s.sched.retry)
    && (forall i | i in s.sched.retry :: i in s.sched.pieces && s.sched.pieces[i] == NOTHING)
    && (forall id, i | id in s.peers && Holds(s.peers[id], i) :: i in s.sched.pieces && i !in s.sched.retry)
    && (forall id, id', i |
          id in s.peers && id' in s.peers && Holds(s.peers[id], i) && Holds(s.peers[id'], i) :: id == id')
    && (forall i | i in s.sched.pieces && i !in s.sched.retry :: exists id :: id in s.peers && Holds(s.peers[id], i))
  }

  // ---- Steps that do not touch the scheduler ----

  lemma IssuedDependsOnSched(s: State, s': State)
    requires Issued(s) && s'.sched == s.sched && s'.log == s.log
    ensures Issued(s')
  {
  }

  /** Ownership depends only on who holds what and on the queue. */
  lemma SameHolders(s: State, s': State)
    requires Owned(s)
    requires s'.sched.retry == s.sched.retry && s'.sched.pieces.Keys == s.sched.pieces.Keys
    requires forall i | i in s.sched.retry && i in s.sched.pieces :: s'.sched.pieces[i] == s.sched.pieces[i]
    requires s'.peers.Keys == s.peers.Keys
    requires forall q, i | q in s.peers :: Holds(s'.peers[q], i) <==> Holds(s.peers[q], i)
    ensures Owned(s')
  {
    hide Holds, NoDup;
    forall j | j in s'.sched.pieces && j !in s'.sched.retry
      ensures exists q :: q in s'.peers && Holds(s'.peers[q], j)
    {
      var q :| q in s.peers && Holds(s.peers[q], j);
      assert q in s'.peers && Holds(s'.peers[q], j);
    }
  }

  lemma NothingHeld(s: State)
    requires Owned(s) && AllEnded(s)
    ensures forall i | i in s.sched.pieces :: i in s.sched.retry
  {
  }

  lemma OnlyHolder(s: State, id: nat, i: nat)
    requires Owned(s) && id in s.peers && Holds(s.peers[id], i)
    ensures i in s.sched.pieces && i !in s.sched.retry
    ensures forall q | q in s.peers && q != id :: !Holds(s.peers[q], i)
  {
    hide NoDup, Holds;
  }

  lemma HoldsNothing(peer: Peer)
    requires !peer.phase.Downloading?
    ensures forall j :: !Holds(peer, j)
  {
  }

  // ---- Taking and returning a piece ----

  lemma NothingPopped(s: Sched, bits: seq<bv8>)
    requires PopF(s, bits).1.None?
    ensures PopF(s, bits).0 == s
  {
    hide HasPiece;
  }

  lemma SchedKeepsGeometry(s: Sched, bits: seq<bv8>)
    ensures PopF(s, bits).0.g == s.g
  {
    hide HasPiece;
  }

  lemma AfterPopIs(s: State, id: nat)
    requires id in s.peers
    ensures var peer := s.peers[id];
            var (sched, o) := PopF(s.sched, peer.bits);
            match o
            case None => AfterPop(s, id) == WithPeer(s, id, peer.(phase := Ended, sent := []))
            case Some(i) =>
              if HasPiece(peer.bits, i) then
                AfterPop(s, id)
                == WithPeer(s.(sched := sched), id, peer.(phase := Downloading(i, 0, false), sent := []))
              else
                AfterPop(s, id)
                == WithPeer(s.(sched := PushF(sched, i)), id, peer.(phase := Ready, sent := []))
  {
    if PopF(s.sched, s.peers[id].bits).1.None? {
      NothingPopped(s.sched, s.peers[id].bits);
    }
    hide PopF, HasPiece;
  }

  lemma WithoutFacts<T>(s: seq<T>, k: nat)
    requires NoDup(s) && k < |s|
    ensures NoDup(Without(s, k)) && s[k] !in Without(s, k)
    ensures forall x | x != s[k] :: x in Without(s, k) <==> x in s
  {
    assert s == s[..k] + [s[k]] + s[k + 1..];
  }

  /** The popped piece: new, or taken out of the retry queue. */
  lemma PoppedPiece(s: State, bits: seq<bv8>)
    requires Issued(s) && Owned(s)
    requires PopF(s.sched, bits).1.Some?
    ensures var (sched, o) := PopF(s.sched, bits);
            var i := o.value;
            && i in sched.pieces && sched.pieces[i] == NOTHING
            && i < s.sched.g.count
            && i !in sched.retry
            && (forall id | id in s.peers :: !Holds(s.peers[id], i))
            && (forall j | j in s.sched.pieces && j != i :: j in sched.pieces && sched.pieces[j] == s.sched.pieces[j])
            && (forall j | j in sched.pieces && j != i :: j in s.sched.pieces)
            && (forall j | j != i :: j in sched.retry <==> j in s.sched.retry)
            && NoDup(sched.retry)
            && Issued(s.(sched := sched))
  {
    hide HasPiece;
    var (sched, o) := PopF(s.sched, bits);
    if s.sched.next >= s.sched.g.count {
      var k := FirstHad(s.sched.retry, bits, 0);
      WithoutFacts(s.sched.retry, k);
      assert s.sched.retry[k] in s.sched.retry;
      assert sched.pieces == s.sched.pieces;
    }
  }

  lemma OwnedAfterPop(s: State, id: nat, i: nat, s': State, peer: Peer)
    requires Owned(s) && id in s.peers && !s.peers[id].phase.Downloading? && Holds(peer, i)
    requires s'.peers == s.peers[id := peer]
    requires NoDup(s'.sched.retry)
    requires i in s'.sched.pieces && i !in s'.sched.retry
    requires forall q | q in s.peers :: !Holds(s.peers[q], i)
    requires forall j | j in s.sched.pieces && j != i :: j in s'.sched.pieces && s'.sched.pieces[j] == s.sched.pieces[j]
    requires forall j | j in s'.sched.pieces && j != i :: j in s.sched.pieces
    requires forall j | j != i :: j in s'.sched.retry <==> j in s.sched.retry
    ensures Owned(s')
  {
    forall q, j | q in s'.peers && Holds(s'.peers[q], j)
      ensures if q == id then j == i else q in s.peers && Holds(s.peers[q], j) && j != i
    {
    }
    forall j | j in s'.sched.pieces && j !in s'.sched.retry
      ensures exists q :: q in s'.peers && Holds(s'.peers[q], j)
    {
      if j == i {
        assert Holds(s'.peers[id], i);
      } else {
        var q :| q in s.peers && Holds(s.peers[q], j);
        assert q in s'.peers && Holds(s'.peers[q], j);
      }
    }
    hide Holds, NoDup;
  }

  lemma IssuedAfterPush(s: State, i: nat, s': State)
    requires Issued(s) && i in s.sched.pieces
    requires s'.sched == PushF(s.sched, i) && s'.log == s.log
    ensures Issued(s')
  {
  }

  lemma OwnedAfterPush(s: State, id: nat, i: nat, s': State, peer: Peer)
    requires Owned(s) && id in s.peers && Holds(s.peers[id], i) && !peer.phase.Downloading?
    requires s'.sched == PushF(s.sched, i) && s'.peers == s.peers[id := peer]
    ensures Owned(s')
    ensures forall q | q in s.peers && q != id :: !Holds(s.peers[q], i)
  {
    var retry := s'.sched.retry;
    assert i in retry && forall x | x in retry :: x == i || x in s.sched.retry;
    assert forall x | x in s.sched.retry :: x in retry;
    forall q, j | q in s'.peers && Holds(s'.peers[q], j)
      ensures q in s.peers && Holds(s.peers[q], j) && j != i
    {
    }
    forall j | j in s'.sched.pieces && j !in retry
      ensures exists q :: q in s'.peers && Holds(s'.peers[q], j)
    {
      var q :| q in s.peers && Holds(s.peers[q], j);
      assert q in s'.peers && Holds(s'.peers[q], j);
    }
    NoDupAppend(s.sched.retry, i);
    hide Holds, NoDup;
  }

  // ---- Progress on the held piece, and its completion ----

  lemma IssuedAfterProgress(s: State, i: nat, s': State)
    requires Issued(s) && i in s.sched.pieces
    requires s'.sched.pieces.Keys == s.sched.pieces.Keys && s'.log == s.log
    requires s'.sched.next == s.sched.next && s'.sched.g == s.sched.g && s'.sched.done == s.sched.done
    ensures Issued(s')
  {
  }

  lemma OwnedAfterProgress(s: State, id: nat, i: nat, p: Progress, peer: Peer)
    requires Owned(s) && id in s.peers && Holds(s.peers[id], i) && Holds(peer, i)
    ensures Owned(WithPeer(s.(sched := s.sched.(pieces := s.sched.pieces[i := p])), id, peer))
    ensures forall q | q in s.peers && q != id :: !Holds(s.peers[q], i)
  {
    var s' := WithPeer(s.(sched := s.sched.(pieces := s.sched.pieces[i := p])), id, peer);
    SamePieceHeld(peer, s.peers[id], i);
    OnlyHolder(s, id, i);
    hide Holds, Owned;
    SameHolders(s, s');
  }

  lemma SamePieceHeld(peer: Peer, peer': Peer, i: nat)
    requires Holds(peer, i) && Holds(peer', i)
    ensures forall j :: Holds(peer, j) <==> Holds(peer', j)
  {
  }

  lemma IssuedAfterDownload(s: State, i: nat, s': State)
    requires Issued(s) && i in s.sched.pieces
    requires s'.sched == DownloadedF(s.sched, i) && s'.log == s.log + [i]
    ensures Issued(s')
  {
  }

  lemma OwnedAfterDownload(s: State, id: nat, i: nat, s': State, peer: Peer)
    requires Owned(s) && id in s.peers && Holds(s.peers[id], i) && !peer.phase.Downloading?
    requires s'.sched == DownloadedF(s.sched, i) && s'.peers == s.peers[id := peer]
    ensures Owned(s')
  {
    OnlyHolder(s, id, i);
    HoldsNothing(peer);
    hide Holds, NoDup;
    forall q, j | q in s'.peers && Holds(s'.peers[q], j)
      ensures q in s.peers && Holds(s.peers[q], j) && j != i
    {
    }
    forall j | j in s'.sched.pieces && j !in s'.sched.retry
      ensures exists q :: q in s'.peers && Holds(s'.peers[q], j)
    {
      var q :| q in s.peers && Holds(s.peers[q], j);
      SameWhileHolding(s.peers[id], i, j);
      assert q in s'.peers && Holds(s'.peers[q], j);
    }
  }

  lemma SameWhileHolding(peer: Peer, i: nat, j: nat)
    requires Holds(peer, i) && i != j
    ensures !Holds(peer, j)
  {
  }

  // ---- What every step keeps, with any peers ----

  /** The buffer of a piece has the size of the piece, or is unallocated and nothing has been received; and the
      counters stay within the piece. */
  ghost predicate Sized(g: Geometry, i: nat, p: Progress) {
    var size := PieceSizeOf(g, i);
    && p.requested <= size && p.downloaded <= size
    && (if p.data == [] then p.downloaded == 0 else |p.data| == size)
  }

  ghost predicate SizedPieces(s: State) {
    forall i | i in s.sched.pieces :: Sized(s.sched.g, i, s.sched.pieces[i])
  }

  /** The disk is what writing the pieces of content in the order of the log leaves. */
  ghost predicate Assembled(w: World, content: seq<byte>, s: State) {
    && w.plan.lengths != []
    && |content| == w.plan.g.total
    && WriteAllF(w.plan, content, w.fs, s.log) == Some(s.disk)
  }

  /** Every piece has one owner, and some content of the right size has been written so far: the true one
      if the peers are truthful. */
  ghost predicate Accounted(w: World, s: State) {
    && s.sched.g == w.plan.g
    && Issued(s)
    && Owned(s)
    && SizedPieces(s)
    && exists content :: Assembled(w, content, s)
  }

  lemma AccountedAtStart(w: World)
    requires ValidWorld(w)
    ensures Accounted(w, Init(w))
  {
    hide NewDisk;
    assert Assembled(w, w.content, Init(w));
  }

  lemma SameLog(w: World, s: State, s': State)
    requires Accounted(w, s) && s'.sched.g == s.sched.g && s'.log == s.log && s'.disk == s.disk
    requires Issued(s') && Owned(s') && SizedPieces(s')
    ensures Accounted(w, s')
  {
    hide Issued, Owned, SizedPieces, WriteAllF;
    var content :| Assembled(w, content, s);
    assert Assembled(w, content, s');
  }

  /** The peer changes, but not the piece it holds. */
  lemma QuietKeeps(w: World, s: State, id: nat, peer: Peer)
    requires Accounted(w, s) && id in s.peers
    requires forall i :: Holds(peer, i) <==> Holds(s.peers[id], i)
    ensures Accounted(w, WithPeer(s, id, peer))
  {
    var s' := WithPeer(s, id, peer);
    hide Issued, Owned, Holds, Assembled, Sized;
    IssuedDependsOnSched(s, s');
    SameHolders(s, s');
    SameLog(w, s, s');
  }

  lemma NewRoundKeeps(w: World, s: State, ids: set<nat>)
    requires Accounted(w, s) && AllEnded(s)
    ensures Accounted(w, s.(peers := map id | id in ids :: NEW_PEER))
  {
    var s' := s.(peers := map id | id in ids :: NEW_PEER);
    IssuedDependsOnSched(s, s');
    OwnedByNobody(s, s');
    hide Issued, Owned, Assembled, Sized;
    SameLog(w, s, s');
  }

  lemma OwnedByNobody(s: State, s': State)
    requires Owned(s) && AllEnded(s) && s'.sched == s.sched
    requires forall id | id in s'.peers :: s'.peers[id] == NEW_PEER
    ensures Owned(s')
  {
    NothingHeld(s);
    hide NoDup;
  }

  lemma TakeKeeps(w: World, s: State, id: nat, sched: Sched, i: nat, peer: Peer)
    requires Accounted(w, s) && id in s.peers && !s.peers[id].phase.Downloading? && Holds(peer, i)
    requires PopF(s.sched, s.peers[id].bits) == (sched, Some(i))
    ensures Accounted(w, WithPeer(s.(sched := sched), id, peer))
  {
    hide PopF, Issued, Owned, Holds, Assembled, NoDup;
    var s' := WithPeer(s.(sched := sched), id, peer);
    SchedKeepsGeometry(s.sched, s.peers[id].bits);
    PoppedPiece(s, s.peers[id].bits);
    IssuedDependsOnSched(s.(sched := sched), s');
    OwnedAfterPop(s, id, i, s', peer);
    SameLog(w, s, s');
  }

  /** The peer that holds a piece gives it back. */
  lemma ReleaseKeeps(w: World, s: State, id: nat, i: nat, peer: Peer)
    requires Accounted(w, s) && id in s.peers && Holds(s.peers[id], i) && !peer.phase.Downloading?
    ensures Accounted(w, WithPeer(s.(sched := PushF(s.sched, i)), id, peer))
  {
    hide Issued, Owned, Holds, Assembled;
    var s' := WithPeer(s.(sched := PushF(s.sched, i)), id, peer);
    OnlyHolder(s, id, i);
    IssuedAfterPush(s, i, s');
    OwnedAfterPush(s, id, i, s', peer);
    SameLog(w, s, s');
  }

  lemma PopKeeps(w: World, s: State, id: nat)
    requires Accounted(w, s) && id in s.peers && s.peers[id].phase.Ready?
    ensures Accounted(w, AfterPop(s, id))
  {
    hide Accounted, PopF, HasPiece, AfterPop, PushF;
    var peer := s.peers[id];
    var (sched, o) := PopF(s.sched, peer.bits);
    AfterPopIs(s, id);
    match o {
      case None => QuietKeeps(w, s, id, peer.(phase := Ended, sent := []));
      case Some(i) =>
        var holding := peer.(phase := Downloading(i, 0, false), sent := []);
        TakeKeeps(w, s, id, sched, i, holding);
        if !HasPiece(peer.bits, i) {
          var idle := peer.(phase := Ready, sent := []);
          ReleaseKeeps(w, WithPeer(s.(sched := sched), id, holding), id, i, idle);
          assert s.peers[id := holding][id := idle] == s.peers[id := idle];
        }
    }
  }

  lemma FailKeeps(w: World, s: State, id: nat)
    requires Accounted(w, s) && id in s.peers
    ensures Accounted(w, AfterFail(s, id))
  {
    hide Accounted, PushF;
    var peer := s.peers[id];
    if peer.phase.Downloading? {
      ReleaseKeeps(w, s, id, peer.phase.piece, peer.(phase := Ended));
    } else {
      QuietKeeps(w, s, id, peer.(phase := Ended));
    }
  }

  /** The held piece and its peer change together. */
  lemma ProgressKeeps(w: World, s: State, id: nat, i: nat, p: Progress, peer: Peer)
    requires Accounted(w, s) && id in s.peers && Holds(s.peers[id], i) && Holds(peer, i)
    requires Sized(s.sched.g, i, p)
    ensures Accounted(w, WithPeer(s.(sched := s.sched.(pieces := s.sched.pieces[i := p])), id, peer))
  {
    hide Issued, Owned, Holds, Assembled, Sized;
    var s' := WithPeer(s.(sched := s.sched.(pieces := s.sched.pieces[i := p])), id, peer);
    OnlyHolder(s, id, i);
    IssuedAfterProgress(s, i, s');
    OwnedAfterProgress(s, id, i, p, peer);
    SameLog(w, s, s');
  }

  lemma SendKeeps(w: World, s: State, id: nat)
    requires Accounted(w, s) && InLoop(s, id, false) && MaySend(s, id)
    ensures Accounted(w, AfterSend(s, id))
  {
    var i := s.peers[id].phase.piece;
    var p := RequestedF(s.sched, i).pieces[i];
    assert Sized(s.sched.g, i, s.sched.pieces[i]);
    hide Accounted, PieceSizeOf;
    ProgressKeeps(w, s, id, i, p, AfterSend(s, id).peers[id]);
  }

  lemma PlacedSize(g: Geometry, i: nat, p: Progress, begin: nat, data: seq<byte>)
    requires Sized(g, i, p) && begin + |data| <= PieceSizeOf(g, i)
    ensures |Placed(p.data, PieceSizeOf(g, i), begin, data)| == PieceSizeOf(g, i)
  {
    hide PieceSizeOf;
  }

  lemma BlockSized(s: Sched, i: nat, begin: nat, data: seq<byte>)
    requires i in s.pieces && Sized(s.g, i, s.pieces[i]) && BlockFits(s, i, begin, data)
    ensures Sized(s.g, i, ReceiveF(s, i, begin, data).pieces[i])
  {
    PlacedSize(s.g, i, s.pieces[i], begin, data);
    hide PieceSizeOf, Placed, U32;
  }

  lemma PieceSized(w: World, s: State, i: nat)
    requires Accounted(w, s) && i in s.sched.pieces
    ensures Sized(s.sched.g, i, s.sched.pieces[i])
  {
    hide Issued, Owned, Assembled, Sized;
  }

  /** A message other than a block changes the peer only. */
  lemma QuietMessage(s: State, id: nat, msg: Message, k: nat)
    requires InLoop(s, id, true) && !msg.Block? && !msg.Other?
    ensures var s' := AfterReceive(s, id, msg, k);
            && id in s'.peers && s' == WithPeer(s, id, s'.peers[id])
            && forall i :: Holds(s'.peers[id], i) <==> Holds(s.peers[id], i)
  {
    hide SetPiece;
  }

  /** A block that fits changes the held piece and the peer; any other ends the program. */
  lemma BlockMessage(s: State, id: nat, msg: Message, k: nat)
    requires InLoop(s, id, true) && msg.Block?
    ensures var s', i := AfterReceive(s, id, msg, k), s.peers[id].phase.piece;
            if msg.piece == i && BlockFits(s.sched, i, msg.begin, msg.data) then
              && id in s'.peers && Holds(s.peers[id], i) && Holds(s'.peers[id], i)
              && s' == WithPeer(s.(sched := s.sched.(pieces :=
                                  s.sched.pieces[i := ReceiveF(s.sched, i, msg.begin, msg.data).pieces[i]])),
                                id, s'.peers[id])
              && s'.peers[id] == s.peers[id].(phase := Downloading(i, s.peers[id].phase.backlog - 1, false),
                                              outstanding := Answered(s.peers[id].outstanding, k))
            else s' == s.(aborted := true)
  {
    hide BlockFits, Placed, PieceSizeOf, Answered;
  }

  lemma ReceiveKeeps(w: World, s: State, id: nat, msg: Message, k: nat)
    requires Accounted(w, s) && InLoop(s, id, true)
    ensures Accounted(w, AfterReceive(s, id, msg, k))
  {
    hide Accounted, AfterReceive, BlockFits, Placed, PieceSizeOf, WithPeer, Holds, Sized;
    if msg.Other? {
      OtherMessage(s, id, k);
      AbortKeeps(w, s);
    } else if !msg.Block? {
      QuietMessage(s, id, msg, k);
      QuietKeeps(w, s, id, AfterReceive(s, id, msg, k).peers[id]);
    } else {
      BlockMessage(s, id, msg, k);
      var i := s.peers[id].phase.piece;
      if msg.piece == i && BlockFits(s.sched, i, msg.begin, msg.data) {
        PieceSized(w, s, i);
        BlockSized(s.sched, i, msg.begin, msg.data);
        ProgressKeeps(w, s, id, i, ReceiveF(s.sched, i, msg.begin, msg.data).pieces[i],
                      AfterReceive(s, id, msg, k).peers[id]);
      } else {
        AbortKeeps(w, s);
      }
    }
  }

  lemma OtherMessage(s: State, id: nat, k: nat)
    requires InLoop(s, id, true)
    ensures AfterReceive(s, id, Other, k) == s.(aborted := true)
  {
  }

  lemma AbortKeeps(w: World, s: State)
    requires Accounted(w, s)
    ensures Accounted(w, s.(aborted := true))
  {
    var s' := s.(aborted := true);
    IssuedDependsOnSched(s, s');
    hide Issued, Holds, Assembled, Sized;
    SameHolders(s, s');
    SameLog(w, s, s');
  }

  // ---- The content that has been written ----

  lemma WriteAllAppend(w: World, content: seq<byte>, log: seq<nat>, i: nat)
    requires w.plan.lengths != [] && |content| == w.plan.g.total
    requires WriteAllF(w.plan, content, w.fs, log).Some?
    ensures WriteAllF(w.plan, content, w.fs, log + [i])
            == WritePieceF(w.plan, WriteAllF(w.plan, content, w.fs, log).value, i, PieceData(w.plan.g, content, i))
  {
    hide WritePieceF, PieceData;
    assert (log + [i])[..|log|] == log;
  }

  lemma {:induction false} WriteAllSame(w: World, a: seq<byte>, b: seq<byte>, log: seq<nat>)
    requires w.plan.lengths != [] && |a| == |b| == w.plan.g.total
    requires forall i | i in log :: PieceData(w.plan.g, a, i) == PieceData(w.plan.g, b, i)
    ensures WriteAllF(w.plan, a, w.fs, log) == WriteAllF(w.plan, b, w.fs, log)
    decreases |log|
  {
    hide WritePieceF, PieceData, NewDisk;
    if log != [] {
      var n := |log| - 1;
      assert forall i | i in log[..n] :: i in log;
      WriteAllSame(w, a, b, log[..n]);
      assert log[n] in log;
    }
  }

  /** The content with piece i replaced. */
  function Patched(g: Geometry, content: seq<byte>, i: nat, data: seq<byte>): seq<byte>
    requires PieceStart(g, i) <= PieceEnd(g, i) <= |content|
  {
    content[..PieceStart(g, i)] + data + content[PieceEnd(g, i)..]
  }

  lemma PatchedPieces(g: Geometry, content: seq<byte>, i: nat, data: seq<byte>)
    requires ValidSizes(g) && |content| == g.total && i < g.count && |data| == PieceSizeOf(g, i)
    ensures PieceStart(g, i) <= PieceEnd(g, i) <= |content| && |Patched(g, content, i, data)| == |content|
    ensures PieceData(g, Patched(g, content, i, data), i) == data
    ensures forall j: nat | j < g.count && j != i ::
              PieceData(g, Patched(g, content, i, data), j) == PieceData(g, content, j)
  {
    PieceSizeExact(g, i);
    PieceDataIs(g, content, i);
    var patched := Patched(g, content, i, data);
    hide PieceSizeOf, PieceStart, PieceEnd, ValidSizes;
    PieceDataIs(g, patched, i);
    assert PieceData(g, patched, i) == data;
    forall j: nat | j < g.count && j != i
      ensures PieceData(g, patched, j) == PieceData(g, content, j)
    {
      PiecesApart(g, i, j);
      PieceDataIs(g, content, j);
      PieceDataIs(g, patched, j);
      hide Patched;
      PatchedElsewhere(g, content, i, data, PieceStart(g, j), PieceEnd(g, j));
    }
  }

  lemma PatchedElsewhere(g: Geometry, content: seq<byte>, i: nat, data: seq<byte>, lo: nat, hi: nat)
    requires PieceStart(g, i) <= PieceEnd(g, i) <= |content| && |data| == PieceEnd(g, i) - PieceStart(g, i)
    requires lo <= hi <= |content| && (hi <= PieceStart(g, i) || PieceEnd(g, i) <= lo)
    ensures |Patched(g, content, i, data)| == |content|
    ensures Patched(g, content, i, data)[lo..hi] == content[lo..hi]
  {
    hide PieceStart, PieceEnd;
  }

  lemma PiecesApart(g: Geometry, i: nat, j: nat)
    requires ValidSizes(g) && i < g.count && j < g.count && i != j
    ensures PieceEnd(g, i) <= PieceStart(g, j) || PieceEnd(g, j) <= PieceStart(g, i)
  {
    if i < j {
      MulMonotone(i + 1, j, g.pieceSize);
    } else {
      MulMonotone(j + 1, i, g.pieceSize);
    }
    hide ValidSizes;
  }

  lemma WrittenSize(w: World, d: Disk, g: Geometry, i: nat, p: Progress)
    requires w.plan.lengths != [] && WritePieceF(w.plan, d, i, p.data).Some? && Sized(g, i, p)
    ensures |p.data| == PieceSizeOf(g, i)
  {
    hide WriteSegmentsF, PieceSizeOf;
  }

  /** What has been written, and the piece with it, is the writing of one content. */
  lemma WithPiece(w: World, s: State, i: nat, p: Progress) returns (patched: seq<byte>)
    requires ValidWorld(w) && s.sched.g == w.plan.g && i < w.plan.g.count && |p.data| == PieceSizeOf(w.plan.g, i)
    requires NoDup(s.log + [i]) && (forall j | j in s.log :: j < w.plan.g.count)
    requires exists content :: Assembled(w, content, s)
    ensures w.plan.lengths != [] && |patched| == w.plan.g.total
    ensures WriteAllF(w.plan, patched, w.fs, s.log + [i]) == WritePieceF(w.plan, s.disk, i, p.data)
  {
    PlanFacts(w.plan);
    hide ValidPlan, WritePieceF, PieceSizeOf, PieceData, WriteAllF, Patched, ValidSizes;
    var content :| Assembled(w, content, s);
    PatchedPieces(w.plan.g, content, i, p.data);
    patched := Patched(w.plan.g, content, i, p.data);
    NotAgain(s.log, i);
    WriteAllSame(w, content, patched, s.log);
    WriteAllAppend(w, patched, s.log, i);
  }

  /** A completed piece becomes part of the content. */
  lemma ContentGrows(w: World, s: State, s': State, i: nat, p: Progress)
    requires ValidWorld(w) && s.sched.g == w.plan.g && i < w.plan.g.count && Sized(w.plan.g, i, p)
    requires NoDup(s.log + [i]) && (forall j | j in s.log :: j < w.plan.g.count)
    requires exists content :: Assembled(w, content, s)
    requires s'.log == s.log + [i] && WritePieceF(w.plan, s.disk, i, p.data) == Some(s'.disk)
    ensures exists content :: Assembled(w, content, s')
  {
    PlanFacts(w.plan);
    WrittenSize(w, s.disk, w.plan.g, i, p);
    hide ValidPlan, WritePieceF, PieceSizeOf, WriteAllF;
    var patched := WithPiece(w, s, i, p);
    assert Assembled(w, patched, s');
  }

  lemma NotAgain(log: seq<nat>, i: nat)
    requires NoDup(log + [i])
    ensures i !in log
  {
    forall k | 0 <= k < |log|
      ensures log[k] != i
    {
      assert (log + [i])[k] == log[k] && (log + [i])[|log|] == i;
    }
  }

  /** Completion either ends the program or hands the piece to the disk. */
  lemma CompletionIs(w: World, s: State, id: nat)
    requires InLoop(s, id, false) && w.plan.lengths != []
    ensures var s', i := AfterComplete(w, s, id), s.peers[id].phase.piece;
            s' == s.(aborted := true)
            || (&& id in s'.peers && !s'.peers[id].phase.Downloading? && Holds(s.peers[id], i)
                && s'.sched == DownloadedF(s.sched, i) && s'.log == s.log + [i]
                && s'.peers == s.peers[id := s'.peers[id]]
                && WritePieceF(w.plan, s.disk, i, s.sched.pieces[i].data) == Some(s'.disk))
  {
    hide WritePieceF, PieceSizeOf;
  }

  lemma IssuedPiece(s: State, i: nat)
    requires Issued(s) && i in s.sched.pieces
    ensures i < s.sched.g.count && NoDup(s.log + [i]) && forall j | j in s.log :: j < s.sched.g.count
  {
    NoDupAppend(s.log, i);
    hide NoDup;
  }

  lemma SizedAfterDownload(s: State, i: nat, s': State)
    requires SizedPieces(s) && s'.sched == DownloadedF(s.sched, i)
    ensures SizedPieces(s')
  {
    hide Sized;
  }

  lemma CompleteKeeps(w: World, s: State, id: nat)
    requires ValidWorld(w) && Accounted(w, s) && InLoop(s, id, false)
    ensures w.plan.lengths != [] && Accounted(w, AfterComplete(w, s, id))
  {
    hide AfterComplete, Issued, Owned, ValidPlan, Assembled, WritePieceF, Sized, SizedPieces, NoDup, Holds;
    PlanFacts(w.plan);
    CompletionIs(w, s, id);
    var s', i := AfterComplete(w, s, id), s.peers[id].phase.piece;
    if s' == s.(aborted := true) {
      AbortKeeps(w, s);
    } else {
      PieceSized(w, s, i);
      IssuedPiece(s, i);
      IssuedAfterDownload(s, i, s');
      OwnedAfterDownload(s, id, i, s', s'.peers[id]);
      SizedAfterDownload(s, i, s');
      ContentGrows(w, s, s', i, s.sched.pieces[i]);
    }
  }

  /** When the files are writable, a piece that ends the request loop is written, whoever sent it. */
  lemma CompletionSucceeds(w: World, s: State, id: nat)
    requires ValidWorld(w) && Writable(w.plan, w.fs) && Accounted(w, s) && !s.aborted
    requires InLoop(s, id, false) && !Wants(s, id)
    ensures w.plan.lengths != [] && !AfterComplete(w, s, id).aborted
  {
    PlanFacts(w.plan);
    var i := s.peers[id].phase.piece;
    PieceSized(w, s, i);
    IssuedPiece(s, i);
    WholeBuffer(w.plan.g, i, s.sched.pieces[i]);
    hide ValidPlan, Writable, Issued, Owned, SizedPieces, Assembled, WritePieceF, WriteAllF, PieceSizeOf, NoDup, Sized;
    var patched := WithPiece(w, s, i, s.sched.pieces[i]);
    LogGrows(s, i);
    AllInPlaceIfWritable(w.plan, w.fs);
    AllWritten(w.plan, patched, w.fs, s.log + [i]);
    hide InPlace, Misplaced, DiskInv, NamesUsable;
  }

  lemma WholeBuffer(g: Geometry, i: nat, p: Progress)
    requires ValidSizes(g) && i < g.count && Sized(g, i, p) && p.downloaded >= PieceSizeOf(g, i)
    ensures p.downloaded == PieceSizeOf(g, i) == |p.data|
  {
    PieceSizeExact(g, i);
    hide PieceSizeOf, PieceStart, PieceEnd, ValidSizes;
  }

  lemma LogGrows(s: State, i: nat)
    requires NoDup(s.log + [i]) && i < s.sched.g.count && forall j | j in s.log :: j < s.sched.g.count
    ensures PiecesOf(s.sched.g, s.log + [i])
  {
    hide NoDup;
  }

  lemma AllInPlaceIfWritable(p: Plan, fs: map<string, seq<byte>>)
    requires ValidPlan(p) && |p.names| == |p.lengths| && Writable(p, fs)
    ensures NamesUsable(p, fs) && forall i: nat | i < p.g.count :: InPlace(p, i)
  {
    AllInPlace(p);
    hide InPlace, Misplaced, NamesUsable;
  }

  /** Every step keeps all this, whatever the peers send, even the last step before the program ends. */
  lemma StepKeeps(w: World, s: State, step: Step)
    requires ValidWorld(w) && Accounted(w, s) && Possible(s, step)
    ensures w.plan.lengths != [] && Accounted(w, After(w, s, step))
  {
    PlanFacts(w.plan);
    hide Accounted, ValidWorld, Wants, MaySend, PopStepF, PushF, RequestedF, AfterPop, AfterSend, AfterReceive,
         AfterComplete, AfterFail, InLoop;
    match step {
      case NewRound(ids) => NewRoundKeeps(w, s, ids);
      case Connect(id, bits) => QuietStepKeeps(w, s, step);
      case Pop(id) => PopKeeps(w, s, id);
      case SendRequest(id) => SendKeeps(w, s, id);
      case SkipSend(id) => QuietStepKeeps(w, s, step);
      case Receive(id, msg, k) => ReceiveKeeps(w, s, id, msg, k);
      case Complete(id) => CompleteKeeps(w, s, id);
      case Announced(id) => QuietStepKeeps(w, s, step);
      case Fail(id) => FailKeeps(w, s, id);
    }
  }

  lemma QuietStepKeeps(w: World, s: State, step: Step)
    requires w.plan.lengths != [] && Accounted(w, s) && Possible(s, step)
    requires step.Connect? || step.SkipSend? || step.Announced?
    ensures Accounted(w, After(w, s, step))
  {
    hide Accounted, Wants, MaySend;
    QuietKeeps(w, s, step.id, After(w, s, step).peers[step.id]);
  }

  // ---- Counting ----

  lemma {:induction false} ElemsSize<T>(s: seq<T>)
    requires NoDup(s)
    ensures |Elems(s)| == |s|
  {
    if s != [] {
      var n := |s| - 1;
      ElemsSize(s[..n]);
      assert Elems(s) == Elems(s[..n]) + {s[n]} by {
        assert s == s[..n] + [s[n]];
      }
      assert s[n] !in s[..n];
    }
  }

  /** The peers that hold a piece, with the piece. */
  ghost function Held(s: State): map<nat, nat> {
    map id | id in s.peers && s.peers[id].phase.Downloading? :: s.peers[id].phase.piece
  }

  lemma {:induction false} InjectiveSize(m: map<nat, nat>)
    requires forall a, b | a in m && b in m && m[a] == m[b] :: a == b
    ensures |m.Values| == |m|
    decreases |m|
  {
    if m != map[] {
      var a :| a in m;
      var rest := m - {a};
      InjectiveSize(rest);
      forall v | v in m.Values
        ensures v in rest.Values + {m[a]}
      {
        var b :| b in m && m[b] == v;
        assert b != a ==> b in rest && rest[b] == v;
      }
      assert m.Values == rest.Values + {m[a]};
    } else {
      assert m.Values == {};
    }
  }

  lemma IssuedCount(s: State)
    requires Issued(s)
    ensures s.sched.next == s.sched.done + |s.sched.pieces|
  {
    ElemsSize(s.log);
    IntervalSize(0, s.sched.next);
    var pieces := s.sched.pieces.Keys;
    assert Interval(0, s.sched.next) == Elems(s.log) + pieces by {
      forall i: nat
        ensures i in Interval(0, s.sched.next) <==> i in Elems(s.log) + pieces
      {
        assert AtLeast(i, 0);
      }
    }
    assert Elems(s.log) !! pieces;
    assert |pieces| == |s.sched.pieces|;
  }

  lemma HeldPieces(s: State)
    requires Owned(s)
    ensures Held(s).Values == s.sched.pieces.Keys - Elems(s.sched.retry)
    ensures forall a, b | a in Held(s) && b in Held(s) && Held(s)[a] == Held(s)[b] :: a == b
  {
    hide NoDup;
    var held := Held(s);
    forall id | id in held
      ensures Holds(s.peers[id], held[id])
    {
    }
    forall i | i in s.sched.pieces && i !in s.sched.retry
      ensures i in held.Values
    {
      var id :| id in s.peers && Holds(s.peers[id], i);
      assert held[id] == i;
    }
    hide Holds;
  }

  lemma OwnedCount(s: State)
    requires Owned(s)
    ensures |s.sched.pieces| == |Held(s)| + |s.sched.retry|
  {
    HeldPieces(s);
    InjectiveSize(Held(s));
    ElemsSize(s.sched.retry);
    RetryIsUnfinished(s);
    hide *;
    var pieces, retry := s.sched.pieces.Keys, Elems(s.sched.retry);
    assert |pieces - retry| == |pieces| - |retry|;
  }

  lemma RetryIsUnfinished(s: State)
    requires Owned(s)
    ensures Elems(s.sched.retry) <= s.sched.pieces.Keys
  {
    hide NoDup, Holds;
  }

  lemma LogIsComplete(s: State)
    requires Issued(s) && Owned(s) && AllEnded(s) && s.sched.done >= s.sched.g.count
    ensures s.sched.next == s.sched.g.count == s.sched.done
    ensures CompleteLog(s.sched.g, s.log) && s.sched.pieces == map[] && s.sched.retry == []
  {
    IssuedCount(s);
    OwnedCount(s);
    assert |s.sched.pieces| == 0;
    hide NoDup, Holds;
  }
}
