/** The download can always be finished, whatever has happened so far, when the files can be written. */
module DownloadProgress {
  import opened Machine
  import opened Client
  import opened Bitfield
  import opened Disk
  import opened DiskContent
  import opened Pieces
  import opened Download
  import opened DownloadOwnership
  import opened DownloadSafety
  import opened DownloadRuns

  ghost predicate Path(w: World, s: State, steps: seq<Step>, t: State)
    requires w.plan.lengths != []
    decreases |steps|
  {
    if steps == [] then s == t
    else Enabled(w, s, steps[0]) && Path(w, After(w, s, steps[0]), steps[1..], t)
  }

  ghost predicate Leads(w: World, s: State, t: State)
    requires w.plan.lengths != []
  {
    exists steps :: Path(w, s, steps, t)
  }

  lemma {:induction false} PathAppend(w: World, s: State, steps: seq<Step>, t: State, more: seq<Step>, u: State)
    requires w.plan.lengths != [] && Path(w, s, steps, t) && Path(w, t, more, u)
    ensures Path(w, s, steps + more, u)
    decreases |steps|
  {
    hide Possible, After, Answers;
    if steps == [] {
      assert steps + more == more;
    } else {
      PathAppend(w, After(w, s, steps[0]), steps[1..], t, more, u);
      assert (steps + more)[1..] == steps[1..] + more;
    }
  }

  lemma LeadsOn(w: World, s: State, t: State, u: State)
    requires w.plan.lengths != [] && Leads(w, s, t) && Leads(w, t, u)
    ensures Leads(w, s, u)
  {
    hide Path;
    var steps :| Path(w, s, steps, t);
    var more :| Path(w, t, more, u);
    PathAppend(w, s, steps, t, more, u);
  }

  lemma LeadsToItself(w: World, s: State)
    requires w.plan.lengths != []
    ensures Leads(w, s, s)
  {
    assert Path(w, s, [], s);
  }

  lemma OneStepLeads(w: World, s: State, step: Step)
    requires w.plan.lengths != [] && Enabled(w, s, step)
    ensures Leads(w, s, After(w, s, step))
  {
    hide Possible, After, Answers;
    assert [step][1..] == [];
    assert Path(w, s, [step], After(w, s, step));
  }

  lemma {:induction false} ReachableOnPath(w: World, s: State, steps: seq<Step>, t: State)
    requires w.plan.lengths != [] && Reachable(w, s) && Path(w, s, steps, t)
    ensures Reachable(w, t)
    decreases |steps|
  {
    if steps != [] {
      ReachableStep(w, s, steps[0]);
      ReachableOnPath(w, After(w, s, steps[0]), steps[1..], t);
    }
    hide *;
  }

  lemma ReachableStep(w: World, s: State, step: Step)
    requires w.plan.lengths != [] && Reachable(w, s) && Enabled(w, s, step)
    ensures Reachable(w, After(w, s, step))
  {
    hide Enabled, Possible, After;
    var states, steps :| Run(w, states, steps) && Truthful(w, states, steps) && states[|steps|] == s;
    EnabledIsPossible(w, s, step);
    var states', steps' := states + [After(w, s, step)], steps + [step];
    forall n | 0 <= n < |steps'|
      ensures Possible(states'[n], steps'[n]) && Enabled(w, states'[n], steps'[n])
      ensures states'[n + 1] == After(w, states'[n], steps'[n])
    {
      if n < |steps| {
        assert states'[n] == states[n] && steps'[n] == steps[n] && states'[n + 1] == states[n + 1];
        assert Enabled(w, states[n], steps[n]);
      }
    }
    assert Run(w, states', steps') && Truthful(w, states', steps');
  }

  lemma EnabledIsPossible(w: World, s: State, step: Step)
    requires Enabled(w, s, step)
    ensures Possible(s, step)
  {
  }

  // ---- States from which the run can go on ----

  ghost predicate Usable(w: World) {
    ValidWorld(w) && Writable(w.plan, w.fs)
  }

  /** Not aborted, whoever the peers were; and reachable with truthful peers unless the files are writable. */
  ghost predicate Calm(w: World, s: State) {
    !s.aborted && Accounted(w, s) && w.plan.lengths != [] && (Usable(w) || Reachable(w, s))
  }

  /** The peers so far were truthful. */
  ghost predicate Sound(w: World, s: State) {
    Calm(w, s) && Inv(w, s)
  }

  /** The files are writable, or at least no run fails an assertion. */
  ghost predicate Setup(w: World) {
    && ValidWorld(w) && w.plan.lengths != []
    && (Usable(w) || forall s | Reachable(w, s) :: !s.aborted)
  }

  /** Only a completion, or a message, can end the program. */
  lemma StepGoes(w: World, s: State, step: Step)
    requires w.plan.lengths != [] && Possible(s, step) && !step.Complete? && !step.Receive?
    ensures !After(w, s, step).aborted
  {
    hide PieceSizeOf, PopStepF, Wants, MaySend, RequestedF;
  }

  lemma CompletionGoes(w: World, s: State, step: Step)
    requires Usable(w) && Accounted(w, s) && Possible(s, step) && step.Complete?
    ensures w.plan.lengths != [] && !After(w, s, step).aborted
  {
    PlanFacts(w.plan);
    hide Accounted, Writable, ValidPlan, AfterComplete, Wants;
    CompletionSucceeds(w, s, step.id);
  }

  lemma StillReachable(w: World, s: State, step: Step)
    requires w.plan.lengths != [] && (Usable(w) || Reachable(w, s)) && Enabled(w, s, step)
    ensures Usable(w) || Reachable(w, After(w, s, step))
  {
    hide Usable, Reachable, Enabled, Possible, After;
    if Reachable(w, s) {
      ReachableStep(w, s, step);
    }
  }

  /** A step that receives nothing, whatever was received before. */
  lemma Go(w: World, s: State, step: Step) returns (t: State)
    requires Setup(w) && Calm(w, s) && Enabled(w, s, step) && !step.Receive?
    ensures w.plan.lengths != [] && t == After(w, s, step)
    ensures Calm(w, t) && Leads(w, s, t) && (Inv(w, s) ==> Inv(w, t))
  {
    t := After(w, s, step);
    StepKeeps(w, s, step);
    StillReachable(w, s, step);
    OneStepLeads(w, s, step);
    hide Inv, Accounted, Enabled, Possible, After, ValidPlan, Writable, Leads, Reachable, Refused, InLoop, Wants;
    if !step.Complete? {
      StepGoes(w, s, step);
    } else if Usable(w) {
      CompletionGoes(w, s, step);
    }
    if Inv(w, s) {
      SafeStep(w, s, step);
    }
  }

  /** A step with truthful peers. */
  lemma Take(w: World, s: State, step: Step) returns (t: State)
    requires ValidWorld(w) && Sound(w, s) && Enabled(w, s, step)
    requires step.Complete? ==> Setup(w) || !After(w, s, step).aborted
    ensures w.plan.lengths != [] && t == After(w, s, step)
    ensures Sound(w, t) && Leads(w, s, t)
  {
    t := After(w, s, step);
    SafeStep(w, s, step);
    StepKeeps(w, s, step);
    StillReachable(w, s, step);
    OneStepLeads(w, s, step);
    hide Inv, Accounted, Enabled, Possible, After, ValidPlan, Writable, Leads, Reachable, Refused;
    if step.Complete? && t.aborted {
      var _ := Go(w, s, step);
    }
  }

  // ---- Ending every peer ----

  ghost function Rank(phase: Phase): nat {
    match phase
    case Ready => 3
    case Downloading(_, _, reading) => if reading then 1 else 2
    case Ended => 0
    case _ => 1
  }

  /** t differs from s in one peer, and has at least as many pieces issued and downloaded. */
  ghost predicate OnlyPeer(s: State, t: State, id: nat) {
    && s.peers.Keys == t.peers.Keys
    && (forall q | q in s.peers && q != id :: t.peers[q] == s.peers[q])
    && t.sched.g == s.sched.g
    && t.sched.next >= s.sched.next
    && t.sched.done >= s.sched.done
  }

  lemma OnlyPeerTwice(s: State, t: State, u: State, id: nat)
    requires OnlyPeer(s, t, id) && OnlyPeer(t, u, id)
    ensures OnlyPeer(s, u, id)
  {
  }

  /** A step that brings the peer nearer its end; it receives nothing. */
  ghost function EndingStep(s: State, id: nat): Step
    requires id in s.peers && (s.peers[id].phase.Downloading? ==> s.peers[id].phase.piece in s.sched.pieces)
  {
    var phase := s.peers[id].phase;
    if phase.Ready? then Pop(id)
    else if phase.Downloading? && !phase.reading then
      if !Wants(s, id) then Complete(id) else if MaySend(s, id) then Fail(id) else SkipSend(id)
    else Fail(id)
  }

  lemma EndingStepEnabled(w: World, s: State, id: nat)
    requires !s.aborted && id in s.peers && !s.peers[id].phase.Ended?
    requires s.peers[id].phase.Downloading? ==> s.peers[id].phase.piece in s.sched.pieces
    ensures Enabled(w, s, EndingStep(s, id)) && !EndingStep(s, id).Receive?
  {
    hide PieceSizeOf, CanSend;
  }

  lemma EndingStepProgress(w: World, s: State, id: nat)
    requires !s.aborted && id in s.peers && !s.peers[id].phase.Ended? && w.plan.lengths != []
    requires s.peers[id].phase.Downloading? ==> s.peers[id].phase.piece in s.sched.pieces
    requires Enabled(w, s, EndingStep(s, id)) && !After(w, s, EndingStep(s, id)).aborted
    ensures var t := After(w, s, EndingStep(s, id));
            && OnlyPeer(s, t, id)
            && (|| (t.sched.next > s.sched.next && t.sched.next <= s.sched.g.count)
                || Rank(t.peers[id].phase) < Rank(s.peers[id].phase))
  {
    PopProgress(s.sched, s.peers[id].bits);
    hide PieceSizeOf, CanSend, WritePieceF, PopStepF;
  }

  lemma PopProgress(s: Sched, bits: seq<bv8>)
    ensures var (s', r) := PopStepF(s, bits);
            && s'.g == s.g && s'.next >= s.next && s'.done == s.done
            && (r.Skipped? ==> s.next < s'.next <= s.g.count)
  {
    hide HasPiece;
  }

  lemma InLoopPiece(w: World, s: State, id: nat)
    requires Calm(w, s) && id in s.peers && s.peers[id].phase.Downloading?
    ensures s.peers[id].phase.piece in s.sched.pieces
  {
    hide Issued, SizedPieces, Assembled, Reachable, Usable;
    OnlyHolder(s, id, s.peers[id].phase.piece);
  }

  lemma {:induction false} EndPeer(w: World, s: State, id: nat) returns (t: State)
    requires Setup(w) && Calm(w, s) && id in s.peers
    ensures w.plan.lengths != [] && Calm(w, t) && Leads(w, s, t) && (Inv(w, s) ==> Inv(w, t))
    ensures OnlyPeer(s, t, id) && t.peers[id].phase.Ended?
    decreases if s.sched.next <= s.sched.g.count then s.sched.g.count - s.sched.next else 0, Rank(s.peers[id].phase)
  {
    hide Setup, Calm, Inv, Enabled, Possible, After, Leads, EndingStep;
    CalmFacts(w, s);
    if s.peers[id].phase.Ended? {
      t := s;
      LeadsToItself(w, s);
    } else {
      if s.peers[id].phase.Downloading? {
        InLoopPiece(w, s, id);
      }
      EndingStepEnabled(w, s, id);
      var u := Go(w, s, EndingStep(s, id));
      CalmFacts(w, u);
      EndingStepProgress(w, s, id);
      t := EndPeer(w, u, id);
      OnlyPeerTwice(s, u, t, id);
      LeadsOn(w, s, u, t);
    }
  }

  lemma SetupFacts(w: World)
    requires Setup(w)
    ensures ValidWorld(w) && w.plan.lengths != [] && |w.content| == w.plan.g.total && ValidSizes(w.plan.g)
  {
    hide Usable, Reachable;
  }

  lemma CalmFacts(w: World, s: State)
    requires Calm(w, s)
    ensures !s.aborted && s.sched.g == w.plan.g && s.sched.next <= s.sched.g.count && w.plan.lengths != []
  {
    hide Owned, SizedPieces, Assembled, Usable, Reachable;
  }

  lemma SoundFacts(w: World, s: State)
    requires Sound(w, s)
    ensures !s.aborted && s.sched.g == w.plan.g && s.sched.next <= s.sched.g.count && w.plan.lengths != []
    ensures Calm(w, s) && Inv(w, s)
  {
    CalmFacts(w, s);
    hide Calm, Inv;
  }

  lemma {:induction false} EndPeers(w: World, s: State, ids: set<nat>) returns (t: State)
    requires Setup(w) && Calm(w, s) && ids <= s.peers.Keys
    requires forall id | id in s.peers && id !in ids :: s.peers[id].phase.Ended?
    ensures w.plan.lengths != [] && Calm(w, t) && Leads(w, s, t) && (Inv(w, s) ==> Inv(w, t)) && AllEnded(t)
    ensures t.sched.done >= s.sched.done
    decreases |ids|
  {
    SetupFacts(w);
    hide Setup, Calm, Inv, Leads;
    if ids == {} {
      t := s;
      LeadsToItself(w, s);
    } else {
      var id :| id in ids;
      var u := EndPeer(w, s, id);
      t := EndPeers(w, u, ids - {id});
      LeadsOn(w, s, u, t);
    }
  }

  // ---- One piece from one peer ----

  function FullBits(count: nat): seq<bv8> {
    seq(count / 8 + 2, _ => 0xFF)
  }

  lemma AllBitsSet(k: nat)
    requires k < 8
    ensures BitOf(0xFF, k)
  {
    if k == 0 {} else if k == 1 {} else if k == 2 {} else if k == 3 {}
    else if k == 4 {} else if k == 5 {} else if k == 6 {} else {}
  }

  lemma FullHasAll(count: nat, i: nat)
    requires i < count
    ensures HasPiece(FullBits(count), i)
  {
    AllBitsSet(i % 8);
    assert FullBits(count)[i / 8 + 1] == 0xFF;
    hide BitOf;
  }

  lemma PopGets(w: World, s: State)
    requires Sound(w, s) && AllEnded(s) && s.sched.done < s.sched.g.count
    ensures PopStepF(s.sched, FullBits(s.sched.g.count)).1.Got?
  {
    hide HasPiece, FullBits, WriteAllF, PeerInv;
    var bits := FullBits(s.sched.g.count);
    NoPieceIff(s.sched, bits);
    IssuedCount(s);
    if s.sched.next >= s.sched.g.count {
      assert |s.sched.pieces| > 0;
      var i :| i in s.sched.pieces;
      NothingHeld(s);
      FullHasAll(s.sched.g.count, i);
    }
    PoppedPiece(s, bits);
    FullHasAll(s.sched.g.count, PopF(s.sched, bits).1.value);
  }

  /** Peer 0 is alone, at the head of the request loop, unchoking, with nothing outstanding. */
  ghost predicate Solo(s: State) {
    && s.peers.Keys == {0}
    && InLoop(s, 0, false)
    && s.peers[0].unchoked
    && s.peers[0].outstanding == []
  }

  lemma SoloFacts(w: World, s: State)
    requires Sound(w, s) && Solo(s)
    ensures var p := s.sched.pieces[s.peers[0].phase.piece];
            && s.peers[0].phase.backlog == 0
            && p.requested == p.downloaded <= PieceSizeOf(s.sched.g, s.peers[0].phase.piece)
  {
    HeldPiece(w, s, 0);
    SoundFacts(w, s);
    hide Inv, PieceSizeOf, TrueBytes, BlocksSent;
  }

  /** Peer 0, alone, is asked for one more block and sends it. */
  lemma OneBlock(w: World, s: State) returns (t: State)
    requires ValidWorld(w) && Sound(w, s) && Solo(s) && Wants(s, 0)
    ensures w.plan.lengths != [] && Sound(w, t) && Leads(w, s, t) && Solo(t)
    ensures t.sched.g == s.sched.g && t.sched.done == s.sched.done && t.log == s.log
    ensures t.peers[0].phase.piece == s.peers[0].phase.piece
    ensures var i := s.peers[0].phase.piece; t.sched.pieces[i].downloaded > s.sched.pieces[i].downloaded
  {
    hide ValidWorld, Sound, Calm, Inv, Leads, PieceSizeOf, BlockData;
    SoundFacts(w, s);
    SoloFacts(w, s);
    var i := s.peers[0].phase.piece;
    assert MaySend(s, 0);
    var u := Take(w, s, SendRequest(0));
    SoundFacts(w, u);
    var r := Request(i, s.sched.pieces[i].requested, BlockSize(s.sched, i));
    Sent(s, u, i, r);
    AnswerInRange(w, u);
    var msg := Block(i, r.offset, BlockData(w, r));
    t := Take(w, u, Receive(0, msg, 0));
    SoundFacts(w, t);
    AfterAnswer(u, t, i, r, msg);
    LeadsOn(w, s, u, t);
  }

  lemma Sent(s: State, u: State, i: nat, r: Request)
    requires Solo(s) && MaySend(s, 0) && i == s.peers[0].phase.piece
    requires r == Request(i, s.sched.pieces[i].requested, BlockSize(s.sched, i))
    requires u == AfterSend(s, 0)
    ensures u.peers.Keys == {0} && InLoop(u, 0, true) && u.peers[0].unchoked && u.peers[0].outstanding == [r]
    ensures u.peers[0].phase.piece == i && u.sched.g == s.sched.g && u.sched.done == s.sched.done && u.log == s.log
    ensures u.sched.pieces[i].downloaded == s.sched.pieces[i].downloaded
  {
    hide PieceSizeOf;
  }

  lemma AnswerInRange(w: World, u: State)
    requires ValidWorld(w) && Sound(w, u) && InLoop(u, 0, true) && |u.peers[0].outstanding| > 0
    ensures var r, p := u.peers[0].outstanding[0], u.sched.pieces[u.peers[0].phase.piece];
            FieldsFit(r.offset, BlockData(w, r)) && p.downloaded + |BlockData(w, r)| < TWO_32
  {
    HeldPiece(w, u, 0);
    var i := u.peers[0].phase.piece;
    AnsweredBlock(w, i, u.sched.pieces[i], u.peers[0], u.peers[0].phase.backlog, 0);
    SmallSize(w, i);
    RequestedInPiece(w, i, u.sched.pieces[i], u.peers[0], u.peers[0].phase.backlog);
    hide Inv, Pipeline, BlockData, Reachable, ValidWorld, PieceSizeOf;
  }

  lemma RequestedInPiece(w: World, i: nat, p: Progress, peer: Peer, backlog: int)
    requires Pipeline(w, i, p, peer, backlog)
    ensures i < w.plan.g.count && p.requested <= PieceSizeOf(w.plan.g, i)
  {
  }

  lemma AfterAnswer(u: State, t: State, i: nat, r: Request, msg: Message)
    requires InLoop(u, 0, true) && u.peers.Keys == {0} && u.peers[0].unchoked && u.peers[0].outstanding == [r]
    requires u.peers[0].phase.piece == i && msg.Block? && msg.piece == i && FieldsFit(msg.begin, msg.data)
    requires u.sched.pieces[i].downloaded + |msg.data| < TWO_32
    requires t == AfterReceive(u, 0, msg, 0) && !t.aborted
    ensures Solo(t) && t.sched.g == u.sched.g && t.sched.done == u.sched.done && t.log == u.log
    ensures t.peers[0].phase.piece == i && t.sched.pieces[i].downloaded > u.sched.pieces[i].downloaded
  {
    hide PieceSizeOf, Placed;
  }

  lemma {:induction false} AllBlocks(w: World, s: State) returns (t: State)
    requires ValidWorld(w) && Sound(w, s) && Solo(s)
    ensures w.plan.lengths != [] && Sound(w, t) && Leads(w, s, t) && Solo(t) && !Wants(t, 0)
    ensures t.sched.done == s.sched.done && t.log == s.log
    ensures t.peers[0].phase.piece == s.peers[0].phase.piece
    decreases PieceSizeOf(s.sched.g, s.peers[0].phase.piece) - s.sched.pieces[s.peers[0].phase.piece].downloaded
  {
    hide ValidWorld, Sound, Leads, PieceSizeOf;
    SoundFacts(w, s);
    SoloFacts(w, s);
    if Wants(s, 0) {
      var u := OneBlock(w, s);
      SoloFacts(w, u);
      t := AllBlocks(w, u);
      LeadsOn(w, s, u, t);
    } else {
      t := s;
      LeadsToItself(w, s);
    }
  }

  /** A new round with one peer, connected and choking. */
  lemma StartPeer(w: World, s: State, bits: seq<bv8>) returns (t: State)
    requires ValidWorld(w) && Sound(w, s) && AllEnded(s) && s.sched.done < s.sched.g.count && |bits| > 0
    ensures w.plan.lengths != [] && Sound(w, t) && Leads(w, s, t)
    ensures t.sched == s.sched && t.log == s.log && t.peers == map[0 := NEW_PEER.(phase := Ready, bits := bits)]
  {
    hide ValidWorld, Sound, Leads, Calm, Inv, Possible, Enabled, After, AllEnded;
    SoundFacts(w, s);
    RoundStarts(w, s, 0);
    var a := Take(w, s, NewRound({0}));
    SoundFacts(w, a);
    PeerConnects(w, a, bits);
    t := Take(w, a, Connect(0, bits));
    LeadsOn(w, s, a, t);
  }

  lemma RoundStarts(w: World, s: State, id: nat)
    requires !s.aborted && AllEnded(s) && s.sched.done < s.sched.g.count && w.plan.lengths != []
    ensures Enabled(w, s, NewRound({id}))
    ensures After(w, s, NewRound({id})) == s.(peers := map[id := NEW_PEER])
  {
    assert After(w, s, NewRound({id})).peers == map[id := NEW_PEER];
  }

  lemma PeerConnects(w: World, a: State, bits: seq<bv8>)
    requires !a.aborted && a.peers == map[0 := NEW_PEER] && |bits| > 0 && w.plan.lengths != []
    ensures Enabled(w, a, Connect(0, bits))
    ensures After(w, a, Connect(0, bits)) == a.(peers := map[0 := NEW_PEER.(phase := Ready, bits := bits)])
  {
  }

  /** A new round with one peer that has every piece, up to its first request. */
  lemma StartSolo(w: World, s: State) returns (t: State)
    requires ValidWorld(w) && Sound(w, s) && AllEnded(s) && s.sched.done < s.sched.g.count
    ensures w.plan.lengths != [] && Sound(w, t) && Leads(w, s, t) && Solo(t)
    ensures t.sched.done == s.sched.done
  {
    hide ValidWorld, Sound, Leads, PieceSizeOf, FullBits, PopStepF, AllEnded;
    PopGets(w, s);
    var bits := FullBits(s.sched.g.count);
    BitsNotEmpty(s.sched.g.count);
    var a := StartPeer(w, s, bits);
    var b := TakePiece(w, a);
    var c := Unchoked(w, b);
    LeadsOn(w, s, a, b);
    LeadsOn(w, s, b, c);
    t := c;
  }

  lemma BitsNotEmpty(count: nat)
    ensures |FullBits(count)| > 0
  {
  }

  /** Peer 0, alone and choking, is waiting for a piece. */
  ghost predicate Idle(s: State) {
    s.peers.Keys == {0} && s.peers[0].phase.Ready? && !s.peers[0].unchoked && s.peers[0].outstanding == []
  }

  /** Peer 0, alone and choking, has just been given a piece. */
  ghost predicate Popped(s: State) {
    && s.peers.Keys == {0}
    && s.peers[0].phase.Downloading? && !s.peers[0].phase.reading
    && !s.peers[0].unchoked
    && s.peers[0].sent == [] && s.peers[0].outstanding == []
  }

  lemma TakePiece(w: World, s: State) returns (t: State)
    requires ValidWorld(w) && Sound(w, s) && Idle(s) && PopStepF(s.sched, s.peers[0].bits).1.Got?
    ensures w.plan.lengths != [] && Sound(w, t) && Leads(w, s, t) && Popped(t)
    ensures t.sched.done == s.sched.done && t.log == s.log
    ensures t.peers[0].phase.piece == PopStepF(s.sched, s.peers[0].bits).1.piece
  {
    hide ValidWorld, Sound, Leads, PopStepF, After, Enabled, Possible;
    SoundFacts(w, s);
    MayPop(w, s);
    t := Take(w, s, Pop(0));
    AfterPopped(w, s, t);
  }

  /** The peer is told to go on. */
  lemma Unchoked(w: World, s: State) returns (t: State)
    requires ValidWorld(w) && Sound(w, s) && Popped(s)
    ensures w.plan.lengths != [] && Sound(w, t) && Leads(w, s, t) && Solo(t)
    ensures t.sched == s.sched && t.log == s.log && t.peers[0].phase.piece == s.peers[0].phase.piece
  {
    hide ValidWorld, Sound, Leads, PieceSizeOf, After, Enabled, Possible, Solo, Popped;
    SoundFacts(w, s);
    NothingReceived(w, s);
    MaySkip(w, s);
    var a := Take(w, s, SkipSend(0));
    SoundFacts(w, a);
    AfterSkip(w, s, a);
    t := Take(w, a, Receive(0, Unchoke, 0));
    AfterUnchoke(w, a, t);
    LeadsOn(w, s, a, t);
  }

  lemma MayPop(w: World, s: State)
    requires !s.aborted && 0 in s.peers && s.peers[0].phase.Ready?
    ensures Enabled(w, s, Pop(0))
  {
  }

  lemma AfterPopped(w: World, s: State, a: State)
    requires w.plan.lengths != [] && Idle(s) && Possible(s, Pop(0)) && a == After(w, s, Pop(0))
    requires PopStepF(s.sched, s.peers[0].bits).1.Got?
    ensures Popped(a) && a.sched.done == s.sched.done && a.log == s.log
    ensures a.peers[0].phase.piece == PopStepF(s.sched, s.peers[0].bits).1.piece
  {
    PopProgress(s.sched, s.peers[0].bits);
    hide PopStepF;
  }

  lemma NothingReceived(w: World, a: State)
    requires ValidWorld(w) && Sound(w, a) && Popped(a)
    ensures InLoop(a, 0, false) && Wants(a, 0)
  {
    HeldPiece(w, a, 0);
    SoundFacts(w, a);
    PlanFacts(w.plan);
    var peer := a.peers[0];
    NothingSent(w, peer.phase.piece, a.sched.pieces[peer.phase.piece], peer, peer.phase.backlog);
    hide Inv, PieceSizeOf, ValidPlan, Pipeline, Reachable;
  }

  lemma NothingSent(w: World, i: nat, p: Progress, peer: Peer, backlog: int)
    requires ValidSizes(w.plan.g) && Pipeline(w, i, p, peer, backlog) && peer.sent == []
    ensures p.downloaded == 0 < PieceSizeOf(w.plan.g, i)
  {
    PieceSizeExact(w.plan.g, i);
    hide PieceSizeOf, PieceStart, PieceEnd, TrueBytes, ValidSizes;
  }

  lemma MaySkip(w: World, a: State)
    requires !a.aborted && Popped(a) && InLoop(a, 0, false) && Wants(a, 0)
    ensures Enabled(w, a, SkipSend(0))
  {
    hide PieceSizeOf;
  }

  lemma AfterSkip(w: World, a: State, b: State)
    requires w.plan.lengths != [] && Popped(a) && InLoop(a, 0, false)
    requires Enabled(w, a, SkipSend(0)) && b == After(w, a, SkipSend(0))
    ensures b.peers.Keys == {0} && InLoop(b, 0, true) && b.peers[0].outstanding == []
    ensures b.sched == a.sched && b.log == a.log && b.peers[0].phase.piece == a.peers[0].phase.piece
    ensures Enabled(w, b, Receive(0, Unchoke, 0))
  {
    hide Wants, MaySend;
  }

  lemma AfterUnchoke(w: World, b: State, c: State)
    requires w.plan.lengths != [] && b.peers.Keys == {0} && InLoop(b, 0, true) && b.peers[0].outstanding == []
    requires Possible(b, Receive(0, Unchoke, 0)) && c == After(w, b, Receive(0, Unchoke, 0))
    ensures Solo(c) && c.sched == b.sched && c.log == b.log && c.peers[0].phase.piece == b.peers[0].phase.piece
  {
  }

  /** One more piece, when all peers have ended. */
  lemma OneRound(w: World, s: State) returns (t: State)
    requires Setup(w) && Sound(w, s) && AllEnded(s) && s.sched.done < s.sched.g.count
    ensures w.plan.lengths != [] && Sound(w, t) && Leads(w, s, t) && AllEnded(t)
    ensures t.sched.done > s.sched.done
  {
    hide Setup, Sound, Leads, Wants, After, Enabled;
    SetupFacts(w);
    var a := StartSolo(w, s);
    var b := AllBlocks(w, a);
    LeadsOn(w, s, a, b);
    SoundFacts(w, b);
    MayComplete(w, b);
    var c := Take(w, b, Complete(0));
    SoundFacts(w, c);
    AfterCompletion(w, b, c);
    LeadsOn(w, s, b, c);
    t := EndPeers(w, c, c.peers.Keys);
    SoundIs(w, t);
    LeadsOn(w, s, c, t);
  }

  lemma SoundIs(w: World, t: State)
    requires Calm(w, t) && Inv(w, t)
    ensures Sound(w, t)
  {
    hide Calm, Inv;
  }

  lemma MayComplete(w: World, b: State)
    requires !b.aborted && InLoop(b, 0, false) && !Wants(b, 0)
    ensures Enabled(w, b, Complete(0))
  {
  }

  lemma AfterCompletion(w: World, b: State, c: State)
    requires w.plan.lengths != [] && Enabled(w, b, Complete(0)) && c == After(w, b, Complete(0)) && !c.aborted
    ensures c.sched.done == b.sched.done + 1
  {
    hide Wants, WritePieceF, PieceSizeOf;
  }

  lemma {:induction false} AllRounds(w: World, s: State) returns (t: State)
    requires Setup(w) && Sound(w, s) && AllEnded(s)
    ensures w.plan.lengths != [] && Leads(w, s, t) && Exited(t)
    decreases w.plan.g.count - s.sched.done
  {
    hide Setup, Sound, Leads;
    SetupFacts(w);
    SoundFacts(w, s);
    if s.sched.done < s.sched.g.count {
      var u := OneRound(w, s);
      SoundFacts(w, u);
      t := AllRounds(w, u);
      LeadsOn(w, s, u, t);
    } else {
      t := s;
      LeadsToItself(w, s);
    }
  }

  lemma StartIsReachable(w: World)
    requires w.plan.lengths != []
    ensures Reachable(w, Init(w))
  {
    var states: seq<State>, steps: seq<Step> := [Init(w)], [];
    assert Run(w, states, steps) && Truthful(w, states, steps) && states[|steps|] == Init(w);
  }

  /** When no run can fail an assertion, every reachable state can be continued to the end. */
  lemma SetupFinishes(w: World, s: State)
    requires Setup(w) && Sound(w, s)
    ensures exists t :: Leads(w, s, t) && Exited(t)
  {
    hide Setup, Sound, Calm, Inv, Exited;
    SoundFacts(w, s);
    var u := EndPeers(w, s, s.peers.Keys);
    SoundIs(w, u);
    var t := AllRounds(w, u);
    LeadsOn(w, s, u, t);
  }

  lemma StartIsSound(w: World)
    requires ValidWorld(w) && w.plan.lengths != []
    ensures Sound(w, Init(w))
  {
    StartIsReachable(w);
    InvAtStart(w);
    InvParts(w, Init(w));
    hide Inv, Accounted, Reachable, Usable, NewDisk;
  }

  lemma WritableSetup(w: World)
    requires ValidWorld(w) && Writable(w.plan, w.fs)
    ensures Setup(w)
  {
    PlanFacts(w.plan);
    hide ValidPlan, Writable, Reachable;
  }

  lemma LeadsToReachable(w: World, t: State)
    requires w.plan.lengths != [] && Leads(w, Init(w), t)
    ensures Reachable(w, t)
  {
    StartIsReachable(w);
    hide Reachable, Path, Init;
    var steps :| Path(w, Init(w), steps, t);
    ReachableOnPath(w, Init(w), steps, t);
  }

  /** Some run leaves the main loop, if none fails an assertion. */
  lemma SomeRunFinishes(w: World) returns (t: State)
    requires Setup(w)
    ensures w.plan.lengths != [] && Reachable(w, t) && Exited(t)
  {
    SetupFacts(w);
    hide Setup, Sound, Reachable, Exited, Leads, Init, ValidWorld;
    StartIsSound(w);
    SetupFinishes(w, Init(w));
    t :| Leads(w, Init(w), t) && Exited(t);
    LeadsToReachable(w, t);
  }

  /** No run fails an assertion exactly when the files are writable. */
  lemma NeverAbortsIff(w: World)
    requires ValidWorld(w)
    ensures (forall s | Reachable(w, s) :: !s.aborted) <==> Writable(w.plan, w.fs)
  {
    PlanFacts(w.plan);
    hide ValidPlan, Writable, Reachable, Exited, Usable, Inv;
    if forall s | Reachable(w, s) :: !s.aborted {
      var t := SomeRunFinishes(w);
      ExitedMeansDownloaded(w, t);
    }
    if Writable(w.plan, w.fs) {
      forall s | Reachable(w, s)
        ensures !s.aborted
      {
        NeverAborts(w, s);
      }
    }
  }

  /** A download can be finished exactly when the files are writable. */
  lemma FinishIff(w: World)
    requires ValidWorld(w)
    ensures (exists s :: Reachable(w, s) && Exited(s)) <==> Writable(w.plan, w.fs)
  {
    PlanFacts(w.plan);
    hide ValidPlan, Writable, Reachable, Exited, Setup;
    if Writable(w.plan, w.fs) {
      WritableSetup(w);
      var t := SomeRunFinishes(w);
    }
    if s :| Reachable(w, s) && Exited(s) {
      ExitedMeansDownloaded(w, s);
    }
  }

  // ---- After peers that were not truthful ----

  /** The contents agree on the pieces that are not in the log. */
  ghost predicate AgreesOutside(w: World, w': World, log: seq<nat>)
    requires |w.content| == w.plan.g.total && |w'.content| == w'.plan.g.total
  {
    && w'.plan == w.plan && w'.fs == w.fs
    && forall i: nat | i < w.plan.g.count && i !in log ::
         PieceData(w.plan.g, w.content, i) == PieceData(w.plan.g, w'.content, i)
  }

  /** a on the pieces in the log, b on the others. */
  function Merged(g: Geometry, log: seq<nat>, a: seq<byte>, b: seq<byte>): seq<byte>
    requires |a| == |b| && g.pieceSize > 0
  {
    seq(|a|, x requires 0 <= x < |a| => if x / g.pieceSize in log then a[x] else b[x])
  }

  lemma MergedPiece(g: Geometry, log: seq<nat>, a: seq<byte>, b: seq<byte>, i: nat)
    requires ValidSizes(g) && |a| == |b| == g.total && i < g.count
    ensures PieceData(g, Merged(g, log, a, b), i) == PieceData(g, if i in log then a else b, i)
  {
    var merged, source := Merged(g, log, a, b), if i in log then a else b;
    PieceDataIs(g, merged, i);
    PieceDataIs(g, source, i);
    var lo, hi := PieceStart(g, i), PieceEnd(g, i);
    forall x | lo <= x < hi
      ensures merged[x] == source[x]
    {
      OwnerIff(g, x, i);
    }
    hide ValidSizes, PieceStart, PieceEnd, Merged, PieceData;
    assert merged[lo..hi] == source[lo..hi];
  }

  /** What has been written, whoever sent it, taken for the true content; the rest is as it was. */
  lemma Reinterpreted(w: World, s: State) returns (w': World)
    requires Usable(w) && Calm(w, s) && AllEnded(s)
    ensures |w.content| == w.plan.g.total && |w'.content| == w'.plan.g.total
    ensures Usable(w') && Sound(w', s) && AgreesOutside(w, w', s.log)
  {
    hide Accounted, Writable, PieceData, WriteAllF, Merged, ValidSizes, Reachable;
    PlanFacts(w.plan);
    var written := AccountedParts(w, s);
    var merged := Merged(w.plan.g, s.log, written, w.content);
    MergedSize(w.plan.g, s.log, written, w.content);
    w' := World(w.plan, merged, w.fs);
    forall i: nat | i < w.plan.g.count
      ensures PieceData(w.plan.g, merged, i) == PieceData(w.plan.g, if i in s.log then written else w.content, i)
    {
      MergedPiece(w.plan.g, s.log, written, w.content, i);
    }
    LogInRange(w, s);
    WriteAllSame(w, written, merged, s.log);
    SameAccounts(w, w', s);
    EndedInv(w', s);
  }

  lemma MergedSize(g: Geometry, log: seq<nat>, a: seq<byte>, b: seq<byte>)
    requires |a| == |b| && g.pieceSize > 0
    ensures |Merged(g, log, a, b)| == |a|
  {
  }

  lemma LogInRange(w: World, s: State)
    requires Accounted(w, s)
    ensures forall i | i in s.log :: i < w.plan.g.count
  {
    hide Owned, SizedPieces, Assembled, NoDup;
  }

  lemma SameAccounts(w: World, w': World, s: State)
    requires Accounted(w, s) && w'.plan == w.plan && w'.fs == w.fs
    ensures Accounted(w', s)
  {
    hide Issued, Owned, SizedPieces, WriteAllF;
    var content :| Assembled(w, content, s);
    assert Assembled(w', content, s);
  }

  lemma EndedInv(w: World, s: State)
    requires Accounted(w, s) && AllEnded(s) && w.plan.lengths != [] && |w.content| == w.plan.g.total
    requires WriteAllF(w.plan, w.content, w.fs, s.log) == Some(s.disk)
    ensures Inv(w, s)
  {
    hide Accounted, WriteAllF, Pipeline;
  }

  /** What a peer would answer is the same in both worlds, while the piece is not in the log. */
  lemma SameAnswer(w: World, w': World, s: State, id: nat, k: nat)
    requires ValidWorld(w) && ValidWorld(w') && Inv(w', s) && AgreesOutside(w, w', s.log)
    requires InLoop(s, id, true) && k < |s.peers[id].outstanding|
    ensures BlockData(w, s.peers[id].outstanding[k]) == BlockData(w', s.peers[id].outstanding[k])
  {
    hide Inv, ValidWorld, Pipeline, PieceData, BlockData, PieceSizeOf;
    HeldPiece(w', s, id);
    var i, r := s.peers[id].phase.piece, s.peers[id].outstanding[k];
    NotInLog(w', s, i);
    BlockOfPiece(w', i, s.sched.pieces[i], s.peers[id], s.peers[id].phase.backlog, k);
    SameBlock(w, w', i, r);
  }

  /** An outstanding request lies in the held piece. */
  lemma BlockOfPiece(w: World, i: nat, p: Progress, peer: Peer, backlog: int, k: nat)
    requires ValidWorld(w) && Pipeline(w, i, p, peer, backlog) && k < |peer.outstanding|
    ensures var r := peer.outstanding[k]; r.piece == i && r.offset + r.length <= PieceSizeOf(w.plan.g, i)
  {
    AnsweredBlock(w, i, p, peer, backlog, k);
    RequestedInPiece(w, i, p, peer, backlog);
    hide Pipeline, ValidWorld, PieceSizeOf, BlockData;
  }

  lemma SameBlock(w: World, w': World, i: nat, r: Request)
    requires ValidWorld(w) && ValidWorld(w') && w'.plan == w.plan && i < w.plan.g.count
    requires r.piece == i && r.offset + r.length <= PieceSizeOf(w.plan.g, i)
    requires PieceData(w.plan.g, w.content, i) == PieceData(w.plan.g, w'.content, i)
    ensures BlockData(w, r) == BlockData(w', r)
  {
    PieceSizeExact(w.plan.g, i);
    PieceDataIs(w.plan.g, w.content, i);
    PieceDataIs(w.plan.g, w'.content, i);
    hide ValidPlan, ValidSizes, PieceStart, PieceEnd, PieceSizeOf, PieceData;
    var lo, hi := PieceStart(w.plan.g, i), PieceEnd(w.plan.g, i);
    SubSlice(w.content, lo, hi, r.offset, r.offset + r.length);
    SubSlice(w'.content, lo, hi, r.offset, r.offset + r.length);
  }

  lemma NotInLog(w: World, s: State, i: nat)
    requires Inv(w, s) && i in s.sched.pieces
    ensures i !in s.log && i < w.plan.g.count
  {
    InvParts(w, s);
    hide Inv, Owned, NoDup;
  }

  lemma LogKept(w: World, s: State, step: Step)
    requires w.plan.lengths != [] && Possible(s, step)
    ensures forall i | i in s.log :: i in After(w, s, step).log
  {
    hide PieceSizeOf, PopStepF, WritePieceF, BlockFits, Placed;
  }

  lemma SameStep(w: World, w': World, s: State, step: Step)
    requires ValidWorld(w) && ValidWorld(w') && Inv(w', s) && AgreesOutside(w, w', s.log) && Enabled(w', s, step)
    ensures w.plan.lengths != [] && Enabled(w, s, step) && After(w, s, step) == After(w', s, step)
  {
    PlanFacts(w.plan);
    if step.Receive? && step.msg.Block? {
      SameAnswer(w, w', s, step.id, step.answered);
    }
    hide Inv, ValidPlan, AfterPop, AfterSend, AfterReceive, AfterFail, PieceData, BlockData, InLoop, Wants, MaySend;
  }

  /** A continuation that is truthful in the one world is so in the other. */
  lemma {:induction false} PathIsTrue(w: World, w': World, s: State, steps: seq<Step>, t: State)
    requires ValidWorld(w) && ValidWorld(w') && w.plan.lengths != [] && w'.plan.lengths != []
    requires AgreesOutside(w, w', s.log) && !s.aborted && Inv(w', s)
    requires Path(w', s, steps, t)
    ensures Path(w, s, steps, t)
    decreases |steps|
  {
    hide ValidPlan, Inv, Possible, After, Answers, Refused, AgreesOutside;
    if steps != [] {
      SameStep(w, w', s, steps[0]);
      var u := After(w', s, steps[0]);
      if u.aborted {
        NothingAfterAbort(w', u, steps[1..], t);
      } else {
        SafeStep(w', s, steps[0]);
        LogKept(w', s, steps[0]);
        AgreesOn(w, w', s.log, u.log);
        PathIsTrue(w, w', u, steps[1..], t);
      }
    }
  }

  lemma NothingAfterAbort(w: World, u: State, steps: seq<Step>, t: State)
    requires w.plan.lengths != [] && u.aborted && Path(w, u, steps, t)
    ensures steps == [] && u == t
  {
    hide After, Answers;
  }

  lemma AgreesOn(w: World, w': World, log: seq<nat>, log': seq<nat>)
    requires |w.content| == w.plan.g.total && |w'.content| == w'.plan.g.total
    requires AgreesOutside(w, w', log) && forall i | i in log :: i in log'
    ensures AgreesOutside(w, w', log')
  {
    hide PieceData;
  }

  /** When the files are writable, no state is lost that a run has come to without being aborted, whatever the
      peers have sent: from there some continuation with truthful peers leaves the main loop. */
  lemma CanAlwaysFinish(w: World, s: State)
    requires ValidWorld(w) && Writable(w.plan, w.fs) && Attainable(w, s) && !s.aborted
    ensures exists t :: Leads(w, s, t) && Exited(t)
  {
    PlanFacts(w.plan);
    AttainableAccounted(w, s);
    WritableSetup(w);
    hide ValidPlan, Writable, Attainable, Accounted, Reachable, Setup, Inv, Exited, AgreesOutside, Path;
    var u := EndPeers(w, s, s.peers.Keys);
    var w' := Reinterpreted(w, u);
    WritableSetup(w');
    var t := AllRounds(w', u);
    var steps :| Path(w', u, steps, t);
    PathIsTrue(w, w', u, steps, t);
    LeadsOn(w, s, u, t);
  }
}
