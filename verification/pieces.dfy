/**
 The scheduler that hands out pieces, as functions of its state. A handle to a piece is
 its index: every index is issued once. The class in pieces_to_download.dfy is proved equal
 to these functions.
 */
module Pieces {
  import opened Machine
  import opened Client
  import opened Bitfield

  /** How far a piece has come. */
  datatype Progress = Progress(downloaded: nat, requested: nat, data: seq<byte>)

  const NOTHING: Progress := Progress(0, 0, [])

  datatype Sched = Sched(g: Geometry, next: nat, pieces: map<nat, Progress>, retry: seq<nat>, done: nat)

  /** The first position in retry, from k on, of a piece the peer has. */
  function FirstHad(retry: seq<nat>, bits: seq<bv8>, k: nat): (r: nat)
    requires k <= |retry|
    ensures k <= r <= |retry|
    ensures r < |retry| ==> HasPiece(bits, retry[r])
    ensures forall j | k <= j < r :: !HasPiece(bits, retry[j])
    decreases |retry| - k
  {
    if k < |retry| && !HasPiece(bits, retry[k]) then FirstHad(retry, bits, k + 1) else k
  }

  function Without<T>(s: seq<T>, k: nat): seq<T>
    requires k < |s|
  {
    s[..k] + s[k + 1..]
  }

  /** A new piece while there is one, then a retry piece the peer has; None when there is neither. */
  function PopF(s: Sched, bits: seq<bv8>): (Sched, Option<nat>) {
    if s.next < s.g.count then
      (s.(next := s.next + 1, pieces := s.pieces[s.next := NOTHING]), Some(s.next))
    else
      var k := FirstHad(s.retry, bits, 0);
      if k == |s.retry| then (s, None) else (s.(retry := Without(s.retry, k)), Some(s.retry[k]))
  }

  function PushF(s: Sched, i: nat): Sched {
    s.(pieces := s.pieces[i := NOTHING], retry := s.retry + [i])
  }

  /** The fields of a message are 32-bit numbers, and a message that parses carries data. */
  predicate FieldsFit(begin: nat, data: seq<byte>) {
    begin < TWO_32 && 0 < |data| < TWO_32
  }

  /** What the code asserts of a received block, its sums in 32 bits. */
  predicate BlockAsserted(s: Sched, i: nat, begin: nat, data: seq<byte>)
    requires i in s.pieces
  {
    && |data| > 0
    && U32(s.pieces[i].downloaded + |data|) <= PieceSizeOf(s.g, i)
    && U32(begin + |data|) <= PieceSizeOf(s.g, i)
  }

  /** The block is accepted and lies in the buffer. */
  predicate BlockFits(s: Sched, i: nat, begin: nat, data: seq<byte>)
    requires i in s.pieces
  {
    BlockAsserted(s, i, begin, data) && begin + |data| <= PieceSizeOf(s.g, i)
  }

  /** The buffer after the block; the first block allocates it. Its size is that of the piece. */
  function Placed(buffer: seq<byte>, size: nat, begin: nat, data: seq<byte>): seq<byte> {
    var b := if buffer == [] then seq(size, _ => 0) else buffer;
    b[..Min(begin, |b|)] + data + b[Min(begin + |data|, |b|)..]
  }

  function ReceiveF(s: Sched, i: nat, begin: nat, data: seq<byte>): Sched
    requires i in s.pieces
  {
    var p := s.pieces[i];
    s.(pieces := s.pieces[i := Progress(U32(p.downloaded + |data|), p.requested,
                                        Placed(p.data, PieceSizeOf(s.g, i), begin, data))])
  }

  function DownloadedF(s: Sched, i: nat): Sched {
    s.(done := s.done + 1, pieces := s.pieces - {i})
  }

  // ---- The requests of one peer ----

  const MAX_BLOCK: nat := 16384
  const MAX_BACKLOG: int := 5

  predicate CanSend(s: Sched, i: nat, unchoked: bool, backlog: int)
    requires i in s.pieces
  {
    unchoked && backlog < MAX_BACKLOG && s.pieces[i].requested < PieceSizeOf(s.g, i)
  }

  function BlockSize(s: Sched, i: nat): nat
    requires i in s.pieces && s.pieces[i].requested <= PieceSizeOf(s.g, i)
  {
    Min(MAX_BLOCK, PieceSizeOf(s.g, i) - s.pieces[i].requested)
  }

  function RequestedF(s: Sched, i: nat): Sched
    requires i in s.pieces && s.pieces[i].requested <= PieceSizeOf(s.g, i)
  {
    s.(pieces := s.pieces[i := s.pieces[i].(requested := s.pieces[i].requested + BlockSize(s, i))])
  }

  // ---- Popping until a piece the peer has ----

  datatype PopResult = NoPiece | Skipped | Got(piece: nat)

  /** One pass of the outer loop: a piece the peer lacks goes back to the queue. */
  function PopStepF(s: Sched, bits: seq<bv8>): (Sched, PopResult) {
    var (s', o) := PopF(s, bits);
    match o
    case None => (s', NoPiece)
    case Some(i) => if HasPiece(bits, i) then (s', Got(i)) else (PushF(s', i), Skipped)
  }

  /** The passes up to the first that is not a skip; only new pieces are skipped. */
  function PopSkipF(s: Sched, bits: seq<bv8>): (Sched, PopResult)
    decreases s.g.count - s.next
  {
    var (s', r) := PopStepF(s, bits);
    if r.Skipped? && s.next < s.g.count then PopSkipF(s', bits) else (s', r)
  }

  /** A peer gets nothing exactly when every piece has been issued and it has none of the retry pieces. */
  lemma NoPieceIff(s: Sched, bits: seq<bv8>)
    ensures PopF(s, bits).1.None? <==> s.next >= s.g.count && forall i | i in s.retry :: !HasPiece(bits, i)
  {
    hide HasPiece;
    var k := FirstHad(s.retry, bits, 0);
    if k < |s.retry| {
      assert s.retry[k] in s.retry;
    }
  }

  /** The piece is the first queued one the peer has, the queue behind it closes up, and giving it back
      puts it last: nothing is lost or doubled. */
  lemma PopTakesTheFirst(s: Sched, bits: seq<bv8>)
    requires s.next >= s.g.count && PopF(s, bits).1.Some?
    ensures var (s', o) := PopF(s, bits);
            && (exists k ::
                  && 0 <= k < |s.retry|
                  && s.retry[k] == o.value && HasPiece(bits, s.retry[k])
                  && (forall j | 0 <= j < k :: !HasPiece(bits, s.retry[j]))
                  && s'.retry == s.retry[..k] + s.retry[k + 1..])
            && multiset(PushF(s', o.value).retry) == multiset(s.retry)
            && PushF(s', o.value).retry[|s.retry| - 1] == o.value
  {
    hide HasPiece;
    var k := FirstHad(s.retry, bits, 0);
    assert s.retry == s.retry[..k] + [s.retry[k]] + s.retry[k + 1..];
  }

  /** A skipped piece is a new one. */
  lemma SkipsAreNew(s: Sched, bits: seq<bv8>)
    ensures PopStepF(s, bits).1.Skipped? ==> s.next < s.g.count && PopStepF(s, bits).0.next == s.next + 1
  {
  }

  /** The loop ends with a piece the peer has, or with none: it never stops at a skip. */
  lemma {:induction false} PopSkipEnds(s: Sched, bits: seq<bv8>)
    ensures !PopSkipF(s, bits).1.Skipped?
    ensures PopSkipF(s, bits).1.Got? ==> HasPiece(bits, PopSkipF(s, bits).1.piece)
    ensures PopSkipF(s, bits).1.NoPiece? ==>
              && PopSkipF(s, bits).0.next >= s.g.count
              && forall i | i in PopSkipF(s, bits).0.retry :: !HasPiece(bits, i)
    decreases s.g.count - s.next
  {
    SkipsAreNew(s, bits);
    NoPieceIff(s, bits);
    var (s', r) := PopStepF(s, bits);
    if r.Skipped? {
      PopSkipEnds(s', bits);
    }
    hide HasPiece;
  }
}
