/** The torrent's sizes as the client computes them in fixed-width arithmetic, and their validation. */
module Client {
  import opened Machine
  import opened Bencode
  import opened BencodePrinter
  import opened TorrentFile
  import opened TorrentFileSpec
  import TorrentFileParser

  /** Pieces count, piece size and total size. */
  datatype Geometry = Geometry(count: nat, pieceSize: nat, total: nat)

  function FileLengths(files: seq<File>): seq<nat> {
    seq(|files|, i requires 0 <= i < |files| => files[i].length)
  }

  /** The lengths of the files, in order; one for a single-file torrent. */
  function Lengths(m: Metainfo): seq<nat> {
    match m.content
    case Unset => []
    case SingleFile(length) => [length]
    case MultiFile(files) => FileLengths(files)
  }

  function PiecesCount(m: Metainfo): nat {
    U32(|m.pieces| / SHA1_LENGTH)
  }

  function PieceSizeBytes(m: Metainfo): nat {
    U32(m.pieceLength)
  }

  /** The sum of the file lengths, in 64-bit arithmetic. */
  method GetTotalSizeBytes(m: Metainfo) returns (total: nat)
    requires !m.content.Unset?
    requires m.content.SingleFile? ==> m.content.length < TWO_64
    ensures total == U64(Sum(Lengths(m)))
  {
    match m.content
    case SingleFile(length) =>
      assert Sum([length]) == length by {
        assert [length][..0] == [];
      }
      total := length;
    case MultiFile(files) =>
      total := 0;
      var lengths := FileLengths(files);
      for i := 0 to |files|
        invariant total == U64(Sum(lengths[..i]))
      {
        assert lengths[..i + 1][..i] == lengths[..i];
        total := U64(total + files[i].length);
      }
      assert lengths[..|files|] == lengths;
  }

  /** The checks on the three sizes made before the download starts. */
  predicate ValidSizes(g: Geometry) {
    && 0 < g.count < TWO_32
    && 0 < g.pieceSize < TWO_32
    && g.total < TWO_64
    && U64(g.pieceSize * (g.count - 1)) < g.total
    && g.total - U64(g.pieceSize * (g.count - 1)) <= g.pieceSize
  }

  /** The 64-bit product does not wrap: the sizes describe count pieces, the last one possibly shorter. */
  lemma ValidSizesMeaning(g: Geometry)
    ensures ValidSizes(g) <==>
            && 0 < g.count < TWO_32
            && 0 < g.pieceSize < TWO_32
            && g.total < TWO_64
            && g.pieceSize * (g.count - 1) < g.total <= g.pieceSize * g.count
  {
    if 0 < g.count < TWO_32 && 0 < g.pieceSize < TWO_32 {
      ProductFits(g.pieceSize, g.count - 1);
      assert g.pieceSize * g.count == g.pieceSize * (g.count - 1) + g.pieceSize;
    }
    hide U64;
  }

  lemma ProductFits(a: nat, b: nat)
    requires a < TWO_32 && b < TWO_32
    ensures U64(a * b) == a * b
  {
    MulMonotone(b, TWO_32, a);
    MulMonotone(a, TWO_32, TWO_32);
    assert a * b < TWO_64;
  }

  // ---- The size of a piece ----

  /** Where piece i starts and ends in the content. */
  function PieceStart(g: Geometry, i: nat): nat {
    i * g.pieceSize
  }

  function PieceEnd(g: Geometry, i: nat): nat {
    Min((i + 1) * g.pieceSize, g.total)
  }

  /** The product the code subtracts for the last piece: computed in 32 bits. */
  function SizeExceptLast(g: Geometry): nat {
    U32(g.pieceSize * U32(g.count - 1))
  }

  /** The size of a piece as the code computes it. */
  function PieceSizeOf(g: Geometry, i: nat): nat {
    if i < U32(g.count - 1) then g.pieceSize else U32(U64(g.total - SizeExceptLast(g)))
  }

  lemma RemainderOfDifference(total: nat, product: nat)
    requires product <= total && total - product < TWO_32 && total < TWO_64
    ensures U32(U64(total - U32(product))) == total - product
  {
    var q := product / TWO_32;
    assert product == q * TWO_32 + U32(product);
    var last := total - product;
    assert total - U32(product) == last + q * TWO_32;
    assert U64(total - U32(product)) == total - U32(product);
    assert (last + q * TWO_32) % TWO_32 == last;
  }

  lemma PieceBounds(g: Geometry, i: nat)
    requires ValidSizes(g) && i < g.count
    ensures U32(g.count - 1) == g.count - 1
    ensures i < g.count - 1 ==> PieceEnd(g, i) == PieceStart(g, i) + g.pieceSize
    ensures i == g.count - 1 ==> PieceStart(g, i) == g.pieceSize * (g.count - 1) && PieceEnd(g, i) == g.total
    ensures PieceStart(g, i) < PieceEnd(g, i) <= PieceStart(g, i) + g.pieceSize
  {
    ValidSizesMeaning(g);
    hide ValidSizes;
    if i < g.count - 1 {
      MulMonotone(i + 1, g.count - 1, g.pieceSize);
    }
  }

  /** The piece size is exact for every piece, and the assertion on the last one holds, even when the
      32-bit product wraps. */
  lemma PieceSizeExact(g: Geometry, i: nat)
    requires ValidSizes(g) && i < g.count
    ensures SizeExceptLast(g) < g.total
    ensures PieceStart(g, i) < PieceEnd(g, i) <= g.total
    ensures PieceSizeOf(g, i) == PieceEnd(g, i) - PieceStart(g, i)
    ensures 0 < PieceSizeOf(g, i) <= g.pieceSize
  {
    PieceBounds(g, i);
    PieceBounds(g, g.count - 1);
    var product := g.pieceSize * (g.count - 1);
    assert product < g.total <= product + g.pieceSize;
    RemainderOfDifference(g.total, product);
    assert U32(product) <= product;
    hide U32, U64;
  }

  function PieceSizes(g: Geometry, k: nat): seq<nat> {
    seq(k, i requires 0 <= i < k => PieceSizeOf(g, i))
  }

  lemma {:induction false} FirstPieceSizes(g: Geometry, k: nat)
    requires ValidSizes(g) && k <= g.count
    ensures Sum(PieceSizes(g, k)) == Min(k * g.pieceSize, g.total)
  {
    if k > 0 {
      FirstPieceSizes(g, k - 1);
      PieceSizeExact(g, k - 1);
      assert PieceSizes(g, k)[..k - 1] == PieceSizes(g, k - 1);
    }
  }

  /** Together the pieces are as long as the content. */
  lemma PieceSizesSumToTotal(g: Geometry)
    requires ValidSizes(g)
    ensures Sum(PieceSizes(g, g.count)) == g.total
  {
    FirstPieceSizes(g, g.count);
    ValidSizesMeaning(g);
  }

  // ---- Making a client from a torrent file ----

  datatype TorrentClient = TorrentClient(meta: Metainfo, hashed: string, geometry: Geometry)

  datatype MakeResult = Made(client: TorrentClient) | ParseFailed(error: MetainfoError) | AssertionFailed

  function GeometryOf(m: Metainfo): Geometry {
    Geometry(PiecesCount(m), PieceSizeBytes(m), U64(Sum(Lengths(m))))
  }

  function MakeF(content: string): MakeResult {
    match ParseTorrentF(content)
    case Failure(error) => ParseFailed(error)
    case Success(info) =>
      if ValidSizes(GeometryOf(info.meta)) && info.infoPosition.start <= info.infoPosition.end <= |content| then
        Made(TorrentClient(info.meta, content[info.infoPosition.start..info.infoPosition.end], GeometryOf(info.meta)))
      else
        AssertionFailed
  }

  method Make(content: string) returns (r: MakeResult)
    ensures r == MakeF(content)
  {
    var torrent := TorrentFileParser.ParseTorrentFileContent(content);
    if torrent.Failure? {
      return ParseFailed(torrent.error);
    }
    AcceptedMetainfo(content);
    InfoSpanIsTheInfoValue(content);
    var TorrentFileInfo(meta, position) := torrent.value;
    var total := GetTotalSizeBytes(meta);
    var g := Geometry(PiecesCount(meta), PieceSizeBytes(meta), total);
    if g.count == 0 || g.pieceSize == 0 {
      return AssertionFailed;
    }
    var exceptLast := U64(g.pieceSize * (g.count - 1));
    if exceptLast >= g.total || g.total - exceptLast > g.pieceSize {
      return AssertionFailed;
    }
    return Made(TorrentClient(meta, content[position.start..position.end], g));
  }

  /** A client that was made has valid sizes, and what it hashes is the text of the info value of its torrent:
      the bencoding of one dictionary, the same value read from the file, complete and with nothing after it. */
  lemma MadeClient(content: string)
    requires MakeF(content).Made?
    ensures var client := MakeF(content).client;
            && client.meta == ParseTorrentF(content).value.meta
            && client.geometry == GeometryOf(client.meta)
            && ValidSizes(client.geometry)
    ensures ParseDictionaryF(content, 0).Ok?
    ensures Lookup(content, ParseDictionaryF(content, 0).value.entries, "info").Some?
    ensures var hashed := MakeF(content).client.hashed;
            var info := Lookup(content, ParseDictionaryF(content, 0).value.entries, "info").value;
            && 0 < info.pos.start < info.pos.end < |content|
            && hashed == content[info.pos.start..info.pos.end]
            && ParseElementF(hashed, 0, NoElement) == Ok(Rebase(info, info.pos.start), |hashed|)
            && info.EDict? && Value(hashed, Rebase(info, info.pos.start)) == Value(content, info)
  {
    hide ParseTorrentF, Lookup;
    InfoSpanIsTheInfoValue(content);
  }

  lemma GeometryOfNumbers(m: Metainfo)
    ensures GeometryOf(m)
         == Geometry((|m.pieces| / 20) % 0x1_0000_0000, m.pieceLength % 0x1_0000_0000,
                     Sum(Lengths(m)) % 0x1_0000_0000_0000_0000)
  {
  }

  /** The only rejections of a well-formed torrent are those of the size check: the total must lie in the last of
      as many pieces as there are 20-byte hashes. */
  lemma MadeExactly(content: string)
    ensures MakeF(content).Made? <==>
            && ParseTorrentF(content).Success?
            && ValidSizes(GeometryOf(ParseTorrentF(content).value.meta))
    ensures MakeF(content).Made? <==>
            && ParseTorrentF(content).Success?
            && (var m := ParseTorrentF(content).value.meta;
                var count, size := (|m.pieces| / 20) % 0x1_0000_0000, m.pieceLength % 0x1_0000_0000;
                var total := Sum(Lengths(m)) % 0x1_0000_0000_0000_0000;
                count > 0 && size > 0 && size * (count - 1) < total <= size * count)
    ensures ParseTorrentF(content).Failure? ==> MakeF(content) == ParseFailed(ParseTorrentF(content).error)
  {
    hide ParseTorrentF, Lookup, ValidSizes;
    if ParseTorrentF(content).Success? {
      InfoSpanIsTheInfoValue(content);
      GeometryOfNumbers(ParseTorrentF(content).value.meta);
      ValidSizesMeaning(GeometryOf(ParseTorrentF(content).value.meta));
    }
    hide GeometryOf;
  }
}
