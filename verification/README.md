# A model of the BitTorrent client

This project models what the command line client does between reading a `.torrent` file and leaving its
main loop, and proves what the finished files contain.

The model follows the program's parts.

- **Bencode** (`bencode*.dfy`): the recursive-descent parser as a class that moves a cursor over a buffer.
  Strings are (offset, length) views, so a view past the end of the buffer can be expressed, and the length
  test of the cursor is the one in the code (`start + count < end`), not the one that was meant. A grammar and a
  printer, neither of which mentions the parser, say what it accepts; `bencode_errors.dfy` says what it rejects, with which
  error and where.
- **Metainfo** (`torrent_file*.dfy`, `torrent_meaning.dfy`, `torrent_printer.dfy`): the one-shot key tables that fill a
  metainfo in place, a description of the accepted files that mentions no table and no order of evaluation, what a file
  means read off its tree, and a printer of torrent files.
- **Client** (`client.dfy`), **query string** (`query.dfy`), **bitfield** (`bitfield.dfy`): sizes in 32- and 64-bit
  arithmetic, the tracker's query encoder, and the piece bits of a peer.
- **Layout and disk** (`layout.dfy`, `disk*.dfy`): two binary searches and a clipping loop cut a byte range into
  parts of files; the output files are created, counted and closed by the writes themselves.
- **Scheduler** (`pieces.dfy`, `pieces_to_download.dfy`): the pieces handed out, returned and completed, and the
  code a peer's coroutine runs between two waits, as objects changed in place.
- **Download** (`download*.dfy`): a state machine in which any number of peers, over any number of tracker rounds,
  interleave at every wait. Who owns a piece is proved for peers that send anything; what the bytes are, for peers
  that are truthful: they answer their outstanding requests, in any order, and may choke, unchoke, announce pieces,
  stay silent or disconnect.
- **End to end** (`end_to_end.dfy`, `witnesses.dfy`): from the bytes of a torrent file to the bytes of the finished
  files, and torrent files that are accepted although their download cannot end well.

A method that changes state is proved equal to a function of the old state; the lemmas are about the functions. A
failed assertion of the program is an outcome (`None`, `false`, an aborted state), not a precondition, so that the
lemmas can say exactly when it happens; so is a write outside a received piece's buffer and a read past its data, which
the program does not notice.

## What holds, and when

The main result is `EndToEnd.FinishedFilesAreTheContent`: for every torrent file whose lengths sum to less than 2^64,
every content of the announced size, every directory and every run with truthful peers, when the main loop is left, each
piece has been written exactly once, all files are closed, laid end to end they are the content, and nothing else in the
directory was touched. `DownloadProgress.FinishIff`, `DownloadProgress.NeverAbortsIff` and
`DownloadProgress.CanAlwaysFinish` say when this can happen at all: exactly when the files are writable; then, and only
then, no run fails an assertion, and no state is lost, whatever the peers have sent before.

Several things the code could be thought to promise do not hold for all inputs. Each is proved with its exact
condition, and shown to fail at an input:

| the code | holds exactly when | member | fails for |
|---|---|---|---|
| the byte range of a piece, a product of two 32-bit numbers | the end of the piece, as if it were full, is below 2^32; for all pieces: piece count times piece size is below 2^32 | `Layout.PieceRangeIff`, `Layout.AllPiecesCutIff` | `Witnesses.AcceptedButNeverDownloaded`, 6 GiB in pieces of 2 GiB |
| at every moment before the program ends the files hold the bytes of the completed pieces | no piece that starts at or above 2^32 has a 32-bit range that can be cut and is as long as the piece (a shorter one ends the program, next row) | `DownloadMisplaced.DiskInRunsIff` | `Witnesses.LargeIsCorrupted`: the third of those pieces is written over the first, and no assertion fails |
| the bytes written come from the piece | the last piece does not start at or above 2^32, shorter than the others, with a 32-bit range of full size, its data ending inside a file and no empty file before that | `DownloadMisplaced.ReadPastIff` | `Witnesses.TrimmedIsReadPast`, 4 GiB and one byte |
| the assertions in the cut of a range into files | no file inside the range is empty; for all pieces: empty files come after the last byte | `Layout.IterateIff`, `Layout.AllPiecesCutIff` | `Witnesses.AcceptedButNeverDownloaded`, an empty file first |
| 64-bit file offsets in order | the lengths sum to less than 2^64 | `Layout.OffsetsOrderedIff` | `Witnesses.HugeOffsetsWrap` |
| the files of a torrent can all be created | the names of files with bytes are different, and each is that of a file, in a directory that exists, where there is neither a file nor a directory of that name | `DiskContent.WritingAllPieces` | `Witnesses.AcceptedButNeverDownloaded`, twice the same path; no name. `Witnesses.NestedNeedsItsDirectory`, a path with a directory, which the program does not create |
| a string parsed on its own lies in the buffer | its length is at most what is left | `BencodeGrammar.StringInBoundsIff` | `BencodeGrammar.StringOverrunExample`, `3:ab` |
| a dictionary with an announce and an info value is a torrent | announce comes before info, besides the checks on the values | `TorrentFileSpec.AcceptedExactly` | `Witnesses.OrderOfKeysMatters`; every printed torrent with its keys exchanged, `TorrentPrinter.InfoFirstIsRejected` |
| printing a parsed element gives back the text | no string length has leading zeros | `BencodePrinter.ReprintIff` | `Witnesses.LeadingZeroIsDropped`, `l01:ae` |

## Model

| member | source | states |
|---|---|---|
| EndToEnd.FinishedFilesAreTheContent | src/bittorrent_client/main.cpp:733-772 | For every torrent file whose lengths sum to less than 2^64, every content, directory and run with truthful peers: when the main loop is left, every piece was written once, every file is closed and holds its slice, the files end to end are the content, the counters add up to the total, nothing else in the directory changed |
| EndToEnd.FinishedByName | src/bittorrent_client/main.cpp:384-422 | The same in the torrent's own terms: a single file of that name is the content; of several, each with bytes holds, under its path, the bytes after those of the files before it |
| EndToEnd.DownloadableIff | src/bittorrent_client/main.cpp:733-772 | For lengths that sum to less than 2^64: some run of a given torrent finishes, and no run fails an assertion, if and only if its sizes stay below 2^32, its empty files come last, and its file names can be created and differ |
| EndToEnd.MadePlan | src/bittorrent_client/torrent_client.cpp:179-191 | The sizes, lengths and names of a client that was made fit together if and only if the lengths sum to less than 2^64, which holds for every single-file torrent |
| DownloadProgress.FinishIff | src/bittorrent_client/main.cpp:762-770 | A run that leaves the main loop exists if and only if the files are writable |
| DownloadProgress.CanAlwaysFinish | src/bittorrent_client/main.cpp:212-291 | With writable files, from every state a run has come to without being ended, whatever the peers have sent, failed to send or abandoned before, some continuation with truthful peers leaves the main loop |
| DownloadProgress.EndPeer | src/bittorrent_client/main.cpp:212-291 | From any point of a coroutine, whatever was received, some continuation ends it without touching the other peers and without losing a completed piece |
| DownloadRuns.ExitedMeansDownloaded | src/bittorrent_client/main.cpp:762-770 | With truthful peers, besides those assertions: every file is finished with its slice of the content |
| DownloadProgress.NeverAbortsIff | src/bittorrent_client/main.cpp:239-290 | No run with truthful peers fails an assertion if and only if the files are writable |
| DownloadMisplaced.DiskInRunsIff | src/bittorrent_client/main.cpp:500-508 | With usable names: in every reachable state of every content the files hold exactly the true bytes of the completed pieces, and zeros elsewhere, if and only if no piece of the torrent is misplaced, a condition on the sizes only; states after a read past the data of a piece are not among them |
| DownloadMisplaced.ReadPastIff | src/bittorrent_client/main.cpp:604-627 | With usable names: some run comes, without a failed assertion, to a write that reads past the data of its piece, if and only if the last piece is of that kind, a condition on the sizes only |
| DiskOverread.ReadPastIsOverread | src/bittorrent_client/main.cpp:604-627 | Whatever is on disk, and whatever the data: a piece whose write reads past its data is of that kind |
| DiskOverread.OverreadReadsPast | src/bittorrent_client/main.cpp:604-627 | Such a piece, written first, passes the assertions up to the part its data ends in, and that part is read past the end |
| DownloadMisplaced.MisplacedInRuns | src/bittorrent_client/main.cpp:500-508 | A misplaced piece can be the first one a truthful peer delivers: then no assertion has failed and the files do not hold its bytes |
| DownloadRuns.NeverAborts | src/bittorrent_client/main.cpp:239-290 | With writable files the invariant holds, and no assertion has failed, in any reachable state |
| DownloadRuns.SafeStep | src/bittorrent_client/main.cpp:212-360 | Every step of every peer keeps ownership, pipeline and disk contents; the only assertion that can fail is the disk refusing the piece just completed |
| DownloadRuns.RunsAreSafe | src/bittorrent_client/main.cpp:312-360 | The same for every state of every run, over any number of tracker rounds |
| DownloadOwnership.StepKeeps | src/bittorrent_client/main.cpp:132-291 | Whatever a peer sends, every step leaves each issued piece with exactly one owner, and the disk with some content of the torrent's size |
| DownloadRuns.ExitedMeansComplete | src/bittorrent_client/main.cpp:762-770 | Whatever the peers send, when the main loop is left the four assertions after it hold, each piece was completed exactly once, and the files hold some content of the announced size |
| DownloadRuns.PiecesAreCounted | src/bittorrent_client/main.cpp:132-203 | Whatever the peers send, in every state of a run the next index is the number of downloaded plus unfinished pieces, and the unfinished ones are those held plus those queued |
| DownloadRuns.PipelineInRuns | src/bittorrent_client/main.cpp:239-280 | In every reachable state the requests sent for a held piece are its first 16384-byte blocks in order, only the last shorter, the backlog is the number outstanding and at most 5, downloaded plus outstanding bytes are the requested bytes, and every answered byte is true |
| DownloadRuns.DiskInRuns | src/bittorrent_client/main.cpp:548-638 | If no piece of the torrent is misplaced: at every moment of a run, until the program ends, the files hold exactly the true bytes of the completed pieces and zeros elsewhere, and each counter is the number of those bytes |
| DownloadHistory.PeersAreHeard | src/bittorrent_client/main.cpp:262-277 | In every run, with any peers: a peer counts as unchoking exactly when its last Choke or Unchoke in the round was an Unchoke, and its pieces are those it connected with and those it has announced since |
| DownloadHistory.BitsAreThere | src/bittorrent_client/torrent_messages.cpp:67-80 | In every run a connected peer has at least the id byte of its bitfield, so the size from which one is subtracted is not zero |
| DownloadHistory.RequestsAreWelcome | src/bittorrent_client/main.cpp:242-259 | In every run, with any peers: a request is sent only to a peer whose last word was Unchoke, with a backlog below 5 |
| DownloadHistory.RequestIff | src/bittorrent_client/main.cpp:242-259 | In every reachable state a peer with an unfinished piece is sent a request exactly when it is unchoking, fewer than 5 are outstanding and not all is requested; it is the next block of 16384 bytes, or what is left |
| DownloadHistory.StopsExactly | src/bittorrent_client/main.cpp:762-770 | With any peers, a state that is not aborted has no next step if and only if the main loop has been left |
| DownloadHistory.RoundsHaveWork | src/bittorrent_client/main.cpp:762-765 | A round begins exactly when no coroutine is left and pieces are missing |
| DownloadSteps.MessageStep | src/bittorrent_client/main.cpp:262-277 | What the method for a message promises, read on the scheduler and the peer of a state, gives the next state of the machine, and it is aborted in the same cases |
| DownloadSteps.RequestStep | src/bittorrent_client/main.cpp:242-259 | The same for a request, or none, before a message is read |
| DownloadSteps.PopSteps | src/bittorrent_client/main.cpp:215-237 | The same for the pop-and-skip loop, one step of the machine for each pop |
| DownloadSteps.CompletionStep | src/bittorrent_client/main.cpp:280-290 | The same for a completed piece, the assertion on its size included |
| DownloadSteps.FailureStep | src/bittorrent_client/main.cpp:225-230 | A coroutine that ends gives back the piece it holds, and changes no other peer |
| DownloadSteps.OwnSteps | src/bittorrent_client/main.cpp:212-330 | Between two waits a coroutine has one way to go on, and it can fail only where it waits |
| DownloadSteps.ConnectionSteps | src/bittorrent_client/main.cpp:286-330 | A connection starts choking, with the bits of the peer, and goes on with another piece after one has been announced |
| DownloadSteps.RoundStep | src/bittorrent_client/main.cpp:312-360 | A round replaces the peers by new ones, choking and without bits, and changes nothing else |
| DownloadSafety.PopStep | src/bittorrent_client/main.cpp:217-237 | Taking a piece, or giving it straight back when the peer lacks it, keeps every piece with exactly one owner |
| DownloadSafety.SendStep | src/bittorrent_client/main.cpp:244-259 | A request is the next block of the piece |
| DownloadSafety.ReceiveStep | src/bittorrent_client/main.cpp:262-277 | No message of a truthful peer fails an assertion; a block answers one outstanding request, in any order, and leaves only true bytes |
| DownloadSafety.CompletePiece | src/bittorrent_client/main.cpp:280-284 | When the request loop ends, nothing is outstanding, the size is exact and the buffer is the true piece |
| DownloadSafety.CompleteStep | src/bittorrent_client/main.cpp:282-290 | A completed piece leaves the scheduler for good and is the true one; the state is aborted if and only if the disk refuses it |
| DownloadSafety.FailStep | src/bittorrent_client/main.cpp:225-230 | A coroutine that ends anywhere gives its piece back, reset, exactly once |
| DownloadSafety.NewRoundStep | src/bittorrent_client/main.cpp:335-360 | No piece is held between rounds: all unfinished pieces are queued |
| Pieces.NoPieceIff | src/bittorrent_client/main.cpp:132-166 | There is no piece for a peer if and only if all have been issued and the peer has none of the queued ones |
| Pieces.PopTakesTheFirst | src/bittorrent_client/main.cpp:151-175 | Once all pieces are issued, a pop takes the first queued piece the peer has, and giving it back puts it last with nothing lost or doubled |
| Pieces.PopSkipEnds | src/bittorrent_client/main.cpp:215-237 | The pop-and-skip loop ends with a piece the peer has, or because there is none for it |
| PiecesToDownload.Scheduler.PopPieceToDownload | src/bittorrent_client/main.cpp:132-166 | A new piece first, unasked; then the first queued piece the peer has; else none |
| PiecesToDownload.Scheduler.PopRetryPiece | src/bittorrent_client/main.cpp:146-165 | The search through the queue finds the first piece the peer has and removes it |
| PiecesToDownload.Scheduler.PushPieceToRetry | src/bittorrent_client/main.cpp:168-175 | The piece is reset and queued last |
| PiecesToDownload.Scheduler.OnPiecePartReceive | src/bittorrent_client/main.cpp:177-194 | Which blocks fail one of the three assertions, their sums in 32 bits, and which pass them and lie outside the buffer; any other lands at its offset in a buffer of the piece's size, all else unchanged, and is counted |
| PiecesToDownload.Scheduler.OnPieceDownloaded | src/bittorrent_client/main.cpp:196-203 | The piece is counted and handed to the files, and then forgotten, unless an assertion fails or its data is read past the end |
| PiecesToDownload.Scheduler.GetPieceSize | src/bittorrent_client/main.cpp:121-130 | The size computed with the wrapping product is the distance between the piece's ends |
| PiecesToDownload.NextPiece | src/bittorrent_client/main.cpp:215-237 | The loop does what the step-by-step description says, in at most one pop for each piece not yet issued and one more |
| PiecesToDownload.NextRequest | src/bittorrent_client/main.cpp:244-259 | A request is sent exactly when unchoked, below the backlog limit and with something left to request; it starts where the last one ended |
| PiecesToDownload.OnMessage | src/bittorrent_client/main.cpp:262-277 | What each message changes, and exactly which messages fail an assertion |
| PiecesToDownload.BlockOutcomeMeans | src/bittorrent_client/main.cpp:177-194 | Which blocks the three assertions refuse, in plain numbers, and that one they let pass lies outside the buffer exactly when the sum for its end has wrapped |
| Machine.ConversionsWrap | src/bittorrent_client/torrent_client.cpp:380-409 | The casts keep a number modulo 2^32 or 2^64 and bring it into the range of the type |
| Client.PieceSizeExact | src/bittorrent_client/main.cpp:121-130 | The piece size is the exact mathematical one and its assertion holds even when the 32-bit product wraps |
| Client.PieceSizesSumToTotal | src/bittorrent_client/main.cpp:121-130 | The sizes of all pieces add up to the total size |
| Client.ValidSizesMeaning | src/bittorrent_client/torrent_client.cpp:179-191 | The 64-bit checks hold if and only if the total lies in the last of count full pieces |
| Client.GetTotalSizeBytes | src/bittorrent_client/torrent_client.cpp:385-409 | The loop computes the sum of the lengths modulo 2^64 |
| Client.Make | src/bittorrent_client/torrent_client.cpp:160-193 | A client is made, a parse error returned, or an assertion fails, as described by the parts |
| Client.MadeExactly | src/bittorrent_client/torrent_client.cpp:160-193 | A client is made if and only if the torrent parses and its total, modulo 2^64, lies in the last of as many pieces as there are 20-byte hashes, count and size modulo 2^32; taking the info span never goes out of bounds |
| Client.MadeClient | src/bittorrent_client/torrent_client.cpp:173-175 | What is hashed is the text of the info value: it parses to the same value, a dictionary, complete and with nothing after it |
| Layout.MakeOffsets | src/bittorrent_client/main.cpp:384-422 | The loop's offsets are those of the recursive description, wrap-around included |
| Layout.OffsetsOrderedIff | src/bittorrent_client/main.cpp:405-413 | No file ends before it starts if and only if the lengths sum to less than 2^64 |
| Layout.LowerBound | src/bittorrent_client/main.cpp:432-433 | Binary search finds the first position that is at least the key |
| Layout.FindFiles | src/bittorrent_client/main.cpp:431-463 | The two searches and the step back find the two files, and fail where the assertions do |
| Layout.StartFoundIff | src/bittorrent_client/main.cpp:431-447 | The file found contains the first byte if and only if the byte is inside the content and no empty file starts there |
| Layout.IterateFiles | src/bittorrent_client/main.cpp:426-496 | The clipping loop produces the overlap of the range with each file between the two found |
| Layout.RangePartition | src/bittorrent_client/main.cpp:471-495 | The parts are in order and contiguous, each maps global to file offset, and their lengths sum to the range |
| Layout.PieceOfFile | src/bittorrent_client/main.cpp:471-492 | A file with bytes has a part in the cut exactly when it overlaps the range, and the part is that overlap; an empty file has an empty part when it starts strictly inside |
| Layout.IterateIff | src/bittorrent_client/main.cpp:426-496 | For a non-empty range inside the content, all parts are non-empty and no assertion fails if and only if no empty file lies in the range |
| Layout.PieceRangeIff | src/bittorrent_client/main.cpp:500-508 | The 32-bit range of a piece is the true one if and only if its full-size end is below 2^32 |
| Layout.CrossingPiece | src/bittorrent_client/main.cpp:504-505 | The piece that crosses 2^32 gets an end before its start |
| Layout.AllPiecesCutIff | src/bittorrent_client/main.cpp:500-508 | All pieces can be cut if and only if the sizes stay below 2^32 and empty files come last |
| DiskFiles.PhysicalFile.TryCreate | src/bittorrent_client/main.cpp:546-566 | An open file is left alone; otherwise it is created full size, unless the name is not that of a file, its directory does not exist, or a file or directory has it |
| DiskFiles.PhysicalFile.Write | src/bittorrent_client/main.cpp:568-580 | The bytes land at the offset, the file grows if needed, the counter advances |
| DiskFiles.PhysicalFile.TryFinalize | src/bittorrent_client/main.cpp:582-589 | The file closes exactly when the counter reaches its size; beyond it an assertion fails |
| DiskFiles.FilesOnDisk.OnWriteFilePiece | src/bittorrent_client/main.cpp:614-627 | One part is created, written and finalized in its own file, no other file changes; or an assertion fails; or the assertions hold and the write reads past the data |
| DiskFiles.FilesOnDisk.WritePiece | src/bittorrent_client/main.cpp:604-612 | A completed piece goes part by part to its files; the first part that fails an assertion or reads past the data stops it, and how it ends is told |
| DiskFiles.FilesOnDisk.TotalWritten | src/bittorrent_client/main.cpp:629-637 | The sum of the counters |
| Disk.CreatableIff | src/bittorrent_client/main.cpp:552-565 | A file can be created in a directory if and only if it has a base name, the directory exists, and neither a file nor a directory has its name, whatever the depth |
| Disk.OverwriteMeans | src/bittorrent_client/main.cpp:568-580 | What a write leaves at every offset, inside the file or past its end |
| Disk.PartIsCounted | src/bittorrent_client/main.cpp:568-627 | Whatever is on disk: a part that is written is counted, never beyond the size of its file, and closes the file exactly when it completes it |
| Disk.SegmentSteps | src/bittorrent_client/main.cpp:614-627 | A part that was not written before succeeds if and only if its file is open or its name can be created, adds exactly its offsets, and never writes to a closed file |
| DiskContent.PieceWritten | src/bittorrent_client/main.cpp:604-627 | A piece that was not written before is written if its range is the true one without empty files and the names are usable; and if it was written and is not misplaced, its range was the true one, and the disk of a set of pieces became the disk of that set with the piece |
| DiskContent.AllWritten | src/bittorrent_client/main.cpp:548-627 | The same for any sequence of different pieces: if none is misplaced, contents, counters and open files depend only on the set written |
| DiskContent.WrittenSomewhere | src/bittorrent_client/main.cpp:500-508 | Whatever is on disk, a piece that was written from its own data had its true range, or is one that starts at or above 2^32 and was misplaced |
| DiskContent.MisplacedIsWritten | src/bittorrent_client/main.cpp:500-508 | A misplaced piece is written without a failed assertion, and the bytes it should have filled are missing |
| DiskContent.WritingAllPieces | src/bittorrent_client/main.cpp:548-638 | Writing every piece once, in any order, succeeds if and only if the files are writable, and then every file is closed and holds its slice |
| Bitfield.MessageBitfield.HasPieceAt | src/bittorrent_client/torrent_messages.cpp:46-65 | The bit of the piece in the payload; false outside it |
| Bitfield.MessageBitfield.SetPieceAt | src/bittorrent_client/torrent_messages.cpp:67-80 | Sets that bit, or reports an index outside the payload and changes nothing |
| Bitfield.HasPieceMeans | src/bittorrent_client/torrent_messages.cpp:46-65 | Piece i is the bit of weight 128, 64, ... 1 of byte i/8 after the id byte |
| Bitfield.HasAfterHaves | src/bittorrent_client/torrent_messages.cpp:46-80 | After any sequence of Have messages a peer has the pieces it had and the in-range ones it named; id byte and length never change |
| Bitfield.PayloadBitsAfterHaves | src/bittorrent_client/torrent_messages.cpp:67-80 | Every payload bit is set if and only if it was set or some Have named it |
| Query.BuildQueryStr | src/bittorrent_client/torrent_client.cpp:101-119 | The stream holds '?' and the encoded entries joined by '&'; an entry without a key is an error |
| Query.Encode | src/bittorrent_client/torrent_client.cpp:50-99 | The two encoders, byte by byte |
| Query.EscapedExactly | src/bittorrent_client/torrent_client.cpp:22-99 | Letters, digits and a listed set of characters stand for themselves, '=' in values only; a space is '+'; every other byte is '%' and the two upper-case digits of its value |
| Query.EveryByteIsQuery | src/bittorrent_client/torrent_client.cpp:101-119 | Whatever the keys and values hold, every byte of the query is one that may stand there (section 3.4 of RFC 3986) |
| Query.JoinOfTwo | src/bittorrent_client/torrent_client.cpp:111-117 | Entries are separated by '&', wherever the list is cut in two |
| Query.EqualsIffValue | src/bittorrent_client/torrent_client.cpp:106-117 | '=' is written exactly when there is a value |
| Query.QueryRoundTrip | src/bittorrent_client/torrent_client.cpp:101-119 | Splitting on '&', then on the first '=', then decoding '+' and '%XX' gives back every list of entries with non-empty keys and arbitrary bytes (section 2.1 of RFC 3986, section 5.1 of the WHATWG URL Standard) |
| Query.PartsAreNotEmpty | src/bittorrent_client/torrent_client.cpp:106-117 | No part of the built string is empty, so a decoder that skips empty parts, as the WHATWG one does, agrees |
| Query.QueryInjective | src/bittorrent_client/torrent_client.cpp:101-119 | Different lists have different query strings |
| BencodeParser.Parser.Consume | src/bencoding/src/be_element_ref_parse.cpp:218-226 | Moves over the character if it is there |
| BencodeParser.Parser.ConsumeN | src/bencoding/src/be_element_ref_parse.cpp:228-236 | Moves by the count under the test as written, which looks at the start of the buffer |
| BencodeParser.Parser.ParseElement | src/bencoding/src/be_element_ref_parse.cpp:56-69 | Result, error position and cursor are those of the parsing function |
| BencodeParser.Parser.ParseInteger | src/bencoding/src/be_element_ref_parse.cpp:71-127 | The digit loop and the four textual checks are the description of a canonical integer |
| BencodeParser.Parser.ParseList | src/bencoding/src/be_element_ref_parse.cpp:129-152 | The loop computes the recursive description, errors included |
| BencodeParser.Parser.ParseDictionary | src/bencoding/src/be_element_ref_parse.cpp:154-178 | The loop computes the recursive description, errors included |
| BencodeParser.Parser.ParseString | src/bencoding/src/be_element_ref_parse.cpp:180-201 | Length, ':', and a view of the text that may end past the buffer |
| BencodeParser.Parser.ParseStringLength | src/bencoding/src/be_element_ref_parse.cpp:238-274 | The digits before the ':', or the error at the cursor |
| BencodeParser.Parse | src/bencoding/src/be_element_ref_parse.cpp:282-295 | The top-level loop computes the recursive description |
| BencodeParser.ParseDictionary | src/bencoding/src/be_element_ref_parse.cpp:321-327 | A dictionary at the start of the buffer |
| Bencode.ParseElementF | src/bencoding/src/be_element_ref_parse.cpp:56-69 | Every success spans from the old to the new cursor, at least two characters, and only a string can leave the cursor past the end |
| BencodeGrammar.ElementSound | src/bencoding/src/be_element_ref_parse.cpp:56-201 | A parse that stays in the buffer consumed a sentence of the grammar |
| BencodeGrammar.ElementComplete | src/bencoding/src/be_element_ref_parse.cpp:56-201 | Every sentence of the grammar, anywhere in any buffer, is parsed into its tree by consuming exactly its span |
| BencodeGrammar.ParsesExactlyTheGrammar | src/bencoding/src/be_element_ref_parse.cpp:56-201 | Both directions, for any element that stays in the buffer |
| BencodeGrammar.ContainerParsesExactlyTheGrammar | src/bencoding/src/be_element_ref_parse.cpp:129-178 | Both directions for lists and dictionaries, without that proviso: an overrun makes every enclosing container fail |
| BencodeGrammar.TopLevelParsesExactlyTheGrammar | src/bencoding/src/be_element_ref_parse.cpp:282-295 | The top level accepts exactly one or more sentences that fill the buffer, if the last stays in it |
| BencodeErrors.StringOutcome | src/bencoding/src/be_element_ref_parse.cpp:180-274 | Every string, accepted or not, by its digits and what follows them: each error and its position |
| BencodeErrors.StringOutOfBoundIff | src/bencoding/src/be_element_ref_parse.cpp:228-236 | A string token is out of bounds, for the parser, if and only if its length is at least that of the whole buffer |
| BencodeErrors.OverrunExactly | src/bencoding/src/be_element_ref_parse.cpp:180-201 | An element leaves the buffer exactly when it is a string shorter than the whole buffer and longer than what is left |
| BencodeErrors.IntegerOutcome | src/bencoding/src/be_element_ref_parse.cpp:71-127 | Every integer, accepted or not, by its sign, its digits and what follows them |
| BencodeErrors.NoElementStarts | src/bencoding/src/be_element_ref_parse.cpp:56-69 | The error at the end of the buffer, and at a character no element starts with |
| BencodeErrors.WrongStart | src/bencoding/src/be_element_ref_parse.cpp:71-160 | The errors of the functions called on another kind of element |
| BencodeErrors.ListFailsIff | src/bencoding/src/be_element_ref_parse.cpp:129-152 | A list is rejected, with an error, if and only if some elements parse and the next is bad with that error, or there is no end |
| BencodeErrors.DictionaryFailsIff | src/bencoding/src/be_element_ref_parse.cpp:154-178 | The same for dictionaries, with keys that are bad or no strings, and bad values |
| BencodeErrors.TopLevelExactly | src/bencoding/src/be_element_ref_parse.cpp:282-295 | The top level accepts exactly the elements that reach or pass the end of the buffer, and rejects the rest with the first error |
| BencodeGrammar.StringInBoundsIff | src/bencoding/src/be_element_ref_parse.cpp:228-236 | A parsed string is inside the buffer if and only if its length is at most what was left |
| BencodeGrammar.StringOverrunExample | src/bencoding/src/be_element_ref_parse.cpp:228-236 | `3:ab` is accepted on its own with a view past the end |
| BencodeGrammar.NodesAreNested | src/bencoding/src/be_element_ref_parse.cpp:27-54 | Every node below a parsed element is a sentence strictly inside its parent's span |
| BencodeGrammar.ItemSpans | src/bencoding/src/be_element_ref_parse.cpp:129-152 | Sibling spans are ordered, disjoint and inside the container |
| BencodeGrammar.EntrySpans | src/bencoding/src/be_element_ref_parse.cpp:154-178 | The same for keys and values |
| BencodePrinter.RoundTrip | src/bencoding/src/be_element_ref_parse.cpp:56-201 | Printing any tree of canonical integers, byte strings, lists and dictionaries with keys in any order, anywhere in a buffer, and parsing there gives the tree back and consumes exactly the print (bencoding section of BEP 3) |
| BencodePrinter.PrefixFree | src/bencoding/src/be_element_ref_parse.cpp:56-201 | No encoding is a prefix of another; different trees have different encodings |
| BencodePrinter.ConcatenationRoundTrip | src/bencoding/src/be_element_ref_parse.cpp:282-295 | The top level parses a concatenation of encodings into exactly those trees |
| BencodePrinter.ReprintIff | src/bencoding/src/be_element_ref_parse.cpp:180-201 | Printing what was parsed gives the consumed text back if and only if no string length has leading zeros |
| BencodePrinter.SpanLocality | src/bencoding/src/be_element_ref_parse.cpp:27-54 | Parsing only the span of any node of a parsed container gives the same node with shifted positions and consumes all of it |
| BencodePrinter.ContainerSizeBound | src/bencoding/src/be_element_ref_parse.cpp:129-178 | A parsed container has at most half as many nodes, and levels, as characters consumed |
| TorrentFileParser.MetainfoReader.InvokeParserOptionalKey | src/bencoding/src/be_torrent_file_parse.cpp:19-40 | The first waiting row of the key is used up, its handler run and its span recorded; other keys change nothing |
| TorrentFileParser.MetainfoReader.Dispatch | src/bencoding/src/be_torrent_file_parse.cpp:281-285 | The table run over a dictionary, stopping at the first error |
| TorrentFileParser.MetainfoReader.ParseAnnounce | src/bencoding/src/be_torrent_file_parse.cpp:42-52 | A non-empty string sets the URL |
| TorrentFileParser.MetainfoReader.ParseAnnounceList | src/bencoding/src/be_torrent_file_parse.cpp:54-84 | The non-empty strings of each tier are appended with the number of the tier, all else is skipped |
| TorrentFileParser.MetainfoReader.ParsePieces | src/bencoding/src/be_torrent_file_parse.cpp:106-119 | A non-empty string of a length divisible by 20 |
| TorrentFileParser.MetainfoReader.ParseLength | src/bencoding/src/be_torrent_file_parse.cpp:121-134 | A 64-bit number, unless length or files was read before |
| TorrentFileParser.MetainfoReader.JoinParts | src/bencoding/src/be_torrent_file_parse.cpp:136-160 | The parts separated by '/' |
| TorrentFileParser.MetainfoReader.ParseFilesFile | src/bencoding/src/be_torrent_file_parse.cpp:162-184 | One file's length and path, or the first error |
| TorrentFileParser.MetainfoReader.ParseFiles | src/bencoding/src/be_torrent_file_parse.cpp:186-235 | All files in order, or the first error |
| TorrentFileParser.MetainfoReader.ParseInfo | src/bencoding/src/be_torrent_file_parse.cpp:237-266 | The info table and the four conditions after it |
| TorrentFileParser.ParseTorrentFileContent | src/bencoding/src/be_torrent_file_parse.cpp:268-297 | The torrent table and the two positions after it |
| TorrentFileSpec.DispatchIsFirsts | src/bencoding/src/be_torrent_file_parse.cpp:19-40 | The one-shot table folded over any dictionary equals applying, in order of appearance, the handler of each key's first occurrence; later duplicates are ignored |
| TorrentFileSpec.InfoFirsts | src/bencoding/src/be_torrent_file_parse.cpp:237-266 | An info dictionary passes the table if and only if each known key has a good first value and not both length and files appear; the result does not depend on their order |
| TorrentFileSpec.InfoAccepted | src/bencoding/src/be_torrent_file_parse.cpp:237-266 | Info is accepted if and only if it is complete and good and the tracker URL has been read |
| TorrentFileSpec.BothLengthAndFilesRejected | src/bencoding/src/be_torrent_file_parse.cpp:121-134 | Both present are rejected, whichever comes first |
| TorrentFileSpec.AcceptedExactly | src/bencoding/src/be_torrent_file_parse.cpp:268-297 | Which files are accepted, with which metainfo, in terms of first occurrences only; announce must precede info |
| TorrentFileSpec.AcceptedMetainfo | src/bencoding/src/be_torrent_file_parse.cpp:255-260 | Every accepted torrent has a tracker URL, a positive piece length, hashes in a non-empty multiple of 20, and exactly one of length and files |
| TorrentMeaning.TorrentMeans | src/bencoding/src/be_torrent_file_parse.cpp:268-297 | For every text that starts with a dictionary, whatever its keys and values, the result is what its tree means: the same metainfo, or the same error |
| TorrentMeaning.InfoMeans | src/bencoding/src/be_torrent_file_parse.cpp:237-266 | The same for the info value |
| TorrentMeaning.FileMeans | src/bencoding/src/be_torrent_file_parse.cpp:196-218 | A file entry is its first length and its first path, wherever they stand and whatever else there is, or the error |
| TorrentMeaning.PathMeans | src/bencoding/src/be_torrent_file_parse.cpp:162-184 | A path is a list of non-empty strings, joined by '/' |
| TorrentPrinter.PrintedTorrent | src/bencoding/src/be_torrent_file_parse.cpp:268-297 | For every description of a torrent, with tiers of trackers and paths of any parts, that meets the checks, parsing the torrent file printed from it gives the metainfo described |
| TorrentPrinter.InfoFirstIsRejected | src/bencoding/src/be_torrent_file_parse.cpp:255-265 | The same file with info before announce is rejected, whatever it says |
| Witnesses.MadeTorrent | src/bittorrent_client/torrent_client.cpp:160-193 | The torrent file of a description whose sizes agree is made into a client with the metainfo described |
| Witnesses.AcceptedButNeverDownloaded | src/bittorrent_client/main.cpp:426-508 | Torrent files that are accepted and that no run finishes: too large, an empty file first, twice one name, no name |
| Witnesses.LargeIsCorrupted | src/bittorrent_client/main.cpp:500-508 | A torrent file, a content and a run with a truthful peer and no failed assertion in which the completed piece is not on disk |
| Witnesses.NestedNeedsItsDirectory | src/bittorrent_client/main.cpp:546-566 | A torrent with a file in a directory is accepted, and can be downloaded if and only if that directory exists and the names are free |
| Witnesses.TrimmedIsReadPast | src/bittorrent_client/main.cpp:604-627 | A torrent file, a content and a run with a truthful peer and no failed assertion whose next step reads past the only byte of a piece |
| Witnesses.HugeOffsetsWrap | src/bittorrent_client/main.cpp:405-413 | An accepted torrent file with a file that ends before it starts |
| Witnesses.OrderOfKeysMatters | src/bencoding/src/be_torrent_file_parse.cpp:255-265 | A torrent file that is accepted, and rejected with its two keys exchanged |
| Witnesses.LeadingZeroIsDropped | src/bencoding/src/be_element_ref_parse.cpp:180-201 | `l01:ae` parses and is printed `l1:ae` |
| TorrentFileSpec.InfoSpanIsTheInfoValue | src/bencoding/src/be_torrent_file_parse.cpp:32-37 | The recorded span is the bencoding of the info value and nothing else, as the info_hash of BEP 3 needs |

## Left out

- Sockets, timers, name resolution, HTTP and TLS: a wait is only a point where the state machine interleaves. A tracker
  round starts with any non-empty set of peers; the assertion that the tracker named one is not modelled.
- The content of answers: there is no hash check in the code, so what is proved about the bytes assumes that each block
  answers an outstanding request of that peer with the true bytes, and that no other message than keep-alive, choke,
  unchoke, have and piece arrives. Ownership, the counts and the assertions after the main loop assume nothing of peers.
- EndToEnd.FinishedFilesAreTheContent: for lengths that sum to less than 2^64. A multi-file torrent beyond that is
  accepted with wrapped offsets, which std::lower_bound is not defined for.
- EndToEnd.DownloadableIff: for lengths that sum to less than 2^64, for the same reason.
- Liveness: a peer that chokes and drops requests can stall forever, since requests are not repeated on the same
  connection. What is proved is that some continuation always finishes.
- DownloadSafety.SendStep: the counters change in the step that sends the request; in the code they change when the send
  has succeeded. Nobody else reads them in between.
- PiecesToDownload.Scheduler.OnPiecePartReceive: a block that passes the wrapping assertions and lies outside the buffer is
  reported as such; what the write outside the buffer does is not modelled, the state machine is aborted.
- PiecesToDownload.OnMessage: the same for such a block.
- PiecesToDownload.NextRequest: performed as one method; the wait for the socket inside it is not modelled.
- Win32 files: an in-memory map from names to bytes, in which a directory is an entry that ends in '/'. Backslashes,
  drives, '.' and '..', case, names the system reserves, disk space and sizes above 2^63 are not modelled. Creating a file
  that cannot be created makes the following seek fail, which the code asserts.
- DiskFiles.FilesOnDisk.OnWriteFilePiece: a read past the data is reported as such; what the program writes then, and
  does after it, is not modelled, the state machine is aborted.
- DownloadMisplaced.DiskInRunsIff: the same for a last piece whose write reads past its data.
- DiskContent.WrittenSomewhere: the same for such a piece, which does not count as written.
- Layout.FindFiles: std::lower_bound is used under its precondition, sorted offsets, hence for lengths that sum to less
  than 2^64; the step back before the first file, which cannot be needed, stays at the first.
- Layout.IterateFiles: likewise for lengths that sum to less than 2^64.
- BencodeParser.Parser.ConsumeN: offsets are mathematical integers, so the wrap-around of a pointer plus a 64-bit length is
  not modelled.
- BencodePrinter.RoundTrip: for buffers shorter than 2^64 characters, the range of the lengths the parser reads.
- TorrentPrinter.PrintedTorrent: for files shorter than 2^64 characters.
- ParseLength without std::from_chars, which accepts other texts.
- SHA1, random peer ids and the Url parser: only the bytes that are hashed, and the encoder of the query, are modelled.
- Query.BuildQueryStr: for at least one entry; with none the code dereferences the end of the query.
- Message codecs and framing, the compact peer list, tracker selection, progress output, error categories.
