# XIA content cache: models and proofs

Dafny models of the parts of this repository that carry the most logic, and proofs of what they
promise. `dafny verify dfyconfig.toml` checks everything.

| files | what they model |
|---|---|
| `Archive`, `ArchiveWriter`, `ArchiveTexts` | Click's reader and writer for `ar` archives, loop by loop, the exact result of reading back what was written, and the format the reader accepts, said without it |
| `Overlay`, `MulticastSource`, `Delivery`, `Draining`, `Deployments`, `Ordering` | the multicast overlay: the source's and the rendezvous points' (RPs') handlers on their tables, and the whole system of source, channels, RPs and hosts as a state machine whose every interleaving is a run |
| `Words`, `Crc32`, `Gf2` | the table-driven CRC-32, the shift register it speeds up, and polynomial division over GF(2) |
| `TetrisBoard`, `VictimChoice` | Neitris: clearing rows in place, and the recursive choice of a victim |
| `Framing`, `GameServer`, `GameStreams` | Neitris messages: packing, the two ways a byte stream is cut into messages, and the game server with its players, phases, queues and exceptions |
| `ChunkCopy` | storing a file as chunks, the text protocol that lists them, and the client that puts the file together again |
| `CidList` | a multicast file's list of chunk identifiers (CIDs) as text messages, from the source to an endhost |
| `Bitvector` | Click's bit vectors in 32-bit words, as sets of positions |
| `Checksum` | the Internet checksum of xping against section 1 of RFC 1071 |
| `SendQueue` | the chunk queue between any number of producing threads and the sending thread |
| `KernelLog`, `Provisions`, `RecvBuffer` | three bounded or growing buffers against the unbounded thing they stand for |
| `Basics`, `Sequences`, `Texts`, `Digits` | shared types, blocks of a sequence, splitting of text, numerals |

Code that updates things in place is modelled as classes and methods with loops. Each method is
proved to do what a function of its inputs and the old state says, and the promises are proved
about these functions.

Some promises turn out not to hold as they stand. For each there is the exact condition:

- `parse(unparse(ar))` returns the living members if and only if there is at least one, and each
  has a non-negative date, no slash in its name, and no NUL in a name short enough for the name
  field (`ArchiveWriter.RoundTrip`). What it returns otherwise is `ArchiveWriter.ParseUnparse`.
- The overlay delivers every command exactly once, in every trace of a deployment that has come to
  rest, if and only if no two RPs of the deployment are in one administrative domain (AD) and none
  may join twice (`Deployments.WorksExactly`). Two RPs in one AD break it because `RPLeave` clears
  hosts by AD, an RP that comes back because it keeps its table.
- A host that joins knows in the end the RP the source has for it, except when the source finds none
  and the host's unread mail ends with an RP from an earlier session
  (`Delivery.InformedHostJoins`, `Deployments.StaleRp`). Delivery does not depend on it.
- `ClearCompleted` leaves the board one expects if and only if no line was completed or no cell of a
  falling piece is in the top row; otherwise copies of those cells are left on top
  (`TetrisBoard.Board.ClearCompleted`).
- In a given state, the Neitris server does the same with a stream in two parts as with the whole,
  whatever the second part is, if and only if, up to the end of the first part or an exception, no
  message that is relayed has a length field below 3 (it would send whatever has arrived behind the
  message), and the socket is still read from at the end: joining while a game is on takes it off
  (`GameStreams.SplitsExactly`, `GameStreams.LateJoinDiffers`). Of streams of frames the same is said
  for any number of pieces (`GameStreams.PiecesExactly`).
- A message that is packed as it should be can still end the server with an exception; exactly which
  ones do is `GameStreams.Raises`, and `GameStreams.TurnOfFrame` proves it.
- The chunk-copy client writes exactly the server's file if and only if no two different parts of the
  file share a CID (`ChunkCopy.CopyFile`).
- An endhost that has no lists yet pulls exactly the CIDs that were sent if and only if no two
  different lists of the file have the same hash (`CidList.DeliveredExactly`); earlier lists count
  too once there are any (`CidList.Delivered`).
- The comment on `Bitvector::resize` says that added bits are false. After shrinking, bits that
  were cut off come back set, as far as they lie in words that were kept
  (`Bitvectors.Bitvector.Regrow`); `ResizeClean` says when a resize leaves no such bits behind.

Two more places where the code needs more than its comments say: `offset_or` with an empty operand
touches the word at `offset >> 5`, so that word must exist, and `operator|=` reads its operand up to
its own last word. Both are preconditions of the model.

## Model

| member | source | states |
|---|---|---|
| Digits.IntegerOfPrint | click-2.0.1/lib/args.cc:490-585 | Click's integer scanner, given a printed number and whatever cannot continue it, stops right after the numeral and yields the number, or the largest 32-bit integer if it is larger |
| Digits.AtoiOfPrint | applications/example/chunk_copy_server.c:141-142 | `atoi` undoes `%d`, stopping at the first character that is no digit |
| Digits.AtoiOfSigned | applications/example/chunk_copy_server.c:141-142 | the same with white space and a sign in front |
| Digits.PrintFits | click-2.0.1/lib/archive.cc:191-194 | a number below base^k prints in at most k digits, so it fits its field |
| ArchiveWriter.ReadNameText | click-2.0.1/lib/archive.cc:95-118 | a written name field is never taken for a long-name section, and is read as the name kept or as the length of the name in front of the data |
| ArchiveWriter.ReadTableName | click-2.0.1/lib/archive.cc:97-109 | for every table of names as GNU `ar` writes it and every entry, a header that refers to the entry by its offset is read as that name |
| ArchiveWriter.ReadNameSection | click-2.0.1/lib/archive.cc:83-90 | a long-name section is read whole, whatever stands in its unused fields; a second one is reported and replaces the first |
| Archive.Parse | click-2.0.1/lib/archive.cc:61-152 | for every text: the return code, the members pushed (also before an error) and all reports, in order, are those of the recursive reader `ParseText`, whose meaning is stated by the `ArchiveTexts` rows |
| ArchiveWriter.CheckName | click-2.0.1/lib/archive.cc:167-177 | the name is kept up to its first slash, and white space in the part kept is noticed |
| ArchiveWriter.UnparseMember | click-2.0.1/lib/archive.cc:166-205 | the text of one member and the size counted for it |
| ArchiveWriter.Unparse | click-2.0.1/lib/archive.cc:154-214 | the text is the magic followed by the living members' texts, the reports are one per slash in a name, and the counted size is the size written |
| ArchiveWriter.ReadMember | click-2.0.1/lib/archive.cc:76-206 | whatever follows it and whatever long-name section came before, a written member is read back as one section without complaint, and the cursor lands right behind it |
| ArchiveWriter.ParseUnparse | click-2.0.1/lib/archive.cc:61-214 | the exact result of reading back any archive that can be written: the living members in order, each with the kept name and the date as read; an archive without living members is refused |
| ArchiveWriter.RoundTrip | click-2.0.1/lib/archive.cc:61-214 | reading back yields exactly the living members without complaint if and only if there is one and all are faithful |
| ArchiveTexts.FieldExactly | click-2.0.1/lib/archive.cc:48-59 | a number field that is an optional sign and digits with single underscores between them, up to its end or a blank, is read as that number without complaint; every other field as -1 with one complaint |
| ArchiveTexts.PlainField | click-2.0.1/lib/archive.cc:48-59 | a printed number with nothing or a blank behind it is read as itself, cut off at the largest 32-bit integer |
| ArchiveTexts.SignedField | click-2.0.1/lib/archive.cc:48-59 | the same with a sign, cut off at both 32-bit limits |
| ArchiveTexts.GarbageBehind | click-2.0.1/lib/archive.cc:54-57 | a number with anything else behind it is read as -1, with one complaint |
| ArchiveTexts.NoNumber | click-2.0.1/lib/archive.cc:54-57 | so is a field that does not start with a number |
| ArchiveTexts.NameMeans | click-2.0.1/lib/archive.cc:95-118 | what a name field says: a name up to a slash or blank, the length of a name in the body, or a place in the long names, with the complaints when there is no such place |
| ArchiveTexts.PartRead | click-2.0.1/lib/archive.cc:76-145 | a complete section, field by field, is read whole whatever follows it: the member or the long names, and the complaints of each field in order |
| ArchiveTexts.ParseParts | click-2.0.1/lib/archive.cc:61-152 | of the magic, complete sections and any rest, exactly the sections' members and complaints come first, and the rest decides what follows |
| ArchiveTexts.AcceptsExactly | click-2.0.1/lib/archive.cc:61-152 | reading succeeds if and only if the text is the eight magic bytes and one or more complete sections |
| ArchiveTexts.RefusedExactly | click-2.0.1/lib/archive.cc:76-149 | where no complete section starts, reading fails: with which complaints and which members, for bytes too few for a header, a missing header magic, a size that is no number or past the end, a name longer than its body, and an odd body without its last byte |
| ArchiveTexts.NameWritten | click-2.0.1/lib/archive.cc:166-206 | names over 14 bytes or with a blank are written in front of the data, others into the field; an odd body gets a newline |
| ArchiveTexts.NumbersWritten | click-2.0.1/lib/archive.cc:188-194 | each number stands in its own field, in decimal or, for the mode, octal; a negative date as the unsigned number of the same 32 bits |
| Overlay.HandleKeepsSound | applications/multicast/multicast_source.c:444-620 | each of the four handlers keeps: every host's RP is registered and in the host's own AD |
| Overlay.AlwaysSound | applications/multicast/multicast_source.c:444-620 | the same after every request of every sequence of requests, with any number of RPs per AD |
| Overlay.EntryAfter | applications/multicast/multicast_source.c:444-620 | what each request does to the entry of any host, in every state: joining again leaves it alone, an RP that joins takes over those of its AD without one, an RP that leaves clears those of its AD, and only leaving removes it |
| MulticastSource.PushNew | applications/multicast/multicast_source.c:250-260 | the duplicate check: a list of distinct addresses stays one and gains the address |
| MulticastSource.MulticastSource.BuildControlRecvList | applications/multicast/multicast_source.c:234-266 | in every state the list names, exactly once, each host's RP or the host itself |
| MulticastSource.MulticastSource.BuildEndHostListForRP | applications/multicast/multicast_source.c:269-295 | the list names exactly once each host assigned to the RP |
| MulticastSource.MulticastSource.EndhostJoin | applications/multicast/multicast_source.c:444-500 | the new host table, an RP in the host's AD if there is one, and the two messages sent |
| MulticastSource.MulticastSource.EndhostLeave | applications/multicast/multicast_source.c:591-620 | the new host table and the message to the host's RP |
| MulticastSource.MulticastSource.RPJoin | applications/multicast/multicast_source.c:550-588 | the hosts of the AD without an RP are taken over, the RP is told exactly these, and every host it now has is told |
| MulticastSource.MulticastSource.RPLeave | applications/multicast/multicast_source.c:503-548 | hosts are cleared by AD, the RP goes, and exactly the hosts that had this RP are told |
| MulticastSource.MulticastRP.BuildEndhostControlRecvList | applications/multicast/multicast_rp.c:324-344 | the list names each host in the table exactly once |
| MulticastSource.MulticastRP.Receive | applications/multicast/multicast_rp.c:902-1020 | the table after a message, and one copy of a relayed command to each host in the table |
| MulticastSource.HostJoinsStep | applications/multicast/multicast_source.c:467-481 | the handler's table change and messages, put into their channels, are one step of the system |
| MulticastSource.HostLeavesStep | applications/multicast/multicast_source.c:591-620 | the same for a host that leaves |
| MulticastSource.RpJoinsStep | applications/multicast/multicast_source.c:550-588 | the same for an RP that joins |
| MulticastSource.RpLeavesStep | applications/multicast/multicast_source.c:503-548 | the same for an RP that leaves |
| Delivery.ConservedKept | applications/multicast/multicast_source.c:808-813 | every step keeps: of each command, each host that was a member when it was sent has exactly one copy, on its route or received, and nobody else has any |
| Delivery.MirroredKept | applications/multicast/multicast_rp.c:199-224 | every step keeps: once its queue is read, each registered RP's table is the set of hosts the source has assigned to it |
| Delivery.InformedHostJoins | applications/multicast/multicast_endhost.c:421-445 | a host that joins keeps everybody informed of their RPs if and only if an RP is found, it is known already, or its mail holds no RP from before |
| Delivery.InformedKept | applications/multicast/multicast_endhost.c:584-597 | every other step, and joining in that case, keeps: once its mail is read, each registered host knows the RP the source has for it |
| Delivery.InvariantKept | applications/multicast/multicast_source.c:444-620 | every step of the system, in any interleaving, keeps the whole invariant |
| Delivery.TablesAgree | applications/multicast/multicast_rp.c:199-257 | in every run, whenever nothing is on its way, each registered RP's table equals the source's hosts assigned to it |
| Delivery.ViewsAgree | applications/multicast/multicast_endhost.c:584-597 | in every run in which hosts join tidily, whenever nothing is on its way, each registered host knows its RP |
| Delivery.ExactlyOnce | applications/multicast/multicast_source.c:234-266 | in every run, whenever nothing is on its way, each command has been received exactly once by every host that was a member when it was sent, directly or through its RP, and by nobody else |
| Delivery.AtMostOnce | applications/multicast/multicast_source.c:234-266 | at no moment of any run has anybody received a command twice |
| Ordering.OrderedKept | applications/multicast/multicast_source.c:808-813 | with channels in order also from RPs to hosts, every step keeps: what a host has taken in, what is in the air and what is still to be sent on are together exactly what was sent along the route, in that order |
| Ordering.InOrder | applications/multicast/multicast_endhost.c:516-577 | in every such run, what a host has taken in along a route is what was sent along it first, in order and without a gap, and all of it whenever nothing is on its way |
| Ordering.WholeAnnouncement | applications/multicast/multicast_source.c:909-946 | a sequence of commands sent while a host was a member with the same RP or none reaches it whole, in order, with nothing else in between along the way |
| Ordering.SomeCopyArrives | applications/multicast/multicast_rp.c:902-1020 | keeping the order holds nothing up: while a copy is on its way, some copy can arrive |
| Ordering.RunOfSystem | applications/multicast/multicast_source.c:444-620 | these runs are runs of the system, so tables agree and delivery is exactly once in them too |
| Draining.SettlesWork | applications/multicast/multicast_rp.c:252-257 | in any order of arrivals there are at most as many as the work on its way, and nothing is left exactly after that many |
| Draining.EveryScheduleDelivers | applications/multicast/multicast_rp.c:902-1020 | after any run and in any order of arrivals: another one is possible until the work is done, and then every command has been received exactly once by every member and the tables agree |
| Deployments.ProperRun | applications/multicast/multicast_source.c:444-620 | every trace of a deployment with one RP per AD and no RP that joins twice is a run |
| Deployments.TwoRpsInOneAd | applications/multicast/multicast_source.c:517-531 | in every deployment with two RPs of one AD, each joining once, a trace comes to rest with a member that has received a command twice |
| Deployments.RpUsedAgain | applications/multicast/multicast_rp.c:863-878 | in every deployment with an RP that may join twice, a trace comes to rest with a host that has left and yet has received a command |
| Deployments.WorksExactly | applications/multicast/multicast_source.c:444-620 | for every deployment: all its traces that have come to rest have delivered every command exactly once if and only if no two RPs share an AD and none may join twice |
| Deployments.StaleRp | applications/multicast/multicast_endhost.c:584-588 | a run that has come to rest in which a host that joined again takes for its RP one that is gone |
| Crc32.TableStep | click-2.0.1/lib/crc32.c:77-80 | one table look-up is eight ticks of the shift register, for every accumulator, byte and generator |
| Crc32.Remainder | click-2.0.1/lib/crc32.c:50-57 | the inner loop of the table's generation is eight ticks from the byte at the top |
| Crc32.CrcTable.Generate | click-2.0.1/lib/crc32.c:45-59 | all 256 entries |
| Crc32.CrcTable.Update | click-2.0.1/lib/crc32.c:64-82 | for every accumulator and block the result is the bit-serial shift register's; the table is filled on first use |
| Crc32.CrcConcat | click-2.0.1/lib/crc32.c:64-82 | updating over two blocks in turn is updating over their concatenation |
| Crc32.BurstDetected | click-2.0.1/lib/crc32.c:21-34 | two equally long bit strings that differ only within 32 consecutive bits and give the same register are equal |
| Crc32.FourBytesDetected | click-2.0.1/lib/crc32.c:64-82 | two equally long blocks that differ only within at most four consecutive bytes and have the same CRC are equal |
| Crc32.AppendedChecks | click-2.0.1/lib/crc32.c:29-34 | four bytes after the data bring the accumulator to zero if and only if they are the data's CRC, most significant byte first |
| Gf2.Division | click-2.0.1/lib/crc32.c:49-58 | each tick is a step of long division: the dividend is a multiple of the generator plus the register |
| Gf2.RemainderUnique | click-2.0.1/lib/crc32.c:21-34 | division by a polynomial of degree 32 leaves only one remainder |
| Gf2.GeneratorPolynomial | click-2.0.1/lib/crc32.c:21-41 | the constant stands for the polynomial that the file's comment names |
| Gf2.CrcIsRemainder | click-2.0.1/lib/crc32.c:64-82 | for every accumulator and block the result is the remainder of accumulator·x^n plus data·x^32 |
| Gf2.CrcFromZero | click-2.0.1/lib/crc32.c:64-82 | from accumulator 0 it is the remainder of data·x^32, and nothing else is |
| TetrisBoard.Board.ClearLine | applications/neitris-46/neitris_class.py:265-272 | cell by cell: only those of a falling piece are left in the line, its powerups go to the cleared list in order, everything else stays |
| TetrisBoard.Board.MoveDown | applications/neitris-46/neitris_class.py:276-288 | a row and its powerups move one down onto a line without powerups, cell by cell, in place |
| TetrisBoard.Board.ShiftDown | applications/neitris-46/neitris_class.py:274-289 | the rows above a line that has been cleared move down by one, powerups with their cells, and what `ClearLine` leaves of the top row stays on top |
| TetrisBoard.Board.ClearIfComplete | applications/neitris-46/neitris_class.py:176-187 | a complete line is taken out, counted, and its powerups collected; an incomplete one changes nothing |
| TetrisBoard.SweepClears | applications/neitris-46/neitris_class.py:171-191 | sweeping any board from the top is dropping the complete rows, keeping the others in order, padding on top, and collecting each powerup of a complete row once |
| TetrisBoard.LeftCleared | applications/neitris-46/neitris_class.py:271-272 | the padding is empty rows if and only if nothing was completed or no falling cell is in the top row |
| TetrisBoard.Board.ClearCompleted | applications/neitris-46/neitris_class.py:171-191 | for every board: the board after it, when that is the expected one, the number of lines (none if and only if every line has an empty cell), the cleared powerups, and the walls untouched |
| VictimChoice.SomeoneEligible | applications/neitris-46/neitris_class.py:907-919 | on every roster the search has somewhere to stop |
| VictimChoice.WithinOneTurn | applications/neitris-46/neitris_class.py:893-923 | from every position there is an eligible entry within one turn of the list |
| VictimChoice.OneNearer | applications/neitris-46/neitris_class.py:917-921 | every recursive call starts one entry nearer to the same victim |
| VictimChoice.EligibleMeans | applications/neitris-46/neitris_class.py:907-919 | the search may stop at exactly the active entries other than oneself, and after a victim's death at nobody only if no other player is left |
| VictimChoice.Player.constructor | applications/neitris-46/neitris.py:362-373 | the game's way to set up a roster makes a valid one |
| VictimChoice.Player.FirstVictim | applications/neitris-46/neitris_class.py:865-888 | the first victim is the next player, not oneself, and nobody only when alone |
| VictimChoice.Player.PlayerLost | applications/neitris-46/neitris.py:391-401 | the roster stays valid when a player loses; a lost victim is replaced by the next active player, or by nobody if and only if none is left |
| VictimChoice.Player.ChangeVictim | applications/neitris-46/neitris_class.py:893-923 | the recursion ends and lands on the first eligible entry after the old victim in cyclic order |
| Framing.UnpackPack | applications/neitris-46/neitris_utils.py:35-46 | unpacking the front of a buffer and packing the fields again gives the frame back, byte for byte |
| Framing.FramesArePacked | applications/neitris-46/neitris_utils.py:35-40 | a byte string is a frame if and only if some fields are packed to it |
| Framing.CutUpKeeps | applications/neitris-46/neitris_cli.py:53-67 | the frames found and the rest make up the stream |
| Framing.CutUpLater | applications/neitris-46/neitris_cli.py:51-67 | cutting what has arrived and then the rest with what arrives next is cutting it all, wherever the stream was split |
| Framing.FramesFound | applications/neitris-46/neitris_cli.py:53-67 | of a sequence of frames and the start of another, both readers find exactly the frames and keep the start |
| Framing.ReadersAgree | applications/neitris-46/neitris_server.py:173-190 | client and server agree on the frame boundaries of everything that is packed |
| Framing.ChatReader.Receive | applications/neitris-46/neitris_cli.py:41-67 | after any data the queue and the buffer are what cutting everything received so far gives |
| GameServer.EffectKeeps | applications/neitris-46/neitris_server.py:195-304 | every message, in every state and also when it raises an exception, keeps: no two players share a socket or a number, numbers are 1 to 255, and every player has a queue |
| GameServer.Server.QueueFor | applications/neitris-46/neitris_server.py:264-266 | which connections a message is queued for, and that all others are left alone |
| GameServer.Server.FindPid | applications/neitris-46/neitris_server.py:198-209 | the nested loops find the smallest number no player has, or that all 255 are taken |
| GameServer.Server.PackInfo | applications/neitris-46/neitris_server.py:246-252 | the message packed in the loop's last turn lists every player, or packing it fails |
| GameServer.Server.Receive | applications/neitris-46/neitris_server.py:167-304 | all complete messages of a client are taken off and acted on, up to an exception; the rest stays in its buffer; other clients' buffers are left alone |
| GameServer.Server.ReceiveAll | applications/neitris-46/neitris_server.py:120-311 | the buffer and the whole state after any pieces of a stream, how many pieces are read before an exception or a refusal, and the other connections' buffers untouched |
| GameStreams.FewPlayers | applications/neitris-46/neitris_server.py:198-246 | there are never more players than the one-byte count in the list of players can hold |
| GameStreams.TurnOfFrame | applications/neitris-46/neitris_server.py:176-311 | a frame at the front of any buffer is taken off whole and does what its fields say; it raises an exception if and only if it is a start request or an end of game from somebody not registered, a start request that completes a list of players too long for one message, or a second attempt to join during a game |
| GameStreams.FrameQueues | applications/neitris-46/neitris_server.py:195-304 | what every frame makes of the queue of every connection: behind what waits, relayed frames byte for byte, the list of players, and ends of games; joining starts one's own queue anew |
| GameStreams.Joined | applications/neitris-46/neitris_server.py:195-222 | who joins gets the smallest free number, the name sent, and just the acknowledgement waiting, and nobody else is affected; nothing happens when no number is free |
| GameStreams.JoinUnpacked | applications/neitris-46/neitris_server.py:212-218 | the message waiting after a join unpacks to command 3 with, as its one-byte payload, the number the socket is entered under |
| GameStreams.RefusalUnpacked | applications/neitris-46/neitris_server.py:225-228 | the message waiting after a refusal unpacks to command 11 with the reason |
| GameStreams.JoinsNameless | applications/neitris-46/neitris_server.py:189-212 | joining with a length field below 3 is joining without a name |
| GameStreams.PlayersStart | applications/neitris-46/neitris_server.py:230-257 | a start request makes exactly its sender ready, and the game starts if and only if all others are |
| GameStreams.PlayersStop | applications/neitris-46/neitris_server.py:268-295 | an end of game makes exactly its sender not ready, and the game ends if and only if nobody else is still playing |
| GameStreams.TurnsLater | applications/neitris-46/neitris_server.py:167-190 | serving a smooth stream in two parts is serving it whole, exceptions included |
| GameStreams.SplitsExactly | applications/neitris-46/neitris_server.py:167-304 | in every state this holds for exactly the smooth streams: no relayed message with a length field below 3, and the socket still read from at the end, unless an exception comes first |
| GameStreams.HeardDiffers | applications/neitris-46/neitris_server.py:179-304 | a relayed message with such a length field that reaches another player is different already with four more bytes behind it |
| GameStreams.LateJoin | applications/neitris-46/neitris_server.py:223-229 | who asks to join during a game is refused, and nothing it sends in later pieces is read |
| GameStreams.LateJoinDiffers | applications/neitris-46/neitris_server.py:223-266 | so joining late and then sending a state is served differently in one part and in two |
| GameStreams.TurnsOverPieces | applications/neitris-46/neitris_server.py:120-190 | serving a steady stream piece by piece is serving it whole, wherever it is cut and into however many pieces |
| GameStreams.PiecesExactly | applications/neitris-46/neitris_server.py:120-311 | in whatever pieces a client's frames and the start of another arrive, they are served one by one along the changing state of the game up to the first exception: this holds for every cutting if and only if no frame follows one that is refused |
| GameStreams.ServerRelays | applications/neitris-46/neitris_server.py:120-324 | then each connection gets exactly what the frames send it, in order, behind what was waiting, and the start of the next frame stays in the buffer |
| GameStreams.ReadInfo | applications/neitris-46/neitris.py:327-359 | the players a client reads from any list, or the exception |
| GameStreams.PlayersLearned | applications/neitris-46/neitris.py:327-359 | from the list the server packs a client reads, under each number, the name of the player with that number, and nobody else |
| ChunkCopy.Store.XputChunk | api/xsocket/XputChunk.c:124-183 | a chunk is stored under the hash of its bytes; one that is too long or empty is not |
| ChunkCopy.NumChunks | api/xsocket/XputChunk.c:244-246 | the number worked out from the size is the number of chunks there will be |
| ChunkCopy.XputFile | api/xsocket/XputChunk.c:212-282 | the file is cut into chunks of the size asked for, of 2000 bytes when that is 0 and of 15600 when it is more; all are stored, their CIDs are listed in order, and the count check never fails; a missing file gives -1 |
| ChunkCopy.XputBuffer | api/xsocket/XputChunk.c:313-367 | the same chunks and list as for a file with these bytes, with the same limits |
| ChunkCopy.ChunkServer.GetFile | applications/example/chunk_copy_server.c:102-122 | the reply names the number of chunks, or the file that is not there |
| ChunkCopy.ChunkServer.ListBlock | applications/example/chunk_copy_server.c:131-148 | the reply lists the CIDs asked for, as far as there are any; a command without a colon fails |
| ChunkCopy.ChunkServer.Close | applications/example/chunk_copy_server.c:155-161 | exactly the listed chunks are removed |
| ChunkCopy.ChunkServer.Request | applications/example/chunk_copy_server.c:96-172 | what each command does to the list and the store, and the reply |
| ChunkCopy.CommandsRead | applications/example/chunk_copy_server.c:101-168 | a command is told by its first letters, one character behind them is skipped, and anything else is invalid |
| ChunkCopy.BlockMeans | applications/example/chunk_copy_server.c:131-148 | the answer to any request is the CIDs asked for, or as many as there are, in order |
| ChunkCopy.ReplyRead | applications/example/chunk_copy_client.c:107-124 | the client takes exactly those CIDs out of a reply that the server put in |
| ChunkCopy.ChunkList | applications/example/chunk_copy_client.c:107-124 | the request table is filled with the CIDs of the reply, within its ten places |
| ChunkCopy.GetFileData | applications/example/chunk_copy_client.c:95-188 | the chunks of a reply are appended in order; a chunk that cannot be had ends it |
| ChunkCopy.CopyBlock | applications/example/chunk_copy_client.c:255-269 | one round appends exactly the parts of the file it asked for |
| ChunkCopy.FoundExactly | applications/example/chunk_copy_client.c:169-185 | the chunks found under the CIDs of a file's parts make up the file if and only if no two different parts share a CID |
| ChunkCopy.CopyFile | applications/example/chunk_copy_client.c:239-282 | the client succeeds exactly when the file is there, and writes exactly the server's bytes if and only if no two different parts of the file share a CID; afterwards nothing of the file is left in the store |
| CidList.MulticastFile | applications/multicast/multicast_source.c:909-946 | the messages for any list text: one per block of `numXids` CIDs, then the file message with their hashes in order |
| CidList.BlocksOfCids | applications/multicast/multicast_source.c:909-923 | the source's cuts by length fall between CIDs, for every list of CIDs and every block size |
| CidList.CountPieces | applications/multicast/multicast_endhost.c:315-333 | there are as many pieces as bars, so the endhost's count check never fails |
| CidList.MulticastEndhost.BuildChunkDAGs | applications/multicast/multicast_endhost.c:152-182 | the array is filled exactly with the CIDs of the list |
| CidList.MulticastEndhost.PullChunksOneByOne | applications/multicast/multicast_endhost.c:312-344 | the CIDs of a list are pulled in order |
| CidList.MulticastEndhost.PullLists | applications/multicast/multicast_endhost.c:525-551 | the lists named in a file message are pulled in order |
| CidList.MulticastEndhost.Receive | applications/multicast/multicast_endhost.c:516-577 | the endhost's state after any control message |
| CidList.PullMessage | applications/multicast/multicast_endhost.c:572-577 | a `pullchunks` message makes the endhost pull exactly the CIDs in it, in order, behind what it pulled before, and changes nothing else |
| CidList.PullRpMessage | applications/multicast/multicast_endhost.c:578-583 | the same for `pullchunksrp` and the RP |
| CidList.OtherMessage | applications/multicast/multicast_endhost.c:515-599 | a message that starts with none of the four words changes no list, pulls nothing and writes nothing |
| CidList.InsertedFirst | applications/multicast/multicast_endhost.c:569 | under a list's hash stands what was there before, or else the first list sent with that hash |
| CidList.Announced | applications/multicast/multicast_endhost.c:516-570 | what an endhost with any earlier lists pulls and writes on an announcement |
| CidList.Delivered | applications/multicast/multicast_endhost.c:516-570 | without a hash clash it pulls exactly the CIDs sent, in order, and the file holds them |
| CidList.DeliveredExactly | applications/multicast/multicast_endhost.c:516-570 | an endhost without lists pulls exactly what was sent if and only if no two different blocks share a hash |
| Bitvectors.ShiftedBit | click-2.0.1/lib/bitvector.cc:175-189 | shifting words by words and bits is shifting the bits by the offset |
| Bitvectors.SpreadBit | click-2.0.1/lib/bitvector.cc:175-189 | words with shifted words or-ed in, bit by bit |
| Bitvectors.Bitvector.constructor | click-2.0.1/include/click/bitvector.hh:315-322 | a new vector has no bit set, in use or not |
| Bitvectors.Bitvector.Zero | click-2.0.1/lib/bitvector.cc:42-50 | true if and only if no bit is set |
| Bitvectors.Bitvector.ClearLast | click-2.0.1/lib/bitvector.cc:70-79 | exactly the unused bits of the last word are cleared |
| Bitvectors.Bitvector.Negate | click-2.0.1/lib/bitvector.cc:118-126 | the complement; unused bits stay clear |
| Bitvectors.Bitvector.AndWith | click-2.0.1/lib/bitvector.cc:128-137 | the intersection, also with itself |
| Bitvectors.Bitvector.XorWith | click-2.0.1/lib/bitvector.cc:151-160 | the symmetric difference, also with itself |
| Bitvectors.Bitvector.OrWith | click-2.0.1/lib/bitvector.cc:139-149 | the union, in a vector as long as the longer one |
| Bitvectors.Bitvector.SpreadWords | click-2.0.1/lib/bitvector.cc:162-190 | the loop: each word of the operand goes into two words, up to the last word of either vector |
| Bitvectors.Bitvector.OffsetOr | click-2.0.1/lib/bitvector.cc:162-190 | the union with the operand shifted by the offset; unused bits stay clear |
| Bitvectors.Bitvector.OrWithDifference | click-2.0.1/lib/bitvector.cc:192-205 | the union, and in `diff` exactly the elements that are new |
| Bitvectors.Bitvector.NonzeroIntersection | click-2.0.1/lib/bitvector.cc:207-218 | true if and only if the two sets meet, for vectors of any lengths |
| Bitvectors.Bitvector.EqualsMembers | click-2.0.1/include/click/bitvector.hh:101-108 | comparing whole words decides equality of length and set |
| Bitvectors.Bitvector.Resize | click-2.0.1/include/click/bitvector.hh:343-350 | which bits survive, for every state of the unused bits |
| Bitvectors.Bitvector.ResizeClean | click-2.0.1/include/click/bitvector.hh:84-88 | added bits are false when unused bits are clear, and they stay clear if and only if no set bit is cut off |
| Bitvectors.Bitvector.Regrow | click-2.0.1/lib/bitvector.cc:52-68 | after shrinking and growing, exactly the old bits below the new size in words that were kept are set |
| Checksum.FoldedFolds | applications/xping/xping.c:513-519 | two folds are enough for any sum an `int` holds |
| Checksum.InCksum | applications/xping/xping.c:487-520 | for every message of up to 65536 bytes, odd lengths too, the complement of the 16-bit one's-complement sum |
| Checksum.ChecksOut | applications/xping/xping.c:321-336 | a message with its checksum stored in an aligned zero field checks out as 0 |
| Checksum.ByteOrder | applications/xping/xping.c:487-520 | on a machine of the other byte order the number is byte-swapped |
| Checksum.SameBytesStored | applications/xping/xping.c:336 | both store the same two bytes into the message |
| SendQueue.InvariantKept | applications/multicast/multicast_rp.c:260-269 | every atomic step of every thread keeps mutual exclusion, the count of semaphore, owed posts and promised chunks, and the order; and it is defined |
| SendQueue.NeverEmptyAndInOrder | applications/multicast/multicast_rp.c:348-357 | in every interleaving the sender never takes the front of an empty queue, and sends the chunks in push order, each once |
| SendQueue.NothingForgotten | applications/multicast/multicast_rp.c:260-269 | no wake-up is lost: when no thread is in the middle of anything, the sender can go on if and only if something is left to send |
| KernelLog.KernelErrorHandler.MakeRoom | click-2.0.1/bsdmodule/module.cc:142-151 | what is left to make room: all, all but the first 2048 bytes, or nothing; how far the generation moves on; and that enough is left |
| KernelLog.KernelErrorHandler.Write | click-2.0.1/bsdmodule/module.cc:155-158 | the line and a newline are written within the buffer |
| KernelLog.KernelErrorHandler.LogLine | click-2.0.1/bsdmodule/module.cc:129-159 | the log grows by the line without a leading `chatter: `, and a newline; after any lines and clears the buffer holds the end of the log since the last clear, and at least its last 2048 bytes; while the generation stays the same the text only grows |
| KernelLog.KernelErrorHandler.ClearLog | click-2.0.1/bsdmodule/modulepriv.hh:38 | the log is empty again |
| Provisions.Table.FindProvision | click-2.0.1/lib/driver.cc:76-116 | no package's count changes, names stay distinct, when adding there is an entry for the name, and the table grows only when there is none and none can be used again |
| Provisions.Table.Provide | click-2.0.1/lib/driver.cc:119-125 | this package's count goes up by one and no other changes |
| Provisions.Table.Unprovide | click-2.0.1/lib/driver.cc:127-133 | this package's count goes down by one, not below zero, and no other changes |
| Provisions.Table.HasProvision | click-2.0.1/lib/driver.cc:135-140 | true if and only if the count is positive |
| RecvBuffer.SocketState.Data | api/xsocket/state.c:94-116 | the bytes handed out and the stash make up the old stash |
| RecvBuffer.SocketState.SetData | api/xsocket/state.c:118-133 | the new stash |
| RecvBuffer.SocketState.Xrecv | api/xsocket/Xrecv.c:56-115 | over any calls, bytes returned followed by the stash are the payloads taken from the transport, and nothing unread is discarded |

## Left out

- Sockets, protobuf messages, DAG parsing (`Graph`, `Node`), file and display I/O, process and thread creation, retries, timers, datagram loss and cache eviction: messages are values in lossless, ordered channels, and the store keeps what is put.
- Memory that cannot be allocated, and counters past the 32-bit range (`want_size`, `_generation`, `provided`, chunk offsets).
- ArchiveWriter.Unparse: numbers that do not fit their header fields are excluded by its precondition; there `sprintf` writes over the end of the field.
- Archive.Parse: the position and byte count in the texts of the reports; the kind of each report is kept.
- MulticastSource.MulticastSource.EndhostJoin: the handlers are atomic and walk their maps in an arbitrary order; the locks in them are not modelled.
- MulticastSource.MulticastRP.Receive: the text of overlay messages (`setrp|`, `ehlist|` and the like) is replaced by values; commands are told apart only by whether they are relayed. The RP's own file pulling and chunk lists, and `setrp` and `removerp` messages at an RP, are not modelled.
- Delivery.ExactlyOnce: under the conditions of a run, at most one RP per AD at a time and no RP address used again; `Deployments.WorksExactly` says for which deployments they are needed. Requests reach the source at once and are handled in one step with the host's own part of joining. The delivery theorems are about commands sent with `Multicast`, which looks up the recipients for each; `MulticastFile` looks them up once for all its messages, which is the same as long as the set of recipients does not change in between.
- Delivery.AtMostOnce: nothing is said about the order of commands that reach a host along different routes; along one route it is `Ordering.InOrder`.
- `BuildChunkRecvList`, `BuildEndHostChunkRecvList` and the other list builders of source and RP: the same loop over other fields.
- TetrisBoard.Board.ShiftDown: a line that still has powerups on it; `ClearCompleted` clears it first.
- TetrisBoard.Board.MoveDown: the same.
- GameServer.Server.Receive: connections that are accepted or closed, the timers (`GAMESTART`, `INCRSPEED`, and with them the step from `Starting` to `Playing`) and the sending of queued messages; the dictionary of clients is walked in the order of its entries, which decides only the order of players in a list.
- GameStreams.ServerRelays: frames that follow a refused request to join are excluded; whether they are served depends on the pieces (`GameStreams.PiecesExactly`).
- ChatWrite, drawing, keys, shapes and powerup effects of Neitris.
- ChunkCopy.ChunkServer.Request: bytes left in the command buffer by an earlier, longer command; every command is one whole text. A `block` command whose first number is negative is excluded.
- ChunkCopy.GetFileData: the wait until chunks are ready, and the DAG text around each CID.
- CidList.MulticastEndhost.Receive: a file message that names a list the endhost was never sent; the code looks behind the end of its map there. Which RP is asked, and the `setrp` and `removerp` messages that change it, are `Delivery`'s `Notice`.
- CidList.MulticastEndhost.PullChunksOneByOne: fetching the chunks' bytes; a file is the sequence of CIDs whose chunks are in it.
- Bitvectors.Bitvector.OrWithDifference: a `diff` that is one of the operands.
- Checksum.InCksum: messages over 65536 bytes, for which the sum can leave the range of an `int`.
- Provisions.Table.FindProvision: the `loaded` flag of user-level builds with dynamic linking.
- `MSG_PEEK`, peer addresses, XSSL, xwrap, the xcache slices, clickfs and the HTTP programs.
