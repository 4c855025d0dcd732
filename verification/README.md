# A verification model of QSP

QSP links DMR and P25 repeaters. Most of it is wiring; the parts modelled here are small, closed and easy to
get wrong: the polynomial arithmetic that found the packet CRC, the goroutine that carries audio to and from
Zello, the queue in front of it, the rate conversion, the access lists, the vocoder packets and the protocol
that shares one vocoder, stored passwords, the writer of finished calls, and the USRP codec.

`dafny verify dfyconfig.toml` checks the whole project.

## How it is arranged

| files | what they model |
|---|---|
| `Gf2`, `Crc`, `CrcSolve`, `PacketCrc` | polynomials over GF(2), the bit-serial CRC, the solver, and the CRC it found |
| `Pump`, `PumpSession`, `Sessions`, `Losses` | the pump's variables and bridge calls; a whole session under every interleaving; what happens to audio between sessions; when a loss is reported |
| `FrameQueue`, `QueueWakeup` | the bounded queue as a class with its history; the same queue under concurrent calls |
| `Resample`, `Repacketise` | the filters and the 20 ms / 60 ms conversion |
| `Decimal`, `Access` | numerals and white space; entries, merging, lookup and printing of access lists |
| `AmbePacket`, `AmbeReply`, `AmbeClient` | field tables, builder and reader; reply decoding; one caller's view of the client |
| `VocoderChannel`, `VocoderLimits`, `Supervisor` | one client shared by goroutines over a losing link; exactly where its two promises end; the life of a supervised channel |
| `Pbkdf2`, `Password` | key derivation of section 5.2 of RFC 8018; the stored text and what is done with it |
| `CallWriter` | the shutdown protocol of the call writer |
| `Usrp`, `AudioTypes`, `Bytes`, `Sequences`, `Wrappers` | the datagram codec and what the others share |

Objects whose methods update fields are classes, each with a function or a ghost history that its methods are
proved against; loops over slices are loops over arrays or sequences. Protocols between goroutines are step
relations, where a run is any sequence of steps from the initial state and a result is a lemma over all runs.

Python's integers are natural numbers here and `^`, `<<` and `bit_length` are defined on them. Octets are the
integers 0 to 255. Go's 16-, 32- and 64-bit integers are ranges, with wrap-around written out where the code can
reach it. Filter arithmetic is over reals, in the order the code does it; since no law of addition is used, only
that the same window gives the same output, rounding would change no proof.

## Where the code and what is said of it differ

* `AmbePacket`: the builder is described as refusing to assemble a malformed packet. It checks neither the contents
  of a variable-length field nor that the body fits the sixteen-bit header length. `PacketReadsBackExactlyWhen` gives
  the exact condition, `BuildDoesNotCheckVariableFields` and `LongBodyLosesTheBoundary` the two ways it fails. Every
  packet the client builds meets it (`AmbeClient`).
* `VocoderChannel`: `Close` releases before it closes the socket, as if it held the channel. One call at a time is
  kept by every such release that finds no holder or a socket already closed (`OneCallAtATime`), and lost by the first
  that finds a holder and an open socket (`ReleaseDoesHarmExactlyWhen`); `CloseLetsASecondCallIn` is such a run.
* `VocoderChannel`: replies of a client not yet marked answer their own requests (`RepliesAreAttributed`). The mark does
  not end it by itself: with nobody waiting, the next request can be given another's reply exactly when something is
  still under way (`NextReplyCanBeStaleExactlyWhen`), as in `LateReplyIsTakenForTheNext`.
* `Access`: what a list prints parses to the same list for every parsed list. The zero list prints as an empty deny
  list, a different value that allows the same IDs (`ZeroListPrintsAsDeny`).
* `Pbkdf2`: the standard stops where the block index no longer fits four octets; the code goes on and repeats itself
  (`BlocksRepeatPastTheLimit`).
* `Password`: a fresh hash asks to be hashed again exactly when the policy's own iteration count is positive and below
  the least accepted (`RehashSettlesExactlyWhen`).

## Model

| member | source | states |
|---|---|---|
| Gf2.RemainderUnique | scripts/crc-solve.py:82-85 | division with remainder over GF(2) has one answer, so a remainder may be named by its properties |
| Gf2.BitXor | scripts/crc-solve.py:132-132 | each bit of an exclusive-or is the sum of the two bits modulo two |
| CrcSolve.ModIsRemainder | scripts/crc-solve.py:82-85 | for a non-zero divisor the subtraction of shifted copies ends in something of smaller degree, congruent to what it began with |
| CrcSolve.PMod | scripts/crc-solve.py:82-85 | the loop computes that remainder |
| CrcSolve.GcdDivisors | scripts/crc-solve.py:88-91 | the divisors of pgcd's result are exactly the common divisors of its arguments |
| CrcSolve.PGcd | scripts/crc-solve.py:88-91 | the loop computes that greatest common divisor |
| Crc.StepIsTimesX | scripts/crc-solve.py:144-144 | one turn of the register multiplies by x modulo x^32 + poly |
| Crc.CrcIsRemainder | scripts/crc-solve.py:139-145 | the bit-serial CRC of n octets is the remainder of M(x) x^32 + init x^(8n) on division by x^32 + poly |
| Crc.ComputeCrc | scripts/crc-solve.py:139-145 | the nested loops compute that CRC |
| Crc.PairDifference | scripts/crc-solve.py:7-10 | for two messages of one length the initial value cancels: the polynomial divides D(x) x^32 + R(x) |
| CrcSolve.OrdersUndoThemselves | scripts/crc-solve.py:101-107 | each of the four octet orders is a rearrangement that undoes itself, at any length |
| CrcSolve.OrderPlaces | scripts/crc-solve.py:101-107 | which octet goes where under each of the four orders, an unpaired last octet and a short last word included |
| CrcSolve.StoredOctets | scripts/crc-solve.py:108-113 | the weight of each of the four octets under each way of keeping a CRC |
| CrcSolve.ReversedBit | scripts/crc-solve.py:94-98 | bit k of a reflected number of n bits is bit n - 1 - k of the number |
| CrcSolve.SampleBits | scripts/crc-solve.py:123-128 | a sample's length, message and CRC bit by bit, reflected or not |
| CrcSolve.TermsListPairs | scripts/crc-solve.py:130-133 | the terms are those of the pairs of one length and different messages, each pair once, in the order of the combinations |
| CrcSolve.GcdOfDivisors | scripts/crc-solve.py:129-133 | what divides the accumulated g is exactly what divides every pair term |
| CrcSolve.GcdOfIsGcd | scripts/crc-solve.py:129-133 | g is the greatest common divisor of the terms |
| CrcSolve.GcdUnique | scripts/crc-solve.py:12-14 | terms have one greatest common divisor, so the result does not depend on the order of the pairs |
| CrcSolve.AccumulateWith | scripts/crc-solve.py:130-133 | one sample against all later ones, skipping pairs of different length or equal message |
| CrcSolve.Accumulate | scripts/crc-solve.py:129-133 | g and the count of pairs after every usable combination |
| CrcSolve.Shortest | scripts/crc-solve.py:118-118 | the least stream length, which bounds the starts tried |
| CrcSolve.TryArrangement | scripts/crc-solve.py:122-135 | one arrangement adds a hit exactly when it has two pairs and a degree-32 divisor |
| CrcSolve.Solve | scripts/crc-solve.py:116-136 | the hits of the whole search: a hit is among them exactly when every stream has an octet between its start and the CRC, it has two pairs, and its g is their degree-32 greatest common divisor |
| CrcSolve.HitsExactly | scripts/crc-solve.py:116-136 | the same for any number of starts |
| CrcSolve.HitsInOrder | scripts/crc-solve.py:118-136 | the hits are in the order of the nested loops, each arrangement at most once |
| CrcSolve.PolynomialDividesPair | scripts/crc-solve.py:7-12 | initial value and output mask both cancel between messages of one length |
| CrcSolve.PolynomialDividesTerms | scripts/crc-solve.py:7-13 | if one CRC generates every stream's stored value, its polynomial divides every term |
| CrcSolve.HitIsThePolynomial | scripts/crc-solve.py:12-17 | then a degree-32 result is that polynomial, for any number of streams of any length, any initial value and any mask |
| CrcSolve.HitExactlyWhen | scripts/crc-solve.py:129-135 | an arrangement reports that polynomial exactly when it has two pairs whose terms have no common factor beyond it, and otherwise nothing |
| PacketCrc.PacketCRC | internal/dmrfec/datablocks.go:213-229 | an odd length is refused; otherwise the CRC over the octets in swapped pairs |
| PacketCrc.VerifyPacket | internal/dmrfec/datablocks.go:237-250 | a packet is sound exactly when it has an even length of at least four and its last octets c are c0 + 2^8 c1 + 2^16 c2 + 2^24 c3 equal to the CRC of the rest; otherwise what is wrong |
| PacketCrc.SolverFindsThePacketCrc | internal/dmrfec/datablocks.go:189-203 | a hit over packets that verify, under the arrangement found, names 0x04c11db7 |
| PacketCrc.SharedPrefixIsInvisible | scripts/crc-solve.py:24-26 | octets every stream begins with cancel: the terms are the same with the region starting before or after them |
| PacketCrc.HitAtBothStarts | scripts/crc-solve.py:24-26 | so a hit at one of those starts is a hit at the other, with the same polynomial |
| Pump.Connector.DoRelease | cmd/qsp-zello/connector.go:285-292 | a release is called only if a stream is open, and leaves it closed whatever the bridge answers |
| Pump.Connector.DoStopRadio | cmd/qsp-zello/connector.go:293-300 | the same toward QSP, naming the stream being played |
| Pump.Connector.DoPlay | cmd/qsp-zello/connector.go:301-307 | a packet is played and its stream and time are kept |
| Pump.Connector.DoFrame | cmd/qsp-zello/connector.go:319-349 | what a release, a keyup and an audio frame each do, with the keyup working or not |
| Pump.Connector.DoTick | cmd/qsp-zello/connector.go:402-410 | a tick closes what has been quiet longer than its timeout |
| Pump.Connector.DoStop | cmd/qsp-zello/connector.go:378-401 | the drain plays all that is queued and ends, closed channel or not, and only then is the stop acted on |
| Pump.Connector.DoReturn | cmd/qsp-zello/connector.go:308-311 | the radio side is released and the stream toward QSP stopped |
| Pump.FrameReachesTheBridge | cmd/qsp-zello/connector.go:319-349 | exactly what is called for a frame, told from the trace: audio reaches the bridge whenever a stream is open or can be opened |
| Pump.FrameAgrees | cmd/qsp-zello/connector.go:319-349 | a frame keeps the variables in step with the calls made and the calls bracketed |
| Pump.TickAgrees | cmd/qsp-zello/connector.go:402-410 | after a tick nothing is open that had been quiet longer than its timeout |
| Pump.TickEndsOnlyTheQuiet | cmd/qsp-zello/connector.go:402-410 | a direction is open after a tick exactly when it was and its latest frame or packet is no older than its timeout; nothing else is called |
| Pump.ActOnStopAgrees | cmd/qsp-zello/connector.go:399-401 | a stop ends only the stream of the latest packet |
| Pump.StopEndsOnlyItsStream | cmd/qsp-zello/connector.go:399-401 | a handled stop ends the open transmission exactly when it is of its stream, and leaves the radio side alone |
| Pump.PlayOpens | cmd/qsp-zello/connector.go:301-307 | a packet is played at once and its stream is then open |
| Pump.PlayAllCalls | cmd/qsp-zello/connector.go:385-398 | a drain plays what is queued, in order, and calls nothing else |
| Pump.ReturnAgrees | cmd/qsp-zello/connector.go:308-311 | the trace of a pump that has returned has neither direction open |
| PumpSession.StepInv | cmd/qsp-zello/connector.go:313-412 | every step of reader, pump and clock keeps where each packet is, in what order they leave, and what handled stops imply |
| PumpSession.RunInv | cmd/qsp-zello/connector.go:274-413 | so it holds in every reachable state of every interleaving |
| PumpSession.PlayedBeforeStop | cmd/qsp-zello/connector.go:378-384 | when a stop has been acted on, every packet sent before it has been played, unless a full channel dropped it |
| PumpSession.NeverPlayedAfterStop | cmd/qsp-zello/connector.go:378-384 | every packet played after that was sent after the stop |
| PumpSession.NoPlayAfterHandledStop | cmd/qsp-zello/connector.go:378-384 | a stream that sends nothing after its stop is never played again |
| PumpSession.StoppedStreamIsNotOpen | cmd/qsp-zello/connector.go:399-401 | and is not the transmission open toward QSP |
| PumpSession.RunTruthful | internal/zello/session.go:408-488 | what is played and handled is what was sent, on the stream it was sent on |
| PumpSession.EveryDropWasFull | internal/zello/session.go:436-472 | a message was dropped only when its channel was full as it was read |
| PumpSession.NoStopIsForgotten | cmd/qsp-zello/connector.go:359-401 | every stop read is queued, being drained for, handled or was dropped by a full channel, and stops are handled in the order they were sent |
| PumpSession.EveryArmCanBeTaken | cmd/qsp-zello/connector.go:313-412 | any arm of the select that is ready can be taken, and a stop taken starts a drain |
| PumpSession.ReaderNeverWaits | internal/zello/session.go:436-472 | the reader can always take the next message, whatever is full |
| PumpSession.CallsAreBracketed | cmd/qsp-zello/connector.go:285-349 | in every run frames follow a successful keyup with no release since, a stop names the latest packet's stream, and a returned pump leaves nothing open |
| PumpSession.SilenceIsEnded | cmd/qsp-zello/connector.go:54-77 | with ticks on time a silent stream is open no longer than its timeout and a tick, half a second before QSP would end it |
| PumpSession.DrainNeverStalls | cmd/qsp-zello/connector.go:385-398 | the drain can always take a turn, and on an empty channel it is over, closed or not |
| PumpSession.DrainIsBounded | cmd/qsp-zello/connector.go:385-398 | while the reader goes on adding packets, a drain takes no more turns than there is work left |
| Sessions.EveryRunInv | cmd/qsp-zello/connector.go:189-270 | in every run of sessions, failed logons and waits the queue's history, the frames played and the count of discarded frames agree |
| Sessions.NothingStaleIsPlayed | cmd/qsp-zello/connector.go:262-267 | no frame that came before a session opened is given to its pump |
| Sessions.EveryFrameIsAccountedFor | cmd/qsp-zello/connector.go:435-450 | frames are played in the order they came, and each is played, waiting, counted as discarded, or lost |
| Sessions.EveryPhaseGoesOn | cmd/qsp-zello/connector.go:189-270 | frames come in every phase, and each phase can go on to the next |
| Losses.Spell.Pushed | cmd/qsp-zello/connector.go:178-187 | a push begins a spell as judged from the history of pushes |
| Losses.WarnsExactlyWhenQuietBefore | cmd/qsp-zello/connector.go:164-173 | a warning is due exactly when this push lost a frame and none was lost in the five seconds before |
| FrameQueue.Queue.constructor | internal/audio/queue.go:22-26 | at least one frame always fits, whatever limit is asked for |
| FrameQueue.Queue.Wake | internal/audio/queue.go:97-102 | after a wake a token is there, whether or not it was |
| FrameQueue.Queue.Oldest | internal/audio/queue.go:41-47 | the loop finds the first audio frame, or the first frame when all are signals |
| FrameQueue.Queue.Push | internal/audio/queue.go:38-56 | the new history, a token, and whether a frame was lost |
| FrameQueue.Queue.Pop | internal/audio/queue.go:60-75 | the oldest frame and the rest, a token when frames are left, or the zero frame and false |
| FrameQueue.Queue.Discard | internal/audio/queue.go:82-88 | empties the queue, counts what it held, sends no token |
| FrameQueue.Queue.Lost | internal/audio/queue.go:91-95 | how many frames have ever been given up |
| FrameQueue.EveryRunConserves | internal/audio/queue.go:38-95 | over every run each frame pushed is popped, held, discarded or lost, once |
| FrameQueue.FramesAreConserved | internal/audio/queue.go:90-95 | and the counts add up |
| FrameQueue.EveryRunIsOrdered | internal/audio/queue.go:8-13 | over every run at most the limit is held, popped and then held are in the order pushed, and audio given up is older than all audio held |
| FrameQueue.WhatAPushGivesUp | internal/audio/queue.go:33-56 | the newest frame is kept at the end; when full exactly one frame goes, the first that is keyed and has samples, or the first of all when none is |
| QueueWakeup.StepInv | internal/audio/queue.go:38-102 | every step of every goroutine keeps that held frames have a token, a pending signal or a reader on its way, and that the history is a sequence of whole calls |
| QueueWakeup.EveryRunInv | internal/audio/queue.go:77-79 | no interleaving loses a wakeup |
| QueueWakeup.InterleavingsAreSound | internal/audio/queue.go:38-88 | conservation, order and eviction hold under every interleaving |
| QueueWakeup.RoundIsSteps | internal/audio/queue.go:60-79 | receive, pop and the signal owed are steps of one reader |
| QueueWakeup.AnyoneMayPush | internal/audio/queue.go:38-88 | any goroutine may push, which leaves a signal owed, or discard |
| QueueWakeup.ReaderSeesEveryFrame | internal/audio/queue.go:60-79 | from any quiet point a reader that takes one frame a token gets every frame held, in order |
| Resample.Clamp | internal/audio/resample.go:171-185 | the nearest sample, saturating at full scale on either side |
| Resample.ClampIsMonotone | internal/audio/resample.go:171-185 | saturation never turns a louder input into a quieter sample |
| Resample.Convolve | internal/audio/resample.go:163-169 | the accumulation over the taps |
| Resample.DotOfImpulse | internal/audio/resample.go:163-169 | one sample among zeros gives that sample times the tap it meets |
| Resample.DotAdds | internal/audio/resample.go:163-169 | signals that are added are filtered separately |
| Resample.UpOfImpulse | internal/audio/resample.go:103-119 | going up one sample comes out as the taps at twice its value, from twice its place |
| Resample.DownOfImpulse | internal/audio/resample.go:140-160 | going down one sample comes out as every second of the taps |
| Resample.Feed | internal/audio/resample.go:113-114 | the in-place shift and store |
| Resample.FilterIsCausal | internal/audio/resample.go:163-169 | an output of the whole-signal convolution depends on nothing after its place |
| Resample.Upsampler.Reset | internal/audio/resample.go:97-101 | after a reset the filter is as new |
| Resample.Upsampler.Up | internal/audio/resample.go:109-119 | each call returns exactly what comes next of the convolution of the whole zero-stuffed signal over leading zeros |
| Resample.Downsampler.Reset | internal/audio/resample.go:133-138 | after a reset filter and phase are as new |
| Resample.Downsampler.Down | internal/audio/resample.go:149-160 | each call returns exactly the next even positions of the filtered whole, whatever the lengths of the calls before |
| Resample.UpInPieces | internal/audio/resample.go:82-119 | from a reset, for every way of cutting a signal into calls the outputs of Up join to the whole |
| Resample.DownInPieces | internal/audio/resample.go:133-160 | the same for Down, pieces of odd length included |
| Repacketise.Packer.constructor | internal/audio/repacketise.go:56-61 | a new packer holds nothing |
| Repacketise.Packer.Reset | internal/audio/repacketise.go:69-73 | filter and block are reset together |
| Repacketise.Packer.Add | internal/audio/repacketise.go:77-95 | a frame of the wrong length changes nothing; otherwise all the audio made is handed over or held, and the third frame gives a block of 960 |
| Repacketise.Packer.Flush | internal/audio/repacketise.go:104-113 | what is held and only the silence that fills the block, or nothing |
| Repacketise.PackTransmission | internal/zellobridge/bridge.go:186-284 | for any frames, of which those of a wrong length are refused, the blocks are all 960 samples and join to the upsampled whole of the rest and the silence reaching a boundary |
| Repacketise.Unpacker.Reset | internal/audio/repacketise.go:136-139 | filter and remainder are reset together |
| Repacketise.Unpacker.Add | internal/audio/repacketise.go:149-160 | whole frames out, the remainder carried and shorter than a frame, nothing padded |
| Repacketise.Unpacker.Flush | internal/audio/repacketise.go:166-174 | the remainder and the silence that fills its frame, or nothing |
| Repacketise.UnpackTransmission | internal/zellobridge/bridge.go:292-370 | for any blocks the pieces join to the downsampled whole and the silence reaching a frame |
| Access.EntryGrammar | internal/access/access.go:136-188 | an entry is accepted exactly when white space around one numeral, or two with a hyphen, spells the span it becomes, within the field's ceiling and above zero |
| Access.CanonicalIsUnique | internal/access/access.go:190-217 | sorted spans with a gap between any two are determined by the IDs they name |
| Access.SortSpans | internal/access/access.go:198-203 | the array is sorted by lo and hi and keeps its spans |
| Access.FoldInto | internal/access/access.go:205-215 | one turn of the compaction in the array, leaving every unread span alone, the 32-bit sum included |
| Access.Compact | internal/access/access.go:204-216 | the whole compaction, in the array it reads |
| Access.FoldAllIsCanonical | internal/access/access.go:204-216 | folding sorted spans leaves them sorted, apart and not touching |
| Access.FoldAllKeepsIDs | internal/access/access.go:204-216 | and naming exactly the same IDs |
| Access.Merge | internal/access/access.go:194-217 | merge gives the canonical form of the IDs it was given |
| Access.Parse | internal/access/access.go:106-134 | accepted exactly when mode and every entry are; then the canonical form of what the entries cover; else the error of the first thing wrong |
| Access.ParsedListsAgree | internal/access/access.go:106-134 | entries covering the same IDs give the same list |
| Access.ParsedListDecides | internal/access/access.go:106-134 | the mode and entries as written decide every ID: a permit list lets through what its entries cover, any other list the rest |
| Access.NumberErrors | internal/access/access.go:168-188 | exactly which numbers are missing, not numerals, too large or zero |
| Access.EmptyIsAllSpace | internal/access/access.go:137-140 | an entry is called empty exactly when it is white space |
| Access.SingleErrors | internal/access/access.go:142-146 | without a hyphen the entry is the number |
| Access.RangeErrors | internal/access/access.go:148-165 | a range reports its low end first, then its high end, then that it runs backwards |
| Access.NamesID | internal/access/access.go:232-238 | the binary search decides exact membership |
| Access.Allows | internal/access/access.go:223-229 | a permit list allows what it names and any other list what it does not |
| Access.PermissiveMeansEveryID | internal/access/access.go:240-245 | Permissive holds exactly when every 32-bit ID is allowed, for parsed lists and the zero list |
| Access.Entries | internal/access/access.go:259-269 | one entry a span |
| Access.EntryText | internal/access/access.go:259-269 | a single ID is printed alone and a range with a hyphen |
| Decimal.FormatHasNoLeadingZero | internal/access/access.go:259-269 | what is printed has no leading zeros |
| Access.EntryReadsBack | internal/access/access.go:255-269 | what is printed for a span parses to that span |
| Access.EntriesRoundTrip | internal/access/access.go:255-269 | Parse of a parsed list's mode and entries is that list and no other |
| Access.ZeroListPrintsAsDeny | internal/access/access.go:247-258 | the zero list prints as an empty deny list, which allows the same IDs |
| AmbePacket.Build | internal/ambe/packet.go:37-62 | accepted exactly when every field is known to the type and as long as its table says; then the framed body; else the first refusal |
| AmbePacket.FramedLayout | internal/ambe/packet.go:53-61 | the packet octet by octet: start, length, kind, body |
| AmbePacket.BuildableExactly | internal/ambe/packet.go:42-52 | a field is accepted exactly when the first entry of its table with its identifier has its length or none |
| AmbePacket.OtherKindsAreUnknown | internal/ambe/fields.go:227-237 | only three kinds have tables |
| AmbePacket.SpeechD | internal/ambe/packet.go:93-105 | a count and big-endian samples, for 156 to 164 of them |
| AmbePacket.SpeechLayout | internal/ambe/packet.go:93-105 | the octets of a SPEECHD field |
| AmbePacket.ChannelFieldExactly | internal/ambe/packet.go:113-123 | a bit count from 40 to 192 with the fewest octets that hold it, and nothing else |
| AmbePacket.FieldsReadBackExactlyWhen | internal/ambe/fields.go:62-66 | a reader that knows only the tables recovers the fields exactly when each tells its own length |
| AmbePacket.FixedFieldsAreDelimited | internal/ambe/packet.go:44-48 | every fixed-length field the builder accepts does |
| AmbePacket.SpeechFieldIsDelimited | internal/ambe/packet.go:88-105 | so does what SpeechD makes |
| AmbePacket.ChannelFieldIsDelimited | internal/ambe/packet.go:107-123 | and what Chand makes |
| AmbePacket.BuildDoesNotCheckVariableFields | internal/ambe/packet.go:44-48 | a variable field with the wrong bytes is accepted and leaves the reader inside it |
| AmbePacket.HeaderTellsLength | internal/ambe/packet.go:57-61 | the header carries the body length modulo 65536, and so the length exactly when it is smaller |
| AmbePacket.PacketReadsBackExactlyWhen | internal/ambe/packet.go:19-28 | a packet comes back alone and whole exactly when its fields tell their lengths and its body fits the header |
| AmbePacket.LongBodyLosesTheBoundary | internal/ambe/packet.go:57-61 | a longer body leaves the reader short of the packet's end |
| AmbePacket.NeverMidField | internal/ambe/packet.go:19-62 | any sequence of packets that Build accepts, with bodies that fit the header and fields of fixed length or from SpeechD and Chand, is recovered from its bytes, packets and fields, to the last byte |
| AmbePacket.ParityByte | internal/ambe/packet.go:139-145 | the exclusive-or of everything after the start byte |
| AmbePacket.WithParity | internal/ambe/packet.go:151-157 | two bytes longer, a right length right again, the rest kept, and the parity of the result is zero |
| AmbePacket.ParityCatchesOneByte | internal/ambe/packet.go:128-138 | a packet that differs from it in one byte after the start does not have that parity |
| AmbeReply.HeaderExactly | internal/ambe/reply.go:18-26 | a reply has a header exactly when it is what Build frames around a body that is not empty |
| AmbeReply.AckedFieldExactly | internal/ambe/reply.go:29-40 | an acknowledgement is exactly 61 00 02 00, the field and the status |
| AmbeReply.ChannelFrameRoundTrip | internal/ambe/reply.go:91-109 | a channel frame put into a packet is read back, bit count and bytes, with or without a leading 0x40 |
| AmbeReply.ChannelFrameExactly | internal/ambe/reply.go:91-109 | and a reply is read as a channel frame only if it was made from that frame |
| AmbeReply.SpeechReplyFromResponse | internal/ambe/reply.go:278-322 | the loop over the fields of a reply |
| AmbeReply.SpeechReplyRoundTrip | internal/ambe/reply.go:278-322 | any SPEECHD and CMODE fields in any order are read back, signed samples and flags, the last of each |
| AmbeReply.SpeechReplyExactly | internal/ambe/reply.go:278-322 | a reply is read exactly when it was made of such fields with samples among them |
| AmbeReply.PartOctets | internal/ambe/reply.go:305-311 | samples and flags as they stand in a packet |
| AmbeReply.LastPartCounts | internal/ambe/reply.go:278-322 | the last samples and the last flags are the ones reported |
| AmbeReply.NarrowReaderExactly | internal/ambe/reply.go:119-140 | the narrow reader takes exactly one SPEECHD field of 156 to 164 samples |
| AmbeReply.SpeechReadersAgree | internal/ambe/reply.go:119-140 | where the narrow reader answers the full one gives the same samples and no flags |
| AmbeClient.Client.Exchange | internal/ambe/client.go:448-464 | one packet is sent and its reply returned; any failure marks the client |
| AmbeClient.Client.SetRate | internal/ambe/client.go:303-309 | the rate is set exactly when the answer is 61 00 02 00 09 00, and anything else marks the client |
| AmbeClient.Client.Acquire | internal/ambe/client.go:282-321 | a held channel refuses and names its holder; otherwise rate and init in that order, and the holder stays exactly when the rate was answered 61 00 02 00 09 00 and the init answered |
| AmbeClient.Client.Release | internal/ambe/client.go:328-328 | the channel is given up, held or not |
| AmbeClient.Client.Close | internal/ambe/client.go:435-438 | nobody holds it and the socket is closed, after which no call sends anything |
| AmbeClient.Client.Encode | internal/ambe/client.go:340-366 | nothing is sent without the channel or with a wrong number of samples; what is sent, returned and counted otherwise |
| AmbeClient.Client.Decode | internal/ambe/client.go:381-407 | the same for a channel frame |
| AmbeClient.ControlPacketsAreBuilt | internal/ambe/client.go:303-315 | the rate and init packets are such packets |
| AmbeClient.ControlBytes | internal/ambe/client.go:303-315 | the rate and init packets octet by octet |
| AmbeClient.SpeechPacketIsBuilt | internal/ambe/client.go:344-351 | so is every speech packet Encode sends |
| AmbeClient.ChannelPacketIsBuilt | internal/ambe/client.go:385-392 | and every channel packet Decode sends |
| AmbeClient.SpeechPacketCarries | internal/ambe/client.go:344-351 | a speech packet reads back as the samples given |
| AmbeClient.ChannelPacketCarries | internal/ambe/client.go:385-392 | a channel packet reads back as the bits given |
| AmbeClient.ClientNeverWedgesTheChip | internal/ambe/packet.go:19-28 | a chip fed by a client, whatever calls were made of it, reads whole packets to the last byte |
| VocoderChannel.EveryRunKeepsWire | internal/ambe/client.go:40-47 | until something fails the wire carries at most the one request that is awaited |
| VocoderChannel.RepliesAreAttributed | internal/ambe/client.go:40-47 | a reply taken by a client not yet marked broken answers the request it was taken for |
| VocoderLimits.NextReplyCanBeStaleExactlyWhen | internal/ambe/client.go:441-464 | marked or not, from any reachable state with nobody waiting and an open socket the next request can be given another's reply exactly when a request or reply is still under way |
| VocoderLimits.LateReplyIsTakenForTheNext | internal/ambe/client.go:71-74 | a run in which a late reply is taken for the next request, after the mark |
| VocoderChannel.EveryRunKeepsCalls | internal/ambe/client.go:282-328 | while every release inside Close takes the channel from nobody, at most one call has it, every frame is sent by a ready call, and over an open socket the holder is the one call acquiring or holding |
| VocoderChannel.OneCallAtATime | internal/ambe/client.go:31-38 | then at most one call has the channel, and over an open socket it is the holder |
| VocoderChannel.FramesFollowRateAndInit | internal/ambe/client.go:295-319 | every frame follows, within its own call, a rate that was sent and then accepted and an init sent after that and then answered; each answer taken before any failure answers that very request |
| VocoderChannel.ReadyMeans | internal/ambe/client.go:295-319 | the five events in the log in that order, with no call taking or giving the channel since the first |
| VocoderChannel.RefusedRateMarks | internal/ambe/client.go:303-308 | once a rate has been refused the client is marked, or the call that was refused is about to mark it |
| VocoderLimits.ReleaseDoesHarmExactlyWhen | internal/ambe/client.go:435-438 | after releases that took the channel from nobody, one more can lead to two calls at once exactly when it finds a holder and the socket is open |
| VocoderLimits.CloseLetsASecondCallIn | internal/ambe/client.go:435-438 | a run in which Close's release lets a second call in while the first still has the channel |
| Supervisor.Channel.OpenOnce | internal/ambe/supervisor.go:168-194 | an open channel is left alone; otherwise one attempt is counted and its result kept |
| Supervisor.Channel.Close | internal/ambe/supervisor.go:197-204 | the client is closed, socket and all, and let go |
| Supervisor.Channel.Turn | internal/ambe/supervisor.go:113-165 | a broken client is replaced by a newly opened one or none, a working one is left, and none left is broken |
| Supervisor.Channel.ClientFor | internal/ambe/supervisor.go:221-237 | a broken client is never handed out |
| Supervisor.OneRound | internal/ambe/supervisor.go:113-165 | whether or not the client broke since, after a turn the one kept is sound, and every earlier one had broken and is closed with nobody holding it |
| Supervisor.KeepOpen | internal/ambe/supervisor.go:113-165 | over any run the loop warns exactly where the outage rule says, a client is replaced only after it broke, and at the end every client opened is closed and no other was touched |
| Supervisor.WarnedOncePerOutage | internal/ambe/supervisor.go:142-155 | between two warnings a client has been open and has broken |
| Supervisor.WarnsExactlyAtTheFirstFailure | internal/ambe/supervisor.go:113-155 | a warning is given exactly for the first failed attempt, at the start or after an open client has broken |
| Pbkdf2.Block | internal/auth/password.go:236-256 | the inner loops compute T_i, in two buffers that are overwritten |
| Pbkdf2.Derive | internal/auth/password.go:227-259 | the result is the first octets of T_1, T_2, ... for every iteration count and key length |
| Pbkdf2.BlockIsParity | internal/auth/password.go:244-256 | each bit of T_i is the parity of that bit over U_1 to U_c |
| Pbkdf2.ChainStart | internal/auth/password.go:236-246 | U_1 is over the salt and the four octets of the index, most significant first, and every later U over the one before |
| Pbkdf2.KeyOctet | internal/auth/password.go:227-259 | octet j of a key is octet j mod hLen of T_(j / hLen + 1) |
| Pbkdf2.ShorterKeyIsPrefix | internal/auth/password.go:227-259 | a shorter key is a prefix of a longer one |
| Pbkdf2.IndexIsExactlyEncoded | internal/auth/password.go:239-243 | the index octets are the index exactly while it fits in four octets |
| Pbkdf2.BlocksRepeatPastTheLimit | internal/auth/password.go:236-243 | beyond the standard's limit the blocks repeat |
| Password.DecodeUndoesEncodeExactlyWhen | internal/auth/password.go:185-220 | decode gives back what encode wrote exactly when the algorithm has no dollar sign, the count is positive and salt and key are not empty |
| Password.DecodeGrammar | internal/auth/password.go:190-220 | exactly which texts are read, and as what |
| Password.AtoiExactly | internal/auth/password.go:203-206 | exactly which texts are whole numbers |
| Password.StoredText | internal/auth/password.go:110-139 | a stored hash as it is written, with the defaults |
| Password.Hash | internal/auth/password.go:118-139 | refused when the policy refuses the password or no salt can be drawn; otherwise the text of the record with defaults applied |
| Password.Verify | internal/auth/password.go:145-162 | the verdict on a password and any text |
| Password.VerifyAcceptsExactly | internal/auth/password.go:141-162 | a stored hash accepts its own password, and another exactly when it is not too long and derives the same record |
| Password.VerdictOnRecord | internal/auth/password.go:145-162 | the verdict on any record: algorithm first, then length and key |
| Password.AcceptedMeansDerived | internal/auth/password.go:145-162 | a password is accepted exactly against a readable record it derives; a text that cannot be read says why |
| Password.RehashExactlyWhenWeaker | internal/auth/password.go:164-183 | a hash made under one policy needs another under a second exactly when it has fewer iterations than that or than the least accepted, or a shorter salt or key |
| Password.RehashOfRecord | internal/auth/password.go:164-183 | so does any record of another algorithm, and any text that cannot be read |
| Password.RehashSettlesExactlyWhen | internal/auth/password.go:164-183 | a fresh hash needs another exactly when the policy's count is positive and below the least accepted |
| CallWriter.EveryRunInv | cmd/qsp/app.go:1906-1948 | mutex, flags, channel and worker stay in step under every interleaving |
| CallWriter.AcceptedExactlyWhen | cmd/qsp/app.go:1926-1937 | a call is accepted when nothing has been stopped and there is room, and only then or by a waiting worker |
| CallWriter.EveryCallGoesOn | cmd/qsp/app.go:1925-1946 | any goroutine may call, takes a free mutex, and returns from stop when the worker is done |
| CallWriter.NeverPanics | cmd/qsp/app.go:1925-1947 | no send meets a closed channel and it is closed once |
| CallWriter.RecordedInOrder | cmd/qsp/app.go:1909-1921 | accepted calls reach record once each, in the order accepted; the rest are queued or in hand |
| CallWriter.StopReturnsAfterTheLast | cmd/qsp/app.go:1904-1905 | when any stop returns every accepted call has been passed to record |
| CallWriter.NothingAcceptedAfterStopping | cmd/qsp/app.go:1928-1930 | nothing is accepted after stopping |
| CallWriter.HolderNeverWaits | cmd/qsp/app.go:1931-1936 | the holder of the mutex always has a step, whatever the queue and the worker do, and gives it up in three |
| CallWriter.WorkerFinishes | cmd/qsp/app.go:1909-1921 | after the close the worker always has a step towards the end that stop waits for |
| Usrp.Encode | internal/audio/usrp.go:113-135 | the header words at their offsets and little-endian samples, or a refusal of any length but none and 160 |
| Usrp.Decode | internal/audio/usrp.go:151-182 | what is accepted and the frame it becomes |
| Usrp.DecodeUndoesEncode | internal/audio/usrp.go:108-182 | every frame that can be sent is received as it was |
| Usrp.ReencodingKeepsTheFrame | internal/audio/usrp.go:145-182 | the frame of any accepted datagram can be sent again and is received the same |
| Usrp.Keyup | internal/audio/usrp.go:185-187 | a header alone that is received as a keyup |
| Usrp.Release | internal/audio/usrp.go:195-197 | a header alone that is received as a release |
| Usrp.DatagramLayout | internal/audio/usrp.go:113-135 | the datagram octet by octet |
| Usrp.DecodeAcceptsExactly | internal/audio/usrp.go:151-165 | exactly which datagrams are accepted |
| Usrp.DecodedFields | internal/audio/usrp.go:166-182 | where the fields of an accepted one come from |
| Usrp.SamplesLayout | internal/audio/usrp.go:166-182 | samples are little-endian, in two's complement |
| AudioTypes.TwosComplement | internal/audio/usrp.go:129-133 | a sample and its sixteen bits agree modulo 65536 |

## Left out

- Solve: does not read the capture file, and the trial of the usual initial values and masks after it is not modelled.
- SortSpans: stands for the standard library's sort, by insertion; only that the result is sorted and keeps its spans is used.
- FrameQueue: the count of lost frames is unbounded here and wraps at 2^64 in the code.
- Upsampler.Up, Downsampler.Down: the coefficients are a parameter, and samples in the filter are reals, so the filter's response and the rounding of its sums are not modelled.
- TakeFrame: times are the caller's and do not advance inside a step; a bridge call that fails other than a keyup changes nothing the pump keeps, so its result is not modelled.
- Waits: that ticks are served on time is an assumption of the timing results, not a consequence.
- loop and once of the connector: how long each wait is, and which errors end the program; what they discard is in `Sessions`.
- Exchange: what the socket does is a parameter; a link that duplicates or reorders datagrams is not modelled.
- Client.Open and the handshake: the checks of the product text and the configuration pins.
- Hash: the pseudorandom function, the count of runes, base64 and the random salt are parameters with the properties named in Works.
- Parse: error texts and the configuration path in front of them; which error it is, is modelled.
- Lists, Advisories and the String methods of access lists, and the console, configuration, routing, accounts and audit packages.
- Opus, the vocoder's audio and the inside of the Zello bridge beyond the order in which it drives the packers.
