# Proofs about gloox, mongoose and CodeHook

This project models five parts of the repository in which state and arithmetic are hardest, and proves what they keep
over whole runs. `dafny verify dfyconfig.toml` verifies all of it.

**Stream management of the XMPP client** (`StreamManagement`, `ClientEffects`, `StreamSession`, `StreamLimits`,
`StreamEndings`). The counters and the queue of unacknowledged stanzas of `ClientBase` and `Client`, first as the code
that updates them, then in all runs with a server that follows sections 4 and 5 of XEP-0198 and a channel each way
that loses its contents when the transport drops. A step that is not possible leaves the world alone, and the
application may send at any time. The results hold of every list of steps in which no stanza is sent while the client
waits for a request that the server grants, nor from inside `connected()` on a resumption (`CarefulRun`, `Waiting`);
`SendIsRightIffNotWaiting` and `CallbackOnResumeIsRightIffSilent` show that this is exactly what they need. What is
sent from inside `connected()` when the session is enabled, the roster request and the first presence among it, is
part of the runs. A request on its way is not enough to fail: a stanza behind a `<resume/>` for an expired session
does no harm, since the server has nothing to count it for. `ClientEffects` says what a client does about any tag in
any state, whether its server keeps to the protocol or not. What ends a run, `disconnect()` and `disconnect(reason)`,
is the subject of `StreamEndings`.

**Function hooks** (`Ia32Instruction`, `Ia32Layout`, `Ia32Code`, `Ia32Hook`, `Ia32Thunk`). IA-32 instructions are
taken apart, relocated and put together again, for any opcode table in which no entry hides another of a different
length (`WellFormed`). The result that matters is a simulation: a processor, whose instructions have any semantics
that does not look at addresses, runs the moved prologue and the jump behind it exactly as it ran the original.

**Streams cut into pieces** (`Splitter`, `IoBuffer`, `WebSocket`, `WebSocketBytes`, `Http`, `HttpText`, `Bosh`). One
theory of parsers over a growing buffer serves the websocket frames of mongoose and the HTTP responses of the BOSH
connection.

**Codecs, hashes and matchers** (`BlockHash`, `Sha1`, `Md5`, `Base64`, `Base64Bits`, `Glob`, `GlobLaws`,
`ChunkedCoding`, `UrlCoding`, `PathCleaning`, and `InBandBytestream` over `Base64`). Each loop over a buffer or a
string is proved to compute a short function, and the function is proved to have the property it is there for. The
compression functions of SHA-1 and MD5 are parameters.

**Sessions over BOSH** (`Bosh`, `BoshEffects`, `BoshSession`). Request numbers, open requests, transport links and the
send buffer, for any order of calls, link failures, write failures and answers.

Round trips and refinements say that two sides agree, not what they agree on. So formats and calls are also described
by themselves, in bytes, bits and characters or field by field, without the functions that both sides share
(`ClientEffects`, `Ia32Layout`, `WebSocketBytes`, `GlobLaws`, `Base64Bits`, `HttpText`, `BoshEffects`, and lemmas of
the other modules about bytes, digits and characters).

Functions on values say what an operation does to the whole state. The classes are the code, with the repository's
fields; each method is proved to do what its function says. Callbacks into the application are recorded (`notified`,
`delivered`, `fed`), and writes to a connection likewise (`wire`, `sent`).

## What is not as one might expect

Some properties do not hold of the code as it stands. Each is stated with the exact condition under which it does.

- A restart that is sent while a stanza waits in the send buffer of a BOSH connection clears the buffer without sending
  it, even if no stanza was sent while the restart was pending (`RestartDropsWaitingStanza`, `ConservedIffNothingLost`).
- An empty send closes an in-band bytestream at the receiver (`StreamArrivesIffNoSendIsEmpty`), and an empty chunk ends
  a chunked response (`ResponseArrivesIffNoChunkIsEmpty`).
- A stanza sent between `<enable/>` and `<enabled/>`, or between `<resume/>` and `<resumed/>`, is counted by the server
  and not by the client, if the server grants the request (`SendIsRightIffNotWaiting`). The application need not send
  it: the client answers a ping by itself (`PingAnswerIsMiscounted`). Stanzas sent from inside `connected()` during a
  resumption go out twice (`ResumeIsExactIffCallbackIsSilent`, `CallbackOnResumeIsRightIffSilent`).
- After one resumption the client never asks for another (`ResumesOnlyOnce`).
- After `disconnect()` the queue still holds the numbers of the old session, and without a transport the count of sent
  stanzas is not restarted (`DisconnectStrandsNextSession`, `NextSessionIsRightIff`).
- After `disconnect(reason)`, which a stream closed by the server leads to as well, the session can be resumed but the
  numbers start again at 1, and the first stanzas sent until then are lost (`StanzaLostAfterStreamClosed`,
  `ResumptionAfterDisconnect`, `StreamClosedIsRightIff`).
- An 8-bit or 16-bit relative operand is cut off when moved too far (`TargetKeptIffFits`).
- An instruction object that is used again emits operands of an earlier instruction (`EncodingOfDecoded`).
- A pattern with alternatives can fail although its left side matches the empty string (`FailureDespiteEmptyMatch`).
- The block test of SHA-1 wraps for updates of nearly 2^32 bytes (`BlockTestIffNoWrap`).
- A websocket payload whose frame length does not fit a signed 32-bit integer is not delivered (`FoundIffLengthFits`).

## Model

| member | source | states |
|---|---|---|
| StreamManagement.Successor | gloox-1.0.20/src/clientbase.cpp:1055-1070 | the queue is walked like an ordered map: the next key is the least one after the current one, and there is none exactly when no key is greater |
| StreamManagement.WalkEnd | gloox-1.0.20/src/clientbase.cpp:1056-1071 | when the walk is over, the queue is what was above `h` and what was sent again is the rest in key order |
| StreamManagement.ClientBase.WalkQueue | gloox-1.0.20/src/clientbase.cpp:1055-1071 | the loop over the queue erases exactly the keys up to `h` and, with `resend`, writes the others in key order |
| StreamManagement.ClientBase.Receive | gloox-1.0.20/src/clientbase.cpp:252-300 | the class is the code: each method (`Send`, `Check`, `NegotiateStreamManagement`, `HandleNode`, `ResourceBound`, `WantStreamManagement`, `ConnectionLost`, `Disconnect`, `DisconnectByUser`) computes the function of the whole state that the runs use; this one hands a stanza that nothing else took to the handlers, and counts it if and only if the context is at least enabled |
| ClientEffects.ContextAfterTag | gloox-1.0.20/src/client.cpp:308-361 | for every state, tag and callback: the context moves in five ways and no other, two of them only from the context that asked and one only for the session asked for |
| ClientEffects.ForgottenIffAcknowledged | gloox-1.0.20/src/clientbase.cpp:1049-1073 | for every tag, a queued stanza is forgotten if and only if its number is at most a non-negative `h` of an `<a/>` in a managed session or of the `<resumed/>` asked for; one that stays is unchanged |
| ClientEffects.HandedOnIffStanza | gloox-1.0.20/src/clientbase.cpp:252-300 | exactly the stanzas are handed on, and exactly those in a managed session are counted |
| ClientEffects.WrittenAfterTag | gloox-1.0.20/src/client.cpp:308-361 | what each tag makes the client write: a resumption request, an acknowledgement, the unacknowledged queue, or nothing |
| ClientEffects.SessionAfterTag | gloox-1.0.20/src/client.cpp:308-316 | only `<enabled/>` sets the session id and whether it can be resumed, which takes an id; no tag touches transport, authentication, binding or, without a callback, the count |
| ClientEffects.BoundThenEnabling | gloox-1.0.20/src/client.cpp:533-560 | a failed binding changes nothing; after a successful one the client asks for a managed session if it wants one and is offered one, and else what it sends on connecting goes out unnumbered |
| ClientEffects.AsksAtOnceIffBound | gloox-1.0.20/src/client.cpp:570-586 | wanting a managed session writes a request, the one that the context calls for, if and only if the resource is bound; not wanting one forgets the session id |
| ClientEffects.RequestsNeedManagedSession | gloox-1.0.20/src/client.cpp:616-634 | an acknowledgement is asked for or given only in a managed session |
| ClientEffects.ForgottenByDisconnect | gloox-1.0.20/src/client.cpp:736-747 | `disconnect()` forgets context, session and handled counter, keeps queue and stanzas handed on, and restarts the count only if there was a transport |
| StreamSession.DeliversInOrderOnce | gloox-1.0.20/src/clientbase.cpp:1012-1073 | over every run, with any stanzas sent from inside `connected()` on enabling, in which none is sent while a request that will be granted is under way nor from inside `connected()` on resuming, with a server that follows sections 4 and 5 of XEP-0198 and channels that lose their contents on a drop: what the server received is a prefix of what the client queued, what the client handed on is a prefix of what the server sent, and the handled counter counts exactly these |
| StreamSession.DrainedIsComplete | gloox-1.0.20/src/client.cpp:322-332 | in such a run, after enabling or resuming, once the channel has drained, both sides have everything, stanzas queued while the transport was down included |
| StreamSession.QueueIsExact | gloox-1.0.20/src/clientbase.cpp:1024-1071 | in such a run the queue holds exactly the keys from the highest acknowledgement, plus one, to the count sent, each with the stanza first sent under it |
| StreamSession.StepKeeps | gloox-1.0.20/src/client.cpp:148-361 | every step of client, server and channel, a stanza sent while waiting excepted, keeps the invariant behind these results |
| StreamSession.ResentInOrder | gloox-1.0.20/src/clientbase.cpp:1056-1071 | walking from `h` a queue that is exact above `h` gives the stanzas after the first `h`, in order |
| StreamSession.ResumedKeeps | gloox-1.0.20/src/client.cpp:322-332 | a resumption puts client and server in step again |
| StreamSession.CallbackOnEnabledIsCounted | gloox-1.0.20/src/client.cpp:308-320 | from any exact state with a transport: after `<enabled/>` every stanza sent from inside `connected()` is on the wire in order, numbered and kept in the queue |
| StreamLimits.SendIsRightIffNotWaiting | gloox-1.0.20/src/clientbase.cpp:1012-1032 | in any state of a run, whatever may follow goes right after one more stanza if and only if the client was not waiting for an `<enable/>` or `<resume/>` that the server grants; it then has context `CtxSMEnable` or `CtxSMResume` and sends over a transport that is up |
| StreamLimits.PingAnswerIsMiscounted | gloox-1.0.20/src/clientbase.cpp:1145-1154 | the run in which the client answers a ping between `<enable/>` and `<enabled/>`: the stream is live, the server has counted one stanza and the client none |
| StreamLimits.ResumeIsExactIffCallbackIsSilent | gloox-1.0.20/src/client.cpp:322-332 | the server is sent exactly what it misses if and only if the application sends nothing from inside `connected()`; otherwise these stanzas go out early and then again |
| StreamLimits.CallbackOnResumeIsRightIffSilent | gloox-1.0.20/src/client.cpp:322-332 | in any run, whatever may follow a resumption goes right if and only if the application sends nothing from inside `connected()` |
| StreamLimits.ResumesOnlyOnce | gloox-1.0.20/src/client.cpp:588-613 | in every such run, once a session has been resumed its context stays so, no `<enable/>` or `<resume/>` is on the wire ever again, and after the next drop the stream is never live |
| StreamEndings.NextSessionIsRightIff | gloox-1.0.20/src/client.cpp:736-747 | from any state, the next managed session after `disconnect()` delivers in order and once in all runs if and only if the queue was empty, and the count was 0 or restarted because there was a transport to disconnect |
| StreamEndings.DisconnectStrandsNextSession | gloox-1.0.20/src/client.cpp:736-747 | a run from the start that ends in `disconnect()` with one stanza unacknowledged, after which the next session goes wrong |
| StreamEndings.ResumptionAfterDisconnect | gloox-1.0.20/src/clientbase.cpp:404-430 | from any state with a managed session, which stanzas the next `<resumed/>` sends again after `disconnect(reason)` and any number of sends: as many of the first of these are lost as had been sent before, and the numbers are in step again if and only if at least as many were sent since |
| StreamEndings.StanzaLostAfterStreamClosed | gloox-1.0.20/src/clientbase.cpp:221-226 | five acknowledged stanzas, a stream closed by the server, one more stanza and a resumption: that stanza is neither on the wire nor in the queue |
| StreamEndings.ResentIffNumberIsFree | gloox-1.0.20/src/clientbase.cpp:1024-1071 | a stanza is sent again by the next `<resumed/>` under its number if and only if the number is above `h` and was free or held the same stanza |
| StreamEndings.StreamClosedIsRightIff | gloox-1.0.20/src/clientbase.cpp:404-430 | in any state of a run, whatever may follow `disconnect(reason)` goes right if and only if there was no transport, nothing had been sent in the session, or the session cannot be resumed |
| Ia32Instruction.ValueBytes | CodeHook/cpuIA32_Translator.h:83-130 | a little-endian value written out gives back the bytes it was read from and is below its modulus |
| Ia32Instruction.EncodingOfDecoded | CodeHook/cpuIA32_Instruction.cpp:257-399 | for every byte string and every table, emitting a decoded instruction reproduces the bytes consumed, as many as the reported size, if and only if the object carried no bytes in operands this instruction leaves alone; a fresh object carries none |
| Ia32Instruction.DecodingOfRelocated | CodeHook/cpuIA32_Instruction.cpp:257-399 | where the relocated encoding has been put, it decodes to the relocated instruction, for every well-formed table |
| Ia32Layout.PrefixesInBits | CodeHook/cpuIA32_Instruction.cpp:82-109 | which bytes are prefixes, by their bits |
| Ia32Layout.ValueInBytes | CodeHook/cpuIA32_Translator.h:83-130 | values of one, two, four and eight bytes are little-endian sums |
| Ia32Layout.FirstEntryDecides | CodeHook/cpuIA32_Instruction.cpp:20-79 | for any prefixes and any tables: the decoder takes the first entry whose bytes stand behind the prefixes, and gives up exactly if that is a terminator or there is none |
| Ia32Layout.InstructionLayout | CodeHook/cpuIA32_Instruction.cpp:187-298 | for every decoded instruction, from the bits of ModRM and SIB and the widths of the operands as numbers: whether there is a SIB, how long the displacement is, where each part lies, what it holds, and that the size is the sum of all |
| Ia32Code.PostByte.Assign | CodeHook/cpuIA32_Postbyte.cpp:20-50 | takes ModRM, and SIB exactly when ModRM asks for one, and advances the iterator by their number if told to |
| Ia32Code.Instruction.FindOpcode | CodeHook/cpuIA32_Instruction.cpp:20-79 | the first entry over all tables that matches under the iterator, which is moved past the opcode only |
| Ia32Code.Instruction.ProcessPrefix | CodeHook/cpuIA32_Instruction.cpp:82-109 | collects the whole row of prefix bytes |
| Ia32Code.Instruction.ProcessPostfix | CodeHook/cpuIA32_Instruction.cpp:187-236 | reads ModRM, SIB and the displacement they call for |
| Ia32Code.Instruction.Decode | CodeHook/cpuIA32_Instruction.cpp:257-298 | fills the object with the instruction under the iterator or leaves iterator and object without one |
| Ia32Code.Instruction.Relocate | CodeHook/cpuIA32_Instruction.cpp:303-337 | rewrites each relative operand, in 64-bit arithmetic and truncated to its size, and nothing else but the address |
| Ia32Code.Instruction.Emit | CodeHook/cpuIA32_Instruction.cpp:360-399 | writes exactly the encoding and moves the pointer past it |
| Ia32Code.AppendOperand | CodeHook/cpuIA32_Instruction.cpp:340-357 | writes the operand's value in little-endian order |
| Ia32Hook.TargetKeptIffFits | CodeHook/cpuIA32_Instruction.cpp:318-334 | a relative operand keeps its absolute target modulo 2^32 if and only if it is as wide as an address or the new displacement fits it |
| Ia32Hook.MovesWholeInstructions | CodeHook/cpuIA32_HookSystem.cpp:95-144 | what the loop moves are consecutive whole instructions, at least the bytes asked for and less than one instruction more, below the buffer size, and the moved code has the same length |
| Ia32Hook.MovesExactly | CodeHook/cpuIA32_HookSystem.cpp:95-144 | the loop succeeds with a list of instructions if and only if they are consecutive, reach the bytes asked for only with the last, and stay below the buffer size |
| Ia32Hook.RelocateCode | CodeHook/cpuIA32_HookSystem.cpp:95-144 | returns 0 and leaves what is in front alone, or writes exactly the moved code and returns its length |
| Ia32Thunk.NearJumpSteps | CodeHook/cpuIA32_Assembler.cpp:38-62 | a jump assembled at one address takes the processor to its target |
| Ia32Thunk.JumpInBytes | CodeHook/cpuIA32_Assembler.cpp:38-62 | 0xE9 and a little-endian word that, added to the end of the jump modulo 2^32, gives the target |
| Ia32Thunk.StepAlike | CodeHook/cpuIA32_Instruction.cpp:303-337 | a step of the moved instruction has the same effect and leads to the same place as the original, or to what follows it |
| Ia32Thunk.ThunkSimulates | CodeHook/cpuIA32_HookSystem.cpp:286-303 | however long the original stays in the prologue, the thunk goes through the same states at shifted addresses; when the original leaves, by a jump or at the end, the thunk is at the same address with the same state |
| Ia32Thunk.Assembler.Jump | CodeHook/cpuIA32_Assembler.cpp:38-62 | the five bytes of a relative jump |
| Ia32Thunk.Assembler.JumpIndirect | CodeHook/cpuIA32_Assembler.cpp:45-70 | the six bytes of an indirect jump through a slot |
| Ia32Thunk.PrologueFits | CodeHook/cpuIA32_HookSystem.cpp:286-303 | the patched bytes lie inside the moved instructions, and moved code and tail jump fit the 256-byte buffer from offset 16, although the callee is given the full size |
| Ia32Thunk.BuildThunk | CodeHook/cpuIA32_HookSystem.cpp:262-305 | the buffer holds the two pointers, the moved code and the jump to the first byte that was not moved |
| Ia32Thunk.InstallHook | CodeHook/cpuIA32_HookSystem.cpp:224-345 | the status for every failure, with the function untouched, and on success the thunk and the patched entry |
| Ia32Thunk.EntryLeadsToProxy | CodeHook/cpuIA32_HookSystem.cpp:316-326 | the patched entry is an indirect jump through a slot that holds the replacement's address, and the slot behind it holds the thunk's |
| Ia32Thunk.HookKeepsFunction | CodeHook/cpuIA32_HookSystem.cpp:224-345 | in the hooked process, the thunk follows the original function until that is past the moved instructions |
| Ia32Thunk.PushAndJumpCanBeHooked | CodeHook/cpuIA32_HookSystem.cpp:224-345 | the conditions of the previous row can be met: a function that begins with `push ebp` and a near conditional jump out of the prologue, by entries of the shipped tables, can be hooked, and its thunk takes the relocated jump or comes out behind it |
| Splitter.PiecesDoNotMatter | mongoose/mongoose.c:3399-3423 | for any parser whose finds are stable, the items found and the bytes left do not depend on how the stream is cut into reads |
| Splitter.DrainOfWireForms | mongoose/mongoose.c:2124-2134 | complete encodings followed by the beginning of another are cut exactly there |
| WebSocketBytes.XorIsExclusiveOr | mongoose/mongoose.c:1787-1791 | each of the eight bits of an unmasked octet is set if and only if exactly one of data and mask has it set |
| WebSocketBytes.FrameInBytes | mongoose/mongoose.c:1757-1803 | for every buffer, by arithmetic on its octets: whether a frame is found, where it ends, and each payload octet, as it stands or combined bit by bit with the mask octet whose turn it is |
| WebSocketBytes.WrittenInBytes | mongoose/mongoose.c:1805-1845 | a written frame octet by octet: opcode marked final, no mask, and the length in one octet, in two or in eight, the highest first |
| WebSocket.FrameFound | mongoose/mongoose.c:1757-1803 | a frame of any length form, masked or not, is found in front of anything with its first octet and its payload |
| WebSocket.FoundIffLengthFits | mongoose/mongoose.c:1757-1790 | a well-made frame is taken off as sent if and only if its length fits a signed 32-bit integer |
| WebSocket.HandlerGetsEveryFrame | mongoose/mongoose.c:1757-1803 | however the bytes of a run of frames and of the beginning of a next one are cut, the handler gets exactly these messages in order and the buffer keeps the unfinished frame |
| WebSocket.WritesAreRead | mongoose/mongoose.c:1805-1845 | any run of writes is read back, each opcode marked final and each payload intact, however it is cut |
| WebSocket.WebsocketWrite | mongoose/mongoose.c:1805-1845 | produces the unmasked final frame with the shortest length form |
| IoBuffer.IoBuf.Spool | mongoose/mongoose.c:517-541 | appends to the buffer, in place or in a larger one |
| WebSocket.Connection.UnmaskInPlace | mongoose/mongoose.c:1787-1792 | removes the mask from the payload and changes nothing else in the buffer |
| WebSocket.Connection.DeliverWebsocketFrame | mongoose/mongoose.c:1757-1803 | delivers the frame at the front if it is complete and moves the rest to the front |
| WebSocket.Connection.CallUriHandler | mongoose/mongoose.c:2124-2141 | delivers frames until none is complete; each makes the buffer shorter |
| WebSocket.Connection.Serve | mongoose/mongoose.c:3399-3423 | the reads of a whole connection |
| BlockHash.FoldContinues | mongoose/mongoose.c:1667-1686 | folding the blocks of a message and then of its tail with more data is folding the whole |
| BlockHash.CountAdvances | mongoose/mongoose.c:1671-1674 | the two 32-bit counters hold the bit count modulo 2^64 across the carry |
| Sha1.Context.Update | mongoose/mongoose.c:1667-1686 | after an update the context stands for the message so far, for data that do not wrap the 32-bit block test |
| Sha1.Context.Final | mongoose/mongoose.c:1688-1709 | the digest is the fold of the compression function over the message padded as in section 5.1.1 of FIPS 180-4; the padding loop ends |
| Sha1.BlockTestIffNoWrap | mongoose/mongoose.c:1675-1676 | the test for a full block is right if and only if position and length add up below 2^32 |
| Sha1.HashPieces | mongoose/mongoose.c:1667-1709 | however a message is cut into updates, the digest is that of the whole |
| Sha1.HashTakesEveryByte | mongoose/mongoose.c:1675-1709 | the padded message is cut into whole blocks that together make it up, and the digest is that of the compression function applied to each in turn |
| Sha1.PaddedInBytes | mongoose/mongoose.c:1688-1702 | the padded message is the message, the byte 0x80, zeros and eight bytes in as few whole blocks as hold them; those eight bytes are the number of bits, modulo 2^64, the highest first |
| Sha1.DigestInBytes | mongoose/mongoose.c:1703-1707 | byte `4 * i + j` of the digest is byte `j` of word `i` of the state, the highest first |
| Sha1.InitialInBytes | mongoose/mongoose.c:1658-1665 | hashing starts from the value of section 5.3.1 of FIPS 180-4 |
| Sha1.FillStops | mongoose/mongoose.c:1698-1701 | the padding loop stops at the first length that is 56 modulo 64 |
| Md5.Context.Update | mongoose/mongoose.c:2756-2790 | after an update the context stands for the message so far, early return included |
| Md5.Context.Final | mongoose/mongoose.c:2792-2820 | the digest is that of the message padded as in sections 3.1 and 3.2 of RFC 1321, in both padding cases |
| Md5.HashTakesEveryByte | mongoose/mongoose.c:2774-2820 | the padded message is cut into whole blocks that together make it up, and the digest is that of the compression function applied to each in turn |
| Md5.PaddedInBytes | mongoose/mongoose.c:2792-2817 | the same layout with the number of bits the lowest byte first |
| Md5.DigestInBytes | mongoose/mongoose.c:2817-2820 | each four bytes of the digest are a word of the state, the lowest byte first |
| Md5.InitialInBytes | mongoose/mongoose.c:2664-2672 | hashing starts from the value of section 3.3 of RFC 1321 |
| Md5.HexInDigits | mongoose/mongoose.c:2827-2835 | characters `2 * i` and `2 * i + 1` are the digits of the high and the low half of byte `i` |
| Md5.LastBlocks | mongoose/mongoose.c:2792-2817 | the fold over the padded message is the fold so far continued with the last one or two blocks |
| Md5.DigestOfStrings | mongoose/mongoose.c:2838-2855 | `mg_md5` of a list of strings is the hexadecimal MD5 of their concatenation |
| Md5.BinToStr | mongoose/mongoose.c:2827-2835 | two lower-case hexadecimal digits for each byte |
| Glob.MatchOneSound | mongoose/mongoose.c:1437-1474 | what the backtracking search returns is a match in the declarative pattern language |
| Glob.MatchOneComplete | mongoose/mongoose.c:1437-1474 | if anything matches the search finds a match, and a non-empty one if there is one |
| Glob.OneAlternative | mongoose/mongoose.c:1437-1474 | without alternatives, a result r >= 0 means that the pattern matches the first r characters, and -1 is returned if and only if no prefix matches |
| Glob.AnyAlternative | mongoose/mongoose.c:1441-1445 | with alternatives, a result is a match of an alternative, and the search fails if and only if the last alternative matches nothing and no other matches more than the empty string |
| Glob.FailureDespiteEmptyMatch | mongoose/mongoose.c:1441-1445 | a pattern whose left side matches the empty string and which fails all the same |
| GlobLaws.DoubleStarIsAnyRun | mongoose/mongoose.c:1454-1470 | `**` and a rest match if and only if the rest matches behind some run of characters, and then with the longest such run |
| GlobLaws.StarIsRunWithinSegment | mongoose/mongoose.c:1454-1470 | `*` and a rest match if and only if the rest matches behind some run without a slash, and then with the longest such run |
| GlobLaws.SignTakesOne | mongoose/mongoose.c:1449-1473 | `?` takes any one character, any other sign the same character, letters in either case |
| GlobLaws.DollarIsEnd | mongoose/mongoose.c:1452-1453 | `$` matches at the end of the string and nowhere else |
| GlobLaws.BarIsChoice | mongoose/mongoose.c:1441-1445 | the left side of the first `|` counts if it matches more than nothing, and the rest of the pattern otherwise |
| Glob.MatchPrefix | mongoose/mongoose.c:1437-1474 | the loop with its recursion computes the search; it terminates on the length of the pattern |
| Base64.DecodeOfEncode | gloox-1.0.20/src/base64.cpp:38-122 | decoding an encoding gives back every byte string |
| Base64.EncodedLength | gloox-1.0.20/src/base64.cpp:38-80 | four characters for each three bytes begun |
| Base64.EncodeOfDecodeIffCanonical | gloox-1.0.20/src/base64.cpp:38-122 | encoding undoes decoding exactly on canonical text |
| Base64.EncodeIsCanonical | gloox-1.0.20/src/base64.cpp:38-80 | an encoding is canonical |
| Base64Bits.EncodedInBits | gloox-1.0.20/src/base64.cpp:38-80 | character `4 * g + j` of an encoding is the one that the alphabet has for six bits of the octets from `3 * g` on, or padding |
| Base64Bits.DecodedInBits | gloox-1.0.20/src/base64.cpp:83-122 | four characters stand for three octets, three and padding for two, two and padding for one, whatever the stray bits and whatever follows the padding |
| Base64Bits.OctetsInBits | gloox-1.0.20/src/base64.cpp:96-117 | how any two table values, those of characters outside the alphabet included, are combined to an octet |
| Base64Bits.GarbageReadsAsOnes | gloox-1.0.20/src/base64.cpp:25-36 | every character that stands for no six bits reads as eight set bits |
| Base64.Encode64 | gloox-1.0.20/src/base64.cpp:38-80 | the loop computes the encoding |
| Base64.Decode64 | gloox-1.0.20/src/base64.cpp:83-122 | the loop computes the decoding, stopping at padding |
| Base64.Base64Encode | mongoose/mongoose.c:1712-1735 | mongoose's own encoder writes the same text as gloox's, and a null byte |
| InBandBytestream.ElementRoundTrip | gloox-1.0.20/src/inbandbytestream.cpp:52-94 | a data element read back is what was put in, through Base64 |
| InBandBytestream.BlocksOfData | gloox-1.0.20/src/inbandbytestream.cpp:262-274 | the blocks of a send make up its data, all but the last have the block size and the last no more, and one is empty only if the data is |
| InBandBytestream.ElementsAreNumbered | gloox-1.0.20/src/inbandbytestream.cpp:256-277 | block `i` goes out in one data element, in Base64, under the number of blocks before it modulo 2^16 |
| InBandBytestream.SentIsAllBlocks | gloox-1.0.20/src/inbandbytestream.cpp:256-277 | several sends put on the stream the blocks of all of them under one running counter |
| InBandBytestream.DeliveredIffNext | gloox-1.0.20/src/inbandbytestream.cpp:193-212 | at an open receiver, data are delivered if and only if their number is the next and they are not empty; otherwise the stream is closed |
| InBandBytestream.AnswerTells | gloox-1.0.20/src/inbandbytestream.cpp:167-213 | for every element and receiver: whether it is taken, the answer it gets (result, item not found, bad request or none), what is delivered, and how counter and state move |
| InBandBytestream.StreamArrivesIffNoSendIsEmpty | gloox-1.0.20/src/inbandbytestream.cpp:167-277 | for any sends and any block size, the receiver takes every block, stays in step through every wrap and is handed the data sent, if and only if no send is empty |
| InBandBytestream.StaysOpenIffNoneEmpty | gloox-1.0.20/src/inbandbytestream.cpp:203-208 | the stream survives exactly the runs without an empty block |
| InBandBytestream.CounterIsModular | gloox-1.0.20/src/inbandbytestream.cpp:193-201 | the counter is the number of blocks, less one, modulo 2^16, so the wrap at 65535 is right |
| InBandBytestream.InBandBytestream.Send | gloox-1.0.20/src/inbandbytestream.cpp:256-277 | cuts the data into blocks and sends one numbered element for each, at least one; refuses if the stream is not open |
| InBandBytestream.InBandBytestream.Handle | gloox-1.0.20/src/inbandbytestream.cpp:167-213 | the new state, the reply and whether the request was taken, for every kind of element in either state |
| Http.FindIsFirst | gloox-1.0.20/src/connectionbosh.cpp:311-319 | a search finds the first occurrence, with or without regard to case, and fails exactly if there is none |
| Http.FieldOfLines | gloox-1.0.20/src/connectionbosh.cpp:321-335 | `getHTTPField` returns the rest of the first header line after the status line that begins with the name, or nothing |
| Http.HeaderEnds | gloox-1.0.20/src/connectionbosh.cpp:364-366 | the header ends at its own blank line whatever the body holds |
| Http.NumberOfDecimal | gloox-1.0.20/src/connectionbosh.cpp:378 | the length read from a decimal number is that number |
| Http.ResponsesStream | gloox-1.0.20/src/connectionbosh.cpp:359-406 | a complete response is found again however the stream goes on |
| Http.MessageIsWireForm | gloox-1.0.20/src/connectionbosh.cpp:359-406 | header lines with a correct length field and any body are read as that response, in front of anything and not before they are complete |
| Http.PlainMessage | gloox-1.0.20/src/connectionbosh.cpp:364-389 | the plain answer of a connection manager is such a message |
| HttpText.FieldInAnyCase | gloox-1.0.20/src/connectionbosh.cpp:311-335 | a field in the line behind the status line is found under its name in any case, up to the end of the line, whatever follows |
| HttpText.NumberGrows | gloox-1.0.20/src/connectionbosh.cpp:378 | one more digit makes ten times the number and the digit |
| HttpText.NumberIsRead | gloox-1.0.20/src/connectionbosh.cpp:378 | space in front does not count, a sign does, and the number ends with its last digit |
| HttpText.StatusLine | gloox-1.0.20/src/connectionbosh.cpp:366-387 | the status is at characters 9 to 11 of the first line; HTTP/1.0 or a field that says `close` ends the link |
| HttpText.PlainText | gloox-1.0.20/src/connectionbosh.cpp:364-389 | the plain answer written out, line ends included |
| Bosh.ChunkingDoesNotMatter | gloox-1.0.20/src/connectionbosh.cpp:359-406 | however the stream arrives in pieces, whatever it holds, connection, buffer and bodies end the same |
| Bosh.AnyPiecesFeedTheBodies | gloox-1.0.20/src/connectionbosh.cpp:359-406 | pipelined responses cut anywhere feed the XML parser exactly their bodies in order, each closes one request, and what has begun stays buffered |
| Bosh.ConnectionBosh.WriteXml | gloox-1.0.20/src/connectionbosh.cpp:216-270 | the class is the code: each method (`Open`, `LinkUp`, `LinkDown`, `SendData`, `WriteRequest`, `ChooseConnection`, `TakeFromPool`, `ReleaseConnection`, `FinishRecv`, `BodyArrived`, `Close`) computes the function of the whole state that the sessions use; this one sends the pending restart or else the buffer as the next numbered body, and a failed attempt takes the number back |
| Bosh.ConnectionBosh.HandleReceivedData | gloox-1.0.20/src/connectionbosh.cpp:359-406 | takes every complete response off the buffer, acting on each header as soon as it is complete |
| Bosh.ConnectionBosh.ReadResponse | gloox-1.0.20/src/connectionbosh.cpp:361-405 | one pass of that loop: a header, the body if it is there, the link it came on and the rest of the buffer |
| BoshEffects.LinksAreTakenInTurn | gloox-1.0.20/src/connectionbosh.cpp:548-616 | without pipelining, requests take the links of the pool from the front, one each, and append them to those in use |
| BoshEffects.LinksAreGivenBackInTurn | gloox-1.0.20/src/connectionbosh.cpp:618-641 | answers release links in the order in which they were taken, to the end of the pool |
| BoshEffects.LinkWithoutPool | gloox-1.0.20/src/connectionbosh.cpp:548-600 | with an empty pool, pipelining stays on its first link and the other modes open one link more |
| BoshEffects.OpeningTriesOneLink | gloox-1.0.20/src/connectionbosh.cpp:103-119 | connecting takes the first pooled link if it is up and else moves it to the end |
| BoshEffects.BodyTells | gloox-1.0.20/src/connectionbosh.cpp:460-520 | an incoming body forgets a pending restart, ends the session, brings it up or leaves it, and lowers the limit but never raises it |
| BoshEffects.ResponseTells | gloox-1.0.20/src/connectionbosh.cpp:359-406 | a response closes one request, ends the session unless its status is 200, and ends pipelining if it closes the link |
| BoshEffects.HeaderTells | gloox-1.0.20/src/connectionbosh.cpp:364-405 | what a header does before its body is there, and that a length of nothing only lets an error count |
| BoshEffects.StateMoves | gloox-1.0.20/src/connectionbosh.cpp:103-159 | how opening, losing a link, closing and an answer's header move the state, and that no other call does |
| BoshEffects.ModeMoves | gloox-1.0.20/src/connectionbosh.cpp:435-458 | a mode is only ever given up for the legacy one, by losing a link when pipelining or by an answer that closes |
| BoshEffects.OpeningTells | gloox-1.0.20/src/connectionbosh.cpp:408-433 | the session request goes out under the random number or nothing does |
| BoshEffects.ClosingTells | gloox-1.0.20/src/connectionbosh.cpp:121-159 | the closing body takes the next number and the buffer, sent or not |
| BoshEffects.NothingIsSent | gloox-1.0.20/src/connectionbosh.cpp:185-213 | data are refused without a session, and the end of the stream is swallowed |
| BoshEffects.RestartIsSent | gloox-1.0.20/src/connectionbosh.cpp:185-270 | an XML declaration leaves a restart pending or goes out as a restart of its own, which clears the buffer |
| BoshEffects.StanzaIsSent | gloox-1.0.20/src/connectionbosh.cpp:185-270 | other data wait behind what waits, or go out with it under the next number, unless a pending restart takes their place |
| BoshSession.SendRequestEffect | gloox-1.0.20/src/connectionbosh.cpp:272-304 | a request goes out if and only if there is room, a link and a successful write; otherwise only the lists of links change |
| BoshSession.SendXmlEffect | gloox-1.0.20/src/connectionbosh.cpp:216-270 | a failed attempt leaves everything but the lists of links as it was, the request number included |
| BoshSession.RecvSendsIff | gloox-1.0.20/src/connectionbosh.cpp:161-183 | a receive call sends if and only if something waits or nothing is open, and a body can go out |
| BoshSession.RecvKeepsRequestOpen | gloox-1.0.20/src/connectionbosh.cpp:173-180 | with a link at hand, the server has a request to answer after every receive call |
| BoshSession.PoolTakesTurns | gloox-1.0.20/src/connectionbosh.cpp:602-616 | links that are down take turns, so the first pooled link that is up is found after as many attempts |
| BoshSession.StepKeeps | gloox-1.0.20/src/connectionbosh.cpp:185-304 | every step keeps request numbers consecutive, the count of open requests equal to requests sent less answered, and no link in both lists; a step that sends leaves at most max(1, limit) open |
| BoshSession.RequestsAreNumberedAndCounted | gloox-1.0.20/src/connectionbosh.cpp:185-304 | in every run of a new connection, the requests on the wire are numbered consecutively, those open are the ones sent less the ones answered and at most two, and no transport link is in use twice |
| BoshSession.RunKeeps | gloox-1.0.20/src/connectionbosh.cpp:185-616 | so does every run of a session |
| BoshSession.ConservedIffNothingLost | gloox-1.0.20/src/connectionbosh.cpp:185-270 | over every run, the bytes accepted are the payloads sent, in order, followed by the buffer, if and only if no restart was sent while something was buffered and no closing body failed with something buffered |
| BoshSession.DisciplineKeepsEverything | gloox-1.0.20/src/connectionbosh.cpp:185-270 | nothing is lost if stream headers are sent with nothing buffered, stanzas with no restart pending, and the connection is closed with nothing buffered |
| BoshSession.RestartDropsWaitingStanza | gloox-1.0.20/src/connectionbosh.cpp:248-260 | a concrete run in which no stanza is sent while a restart is pending and yet an accepted stanza is lost |
| BoshSession.SessionComesUp | gloox-1.0.20/src/connectionbosh.cpp:408-500 | that run begins in a state that a new connection reaches |
| BoshSession.RestartGoesOutOrIsForgotten | gloox-1.0.20/src/connectionbosh.cpp:248-260 | a pending restart stays pending until a body goes out, which carries it, or a body comes in, which forgets it |
| ChunkedCoding.ReadSizeOfHex | mongoose/mongoose.c:717-720 | the chunk size in hexadecimal is read back |
| ChunkedCoding.HexInDigits | mongoose/mongoose.c:717-720 | upper-case digits from the lowest up, no zero in front |
| ChunkedCoding.ChunkInBytes | mongoose/mongoose.c:717-723 | size line, data and last line end in carriage return and line feed; the empty chunk is the terminating one |
| ChunkedCoding.DecodedUpToEmpty | mongoose/mongoose.c:717-723 | a decoder of section 4.1 of RFC 7230 sees the chunks up to the first empty one, which it takes for the end |
| ChunkedCoding.ResponseArrivesIffNoChunkIsEmpty | mongoose/mongoose.c:717-723 | the whole response arrives, and nothing behind it is touched, if and only if no chunk is empty |
| ChunkedCoding.WriteChunk | mongoose/mongoose.c:717-723 | appends one chunk to the output buffer |
| ChunkedCoding.WriteTerminatingChunk | mongoose/mongoose.c:2120-2122 | appends the last chunk, which is the encoding of no data |
| UrlCoding.DecodeOfEncode | mongoose/mongoose.c:1333-1356 | decoding undoes encoding for every byte string, as form data or not |
| UrlCoding.EncodeOfDecodeIffCanonical | mongoose/mongoose.c:2278-2296 | encoding undoes decoding exactly on text in the encoder's own form |
| UrlCoding.EncodedCharacter | mongoose/mongoose.c:2278-2296 | letters, digits and nine signs stand for themselves, all else is a percent sign and two lower-case digits |
| UrlCoding.EncodeAppend | mongoose/mongoose.c:2278-2296 | texts are encoded piece by piece |
| UrlCoding.DecodedEscape | mongoose/mongoose.c:1333-1356 | a percent sign and two digits in either case stand for the byte with that number |
| UrlCoding.DecodedCharacter | mongoose/mongoose.c:1333-1356 | anything else stands for itself, but a plus sign in form data for a space |
| UrlCoding.UrlEncode | mongoose/mongoose.c:2278-2296 | a buffer with room for the code and a null byte gets exactly these; 3n + 1 bytes always suffice |
| UrlCoding.UrlDecode | mongoose/mongoose.c:1333-1356 | the decoded text, cut to the buffer, and a null byte, nothing else changed, -1 if it was cut; the same within one buffer as into another |
| PathCleaning.CleanIsClean | mongoose/mongoose.c:1316-1331 | no separator of a cleaned path is followed by another or by two dots |
| PathCleaning.RedundantIsRemoved | mongoose/mongoose.c:1320-1327 | a separator or double dot behind a separator makes no difference anywhere in a path, which together with the next row fixes the result |
| PathCleaning.UnchangedIffClean | mongoose/mongoose.c:1316-1331 | a path is left alone if and only if it is clean |
| PathCleaning.CleanIffNothingRedundant | mongoose/mongoose.c:1316-1331 | in characters: a path is left alone if and only if no slash or backslash is followed by another or by two dots, and a cleaned path has nothing of the kind |
| PathCleaning.RedundantCharacters | mongoose/mongoose.c:1320-1327 | in characters: another slash or backslash, or two dots, behind one makes no difference anywhere |
| PathCleaning.CleaningTwiceIsCleaningOnce | mongoose/mongoose.c:1316-1331 | cleaning is idempotent |
| PathCleaning.CleanKeepsNames | mongoose/mongoose.c:1322-1326 | nothing but separators and dots is removed, and the rest keeps its order |
| PathCleaning.RemoveDoubleDotsAndDoubleSlashes | mongoose/mongoose.c:1316-1331 | the loop cleans the string in place |

## Left out

- StreamSession.DeliversInOrderOnce: not promised of runs that send a stanza while a granted request is under way or from inside `connected()` on a resumption, where it is false. The counters are unbounded integers; the wrap-around of the source's `int` and of the 32-bit `h` of XEP-0198 is not modelled.
- StreamManagement.ClientBase.HandleNode: of stream features only the stream management branch after authentication; TLS, SASL, compression, resource binding and session creation are one step each.
- StreamManagement.ClientBase.ResourceBound: of a successful binding, starting the negotiation or else calling `connected()`; opening an XMPP session first is left out, and so is the error handler.
- StreamManagement.ClientBase.Receive: iq, message and presence stanzas are one kind of stanza; `std::map` is a Dafny map with a least-key successor, and the mutex around the queue is not modelled.
- Ia32Code.Instruction.Decode: at most four prefix bytes, since the object has room for four and the source writes beyond it.
- Ia32Code.Instruction.ProcessPrefix: the same four prefix bytes.
- Ia32Code.OpcodeIterator.NextValue: the four little-endian reads are one method over the width.
- Ia32Thunk.HookKeepsFunction: jumps, not calls, whose return addresses would show where the code runs; relative operands must fit after the move, and the prologue must not jump into itself. No instruction of the prologue has five prefix bytes.
- Ia32Thunk.InstallHook: allocation, page protection and message boxes are parameters or left out.
- Ia32Instruction.DecodingOfRelocated: quantifies over well-formed tables; the tables of CodeHook/cpuIA32_Tables.cpp are not written out here.
- Sha1.Context.Update: updates that wrap the 32-bit block test, because the code is wrong there; `BlockTestIffNoWrap` says which these are.
- Md5.Context.Final: byte order is that of a little-endian host; the compression functions are parameters in both hashes.
- IoBuffer.IoBuf.Spool: memory never runs out, and 12/10 of a length is computed in integers.
- WebSocket.Connection.CallUriHandler: of the branches by kind of endpoint, the one for websocket clients.
- WebSocket.WritesAreRead: payloads of 2^31 - 10 bytes and more, which the reader does not take.
- Glob.MatchPrefix: the byte behind the pattern is not `*`, and strings hold no null characters.
- InBandBytestream.InBandBytestream.Handle: elements of an invalid kind, IQ types other than `set`, sender addresses and the handler's presence; `handleMessage`, which counts differently, is left out.
- InBandBytestream.InBandBytestream.Send: the connection object exists, and the opening handshake is left out.
- Bosh.ConnectionBosh.HandleReceivedData: a header shorter than a status line (an exception in the source), a negative length (it wraps) and a response with no active link (undefined in the source) stop the loop.
- Bosh.ConnectionBosh.BodyArrived: XML parsing, so an incoming body is a step of its own with the attributes session id, limit and termination; hold, wait and polling attributes and the forwarding of stanzas are left out.
- Bosh.ConnectionBosh.WriteRequest: the HTTP and XML text around a payload; attributes of `<body/>` other than session id, limit and termination.
- Bosh.ConnectionBosh.Open: a link reports its state through parameters of each call; a link that connects at once calls back as a step of its own.
- BoshSession.RunKeeps: one session from its opening to its close; a second opening on the same object is not modelled.
- ChunkedCoding.DecodedUpToEmpty: chunk extensions and trailers, which the code never writes.
- UrlCoding.UrlEncode: what a buffer that is too short holds, beyond that it holds a null byte.
- Sockets, TLS, zlib, threads, CGI, Lua, directory listings, DAV and file serving: foreign calls and I/O.
- SASL, SCRAM, NTLM, string preparation and the stanza extension classes of gloox: field-by-field building, or dependent on code outside these parts.
- Date parsing, MIME tables, access lists and the YahooWeb handlers: small lookups that would add only easy members.
