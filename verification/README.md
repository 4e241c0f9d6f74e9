# A Dafny model of the xray-rs core

This project models the parts of xray-rs whose correctness is a statement about whole streams, whole runs or all
interleavings, and proves those statements. It covers:

- **Framed ciphers.** The VMess chunk body (SHAKE-driven padding and length mask, wrapping chunk counter, AEAD pieces) and
  the Shadowsocks AEAD stream (client relay and server, little-endian counter nonce). Reading what was written returns the
  payloads, both ends stay in step, and a cut stream delivers whole pieces only.
- **Multiplexing.** The mux.cool frames, the demultiplexer as a loop over a buffered reader that refines a machine over
  frames, the uplink from clients' frames to what each sub-session receives, and the downlink of many concurrent sub-sessions
  sharing one writer, under every schedule.
- **The gRPC tunnel.** Varints, hunks, reassembly over every split into DATA chunks and every sequence of read sizes, and
  flow-controlled writing.
- **Incremental parsing.** Trojan and VLESS headers and UDP packets parsed again and again on a growing buffer: the answer does
  not depend on how the network cuts the bytes.
- **VMess authentication.** The replay filter against the history of acceptances, and the hotset against a plain scan.
- **Hot swap.** The watch-channel protocol as a state machine, and the keyed tree against building from scratch.
- **Traffic accounting.** Counters, adders and several controllers' reporting cycles at the granularity of single atomic
  operations, and the registry call by call.
- **Routing.** The egress language compiled, routed and dispatched against a direct interpreter; CIDR matching against integer
  arithmetic; domain suffixes against label lists; the TLS sniffer against an encoder of ClientHello messages.

## How it is built

Bytes are integers below 256 and byte strings are sequences. Code that changes state is a class or a method with loops, proved
against a function of the old state; what the source promises is then proved about that function. Concurrent code is a state
machine whose steps are the atomic operations of the source, taken in any order.

What lies outside is a parameter. A cipher is a pair of functions with two laws (`Crypto.Lawful`): opening undoes sealing, and
sealing adds 16 bytes. The SHAKE stream is an arbitrary function from positions to words, key derivation an arbitrary
function, padding content an arbitrary function. Text forms of IP addresses, UTF-8 validity and geo membership are arbitrary
functions. The network is a sequence of nonempty pieces cut anywhere; flow control is an arbitrary sequence of capacities; the
scheduler, the panel's answers and the clock are arguments.

`Common`, `Bits`, `Decimal`, `Text` and `Io` hold what the other modules share. Text is handled by characters; a dot is one
byte in UTF-8, so lengths in bytes and in characters cut a domain at the same place.

Some properties one might expect do not hold as they stand. For each the project gives inputs that break it and proves exactly
when it holds:

- An address survives writing and reading exactly when it is canonical (`Addr.RoundTrip`): v4-mapped IPv6 addresses collapse
  (`Addr.V4MappedCollapses`), and domains that read as an IP turn into one.
- "A nonzero counter is listed as active" holds when each call on a counter is one step (`Stats.Registry`, whose `Valid` every
  method keeps), and fails between single atomic operations (`AccountingTraces.LateAddIsUnlisted` gives the run). There a counter
  with bytes is listed or about to be taken at every moment exactly when no add comes to a counter whose flag a reporter has
  already taken down (`AccountingListing.BytesListedExactlyWithoutLateAdds`); bytes are conserved all the same.
- A reporter's two swaps are not one (`AccountingTraces.TornTake`): the pair it takes is the pair the counter held at the first
  swap exactly when, no other reporter swapping it, nothing was added to the download total in between
  (`AccountingTakes.TakenPairWasHeld`, which also covers other reporters).
- Unknown fields of a gRPC message are skipped exactly when their number is at most 15 (`GrpcHunk.SkippedExactlyUpTo15`), and a
  message is read back exactly when it is within the decoder's limit (`GrpcWrite.WrittenDecodes`).
- A node recognises exactly its own counters exactly when no other node's tag is nested in its own (`UserTag.NodesKeepApart`);
  built node tags can be nested only if a configured listen address holds a bar (`UserTag.NodeTagBarFree`).
- Splitting a gRPC stream keeps what was written exactly when its write buffer is empty (`GrpcWrite.SplitContinues`).
- UDP datagrams of a sub-session keep their boundaries exactly when each has 1 to 8192 bytes (`MuxDownlink.UdpScriptCarries`).
- A cut VMess body is noticed exactly when the cut leaves at least a size field of an unfinished data frame
  (`VmessBody.PrefixDeliversWholePieces`).
- The sniffer returns the first acceptable host name exactly when no unacceptable host name stands before it in its list, for a
  hello with one server_name extension; `Sniff.SniffsHello` has the condition for any hello, and `Sniff.HiddenHostIsMissed` the
  hellos that fail.

The comment at kernel/src/stats.rs:75 says that both directions are read and zeroed atomically; the code swaps one after the
other, and the model follows the code. The comment at transport/src/grpc.rs:497 says that unknown fields are skipped; the code
reads tags of one byte only, and the model follows it.

## Model

| member | source | states |
|---|---|---|
| VmessBody.FrameFits | proxy/src/vmess/body.rs:86-149 | every frame body is at most 8191 bytes, the size field never saturates, and unmasking it gives the true body length |
| VmessBody.NonceBytes | proxy/src/vmess/body.rs:72-82 | the nonce byte by byte: the counter, high byte first, then bytes 2 to 11 of the iv |
| VmessBody.FrameDraws | proxy/src/vmess/body.rs:86-149 | which words of the stream a frame draws, padding before mask, and where the sealed piece stands in it |
| VmessBody.PieceLimit | proxy/src/vmess/body.rs:182-199 | pieces are at most 8112 bytes sealed and 8128 plain |
| VmessBody.SizeJudged | proxy/src/vmess/body.rs:152-180 | what any announced size leads to: end, error or a piece, and when the counter moves |
| VmessBody.FrameRoundTrip | proxy/src/vmess/body.rs:152-199 | reading one written frame returns the piece, leaves what follows, and lands on the writer's counter and SHAKE position |
| VmessBody.TerminalRoundTrip | proxy/src/vmess/body.rs:152-211 | the terminal frame reads as end of stream, for every masking and padding setting |
| VmessBody.CutFrame | proxy/src/vmess/body.rs:152-180 | a frame cut short delivers nothing: end of stream inside the size field, an error inside the body |
| VmessBody.PrefixDeliversWholePieces | proxy/src/vmess/body.rs:152-199 | from any prefix of a body, exactly the pieces whose frames are whole are delivered, in order; the reader sees an end of stream exactly when all data frames are whole or less than a size field follows the last whole one, and a failure otherwise |
| VmessBody.BodyRoundTrip | proxy/src/vmess/body.rs:152-211 | for every list of payloads, reading all that was written gives their concatenation and then end of stream |
| VmessBody.LockStep | proxy/src/vmess/body.rs:86-132 | after every frame reader and writer agree on chunk count and SHAKE position |
| VmessBody.NoncesDistinct | proxy/src/vmess/body.rs:72-82 | two chunk nonces less than 65536 pieces apart differ, and exactly 65536 apart they coincide |
| VmessBody.Body.NextPadding | proxy/src/vmess/body.rs:86-96 | draws a word only under global padding with masking, and is below 64 |
| VmessBody.Body.MaskSize | proxy/src/vmess/body.rs:98-105 | masks by the next word of the stream, and draws one word |
| VmessBody.Body.SealPiece | proxy/src/vmess/body.rs:107-119 | seals under the current counter, which then wraps upward |
| VmessBody.Body.OpenPiece | proxy/src/vmess/body.rs:121-132 | opens under the current counter; the counter moves only on success |
| VmessBody.Body.ReadChunk | proxy/src/vmess/body.rs:152-180 | outcome, bytes left and new position are those of the step that inverts the writer's frame |
| VmessBody.Body.WriteFrame | proxy/src/vmess/body.rs:137-149 | appends masked size, sealed piece and padding, and moves to the next position |
| VmessBody.Body.WriteChunk | proxy/src/vmess/body.rs:182-199 | appends one frame per piece of the payload, in order |
| VmessBody.Body.WriteTerminal | proxy/src/vmess/body.rs:201-211 | appends one empty frame |
| Nonce.IncrementedValue | proxy/src/crypto.rs:121-130 | carrying through the bytes adds one to the little-endian value, wrapping at 256 to the size |
| Nonce.CountsModulo | proxy/src/crypto.rs:107-130 | after n increments the value is the start plus n modulo 256 to the size |
| Nonce.NoEarlyRepeat | proxy/src/crypto.rs:107-130 | within one period two nonces are equal exactly when a whole period lies between them |
| Nonce.NonceCtr.Inc | proxy/src/crypto.rs:121-130 | the in-place carry loop computes that increment |
| Shadowsocks.ChunkRoundTrip | proxy/src/shadowsocks.rs:201-258 | a sealed chunk reads back, leaving what follows and the nonce two steps on |
| Shadowsocks.StreamRoundTrip | proxy/src/shadowsocks.rs:211-258 | reading a stream returns every piece and ends cleanly, on the writer's nonce |
| Shadowsocks.SkipCounts | proxy/src/shadowsocks.rs:235-258 | k chunks advance the counter by exactly 2k increments |
| Shadowsocks.StreamSeals | proxy/src/shadowsocks.rs:235-258 | piece k is its two length bytes sealed under nonce 2k, then itself under nonce 2k + 1 |
| Shadowsocks.LengthLimits | proxy/src/outbound.rs:327-362 | lengths are taken up to 0x3fff by the client and 0xffff by the server |
| Shadowsocks.PiecesCover | proxy/src/outbound.rs:364-388 | pieces are nonempty, at most 0x3fff bytes, and concatenate to the payloads |
| Shadowsocks.FirstChunkDecodes | proxy/src/shadowsocks.rs:118-192 | the first chunk fixes user, target and the payload behind the address, exactly when no earlier user's key opens it, and leaves the rest of the stream to the data reader |
| Shadowsocks.EagerIsDecoded | proxy/src/shadowsocks.rs:118-192 | for a client that puts payload behind the address: what the server hands on at once, followed by what it reads, is everything sent |
| Shadowsocks.RelayIsDecoded | proxy/src/outbound.rs:119-160 | what the client relay writes is decoded by the server to the same user and target exactly when no earlier user's key opens it; under the client's key all data comes back and both nonces are equal |
| Shadowsocks.DownlinkRoundTrip | proxy/src/outbound.rs:327-362 | what the server writes never trips the client's length check and is returned whole |
| Shadowsocks.FirstOpening | proxy/src/shadowsocks.rs:127-150 | the first user in order whose subkey opens the first length, and none before it |
| Shadowsocks.ReadChunk | proxy/src/shadowsocks.rs:211-233 | outcome, bytes left and nonce are those of the step that inverts a sealed chunk; also the client's reader, with its limit |
| Shadowsocks.WriteChunks | proxy/src/shadowsocks.rs:235-258 | appends the sealed pieces of the data under consecutive nonces |
| Shadowsocks.WritePayloads | proxy/src/outbound.rs:364-388 | payload after payload under one running nonce |
| Shadowsocks.RelayUplink | proxy/src/outbound.rs:119-160 | writes salt, address chunk, data chunks, in that order; fails exactly when the address cannot be encoded |
| Shadowsocks.FindUser | proxy/src/shadowsocks.rs:127-150 | the trial loop finds the first opening user |
| Shadowsocks.AcceptChunk | proxy/src/shadowsocks.rs:150-170 | for a user found, reads the first chunk and its address as the pure reading says |
| Shadowsocks.Accept | proxy/src/shadowsocks.rs:110-192 | the server's handshake on a stream has the outcome that `RelayIsDecoded` speaks of, and leaves the rest unread |
| Addr.RoundTrip | kernel/src/net.rs:242-325 | writing then reading is the identity exactly on canonical addresses, for every codec and continuation |
| Addr.AddressRoundTrip | kernel/src/net.rs:272-325 | the same for the address part, which never reads back as itself when not canonical |
| Addr.V4MappedCollapses | kernel/src/net.rs:49-67 | every v4-mapped address comes back as the v4 address it maps, over every codec |
| Addr.MappedExample | kernel/src/net.rs:49-67 | an instance: ::ffff:1.2.3.4 is not canonical |
| Addr.WriteLength | kernel/src/net.rs:258-325 | an encoded address and port is 4 to 259 bytes long |
| Addr.WireForm | kernel/src/net.rs:177-211 | the bytes on the wire of every kind of address, in each codec |
| Addr.TypeByte | kernel/src/net.rs:272-310 | Shadowsocks looks at the low four bits of the type; unknown types are refused |
| Addr.MappedForm | kernel/src/net.rs:49-67 | which sixteen bytes are a v4-mapped address |
| Addr.DomainReads | kernel/src/net.rs:286-310 | what a domain field reads as: refused, an address, or a domain |
| Addr.DomainCharacters | kernel/src/net.rs:359-363 | the characters a domain may hold |
| Addr.ReadStable | kernel/src/net.rs:242-357 | an answer of the address parser stands when more bytes arrive; it asks for more only below 259 bytes |
| Header.ReadHeader | kernel/src/pipe/translation.rs:42-76 | for a stable parser the outcome, leftover plus unread bytes are those of parsing the whole input at once, however it is cut; "too large" only if the parser still asks while holding the limit |
| Trojan.HeaderStable | proxy/src/trojan.rs:65-86 | the Trojan parser's answers stand when more bytes arrive; it asks for more only below 320 bytes |
| Trojan.RequestRead | proxy/src/trojan.rs:65-86 | a client's request reads back to its target, over UDP exactly for command 3, and to the user of its key; an unknown key is refused |
| Trojan.AuthExactly | proxy/src/trojan.rs:65-72 | authentication fails exactly on 56 bytes that are no user's key |
| Trojan.ReadTrojanHeader | proxy/src/trojan.rs:119-135 | every cut of the input gives the same result, and "header too large" never occurs |
| Vless.HeaderStable | proxy/src/vless.rs:67-92 | the VLESS parser's answers stand; it asks for more only below 533 bytes |
| Vless.RequestRead | proxy/src/vless.rs:67-92 | a client's request reads back to its target, over TCP or UDP by command, and to the user of its id, whatever the addons |
| Vless.OtherCommandRead | proxy/src/vless.rs:67-92 | command 3 is a multiplexed connection, any other is refused |
| Vless.RefusedExactly | proxy/src/vless.rs:67-80 | exactly when the version or the id is refused |
| Vless.ReadVlessHeader | proxy/src/vless.rs:125-140 | every cut of the input gives the same result, and "header too large" never occurs |
| UdpFrames.TrojanPacketStable | proxy/src/udp.rs:124-130 | a Trojan packet once parsed stays parsed, and consumes at least one byte |
| UdpFrames.VlessPacketStable | proxy/src/udp.rs:196-200 | a VLESS packet once parsed stays parsed, and consumes at least one byte |
| UdpFrames.TrojanPacketRoundTrip | proxy/src/udp.rs:164-187 | the downlink encoding of a packet from a canonical peer parses back to it, whatever follows |
| UdpFrames.TrojanPacketBytes | proxy/src/udp.rs:124-187 | the bytes of a packet, and that the reader takes any two bytes for the line break |
| UdpFrames.VlessPacketRoundTrip | proxy/src/udp.rs:235-253 | the VLESS downlink encoding parses back |
| UdpFrames.TrojanStreamRoundTrip | proxy/src/udp.rs:124-187 | a stream of encoded packets is cut back into exactly those packets |
| UdpFrames.VlessStreamRoundTrip | proxy/src/udp.rs:196-253 | the same for VLESS |
| UdpFrames.Framed.Frame | proxy/src/udp.rs:77-103 | one packet off the front of held plus unread bytes, whatever the cuts; on an error no byte is lost |
| UdpFrames.Framed.Relay | proxy/src/udp.rs:150-163 | hands on exactly the packets of the byte stream up to the first incomplete or refused one, or until one cannot be resolved or sent |
| UdpFrames.RelayTrojan | proxy/src/udp.rs:134-163 | the Trojan uplink yields the packets of its byte stream for every cut, up to a failed send |
| UdpFrames.RelayVless | proxy/src/udp.rs:204-233 | the VLESS uplink yields the payloads of its byte stream for every cut, up to a failed send |
| MuxFrames.FrameRoundTrip | proxy/src/mux.rs:201-224 | any frame within the limits reads back as itself whatever its status, so framing stays aligned |
| MuxFrames.ReadLimits | proxy/src/mux.rs:201-242 | exactly what the reader takes, refuses and treats as a close, with its limits of 512 and 8192 |
| MuxFrames.MetaTargets | proxy/src/mux.rs:47-75 | exactly which metadata is refused, and which carries a target: New frames, and Keep frames marked as UDP |
| MuxFrames.NewMetaReads | proxy/src/mux.rs:47-75 | the metadata of a New frame parses back to session, network and target |
| MuxFrames.KeepTcpReads | proxy/src/mux.rs:79-88 | a built TCP Keep frame reads back as its session and data |
| MuxFrames.KeepUdpReads | proxy/src/mux.rs:90-105 | a built UDP Keep frame reads back as its session, target and data, and can always be built |
| MuxFrames.EndReads | proxy/src/mux.rs:107-113 | a built End frame reads back |
| MuxFrames.UdpMetaReads | proxy/src/mux.rs:90-98 | the metadata of a UDP frame is at most 264 bytes and parses back to session and target |
| MuxDownlink.FrameWithinLimits | proxy/src/mux.rs:79-113 | every emitted frame respects the reader's 512 and 8192 byte limits and carries its true length, so the fallback to 0 is never taken |
| MuxDownlink.WireReads | proxy/src/mux.rs:190-224 | the concatenated wire is read as exactly the emitted frames and closes cleanly |
| MuxDownlink.InterleaveKeepsOrder | proxy/src/mux.rs:279-333 | in every schedule, a session's frames on the wire are a prefix of its own sequence, in order |
| MuxDownlink.TcpScriptCarries | proxy/src/mux.rs:316-333 | a TCP session's frames carry exactly its bytes, and all are acceptable to the reader |
| MuxDownlink.UdpScriptCarries | proxy/src/mux.rs:279-296 | a UDP session's frames carry its bytes, and its datagrams cut at 8192 bytes with their peers: one for one exactly when each has 1 to 8192 bytes |
| MuxDownlink.DownlinkDemultiplexes | proxy/src/mux.rs:279-333 | for every schedule, demultiplexing the shared wire gives each session its own frames in order |
| MuxDownlink.FinishedSessionComplete | proxy/src/mux.rs:279-333 | once a session has had all its turns, exactly its bytes have arrived, and its datagrams one for one exactly when each has 1 to 8192 bytes |
| MuxDownlink.FinishedSessionEnded | proxy/src/mux.rs:294-332 | a finished session's frames end with its End frame, and hold no other |
| MuxDemux.InboxGrows | proxy/src/mux.rs:226-243 | the session an id names gets what its own Keep frames bring up to the next New or End with its id, as far as its channel takes them; others get nothing |
| MuxDemux.SessionReceivesItsOwn | proxy/src/mux.rs:226-276 | the session opened by a New frame receives that frame's data and its own later data, as far as its channel takes them, and nothing else |
| MuxDemux.OneInboxPerOpening | proxy/src/mux.rs:245-276 | sessions are opened by New frames with a target, one each |
| MuxUplink.UpWireReads | proxy/src/mux.rs:47-75 | a wire of client frames, spelled out byte by byte, reads as those frames |
| MuxUplink.SentCarries | proxy/src/mux.rs:245-351 | what is handed to a session carries, for TCP, exactly the bytes of its frames, and for UDP the datagrams with their targets |
| MuxUplink.UplinkDelivers | proxy/src/mux.rs:190-351 | for any mixture of sessions, the inbox of each opened session holds what was sent to it, in order, as far as its channel takes it |
| MuxUplink.UplinkReceived | proxy/src/mux.rs:190-351 | from the wire to the bytes or datagrams a session received |
| MuxUplink.DemuxUplink | proxy/src/mux.rs:190-351 | the same through the demultiplexer, for every cut of the wire |
| MuxDemux.Demuxer.Take | proxy/src/mux.rs:132-142 | exactly the next n bytes of held plus unread input, however it arrives |
| MuxDemux.Demuxer.NextFrame | proxy/src/mux.rs:201-224 | reads the frame that stands at the front of the input, and distinguishes a clean close from a broken frame |
| MuxDemux.Demuxer.NextData | proxy/src/mux.rs:216-224 | the data part, within its limit, when announced |
| MuxDemux.Demuxer.HandleNew | proxy/src/mux.rs:245-315 | opens a session and hands it the frame's data unless its channel is closed; an empty first chunk is dropped for TCP and kept for UDP |
| MuxDemux.Demuxer.HandleKeep | proxy/src/mux.rs:337-351 | hands data to the named session only, unless its channel is closed; UDP data without a target is dropped |
| MuxDemux.Demuxer.Dispatch | proxy/src/mux.rs:226-242 | one step of the frame machine |
| MuxDemux.Demuxer.Demux | proxy/src/mux.rs:190-243 | for every chunking of the input the loop ends in the state of the frame machine on the frames of the input, and reports success exactly on a clean close or cancellation |
| GrpcVarint.VarintRoundTrip | transport/src/grpc.rs:545-579 | every u64 reads back from its varint, leaving what follows |
| GrpcVarint.VarintRefused | transport/src/grpc.rs:545-561 | exactly which varints are refused |
| GrpcVarint.PutVarint | transport/src/grpc.rs:573-579 | the shifting loop emits the base-128 digits with continuation bits |
| GrpcVarint.VarintLen | transport/src/grpc.rs:563-571 | the counting loop gives the length of what is emitted |
| GrpcVarint.DecodeVarint | transport/src/grpc.rs:545-561 | the loop is the reader of the round trip, with truncation and overlong input refused |
| GrpcHunk.DecodeStable | transport/src/grpc.rs:463-495 | a decoded message or a refusal stands when more bytes arrive |
| GrpcHunk.SkipFields | transport/src/grpc.rs:499-541 | any fields numbered 2 to 15 before the payload are skipped, whatever their wire types |
| GrpcHunk.SkippedExactlyUpTo15 | transport/src/grpc.rs:497-541 | an unknown field of any wire type is skipped whatever its content exactly when its number is at most 15 |
| GrpcHunk.LongTagStumbles | transport/src/grpc.rs:499-541 | for every later number and wire type, a content that makes the parser refuse the message |
| GrpcHunk.MessageDecodes | transport/src/grpc.rs:463-541 | a framed message with such fields around its payload decodes to the payload |
| GrpcHunk.EncodeHunkIsMessage | transport/src/grpc.rs:434-459 | the encoder writes exactly such a message, without other fields |
| GrpcHunk.FormatExamples | transport/src/grpc.rs:434-459 | varints and a hunk, byte by byte |
| GrpcHunk.DecodeRefusals | transport/src/grpc.rs:463-495 | when five bytes of a frame are refused, wait for more, or give a message |
| GrpcHunk.EncodeRefused | transport/src/grpc.rs:434-459 | exactly which payloads the encoder refuses |
| GrpcHunk.StreamDecodes | transport/src/grpc.rs:463-541 | a stream of messages decodes to the concatenated payloads |
| GrpcHunk.FindPayload | transport/src/grpc.rs:499-541 | the field loop finds field 1, or refuses, as the recursive definition says |
| GrpcRead.ReadHalf.Advance | transport/src/grpc.rs:286-305 | decoding one message keeps what is still to be delivered |
| GrpcRead.ReadHalf.HandOver | transport/src/grpc.rs:287-292 | as many pending bytes as there is room for |
| GrpcRead.ReadHalf.PollRead | transport/src/grpc.rs:279-313 | a poll delivers the next bytes of the decoded stream, at most what the buffer takes, and loses none; an empty result means the end |
| GrpcRead.ReadHalf.PollMany | transport/src/grpc.rs:279-313 | over any sequence of buffer sizes the results concatenate to a prefix of the decoded stream, to all of it at the end, and enough reads reach the end |
| GrpcRead.ReadTunnel | transport/src/grpc.rs:279-313 | for every split of the stream into DATA chunks and every sequence of buffer sizes, a prefix of the payloads is returned, and exactly the payloads once the end is reached, which enough reads with room bring about |
| GrpcWrite.WrittenDecodes | transport/src/grpc.rs:453-541 | the hunks of all accepted writes decode to the concatenated payloads exactly when every message is within the decoder's limit |
| GrpcWrite.HunkDecodes | transport/src/grpc.rs:453-495 | an encoded hunk decodes to its payload, or is refused exactly when it is beyond the decoder's limit, which the encoder does not check |
| GrpcWrite.OversizeAccepted | transport/src/grpc.rs:434-459 | payloads that the encoder takes and the decoder refuses |
| GrpcWrite.Writer.FlushWriteBuf | transport/src/grpc.rs:224-245 | sends exactly as much of the buffer as is granted before the first wait; sent plus buffered stay the hunks of the accepted writes |
| GrpcWrite.Writer.PollWrite | transport/src/grpc.rs:316-335 | sent plus buffered equal the hunks of all accepted writes, for every sequence of capacities; a write is accepted exactly when it can be framed and the buffer drains, also if the stream is then lost and the call reports it |
| GrpcWrite.Writer.PollShutdown | transport/src/grpc.rs:341-352 | trailers go out at most once, only after every accepted hunk was sent, and do go out when capacity suffices |
| GrpcWrite.SplitContinues | transport/src/grpc.rs:266-276 | after a split, what the write half sends continues the hunks of the accepted writes exactly when the write buffer was empty |
| GrpcWrite.IntoSplit | transport/src/grpc.rs:266-276 | the write half goes on with the same stream, without the buffer |
| GrpcWrite.SplitAndSend | transport/src/grpc.rs:266-276 | the same for a stream object that is split and then sends payload after payload |
| GrpcWrite.SplitLosesBytes | transport/src/grpc.rs:266-335 | for every payload, a first write without capacity is accepted and wholly lost by a split |
| GrpcWrite.WriteHalf.SendAll | transport/src/grpc.rs:410-430 | sends exactly the prefix that the capacity granted before a loss allows, succeeds exactly when that is everything, and says what capacity is left |
| GrpcWrite.WriteHalf.Send | transport/src/grpc.rs:393-402 | header then payload is the same byte stream as the encoded hunk; it succeeds exactly when capacity suffices for the header and what is left of it for the payload |
| Replay.StepKeepsValid | proxy/src/vmess.rs:76-98 | the set is always the queue's ids, and the queue holds none twice |
| Replay.PrunedIsRecent | proxy/src/vmess.rs:87-98 | pruning keeps exactly the acceptances still inside their window |
| Replay.QueueSorted | proxy/src/vmess.rs:64-98 | expiries in the queue are always sorted |
| Replay.StepFollowsHistory | proxy/src/vmess.rs:76-86 | one attempt is decided by the rule on the full history of acceptances |
| Replay.AcceptsExactlyFresh | proxy/src/vmess.rs:64-98 | over every run with a clock that does not go back, an id is accepted exactly when it was not accepted in the last 120 seconds and fewer than 65536 acceptances lie there |
| Replay.RecentMeansLessThanWindow | proxy/src/vmess.rs:76-86 | the window is exactly 120 seconds |
| Replay.ReplayFilter.Prune | proxy/src/vmess.rs:87-98 | the loop drops exactly the expired front of the queue and keeps set and queue in step |
| Replay.ReplayFilter.CheckInsert | proxy/src/vmess.rs:76-86 | the in-place filter makes the step of the history theorem |
| Hotset.MatchUser | proxy/src/vmess/user.rs:94-126 | for every hotset it succeeds exactly when a plain scan does, tries no user twice, tries all before failing, and finds the scan's user when at most one matches |
| Hotset.TryActive | proxy/src/vmess/user.rs:100-114 | the first pass rejects or finds hot users, skipping repeated and out-of-range indices |
| Hotset.TryRest | proxy/src/vmess/user.rs:115-125 | the second pass tries everyone else |
| Hotset.TriedSet.Mark | proxy/src/vmess/user.rs:139-145 | marks one index, and nothing when it is out of range |
| Hotset.TriedSet.Contains | proxy/src/vmess/user.rs:147-154 | says whether an index was marked |
| Hotset.ByRecencyDistinct | proxy/src/vmess.rs:164-175 | the recency list holds each index of the history once |
| Hotset.ByRecencyOrdered | proxy/src/vmess.rs:164-175 | earlier in the list means used more recently |
| Hotset.HotsetIsMostRecent | proxy/src/vmess.rs:164-175 | after any run of successes the hotset is the 1024 most recent distinct users, newest first |
| Hotset.ActiveUsers.SetUsers | proxy/src/vmess.rs:138-143 | stores the new user table and empties the hotset |
| Hotset.ActiveUsers.Remember | proxy/src/vmess.rs:164-175 | moves the index to the front, without repetition, within the bound |
| SwapProtocol.RunKeepsInv | kernel/src/runtime/service/mod.rs:84-187 | every interleaving of publisher steps, polls, clones and drops keeps the protocol invariant |
| SwapProtocol.StartIsSafe | kernel/src/runtime/service/mod.rs:150-162 | a new handle satisfies it |
| SwapProtocol.DrainedPollHoldsNewest | kernel/src/runtime/service/mod.rs:109-130 | a poll that has drained the channel and holds a service holds the newest published one |
| SwapProtocol.PollOutsideUpdateIsLive | kernel/src/runtime/service/mod.rs:109-130 | outside an update one poll is enough to hold the newest service |
| SwapProtocol.TokensFollowPolicy | kernel/src/runtime/service/mod.rs:177-187 | outside an update exactly the superseded generations' tokens are cancelled under Abort, and none under Drain |
| SwapProtocol.NeverGoesBack | kernel/src/runtime/service/mod.rs:109-140 | the generations a consumer holds over any run are ascending |
| SwapProtocol.CallServesLastHeld | kernel/src/runtime/service/mod.rs:132-140 | a call is served by the generation the consumer held last |
| SwapProtocol.UpdateServesNext | kernel/src/runtime/service/mod.rs:177-187 | an update that runs through serves the next generation under a new token |
| SwapProtocol.CloneStartsAfresh | kernel/src/runtime/service/mod.rs:84-101 | a clone has nothing cached, and its first poll takes the current value |
| SwapProtocol.DroppedIsGone | kernel/src/runtime/service/mod.rs:177-187 | dropping a consumer touches no other; without consumers or handle no update is announced |
| KeyedTree.EveryEntryReportedOnce | kernel/src/runtime/service/mod.rs:317-359 | every configuration entry appears in exactly one of the three lists |
| KeyedTree.BuildsMatchReport | kernel/src/runtime/service/mod.rs:317-359 | builds are exactly one per added or updated entry |
| KeyedTree.ReportIsExact | kernel/src/runtime/service/mod.rs:317-359 | for distinct keys, added, updated and unchanged say what changed between old and new configuration |
| KeyedTree.GrownValid | kernel/src/runtime/service/mod.rs:317-345 | adding a key keeps nodes and services in step, each publishing its build |
| KeyedTree.SwappedValid | kernel/src/runtime/service/mod.rs:250-257 | swapping one key's service keeps the same |
| KeyedTree.ShrunkValid | kernel/src/runtime/service/mod.rs:346-359 | so does removing keys |
| KeyedTree.Tree.Add | kernel/src/runtime/service/mod.rs:221-237 | a new node with its own channel, built once |
| KeyedTree.Tree.Reconfigure | kernel/src/runtime/service/mod.rs:250-257 | rebuilds and swaps exactly when the configuration differs |
| KeyedTree.Tree.ApplyOne | kernel/src/runtime/service/mod.rs:317-345 | one entry is added, swapped or left alone, and reported as such |
| KeyedTree.Tree.ApplyAll | kernel/src/runtime/service/mod.rs:317-345 | every entry applied in order, consumers keep their channels |
| KeyedTree.Tree.DropStale | kernel/src/runtime/service/mod.rs:346-359 | removes and reports exactly the keys not mentioned |
| KeyedTree.Tree.Reconcile | kernel/src/runtime/service/mod.rs:317-359 | after any reconcile nodes and services have exactly the keys given, each key serves Ready of a build of its last configuration, the report and the builds are exact, and surviving keys keep their channel |
| Decimal.I32RoundTrip | saas/src/builder.rs:49-51 | the decimal text of every 32-bit number parses back |
| Decimal.ParseI32Form | saas/src/controller.rs:351-351 | signs and range of the uid |
| Decimal.ValueOfPadded | saas/src/egress_compile.rs:65-65 | zero-padded decimals determine their number |
| UserTag.OwnTagParses | saas/src/controller.rs:347-353 | a node reads its own tags back to the same uid and email, whatever the email |
| UserTag.TagReading | saas/src/controller.rs:347-353 | what any node reads in any tag, bars or not: claimed exactly when node and bar begin the other's tag, bar and email, and then under what is left of them |
| UserTag.TagAttribution | saas/src/controller.rs:347-353 | a node reads another's tag as the owner's or refuses it, exactly unless its own tag and a bar begin the other's tag, bar and email |
| UserTag.NodesKeepApart | saas/src/controller.rs:347-353 | a node refuses every tag of another exactly when neither node tag with its bar begins the other |
| UserTag.BarFreeApart | saas/src/builder.rs:49-51 | bar-free node tags are never nested |
| UserTag.NodeTagBarFree | saas/src/builder.rs:39-46 | a node tag holds a bar exactly when the configured listen address does |
| UserTag.NodeTypeNames | saas/src/api.rs:46-56 | the names of the node types |
| UserTag.BarInListenAddressConfuses | saas/src/builder.rs:39-51 | two nodes with tags of the built form, one with a bar in its listen address: one claims the other's bytes, under a wrong email |
| Accounting.StepBalances | kernel/src/stats.rs:37-91 | no atomic step of an adder or of a controller's cycle changes held + in hand + reported + discarded − added, for any counter and direction |
| Accounting.LinesReportTaken | saas/src/controller.rs:272-290 | the lines of a report carry exactly the bytes taken |
| AccountingRuns.NextKeepsShape | kernel/src/stats.rs:108-146 | every step, spawn and registration keeps threads and registry consistent and loses no counter |
| AccountingRuns.RunConserves | saas/src/controller.rs:270-313 | over every interleaving whose totals stay below 2^63, added = held + in hand + reported + discarded |
| AccountingReports.DiscardedOnlyByDisabled | saas/src/controller.rs:297-305 | only a reporter with upload disabled discards, at the end of its loop, and exactly what it took |
| AccountingReports.ReportedOnlyBySend | saas/src/controller.rs:307-313 | reports grow exactly by an accepted send of a reporter that is not disabled, and by exactly its lines |
| AccountingReports.RefusedKeeps | saas/src/controller.rs:308-312 | a refused send keeps everything in hand to be put back |
| AccountingReports.RunDiscardsNothing | saas/src/controller.rs:297-305 | over every run without a disabled reporter nothing is discarded |
| AccountingReports.RunReportsNothing | saas/src/controller.rs:297-313 | over every run without an accepted report, or with disabled reporters only, nothing is reported |
| AccountingReports.DoneBalances | saas/src/controller.rs:270-313 | once all threads are done, bytes added are held, reported or discarded |
| AccountingReports.MarksBeforeAdding | kernel/src/stats.rs:37-91 | adding and putting back mark the counter first, and the marker lists it exactly if the flag was down |
| AccountingReports.SaturatedForm | saas/src/controller.rs:286-287 | totals in a report are cut at 2^63 - 1 |
| AccountingListing.OverlookedExactlyByLateAdd | kernel/src/stats.rs:37-91 | a step leaves bytes in a counter that is neither dirty nor about to be taken exactly when it adds bytes to a counter that is neither |
| AccountingListing.TrackedExactlyWithoutLateAdds | kernel/src/stats.rs:37-91 | over every interleaving, counters with bytes are dirty or about to be taken at every moment exactly when no step of the run is such an add |
| AccountingListing.RunKeepsListedOnce | kernel/src/stats.rs:37-47 | over every interleaving a tag is listed once, in one place, while its counter is dirty, and nowhere otherwise |
| AccountingListing.ListedExactlyDirty | kernel/src/stats.rs:37-146 | after every run a tag is active, about to be listed or in a reporter's list exactly when its counter is dirty |
| AccountingListing.UnseenExactlyByLateAdd | kernel/src/stats.rs:37-91 | a step leaves bytes that no list mentions and no reporter is about to take exactly when it is a late add |
| AccountingListing.BytesListedExactlyWithoutLateAdds | kernel/src/stats.rs:37-146 | over every interleaving, counters with bytes are listed or about to be taken at every moment exactly when no step of the run is a late add |
| AccountingListing.DoneMeansActive | kernel/src/stats.rs:37-146 | once all threads are done, the active counters are the dirty ones, and bytes are overlooked exactly in those not active |
| AccountingTraces.LateAddIsUnlisted | kernel/src/stats.rs:37-82 | for every amount, a run after which a counter holds it and is neither dirty nor listed, with all threads done |
| AccountingTraces.TornTake | kernel/src/stats.rs:75-82 | for all amounts, a run in which a reporter takes a pair of totals that the counter never held |
| AccountingTakes.TotalFollowsSteps | kernel/src/stats.rs:50-91 | over every interleaving, a total is what the swaps and adds of the run make of it, no other step touching it |
| AccountingTakes.TotalKeptExactlyWithoutAdds | kernel/src/stats.rs:50-91 | over every run that does not swap a total, its steps never lower it, and leave it as it was exactly when none adds to it |
| AccountingTakes.TakenPairWasHeld | kernel/src/stats.rs:75-82 | with any run of other threads between a reporter's two swaps, the pair taken is the one held at the first swap exactly when swaps and adds in between bring the download total back to what it was; if no other reporter swaps it, exactly when nothing was added to it |
| TrafficReport.TrafficConserved | saas/src/controller.rs:270-313 | over every run of controllers whose node tags are not nested in one another, bytes added for a user of a node are held, in hand, discarded, or reported under exactly that node, uid and email |
| TrafficReport.TrafficReported | saas/src/controller.rs:270-313 | with no controller disabled, bytes added for a user are held, in hand, or reported under exactly that node, uid and email |
| TrafficReport.PossibleIsEnabled | kernel/src/stats.rs:108-117 | every registration of a user's tag, and every other step of the controllers, is one the conservation theorem covers |
| TrafficReport.BarFreeNodesApart | saas/src/builder.rs:39-51 | bar-free node tags meet the condition of the conservation theorem |
| TrafficReport.ReportsNameRegisteredUsers | saas/src/controller.rs:274-290 | every reported line names a registered user of a reporting node |
| Stats.Registry.Counter | kernel/src/stats.rs:108-117 | creates a zero counter once and never replaces one |
| Stats.Registry.MarkActive | kernel/src/stats.rs:37-47 | the first to mark a counter lists it; counters with bytes stay dirty and dirty ones listed |
| Stats.Registry.AddUp | kernel/src/stats.rs:50-55 | adds upload bytes, and a counter with bytes is listed or in a reporter's list |
| Stats.Registry.AddDown | kernel/src/stats.rs:58-63 | the same for download |
| Stats.Registry.Restore | kernel/src/stats.rs:85-91 | adds both back and lists the counter again |
| Stats.Registry.Take | kernel/src/stats.rs:76-82 | returns both totals and leaves a clean zero counter, for any counter |
| Stats.Registry.ActiveCounters | kernel/src/stats.rs:133-146 | every listed tag exactly once, and the list is empty afterwards |
| Stats.CollectOne | saas/src/controller.rs:273-282 | takes one counter; its bytes go straight back unless the tag is readable |
| Stats.CollectNext | saas/src/controller.rs:273-290 | one turn of the collecting loop |
| Stats.Collect | saas/src/controller.rs:273-290 | whatever other reporters have on their lists, empties exactly the active counters with bytes whose tag the node can read, with one line each, and puts the others back |
| Stats.RestoreAll | saas/src/controller.rs:309-311 | adds what was taken to whatever each counter holds by now, and lists it |
| Stats.ReportCycle | saas/src/controller.rs:270-313 | whatever other reporters have on their lists: on success or with upload disabled exactly the readable active counters with bytes are emptied; on failure no total changes; counters with bytes stay listed; with no other reporter under way none is missed |
| Cidr.PrefixMatch | kernel/src/route/rule.rs:84-105 | the byte-and-mask loop matches exactly when net / 2^(W-p) = ip / 2^(W-p) |
| Cidr.ShorterPrefixMatches | kernel/src/route/rule.rs:84-105 | matching under a prefix implies matching under every shorter one |
| Cidr.FullPrefixIsEquality | kernel/src/route/rule.rs:71-105 | the full prefix matches the address itself only |
| Cidr.Contains | kernel/src/route/rule.rs:71-81 | same family and same network part |
| Text.UnderMeans | kernel/src/route/rule.rs:180-194 | ending in a suffix, whole or after a dot, is having its labels at the end of the label list |
| Text.LowerLetters | kernel/src/route/rule.rs:211-217 | lower case letter by letter, everything else unchanged |
| Text.WhiteSpace | saas/src/egress_compile.rs:152-188 | the white space characters, one by one |
| Route.SuffixMatchIsUnder | kernel/src/route/rule.rs:182-194 | the byte comparison decides exactly that, whatever the case |
| Route.RoutedIsFirstMatch | kernel/src/route/rule.rs:304-313 | the decision belongs to the least matching rule, or to the default |
| Route.AnyMatches | kernel/src/route/rule.rs:257-259 | true exactly when some condition of the rule matches |
| Route.PortRange | kernel/src/route/rule.rs:148-148 | a port range matches its ports, both ends included |
| Route.WithinBlock | kernel/src/route/rule.rs:153-156 | an address block matches numeric targets of its family and prefix |
| Route.DecidesForOwnTag | kernel/src/route/rule.rs:262-282 | a rule decides for one of its own tags, and drops the flow without any |
| Route.RouteFlow | kernel/src/route/rule.rs:304-313 | the loop returns the decision of the first matching rule, the default when none matches |
| Egress.RuleRoundTrip | saas/src/egress_compile.rs:152-188 | a written rule expression parses back exactly when its name is nonempty and trimmed |
| Egress.RuleTrimmed | saas/src/egress_compile.rs:152-156 | white space around a rule changes nothing |
| Egress.RuleLines | saas/src/egress_compile.rs:152-178 | what the lines of a block mean, word by word |
| Egress.SuffixMeansDomain | saas/src/egress_compile.rs:160-165 | "suffix:" and "domain:" lines mean the same |
| Egress.PlainLines | saas/src/egress_compile.rs:152-178 | comments and blank lines are nothing, a plain name is a suffix |
| Egress.Normalize | saas/src/egress_compile.rs:59-107 | keeps the blocks with effective rules under their position's tag, and fails on the first of them without exactly one outbound |
| Egress.FilterRules | saas/src/egress_compile.rs:66-70 | the expressions of the lines that parse, in order |
| Egress.RuleConditions | saas/src/egress_compile.rs:225-241 | the conditions of the expressions in order, keywords dropped |
| Egress.CompileRules | saas/src/egress_compile.rs:130-141 | one rule per route that has conditions, in order |
| Egress.CompileNormalized | saas/src/egress_compile.rs:124-150 | all outbounds or the first failure, and one rule per route with conditions |
| Egress.Compile | saas/src/egress_compile.rs:110-121 | the compiler that the meaning theorems speak of |
| EgressMeaning.BuildMap | kernel/src/pipe/outbound.rs:59-81 | the tag map, a later item replacing an earlier one |
| EgressMeaning.Dispatch | kernel/src/runtime/tree.rs:180-205 | routes, resolves the tag and looks it up; nothing when the link is dropped |
| EgressMeaning.TagsUnique | saas/src/egress_compile.rs:64-98 | generated tags never collide with each other or with the default's |
| EgressMeaning.TagResolves | kernel/src/runtime/tree.rs:190-205 | every route tag and the default tag resolve to their own compiled outbound |
| EgressMeaning.SelectedIsKept | kernel/src/runtime/tree.rs:180-205 | routing and dispatch reach the compiled outbound of the first surviving block that speaks of the flow |
| EgressMeaning.ConditionSpeaks | saas/src/egress_compile.rs:225-241 | a compiled condition matches a flow exactly when the expression speaks of it |
| EgressMeaning.CompileMeansInterpret | saas/src/egress_compile.rs:59-150 | for every configuration that compiles, every flow and every geo oracle, the selected outbound is what the first applicable block in the file specifies (its kind, server, port, credentials and cipher), else direct; the link is never dropped for want of a tag |
| EgressMeaning.BlockedExactly | saas/src/egress_compile.rs:190-218 | flows are dropped exactly where the configuration blocks, and go out directly exactly where it says so or nothing |
| EgressMeaning.OutboundMeans | saas/src/egress_compile.rs:190-218 | a specification compiles exactly with a known cipher, and then to what it says |
| EgressMeaning.CipherNames | proxy/src/shadowsocks.rs:34-44 | the cipher names and what each stands for |
| EgressMeaning.NameDecides | kernel/src/route/rule.rs:209-218 | domain rules look at the target's name, else at the sniffed one, in any case; full is a suffix, keyword never applies |
| EgressMeaning.FaultIsFirst | saas/src/egress_compile.rs:80-85 | the error names the first block at fault |
| EgressMeaning.RouteTagForm | saas/src/egress_compile.rs:60-65 | what the generated tags look like |
| EgressMeaning.CompilesExactlyWhen | saas/src/egress_compile.rs:59-150 | a configuration compiles exactly when it is off or every block has no effective rule or exactly one outbound with a known cipher |
| Sniff.SniffsHello | kernel/src/route/sniff.rs:61-181 | for every ClientHello in one record, whatever follows: the first acceptable host name is returned exactly when the first list with one does not hide it (or a later list repeats it); with one server_name extension, exactly when its list hides none |
| Sniff.SniffsAnyHello | kernel/src/route/sniff.rs:61-181 | for every ClientHello, also with several host names in a list: the leading host name of the first list whose leading one is acceptable |
| Sniff.LeadingIsFirst | kernel/src/route/sniff.rs:152-178 | a list gives its first acceptable host name exactly when no unacceptable host name stands before it |
| Sniff.FirstNameIsFirstHost | kernel/src/route/sniff.rs:121-137 | the two readings of a hello agree exactly under that condition |
| Sniff.OneNamesMisled | kernel/src/route/sniff.rs:121-137 | with one server_name extension, as section 4.2 of RFC 8446 demands, a hello misleads exactly when its list hides a host name |
| Sniff.HiddenHostIsMissed | kernel/src/route/sniff.rs:61-181 | for any unacceptable and acceptable name, the hello that lists them in this order is sniffed as nameless |
| Sniff.OneHostHidesNothing | kernel/src/route/sniff.rs:145-181 | lists with at most one host name, as section 3 of RFC 6066 demands, hide nothing |
| Sniff.SecondHostHidden | kernel/src/route/sniff.rs:160-175 | any unacceptable host name hides any acceptable one behind it |
| Sniff.SpacedHostHides | kernel/src/route/sniff.rs:160-175 | an instance: a name with a space before a good one |
| Sniff.PrefixYieldsNothing | kernel/src/route/sniff.rs:61-81 | any proper prefix of a record yields nothing |
| Sniff.AnswerStable | kernel/src/route/sniff.rs:61-81 | an answer given stands when more bytes follow, for any input |
| Sniff.ExtensionsFound | kernel/src/route/sniff.rs:89-119 | the walk over session id, ciphers and compression finds exactly the extensions |
| Sniff.SkipToExtensions | kernel/src/route/sniff.rs:89-119 | the skipping code, each length checked first |
| Sniff.ExtensionsReadBack | kernel/src/route/sniff.rs:121-137 | walking encoded extensions finds the first list with an acceptable leading host name |
| Sniff.EntriesReadBack | kernel/src/route/sniff.rs:145-181 | walking an encoded name list finds its leading host name, if acceptable |
| Sniff.CheckName | kernel/src/route/sniff.rs:160-175 | accepts a name exactly without control bytes, spaces and trailing dot, and as UTF-8 |
| Sniff.NamesAccepted | kernel/src/route/sniff.rs:160-175 | which names are acceptable |
| Sniff.SniffRefusals | kernel/src/route/sniff.rs:61-119 | which records and messages are refused |
| Sniff.ReadServerName | kernel/src/route/sniff.rs:145-181 | the loop over name entries |
| Sniff.ReadClientHello | kernel/src/route/sniff.rs:89-137 | the loop over extensions |
| Sniff.SniffTls | kernel/src/route/sniff.rs:61-81 | the sniffer of the theorems above |

## Left out

- Sockets, listeners, TLS, WebSocket, HTTP/2 internals, DNS, dialers: input and output; they appear as byte sequences, pieces and capacities.
- Cipher, hash, key derivation, SHAKE and CRC bodies, the VMess key derivation and request header: only the laws named above are used.
- Failures to construct a cipher or to derive a subkey: lengths are fixed by the method, so they are not modelled.
- Timers, idle cancellation, fairness and liveness: only safety over steps is stated.
- Panel client, JSON and TOML models, node-string parsers, system metrics, controller rebinding and retries: plumbing around the modelled core.
- `Stats::remove` and counters dropped with their users: a removed counter's bytes leave the registry, so conservation is stated without it.
- Dokodemo, HTTP proxy rewriting, the HTTP sniffer, the SOCKS handshake, UUID text, read-copy-update cells: only easy members.
- Shadowsocks UDP sessions and SOCKS UDP association: mostly socket bookkeeping.
- Parsing of `ip:` and `port:` conditions and of CIDR text: the egress language does not produce them; blocks are taken as the parser leaves them, with a prefix no longer than the address.
- Load balancing among several outbounds: what the balancer picks is part of the query; compiled egress rules have one outbound each.
- Shadowsocks key derivation from the password and parsing of the server name in `Egress.CompileOutbound`: outbounds keep both as text.
- MuxDownlink.DownlinkDemultiplexes: session ids are not reused within a run, as the sessions form one map; a cancelled downlink loop is the session of the chunks it took before.
- MuxDemux.Demuxer.HandleNew: the egress of a sub-session is its inbox, with the number of hand-overs its channel takes; waiting on a full channel is not modelled.
- GrpcHunk.SkipFields: is about fields numbered 2 to 15, the ones the parser skips whatever they hold; GrpcHunk.SkippedExactlyUpTo15 says why no others.
- GrpcWrite.Writer.PollWrite: an error of the HTTP/2 library on sending a chunk, rather than on asking for capacity, is not modelled.
- Replay.AcceptsExactlyFresh: clocks that go back, and the last second of the u64 range, are outside its hypothesis.
- SwapProtocol.RunKeepsInv: the watch channel is modelled by its latest value and version, which is all that a receiver can see.
- KeyedTree.Tree.Reconcile: nodes are values holding a channel number; the swap itself is the protocol of SwapProtocol, and tokens are not tracked per key.
- Stats.Registry.Take: counters are map entries rather than shared objects, so a call through an old handle after removal is not expressible.
- Hotset.MatchUser: whether a user matches an authid is an arbitrary predicate.
