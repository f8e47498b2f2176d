# Verified models of the RCP host tools

A Dafny 4.11 project that models the parts of this repository where a mistake is hard to see, and proves what
they are for. Every statement is for all inputs, all runs or all reachable states of the model.

- **Signature arithmetic** (`Arith`, `Montgomery`, `Der`, `RsaVerify`, `RsaRange`): the word-level Montgomery
  multiplication with its 64-bit accumulators, exponentiation by 3 and by 65537 for every key length, and the two
  verification routines, against sections 5.2.2, 8.2.2 and 9.2 of RFC 8017; the padding bytes are read as DER.
- **SHA-1** (`Sha1`, `Sha1Known`): the unrolled build with its rotating registers and the plain build, against sections
  5.1.1 and 6.1.2 of FIPS 180-4, for every message and every way of cutting it into updates; where the constants come
  from; and two digests that are known, computed round by round.
- **ADB streams** (`Streams`, `StreamRuns`, `StreamCredits`, `StreamCloses`, `SocketHandlers`): two endpoints over two
  FIFO channels, any number of streams, any partial write, any failing fd, any interleaving. Integrity, one-packet
  credit and draining close are invariants of all runs, for both directions of every stream, and so are the account of
  what a socket sent against the OKAYs that reached it and the count of the CLSEs; the handlers with their loops are
  proved to be the steps of that system.
- **ADB socket graph** (`SocketGraph`, `SocketNotices`): peers, lists and disconnect callbacks, what the far side is
  told and what is kept to drain. The heap is a map from addresses, so a verified body cannot touch a freed socket.
- **ADB event loop** (`FdEvent`): descriptor table, select sets and pending list under any calls, also from callbacks.
- **ADB transport threads** (`TransportLife`): kick, close, remove and the SYNC token over all interleavings of the
  main loop and the two threads, on the device build.
- **ADB file sync** (`SyncMessages`, `FileSync`, `PushPull`): client and service against each other, byte by byte, with
  failing file systems, partial transfers and connections that break at any byte. When a push or a pull returns 0, and
  what it leaves then, are stated as if-and-only-ifs over all inputs.
- **ADB service frames** (`SmartSocket`): the hex-prefixed service string in any pieces.
- **Bluetooth firmware download** (`LittleEndian`, `PatchIndex`, `PatchWire`, `PatchV2`, `PatchV3`): from the bytes of a
  patch file, through the priority queue, to the exact sequence of commands on the wire, as the controller reads them.
- **Firmware update rounds** (`CfuRounds`): the round loop of the CFU tool, and for every device whether, when and how
  it ends.

`Lists` holds the shapes that several of these share.

Code whose state changes step by step is written as classes and methods with loops, each proved against a function on
values; lists and dictionaries it updates are fields of sequence or map type. Lemmas then prove what the source promises
about those functions. What an operating system, a device or a network would decide is a parameter.

Where the code differs from its own words, or from the standard it follows, the model follows the code:

- `adb/adb/fdevent.c:642-646` says that events no longer wanted are dropped; the code drops those that are wanted.
  What it says comes true exactly if there was no such event (`FdEvent.EventLoop.Set`); otherwise the fdevent is
  called with an event it no longer wants (`FdEvent.UnwantedCall`). The invariants hold all the same.
- Section 8.2.2 of RFC 8017 finds a signature invalid that is not below the modulus. The code does not look at the
  range: below the modulus it accepts exactly what that section accepts, and any other signature exactly if its
  residue is accepted there (`RsaVerify.RsaE3Verify`, `RsaVerify.RsaEF4Verify`). `RsaRange.AcceptedOutOfRange` has a key
  and a signature that only the code accepts.
- `adb/libmincrypt/rsa_e_f4.c:121-124` says the result is at most once the modulus too large. That is so exactly if
  twice the modulus reaches the radix, which a modulus with its top bit set ensures (`RsaVerify.OneSubtractionSuffices`).
- A version 2 download is complete exactly if firmware and configuration fit into 65536 fragments, a version 3
  download exactly if every section has at most 65534: the indices have 16 bits (`PatchV2.Download`, `PatchV3.Download`).
  A version 2 download beyond its limit is still reported as success exactly if there is no configuration
  (`PatchV2.OverLimit`); a version 3 download beyond its limit is not (`PatchV3.TooLong`).
- A push that returns 0 leaves exactly the source bytes if all of them could be read and no longer file stood in their
  place that could not be unlinked, because the service opens such a file without cutting it off; with a failing read it
  does so only if the file in its place makes up for what was not sent (`PushPull.Push`, `PushPull.PushOverStuck`).
  A local file that cannot be opened, or not be read to its end, is pushed short and still reported as success, because
  the result of sending the data is not looked at (`PushPull.SentExact`, `PushPull.PushUnread`).
- A pull that the far end reports as failed returns 0 (`PushPull.Pull` says exactly when). The local file is then gone,
  unless it cannot be unlinked and was there before or had been begun (`PushPull.PullExact`, `PushPull.PullOverStuck`).
- Registering a descriptor a second time takes it from the fdevent that has it, which is then no longer in the table
  (`FdEvent.EventLoop.Install`).
- Without the force flag nothing bounds the CFU loop: it goes on exactly as long as every odd round gets a version and
  every even round of a device with one bank has a file accepted, with nothing failing (`CfuRounds.Updater.Run`).
- `FwUpdateProcess.c:303` of the CFU tool says that boot files are sent in rounds 1 and 2 only. That is so for the first
  255 rounds; the counter has 8 bits, and lets them through again from round 256 on (`CfuRounds.OfferedWhen`).

## Model

| member | source | states |
|---|---|---|
| Montgomery.SubM | adb/libmincrypt/rsa_e_f4.c:32-41 | the words become their value minus the modulus, modulo the radix, and nothing is said of the last borrow but that it is discarded |
| Montgomery.GeM | adb/libmincrypt/rsa_e_f4.c:44-53 | true exactly if the value is at least the modulus |
| Montgomery.MontMulAdd | adb/libmincrypt/rsa_e_f4.c:56-78 | for any words: the new value stays below the radix and, times 2^32, is congruent to c + a*b modulo n |
| Montgomery.Fits | adb/libmincrypt/rsa_e_f4.c:60-69 | the two 64-bit accumulators never exceed 64 bits |
| Montgomery.FirstWord | adb/libmincrypt/rsa_e_f4.c:60-62 | the multiplier computed from n0inv clears the lowest word |
| Montgomery.LastCarry | adb/libmincrypt/rsa_e_f4.c:71-77 | the last carry is 0 or 1 |
| Montgomery.LastStep | adb/libmincrypt/rsa_e_f4.c:71-77 | subtracting the modulus once, and dropping the borrow, restores the range |
| Montgomery.MontMul | adb/libmincrypt/rsa_e_f4.c:81-92 | the product times the radix is congruent to a*b modulo n |
| RsaVerify.OneSubtractionSuffices | adb/libmincrypt/rsa_e_f4.c:121-124 | one conditional subtraction reduces every value below the radix if and only if twice the modulus reaches the radix; a set top bit ensures that |
| RsaVerify.RadixInvertible | adb/adb/adb_auth_host.c:83-98 | with n0inv as precomputed the radix has an inverse modulo n, so Montgomery forms can be cancelled |
| RsaVerify.FormProduct | adb/libmincrypt/rsa_e_f4.c:114-119 | the Montgomery product of two forms is the form of the product |
| RsaVerify.ReadBytes | adb/libmincrypt/rsa_e_f4.c:104-112 | the words hold the value of the big-endian bytes |
| RsaVerify.WriteBytes | adb/libmincrypt/rsa_e_f4.c:126-133 | the bytes hold the value of the words, big-endian |
| RsaVerify.ModPowF4 | adb/libmincrypt/rsa_e_f4.c:96-134 | the buffer becomes s^65537 mod n exactly, for every key length and every s below the radix |
| RsaVerify.ModPow3 | adb/libmincrypt/rsa_e_3.c:95-130 | the buffer becomes s^3 mod n exactly, for every key length and every s below the radix |
| RsaVerify.ReducedIsPower | adb/libmincrypt/rsa_e_f4.c:121-124 | the value behind the conditional subtraction is s^e mod n |
| RsaVerify.OpenedIsRfc | adb/libmincrypt/rsa_e_3.c:184-188 | what the code opens is the encoded message of section 8.2.2 of RFC 8017 if and only if the signature is below the modulus, and always that of its residue |
| Der.ElementsOfWritten | adb/libmincrypt/rsa_e_3.c:155-156 | elements of DER are read back from the bytes they are written as, with nothing left over |
| Der.WrittenOfElements | adb/libmincrypt/rsa_e_3.c:155-156 | bytes that read as elements of DER are what these are written as, so that there is no other form |
| Der.Sha1Identifier | adb/libmincrypt/rsa_e_3.c:155 | the one encoding of the object identifier 1.3.14.3.2.26 |
| Der.DigestInfoBytes | adb/libmincrypt/rsa_e_3.c:155-156 | bytes are one SEQUENCE of a SEQUENCE of that identifier and NULL, and an OCTET STRING of the hash, with all lengths exact, if and only if they are these |
| RsaVerify.PrefixIsDigestInfo | adb/libmincrypt/rsa_e_3.c:155-156 | the prefix followed by a hash is the DigestInfo of that hash, and nothing else is |
| RsaVerify.EncodedIsEncoding | adb/libmincrypt/rsa_e_3.c:137-157 | a message is the encoded hash if and only if it is 00 01, bytes ff up to position 220, 00, and exactly a DigestInfo of SHA-1 with the hash |
| RsaVerify.RsaE3Verify | adb/libmincrypt/rsa_e_3.c:162-202 | accepts if and only if key length, signature length and exponent are right and the opened signature is the encoded hash, which is a DigestInfo of SHA-1 with that hash behind its padding; below the modulus if and only if section 8.2.2 of RFC 8017 accepts; in general if and only if it accepts the residue |
| RsaVerify.RsaEF4Verify | adb/libmincrypt/rsa_e_f4.c:155-196 | accepts if and only if those are right and the opened signature, with the hash masked out, hashes to the constant; below the modulus if and only if section 8.2.2 of RFC 8017 gets to a message that passes this test; in general if and only if the message of the residue does |
| RsaVerify.ExpectedPadSha | adb/libmincrypt/rsa_e_f4.c:146-151 | the constant is the SHA-1 of the padding over twenty zero bytes |
| RsaVerify.XorBit | adb/libmincrypt/rsa_e_f4.c:180-183 | a bit of the exclusive or is set where exactly one of the two has it |
| RsaVerify.HashComparesPadding | adb/libmincrypt/rsa_e_f4.c:146-151 | that hash test accepts every correctly encoded signature, and anything else it accepts is a second preimage |
| RsaVerify.MaskedPadding | adb/libmincrypt/rsa_e_f4.c:180-183 | masking out the hash leaves the padding and zeros if and only if the signature was correctly encoded |
| RsaVerify.HashTestIsRfc | adb/libmincrypt/rsa_e_f4.c:185-195 | the test passes every message that section 8.2.2 of RFC 8017 accepts, and any other message that passes is a second preimage |
| RsaRange.ShiftedRejected | adb/libmincrypt/rsa_e_3.c:184-188 | a signature larger by the modulus opens alike, and section 8.2.2 of RFC 8017 never accepts it |
| RsaRange.VerifyBoth | adb/libmincrypt/rsa_e_3.c:162-202 | the code accepts both or neither, and section 8.2.2 of RFC 8017 at most the smaller |
| RsaRange.AcceptedOutOfRange | adb/libmincrypt/rsa_e_3.c:162-202 | a key, a hash and two signatures that the code accepts, of which section 8.2.2 of RFC 8017 accepts one |
| RsaRange.KeyOfFits | adb/adb/adb_auth_host.c:83-99 | the key struct computed from a modulus with its top bit set has the values verification relies on |
| Sha1.ChForm | adb/libmincrypt/sha.c:79-83 | the choice function as coded is the standard's |
| Sha1.MajForm | adb/libmincrypt/sha.c:108-112 | the majority function as coded is the standard's |
| Sha1.SwapLoad | adb/libmincrypt/sha.c:62-66 | byte swapping a loaded word gives the big-endian word |
| Sha1.ShaStep | adb/libmincrypt/sha.c:79-136 | one unrolled step with rotated register names is one round of the standard |
| Sha1.ShaCtx.TransformUnrolled | adb/libmincrypt/sha.c:51-145 | the unrolled transform is the standard's compression function |
| Sha1.ShaCtx.TransformPlain | adb/libmincrypt/sha.c:195-243 | the plain transform is the same compression function |
| Sha1.ShaCtx.Update | adb/libmincrypt/sha.c:147-168 | the context stands for the message so far followed by the data, in either build |
| Sha1.ShaCtx.Final | adb/libmincrypt/sha.c:171-189 | the buffer holds the SHA-1 of the message the context stands for |
| Sha1.PaddedBlocks | adb/libmincrypt/sha.c:264-271 | the padded message is a whole number of blocks |
| Sha1.Digest | adb/libmincrypt/sha.c:296-307 | for every message both builds give its SHA-1 |
| Sha1Known.RoundConstants | adb/libmincrypt/sha.c:65-136 | the constants of the rounds are the square roots of 2, 3, 5 and 10 in units of 2^-30, rounded down |
| Sha1Known.InitialBytes | adb/libmincrypt/sha.c:287-291 | the initial words are the bytes 01 23 to ef, fe dc to 10 and f0 e1 d2 c3, least significant first |
| Sha1Known.Rotations | adb/libmincrypt/sha.c:41-49 | a rotation by s multiplies by 2^s modulo 2^32 and adds the quotient by 2^(32 - s) |
| Sha1Known.Sixteen | adb/libmincrypt/sha.c:79-136 | sixteen rounds compute the words written out, if each follows from those before it |
| Sha1Known.Behind | adb/libmincrypt/sha.c:82-85 | sixteen words of a schedule are those written out, if each follows from those before it |
| Sha1Known.AbcDigest | adb/libmincrypt/sha.c:296-307 | the SHA-1 of abc is a9993e36 4706816a ba3e2571 7850c26c 9cd0d89d, as FIPS 180 has it |
| Sha1Known.DigestAbc | adb/libmincrypt/sha.c:296-307 | both builds give that digest for abc |
| Sha1Known.PaddingDigest | adb/libmincrypt/rsa_e_f4.c:140-151 | the SHA-1 of the padding over twenty zero bytes, through its five blocks |
| Streams.DropBytes | adb/adb/sockets.c:275-300 | writing k bytes off a packet queue leaves exactly the other bytes, in order |
| Streams.FaultPreserves | adb/adb/sockets.c:227-261 | closing on EOF or error keeps the stream invariant |
| Streams.ReadPreserves | adb/adb/sockets.c:320-379 | reading a packet from the fd and sending it keeps the stream invariant |
| Streams.WritePreserves | adb/adb/sockets.c:272-317 | draining the queue, in part or whole or failing, keeps the stream invariant |
| Streams.WrtePreserves | adb/adb/adb.c:616-629 | receiving a WRTE keeps the stream invariant, however much of it the fd takes |
| Streams.OkayPreserves | adb/adb/adb.c:596-606 | receiving an OKAY keeps the stream invariant |
| Streams.ClsePreserves | adb/adb/adb.c:608-614 | receiving a CLSE keeps the stream invariant |
| StreamRuns.ConnectPreserves | adb/adb/sockets.c:547-566 | opening a stream keeps the invariant of the whole system |
| StreamRuns.AcceptPreserves | adb/adb/adb.c:577-594 | accepting an OPEN pairs two sockets and keeps the invariant of the whole system |
| StreamRuns.RejectPreserves | adb/adb/adb.c:584-585 | refusing an OPEN keeps the invariant of the whole system |
| StreamRuns.StepAPreserves | adb/adb/adb.c:577-629 | every step of an endpoint keeps the invariant of the whole system |
| StreamRuns.RunInv | adb/adb/adb.c:577-629 | the invariant holds in every state of every run |
| StreamRuns.StreamIntegrity | adb/adb/sockets.c:130-181 | in every state of every run and for both directions of every stream, the bytes read at one end are those written at the other, then its queue, then the payloads in flight, in order; without a fault none is lost |
| StreamRuns.DrainingClose | adb/adb/sockets.c:199-261 | a closing socket of either endpoint still owes exactly its queue; destroyed, it has written all of it unless its fd failed; the peer is never null when a listed socket drains |
| StreamRuns.BothNamed | adb/adb/adb.c:577-606 | in every state of every run the two endpoints agree which sockets are the ends of a stream |
| StreamCredits.MoveStep | adb/adb/adb.c:577-629 | every move keeps the account of every socket: what it asked with OPEN and WRTE less the OKAYs that reached it is 0 or 1, and 0 exactly while it listens |
| StreamCredits.Account | adb/adb/sockets.c:311-316 | the account is kept in every state of every run |
| StreamCredits.CreditConservation | adb/adb/sockets.c:311-316 | in every state of every run and for both directions of every stream: exactly one credit while both ends are listed and never more; the sender owes 0 or 1 OKAY, and 1 exactly while the credit is a WRTE on the way, the far queue or an OKAY on the way back, so each WRTE gets exactly one OKAY before the next |
| StreamCloses.CloseTells | adb/adb/sockets.c:227-261 | closing a socket sends one CLSE to the peer it knew exactly when it leaves the list, and nothing else |
| StreamCloses.OwnTally | adb/adb/adb.c:577-629 | every move of an endpoint keeps the count of the CLSEs it has sent to each socket of the other |
| StreamCloses.FarTally | adb/adb/adb.c:577-629 | so does every move of the other |
| StreamCloses.ClosesTally | adb/adb/sockets.c:494-512 | the count is kept in every state of every run |
| StreamCloses.CloseHandshake | adb/adb/sockets.c:494-512 | in every state of every run and for both directions of every stream: an end that has left the list has sent one CLSE if it ever knew the other end and none otherwise, a listed end none; and while the other end is listed, there is a CLSE at the end of what is on the way to it if and only if one was sent |
| StreamCloses.RefusedOpens | adb/adb/adb.c:584-585 | in every state of every run, for an opener of either endpoint without an acceptor: its OPEN is on the way or one CLSE was sent to it, and while it is listed that CLSE is on the way |
| StreamCloses.AtMostOneClse | adb/adb/sockets.c:494-512 | no socket of either endpoint is ever sent a second CLSE |
| SocketHandlers.LocalSocket.CloseLocked | adb/adb/sockets.c:227-261 | has the effect of the step of the system, with one CLSE for a peer and none without |
| SocketHandlers.LocalSocket.Enqueue | adb/adb/sockets.c:130-181 | whatever the fd answers, has the effect of the step of the system for the bytes it took |
| SocketHandlers.LocalSocket.HandleWrte | adb/adb/adb.c:616-629 | the same for a received WRTE, with its OKAY sent exactly if all was taken |
| SocketHandlers.LocalSocket.HandleOkay | adb/adb/adb.c:596-606 | has the effect of the step of the system |
| SocketHandlers.LocalSocket.DrainHead | adb/adb/sockets.c:275-300 | the head packet is written until it is out, the fd would block or fails, and the bytes written are the next of the queue |
| SocketHandlers.LocalSocket.OnWritable | adb/adb/sockets.c:272-317 | the draining loop has the effect of the step of the system, whatever the fd answers |
| SocketHandlers.LocalSocket.OnReadable | adb/adb/sockets.c:320-379 | the reading loop has the effect of the step of the system, whatever the fd answers |
| SocketGraph.CloseValid | adb/adb/sockets.c:227-261 | closing a socket with its cascade keeps: peers live and mutual, lists exact, ids distinct and nonzero |
| SocketGraph.CloseRemoteValid | adb/adb/sockets.c:494-512 | closing a remote socket with a peer keeps the same |
| SocketGraph.DisconnectValid | adb/adb/sockets.c:514-526 | a disconnect callback keeps the same |
| SocketGraph.InstallValid | adb/adb/sockets.c:89-97 | installing a local socket keeps the same |
| SocketGraph.AttachValid | adb/adb/sockets.c:528-545 | creating a remote socket as a peer keeps the same |
| SocketGraph.JoinValid | adb/adb/sockets.c:777-778 | making two local sockets peers keeps the same |
| SocketGraph.AssignValid | adb/adb/sockets.c:818 | giving a local socket a transport keeps the same |
| SocketGraph.CloseAllClears | adb/adb/sockets.c:112-128 | closing, first to last, all that touch the transport keeps the same, leaves none of them and an empty callback list, and no other socket changes |
| SocketGraph.HeadRuns | adb/adb/transport.c:83-94 | the callback at the head of the list removes just itself, so the successor saved before it is still the next |
| SocketGraph.OfflineRuns | adb/adb/transport.c:83-94 | every callback of the transport runs once, in order; the list ends empty, no live socket has a peer on the transport, and all other sockets are untouched |
| SocketGraph.GraphInvariant | adb/adb/sockets.c:46-128 | the invariant holds in every reachable state, over creating, connecting, joining, filling, draining, closing on either side, assigning transports, a transport going offline and closing all its sockets |
| SocketNotices.CloseTold | adb/adb/sockets.c:227-261 | closing a local socket frees at most one remote socket, and sends one CLSE with its transport and far id, or none |
| SocketNotices.CloseRemoteTold | adb/adb/sockets.c:494-512 | closing a remote socket sends one CLSE with its transport and far id and the id of its peer |
| SocketNotices.CloseAllTold | adb/adb/sockets.c:112-128 | closing all sockets of a transport sends one CLSE for each remote socket it frees |
| SocketNotices.ClosesTell | adb/adb/sockets.c:227-261 | for every event, the remote sockets it frees and the CLSEs it sends match one to one in transport and far id; a transport gone offline is told nothing |
| SocketNotices.BacklogKept | adb/adb/sockets.c:199-261 | for every event and every local socket: taken off the list it is kept if and only if it has a backlog, and a closing one goes only when it is drained or closed again |
| SocketGraph.SocketTable.FindLocalSocket | adb/adb/sockets.c:62-77 | finds a listed socket with the id if and only if there is one |
| SocketGraph.SocketTable.RemoveSocket | adb/adb/sockets.c:99-110 | unlinks the socket from the list it is on and clears its id, and does nothing to one that is not linked |
| SocketGraph.SocketTable.LocalClose | adb/adb/sockets.c:227-261 | has the effect of the closing whose invariant is proved, without touching a freed socket |
| SocketGraph.SocketTable.RemoteClose | adb/adb/sockets.c:494-512 | the same for a remote socket, with one CLSE sent |
| SocketGraph.SocketTable.RemoteDisconnect | adb/adb/sockets.c:514-526 | the same for a disconnect callback, with nothing sent |
| SocketGraph.SocketTable.CreateLocalSocket | adb/adb/sockets.c:393-408 | the socket is listed under a fresh id and the invariant is kept |
| SocketGraph.SocketTable.CreateRemoteSocket | adb/adb/sockets.c:528-545 | the socket and its peer point at each other, its callback is on the list, and the invariant is kept |
| SocketGraph.SocketTable.HandleOpen | adb/adb/adb.c:577-594 | ignores an offline transport, refuses with CLSE, or creates the pair and answers OKAY; the invariant is kept |
| SocketGraph.SocketTable.HandleOkay | adb/adb/adb.c:596-606 | gives the addressed socket a peer if it has none; the invariant is kept |
| SocketGraph.SocketTable.HandleClse | adb/adb/adb.c:608-614 | closes the addressed socket if there is one; the invariant is kept |
| SocketGraph.SocketTable.Drained | adb/adb/sockets.c:302-309 | an emptied socket that is closing is destroyed, any other only loses its backlog; the invariant is kept |
| SocketGraph.SocketTable.HandleOffline | adb/adb/adb.c:218-224 | the walk with the saved successor runs all callbacks once, and clears the transport |
| SocketGraph.SocketTable.CloseAllSockets | adb/adb/sockets.c:112-128 | the restarting walk ends and has the effect of that closing: no socket with the transport, an empty callback list, and all sockets spared that had nothing to do with it |
| FdEvent.EventLoop.Register | adb/adb/fdevent.c:428-454 | fails exactly for the descriptors that abort; otherwise the table grows enough, keeps its entries and is zero elsewhere |
| FdEvent.EventLoop.Install | adb/adb/fdevent.c:593-609 | a fresh entry that wants nothing; the loop invariant is kept if and only if the descriptor was not registered, and otherwise the entry that had it is no longer in the table |
| FdEvent.EventLoop.Disconnect | adb/adb/fdevent.c:267-279 | the descriptor leaves the sets, and nothing registered lies at or above the new select bound |
| FdEvent.EventLoop.Remove | adb/adb/fdevent.c:611-625 | the entry is gone from table, sets and pending list, its descriptor closed unless asked not to; neither abort is reached; the invariant is kept |
| FdEvent.EventLoop.Set | adb/adb/fdevent.c:628-652 | sets, state and pending list after a change of the wanted events, as coded; no event is left pending that is not wanted if and only if there was none; the invariant is kept |
| FdEvent.UnwantedCall | adb/adb/fdevent.c:642-646 | a pending event that is no longer wanted is still reported |
| FdEvent.EventLoop.Add | adb/adb/fdevent.c:654-658 | the wanted events grow by those given, with the same condition; the invariant is kept |
| FdEvent.EventLoop.Del | adb/adb/fdevent.c:660-664 | the wanted events shrink by those given, with the same condition; the invariant is kept |
| FdEvent.EventLoop.Check | adb/adb/fdevent.c:305-321 | exactly the registered descriptors that are bad, with their number |
| FdEvent.EventLoop.Process | adb/adb/fdevent.c:365-424 | every entry has READ, WRITE and ERROR added exactly if select has its descriptor in the set of that event, and it wants all of these; if select failed or reported nothing, READ for exactly the bad descriptors and nothing else; although the walk stops at the count of bits; the missing-entry abort is not reached; the invariant is kept |
| FdEvent.NotedIsRecorded | adb/adb/fdevent.c:404-418 | what is noted for a descriptor is, event by event, what select reported of it or the faked READ |
| FdEvent.EventLoop.Dispatch | adb/adb/fdevent.c:492-515 | the head is unlinked, no longer pending, and called with its events, of which there are some; the invariant is kept |
| FdEvent.EventLoop.CallOne | adb/adb/fdevent.c:691-693 | the head is called with its events, whatever its callback does; what stays listed are the same entries with no further events; the invariant is kept |
| FdEvent.EventLoop.Round | adb/adb/fdevent.c:686-694 | with what is recorded stated event by event as for Process, and with callbacks that make any calls, a pass ends with nothing pending and the invariant kept; the calls made are, in order, one for each of a list of distinct entries with distinct descriptors, each with some of the events recorded for it; if the callbacks make no calls, exactly the entries with recorded events are called, with those |
| FdEvent.EventLoop.Loop | adb/adb/fdevent.c:681-695 | the invariant holds after any number of passes |
| FdEvent.CountAll | adb/adb/fdevent.c:404-408 | the number select returns counts the bits below the select bound |
| TransportLife.LockKeeps | adb/adb/transport.c:72-80 | of two threads in kick_transport one only becomes the one to kick |
| TransportLife.UnrefKeeps | adb/adb/transport.c:705-719 | the last reference closes and removes, and finds the transport kicked |
| TransportLife.KickCloseRemove | adb/adb/transport.c:65-81 | in every interleaving kick runs at most once and has returned before close; close and remove happen once, exactly when both threads have let go; the transport is freed only then |
| TransportLife.ConsumeKeeps | adb/adb/transport.c:310-350 | taking a packet keeps: passed on is what came behind the first SYNC |
| TransportLife.TakesKeep | adb/adb/adb.c:521-530 | the echo of the main loop keeps the order of SYNC packets |
| TransportLife.TokenFirst | adb/adb/transport.c:262-271 | the first SYNC of the main loop is the one with the token |
| TransportLife.ForwardedAfterSync | adb/adb/transport.c:242-360 | in every interleaving, what reaches the remote side are the packets the main loop sent behind the echo of the token, all of them as far as read and in order |
| TransportLife.OfflineEnds | adb/adb/transport.c:324-329 | in every interleaving, no SYNC with arg0 0 is among the packets read while the input thread is reading, and one that is read stays the last |
| SyncMessages.IdNames | adb/adb/file_sync_service.h:34-47 | an id on the wire is its name in ASCII |
| SyncMessages.FileTypes | adb/adb/file_sync_service.c:290 | the type of a file is in the bits of the octal mask 170000 |
| SyncMessages.CStringEnds | adb/adb/file_sync_service.c:380-384 | a string ends at its first zero byte |
| SyncMessages.HeaderOf | adb/adb/file_sync_service.h:49-76 | any eight bytes are the header of the id and size read from them |
| SyncMessages.NameRoundTrip | adb/adb/file_sync_client.c:310-311 | the service recovers path and mode from the client's name, whatever commas the path has |
| SyncMessages.OneReading | adb/adb/file_sync_client.c:479-505 | a stream of chunks and an end can be read in one way only |
| SyncMessages.ReadExact | adb/adb/file_sync_client.c:210-245 | the pieces read make up a prefix of the file, and all of it if and only if no read fails before its end |
| FileSync.Endpoint.ReadX | adb/adb/transport.c:1102-1132 | over any partial and interrupted reads: the next bytes as many as asked for, or failure if and only if there are not as many |
| FileSync.Endpoint.WriteX | adb/adb/transport.c:1134-1160 | over any partial and interrupted writes: all bytes arrive behind what was sent, or as many as the connection takes at all, and failure if and only if these are not all |
| FileSync.Endpoint.HandleSendFile | adb/adb/file_sync_service.c:151-224 | for any input: success means chunks up to DONE were consumed and one OKAY or FAIL sent, OKAY only with all chunks in the file; without that no new file is left that can be unlinked; a planned stream gets its status, OKAY if and only if opening and all writes go well |
| FileSync.Endpoint.HandleSendLink | adb/adb/file_sync_service.c:227-273 | for any input: an OKAY means one chunk up to DONE and a link to the text in it; a planned stream gets its status, OKAY if and only if it has one chunk and the link can be made |
| FileSync.Endpoint.DoSend | adb/adb/file_sync_service.c:276-317 | the same for the path in front of the last comma, unlinked first, as a file or a link by the mode behind it |
| FileSync.Endpoint.SendChunk | adb/adb/file_sync_service.c:340-345 | a chunk behind its header, or a prefix of that where the connection breaks |
| FileSync.Endpoint.DoRecv | adb/adb/file_sync_service.c:319-357 | the answer, as far as the connection takes it: chunks that make up what can be read, then DONE if that is the whole file and a failure if not |
| FileSync.Endpoint.Serve | adb/adb/file_sync_service.c:359-414 | for any input the service ends or stands behind exactly one whole request, SEND answered by exactly one status; only the file or link a SEND names can change; a planned request is answered as far as the connection takes it |
| FileSync.Endpoint.WriteDataFile | adb/adb/file_sync_client.c:210-245 | what arrives, as far as the connection takes it, is the chunks of all that can be read; nothing if the file cannot be opened |
| FileSync.Endpoint.WriteDataBuffer | adb/adb/file_sync_client.c:247-270 | what arrives, as far as the connection takes it, is the chunks of the whole buffer |
| FileSync.Endpoint.WriteDataLink | adb/adb/file_sync_client.c:273-295 | what arrives, as far as the connection takes it, is one chunk with the target and a NUL, if the link can be read |
| FileSync.Endpoint.SyncSend | adb/adb/file_sync_client.c:297-396 | what arrives, as far as the connection takes it, is one request for the path and mode with those chunks and the time, and failure if and only if this is not all; only the name for a file of another kind |
| FileSync.Endpoint.ReadStatus | adb/adb/file_sync_client.c:398-416 | 0 if and only if an OKAY was read |
| FileSync.Endpoint.SyncRecv | adb/adb/file_sync_client.c:461-530 | for any input: 0 means that chunks and an end were read and the local files are as these have it, DONE or not, unlinkable or not; for a planned stream 0 if and only if the file is not needed or can be created and all writes go well |
| PushPull.SentExact | adb/adb/file_sync_client.c:381-391 | what is sent of a file is a prefix of it, and all of it if and only if it can be read to its end |
| PushPull.Broken | adb/adb/file_sync_service.c:359-395 | a request that breaks off changes no file but the one it names, and never counts as complete |
| PushPull.Push | adb/adb/file_sync_client.c:297-422 | client against service: 0 if and only if the request gets through, the far file system takes it and the status gets back; the far file is then what was sent over what could not be unlinked, and the source if and only if its condition holds, a link has the target; in every case all other files are untouched, and a path that can be unlinked is as it was, or has no file, or holds all that was sent |
| PushPull.PushExact | adb/adb/file_sync_service.c:157-164 | the pushed file is the source if and only if all was sent and nothing longer was left in its place, or what was left there makes up for the rest |
| PushPull.PushOverStuck | adb/adb/file_sync_service.c:162-164 | a push that returns 0 over a longer file that keeps its tail |
| PushPull.PushUnread | adb/adb/file_sync_client.c:384-385 | a push that returns 0 for a file that could not be read, and leaves an empty one |
| PushPull.Pull | adb/adb/file_sync_client.c:443-530 | client against service: 0 if and only if the request and the part of the answer that is looked at get through and the local file, where one is needed, can be created and written; the local files are then exactly those of a complete or of a failed transfer; nothing changes if the request does not get through |
| PushPull.PullExact | adb/adb/file_sync_client.c:509-529 | after 0 the local file is the remote one if and only if that could be served or stood there before with nothing served; after a failure it remains if and only if it cannot be unlinked and was there or had been begun |
| PushPull.PullOverStuck | adb/adb/file_sync_client.c:512-514 | a pull of a missing file that returns 0 and leaves the old local file |
| SmartSocket.HexDigits | adb/adb/sockets.c:587-615 | the digits of both cases, each with its value, and no other byte |
| SmartSocket.Unhex | adb/adb/sockets.c:587-615 | the value of the digits in 32 bits, or all ones if there is another character |
| SmartSocket.HexRoundTrip | adb/adb/adb_client.c:187 | reading hexadecimal inverts the client's four digits |
| SmartSocket.FrameDecides | adb/adb/sockets.c:690-704 | a proper prefix of a frame is waited on, the whole of it is recognised as the service |
| SmartSocket.SmartSocket.Enqueue | adb/adb/sockets.c:661-706 | the bytes collected so far decide, or the socket fails on overflow |
| SmartSocket.Deliver | adb/adb/sockets.c:661-706 | for every service of 1 to 1024 bytes and every cutting of its frame: waits on all pieces but the last, and recognises exactly that service with the last |
| LittleEndian.LeRoundTrip | bluetooth/hciattach/rtb_fwc.h:80-101 | reading little-endian bytes inverts writing them |
| PatchIndex.IndexSuccessor | bluetooth/hciattach/hci_download_v3.c:26-28 | indices start at 0, stay below 0x80, and 1 follows 0x7f |
| PatchV2.QueueProperties | bluetooth/hciattach/hci_download_v2.c:87-104 | the queue is sorted by priority, equal priorities in reverse order of insertion, with nothing lost and the payload lengths summed |
| PatchV2.HeadersExclusive | bluetooth/hciattach/hci_download_v2.c:160-226 | header nodes come from security sections or from dummy sections, never both |
| PatchV2.SelectedExactly | bluetooth/hciattach/hci_download_v2.c:160-226 | an entry is queued if and only if it is for the chip and, a security header, for the key, or, a dummy header, there is no key or no security header for it |
| PatchV2.PatchParser.InsertPatchQueue | bluetooth/hciattach/hci_download_v2.c:87-104 | inserts in front of the first node of at least its priority |
| PatchV2.PatchParser.ParsePatchSection | bluetooth/hciattach/hci_download_v2.c:106-158 | queues the wanted entries of the section and adds their lengths |
| PatchV2.PatchParser.ParsePatch | bluetooth/hciattach/hci_download_v2.c:160-226 | from the bytes of any well-formed file, queues exactly the selected entries, in two passes |
| PatchV2.PatchSender.FillFromNodes | bluetooth/hciattach/hci_download_v2.c:308-335 | the bytes taken are the next of all payloads in queue order, across node boundaries |
| PatchV2.PatchSender.GetCmdLen | bluetooth/hciattach/hci_download_v2.c:264-285 | never more than is left; up to the limit all that is left, or a full fragment if more is |
| PatchV2.PatchSender.GetCmdBuf | bluetooth/hciattach/hci_download_v2.c:287-358 | the fragment is the next piece of payloads and configuration with its index, and its checks fail only where the last fragment finds configuration left |
| PatchV2.SendAll | bluetooth/hciattach/hci_download_v2.c:379-422 | up to 65536 fragments all of them and success; beyond that only a proper prefix, and success if and only if there is no configuration |
| PatchV2.Download | bluetooth/hciattach/hci_download_v2.c:360-428 | all payloads in queue order and the configuration, whose length is taken in 16 bits, in exactly as many fragments as they take, if and only if these are at most 65536; otherwise only a proper prefix is sent, reported as success if and only if there is no configuration; the commands are read field by field |
| PatchV2.OverLimit | bluetooth/hciattach/hci_download_v2.c:255 | a well-formed file whose download loses bytes and reports success |
| PatchV2.FramesData | bluetooth/hciattach/hci_download_v2.c:287-358 | the fragments carry every byte once and in order |
| PatchV2.FramesRead | bluetooth/hciattach/hci_download_v2.c:287-358 | each command has the opcode 0xfc20, the length of its parameters, its index, with bit 7 in the last one only, and the next 252 bytes or what is left |
| PatchV3.SelectedSecurity | bluetooth/hciattach/hci_download_v3.c:155-167 | the security section is the first in the file among the qualifying ones of highest priority |
| PatchV3.QueueProperties | bluetooth/hciattach/hci_download_v3.c:136-153 | the queue holds the accepted sections in ascending priority, equal priorities in reverse order of insertion, and exactly one of them carries the configuration |
| PatchV3.PatchParser.InsertPatchQueue | bluetooth/hciattach/hci_download_v3.c:136-153 | inserts in front of the first node of at least its priority |
| PatchV3.PatchParser.ParsePatchImage | bluetooth/hciattach/hci_download_v3.c:169-239 | an accepted image is queued and considered for security, any other changes nothing |
| PatchV3.PatchParser.ParseSections | bluetooth/hciattach/hci_download_v3.c:241-272 | from the bytes of any well-formed file, queues exactly the accepted images, selects the security section and sums the lengths |
| PatchV3.Plan | bluetooth/hciattach/hci_download_v3.c:226-232 | end index and last length cover the section if and only if it has at most 65535 fragments |
| PatchV3.FragmentStep | bluetooth/hciattach/hci_download_v3.c:362-395 | a fragment of a section carries its next bytes, runs over into the configuration only behind the first-parsed image, and keeps the order of sections |
| PatchV3.AtEnd | bluetooth/hciattach/hci_download_v3.c:398-411 | with all sections passed, the two completeness checks succeed if and only if every section fits |
| PatchV3.PatchSender.Scan | bluetooth/hciattach/hci_download_v3.c:350-369 | takes up the next section once with its registers, and passes those complete |
| PatchV3.PatchSender.Fill | bluetooth/hciattach/hci_download_v3.c:372-394 | the bytes copied from image and configuration, and None where the copy would read past the configuration |
| PatchV3.PatchSender.GetCmdBuf | bluetooth/hciattach/hci_download_v3.c:342-417 | the next fragment of the complete download, or the final packet when all is sent, or failure only if some section does not fit |
| PatchV3.SendQueue | bluetooth/hciattach/hci_download_v3.c:461-525 | the loop succeeds if and only if every section fits, and then has sent the complete download |
| PatchV3.Download | bluetooth/hciattach/hci_download_v3.c:433-531 | per section in queue order its usable registers and then its fragments, the configuration, whose length is taken in 16 bits, behind the first-parsed image, the security write and one final packet, if and only if every section has at most 65534 fragments; otherwise no final packet; read through the commands, each section has the addresses and values of its image in the file, and the security write is for the image selected, with its start plus its length less the remaining size modulo 2^32 |
| PatchV3.SectionData | bluetooth/hciattach/hci_download_v3.c:362-395 | the fragments of a section carry its bytes once each and in order |
| PatchV3.WriteRegisterReads | bluetooth/hciattach/hci_download_v3.c:104-134 | a register write has the opcode 0xfc62, the length of its parameters, and then address and value in that order |
| PatchV3.SectionTraceReads | bluetooth/hciattach/hci_download_v3.c:470-481 | a section writes the two registers of its image in the file, as far as their addresses are usable, and then sends its bytes in numbered fragments |
| PatchV3.QueueOrder | bluetooth/hciattach/hci_download_v3.c:136-153 | the queue is the accepted images in ascending priority, of equal ones the later in the file first |
| PatchV3.SecuritySelected | bluetooth/hciattach/hci_download_v3.c:419-431 | the security write is for the first image of highest priority with a remaining size and an address for it, and sets its start plus its length less that size modulo 2^32 |
| PatchV3.ExpectedReads | bluetooth/hciattach/hci_download_v3.c:433-531 | the complete download consists of the sections of the accepted images in that order, the security write and the final fragment |
| PatchV3.OneImage | bluetooth/hciattach/hci_download_v3.c:413 | the download of one image succeeds if and only if 65534 fragments hold it |
| PatchV3.TooLong | bluetooth/hciattach/hci_download_v3.c:413 | a well-formed file, one byte longer than that, whose download ends without its final packet |
| CfuRounds.Updater.JustOffer | openthread/RTKRCP_Config_CFU_Tool_V1.02_20241218/FwUpdateProcess.c:234-331 | an odd round goes on if and only if there is a version and no offer due fails, and ends the run as that has it; it takes the number of banks in round 1, offers exactly the files due, and sends no payload |
| CfuRounds.Updater.SendOne | openthread/RTKRCP_Config_CFU_Tool_V1.02_20241218/FwUpdateProcess.c:338-400 | a payload is sent exactly if its file is due and accepted, and then marked |
| CfuRounds.Updater.OfferAndSend | openthread/RTKRCP_Config_CFU_Tool_V1.02_20241218/FwUpdateProcess.c:337-400 | the payloads sent, marked and counted are those of the files due and accepted, in order, unless something due fails |
| CfuRounds.Updater.EvenRound | openthread/RTKRCP_Config_CFU_Tool_V1.02_20241218/FwUpdateProcess.c:332-493 | an even round goes on if and only if nothing due fails, the device has one bank, accepts a file and comes back; otherwise the outcome is as the first of these to fail has it |
| CfuRounds.UnforcedGoes | openthread/RTKRCP_Config_CFU_Tool_V1.02_20241218/FwUpdateProcess.c:341-344 | without force a round goes on if and only if it would with no file downloaded yet |
| CfuRounds.OfferedWhen | openthread/RTKRCP_Config_CFU_Tool_V1.02_20241218/FwUpdateProcess.c:301-311 | boot files, and app data files with one bank, are offered in rounds 1 and 2 and in no later one of the first 255, and then again with each wrap of the counter; other files in every round |
| CfuRounds.Updater.Run | openthread/RTKRCP_Config_CFU_Tool_V1.02_20241218/FwUpdateProcess.c:231-496 | for every device: the run goes on if and only if every round does, and otherwise ends with the first that does not, with the outcome of that round; with force no payload is sent twice and the loop ends within 42 rounds, 2 with two banks, so that the 8-bit counter does not wrap; without force a device that takes everything keeps it going for any number of rounds |
| CfuRounds.Pigeons | openthread/RTKRCP_Config_CFU_Tool_V1.02_20241218/FwUpdateProcess.c:18 | twenty files give at most twenty payloads that are all different |

## Left out

- RsaVerify.RsaEF4Verify: says nothing of how hard second preimages are; no security analysis is made.
- RsaRange.KeyOfFits: takes n0inv as the inverse it is; how it is computed is not modelled.
- StreamRuns.StreamIntegrity: transports do not go offline in that system (`SocketGraph` covers the closing this causes), ids are unbounded, and smart, jdwp, tracker and forced-EOF sockets are not in it.
- SocketGraph.GraphInvariant: the id counter does not wrap; smart and jdwp sockets are left out, and of a smart socket's work only the joining of its peer with a service is there.
- SocketGraph.SocketTable.CloseAllSockets: is one step; the race of the input thread with the main loop is not modelled.
- FdEvent.EventLoop.Register: the table's new entries are all cleared, as the source does where a pointer has the size of an int.
- FdEvent.EventLoop.Apply: a callback does not install a descriptor that is registered or an fdevent that is installed; FD_SETSIZE and the shell-exit descriptor are not modelled.
- TransportLife.ForwardedAfterSync: whether the remote side accepts what it is handed is not modelled; handlers of the main loop are single steps.
- FileSync.Endpoint.DoSend: an unsigned long has 64 bits, a build with symbolic links is taken, and a stuck link at the path is not followed when the file is opened.
- FileSync.Endpoint.SyncRecv: a chunk size of 2^31 or more counts as an overrun, where the source compares it as signed.
- FileSync.Endpoint.StoreChunk: a failed write leaves the bytes written before it, not part of its own; the same holds of FileSync.Endpoint.TakeChunk.
- PushPull.Push: an apk has been read into memory before, so that its reading cannot fail in the exchange; a link target has fewer than 65536 bytes.
- SmartSocket.Deliver: what is done with a recognised service is not modelled.
- PatchV2.Download: the controller acknowledges every command with its index; transfer errors and UART settings are not modelled.
- PatchV3.Download: the same, and a copy that would run past the configuration ends the run as undefined.
- CfuRounds.Updater.Run: limit bounds the rounds looked at, because without force the loop need not end; waiting for the device is assumed to return.
- Packet checks and checksums (send_packet, check_header, check_data), connection banners and authentication: short straight-line code or policy.
- STAT and LIST of file sync, directory copies, mkdirs: one answer to one request, or foreign calls.
- Device tracking, transport selection and listing, the host-only dropping of transports: string matching and lists of the same kind.
- USB backends, socket wrappers, shell and subprocess services: calls to the operating system.
- The epoll variant of the event loop: not built where select is used.
- Recovery of real time, timeouts and retries in the UART transfer: clocks.
