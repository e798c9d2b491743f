# Machine-checked models of the remote-desktop core

A Dafny 4.11 model of the parts of this repository that are written by hand and have to be exactly
right: the field and scalar arithmetic of `src/crypto.rs`, the framed and keyed channel with the
handshake and login that lead to it, the pasted-file protocol, the terminal line editor, block-wise
file transfer, and the codecs and calendars used to store and address things.

`dafny verify dfyconfig.toml` checks everything.

## How it is built

Code that works by changing arrays, counters or fields is a method or a class with those arrays and
fields; next to it stands a definition of what it is for, and the contract ties the two together.
What the definition promises is then proved of it as lemmas.

- Machine words are integers with their range as a subset type (`u32`, `i64`, ...), so every
  assignment in the field arithmetic is also a proof that the machine operation does not overflow;
  operations that are meant to wrap are written out with their modulus. `&`, `|`, `^`, `>>` are
  functions on integers in two's complement (module `Bits`).
- Field elements are limb vectors; `Val(2^16, limbs)` is their number and `Cong(a, b, P)` equality
  in the field. The X25519 reference is the Montgomery ladder of section 5 of RFC 7748, Poly1305 that
  of section 2.5 of RFC 8439, the scalars those of section 5.1 of RFC 8032, SHA-256 padding that of
  section 5.1.1 of FIPS 180-4, base32 section 6 of RFC 4648 and STUN sections 6 and 15 of RFC 5389.
- Compression functions, Salsa20 cores, HMAC, signatures, protobuf encoding, scalar multiplication
  in the handshake and the like are function values with the laws that are assumed of them stated
  in a predicate (`Lawful`, `KeepsCapitals`, ...).
- Whatever the outside decides is an argument: how many bytes a read returns (`short`, `shorts`),
  the order in which a hash map gives its keys (`order`), what arrives and when (`Tick`, streams as
  byte sequences), the file system's answer to a write (`writes`).

Main results, and what was found on the way:

- `Handshake.Agreement` speaks of every pair of byte streams in which each end reads what the other
  wrote: if the client completes, so has the server, and both hold the same key or none.
  `HonestRunCompletes` shows such runs exist.
  Against an arbitrary peer a client with a trusted key completes unsecured exactly when the first
  message is a Hash (`OpenSession`), and what gets pinned over any number of attempts is the relayed
  key of the first one whose announcement it verifies (`FirstPinned`). It ends up secured exactly if
  its trusted key accepts an announcement of the target's own name (`SecuredExactly`,
  `PinnedExactly`), so the server it reaches is the one it was after (`RightServer`).
- The ladder computes the k-th multiple of the base point in any system of points whose x-coordinates
  double and add as those of y^2 = x^3 + 486662 x^2 + x do (`LadderMultiplies`).
- In a sealed box every byte is tied to the core's arguments (`SealedTag`, `SealedByte`): the tag's key
  is the first half of block 0 and nothing else is masked with it.
- `Channel.ChannelSafe` keeps both directions in order over every interleaving. Both ends count
  from one under the same key, so two packets of a run share their nonce exactly if they come from
  different ends and are equally far on (`NoncesShared`).
- `Login.RunLogin`: PeerInfo is sent in exactly the runs that were granted and, where a secret is
  set, verified. What grants is the same before and inside the approval window (`GrantsExactly`): a
  configuration that has been loaded has a temporary password, so the two password checks agree
  (`ChecksAgree`). A run looks at five passwords at most unless a request without one opens the
  window (`FewLooks`); from then on requests are not counted (`OpenGoesOn`), but with 60 seconds for
  the window and 200 milliseconds for each turn no run looks at more than 304 (`BoundedLooks`), and
  304 are reached (`LooksReached`). From the viewer's side: whoever shows the salted digest of a stored
  password gets in, whenever it is (`RightPasswordArrives`), and nobody does by a password without
  showing one of the two digests of one (`GrantsByPassword`).
- `ClipRun.PasteDelivers` holds for every pattern of short reads. Against an arbitrary peer every
  reply makes progress except a successful empty answer to a range request, which is asked for
  again (`AnyReplyProgress` is an equivalence). The receiver's state outlives its run: every further
  reply sets the clipboard again, and the bytes of a successful one are appended to the last file
  (`StrayReply`, for any number of them `StrayReplies`, behind a finished paste `StrayAfterRun`).
  What a finished paste sets are exactly the listed names without a backslash, in order (`PasteSets`).
- Ctrl-C in the terminal drops the line without an echo; the screen is right at every moment exactly
  when each Ctrl-C meets a line nothing can be seen of (`RightIffClean`). Since it is held back to
  the end of its batch, the order of lines and interrupts depends on how input is cut
  (`BatchedInterrupts`).
- `TransferRun` models downloads as a system: the client asks, confirms, skips, moves, cancels and
  takes messages at any moment, the server makes its turns (a message, then a pass) with any order
  of its map and any short reads, and messages are under way in both directions. In every run each
  file has at most one Done, with nothing behind it, and no done job outlives its turn
  (`DoneOnce`); what has been taken so far is on disk (`SystemSafe`). Once nothing is left to do,
  every file that kept its job and was not skipped or moved is in its place, and a job has been
  reported done, once, exactly if its list names files only, at least one, and all kept their job
  (`DownloadsArrive`). A list that holds a directory, or nothing, is never reported done.
- Whatever a server sends, a client writes nothing outside the destinations of its own downloads
  (`NothingOutside`); a list is refused exactly if one of its names could lead there
  (`RefusedExactly`). A transfer taken up at a block sends the file from there on (`TakenUp`).
- The keys `id * 1000 + file number` must tell files apart for that. Without cancellations and with
  such keys no file loses its job (`NothingDropped`; lists of up to a thousand entries have them,
  `ThousandEach`); otherwise one that waits for its confirmation when a list takes its key is never
  sent, whatever happens then (`LostFile`, reached by `LostRun`). Two directories collide exactly
  when the earlier has more than a thousand files for each id between them (`TwoFullListings`).
- An uploading client says one Done for all its files, under the number of its last entry. All of
  them arrive, and exactly one job is marked done and echoed: that of the last entry, or, if that is
  a directory marker, of some file of the upload (`UploadEnds`).
- On upload a Done or a block reaches another file's job under conditions stated exactly
  (`DoneTouches`, `BlockTouches`): its key holds a job of another id, or, for a Done, the file is
  unknown while another of the same id is unfinished.
- A saved configuration is restored exactly when all its option keys are plain (`SaveRestores`).

## Files

| file | what it holds |
|---|---|
| `Wrappers.dfy`, `Arith.dfy` | options; division, congruence, positional values, bit operations |
| `Field25519.dfy`, `Fe25519.dfy`, `FieldOps.dfy`, `X25519.dfy` | the field modulo 2^255-19 and the ladder |
| `Poly1305.dfy`, `Poly1305Mac.dfy`, `ModL.dfy`, `Sha256.dfy`, `Secretbox.dfy` | MAC, scalar reduction, hash streaming, sealed boxes |
| `Network.dfy`, `Channel.dfy`, `Handshake.dfy`, `HandshakeCode.dfy`, `Login.dfy`, `LoginBounds.dfy` | frames, keyed channel, handshake, login |
| `Clipboard.dfy`, `ClipboardCode.dfy`, `Descriptor.dfy`, `DescriptorCode.dfy` | file paste |
| `Terminal.dfy`, `TerminalCode.dfy` | line editor |
| `Transfer.dfy`, `TransferQueue.dfy`, `TransferSend.dfy`, `TransferList.dfy`, `TransferReceive.dfy`, `TransferRun.dfy`, `TransferFate.dfy` | block transfer: definitions, queueing, server, lists, client, the whole system, what becomes of a file |
| `TransferUpload.dfy`, `TransferClient.dfy`, `TransferCode.dfy` | uploads, the uploading client, the handlers as they run |
| `Calendar.dfy`, `Stun.dfy`, `StunMessage.dfy`, `Base32.dfy`, `Toml.dfy`, `Config2.dfy`, `Config2Code.dfy`, `Secret.dfy` | calendar, codecs, storage |
| `X25519Laws.dfy`, `PolyLaws.dfy`, `Sha256Laws.dfy`, `SecretboxLaws.dfy`, `ChannelLaws.dfy`, `HandshakeLaws.dfy`, `LoginLaws.dfy`, `ClipboardLaws.dfy`, `DescriptorLaws.dfy`, `TerminalKeys.dfy`, `TransferPaths.dfy`, `TransferLaws.dfy`, `StunLaws.dfy`, `TomlLaws.dfy` | what each of these comes to for its user, in terms of bytes, keys, names and points |

## Model

| member | source | states |
|---|---|---|
| `Fe25519.Car25519` | src/crypto.rs:170-180 | one carry pass in place is the specified pass, for limbs up to 2^62, no i64 operation overflowing |
| `FieldSpec.CarryValue` | src/crypto.rs:170-180 | a carry pass keeps the value modulo 2^255-19 |
| `FieldSpec.ThreeCarries` | src/crypto.rs:185-187 | three passes bring any limbs below 2^62 into [0, 2^16) |
| `Fe25519.Sel25519` | src/crypto.rs:206-213 | the masked swap exchanges both vectors when the bit is 1 and neither when it is 0, negative limbs included |
| `FieldSpec.CondSubValue` | src/crypto.rs:188-199 | one borrow-and-select round subtracts 2^255-19 exactly when the value reaches it |
| `FieldSpec.TwoSubs` | src/crypto.rs:188-199 | two rounds reach the representative below 2^255-19 from any sixteen 16-bit limbs |
| `Fe25519.Pack25519` | src/crypto.rs:182-204 | the 32 bytes written are the unique representative in [0, 2^255-19) of any limb vector below 2^62 |
| `X25519Ladder.CtEq32` | src/crypto.rs:933-939 | the accumulated differences are zero exactly for equal bytes |
| `X25519Ladder.Neq25519` | src/crypto.rs:941-947 | true exactly when the limb vectors are incongruent modulo 2^255-19 |
| `FieldOps.GfAdd` | src/crypto.rs:215-219 | limb-wise sum; sums of reduced elements stay within the multiplier's bounds |
| `FieldOps.GfSub` | src/crypto.rs:221-225 | limb-wise difference, likewise |
| `FieldOps.GfMul` | src/crypto.rs:227-242 | multiplication modulo 2^255-19 with reduced result, for sums and differences of reduced elements, no overflow |
| `FieldOps.GfSq` | src/crypto.rs:244-246 | squaring modulo 2^255-19 |
| `FieldOps.GfMul121665` | src/crypto.rs:248-252 | multiplication by 121665 modulo 2^255-19 |
| `ExponentBits.InvBit` | src/crypto.rs:257-262 | the loop's skipped steps are the zero bits of 2^255-21 |
| `FieldOps.Inv25519` | src/crypto.rs:254-266 | raises to the power 2^255-21 modulo 2^255-19 |
| `ExponentBits.RootBit` | src/crypto.rs:951-955 | the loop's skipped step is the zero bit of 2^252-3 |
| `FieldOps.Pow2523` | src/crypto.rs:949-958 | raises to the power 2^252-3 modulo 2^255-19 |
| `FieldOps.Unpack25519` | src/crypto.rs:163-168 | limbs of the 32-byte number with its top bit cleared |
| `X25519Ladder.ClampScalar` | src/crypto.rs:272-275 | the working copy is the clamped scalar |
| `X25519Ladder.DecodedScalar` | src/crypto.rs:272-275 | a clamped scalar is a multiple of 8 between 2^254 and 2^255 |
| `X25519Ladder.SwapStepSwap` | src/crypto.rs:285-310 | swapping before and after each step refines the reference ladder, which swaps only on a changed bit |
| `X25519Ladder.StepValues` | src/crypto.rs:290-307 | the step's eighteen in-place operations are the ladder formulas, the negated difference squared away |
| `X25519Ladder.Round` | src/crypto.rs:286-309 | one iteration takes representatives of one ladder state to reduced representatives of the next |
| `X25519Ladder.X25519ScalarMult` | src/crypto.rs:269-317 | the output is the canonical encoding of the RFC 7748 ladder's result for every scalar and u-coordinate |
| `X25519Laws.LadderMultiplies` | src/crypto.rs:277-316 | over any points whose x-coordinates double and add by the formulas of y^2 = x^3 + 486662 x^2 + x, the ladder gives that of k times the base point |
| `X25519Laws.StepDoubles` | src/crypto.rs:290-307 | a step takes the first point to (x^2 - z^2)^2 over 4xz(x^2 + 486662 xz + z^2), its double |
| `X25519Laws.StepAdds` | src/crypto.rs:290-307 | and the second to 4(xx' - zz')^2 over 4u(xz' - zx')^2, the sum of both |
| `X25519Laws.ClampedBytes` | src/crypto.rs:272-275 | clamping changes the first and last byte only, by the three lowest and two highest bits and the one below |
| `X25519Laws.DecodedU` | src/crypto.rs:163-168 | the top bit of a u-coordinate is ignored |
| `PolySpec.TagIsPolynomial` | src/crypto.rs:476-574 | the absorbed tag is ((sum of blocks times powers of r) mod 2^130-5 + s) mod 2^128 |
| `PolyLaws.ClampedBytes` | src/crypto.rs:478-483 | r is the first half of the key with the top four bits of bytes 3, 7, 11, 15 and the two lowest of bytes 4, 8, 12 cleared |
| `PolyLaws.LastBlock` | src/crypto.rs:485-536 | a rest behind whole blocks goes in with a one bit above it, and all is multiplied by r modulo 2^130-5 |
| `Poly1305.ClampKey` | src/crypto.rs:478-483 | the five limbs are the clamped r, limb by limb |
| `Poly1305.AddBlock` | src/crypto.rs:493-513 | a block and its high bit are added to the accumulator, no addition wrapping |
| `Poly1305.MulReduce` | src/crypto.rs:515-533 | the accumulator times r modulo 2^130-5, only limb 1 exceeding 26 bits afterwards |
| `Poly1305.FinalCarry` | src/crypto.rs:538-543 | the final carry leaves five 26-bit limbs of the same residue |
| `Poly1305.SubtractModulus` | src/crypto.rs:545-555 | the selection gives the residue in [0, 2^130-5) |
| `Poly1305.Poly1305Mac` | src/crypto.rs:476-574 | the sixteen bytes are the RFC 8439 tag for every key and message |
| `ModL.Eliminate` | src/crypto.rs:833-844 | one signed-carry window removes a high limb and keeps the value modulo L |
| `ModL.ModL` | src/crypto.rs:832-858 | the 32 bytes are the residue in [0, L) of the 64-limb input, for every limb up to 2^21 in size, no i64 overflow |
| `ModL.Reduce` | src/crypto.rs:860-866 | a 64-byte number reduced modulo L in place, the upper half zero |
| `ModL.SignScalar` | src/crypto.rs:916-928 | the signature scalar is (r + h * a) mod L |
| `Sha256.Hasher.Update` | src/crypto.rs:35-62 | after any update the hasher stands for the old data followed by the new |
| `Sha256.Hasher.Finalize` | src/crypto.rs:64-88 | finishing compresses the one-shot padding of all the data |
| `Sha256Spec.PadInjective` | src/crypto.rs:64-82 | different data have different paddings |
| `Sha256Laws.PadLayout` | src/crypto.rs:64-82 | the data, 0x80, the fewest zeros that leave eight bytes in the last block |
| `Sha256Laws.PadLength` | src/crypto.rs:64-82 | those are the length in bits, most significant byte first |
| `Sha256Laws.FoldBlocks` | src/crypto.rs:22-62 | blocks are compressed in order, the first into the standard's initial value |
| `Sha256Laws.DigestByte` | src/crypto.rs:83-89 | every digest byte is its byte of its word, most significant first |
| `Sha256.HashChunks` | src/crypto.rs:22-89 | however the data is cut into updates, the digest is that of the whole |
| `Sha256.ComputePasswordHash` | src/crypto.rs:144-154 | the password hash is H(H(password, salt), challenge) |
| `Secretbox.Salsa20Xor` | src/crypto.rs:410-460 | each byte is combined with the keystream byte of its block and counter |
| `SecretboxLaws.StreamBlock` | src/crypto.rs:410-470 | block n of the stream is the core's under the subkey of the nonce's first sixteen bytes, its last eight, and the two words that spell n |
| `SecretboxLaws.BlocksDiffer` | src/crypto.rs:434-457 | if the core tells counters apart, no two blocks of a stream are equal |
| `Secretbox.XorTwice` | src/crypto.rs:410-460 | combining with the same keystream twice gives the message back |
| `Secretbox.OpenIffSealed` | src/crypto.rs:576-619 | opening yields a plaintext exactly for the sealed text of that plaintext under that key and nonce |
| `Secretbox.SecretboxSeal` | src/crypto.rs:576-592 | the sealed text is tag followed by ciphertext |
| `SecretboxLaws.SealedTag` | src/crypto.rs:576-592 | the tag is that of the ciphertext under the first half of block 0 |
| `SecretboxLaws.SealedByte` | src/crypto.rs:576-592 | each plaintext byte is masked with its own byte of its own block; of block 0 only the second half is used, for the first 32 bytes |
| `Secretbox.SameMac` | src/crypto.rs:606-612 | the accumulated comparison accepts exactly equal tags |
| `Secretbox.SecretboxOpen` | src/crypto.rs:594-619 | opening refuses short and forged texts and otherwise decrypts |
| `Frames.EncodeFrame` | src/network.rs:6-27 | appends the length header and the payload |
| `Frames.HeaderDecodes` | src/network.rs:6-48 | the 1 to 4 header bytes announce their own number and the payload's length |
| `ChannelLaws.HeaderSpells` | src/network.rs:6-27 | the header spells, little-endian, four times the length and how many bytes follow its first, which are as few as can be |
| `Frames.FrameRoundTrip` | src/network.rs:6-63 | a frame is read back whole, the rest untouched, exactly when the payload fits the header and the limit |
| `Frames.PeekAgrees` | src/client.rs:370-397 | what peeking finds is what reading will return, whatever arrives later |
| `Frames.PeekFinds` | src/client.rs:370-397 | a buffered frame of at most 4096 bytes is found, a longer one refused |
| `Frames.PeekFirstFrame` | src/client.rs:370-397 | polling returns the first decisive look |
| `Channel.NoncesDistinct` | src/network.rs:76-90 | different counters give different nonces |
| `ChannelLaws.NonceSpells` | src/network.rs:76-81 | a nonce spells its counter, little-endian, in 24 bytes |
| `Channel.NumberAppended` | src/network.rs:76-81 | the packet that the next send of any run appends to the wire is sealed under the number of its end's sends in the run so far plus one |
| `Channel.NoncesShared` | src/network.rs:76-90 | two packets of a run share key and nonce exactly if they come from different ends and have the same number |
| `Channel.Encrypt.Enc` | src/network.rs:76-81 | seals under the incremented counter |
| `Channel.Encrypt.Dec` | src/network.rs:83-90 | opens under the incremented counter, failing on a forgery |
| `Channel.FramedStream.NextFrame` | src/network.rs:32-63 | reading byte by byte takes exactly one frame, or stops at the end or at a length over the limit |
| `Channel.FramedStream.SendMsg` | src/network.rs:149-159 | one frame is written, sealed when a key is set |
| `Channel.FramedStream.RecvMsg` | src/network.rs:161-168 | one frame is read and opened when a key is set |
| `Channel.PacketIsSent` | src/network.rs:149-159 | the packets of a run are what send_msg writes |
| `Channel.StepGood` | src/network.rs:149-168 | every send and receive keeps counters, wire and received messages in step |
| `Channel.ChannelSafe` | src/network.rs:149-168 | over every interleaving of sends and receives at both ends nothing breaks and each end has received a prefix of what the other sent |
| `Channel.DrainedDelivers` | src/network.rs:149-168 | once the wire is empty everything sent has arrived in order and the counters are equal |
| `HandshakeAgreement.OnlySessionKey` | src/client.rs:131-155 | a genuine announcement yields the server's session key or nothing, whatever key it is checked under |
| `HandshakeAgreement.SetupAccepts` | src/server.rs:222-246 | the server recovers exactly the key the client sealed for it, and none from an empty message |
| `HandshakeAgreement.Agreement` | src/client.rs:524-660 | whenever the client completes, so has the server; secured on one side exactly when keyed on the other, with equal keys and only the Hash counted |
| `HandshakeAgreement.HonestRunCompletes` | src/client.rs:524-660 | a server whose announcement passes the trusted key's check completes with the client |
| `HandshakeLaws.RightServer` | src/client.rs:100-155 | a client that ends up secured with a server was after it: the server bears the target's name, signs, and the key of the check accepts its announcement |
| `HandshakeLaws.RightServerCompletes` | src/client.rs:524-660 | and a server of that name whose announcement the trusted key accepts is reached |
| `HandshakeAgreement.PinRule` | src/client.rs:536-598 | against any peer a pinned key stays; without one, the relayed key is pinned exactly if the first message is an announcement it verifies |
| `HandshakeAgreement.FirstPinned` | src/client.rs:536-598 | over any attempts, from nothing, the key pinned is the relayed one of the first attempt whose announcement it verified |
| `HandshakeLaws.SecuredExactly` | src/client.rs:524-648 | against any peer: with a trusted key a session is secured exactly if the first message is an announcement of the target that key accepts, and the second a Hash under the client's key |
| `HandshakeLaws.StrangerFails` | src/client.rs:538-598 | an announcement the trusted key does not accept, or of another name, ends the run; nothing is sent or pinned |
| `HandshakeLaws.SuppliedExactly` | src/client.rs:600-612 | a key the peer supplies secures the session exactly if it accepts the announcement as the target's; signing another name with it leaves it plain; neither is pinned |
| `HandshakeLaws.NothingSupplied` | src/client.rs:157-180 | any other answer leaves the session plain, none ends it |
| `HandshakeLaws.NothingAnnounced` | src/client.rs:524-537 | without an announcement a run is plain exactly if a Hash comes first, and fails otherwise |
| `HandshakeLaws.PinnedExactly` | src/client.rs:575-598 | a key is newly pinned exactly if it was relayed and accepts the first message as an announcement of the target with a 32-byte key |
| `HandshakeLaws.SentKey` | src/client.rs:614-640 | the key message: empty, or the client's public key and its symmetric key sealed for the session key |
| `HandshakeLaws.ServerKeyedExactly` | src/server.rs:222-280 | whatever is sent to a server, it gets ready exactly if it can read the decisive message, and keyed exactly if that is a key message with the key sealed for it |
| `HandshakeAgreement.OpenSession` | src/client.rs:524-560 | a client with a trusted key completes unsecured exactly when the first message it reads is a Hash |
| `HandshakeAgreement.PinnedForever` | src/client.rs:85-98 | no later run ever changes a pinned key |
| `HandshakeAgreement.NeverPinsSupplied` | src/client.rs:575-612 | without relayed keys nothing is ever pinned, whatever peers supply |
| `HandshakeCode.RequestPeerSuppliedSignPk` | src/client.rs:157-180 | asks and takes a 32-byte key from the answer, if there is one |
| `HandshakeCode.SendKeyAndReadHash` | src/client.rs:614-648 | the key message, the key switch and the Hash are those of the specified run |
| `HandshakeCode.ClientHandshake` | src/client.rs:524-665 | outcome, bytes written, keys and stored pins are those of the specified run on every input stream |
| `HandshakeCode.TrySetupEncryption` | src/server.rs:222-246 | a key is set exactly when 32 bytes are recovered from a nonempty sealed part |
| `HandshakeCode.ServerHandshake` | src/server.rs:190-293 | the same for the server's half, under the pre-login frame limit |
| `LoginCode.CheckPassword` | src/server.rs:388-410 | a 32-byte response is accepted exactly if it proves a nonempty configured password |
| `LoginCode.OuterTurn` | src/server.rs:302-420 | one turn of the login loop answers and decides as its history demands |
| `LoginCode.InnerTurn` | src/server.rs:428-534 | one turn of the approval loop, likewise |
| `LoginCode.LoginLoop` | src/server.rs:298-560 | the loops stop at the first turn that grants or ends, with at most five login requests up to the opening of the approval window |
| `LoginCode.DecidedOnce` | src/server.rs:298-560 | a run is decided at one point only, in one way |
| `LoginCode.CodeLoop` | src/server.rs:570-613 | at most five codes; verified exactly when the last is right at its time and the others were wrong at theirs |
| `LoginCode.RunLogin` | src/server.rs:298-714 | PeerInfo is sent exactly in the runs that succeed, it and the larger frame limit only after a cleared login, and the whole trace is the talk of the stages the run went through |
| `LoginCode.LimitHolds` | src/server.rs:190-616 | before a login is cleared the frame limit is the pre-login one |
| `LoginLaws.Respond` | src/client.rs:733-738 | the viewer's response: nothing without a password, otherwise the salted digest |
| `LoginLaws.GrantsByPassword` | src/server.rs:388-486 | before and inside the window a request grants by its password exactly if it shows one of the two digests, written out, of a nonempty password in force |
| `LoginLaws.StoredInForce` | src/config.rs:227-230 | a stored password stays in force when a temporary one is made up beside it |
| `LoginLaws.RightPasswordGrants` | src/server.rs:388-486 | the salted digest of a stored password grants the session asked for, whatever came before |
| `LoginLaws.RightPasswordArrives` | src/server.rs:298-714 | and then reaches PeerInfo without a second factor exactly if the kind of session is not switched off |
| `LoginLaws.FirstRequestArrives` | src/server.rs:298-714 | the same for the first request of a run |
| `LoginLaws.ConsentGrants` | src/server.rs:420-534 | the window's consent opens the session of the request that opened the window |
| `LoginLaws.TalkGoingOn` | src/server.rs:298-557 | as long as nothing is decided only signs of life and refused passwords are sent |
| `LoginLaws.Farewell` | src/server.rs:302-557 | the last thing a run is told says why it ends |
| `LoginLaws.EndsBeforeWindow` | src/server.rs:302-557 | before the window exactly six things end a run, the fifth wrong password among them |
| `LoginLaws.EndsInWindow` | src/server.rs:428-534 | inside it four: the deadline, a failed sign of life, a lost connection, a refusal |
| `LoginLaws.SignsOfLife` | src/server.rs:306-320 | a sign of life is sent exactly in the turns that are due one and in time |
| `LoginLaws.RefusalsExactly` | src/server.rs:388-504 | a wrong password is told exactly for a request that shows one and matches nothing, inside the window only if it has a digest's length |
| `LoginLaws.CodeNeeded` | src/server.rs:559-613 | with a secret nobody gets in without a code that was right when it came |
| `LoginLaws.RightCodeArrives` | src/server.rs:559-613 | and whoever was granted gets in with the right one, behind up to four wrong ones |
| `LoginLaws.CodesAnswered` | src/server.rs:587-607 | every wrong code, and nothing else, is answered with a new request for one |
| `LoginBounds.ChecksAgree` | src/server.rs:466-486 | with a loaded configuration the check inside the approval window accepts exactly what the one before it does |
| `LoginBounds.GrantsExactly` | src/server.rs:302-534 | a live turn grants exactly for a password that matches, a known switch of sides before the window, or the consent inside it |
| `LoginBounds.FewLooks` | src/server.rs:302-557 | a run that never opens the approval window looks at no more than five passwords |
| `LoginBounds.OpenGoesOn` | src/server.rs:428-534 | once the window is open a run goes on exactly as long as it is live and nothing matches, accepts or rejects, however many requests come |
| `LoginBounds.BoundedLooks` | src/server.rs:302-557 | with the window's 60 seconds and a pause of at least 200 milliseconds a turn, no run looks at more than 304 passwords, however it ends |
| `LoginBounds.LooksReached` | src/server.rs:426-534 | some run looks at 304 passwords, refuses each, and is still undecided |
| `Words.PositionSurvives` | src/clipboard_file.rs:628-638 | every 64-bit position survives being sent as two signed 32-bit halves |
| `ClipRun.StepGood` | src/clipboard_file.rs:534-640 | one exchange keeps one request outstanding, earlier files whole and the current one a prefix |
| `ClipRun.RunDelivers` | src/clipboard_file.rs:534-665 | every run ends with all files whole, each asked for once and in order, the clipboard set once; runs terminate on files, size and bytes left |
| `ClipRun.PasteDelivers` | src/clipboard_file.rs:479-665 | the same from the file list on, whatever was on disk |
| `ClipLaws.PasteSets` | src/clipboard_file.rs:667-682 | a finished paste has set the clipboard once, to the listed names without a backslash, in order and as often as listed; never if there is none |
| `ClipLaws.SetExactly` | src/clipboard_file.rs:667-682 | a name is set exactly if it is listed and has no backslash |
| `ClipLaws.PathsEqual` | src/clipboard_file.rs:560-600 | two names go to one place exactly if they differ at most in how separators are written |
| `ClipLaws.PathKept` | src/clipboard_file.rs:575-600 | no slash is left in a path, and a name without one is its own path |
| `ClipLaws.AsksForNext` | src/clipboard_file.rs:534-665 | whatever comes in, at most one request goes out, for a size or for up to 4 MiB from where the file stands |
| `ClipLaws.GivenUp` | src/clipboard_file.rs:534-665 | an error or a failed write gives the file up as it is and goes on to the next one |
| `ClipRun.AnyReplyProgress` | src/clipboard_file.rs:534-665 | any reply, errors included, lowers the measure, except exactly one kind |
| `ClipRun.StrayReply` | src/clipboard_file.rs:534-665 | a reply to an ended run changes the clipboard exactly if there is a top-level name, and the disk exactly if it is a success with bytes that can be written: they are appended to the last file |
| `ClipRun.StrayReplies` | src/clipboard_file.rs:534-665 | any number of them: one paste each, and all the successful bytes behind the last file |
| `ClipRun.StrayAfterRun` | src/clipboard_file.rs:534-665 | after a run that delivered everything, one more reply leaves all files whole exactly if it is not a success with bytes, and pastes a second time |
| `ClipCode.Receiver.AdvanceToNextFile` | src/clipboard_file.rs:642-665 | goes to the next entry that is not a directory, or finalizes |
| `ClipCode.Receiver.FinalizeReceivedFiles` | src/clipboard_file.rs:667-682 | the clipboard gets the names without a separator, if any |
| `ClipCode.Receiver.StartTransfer` | src/clipboard_file.rs:512-532 | the first request for an accepted list |
| `ClipCode.Receiver.HandleFileContentsResponse` | src/clipboard_file.rs:534-640 | state, disk and requests after any reply are the specified ones |
| `ClipCode.HandleFileContentsRequest` | src/clipboard_file.rs:397-442 | the served reply for any request, indices and positions out of range included |
| `ClipLaws.ServedSize` | src/clipboard_file.rs:397-442 | a size goes out in eight bytes, least significant first |
| `ClipLaws.ServedRange` | src/clipboard_file.rs:397-442 | a range is answered with a nonempty part of what is there, at most 256 KiB; outside the list with an error |
| `DescriptorSpec.DescriptorRoundTrip` | src/clipboard_file.rs:147-239 | parsing a printed list gives back sizes, flags and names up to 259 units and a NUL |
| `DescriptorSpec.PlainNameKept` | src/clipboard_file.rs:172-178 | a name of at most 259 units without NUL is unchanged |
| `DescriptorLaws.RecordNumbers` | src/clipboard_file.rs:147-170 | flags at 0, attributes at 36, the size at 64 and 68, little-endian, zero in between |
| `DescriptorLaws.RecordName` | src/clipboard_file.rs:172-178 | the name at 72, at most 259 units, lower byte first, zeros behind it |
| `DescriptorLaws.DescriptorCount` | src/clipboard_file.rs:147-153 | first the number of records in four bytes |
| `DescriptorLaws.DescriptorLayout` | src/clipboard_file.rs:154-183 | then the records, 592 bytes each |
| `DescriptorLaws.ParsedCount` | src/clipboard_file.rs:185-197 | as many entries as are announced, or as fit |
| `DescriptorLaws.ParsedFields` | src/clipboard_file.rs:198-218 | size from its two words, directory by bit 4 of the attributes |
| `DescriptorCode.BuildFileGroupDescriptor` | src/clipboard_file.rs:147-183 | the buffer filled in place is the printed list |
| `DescriptorCode.ParseFileGroupDescriptor` | src/clipboard_file.rs:185-239 | on any bytes, reads in range and returns min(count, (len-4)/592) entries |
| `PasteEndToEnd.PasteArrives` | src/clipboard_file.rs:147-682 | announce, parse, request and serve: every file arrives whole |
| `TerminalEcho.InsertEchoes` | src/terminal_service.rs:359-368 | replaying the echo of an insertion shows the new line and cursor |
| `TerminalEcho.DeleteAtEchoes` | src/terminal_service.rs:338-349 | likewise for a deletion |
| `TerminalEcho.BackspaceEchoes` | src/terminal_service.rs:351-357 | likewise for a backspace |
| `TerminalEcho.ClearEchoes` | src/terminal_service.rs:370-378 | likewise for clearing the line |
| `TerminalEcho.CsiEchoes` | src/terminal_service.rs:380-395 | likewise for cursor keys and the tilde codes |
| `TerminalEcho.EchoFaithful` | src/terminal_service.rs:434-487 | for every input whose Ctrl-C presses meet an invisible line, the replayed echo shows exactly buffer and cursor |
| `TerminalEcho.RightIffClean` | src/terminal_service.rs:434-487 | the screen is right after every prefix of the input exactly if each Ctrl-C meets an invisible line |
| `TerminalEcho.DroppedLineShows` | src/terminal_service.rs:474-477 | after Ctrl-C the screen is right exactly when the line was invisible |
| `TerminalEcho.WithoutCtrlC` | src/terminal_service.rs:438-482 | input without Ctrl-C is such an input |
| `TerminalEcho.LineStaysFine` | src/terminal_service.rs:438-482 | the cursor stays within the line on every input |
| `TerminalEcho.BatchesDoNotMatter` | src/terminal_service.rs:434-487 | state, echo and submitted lines do not depend on where input is cut |
| `TerminalEcho.BatchedInterrupts` | src/terminal_service.rs:483-500 | cutting keeps the order of lines and Ctrl-C exactly when nothing is sent after it |
| `TerminalEcho.BackspaceUndoesInsert` | src/terminal_service.rs:351-368 | a backspace takes back the character just typed |
| `TerminalEcho.TypedLine` | src/terminal_service.rs:462-481 | plain text is submitted as typed |
| `TerminalKeys.CursorKeys` | src/terminal_service.rs:380-395 | what the left, right, home and end keys do to the cursor |
| `TerminalKeys.TildeKey` | src/terminal_service.rs:380-395 | home, end and removal by their numbered sequences; other digits do nothing |
| `TerminalKeys.OtherKeys` | src/terminal_service.rs:380-395 | all other sequences leave the line alone |
| `TerminalKeys.PlainKeys` | src/terminal_service.rs:460-482 | what every other character does to line, cursor, shell and Ctrl-C |
| `TerminalKeys.TypedInto` | src/terminal_service.rs:434-487 | text typed, gone back in, typed into and entered reaches the shell with the later text in its place |
| `TerminalCode.TerminalSession.LineDeleteAt` | src/terminal_service.rs:338-349 | fields and echo are those of the specified deletion |
| `TerminalCode.TerminalSession.LineInsert` | src/terminal_service.rs:359-368 | likewise for insertion |
| `TerminalCode.TerminalSession.LineClear` | src/terminal_service.rs:370-378 | likewise for clearing |
| `TerminalCode.TerminalSession.HandleData` | src/terminal_service.rs:434-500 | a batch leaves the state, echo, lines and Ctrl-C of the specified run |
| `TransferQueue.KeyTaken` | src/server.rs:2320-2374 | a file's key is also that of one of the first thousand files of another job exactly from number 1000 on |
| `TransferQueue.AllKept` | src/server.rs:2320-2383 | after queueing, every listed file is in the map exactly if files with equal keys are the same file |
| `TransferQueue.FileLost` | src/server.rs:2320-2383 | a file is lost exactly if a different one is queued last under its key |
| `TransferQueue.TwoListings` | src/server.rs:2346-2385 | two directories lose a file exactly if a file of the earlier id lies a thousand per id behind one of the later |
| `TransferQueue.TwoFullListings` | src/server.rs:2346-2385 | with files only: exactly if the earlier has more than a thousand per id in between and the later has any |
| `TransferSend.TurnKeeps` | src/server.rs:2066-2103 | a turn, whatever it reads and in whatever order it passes, keeps the invariant: each file dropped for good, under way with a prefix sent, or complete, and no done job left in the map |
| `TransferLaws.Asked` | src/server.rs:2267-2385 | what is asked for is announced, and every file of it waits unconfirmed from its start under id * 1000 + number |
| `TransferLaws.TakesUp` | src/server.rs:2418-2424 | a confirmation at block b sets the job to byte 131072 b |
| `TransferLaws.TakenUp` | src/server.rs:2578-2644 | it then sends the file from there on: always a prefix, and after one visit more than there are bytes all of it and a Done |
| `TransferLaws.Numbered` | src/server.rs:2606-2626 | blocks are numbered one after the other, modulo 2^32 |
| `TransferLaws.Cancelled` | src/server.rs:2463-2472 | a cancellation takes exactly the jobs of its id away, silently |
| `TransferLaws.Unreadable` | src/server.rs:2629-2639 | a file that cannot be read is answered with one Error and swept out |
| `TransferSend.SoundOrderly` | src/server.rs:2578-2644 | messages that each suit what was said before them never name a file after its Done |
| `TransferReceive.WriteAppends` | src/file_transfer.rs:168-187 | a block written at the end of a file appends |
| `TransferLaws.WriteBytes` | src/file_transfer.rs:168-187 | byte by byte what a write leaves, and that no other file changes |
| `TransferLaws.ReadPart` | src/file_transfer.rs:102-110 | a read gives a nonempty part of at most 128 KiB as long as there is something |
| `TransferLaws.BlockTaken` | src/remote.rs:1051-1090 | a block goes to its file's path, or to the destination for want of one, at the file's offset, which moves on |
| `TransferLaws.DoneTaken` | src/remote.rs:1095-1119 | a Done ends a job that waits for no other, or that is not known, and counts otherwise |
| `TransferReceive.TakeKeeps` | src/remote.rs:991-1120 | taking the next message of a sound log keeps every file, offset, count and finished job what the log so far says |
| `TransferReceive.DrainRebuilds` | src/remote.rs:991-1120 | draining any sound log rebuilds each file so far and counts finished files right |
| `TransferList.DestinationsDiffer` | src/remote.rs:1013-1042 | the destinations of a list differ exactly if its file names do |
| `TransferPaths.SafeExactly` | src/file_transfer.rs:189-195 | a name is accepted exactly if it is not empty, has no NUL, starts neither at a root nor on a drive, and no component leads upwards |
| `TransferPaths.UpIsPart` | src/file_transfer.rs:189-195 | a component is ".." exactly if the name has two dots between separators or ends |
| `TransferPaths.RefusedExactly` | src/remote.rs:998-1012 | a list is refused, with a cancellation and nothing else, exactly if one of its names is not, the single unnamed file apart |
| `TransferPaths.DirTame` | src/remote.rs:1013-1042 | every path of a kept job is its destination, or behind it with at most one separator between |
| `TransferPaths.JoinedWith` | src/remote.rs:1013-1026 | when a separator goes between |
| `TransferPaths.NothingOutside` | src/remote.rs:991-1120 | whatever any server sends and whenever jobs are opened, nothing outside their destinations is written |
| `TransferList.PlacesDiffer` | src/remote.rs:1013-1042 | two files of sensible downloads never go to one place |
| `TransferRun.SystemSafe` | src/server.rs:2066-2103 | every interleaving of requests, confirmations, cancellations, turns and taken messages keeps the invariant of both ends and of the messages under way |
| `TransferRun.DoneOnce` | src/server.rs:2578-2644 | in every run each file has at most one Done, nothing is said of it behind that, and no done job is in the map between turns |
| `TransferRun.DownloadsArrive` | src/remote.rs:991-1120 | any number of downloads, asked for while others run: every file that kept its job and was not skipped or moved is in its place, and exactly the jobs whose lists name files only, at least one, all of which kept their job, are reported done, once |
| `TransferRun.ThousandEach` | src/server.rs:2346-2385 | lists of at most a thousand entries never share a key |
| `TransferRun.NothingDropped` | src/server.rs:2320-2385 | in no run without cancellations whose keys tell the files apart does a file lose its job |
| `TransferFate.DroppedSilent` | src/server.rs:2463-2472 | once a file has lost its job, to a list or a cancellation, no byte of it is sent any more, nor its Done |
| `TransferFate.LostFile` | src/server.rs:2320-2385 | a file that waits for its confirmation when a list takes its key is never sent, whatever happens then |
| `TransferFate.LostRun` | src/server.rs:2346-2385 | file 1000 of job 1 is such a file when job 2 is asked for before its confirmation |
| `TransferFate.FileFinishes` | src/server.rs:2578-2644 | a confirmed file that is not dropped, skipped or moved is complete after one turn more than it has bytes, amid whatever else happens |
| `TransferUpload.UploadRebuilds` | src/server.rs:2487-2576 | uploads: draining any orderly log writes each file byte for byte, marks jobs done exactly where Done was said and echoes every Done in order |
| `TransferUpload.UploadsArrive` | src/server.rs:2216-2576 | from the listed files on: with keys and paths that tell them apart, every file's job and path say what the messages said of it |
| `TransferUpload.UpQueueApart` | src/server.rs:2229-2262 | files that share no path are kept apart, and all of them are known exactly if the keys tell them apart |
| `TransferUpload.DoneTouches` | src/server.rs:2547-2572 | a Done leaves all other files' jobs and echoes alone exactly if the job under its key is of its own id, or there is none and nothing of its id is unfinished |
| `TransferUpload.DoneAstray` | src/server.rs:2547-2572 | the Done of file 1000 of job 1, and of any unknown file of job 2, end file 0 of job 2 and are echoed as its own |
| `TransferUpload.BlockTouches` | src/server.rs:2504-2540 | a block leaves all other files alone exactly if its key is free or of its own id, the job there is done, or it is empty |
| `TransferUpload.BlockAstray` | src/server.rs:2504-2540 | otherwise its bytes are appended to the other job's file |
| `TransferClient.BodyFeeds` | src/remote.rs:1297-1346 | what the client sends of its first n entries puts exactly their files on disk, in full, and changes nothing else |
| `TransferClient.UploadEnds` | src/remote.rs:1292-1365 | the whole upload: all files are on disk, and exactly one job, that of the last entry, or of some file if that is a directory marker, is marked done and echoed; none if there are no files |
| `TransferClient.RequestReady` | src/server.rs:2229-2264 | a request of a new id, with distinct names and free keys, gives every file a fresh job on its path, which is what an upload needs |
| `TransferClient.RequestedExactly` | src/server.rs:2229-2264 | names that end in a slash make no job, every other one a fresh job on its path |
| `TransferUpload.UploadServer.HandleReceive` | src/server.rs:2229-2264 | the jobs queued for a request, directory markers passed over |
| `TransferUpload.UploadServer.HandleBlock` | src/server.rs:2504-2540 | a block is appended to its unfinished job, otherwise ignored |
| `TransferUpload.UploadServer.HandleDone` | src/server.rs:2547-2572 | marks and echoes its own job, or else the first unfinished one of the same id |
| `TransferCode.FileServer.SendPendingBlocks` | src/server.rs:2578-2644 | a pass leaves the jobs and messages of the specified pass |
| `TransferCode.FileServer.HandleSendConfirm` | src/server.rs:2401-2432 | a confirmation's effect on its job, skip and offset included |
| `TransferCode.ReadFileBlock` | src/file_transfer.rs:102-110 | at most one block from the offset on |
| `TransferCode.WriteFileBlock` | src/file_transfer.rs:168-187 | truncates at offset 0, pads a gap with zeros, keeps what lies behind |
| `TransferCode.FileServer.QueueFile` | src/server.rs:2320-2329 | a single file is queued under its requested number, replacing what was there |
| `TransferCode.FileServer.QueueListing` | src/server.rs:2346-2385 | every file of a listing is queued under its place in it |
| `TransferCode.FileServer.HandleSend` | src/server.rs:2267-2385 | a path asked for is answered with its list and queued, a file by itself under number 0 |
| `TransferCode.FileServer.HandleCancel` | src/server.rs:2463-2472 | a cancellation takes exactly the jobs of its id out of the map |
| `TransferCode.FileServer.Turn` | src/server.rs:2037-2103 | a turn is what it read, if anything, and then a pass |
| `TransferCode.FileReceiver.StartDownload` | src/remote.rs:1227-1245 | a download opens an empty job for its destination and asks for its path |
| `TransferCode.FileReceiver.HandleDir` | src/remote.rs:991-1046 | an unsafe list ends its job and is refused with a cancellation; otherwise each file gets base or base/name, directories nothing, and all offsets are zero |
| `TransferCode.FileReceiver.ProcessFileResponses` | src/remote.rs:989-1120 | jobs, offsets, disk, finished jobs and refusals after any list of messages |
| `CalendarSpec.DayNumberInjective` | src/config.rs:1014-1025 | a valid date is determined by its day number |
| `CalendarSpec.NextDay` | src/config.rs:1014-1025 | dates are numbered one after the other, by the Gregorian calendar |
| `CalendarSpec.Epoch` | src/config.rs:1014-1025 | from the first of January 1970 |
| `CalendarCode.ClosedFormIsRight` | src/config.rs:1014-1025 | for every day count, before 1970 too, the closed form is the valid date with that number |
| `CalendarCode.DaysToYmdByLoop` | src/recording.rs:282-308 | the loops give the valid date with that number, and so the closed form's date |
| `Stun.TypeRoundTrip` | src/turn.rs:164-178 | packing loses neither a 12-bit method nor a 2-bit class |
| `Stun.TypeOnto` | src/turn.rs:164-178 | every 14-bit type is the packing of its own method and class |
| `StunLaws.TypeBits` | src/turn.rs:164-178 | the class bits stand at 4 and 8 between the bits of the method |
| `Stun.XorAddrRoundTrip` | src/turn.rs:189-210 | IPv4 addresses survive the XOR encoding, others encode to nothing |
| `StunLaws.AddressBytes` | src/turn.rs:189-210 | port and address are masked byte by byte with the first bytes of the cookie as every header has it |
| `StunMessage.BuildParses` | src/turn.rs:223-318 | parsing what was built gives back type, transaction and attributes in order, with MESSAGE-INTEGRITY when keyed |
| `StunMessage.StunBuilder.AddAttr` | src/turn.rs:223-229 | appends one padded attribute |
| `StunMessage.StunBuilder.Build` | src/turn.rs:241-256 | the bytes are header, body and, with a key, the integrity attribute over them |
| `StunLaws.HeaderLayout` | src/turn.rs:241-248 | type, length, the cookie 2112A442 and the transaction, most significant byte first |
| `StunLaws.BuiltLayout` | src/turn.rs:241-256 | what the length counts and the integrity attribute covers |
| `StunLaws.AttrLayout` | src/turn.rs:223-229 | kind, length, value, and as few zeros as make a multiple of four |
| `StunMessage.ParseStun` | src/turn.rs:296-318 | total on arbitrary bytes, equal to the recursive reading |
| `StunLaws.RefusedExactly` | src/turn.rs:296-318 | a message is refused exactly if it lacks a header, the cookie, or bytes its length announces |
| `StunLaws.TailIgnored` | src/turn.rs:296-318 | what lies behind a message does not belong to it |
| `Base32.EncodeWords` | src/auth_2fa.rs:18-31 | the words are the data's bits in fives, zero-filled, although high bits of the accumulator fall off |
| `Base32.WordBit` | src/auth_2fa.rs:18-31 | bit t of word j is bit 5j + t of the data, most significant first, and zero behind its end |
| `Base32.LetterOrder` | src/auth_2fa.rs:15-57 | words 0 to 25 are A to Z, 26 to 31 are 2 to 7, and nothing else has a value |
| `Base32.Encode` | src/auth_2fa.rs:15-36 | the text is those words' letters padded to a multiple of eight |
| `Base32.DecodeWords` | src/auth_2fa.rs:40-57 | refuses exactly what is outside the alphabet and otherwise gathers the whole bytes |
| `Base32.Base32RoundTrip` | src/auth_2fa.rs:15-57 | decoding an encoding gives the bytes back, for every byte string |
| `Toml.StringRoundTrip` | src/config.rs:757-815 | every string comes back from its encoding, which has no line break and no blanks around it |
| `TomlLaws.PlainText` | src/config.rs:757-773 | text without quotes, backslashes and controls is written as it is between double quotes |
| `TomlLaws.EscapeSpecial` | src/config.rs:757-773 | the other characters: five letters, and a backslash, u and four digits |
| `TomlLaws.EscapeDigits` | src/config.rs:757-773 | which are the hexadecimal digits of the character's code |
| `TomlLaws.EscapeConcat` | src/config.rs:757-773 | the escapes of a text are those of its parts, one behind the other |
| `TomlLaws.OtherStrings` | src/config.rs:775-784 | text in single quotes, or without quotes, is taken as it is |
| `Toml.EntryParses` | src/config.rs:746-755 | a line for a plain key parses to the key and its value |
| `Toml.ParsedKeyPlain` | src/config.rs:746-755 | only plain keys are ever parsed |
| `TomlCode.TomlEncodeStr` | src/config.rs:757-773 | the loop prints the specified encoding |
| `TomlCode.UnescapeBasic` | src/config.rs:786-815 | the loop undoes escapes as specified, malformed ones included |
| `Config2Spec.SaveRestores` | src/config.rs:374-433 | saving and reading restores a configuration exactly when its option keys are plain |
| `Config2Spec.SetSurvives` | src/config.rs:374-449 | an option set under a plain key in a loaded configuration is there after saving and loading, whatever the file held |
| `TomlLaws.SavedText` | src/config.rs:404-433 | the text of a saved configuration, literally, up to the sorted option lines |
| `TomlLaws.OptionLine` | src/config.rs:419-425 | one line for each option |
| `TomlLaws.Headings` | src/config.rs:378-389 | one heading opens the options, any other closes them, comments do nothing |
| `TomlLaws.KnownKeys` | src/config.rs:390-399 | three keys are known outside the options; an unreadable number is zero |
| `TomlLaws.SetExactly` | src/config.rs:439-446 | an empty value takes an option away, any other one is then there |
| `Config2Code.Config2.Read` | src/config.rs:374-402 | the fields after reading a file |
| `Config2Code.Config2.Save` | src/config.rs:404-433 | the text written, or nothing after a failed read |
| `Config2Code.Config2.SetOption` | src/config.rs:439-446 | an empty value removes the key; the file is saved |
| `Secret.XorEncryptTwice` | src/auth_2fa.rs:96-101 | masking twice gives the data back |
| `Secret.MaskedBy` | src/auth_2fa.rs:96-101 | a byte and its masked self differ by the key's byte, the key used over and over |
| `Secret.SaveSecret` | src/auth_2fa.rs:103-109 | afterwards a readable file keeps the secret and everything else it held |
| `Secret.LoadSecret` | src/auth_2fa.rs:111-124 | a kept secret of 10 to 64 bytes is given back exactly, any other refused |

## Left out

- The SHA-256 and SHA-512 compression functions, the Salsa20 core and HSalsa20, HMAC-SHA1, TOTP codes and randomness are function values or arguments.
- That the points of the curve are such a system as `X25519Laws.LadderMultiplies` speaks of is not proved.
- Ed25519 point arithmetic, packing and verification: only the scalar part of signing and the square-root power are modelled; the curve group law, commutativity of the key exchange and correctness of signatures are stated as assumed laws.
- Protobuf messages are datatypes and their encoding a pair of functions with the round trip assumed; name comparison of hosts is an argument.
- Sockets, TLS, relays, file systems and clipboards: reads return what they are told to; a send that fails, other than a keepalive, is taken to end the run before anything else happens.
- Time: deadlines and keepalives are inputs, but for the approval window, whose turns read the clock once; a read timeout in the middle of a frame, which loses synchronisation, is not modelled.
- Frames are read from a byte sequence that has arrived; waiting for more is not distinguished from the end of the stream.
- `Channel.ChannelSafe`: messages are short enough for their frames to fit the reader's limit; counters do not reach 2^64.
- `HandshakeAgreement.Agreement`: the handshake's few messages fit the 4 MiB pre-login frame limit, and the bytes a server without a signing key announces pass no signature check.
- `Sha256.Hasher.Finalize`: data of fewer than 2^64 bits, as the standard has it.
- Rotation of the temporary password after failed attempts, and what happens after an invitation: the passwords in force at each turn are inputs.
- Safe-name checks on pasted lists, directory creation and the lossy decoding of broken UTF-16 names.
- `ClipRun.PasteDelivers`: writes succeed, served files do not change and no two land on one path.
- Wide characters, line wrap, the shell's own output and dropped echo in the terminal; control characters above 0x7F take one cell.
- `TransferRun.DownloadsArrive`: files do not change and are listed as they are under safe names, writes succeed and no two files have one path; paths are compared as they are written, whatever the file system takes for the same. A file asked for by itself is asked for as number 0, as the window does.
- `TransferUpload.UploadServer.HandleReceive`: names are taken to be relative; an absolute name or one with a drive, which replaces the destination in the code because the server does not check the names of uploads, is not modelled.
- `TransferClient.UploadEnds`: the upload's messages are taken in order with no other upload between them.
- `TransferQueue.KeyTaken`: the wrap-around of the 32-bit key for ids beyond two million, and negative file numbers.
- Compressed blocks, digests, the answer to a path that is not there, failed writes, created directories and the walk that makes a listing.
- Base64, URL encoding, proxies, video, recording containers, input injection, installation and user interface.
