# ACM-UZ control plane: a verified model

ACM-UZ protects traffic with an AEAD. Its crypto daemon (`acm-cryptod`, Rust) holds the active provider
and key behind three separate mutexes and answers requests that arrive as lines of JSON on a Unix socket;
its agent (Go) talks to the daemon through a lock-step client without request ids, takes keys from a web
form, and reports processor, network and process activity. This project models those parts in Dafny and
proves what they promise, for every input, every run and every interleaving.

`dafny verify dfyconfig.toml` checks everything.

## How the modules fit together

- **Frames.** `Gcm` builds GCM (sections 7.1 and 7.2 of NIST SP 800-38D, with the lengths and limits of
  sections 5.1 and 5.2 of RFC 5116) from an uninterpreted block cipher and GHASH, so that the round trip
  is proved, what GHASH is given determines AAD and ciphertext, and no counter block is used twice. `Buffers` has the in-place primitives, `AesGcmRing` and `AesGcmSw` the two wrappers with their
  own orders of checks, `Providers` the interface they share. `Wire` is the frame format; `Frames` proves
  its round trips, its exact verdicts and that every byte of a frame is authenticated.
- **Daemon.** `Daemon` has the state as a class with its handlers, each proved against the function `Serve`.
  `Interleaving` takes the handlers apart into single lock, read, write, counter and release operations of
  any number of concurrent tasks. `Linearizability` proves that every interleaving is explained by a daemon
  with one atomic key cell; `Coherence`, `Progress`, `Counters` and `DaemonRuns` prove the other whole-run
  properties and build the runs in which the three cells come apart; `OneAlgorithm` and `Exactness` prove
  exactly when there are such runs; `Authenticity` says where the plaintexts of a run come from.
- **Lock-step protocol.** `LockStep` is client, server and socket as a step system with partial writes, partial
  reads, failures, timeouts and reconnects; `Matching` proves its invariant and what it keeps from happening,
  `Completion` that what should happen does: along every schedule without a failure a call returns, and from
  every reachable state the next call can. `Client` has the client's methods as a class, proved to be runs of
  that system determined by what the network and the other callers do.
- **Lines and encodings.** `Lines` and `Serving` are the server's connection loop over chunks of bytes.
  `Base64` and `Hex` (sections 4 and 8 of RFC 4648), `Decimal` and `Json` (the subset of RFC 8259 in use) carry
  the messages; `Envelopes` has both languages' printers and readers, `Texts` every message to the character,
  `Truncation` shows what a cut message means, `KeyEntry` follows a key from the form to the daemon. `Delivery` carries the envelopes over the
  protocol and `EndToEnd` through the daemon; `Deployment` makes client, socket, server and daemon one system,
  `Service` proves what it gives its callers and `Fulfilment` that it does give it.
- **Monitor.** `StatParser` and `Whitespace` are the `/proc/[pid]/stat` parser; `Jiffies`, `Deltas` and `Sysmon`
  the delta reader as a class; `Snapshots` says what one snapshot finds in its files, `Accounting` what any run of
  them adds up to.

Where a property one would like is false of the code, the model keeps the code and proves when it holds:

- Answers are exactly those of a daemon with one atomic cell if and only if the accepted rotations name one
  algorithm (`Exactness.ExactlyWhenOneAlgorithm`); the cells agree at rest under the same condition
  (`Exactness.CoherentExactlyWhenOneAlgorithm`); status reports name one key's id and algorithm if and only if
  all accepted rotations are to the start-up algorithm (`Exactness.ReportsExactlyWhenDefault`). All three range over
  every stock of rotations and every run that rotates only by it, as often and as overlapping as it likes.
- A frame reseals to itself if and only if its reserved bytes are zero (`Frames.OpenedFrameIsSealed`); the two
  providers agree on all but the calls of `Providers.SealVerdictsAgree`; a client's request is understood unless a
  required slice is nil (`Envelopes.RequestAgreement`); the percentage clamp acts as `Jiffies.ClampExact` says; busy
  time goes unreported as `Accounting.BusyTelescopes` says.

Comments in the source that its code does not follow (the model follows the code): `EncryptParams.aad` is
described as included in the tag (cryptod/crates/acm-ipc/src/lib.rs:90) but is ignored
(`Daemon.CallerAadIgnored`); key material is described as an array of numbers
(cryptod/crates/acm-ipc/src/lib.rs:36-38) but is base64; the counters are described as
touched by rotation and status only (cryptod/crates/acm-cryptod/src/main.rs:104-105) but count encrypts and
decrypts; malformed frames are described as 400-class (cryptod/crates/acm-cryptod/src/main.rs:303-304), and the
code is 422.

## Model

| member | source | states |
|---|---|---|
| Gcm.SealOpenInverse | cryptod/crates/acm-crypto/src/lib.rs:131-155 | opening gives `pt` exactly when the body is the seal of `pt` under the same key, nonce and AAD: both directions, for every block cipher |
| Gcm.TagInputInjective | cryptod/crates/acm-crypto/src/lib.rs:131-155 | for AADs and ciphertexts within the limits: equal inputs to GHASH mean equal AAD and equal ciphertext |
| Gcm.TagsAgree | cryptod/crates/acm-crypto/src/lib.rs:131-155 | under one key and nonce two tags are equal exactly when GHASH agrees on the two inputs |
| Gcm.KeyStreamBlocksDistinct | cryptod/crates/acm-crypto/src/lib.rs:131-155 | the block that masks the tag and all blocks of the key stream of one nonce come from pairwise different counter blocks |
| Gcm.CounterBlocksDistinct | cryptod/crates/acm-crypto/src/lib.rs:131-155 | counter blocks are equal exactly for the same nonce and the same counter modulo 2^32 |
| Gcm.SealedBytes | cryptod/crates/acm-crypto/src/lib.rs:131-155 | each byte of a ciphertext is the plaintext's combined with the byte of the enciphered counter block at its place |
| Crypto.AlgoByteBijection | cryptod/crates/acm-crypto/src/lib.rs:48-64 | identifier bytes and algorithms correspond one to one; no other byte is an algorithm |
| AesGcmRing.Seal | cryptod/crates/acm-crypto/src/aes_gcm_ring.rs:60-103 | the verdict by ring's order of checks; on success just the returned prefix of the slice is written, with ciphertext and tag; which error leaves the plaintext behind |
| AesGcmRing.Open | cryptod/crates/acm-crypto/src/aes_gcm_ring.rs:105-155 | the verdict by ring's order of checks; the plaintext is delivered on success and the caller's buffer is unchanged on every failure |
| AesGcmSw.Seal | cryptod/crates/acm-crypto/src/aes_gcm_sw.rs:83-128 | the same for the RustCrypto wrapper and its different order of checks |
| AesGcmSw.Open | cryptod/crates/acm-crypto/src/aes_gcm_sw.rs:130-176 | the same; a rejected body stays copied in the caller's buffer |
| Providers.SealVerdictsAgree | cryptod/crates/acm-crypto/src/aes_gcm_sw.rs:37-75 | both wrappers give the same result or error on every call except exactly those with wrong-length material and a wrong nonce or short buffer besides |
| Providers.OpenVerdictsAgree | cryptod/crates/acm-crypto/src/aes_gcm_sw.rs:130-144 | the same for opening |
| Providers.SealWithBoth | cryptod/crates/acm-crypto/src/aes_gcm_ring.rs:60-103 | sealing one call into two copies of a buffer: equal buffers, equal verdicts (with the exact exception), ciphertext in the prefix, the rest untouched |
| Providers.OpenWithBoth | cryptod/crates/acm-crypto/src/aes_gcm_ring.rs:105-155 | opening one call into two copies of a buffer: success together, with equal buffers; on failure ring's is unchanged and what RustCrypto's holds |
| Wire.EncodeHeader | cryptod/crates/acm-wire/src/lib.rs:70-83 | writes exactly the twelve header bytes and nothing else, or reports the length and writes nothing |
| Wire.HeaderCodec | cryptod/crates/acm-wire/src/lib.rs:70-103 | a byte string decodes to a header exactly when its first ten bytes are that header's and the version is 1; reserved bytes do not matter |
| Wire.HeaderLayout | cryptod/crates/acm-wire/src/lib.rs:70-83 | byte by byte: the magic's value, the version, algorithm, flags, the key id as a sum of its bytes, two zeros |
| Wire.DecodeLayout | cryptod/crates/acm-wire/src/lib.rs:85-103 | for any bytes: which check refuses them, and otherwise where each field is read from |
| Wire.Seal | cryptod/crates/acm-wire/src/lib.rs:115-159 | in place: the verdict, and on success exactly the frame in the prefix of the buffer |
| Wire.Open | cryptod/crates/acm-wire/src/lib.rs:165-205 | in place: the verdict of the frame's checks in order, and on success exactly the plaintext in the prefix |
| Wire.SealFrameSucceeds | cryptod/crates/acm-wire/src/lib.rs:115-159 | sealing succeeds exactly for a well-formed key of the provider's algorithm, a 12-byte nonce and a plaintext within the limit, and yields `frame_len` bytes |
| Frames.FrameRoundTrip | cryptod/crates/acm-wire/src/lib.rs:115-211 | a sealed frame decodes to its header and opens to its plaintext, on either backend, in any large enough buffer, under any key id with the same material |
| Frames.OpenVerdictExact | cryptod/crates/acm-wire/src/lib.rs:165-205 | for any bytes: success, and authentication failure, exactly when; 40 bytes shorter; a buffer of the frame's length is never too small |
| Frames.OpenErrorExact | cryptod/crates/acm-wire/src/lib.rs:165-205 | for any bytes and any key: which error is reported, in literal lengths and byte values |
| Frames.KeyIdNotCompared | cryptod/crates/acm-wire/src/lib.rs:165-205 | the header's key id is not compared with the key's |
| Frames.OpenedFrameIsSealed | cryptod/crates/acm-wire/src/lib.rs:199-203 | an accepted frame is the seal of its plaintext under its own header bytes, and equals what `seal` builds exactly when its reserved bytes are zero |
| Frames.AcceptedFrameIsAuthentic | cryptod/crates/acm-wire/src/lib.rs:143-158 | for any history of seals and self-tests under a key: an accepted frame is not an AEAD forgery exactly when it is byte for byte one of the sealed frames and opens to that call's plaintext |
| Frames.AlteredFrame | cryptod/crates/acm-wire/src/lib.rs:149-154 | a frame changed in its header or ciphertext alone has another input to GHASH, and is accepted beside the original only if GHASH agrees on the two |
| Daemon.CryptodState.constructor | cryptod/crates/acm-cryptod/src/main.rs:112-124 | starts with ring AES-256-GCM, no key, counters at zero |
| Daemon.CryptodState.Handle | cryptod/crates/acm-cryptod/src/main.rs:138-220 | every request leaves the state and gives the response that `Serve` specifies |
| Daemon.CryptodState.HandleEncrypt | cryptod/crates/acm-cryptod/src/main.rs:223-276 | 409, 422, the sealed frame or 500, with the right counter moved and no other field |
| Daemon.CryptodState.HandleDecrypt | cryptod/crates/acm-cryptod/src/main.rs:278-315 | 409, the plaintext, 401 or 422, with the right counter moved and no other field |
| Daemon.CryptodState.HandleRotate | cryptod/crates/acm-cryptod/src/main.rs:156-211 | the decision and the three cells it writes; no counter moves |
| Daemon.CryptodState.SelfTest | cryptod/crates/acm-cryptod/src/main.rs:318-330 | true exactly when the provider seals the known text with empty AAD and opens it again |
| Daemon.WellFormedKeysPassSelfTest | cryptod/crates/acm-cryptod/src/main.rs:318-330 | the self-test succeeds for every well-formed key, on every block cipher |
| Daemon.RotationVerdictExact | cryptod/crates/acm-cryptod/src/main.rs:156-205 | accepted exactly for 0x01 with 16 and 0x02 with 32 bytes; otherwise 501 for 0x10 and 422 for the rest, so both 500 branches are dead |
| Daemon.RotationAllOrNothing | cryptod/crates/acm-cryptod/src/main.rs:156-211 | taken alone a rotation changes all three cells or nothing, and never a counter |
| Daemon.DecryptVerdictExact | cryptod/crates/acm-cryptod/src/main.rs:278-315 | 401 exactly for properly addressed frames whose tag fails, `len - 40` bytes exactly when it verifies, 422 otherwise |
| Daemon.EncryptVerdictExact | cryptod/crates/acm-cryptod/src/main.rs:223-276 | for every provider, key, nonce and plaintext: a ciphertext exactly when, 422 exactly for a nonce not of 12 bytes, 500 otherwise |
| Daemon.EncryptedHeader | cryptod/crates/acm-cryptod/src/main.rs:252-262 | the header of the frame returned, byte by byte, with the key's own id and algorithm and no flags |
| Daemon.CountersServed | cryptod/crates/acm-cryptod/src/main.rs:223-315 | which counter each request moves, in literal conditions; 409 and 422 for a nonce move none |
| Daemon.AlteredFrameRefused | cryptod/crates/acm-cryptod/src/main.rs:278-315 | of a frame that decrypts, a copy altered in header or ciphertext is answered with an error unless GHASH agrees on the two |
| Daemon.EncryptDecryptRoundTrip | cryptod/crates/acm-cryptod/src/main.rs:223-315 | what encrypt returned, decrypt opens to the same plaintext under the same material |
| Interleaving.ExecExtends | cryptod/crates/acm-cryptod/src/main.rs:138-219 | over any run requests never change and finished tasks stay finished |
| Linearizability.RunExplained | cryptod/crates/acm-cryptod/src/main.rs:138-315 | every run keeps: the key cell is the replay of the log, each task is logged at most once, and is explained by the cell at its log position |
| Linearizability.DaemonAccountSound | cryptod/crates/acm-cryptod/src/main.rs:207-209 | every single operation of the daemon obeys the linearization argument: rotations take effect at their key write, other requests at their key read |
| Linearizability.Linearizable | cryptod/crates/acm-cryptod/src/main.rs:138-315 | every finished request of every interleaving, overlapping rotations included, has the one-cell daemon's answer after the requests logged before it, up to an algorithm mismatch |
| Linearizability.DecisiveAnswersExact | cryptod/crates/acm-cryptod/src/main.rs:223-315 | ciphertexts, plaintexts, acknowledgements, 401, 409 and 501 are exactly the one-cell daemon's |
| Linearizability.RealTimeOrder | cryptod/crates/acm-cryptod/src/main.rs:138-315 | for any handler with a sound account, the log puts a finished request before all that arrive later |
| Linearizability.OwnProvidersExact | cryptod/crates/acm-crypto/src/aes_gcm_ring.rs:68-73 | in a run in which no request finds another algorithm's provider every answer is exactly the one-cell daemon's |
| Coherence.CoherentIsAtomic | cryptod/crates/acm-cryptod/src/main.rs:138-315 | on coherent cells the sequential daemon is the one-cell daemon and stays coherent |
| Coherence.SoloRunsStayCoherent | cryptod/crates/acm-cryptod/src/main.rs:207-209 | if rotations never overlap, every run keeps provider, algorithm and key in agreement up to the rotation in flight |
| Coherence.OverlapMixesCells | cryptod/crates/acm-cryptod/src/main.rs:207-209 | for any two acceptable rotations, a run that acknowledges both and ends with the provider of one and the key of the other |
| Coherence.EncryptCanTear | cryptod/crates/acm-cryptod/src/main.rs:225-236 | for any two acceptable rotations of different algorithms, one strictly after the other, a run that answers an encryption 500 with an algorithm mismatch |
| Coherence.DecryptCanTear | cryptod/crates/acm-cryptod/src/main.rs:279-290 | the same for the decryption of any frame addressed to the first algorithm, which is answered 422 |
| OneAlgorithm.RunSettled | cryptod/crates/acm-cryptod/src/main.rs:207-209 | from start-up, whatever its provider, every run whose accepted rotations name one algorithm keeps provider, algorithm, key and tasks of that algorithm, and no task finds another's provider |
| Exactness.ExactlyWhenOneAlgorithm | cryptod/crates/acm-cryptod/src/main.rs:223-315 | for every stock of rotations: every answer of every run that rotates only by it is exactly the one-cell daemon's if and only if its accepted rotations name one algorithm; for encryptions, for decryptions, and for all requests but status reports |
| Exactness.DecryptTorn | cryptod/crates/acm-cryptod/src/main.rs:279-290 | two accepted rotations of different algorithms give a run that answers 422 where the one-cell daemon opens the frame or answers 401 |
| Exactness.SameAlgorithmCoherent | cryptod/crates/acm-cryptod/src/main.rs:207-209 | with accepted rotations of one algorithm, overlapping or not, the cells agree in every reachable state with a key and in every one without a rotation in flight |
| Exactness.CoherentExactlyWhenOneAlgorithm | cryptod/crates/acm-cryptod/src/main.rs:207-209 | for every stock of rotations: the cells agree whenever no rotation is in flight, in every run, if and only if its accepted rotations name one algorithm |
| Exactness.OverlapExactlyWhenDifferent | cryptod/crates/acm-cryptod/src/main.rs:207-209 | for any two acceptable rotations: some run of just these acknowledges both and leaves the cells apart if and only if their algorithms differ |
| Exactness.ReportsExactlyWhenDefault | cryptod/crates/acm-cryptod/src/main.rs:142-150 | for every stock of rotations: every status report of every run names the algorithm of the key whose id it names if and only if all accepted rotations are to AES-256-GCM |
| Authenticity.PlaintextsAuthentic | cryptod/crates/acm-cryptod/src/main.rs:278-315 | in every interleaving a plaintext handed out comes from a frame that an encryption of the run, or another listed seal, made under the same material for that plaintext, exactly unless the frame is a forgery against the AEAD |
| Progress.RunKeepsLocks | cryptod/crates/acm-cryptod/src/main.rs:207-209 | in every run each mutex is held by exactly the task whose program point says so |
| Progress.SomeTaskCanMove | cryptod/crates/acm-cryptod/src/main.rs:225-236 | while a task is unfinished some task can move |
| Progress.EveryRequestFinishes | cryptod/crates/acm-cryptod/src/main.rs:279-290 | every schedule of moves is at most as long as the work left, and ends exactly when all are answered |
| Counters.RunAccounted | cryptod/crates/acm-cryptod/src/main.rs:263-272 | in every reachable state each counter is, modulo 2^64, the number of requests counted, which never shrinks |
| Counters.CountersExact | cryptod/crates/acm-cryptod/src/main.rs:223-315 | when all is answered the counters are the numbers of ciphertexts, of plaintexts and of failed seals and opens |
| DaemonRuns.NeverStuck | cryptod/crates/acm-cryptod/src/main.rs:142-154 | no reachable state of the daemon is a deadlock |
| DaemonRuns.EveryRequestAnswered | cryptod/crates/acm-cryptod/src/main.rs:138-219 | at most eight moves per request, under every schedule; nothing can move exactly when everything is answered |
| DaemonRuns.SoloRotationsKeepCoherence | cryptod/crates/acm-cryptod/src/main.rs:207-209 | with rotations one at a time the cells agree in every state without one in flight |
| DaemonRuns.AnswersRespectRealTime | cryptod/crates/acm-cryptod/src/main.rs:138-219 | a request answered before another arrives takes effect before it |
| DaemonRuns.ActiveKeyWellFormed | cryptod/crates/acm-crypto/src/lib.rs:107-115 | every active key of every run has material of its algorithm's length |
| DaemonRuns.ActiveProviderConstructible | cryptod/crates/acm-crypto/src/aes_gcm_ring.rs:26-42 | in every run the active provider is one its constructor builds, so the unreachable branches behind it are unreachable |
| DaemonRuns.StatusCanMix | cryptod/crates/acm-cryptod/src/main.rs:142-150 | for any acceptable rotation to another algorithm than the start-up one, a run that ends with its key active and a status report that names its key id with the start-up algorithm |
| DaemonRuns.AloneIsServe | cryptod/crates/acm-cryptod/src/main.rs:138-315 | with the daemon to itself, at any time, a request's separately locked steps do exactly what the handlers of the class do |
| DaemonRuns.ReportIsOfItsTime | cryptod/crates/acm-cryptod/src/main.rs:142-154 | every status report of every run gives the time at which its task read the key, and the id of the key it read |
| DaemonRuns.QuietReport | cryptod/crates/acm-cryptod/src/main.rs:142-154 | once all is answered, a status request reports the numbers of ciphertexts, plaintexts and failures among the answers, and the time |
| Client.Client.Connect | agent/internal/ipc/client.go:114-126 | keeps an existing connection, dials otherwise, and fails without one |
| Client.Client.Write | agent/internal/ipc/client.go:147-154 | sends the whole line piece by piece or drops the connection; what becomes of the call is what the events so far and the rest determine |
| Client.Client.ReadLine | agent/internal/ipc/client.go:156-162 | ends with a whole line, or with the connection dropped, exactly as the events determine |
| Client.Client.Roundtrip | agent/internal/ipc/client.go:130-169 | connect, write and read, exactly as the events determine; the connection is kept exactly on success |
| Client.Client.Call | agent/internal/ipc/client.go:169-193 | the outcome is the one the state, the network and the other callers determine; the protocol's invariant is kept; a line it returns is the server's reply to this very call's line |
| Client.Client.Close | agent/internal/ipc/client.go:102-112 | drops the connection |
| Client.ProceedIsRun | agent/internal/ipc/client.go:130-166 | whatever becomes of a call is one run of the protocol |
| Client.CallReturns | agent/internal/ipc/client.go:130-193 | a call whose connection can be made and does not fail returns a line, however the bytes are cut up and whatever other callers and connections do |
| Matching.ApplyKeeps | agent/internal/ipc/client.go:130-166 | every event of client, server or socket keeps the invariant of the protocol |
| Matching.NothingOutstanding | agent/internal/ipc/client.go:114-166 | in every run, while the client's mutex is free nothing is outstanding on the connection it keeps |
| Matching.AnswerBelongsToCall | agent/internal/ipc/client.go:130-166 | in every run a returned line is byte for byte the reply to that call's own line, which was taken up exactly once |
| Matching.AtMostOnce | agent/internal/ipc/client.go:147-162 | in every run a call's line is taken up at most once, answered or not, whatever failed, and nothing but a beginning of its own line is |
| Completion.EveryCallReturns | agent/internal/ipc/client.go:130-166 | along every schedule in which nothing fails on its connection, a call that holds the mutex is brought forward at most so often, and has returned exactly when nothing can bring it forward |
| Completion.LockedCallReturns | agent/internal/ipc/client.go:130-166 | the same from every reachable state with a free mutex, with the bound in the lengths of payload and replies |
| Completion.CallCanComplete | cryptod/crates/acm-ipc/src/lib.rs:213-232 | a waiting call can be given every one-line reply to its own line; the whole state it leaves, with one log entry more and a connection ready for the next |
| Completion.ReadyCallCanComplete | cryptod/crates/acm-ipc/src/lib.rs:213-232 | the same for a new call from every reachable state with a free mutex and no connection or one whose server reads |
| Completion.AnyCallCanComplete | agent/internal/ipc/client.go:147-166 | from every reachable state whatever, once the client has given up what it was doing, the next call can |
| Completion.DroppedConnectionEnds | cryptod/crates/acm-ipc/src/lib.rs:213-233 | a connection the client dropped can be ended: a rest of a request on it is taken up and answered as one line, newline or not, and then the server closes |
| Lines.LinesExact | cryptod/crates/acm-ipc/src/lib.rs:213-220 | lines concatenate to the stream; one for each newline and one for an unterminated rest |
| Lines.SplitConcat | cryptod/crates/acm-ipc/src/lib.rs:235-242 | splitting concatenated terminated lines gives them back |
| Serving.Connection.ReadLine | cryptod/crates/acm-ipc/src/lib.rs:213-216 | appends exactly the first line of what is pending, however it is chunked, and leaves the rest |
| Serving.Connection.Serve | cryptod/crates/acm-ipc/src/lib.rs:204-233 | consumes the whole stream and writes exactly the replies to its lines, in order, whatever the chunks |
| Serving.Connection.WriteResponse | cryptod/crates/acm-ipc/src/lib.rs:235-243 | appends the printed response and one newline |
| Serving.OneResponsePerLine | cryptod/crates/acm-ipc/src/lib.rs:204-244 | one output line for each input line, blank, malformed and unterminated ones included; splitting the output recovers the responses |
| Serving.PrintsOneLine | cryptod/crates/acm-ipc/src/lib.rs:239-240 | no printed response contains a newline |
| Serving.BlankLineAnswered | cryptod/crates/acm-ipc/src/lib.rs:220-229 | a blank line is answered 400 |
| Serving.PipelinedRequestsAnswered | cryptod/crates/acm-ipc/src/lib.rs:204-244 | the k-th output line reads, in Go, as the handler's answer to the k-th request |
| Base64.Canonical | cryptod/crates/acm-ipc/src/lib.rs:133-148 | a string decodes to some bytes exactly when it is their encoding |
| Base64.GroupExact | cryptod/crates/acm-ipc/src/lib.rs:133-148 | the four characters of three bytes in terms of the number the bytes make |
| Base64.AlphabetExact | cryptod/crates/acm-ipc/src/lib.rs:133-148 | the value of each character is its place in the literal alphabet |
| Base64.ReadExample | cryptod/crates/acm-ipc/src/lib.rs:277-289 | `AQID` is read as the bytes 1, 2, 3 |
| Base64.PrintedExample | cryptod/crates/acm-ipc/src/lib.rs:262-274 | DE AD BE EF is printed as `3q2+7w==` |
| Hex.DecodeEncode | agent/internal/httpapi/api.go:90-94 | decoding inverts printing |
| Hex.DecodableExact | agent/internal/httpapi/api.go:90-94 | exactly the even-length strings of hexadecimal digits decode, to half their length; to which bytes is `Hex.DecodeExact` |
| Hex.DecodeExact | agent/internal/httpapi/api.go:90-94 | any string decodes to some bytes exactly when, in lower case, it is what they are printed as |
| Hex.DecodedAt | agent/internal/httpapi/api.go:90-94 | each byte is that of its two characters, of either case, by the literal list of digits |
| Json.ParsePrint | cryptod/crates/acm-ipc/src/lib.rs:239-240 | parsing a printed value gives it back, with whatever follows it |
| Json.PrintedOneLine | cryptod/crates/acm-ipc/src/lib.rs:239-240 | a printed value contains no newline, whatever its strings contain |
| Json.FourDigits | cryptod/crates/acm-ipc/src/lib.rs:218 | a `\u` escape stands for the number its four digits make, of either case, below the surrogates |
| Envelopes.RequestAgreement | agent/internal/ipc/client.go:28-50 | every request the client prints is read by the server as that request, or refused exactly when a required slice is nil |
| Envelopes.ResponseAgreement | cryptod/crates/acm-ipc/src/lib.rs:56-118 | every response of the right kind reaches the Go caller with its whole payload; the "unexpected response shape" branch is not taken |
| Envelopes.WrongKindUnexpected | agent/internal/ipc/client.go:195-277 | a success of another kind than the call's is always reported as unexpected |
| Envelopes.BlanksAround | cryptod/crates/acm-ipc/src/lib.rs:218 | any blanks before and after a message make no difference |
| Envelopes.GetExact | cryptod/crates/acm-ipc/src/lib.rs:36-50 | a key has a value exactly when it stands in one field and in no other |
| Texts.RequestText | agent/internal/ipc/client.go:28-50 | the text of every request, to the character: names, order of fields, nil slices and omitted AAD |
| Texts.ResponseText | cryptod/crates/acm-ipc/src/lib.rs:56-118 | the text of every response, to the character |
| Truncation.CutLine | agent/internal/ipc/client.go:141-147 | a proper beginning of a message line holds no value, unless only the newline is missing |
| Truncation.CutRequest | agent/internal/ipc/client.go:141-147 | a cut request is refused, or is the whole request: never another one |
| KeyEntry.SubmitExact | web-ui/src/pages/Keys.svelte:17-37 | a submitted key takes effect exactly when the form's check accepts it and the algorithm is an AES one, and its material is the bytes that print as the text typed, in lower case; every other outcome and its code exactly |
| KeyEntry.ValidMaterialMakesKey | web-ui/src/pages/Keys.svelte:17-22 | the form's check accepts exactly what decodes to a valid key for the chosen algorithm |
| KeyEntry.GeneratedKeyArrives | web-ui/src/pages/Keys.svelte:33-38 | generated key bytes reach the daemon's key handle unchanged through hexadecimal and base64 |
| Delivery.ReturnedIsOwnAnswer | agent/internal/ipc/client.go:130-277 | over every run of the protocol, what a call hands its caller is the whole payload of the response to that call's request, read as that request and executed once |
| Delivery.ExecutedAsMeant | agent/internal/ipc/client.go:147-162 | whatever became of a call, the server took up at most one line of it and read it as the call's own request or refused it |
| EndToEnd.AnswersOfRightKind | cryptod/crates/acm-cryptod/src/main.rs:140-219 | in every interleaving each request is answered with its own kind of success or an error |
| EndToEnd.CallDelivered | agent/internal/ipc/client.go:168-277 | a printed, read, concurrently served, printed and read-back call hands over the daemon's answer; never an unexpected or undecodable one |
| EndToEnd.EncryptedUnderActiveKey | cryptod/crates/acm-cryptod/src/main.rs:223-276 | a frame the client is handed is the one the key active at the read seals with its own provider, whatever rotations overlapped |
| Deployment.Halves | cryptod/crates/acm-ipc/src/lib.rs:204-233 | the joint system of client, socket, server and daemon is at once a run of the lock-step protocol and an interleaving of the daemon |
| Deployment.RunLinked | cryptod/crates/acm-ipc/src/lib.rs:213-232 | in every joint run each line taken up is one daemon task with that line's request, or unreadable and answered 400, and its reply is that task's printed answer |
| Service.ReturnedCallLinearized | agent/internal/ipc/client.go:130-277 | in every joint run a returned call hands over the whole answer of a daemon task of its own, which is the one-cell daemon's at the task's place in the order, up to an algorithm mismatch |
| Service.ExecutedAtMostOnce | agent/internal/ipc/client.go:147-162 | in every joint run a call is executed by at most one task, with the call's own request, and no task executes two calls |
| Service.CallsInRealTime | agent/internal/ipc/client.go:82-93 | in every joint run a call that has returned before another is made takes effect before it |
| Fulfilment.CallNeverStuck | agent/internal/ipc/client.go:130-166 | across client, server and daemon: while a call is under way on a connection that has not failed, some event helps it |
| Fulfilment.NewCallCanReturn | agent/internal/ipc/client.go:130-277 | from every reachable state with a free mutex and a server that reads, a new call can return the printed answer of the next task, its own, whatever other tasks are doing |
| Fulfilment.AnyCallCanReturn | agent/internal/ipc/client.go:147-277 | the same from every reachable state whatever, after the client has given up what it was doing |
| Fulfilment.OtherClientAnswered | cryptod/crates/acm-cryptod/src/main.rs:138-219 | another client's request is a task of its own that can be answered, without a trace on this client's connection and calls |
| StatParser.ParseRendered | agent/internal/sysmon/processes.go:150-181 | for every process name the parser finds the fields after it; with fewer than twenty there is no result |
| StatParser.RecoversStat | agent/internal/sysmon/processes.go:150-181 | state, times, thread count and start time are recovered exactly, for every process name |
| StatParser.NumbersExact | agent/internal/sysmon/processes.go:167-178 | numbers that do not fit read as the nearest that does, what is no number as zero |
| Jiffies.ClampExact | agent/internal/sysmon/sysmon.go:242-256 | the lower clamp never acts, and the upper one exactly when the busy difference exceeds the total one, in 64-bit arithmetic |
| Jiffies.BusyShare | agent/internal/sysmon/sysmon.go:242-256 | between readings that grew the percentage is the true busy share, even if the sums wrapped |
| Jiffies.BusyByFields | agent/internal/sysmon/sysmon.go:242-256 | by the eight fields: growth in the six busy ones alone reads 100, in idle and iowait alone 0, in both their share |
| Deltas.Telescopes | agent/internal/sysmon/sysmon.go:398-412 | reported rates times elapsed times add up to the counter's growth less what is deliberately not reported |
| Sysmon.Reader.ReadCPU | agent/internal/sysmon/sysmon.go:184-226 | the percentages reported and the readings kept, or nothing changed when there is no overall line |
| Sysmon.Reader.ReadNet | agent/internal/sysmon/sysmon.go:375-416 | the interfaces reported in order, each rate against its own last sample, and the samples kept |
| Sysmon.Reader.ReadOneProcess | agent/internal/sysmon/processes.go:91-105 | the processor share against the last sample of the same process id, and the sample kept |
| Sysmon.Reader.Snapshot | agent/internal/sysmon/sysmon.go:107-133 | what is reported or which stage failed, and exactly what the reader keeps in each case |
| Snapshots.ReadingsExact | agent/internal/sysmon/sysmon.go:184-214 | of a file split at its first line of another kind: the overall reading is the last line named `cpu`, the core readings are all others in order, by positions in the file |
| Snapshots.CoresExact | agent/internal/sysmon/sysmon.go:216-223 | each core is compared with the last reading at its own position, which its own then replaces; other positions keep theirs |
| Snapshots.InterfacesExact | agent/internal/sysmon/sysmon.go:375-412 | a successful snapshot reports those of br0, gbe0 and gbe1 that the file has, in this order, each with its own totals |
| Snapshots.BitRateExact | agent/internal/sysmon/sysmon.go:398-412 | the rate in bits of one interval, and the three cases in which it is zero |
| Snapshots.ProcessesKept | agent/internal/sysmon/processes.go:91-105 | each watched process is kept under its id with user and system time added in 64 bits; other ids keep what they had |
| Snapshots.CpuPctExact | agent/internal/sysmon/processes.go:91-105 | the share of one interval in jiffies, and the three cases in which it is zero |
| Snapshots.FirstBusyZero | agent/internal/sysmon/sysmon.go:206-226 | the first snapshot reports zero for the processor and every core |
| Accounting.ReceivedTelescopes | agent/internal/sysmon/sysmon.go:398-412 | over any run of snapshots, received rates times elapsed times are the bytes received less those of intervals of 50 ms or less and those over which the counter went back |
| Accounting.SentTelescopes | agent/internal/sysmon/sysmon.go:398-412 | the same for sent bytes |
| Accounting.LastAppearanceKept | agent/internal/sysmon/sysmon.go:412 | the sample kept for an interface is that of its last appearance, however long ago |
| Accounting.ProcessTimeTelescopes | agent/internal/sysmon/processes.go:91-105 | processor shares times elapsed seconds are the jiffies used less those of intervals too short or over which the count went back |
| Accounting.BusyTelescopes | agent/internal/sysmon/sysmon.go:107-133 | over every run of snapshots, busy percentages weighted by jiffies add up to the busy jiffies less those of intervals that end in a snapshot failing after its processor reading; equal exactly when those had none |
| Accounting.CoreTelescopes | agent/internal/sysmon/sysmon.go:216-223 | the same for every core by position |
| Accounting.FailedSnapshotLosesInterval | agent/internal/sysmon/sysmon.go:119-128 | exactly what a failed snapshot keeps: overall and core readings if it failed after them, and nothing otherwise |

## Left out

- AES rounds, GHASH arithmetic and the insides of ring and RustCrypto are not in the repository: block cipher and GHASH are uninterpreted functions, and both libraries are taken to enforce the length limits of RFC 5116.
- Frames.AcceptedFrameIsAuthentic: unforgeability of the AEAD is not assumed; the lemma says instead that any accepted frame that was not sealed is a forgery against the AEAD.
- Authenticity.PlaintextsAuthentic: the same, for the frames of a run.
- O'z DSt 1105: no provider exists; only its rejection is modelled.
- `KeyHandle::wipe`, zeroization and timing are memory hygiene; a wiped key is covered as any key whose material has the wrong length.
- Nonce uniqueness is the caller's duty and not decided by this code.
- The clock behind `uptime_s`, the version string and the wording of error messages are parameters.
- LockStep: the protocol's theorems range over all interleavings, so client, server and socket are one step system on values; `Client` then has the client's methods in their own form. Bytes are characters. A request counts as executed from when the server takes up its line.
- Completion.EveryCallReturns: the time a step takes is not modelled; a deadline that passes is one of the failures it excludes.
- Fulfilment.AnyCallCanReturn: says that a call can return, and `Completion.EveryCallReturns` that it does when its server answers; a server whose daemon is starved by its scheduler is not excluded.
- Client.Client.Call: the mutex is taken when free; waiting for it, and other callers, are events of the step system. The deadline is the end of the script of events.
- Serving.Connection.Serve: write errors and input that is not UTF-8 end a connection early; only the stream up to there is modelled.
- Envelopes.RequestAgreement: `set_policy` is not sent by the client, and its array-valued parameter is not part of the JSON subset; the daemon's handling of it is modelled.
- Json.ParsePrint: arrays, fractions, negative numbers, surrogate escapes, blanks between tokens, and Go's escaping of `<`, `>` and `&` do not occur in printed envelopes and are not part of this subset. An unknown, missing or repeated field is treated as the derived readers treat it only where a message of the other side can have it.
- StatParser.ParseRendered: reading the file, and the process id to look at, are inputs.
- Sysmon.Reader.Snapshot: times and rates are reals instead of floats; uptime, load, memory figures, file systems, sensors, packet and error counts, interface state, and processes that are not running or have no readable `stat` line are not part of the report; file contents are inputs. `prevAt` is written and never read.
- Accounting.BusyTelescopes: counters that go back are left to `Jiffies.ClampExact`; the totals are stated for readings that do not.
- `run_bench`, tracing, command line, runtime and socket set-up, the accept loop, HTTP routing, Prometheus collectors, `acm-cli`, `acm-controller`, `acm-dpdk`, scripts and deployment files: plumbing or placeholders.
- The web UI beyond the key form's check and the key generator: presentation.
