# whisp: session handshake, wire formats, stores and secure channel

A Dafny model of the core of whisp, a peer-to-peer chat program, with proofs of what its session
handshake guarantees over whole runs of any number of peers.

Two peers open a session by passing a `session` record back and forth in three frames. The origin
generates a key pair and sends an offer; the responder stores the session, generates its own key
pair and answers; the origin draws a shared secret, sends it encrypted under the responder's public
key and keeps it in the clear; the responder decrypts it. Each receipt destroys the stored session
object and builds a new one from the frame, carrying over the key pair only. Frames are printed with
`sprintf` and parsed with `strtok_r`; peers become known through multicast pulses; messages of a
connected session are enciphered with DES under the shared secret.

## Layout

The model has two halves that meet in the middle.

- Values: `cells`, `ctext` (tokens, `%d`, `atoi`), `records`, `generators`, `frames` (both wire
  formats), `handshake` (one peer's steps as functions on values), `network` (any number of peers, the
  frames in flight, runs).
- Theorems over runs: `ledger` (the inductive invariant: a ledger that explains every stored session
  and every frame in flight), `invariant` (every step keeps it), `runs`, `agreement`, `progress`,
  `bytes` (runs over printed frames), `misrouting` (a run in which a message meets the wrong session),
  `toy_rsa` (the laws assumed of encryption can be met).
- Code: `strtok`, `peerstore`, `sessions`, `serialization`, `whisp`, `des`, `channel` are classes and
  methods over mutable objects, arrays and buffers. Each method is proved equal to the function of the
  value half that it implements; `Process.Whisp.PassiveListenerCallback`, for one, turns the view of
  the process into what `Handshake.ReceiveText` says. `base64` is RFC 4648, section 4.

A cell of a record is `Unset` (straight from `malloc`), `Null` or `Is(value)`; reading or freeing an
unset cell, reading a freed one, a failed JNXCHECK, `atoi(NULL)` and printing past a buffer are the
undefined results `Undefined`, `Fault`, `Crashed`. No step of a run gets there but one kind: the receipt
of a multicast message that the program cannot handle. Anyone can send such messages, so receiving any
message is a possible step; `Runs.NeverBroken` says that such a step is undefined exactly for those
messages, `Handshake.HearingDefinedIff` which messages they are, and `Runs.CleanRunsNeverBreak` that the
messages whisp itself sends are never among them.

## Assumptions

- A peer does not start a session with itself, both ends of a new session run and know each other and
  themselves (the program's own README.md:29 asks for this of its users), and a random session id is
  a new one:
  `Network.CanStart`. `Runs.OfferDefinedIff` and `Runs.SelfSessionBreaks` show what happens otherwise.
- Guids and session ids are outputs of the generators; each peer has one guid. The theorems over runs
  take all of these, and all secrets, as if the buffers they are made in were large enough; the
  members of `Generators` say when the declared ones are.
- Each frame is delivered at most once, in any order, or lost. Callbacks of one peer do not overlap.
- Encryption obeys `Records.Lawful`: decryption undoes encryption, and printed keys and ciphertexts are
  non-empty, free of ':' and at most 1024 characters.
- One DES block operation maps 8 bytes to 8 bytes, any way it likes.

## Model

| member | source | states |
|---|---|---|
| `Agreement.SecretAgreement` | src/net/authentication.c:87-135 | in every state of every run with any number of peers and interleaved sessions, two ends that hold a session id as CONNECTED or CLOSING hold the same plaintext secret, and it is one the session's origin drew on receiving that session's answer |
| `Agreement.KeyRetention` | src/net/passive.c:61-70 | across all replacements of session objects, the origin's stored session has its own public key as local key, the responder's as foreign key, and each still has the very key pair that this end generated for this session in an earlier step, the fear of BUGS.md:1 |
| `Agreement.LastNeverDangles` | src/net/passive.c:64-73 | in every reachable state `last_session` is NULL or the very object stored under its id, connected or closed since, although receipts destroy stored objects |
| `Agreement.PhaseInvariant` | src/net/authentication.c:59-136 | every session id has one origin and one responder, no third peer stores it, and it stands in one of four ways: the states of the two ends fix which frame of it, at most one, may be in flight, who it goes to and what it announces; without loss, nothing in flight means connected at both ends |
| `Agreement.OneSessionPerForeignPeer` | src/app/userinput.c:72-86 | in no state of a run does a peer store two sessions it originated with the same foreign peer |
| `Agreement.OneStartPerForeignPeer` | src/app/userinput.c:72-86 | of all the starts of one peer for one foreign peer in a run at most one goes ahead: after it, every later one stops at the checks |
| `Agreement.SettledForGood` | src/data/sessioncontrol.c:234-240 | from the step at which a session is CONNECTED at a peer on, nothing about it ever changes there except its state, and that only to CLOSING |
| `Agreement.ClosingAbsorbs` | src/data/sessioncontrol.c:234-240 | once CLOSING at a peer, a session stays as it is there for the rest of the run, whatever is delivered, started or heard |
| `Agreement.StepFreezes` | src/net/passive.c:46-73 | no single step of any peer touches a connected or closing session, except that SIGINT closes it |
| `Agreement.KeyWritten` | src/net/authentication.c:63-86 | an end's key pair for a session is generated in exactly one kind of step, its start or the receipt of its offer, and no other step changes it |
| `Agreement.SecretWritten` | src/net/authentication.c:87-113 | a session's secret is drawn in exactly one kind of step, the origin's receipt of the answer, and no other step changes it |
| `Agreement.SecretDrawnOnce` | src/net/authentication.c:87-101 | two steps of a run that draw a secret for one session are the same step |
| `Agreement.KeyDrawnOnce` | src/net/authentication.c:63-86 | two steps of a run that generate a key pair for one session at one end are the same step |
| `Agreement.EndsKept` | src/net/passive.c:46-73 | a session keeps its origin and its responder for the rest of the run |
| `Progress.ThreeFramesAtMost` | src/net/authentication.c:63-114 | over a whole run at most three frames of a session are ever sent, and exactly three once an end of it has connected |
| `Progress.SentByPhase` | src/net/authentication.c:63-114 | the number of frames sent for a session is fixed by its phase: one, two or three |
| `Progress.StepWorks` | src/net/authentication.c:59-137 | every delivery lowers the work left in the network by exactly one, a start adds three, losing a frame never adds, nothing else changes it |
| `Progress.DeliveriesBounded` | src/net/authentication.c:59-137 | deliveries done and still to come are at most three per session started, and exactly three when nothing is lost |
| `Progress.CanDrain` | src/net/passive.c:34-76 | from any state of any run, deliveries alone can empty the network, in as many steps as there is work left |
| `Progress.QuiescentMeansConnected` | src/net/authentication.c:115-135 | with no loss and nothing in flight, every session anywhere is CONNECTED or CLOSING at both its ends with one secret |
| `Runs.RunExplained` | src/net/authentication.c:46-138 | the ledger kept along a run explains every one of its states: all stored sessions, all frames in flight, no two frames of one session, no two sessions of one origin with one foreign peer |
| `Runs.NeverBroken` | src/net/passive.c:46-73 | in every reachable state a step that can come next is undefined if and only if it is the receipt of a multicast message the program cannot handle: no unset field of a session is read, no peer pointer is missing, the "Error getting old session" branch is not taken, and every frame in flight can be delivered |
| `Runs.CleanRunsNeverBreak` | src/net/discovery.c:42-74 | if all peerstores began with full records and only full pulses, or messages properly refused, have been received, then no step can go wrong but the receipt of a message of another kind |
| `Handshake.HearingDefinedIff` | src/net/discovery.c:57-71 | handling a multicast message is defined if and only if it ends on a key and the fields then freed have been set, or it gives a guid, a command and a port and, where that guid is stored already, a secure port and a peerstring too and the stored record had them all |
| `Handshake.PulseWithoutGuidBreaks` | src/net/discovery.c:57-64 | the message "COMMAND:PULSE:" is parsed as S_OKAY and makes the program read the guid that was never set |
| `Handshake.CleanHeard` | src/data/peerstore.c:118-132 | with full records only, a full pulse is handled and leaves full records only |
| `Runs.OfferDefinedIff` | src/data/serialization.c:149-197 | the first frame of a session is handled without undefined behaviour if and only if the receiver is not the sender and knows both ends |
| `Runs.SelfSessionBreaks` | src/app/userinput.c:65-89 | a peer that asks for a session with its own guid passes every check and sends itself a frame whose handling is undefined |
| `Invariant.StepExplained` | src/net/authentication.c:46-138 | each of the five kinds of steps is defined, but for messages the program cannot handle, and leaves a state that the ledger, updated for that step, explains |
| `Invariant.NothingLostKept` | src/net/authentication.c:46-138 | as long as no frame is lost every unfinished session has its frame in flight |
| `Ledger.OfferReceived` | src/net/authentication.c:77-86 | the responder's receipt of an offer stores the re-oriented session with its own fresh key pair and sends back exactly the answer, "(null)" secret included |
| `Ledger.AnswerReceived` | src/net/passive.c:52-73 | the origin's receipt of the answer replaces the stored session, keeps its key pair, draws the secret, sends it encrypted with its length, keeps the plain one, and ends CONNECTED and resolved |
| `Ledger.SecretReceived` | src/net/authentication.c:124-131 | the responder's receipt of the encrypted secret replaces the stored session, keeps its key pair, ends with the plaintext secret the origin drew, and resolves |
| `Ledger.OfferMade` | src/app/userinput.c:72-82 | a start that passes the checks stores a session waiting for the answer and sends exactly one frame, the offer |
| `Bytes.TextRunsAreRuns` | src/data/serialization.c:141-288 | every run in which frames are printed texts, parsed on receipt, is state by state the printed image of a run over records, so all theorems over runs hold for it |
| `Bytes.RunsAreTextRuns` | src/data/serialization.c:141-288 | every run over records, printed, is a run over texts |
| `Bytes.FramesFit` | src/data/serialization.c:277-288 | in every reachable state every frame in flight has non-empty fields free of ':' and NUL and prints to fewer than 6000 characters |
| `Bytes.HopReorients` | src/data/serialization.c:141-288 | a session printed by A and parsed by B has local B and foreign A, NULL texts become "(null)", all other transmitted fields arrive; the length field arrives if and only if it is at most INT_MAX or within 2^31 of the top of `size_t` |
| `Bytes.TwoHopsRestore` | src/data/serialization.c:141-288 | a second hop back restores A's session but for the key pair and for NULL texts, which have become "(null)" |
| `Frames.SessionRoundTrip` | src/data/serialization.c:141-288 | parsing a printed session frame at any peer gives exactly its contents, each guid filed by whether it is the receiver's own |
| `Frames.SessionParseMeaning` | src/data/serialization.c:141-275 | for any text: each field, numbers included, is what the value after the last use of its keyword as a key says; the local peer is the own guid if either side names it, the foreign peer the last known other guid named on either side; the text is refused if and only if it ends on a key, and then without undefined behaviour if and only if the key is a peer or the secret, or the id after a secret, or the origin after a secret and an id |
| `Frames.KeyWithoutValue` | src/data/serialization.c:149-270 | of the nine frames that are nothing but a key, three are refused properly; for the others the parser frees an unset field, reads a freed one or calls `atoi(NULL)` |
| `Frames.StateWithoutValue` | src/data/serialization.c:207-210 | the text "CURRENT_STATE:" makes the parser call `atoi(NULL)` |
| `Frames.PulseParseMeaning` | src/data/serialization.c:64-140 | for any text with a token: each field is the value after the last use of its keyword as a key; the text is refused if and only if its last token is taken as a key, and then with S_MALFORMED if and only if the fields freed with that key have been set, with an undefined `free` otherwise |
| `Frames.PulseWithoutGuid` | src/data/serialization.c:75-139 | "COMMAND:PULSE:" is S_OKAY with only the command set |
| `Frames.CommandWithoutValue` | src/data/serialization.c:86-93 | "COMMAND:" makes the parser free the guid that was never set |
| `Frames.PulseRoundTrip` | src/data/serialization.c:51-140 | what `serialize_data` prints parses as S_OKAY with the same five values, also where a value spells a keyword |
| `Frames.ReadFrame` | src/data/serialization.c:64-140 | the key/value loop reads back exactly the pairs printed and is left with no stray key |
| `Frames.StrayIsLastKey` | src/data/serialization.c:75-138 | the loop is left with a key without a value if and only if the last token stands where a key is expected and spells one |
| `Frames.LastOccurrenceWins` | src/data/serialization.c:75-138 | the value kept for a key is the one after the last place where the key is taken as a key, not as a value |
| `Frames.SessionFrameLength` | src/data/serialization.c:277-288 | a session frame is 146 characters plus the lengths of its nine values |
| `Frames.SessionFrameText` | src/data/serialization.c:277-288 | the text of a session frame, key by key and value by value |
| `Frames.PulseFrameText` | src/data/serialization.c:51-63 | the text of a pulse frame, key by key and value by value |
| `Frames.StateTexts` | src/data/sessioncontrol.h:22-30 | the seven states stand as "0" to "6" in a frame, and every number sent as a state is read as the same number |
| `Frames.PulseFrameLength` | src/data/serialization.c:51-63 | a pulse frame is 43 characters plus the lengths of its five values |
| `CText.JoinedRoundTrip` | src/data/serialization.c:55-70 | values printed between colons are tokenised back if and only if all of them are non-empty and colon-free |
| `CText.AtoiOfPrintInt` | src/data/serialization.c:207-210 | `atoi` reads back what `%d` prints |
| `CText.DecimalDigits` | src/data/serialization.c:277-288 | a number is printed with each digit in its place and without leading zeros |
| `CText.AtoiMeaning` | src/data/serialization.c:207-210 | `atoi` of any blanks, a sign or none, leading zeros, a number and any rest is that number with that sign |
| `CText.AtoiOfNoNumber` | src/data/serialization.c:207-210 | `atoi` of a text without a number in that place is 0 |
| `CText.SizeConversions` | src/data/serialization.c:257-284 | `%d` of a `size_t` is the 32-bit int congruent to it, an int assigned to a `size_t` the 64-bit value congruent to it |
| `CText.SizeRoundTrip` | src/data/serialization.c:257-284 | a 64-bit `size_t` printed with `%d` and read with `atoi` survives if and only if it is at most INT_MAX or at least 2^64 - 2^31 |
| `Generators.SecretShape` | src/data/sessioncontrol.c:29-43 | every secret has 14 to 26 characters and can go on the wire |
| `Generators.SecretFitsIff` | src/data/sessioncontrol.c:38-40 | a secret and its NUL fit the 24 characters declared if and only if its three names have at most 21 letters |
| `Generators.SecretOverruns` | src/data/sessioncontrol.c:38-40 | "Ipswitch-Ipswitch-Ipswitch" takes 27 |
| `Generators.SecretInjective` | src/data/sessioncontrol.c:29-43 | two draws that make the same secret have all three numbers in common |
| `Generators.SecretParts` | src/data/sessioncontrol.c:35-40 | split at its dashes, a secret is the three names of its draws in the order drawn |
| `Generators.SecretExamples` | src/data/sessioncontrol.c:31-40 | the draws 0, 1, 2 make "Alpha-Beta-Charlie"; three more examples give the other names |
| `Generators.IdTextJoins` | src/data/sessioncontrol.c:44-58 | an id prints its bytes in their order, each in decimal |
| `Generators.GeneratedShape` | src/app/app.c:64-78 | every guid and session id is 16 to 48 digits |
| `Generators.IdTextLength` | src/data/sessioncontrol.c:48-53 | an id has one character for each byte, one more for each byte from 10 on, and one more for each from 100 on |
| `Generators.IdFitsIff` | src/data/sessioncontrol.c:48-53 | an id or a guid and its NUL fit the 24 characters declared if and only if those extra characters are at most seven |
| `Generators.IdOverruns` | src/app/app.c:68-74 | sixteen bytes of 255 take 49 |
| `Generators.GenerateId` | src/data/sessioncontrol.c:44-57 | in a buffer of any size, 24 included, the appending loop leaves the sixteen bytes in decimal with a NUL if and only if they fit, and otherwise comes to a `strcat` that overruns the buffer |
| `Strtok.SkipDelimiters` | src/data/serialization.c:70-70 | finds the first character that is no delimiter |
| `Strtok.SkipToken` | src/data/serialization.c:70-70 | finds the end of the token |
| `Strtok.ScansFindToken` | src/data/serialization.c:70-70 | the two scans find the first token and leave the rest of the token list |
| `Strtok.CutFindsToken` | src/data/serialization.c:70-70 | with a NUL written over the delimiter, the token reads as a C string and the tokens behind it are those still to come |
| `Strtok.StrtokR` | src/data/serialization.c:137-137 | one call returns the head of the token list as a C string, leaves its tail for the next call, and writes nothing outside the part it consumes |
| `Serialization.SerializeData` | src/data/serialization.c:51-63 | the buffer copied out is the pulse frame, without its NUL |
| `Serialization.RandomInRange` | src/app/app.c:79-83 | the number drawn lies between the two bounds, both included |
| `Serialization.RandomRemainder` | src/app/app.c:79-83 | the number drawn is as far from the lower bound as what `rand` returned is from a multiple of the size of the range |
| `Serialization.SentPulse` | src/net/discovery.c:99-100 | with a generated guid and two ports below 65536 the pulse sent takes at most 115 of the 1024 characters, and whoever hears it reads exactly these five values, a full pulse |
| `Serialization.MulticastPulse` | src/net/discovery.c:96-104 | whatever `rand` returned for the two ports, the pulse printed fits and reads as a full pulse with the ports of src/app/app.c:84-97 |
| `Serialization.SerializeSessionData` | src/data/serialization.c:277-288 | the buffer holds the session frame and its NUL, NULL fields as "(null)" |
| `Serialization.DeserializeData` | src/data/serialization.c:64-140 | the loop over `strtok_r` terminates and its status and record are those of `Frames.ParsePulse` on the text, undefined frees included, for any text |
| `Serialization.SessionLoop` | src/data/serialization.c:148-273 | from any point of the message the loop fills the session as the greedy reading of the remaining tokens does, or stops on the key it is left with |
| `Serialization.DeserializeSessionData` | src/data/serialization.c:141-275 | status and session are those of `Frames.ParseSession` on the text, and the peer pointers lead to records of the peerstore |
| `Serialization.PlacePeer` | src/data/serialization.c:156-173 | a guid found in the peerstore becomes the local peer if it is the own one, the foreign peer otherwise; an unknown guid leaves the session alone |
| `Peers.Peerstore.CheckPeer` | src/data/peerstore.c:47-73 | the `strcmp` scan finds a record if and only if the guid is stored, and the record filed under it |
| `Peers.Peerstore.GetCount` | src/data/peerstore.c:34-46 | the count is the number of distinct guids stored |
| `Peers.Peerstore.AddPeer` | src/data/peerstore.c:107-117 | the list gains exactly this record; under a new guid the store gains it and nothing else changes, under a stored guid there is from then on one record more than there are guids |
| `Peers.Peerstore.UpdatePeer` | src/data/peerstore.c:118-132 | the stored record takes over command, ports and peerstring, and keeps its identity, guid and ip |
| `Peers.Peerstore.AddOrUpdate` | src/net/discovery.c:63-71 | the store absorbs a complete pulse, or reports that it would have copied or freed an unset field, exactly when it would; no record object is ever swapped for another |
| `Peers.HistoryKept` | src/net/discovery.c:57-71 | after any sequence of messages the store holds exactly the guids heard in accepted pulses, each with the first one's ip and the last one's command, ports and peerstring |
| `Peers.CountIsDistinctGuids` | src/net/discovery.c:57-71 | the number of records is the number of distinct guids heard |
| `Peers.MessagesAsHeard` | src/net/discovery.c:42-74 | handling raw messages one after the other, where that is defined, amounts to absorbing the pulses accepted from them |
| `Peers.MessagesDefinedIff` | src/net/discovery.c:42-74 | handling a sequence of messages from an empty store is defined if and only if each is refused properly or gives a guid, a command and a port, and every peer heard from more than once has only sent full pulses |
| `Sessions.SessionStore.GetSession` | src/data/sessioncontrol.c:78-102 | the scan finds a session if and only if a content-keyed map has the id, and that map's object |
| `Sessions.SessionStore.CheckExistsById` | src/data/sessioncontrol.c:179-201 | membership in that map |
| `Sessions.SessionStore.CheckExists` | src/data/sessioncontrol.c:156-178 | whether a stored session has these two peer pointers |
| `Sessions.SessionStore.Count` | src/data/sessioncontrol.c:202-213 | the size of that map |
| `Sessions.SessionStore.Add` | src/data/sessioncontrol.c:124-133 | the list gains exactly this session and the count goes up by one as JNXCHECK demands; under a new id the map gains it and no other session changes, under a stored id there is from then on one session more than there are ids |
| `Sessions.SessionStore.Destroy` | src/data/sessioncontrol.c:134-138 | the map loses exactly this session |
| `Sessions.SessionStore.GetConnectedSessions` | src/data/sessioncontrol.c:214-233 | NULL if and only if nothing is stored; otherwise exactly the stored sessions that are CONNECTED, each once |
| `Sessions.ShutdownSession` | src/data/sessioncontrol.c:234-240 | the session ends CLOSING |
| `Sessions.RemovedForGood` | src/data/sessioncontrol.c:134-138 | a session taken out of the entry list is not in it a second time |
| `Process.Whisp.UpdateForeignSession` | src/net/authentication.c:33-45 | sends the printed session to the foreign peer, and is undefined exactly when a field it prints is unset, a peer is missing or the frame overflows |
| `Process.Whisp.AuthenticationSessionUpdate` | src/net/authentication.c:46-138 | the recursive in-place state machine does to the session, to `last_session` and to the network what `Handshake.Advance` says, for every state, and nothing else |
| `Handshake.AdvanceUndefinedIff` | src/net/authentication.c:46-138 | for any session in any state, exactly which unset fields, or which length of the secret, make a call undefined |
| `Handshake.AdvanceKeys` | src/net/authentication.c:59-138 | the ends, the id and the origin never change, the state moves one place on or stays, a key pair is generated with the first two moves only, and its public half goes to the local side with the first, to the foreign side with the second |
| `Handshake.AdvanceSecret` | src/net/authentication.c:87-135 | the session is resolved if and only if it is HANDSHAKING or CONNECTED; the secret and its length change in these two cases only, and how is given for the origin and for anyone else |
| `Handshake.AdvanceSends` | src/net/authentication.c:59-138 | one frame is sent with each move, the first one by the origin only, none otherwise; it goes to the foreign peer and carries the session as it is then, with the secret encrypted |
| `Process.Whisp.SealSecret` | src/net/authentication.c:87-114 | the HANDSHAKING case sends the session with the encrypted secret and then re-enters as CONNECTED with the plain one |
| `Process.Whisp.ConnectSession` | src/net/authentication.c:115-135 | the CONNECTED case resolves the session, decrypting first at the responder |
| `Process.Whisp.PutSession` | src/net/passive.c:46-72 | an incoming session is stored under its id; a session already there is destroyed after its key pair has moved over, and `last_session` dangles if it pointed there |
| `Process.Whisp.PassiveListenerCallback` | src/net/passive.c:34-76 | on any NUL-terminated text, sessions, `last_session` and sent frames become what `Handshake.ReceiveText` says |
| `Handshake.ReceiptMeaning` | src/net/passive.c:46-73 | for any session received by any peer: what is stored, sent and resolved, that only the key pair of a session already stored lives on, that `last_session` dangles if it pointed there until the new one is resolved, and exactly when the receipt is undefined |
| `Handshake.TextReceived` | src/net/passive.c:34-76 | any text does nothing (the empty one, or one refused properly), is undefined (one that ends on another key, or gives no id) or is the receipt of a session read from its tokens |
| `Process.Whisp.PointersAreGuids` | src/data/sessioncontrol.c:156-178 | comparing peer pointers finds a session if and only if comparing guids does |
| `Process.Whisp.HasSession` | src/data/sessioncontrol.c:156-178 | `session_check_exists` decides whether a session with the same two guids is stored |
| `Process.Whisp.CreateSession` | src/data/sessioncontrol.c:103-123 | stores a new session waiting to start, under the id drawn, with no other session touched |
| `Process.Whisp.UserStartSession` | src/app/userinput.c:65-89 | creates a session under the id drawn and sends exactly one frame, the printed offer, to the foreign peer if both peers are known and no stored session has these two ends, whatever else is stored; otherwise nothing happens; its JNXCHECKs hold |
| `Handshake.StartMeaning` | src/app/userinput.c:65-89 | the start goes ahead if and only if the peer knows itself and the foreign one and stores no session with these two ends; then the session stored and the frame sent are given field by field |
| `Process.Whisp.Interrupt` | src/main/main.c:36-52 | each stored session that was CONNECTED is CLOSING, every other one is as before, none comes or goes, and nothing else changes |
| `Handshake.ShutdownCloses` | src/data/sessioncontrol.c:234-240 | SIGINT closes exactly the connected sessions of a peer and changes nothing else of it |
| `Network.InterruptFires` | src/main/main.c:36-52 | SIGINT can come in every state of the network, and closes exactly the connected sessions of its peer |
| `Network.HearFires` | src/net/discovery.c:42-74 | a multicast message can come in every state and touches nothing but its receiver's peerstore |
| `Network.StepConserves` | src/net/authentication.c:33-45 | every step, of any kind, moves at most one peer and conserves frames: those in flight before and those sent are in flight after, but for the one that arrives or is lost; only starts and deliveries send |
| `Agreement.InterruptCloses` | src/main/main.c:36-52 | after SIGINT at its peer, what was connected is CLOSING, and otherwise as it was, in every later state of the run |
| `Process.Whisp.MulticastSerializationProcess` | src/net/discovery.c:42-74 | the outcome is what `Handshake.HearPulse` says: undefined, or the new peerstore with sessions and `last_session` untouched and all peer pointers of sessions valid; no record object is replaced |
| `Handshake.PeersUntouched` | src/net/passive.c:34-76 | the receipt of a session neither depends on what the peerstore says of its peers, once parsed, nor changes it |
| `Des.Cfb64` | src/crytpo/des.c:38-71 | the in-place feedback register with its counter computes 64-bit CFB in both directions |
| `Des.RegisterTurns` | src/crytpo/des.c:38-39 | writing each ciphertext byte into the register at the counter keeps the register what section 6.3 of SP 800-38A asks for |
| `Des.CfbPrefix` | src/crytpo/des.c:70-71 | a prefix of plaintext and ciphertext is enciphered by itself |
| `Des.OnePlaintext` | src/crytpo/des.c:70-71 | a ciphertext has one plaintext under a key and initial vector |
| `Des.OneCiphertext` | src/crytpo/des.c:38-39 | a plaintext has one ciphertext under a key and initial vector |
| `Des.DesEncrypt` | src/crytpo/des.c:24-50 | returns the base64 of the CFB ciphertext under the parity-adjusted first 8 bytes of the secret, which serve as key and initial vector, byte by byte what `Des.EncryptedBytes` says |
| `Des.EncryptedBytes` | src/crytpo/des.c:24-50 | what goes out is base64 of as many bytes as the text has, each XORed with a byte of an enciphered block: the key is the first 8 bytes of the secret in odd parity, the first block enciphered is that key, each later one the 8 bytes last sent |
| `Des.DesDecrypt` | src/crytpo/des.c:51-74 | deciphers as many bytes as the base64 text is long, running past the decoded bytes, byte by byte what `Des.DecryptedBytes` says |
| `Des.DecryptedBytes` | src/crytpo/des.c:51-74 | as many bytes are deciphered as the base64 text is long, the decoded ones and then those in memory behind them, each XORed with a byte of an enciphered block under the key of odd parity, the last 8 bytes read being the next block; undefined if and only if the text does not decode |
| `Des.TextFound` | src/net/secure_channel.c:38-43 | what is printed of a buffer is what stands before its first NUL, if it has one |
| `Des.MessageRoundTrip` | src/crytpo/des.c:24-74 | any text sent with its NUL is read back exactly, whatever lies in memory beyond the decoded bytes |
| `Des.ReadBackExactly` | src/crytpo/des.c:24-74 | under one and the same block cipher, a text is read back with another secret if and only if the masks of the two key blocks agree on its ciphertext from the first byte to the NUL |
| `Des.ShortTextReadBackIff` | src/crytpo/des.c:29-39 | a text of up to seven bytes is read back with another secret if and only if the two key blocks, each enciphered with itself, agree for the length of the text and its NUL, whatever the text says |
| `Des.Misread` | src/crytpo/des.c:29-39 | every text long enough to reach a byte where they differ is misread |
| `Des.ReadBackIff` | src/crytpo/des.c:31-36 | all texts are read back under all block ciphers if and only if the first 8 bytes of the two secrets agree |
| `Base64.RoundTrip` | src/crytpo/des.c:43-58 | decoding undoes encoding |
| `Base64.EncodeMeaning` | src/crytpo/des.c:43-46 | each four characters spell the next three bytes, six bits at a time from the top, with missing bytes as 0 and '=' for characters without a bit |
| `Base64.LetterOf` | src/crytpo/des.c:43-46 | the 64 letters are those of table 1 of RFC 4648 |
| `SecureChannel.SecureChannelSend` | src/net/secure_channel.c:50-68 | nothing is sent on a session that is not CONNECTED; on a CONNECTED one the enciphered message goes to the session's foreign peer |
| `SecureChannel.SpokenIff` | src/net/secure_channel.c:50-68 | something is sent if and only if the session is CONNECTED and its foreign peer and secret are set, refused if and only if it is in another state; it goes to the foreign peer, enciphered under the session's secret |
| `SecureChannel.InteractOnce` | src/app/userinput.c:40-57 | a line typed goes out with exactly one NUL behind it if the session is still CONNECTED, and not at all otherwise |
| `SecureChannel.SecureListenerCallback` | src/net/secure_channel.c:31-49 | what is shown is the incoming text deciphered with the secret of `last_session`, nothing unless that is CONNECTED |
| `SecureChannel.ShownIff` | src/net/secure_channel.c:31-49 | for any peer and any text: exactly when something is shown, which bytes it is, and that nothing is shown if and only if `last_session` is NULL or not CONNECTED |
| `SecureChannel.NothingSentOnceClosing` | src/net/secure_channel.c:50-55 | from the step at which a session is CLOSING on, nothing more is sent on it in the run |
| `SecureChannel.QuietAfterInterrupt` | src/main/main.c:36-52 | after SIGINT nothing more is sent on any session that was connected there, and nothing is shown while one of them is the last resolved |
| `SecureChannel.SecretKept` | src/net/authentication.c:87-135 | a session connected at some step has, at every later one, the generated secret it connected with, long enough for a DES key |
| `SecureChannel.MessageDelivered` | src/net/secure_channel.c:31-68 | in any run, a text sent on a CONNECTED session is shown as typed at the other end, however much later it arrives there, if that peer's last resolved session is this one and CONNECTED |
| `SecureChannel.MessageShownIff` | src/net/secure_channel.c:29-44 | for any state of the receiver in any run and one cipher: a text sent on a CONNECTED session is shown as typed if and only if the receiver has resolved a session that is still CONNECTED and whose masks agree with the sender's on this text; with none resolved, or the last one CLOSING, nothing is shown |
| `SecureChannel.ShownUnderEveryCipherIff` | src/net/secure_channel.c:29-44 | where another connected session was resolved last, all texts are shown as typed under all block ciphers if and only if the key bytes of the two secrets agree |
| `Misrouting.Opened` | src/net/authentication.c:59-136 | from any reachable quiet state, a start that passes the checks and three deliveries connect both ends, resolve the session at both, and leave the network quiet |
| `Misrouting.TwoSessions` | src/net/secure_channel.c:70-73 | a run of eight steps: A opens a session with B, then C opens one with B; A and B hold theirs connected, and B's `last_session` is C's |
| `Misrouting.CrossedShownIff` | src/net/secure_channel.c:29-44 | for any guids, ids, draws, encryption and block cipher that state is reached, and there a text of A is shown by B as typed if and only if the masks of the two secrets agree on it |
| `Misrouting.CrossedMisread` | src/net/secure_channel.c:29-44 | if the block cipher sends the two key blocks to different first bytes, no text of A is shown as typed there |
| `Misrouting.TextsGoWrong` | src/net/secure_channel.c:29-44 | for every text, a concrete run of three peers with the secrets "Alpha-Alpha-Alpha" and "Beta-Alpha-Alpha", under an example encryption and an example block cipher that meet all the laws asked of them, at whose end B shows something else than A typed |
| `Misrouting.CrossOver` | src/net/authentication.c:115-135 | two peers that open sessions with each other at once, eight steps, both end with both sessions connected and each listening with the session the other one started |
| `Misrouting.BothCrossedShownIff` | src/net/secure_channel.c:29-44 | in that state, for any draws, encryption and block cipher, what either peer sends on the session the other one started is shown as typed if and only if the masks of the two secrets agree on it |
| `Misrouting.TextsGoWrongBothWays` | src/net/secure_channel.c:29-44 | for every text, such a run of two peers under the same example ciphers, at whose end neither peer is shown that text as typed on those sessions |

## Where the code does not do what it seems to promise

- The source's ASCII plan calls `local_public_key` the origin's key and `foriegn_public_key` the
  responder's (src/net/authentication.c:57-58). The code keeps that: the peers change sides on every
  hop, the keys never do. `Agreement.KeyRetention` states it that way.
- A message goes to whichever session the receiver resolved last (src/net/secure_channel.c:29-38), not
  to the session it was sent on. `Misrouting.TextsGoWrong` and, with two peers only,
  `Misrouting.TextsGoWrongBothWays` are runs where this garbles every message;
  `SecureChannel.MessageShownIff` says exactly when a message is shown as typed.
- `user_start_session` does not reject the peer's own guid: `Runs.SelfSessionBreaks`.
- A pulse that lacks its guid, command or port is S_OKAY and its missing fields are read
  (src/net/discovery.c:57-64): `Handshake.PulseWithoutGuidBreaks`. A second pulse of a peer frees what the
  first one may not have set (src/data/peerstore.c:121-130): `Peers.MessagesDefinedIff` says when.
- On a message that ends on a key the parsers free fields that may not be set
  (src/data/serialization.c:86-131, 211-231), read a field of a session already freed
  (src/data/serialization.c:235-269) or pass NULL to `atoi` (src/data/serialization.c:208):
  `Frames.CommandWithoutValue`, `Frames.KeyWithoutValue` and `Frames.StateWithoutValue` give such
  messages, `Frames.PulseParseMeaning` and `Frames.SessionParseMeaning` all of them.
- The id buffers of 24 characters (src/data/sessioncontrol.c:48, src/app/app.c:68) and the secret buffer
  of 24 (src/data/sessioncontrol.c:38) are too small: `Generators.IdOverruns` and
  `Generators.SecretOverruns` give inputs that overrun them, `Generators.IdFitsIff` and
  `Generators.SecretFitsIff` say exactly which do not.

## Left out

- Sockets, multicast, threads, signal delivery, IPC, terminal output, logging and configuration
  reading: sends add to a bag of frames, callbacks are atomic steps, randomness is a parameter.
- Frames are routed by the foreign peer's guid, not by its ip and port; the DEBUG switch to localhost.
- RSA, PEM and OpenSSL: abstract functions with the laws of `Records.Lawful`. The length of the
  encrypted secret is that of its base64 text; the uninitialised `elen` (src/crytpo/encryption.c:77-81)
  and the terminator at `skey[read + 1]` (src/crytpo/encryption.c:45) are not modelled.
- The DES block function, its key schedule, odd parity and the refusal of weak keys by
  `DES_set_key_checked`: parameters, any functions of 8 bytes. `DES_cfb64_encrypt` itself belongs to
  OpenSSL and is modelled as its documentation and SP 800-38A define it.
- The encoder library: taken to be RFC 4648, section 4; what it does with other input is not modelled
  (`SecureChannel.Listen` calls it undefined).
- The jnx trees, lists and hashes: entry lists in arbitrary order. Since keys are compared by address,
  the order of keys says nothing about their contents.
- Peers.Peerstore.AddPeer: adding the very record object that is already stored is not modelled; what
  the tree does with a key it has is not part of this model. The one caller never does it.
- Sessions.SessionStore.Add: the same for a session object that is already stored.
- Serialization.DeserializeData: messages are NUL-terminated and their stated length is their string
  length; `serialize_data` itself copies its frame out without a NUL (src/data/serialization.c:57-59).
- Serialization.SerializeData: asks that the five values have fewer than 981 characters together, what
  the 1024-character buffer holds. Its one caller meets that, as `Serialization.MulticastPulse` shows.
- SecureChannel.SecureListenerCallback: `last_session` is NULL or a live object, which
  `Agreement.LastNeverDangles` shows of every reachable state.
- Manual memory management beyond what is read or freed unset or read once freed: leaks, the order of
  frees; `peerstore_delete_peer` and `peerstore_destroy`.
- `session_get_state`, which looks an id up by its address; `atoi` on numbers outside `int`.
- `send_and_await`, the discovery clock loop, the seeding in `random_in_range`, the input loop, `trim`: UI and timing.
- Peers that restart, change their guid or lose records during a run; duplicated or forged frames.
- Telling the other end of a shutdown and opening a session again: the program does not do it
  (src/data/sessioncontrol.c:238, BUGS.md:5-6).
