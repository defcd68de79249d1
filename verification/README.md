# Verified models of the IICP client

This project models the protocols and state machines of the IICP client library and proves what they
guarantee over whole runs. It is written in Dafny 4.11; `dafny verify dfyconfig.toml` checks all of it.

Nothing here runs the original program. Cryptography, hashing, clocks, random draws, the network and
the file system enter as parameters: a signature check is a function argument, time is a number handed
to each call, a failing write is a choice in the list of steps. Results about concurrency quantify over
every finite list of atomic steps of any number of threads or processes, so over every interleaving.

| file | what it models |
|---|---|
| `Prelude.dfy`, `Ordering.dfy` | options, results, bytes; stable sorting by a text key |
| `Framing.dfy`, `Connection.dfy` | the native frame codec and the server's session loop over a socket |
| `Json.dfy`, `CanonicalJson.dfy` | JSON values up to member order; the canonical printer and a reader for it |
| `Base64.dfy`, `JsonCbor.dfy` | base64 text and the conversion between JSON and CBOR |
| `Lifecycle.dfy`, `HandlerStream.dfy` | streamed responses through encoder, decoder and sequence validator; the same from the handler's side |
| `RelayStream.dfy`, `BindLimiter.dfy` | relay streams between worker and consumer; the limiter of relay binds |
| `TrustBundle.dfy`, `TicketAcceptance.dfy` | trust bundles, the ticket verifier, the stored form; what a ticket needs to be accepted |
| `TrustStore.dfy` | the trust store's file under concurrent installers, recoveries, readers and crashes |
| `PeerStore.dfy` | revocation by generation in the peer store |
| `Admission.dfy`, `SeenSets.dfy` | the admission ledger and the expiring sets of identifiers already used |
| `Calendar.dfy` | the three conversions from seconds to calendar dates |
| `ConcurrencyGate.dfy`, `RequiredSteps.dfy`, `NodeLog.dfy`, `Candidates.dfy` | the lock-free gate, the recorder of required steps, log rotation, candidates and retries |

## Main results

- However a byte stream is cut into reads, the session loop dispatches what parsing the whole stream
  does, and its buffer stays below a header, a full payload and one read (`Connection.HandleConnection`).
  A stream of encoded messages is served message by message (`Connection.StreamOfMessages`), and the type
  bytes alone say which are dispatched and why it ends (`Connection.SessionByType`).
- The canonical printer is unambiguous (`CanonicalJson.PrintUnambiguous`) and its keys rise at every depth
  (`CanonicalJson.PrintOrdersKeys`); JSON survives CBOR exactly
  when its integers are in the signed range (`JsonCbor.RoundTripExact`).
- Whatever a handler produces and wherever the server fails to deliver, the client sees the events sent,
  in order, up to the first whose own name disagrees with its status, and one error unless it saw the
  terminal event; it sees all of them if and only if all were delivered and agree (`Lifecycle.EndToEnd`).
  Each frame it sees carries what the handler's own event holds (`HandlerStream.HandlerToClient`).
- A relay stream yields a prefix of the accepted events and one ending, in every interleaving
  (`RelayStream.StreamGuarantee`), and drains what waits (`RelayStream.Drains`).
- Evicting rate buckets changes no decision (`BindLimiter.EvictionInvisible`). No source gets more than
  2 * limit - 1 admissions in 60 seconds if and only if no 60 seconds hold 2^32 + limit - 1 attempts of it
  (`BindLimiter.RateBoundExactly`), and some run gets as many (`BindLimiter.RateBoundReached`).
- A ticket is accepted if and only if it meets the conditions of its bundle, key, bindings, signature and
  cache, and a refusal names the first one missed (`TicketAcceptance.AcceptedExactly`,
  `TicketAcceptance.KeyDecides`).
- Canonicalising a bundle changes no verdict (`TrustBundle.CanonicalVerdict`), and a committed bundle
  loads exactly when its file is within the size limit (`TrustBundle.LoadOfCommit`).
- Commits to the trust store are atomic (`TrustStore.CommitIsAtomic`), the high-water mark falls in
  exactly one situation (`TrustStore.MarkFallsExactly`), readers see whole records
  (`TrustStore.ReadersSeeWholeRecords`), and of installers expecting one version at most one reports
  success (`TrustStore.AtMostOneInstalled`). Every report in every run is true of the record that was
  current when it was decided (`TrustStore.ReportIsTrue`, `TrustStore.CommitIsTrue`), and a recovery can
  always replace what is stored (`TrustStore.RecoveryCanComplete`).
- A returned revocation holds for ever after (`PeerStore.RevocationHolds`), and every peer ever held comes
  from an advert that was genuine for it (`PeerStore.MembersAreGenuine`).
- A claim is admitted at most once exactly when the skew is at most one second above the retention, or
  the retention is as long as the store's whole time range (`Admission.AtMostOnceExactly`); seen-sets
  agree with the full history (`SeenSets.HistoryDecides`), and no ticket id is accepted twice while it is
  unexpired (`SeenSets.TicketsNotReplayed`).
- What is read back from a rotated log is a suffix of everything written if and only if no rotation
  overwrites a generation while an older one survives (`NodeLog.SuffixExactly`), and its files stay in
  bounds if and only if a live file at the limit can always be renamed (`NodeLog.FilesBoundedExactly`).
- All three date conversions agree on every day that fits 32 bits, and only there
  (`Calendar.AllAgree`, `Calendar.ClosedFormsAgree`, `Calendar.CountedAgreesExactly`).

## Where the code differs from what one would expect

- A commit does not check the size that a load insists on. A larger bundle is committed and then reads as
  corrupt; a recovery after it may lower the high-water mark (`TrustStore.MarkFallsExactly`).
- The server does not check a handler's own event name against its status; the client refuses such a
  frame and the stream ends there (`Lifecycle.NameOverrideBreaksStream`).
- Integers above the signed 64-bit range come back from CBOR as text (`JsonCbor.OversizedInteger`).
- The admission ledger can accept a claim twice when the skew exceeds the retention by two seconds or
  more (`Admission.TwiceAccepted`).
- The 32-bit attempt count of the bind limiter wraps in a release build; 2^32 + limit - 1 attempts in one
  window are the first number that breaks its bound (`BindLimiter.WrapBreaksBound`).
- A log rotation ignores every failed rename. If only the rename of a middle generation fails, that
  generation is overwritten and the log has a gap (`NodeLog.MiddleRenameFails`); if the rename of the live
  file fails, it grows past its bound (`NodeLog.LiveRenameFails`).
- The log's date loop cuts the day number to 32 bits (`Calendar.CountedAgreesExactly`).

## Model

| member | source | states |
|---|---|---|
| Framing.BigEndianUnique | src/iicp_tcp.rs:145-187 | every four length bytes are the big-endian form of one number below 2^32 |
| Framing.DecodeOfEncode | src/iicp_tcp.rs:111-187 | an encoded frame decodes to itself and the decoder stops at its end, whatever follows |
| Framing.EncodeOfDecode | src/iicp_tcp.rs:111-187 | whatever decodes re-encodes to the consumed bytes, the ignored reserved byte aside |
| Connection.NextFrame | src/iicp_tcp.rs:629-696 | the next frame of a stream has a positive size within the stream; otherwise there is a reason to stop |
| Connection.Socket.Read | src/iicp_tcp.rs:608-660 | a read returns the next bytes of the stream; an empty one means that the stream is over |
| Connection.Fill | src/iicp_tcp.rs:608-680 | reading until enough is buffered loses no byte and overshoots by less than one read |
| Connection.ReadFrame | src/iicp_tcp.rs:629-696 | the buffered reader finds the same next frame or refusal as the whole remaining stream, and keeps exactly the bytes behind it |
| Connection.HandleConnection | src/iicp_tcp.rs:608-729 | for every cut of the stream the session equals the parse of the whole stream; the buffer stays below header + 16 MiB + one read |
| Connection.SameFrame | src/iicp_tcp.rs:145-187 | once a whole frame is buffered, bytes behind it do not change how it decodes |
| Connection.ParseOfWire | src/iicp_tcp.rs:608-729 | parsing concatenated encodings serves the messages one by one |
| Connection.StreamOfMessages | src/iicp_tcp.rs:608-729 | a stream of encoded in-bound messages is served exactly as those messages in order |
| Connection.ServedPrefix | src/iicp_tcp.rs:608-729 | exactly how many messages are dispatched: up to the first CLOSE, refused type, repeated INIT or failing response |
| Connection.SessionByType | src/iicp_tcp.rs:608-729 | for encoded messages, by type bytes written out: which are dispatched, refused as invalid, conflicted, extension or unknown, break the handshake, hang up or fail, and that a stream without such a message is dispatched whole |
| Connection.StreamTail | src/iicp_tcp.rs:629-660 | after served messages, fewer than 12 further bytes end the stream there and other magic bytes close the connection |
| Connection.SessionEndsExactly | src/iicp_tcp.rs:698-729 | on every byte stream the server hangs up if and only if the last dispatched frame is a CLOSE or an unsupported INIT, and fails if and only if it is another answered frame whose response cannot be delivered |
| Connection.ParsedFramesWellOrdered | src/iicp_tcp.rs:662-696 | frames already dispatched stay, and the whole list keeps its order rules |
| Connection.StreamWellOrdered | src/iicp_tcp.rs:608-729 | for every byte stream the dispatched frames start with INIT, have no second INIT, nothing after CLOSE and only accepted types and sizes |
| Json.SameIffCanonEqual | src/dispatch_ticket_trust.rs:521-548 | two values are equal up to member order at every depth exactly when their sorted representatives are equal |
| Json.CanonIdempotent | src/dispatch_ticket_trust.rs:521-548 | sorting members at every depth twice is sorting them once |
| CanonicalJson.ReadEscaped | src/dispatch_ticket_trust.rs:521-548 | an escaped string reads back as itself up to its closing quote, whatever follows |
| CanonicalJson.ShortestEscape | src/dispatch_ticket_trust.rs:521-548 | no text that reads as a character is shorter than its escape; only quotes, backslashes and control characters are escaped, in lower case |
| CanonicalJson.ReadPrintedNumber | src/dispatch_ticket_trust.rs:521-548 | a printed number reads back as itself and has no character that could end it early |
| CanonicalJson.PrintEmitsCanon | src/dispatch_ticket_trust.rs:521-548 | the recursive sorting printer emits the representative member by member |
| CanonicalJson.ReadOfEmit | src/dispatch_ticket_trust.rs:521-548 | the reader inverts emission for every value, with any valid text behind it |
| CanonicalJson.ReadOfPrint | src/dispatch_ticket_trust.rs:521-548 | reading the canonical text of a value returns its representative |
| CanonicalJson.PrintUnambiguous | src/dispatch_ticket_trust.rs:521-548 | two values print to the same text if and only if they are equal up to member order |
| Ordering.LessMeans | src/dispatch_ticket_trust.rs:521-548 | one text is less than another if and only if the first place where they differ has the smaller character, or it is a proper prefix |
| CanonicalJson.PrintOrdersKeys | src/dispatch_ticket_trust.rs:521-548 | in what the canonical text reads back as, the keys of every object at every depth strictly increase in that order |
| TrustBundle.CanonBundleIdempotent | src/dispatch_ticket_trust.rs:49-71 | canonicalising a bundle twice is canonicalising it once |
| TrustBundle.SameRefusal | src/dispatch_ticket_trust.rs:582-607 | a key's canonical form refuses the same tickets for the same reason, empty lists included |
| TrustBundle.SameFinding | src/dispatch_ticket_trust.rs:575-607 | with duplicate key ids the canonical list still leads to the first of them |
| TrustBundle.CanonicalVerdict | src/dispatch_ticket_trust.rs:551-661 | for every ticket, binding, time and cache, the verdict and the cache left are the same on a bundle and on its canonical form |
| TicketAcceptance.BundleRefusal | src/dispatch_ticket_trust.rs:560-574 | a ticket that fails a check on bundle version, validity, profile or key id is refused with the code of the first one failed, without a key, and the cache stays |
| TicketAcceptance.UnknownKeyRefusal | src/dispatch_ticket_trust.rs:572-581 | a ticket naming a key that the bundle does not hold is refused for that |
| TicketAcceptance.KeyDecides | src/dispatch_ticket_trust.rs:575-661 | the first key of the ticket's id decides: accepted if revocation, window, profile, issuer, audience, bindings, expiry, id, signature and replay all allow it, else refused with the code of the first that does not |
| TicketAcceptance.AcceptedExactly | src/dispatch_ticket_trust.rs:551-661 | a ticket is accepted if and only if some first key of its id and the bundle meet all those conditions, written out over the claims |
| TrustBundle.CanonKeyForgetsOrder | src/dispatch_ticket_trust.rs:49-71 | keys that differ in the order of their lists only have one canonical form |
| TrustBundle.CanonKeyContents | src/dispatch_ticket_trust.rs:49-71 | a canonical key has the same entries in text order and all else unchanged; without profiles it names the ticket profile alone |
| TrustBundle.CanonBundleForgetsOrder | src/dispatch_ticket_trust.rs:49-71 | bundles with distinct key ids that differ in the order of their keys only have one canonical form and text |
| TrustBundle.CanonBundleInOrder | src/dispatch_ticket_trust.rs:49-71 | no key of a canonical bundle precedes an earlier one by its id |
| TrustBundle.ReadBundleOfCanon | src/dispatch_ticket_trust.rs:22-71 | a bundle survives being written as JSON, ordered and read back |
| TrustBundle.MissingListsAreEmpty | src/dispatch_ticket_trust.rs:22-34 | a stored key whose lists are missing reads as one with empty lists |
| TrustBundle.CanonicalTextRoundTrip | src/dispatch_ticket_trust.rs:49-71 | the canonical text of a bundle reads back as its canonical form and is that form's own text |
| TrustBundle.LoadOfCommit | src/dispatch_ticket_trust.rs:290-401 | what a commit writes loads as the canonical bundle with its high-water mark, if and only if the file is at most 4 MiB |
| TrustBundle.LoadIsSound | src/dispatch_ticket_trust.rs:345-401 | whatever loads, from any file contents, is within 4 MiB, is the canonical text of its bundle, matches its digest and has a mark not below its version |
| TrustBundle.CanonicalTextUnambiguous | src/dispatch_ticket_trust.rs:49-71 | two bundles have one text, so one digest input, exactly when their canonical forms are equal |
| Base64.Base64Encode | src/iicp_tcp.rs:1534-1562 | the loop computes the recursive definition of section 4 of RFC 4648 |
| Base64.DecodeOfEncode | src/iicp_tcp.rs:1534-1562 | decoding the encoding returns the bytes, for every byte string |
| JsonCbor.RoundTrip | src/iicp_tcp.rs:1028-1057 | every tree returns from CBOR as its ordered form with oversized integers turned to text |
| JsonCbor.RoundTripExact | src/iicp_tcp.rs:1494-1531 | a tree returns the same, up to member order, if and only if all its integers fit 64 signed bits |
| JsonCbor.OversizedInteger | src/iicp_tcp.rs:1028-1057 | the largest unsigned value returns as text |
| JsonCbor.DecodedObject | src/iicp_tcp.rs:1494-1531 | any CBOR map, its keys mixed, repeated or unordered, becomes an object with ordered distinct names, each with the value of the last entry of that text or integer key, and no others |
| JsonCbor.DecodedOutsideJson | src/iicp_tcp.rs:1494-1531 | byte strings become text that decodes to them; tags and non-finite numbers become null |
| Lifecycle.NativeResponseSequence.constructor | src/native_response_sequence.rs:44-57 | a new validator has accepted nothing, expects sequence 0 and no terminal |
| Lifecycle.NativeResponseSequence.AcceptFrame | src/native_response_sequence.rs:59-99 | a frame is refused with the first matching code and no change, or joins the accepted ones; the state is always where those lead |
| Lifecycle.NativeResponseSequence.Finish | src/native_response_sequence.rs:101-108 | finishing succeeds if and only if the frames accepted so far end in a terminal one |
| Lifecycle.AcceptAllExact | src/native_response_sequence.rs:59-99 | a list of frames is accepted if and only if it is numbered 0, 1, 2, ... for one call with names fitting statuses and at most one terminal, last |
| HandlerStream.NamesExactly | src/native_response_sequence.rs:59-99 | the names that fit a status, listed both ways |
| Lifecycle.AcceptAllSnoc | src/native_response_sequence.rs:59-99 | accepting one more frame is accepting it in the state the others lead to |
| Lifecycle.DecodeOfEncode | src/iicp_tcp.rs:259-458 | the client decodes an encoded event to the frame it should see |
| Lifecycle.MissingSequenceRefused | src/iicp_tcp.rs:413-458 | a response without a usable sequence number is refused, whatever else it says, as long as fewer than 2^64 - 1 frames were accepted |
| Lifecycle.OnStreamCall | src/iicp_tcp.rs:928-1024 | the server sends the encodings of the answered events, numbered from 0, up to the first that does not fit a frame or cannot be written; a call the gate refuses gets one error |
| Lifecycle.SendEvents | src/iicp_tcp.rs:948-1024 | the loop answers events up to the first terminal one and supplies a terminal when there is none |
| Lifecycle.AnsweredOneTerminal | src/iicp_tcp.rs:948-1024 | whatever the handler produces, the answered events have known statuses and exactly one terminal, last |
| HandlerStream.AnsweredByHandler | src/iicp_tcp.rs:972-1022 | every event before the first stop is the handler's own; the last is its terminal event or the error text for an exception, an unknown status or a missing end, written out |
| HandlerStream.AnsweredByGate | src/iicp_tcp.rs:955-970 | a call the gate refuses gets one capacity error, written out |
| Lifecycle.CallStream | src/iicp_tcp.rs:1313-1428 | the client yields one error for a request that could not be sent, otherwise accepted frames up to the terminal one or up to one error: a failed read, another type, no CBOR, no lifecycle or a refusal |
| Lifecycle.Step | src/iicp_tcp.rs:1313-1428 | one poll yields the next item and leaves the rest of the stream to follow |
| Lifecycle.YieldedOf | src/iicp_tcp.rs:1313-1428 | of the first n responses to any answered events the client sees those before the first whose name disagrees, then one error unless the terminal one was among them |
| Lifecycle.EndToEnd | src/iicp_tcp.rs:928-1024 | for everything the server may have sent, complete or cut off, let in or refused by the gate: exactly what the client yields, and that it is every answered event if and only if all were sent and all names agree |
| HandlerStream.HandlerToClient | src/iicp_tcp.rs:928-1024 | when all is sent and names agree, the client's i-th frame carries status, finality, name, sequence, tokens and error of the handler's i-th event, and its result up to member order where its integers fit |
| Lifecycle.NameOverrideBreaksStream | src/iicp_tcp.rs:259-348 | a success named otherwise is refused by the client |
| Lifecycle.DefaultNameAgrees | src/iicp_tcp.rs:259-348 | an event without a name of its own always agrees |
| Lifecycle.ResultDelivered | src/iicp_tcp.rs:413-458 | a result with integers in the signed range is delivered unchanged up to member order |
| RelayStream.RelaySession.constructor | src/relay_session.rs:40-52 | a new session has no streams |
| RelayStream.RelaySession.DeliverStreamEvent | src/relay_session.rs:59-73 | a delivery validates the event, then queues it or takes the stream off the table with its failure |
| RelayStream.RelaySession.ForwardStream | src/relay_session.rs:230-270 | opening registers a validator for the call before anything is sent |
| RelayStream.RelaySession.Poll | src/relay_session.rs:271-304 | one step of the polling loop: failure cell first, then the oldest event, the closed channel or the timeout |
| RelayStream.RelaySession.DropGuard | src/relay_session.rs:48-57 | the guard takes the stream off the table and closes its channel |
| RelayStream.KeepsDeliver | src/relay_session.rs:59-73 | a delivery to any stream keeps the invariant of all streams |
| RelayStream.KeepsPoll | src/relay_session.rs:271-304 | so does a poll |
| RelayStream.ExecInv | src/relay_session.rs:53-304 | the invariant holds after every list of opens, deliveries, polls and cancels |
| RelayStream.StreamGuarantee | src/relay_session.rs:53-304 | in every interleaving a stream has yielded a contiguous prefix of the accepted events and at most one ending, with at most 32 waiting and never the fallback error |
| RelayStream.YieldedOnlyGrows | src/relay_session.rs:271-304 | yielded items stay, and nothing follows the item that ends a stream |
| RelayStream.Drains | src/relay_session.rs:271-304 | after every run, three polls for each waiting event of a stream without a failure deliver all of them in order and end the stream after a terminal one |
| RelayStream.ReachableReady | src/relay_session.rs:53-304 | in every run only the last waiting event of a stream can be terminal |
| BindLimiter.RelaySessionRegistry.constructor | src/relay_session.rs:591-597 | a registry starts without buckets |
| BindLimiter.RelaySessionRegistry.AllowBind | src/relay_session.rs:600-615 | the answer and the new buckets, eviction included, for every source, instant and rebind |
| BindLimiter.UnlimitedAlwaysAllowed | src/relay_session.rs:600-603 | a rebind, and every attempt under limit 0, is allowed and leaves no trace |
| BindLimiter.AllowedExactly | src/relay_session.rs:600-615 | any other attempt of any run in clock order is allowed if and only if the attempts of its window, modulo 2^32, are at most the limit |
| BindLimiter.EvictionInvisible | src/relay_session.rs:600-615 | at every attempt of every run in clock order the answer is that of a limiter that keeps all buckets |
| BindLimiter.BucketCounts | src/relay_session.rs:604-609 | a bucket counts exactly the attempts of its window, modulo 2^32, in every run in clock order |
| BindLimiter.TallyHolds | src/relay_session.rs:600-615 | until an interval is over, its admissions are exactly those of the current window and the last ones of the window before, wrapped counts included |
| BindLimiter.RateBound | src/relay_session.rs:600-615 | with fewer than 2^32 + limit - 1 attempts in every 60 seconds a source gets at most 2 * limit - 1 non-rebind admissions in any half-open 60-second interval |
| BindLimiter.RateBoundExactly | src/relay_session.rs:600-615 | all runs in clock order within an attempt budget keep that bound if and only if the budget is below 2^32 + limit - 1 |
| BindLimiter.RateBoundReached | src/relay_session.rs:600-615 | for every limit some run reaches that bound |
| BindLimiter.WrapBreaksBound | src/relay_session.rs:608-609 | with 2^32 + limit - 1 attempts at one instant the count wraps and 2 * limit are admitted |
| TrustStore.CommitIsAtomic | src/dispatch_ticket_trust.rs:290-341 | only a rename changes the current record, to what the operation decides alone from the record it replaces |
| TrustStore.ReportIsAtomic | src/dispatch_ticket_trust.rs:403-437 | Conflict, Stale and Unchanged are decided on the record current at that instant, which stays |
| TrustStore.ReportsExactly | src/dispatch_ticket_trust.rs:403-444 | in every run a decision reports Conflict, Stale or Unchanged if and only if expectation, mark, version and digest say so, and otherwise writes the bundle's version and digest with the larger mark |
| TrustStore.ReportIsTrue | src/dispatch_ticket_trust.rs:403-437 | behind every such report in every run lies an instant at which it was true of the current record |
| TrustStore.CommitIsTrue | src/dispatch_ticket_trust.rs:403-475 | behind every finished commit lies the rename that put its own record in place of one that allowed it |
| TrustStore.MarkFallsExactly | src/dispatch_ticket_trust.rs:446-475 | the high-water mark falls if and only if a recovery with a lower mark replaces a record too large to load |
| TrustStore.NothingFalls | src/dispatch_ticket_trust.rs:403-444 | no step of installers lowers the mark or the version |
| TrustStore.ExecInv | src/dispatch_ticket_trust.rs:264-475 | the invariant of lock, files, processes and readers holds in every interleaving with failures and crashes anywhere |
| TrustStore.MutualExclusion | src/dispatch_ticket_trust.rs:146-156 | at most one process is between taking and giving up the lock, or crashed there |
| TrustStore.CrashedHolderBlocks | src/dispatch_ticket_trust.rs:264-288 | after a process has crashed holding the lock no process holds it again, in any continuation |
| TrustStore.ReadersSeeWholeRecords | src/dispatch_ticket_trust.rs:345-401 | a reader without the lock gets the complete record that was in place when it opened the file; only its size can make it corrupt |
| TrustStore.VersionWithinMark | src/dispatch_ticket_trust.rs:403-475 | the stored version never exceeds the stored mark |
| TrustStore.MarkNeverFallsInRun | src/dispatch_ticket_trust.rs:403-444 | over every run of installers and every continuation the mark and the version only rise |
| TrustStore.AtMostOneInstalled | src/dispatch_ticket_trust.rs:403-444 | of all installers expecting the same current version at most one reports Installed |
| TrustStore.LoadsExactly | src/dispatch_ticket_trust.rs:345-401 | in every run a process with the lock loads the current record; one too large stops an installer as corrupt and counts as absent for a recovery |
| TrustStore.RecoveryCanComplete | src/dispatch_ticket_trust.rs:446-475 | after every run a recovery holding the lock can replace whatever is stored with its own bundle and the largest mark |
| PeerStore.PeerManager.constructor | src/peer_manager.rs:157-179 | the counter starts at the policy's minimum and the map is empty |
| PeerStore.PeerManager.UpdateMinimumGeneration | src/peer_manager.rs:206-217 | the counter never falls, exactly the stale members go, and their number is returned |
| PeerStore.PeerManager.MergePeersAt | src/peer_manager.rs:228-283 | the loop stores every admitted peer, returns how many ids are new and keeps all members fresh |
| PeerStore.PeerManager.Prune | src/peer_manager.rs:406-417 | exactly the peers out of contact or past their membership go, and their number is returned |
| PeerStore.ExecInv | src/peer_manager.rs:206-283 | the invariant of counter, mutex and threads holds in every interleaving |
| PeerStore.JudgedFresh | src/peer_manager.rs:264-283 | a peer is stored against a minimum read inside the lock, so no returned update is undone |
| PeerStore.RevocationHolds | src/peer_manager.rs:206-283 | once an update to g has returned, every later state of every interleaving holds only members of generation g or above |
| PeerStore.AdmittedExactly | src/peer_manager.rs:238-283 | an advert is admitted if and only if it names another node and, under a restricted policy, is genuine and not below either minimum; what is then stored |
| PeerStore.MergedExactly | src/peer_manager.rs:228-247 | a merge adds exactly the ids of admitted adverts |
| PeerStore.MembersAreGenuine | src/peer_manager.rs:228-283 | in every interleaving each peer held stems from an advert of its id that, under a restricted policy, was genuine, with its generation and expiry |
| Admission.DispatchAdmissionStore.Consume | src/dispatch_admission_sqlite.rs:96-161 | every refusal in its order, the storage limit, and that acceptance is exactly the insertion of the row |
| Admission.AcceptedExactly | src/dispatch_admission_sqlite.rs:96-161 | a claim is accepted if and only if its id is well formed and not stored, provider and intent match, its times and the skew allow it and the store can hold them |
| Admission.AcceptedWereConsumable | src/dispatch_admission_sqlite.rs:96-161 | every claim accepted in a run was so at the moment of its acceptance |
| Admission.DispatchAdmissionStore.Evaluate | src/dispatch_admission.rs:107-129 | acceptance needs trust and the store; every other outcome changes nothing |
| Admission.DispatchAdmissionStore.Move | src/dispatch_admission_sqlite.rs:163-199 | a transition leads to a terminal state, once, or fails without a change |
| Admission.DispatchAdmissionStore.Cleanup | src/dispatch_admission_sqlite.rs:254-271 | a cleanup deletes stale rows only, earliest expiry first, as many as the limit admits |
| Admission.DispatchAdmissionStore.EarliestStale | src/dispatch_admission_sqlite.rs:265-268 | the inner query picks stale rows none of which expires after one left behind |
| Admission.ExecInv | src/dispatch_admission_sqlite.rs:96-271 | an accepted claim keeps its row or is too old to be accepted again |
| Admission.TwiceAccepted | src/dispatch_admission_sqlite.rs:119-161 | with a skew two seconds above the retention one claim is accepted twice |
| Admission.AtMostOnceExactly | src/dispatch_admission_sqlite.rs:96-271 | all runs in clock order accept a claim at most once, rows deleted or not, if and only if the skew is at most one second above the retention or the retention spans the store's time range |
| Admission.TerminalForGood | src/dispatch_admission_sqlite.rs:163-199 | a retained row in a terminal state never changes again |
| SeenSets.IdempotencyGuard.CheckAndRegister | src/idempotency.rs:37-49 | the answer and the new set; an empty task id is always new and never recorded |
| SeenSets.RelayBindReplayCache.Consume | src/relay_ticket.rs:26-37 | the answer and the new set for a relay bind ticket |
| SeenSets.LocalDispatchReplayCache.Contains | src/dispatch_ticket_trust.rs:510-514 | whether an unexpired entry exists, forgetting the expired ones |
| SeenSets.LocalDispatchReplayCache.Use | src/dispatch_ticket_trust.rs:643-653 | a replay is refused, anything else remembered |
| SeenSets.GossipReplayIds.RecordReplay | src/peer_manager.rs:328-340 | new, duplicate or full, and the new set |
| SeenSets.ExecAgrees | src/idempotency.rs:37-49 | from every instant on the set holds exactly what the full history has in force |
| SeenSets.HistoryDecides | src/peer_manager.rs:328-340 | a duplicate is refused exactly while an earlier accepted entry is unexpired; room is refused exactly when the id is not in force and the capacity is used up by ids that are |
| SeenSets.NeverOverCapacity | src/peer_manager.rs:328-340 | the gossip set never exceeds its capacity |
| SeenSets.NeverDropped | src/peer_manager.rs:328-340 | a live id is never dropped to make room |
| SeenSets.VerdictRecords | src/dispatch_ticket_trust.rs:643-660 | an accepted ticket names an id not in force and is recorded with its expiry; a refused one records nothing |
| SeenSets.TicketsNotReplayed | src/dispatch_ticket_trust.rs:551-661 | in every run of verifications in clock order with one cache no ticket id is accepted again before its earlier acceptance expires |
| Calendar.DayNumberOrder | src/conformance.rs:415-427 | numbering the days of the Gregorian calendar keeps their order, so a number names at most one date |
| Calendar.DaysToYmdCorrect | src/conformance.rs:415-427 | the closed form inverts the numbering of days for every integer |
| Calendar.DaysToYmd32IsWrapped | src/identity.rs:32-54 | the form with 32-bit years gives the exact date with its year wrapped once |
| Calendar.ClosedFormsAgree | src/identity.rs:32-54 | the two closed forms agree if and only if the year fits 32 signed bits |
| Calendar.CountDate | src/node_log.rs:93-138 | counting years and months gives the valid date of that day number |
| Calendar.EpochToDatetime | src/node_log.rs:93-138 | the loops compute the date of the day number cut to 32 bits, and the time of day |
| Calendar.AllAgree | src/node_log.rs:93-138 | on every second whose day fits 32 bits all three conversions give the same valid stamp of that day |
| Calendar.CountedAgreesExactly | src/node_log.rs:93-138 | the loops agree with the closed form on no other second |
| Calendar.SameDate | src/conformance.rs:415-427 | different days get different dates |
| Calendar.StampsInOrder | src/conformance.rs:394-427 | a second is earlier than another if and only if its stamp is, field by field |
| Calendar.StampCountsBack | src/conformance.rs:394-427 | the fields of a stamp are in range and count back to its second |
| ConcurrencyGate.Gate.constructor | src/concurrency.rs:34-41 | a gate starts with no active job |
| ConcurrencyGate.Gate.Acquire | src/concurrency.rs:46-62 | undisturbed, the loop takes a slot exactly when one is free |
| ConcurrencyGate.CountsHolders | src/concurrency.rs:46-67 | for any number of threads the counter is always the number of holders and at most the maximum |
| ConcurrencyGate.UndisturbedAcquire | src/concurrency.rs:46-62 | after any run, an acquire that no other thread interrupts succeeds if a slot is free and is refused if not |
| ConcurrencyGate.RefusedOnlyWhenFull | src/cip_policy.rs:98-118 | an acquire is refused only if, at some instant from its call to its refusal, every slot was held |
| ConcurrencyGate.BeganAtCall | src/concurrency.rs:46-62 | the instant from which a refusal is judged is that of its own call |
| ConcurrencyGate.EndedAtRefusal | src/concurrency.rs:46-62 | the instant up to which it is judged is that of the round of the loop that gave up |
| RequiredSteps.Recorder.Open | scripts/pre1_artifact_common.py:246-261 | a recorder exists exactly for a valid declaration whose first write landed |
| RequiredSteps.DeclarationsExactly | scripts/pre1_artifact_common.py:246-254 | a declaration is valid if and only if it has 1 to 32 ids, as many as different ones, each a letter and up to 63 letters, digits or dashes |
| RequiredSteps.Recorder.Enter | scripts/pre1_artifact_common.py:282-288 | only the pending untouched row may start, and work starts only with its start record on disk |
| RequiredSteps.Recorder.Leave | scripts/pre1_artifact_common.py:289-303 | the row ends as PASS or FAIL; the error of the work wins over that of a write, and a failed write makes normal work raise |
| RequiredSteps.ExecInv | scripts/pre1_artifact_common.py:280-303 | the invariant of rows, disk and work holds whichever writes fail |
| RequiredSteps.ShapeAlways | scripts/pre1_artifact_common.py:280-303 | in memory and on disk the statuses are PASS rows, at most one INCOMPLETE or FAIL, then NOT_RUN rows |
| RequiredSteps.DurablePass | scripts/pre1_artifact_common.py:280-303 | a durable PASS means that this step's work and all before it returned normally |
| RequiredSteps.StartedWithRecord | scripts/pre1_artifact_common.py:282-288 | work starts only with its durable INCOMPLETE record, every earlier PASS durable and nothing else running |
| RequiredSteps.NextStepStarts | scripts/pre1_artifact_common.py:282-288 | in every run the first step not passed, if untouched, can start, and no other step can |
| RequiredSteps.CanComplete | scripts/pre1_artifact_common.py:280-303 | every valid declaration can be completed: all steps taken in order end as PASS in memory and on disk |
| RequiredSteps.RecordStays | scripts/pre1_artifact_common.py:280-303 | the start record of work that has begun is never lost |
| NodeLog.Log.Rotate | src/node_log.rs:69-76 | the loop performs the renames from the oldest generation down |
| NodeLog.Log.AppendRotating | src/node_log.rs:55-67 | a live file at the limit is rotated before the record is appended |
| NodeLog.SizeIsBytes | src/node_log.rs:55-61 | the size compared with the limit is the number of bytes in the file |
| NodeLog.RotatedFiles | src/node_log.rs:69-76 | where every generation is after a rotation in which any of the renames may fail |
| NodeLog.RotatedKept | src/node_log.rs:69-76 | a rotation that overwrites nothing while an older generation survives keeps a suffix of what was written |
| NodeLog.RotatedBroken | src/node_log.rs:69-76 | any other rotation breaks it, where records are distinct |
| NodeLog.ReadsASuffix | src/node_log.rs:43-82 | after any writes that lose nothing from the middle, generations 3, 2, 1 and the live file read in turn are a suffix of everything written, cut between records |
| NodeLog.SuffixExactly | src/node_log.rs:43-82 | for distinct records that holds at every time if and only if no rotation overwrites a generation while an older one survives |
| NodeLog.MiddleRenameFails | src/node_log.rs:69-76 | four writes with one refused rename of generation 1 lose the second record |
| NodeLog.FilesBoundedExactly | src/node_log.rs:43-82 | every file is shorter than the limit plus its own last record at every time if and only if every write that finds the live file at the limit can rename it |
| NodeLog.LiveRenameFails | src/node_log.rs:69-76 | a refused rename of a live file at the limit leaves it too long |
| Candidates.CandidatesChosen | src/client.rs:1035-1115 | for every strategy and draw there are min(3, n) candidates, without repeats, all eligible |
| Candidates.CandidatesByPlace | src/client.rs:1035-1115 | which three nodes in which order, for every strategy and draw |
| Candidates.PoolSize | src/client.rs:1035-1115 | the pool drawn from is never empty, never larger than the list, and has the configured size where that is between |
| Candidates.WeightedV1Index | src/selection.rs:175-189 | the weighted draw is the first node whose cumulated weight reaches the target, or the last |
| Candidates.TargetReached | src/selection.rs:175-189 | over reals the target lies below the total weight, so a node always reaches it |
| Candidates.TargetIsShare | src/selection.rs:175-189 | for every draw up to 0.999999999 the target is that share of the total weight |
| Candidates.WeightOrder | src/selection.rs:175-189 | a better score and a lighter load never weigh less; three weights written out |
| Candidates.BodyFor | src/client.rs:1142-1228 | a body carries the candidate's version of the payload and the request's own payload is restored |
| Candidates.Handle | src/client.rs:1281-1300 | the branches on a reply: success, next node, hard failure, or another attempt |
| Candidates.ReactsExactly | src/client.rs:1281-1300 | again if and only if 429, 502, 503 or 504 before the third attempt; the next node if and only if refused, unreachable or out of attempts; the end otherwise, with that reply |
| Candidates.OnNode | src/client.rs:1230-1303 | the attempts on one candidate continue the submission exactly |
| Candidates.SubmitInternal | src/client.rs:1140-1306 | the nested loops post, sleep and return exactly what the submission's definition says and restore the payload |
| Candidates.SubmissionBounded | src/client.rs:1140-1306 | at most three posts and 600 ms of sleep for each remaining candidate |
| Candidates.SubmissionFaithful | src/client.rs:1140-1306 | every post carries its candidate's version of the original payload; only the last reply decides |
| Candidates.SubmissionLimits | src/client.rs:1035-1306 | for every eligible list, strategy, draw and behaviour of the nodes: at most 9 posts, at most 1800 ms of sleep, payloads from the original |

## Left out

- HTTP clients, directory calls, discovery, NAT probing, tunnels: plumbing over services outside the repository.
- Cryptography and hashing: signature checks and digests are function parameters; a base64 codec used by the store is assumed to invert itself.
- Floating-point numbers: a JSON float is the text it prints as, so 0.0 and -0.0 are different values here although the machine compares them equal; the softmax draw is any index of its pool.
- Candidates.WeightedV1Index: over reals, so rounding and NaN weights are not modelled.
- Candidates.TargetReached: over reals, so a floating-point sum that falls short of its target is not modelled.
- ConcurrencyGate.Gate.Release: requires a held slot, as the source's debug assertion does; the wrap-around of an unmatched release is not modelled.
- ConcurrencyGate.RefusedOnlyWhenFull: each call is a thread of its own, so a thread that calls again counts as a new one.
- Admission.AtMostOnceExactly: about one claim; another claim with the same ticket id is accepted after the row is deleted if it expires strictly later.
- Admission.DispatchAdmissionStore.Consume: a transaction that the database refuses for reasons of its own is not modelled; it changes nothing.
- TrustStore.MarkNeverFallsInRun: process crashes only; loss of power between the writes to disk is not modelled.
- TrustStore.ReadersSeeWholeRecords: file permissions, symbolic links and files replaced by other programs are not modelled.
- PeerStore.RevocationHolds: verifying a membership is abstract except for its generation test; the endpoint and relay checks are part of the abstract outcome.
- RelayStream.Drains: polls that meet no timeout; scheduling of the polls themselves is not modelled.
- RelayStream.RelaySession.Poll: the HTTP-polling session shares these steps, its long-poll queue of outgoing calls is not modelled.
- NodeLog.ReadsASuffix: an append that fails half-way is not modelled.
- RequiredSteps.Recorder.Leave: exit codes and durations in the rows are not modelled.
- Candidates.SubmissionLimits: candidate rankers and routing-policy filtering are not modelled; token acquisition, encryption and serialisation are one yes-or-no preparation per candidate.
- Instance locks, relay bind admission in several lock acquisitions, one-pass policy evaluators, availability, pricing, configuration, command line and build scripts: not part of this model.
