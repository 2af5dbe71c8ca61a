# A model of the relay chat system, with proofs

This project models the core of a relay-based, end-to-end encrypted chat program in Dafny and proves
properties of it. `dafny verify dfyconfig.toml` checks everything. The parts are:

- **The relay protocol.** `Relay` gives the relay's state (room registry, rooms, connections, ban
  list, alias records, lines in flight) and what each handler call does to it; `Protocol` puts relay
  and remote clients together as a state machine with runs of any length; `RelayInvariant` proves what
  every step keeps. On top of that stand `Admissions` (who gets in, and what a room's first joiner
  makes of it), `Moderation` (who may evict, and what that does), `KeyAgreement` (members end up with the room's keys),
  `Epochs` (an evicted connection never learns a later secret), `Ownership` (who owns a room and when
  it is forgotten), `Bans` (who stays out, what UNBAN lifts), `OpenRooms` (rooms without auth) and
  `EndToEnd` (from one user's text to another's screen). `Server` is the same relay as a class whose
  methods update fields in place and loop over maps; each method is proved to compute the step of the
  state machine, so all of the above holds for it.
- **The connection layer.** `Outbound` (bounded queue and coalescing writer, every interleaving),
  `Broadcast` (fan-out to a room), `HealthCheck` (ping/pong with stale copies of the connection map),
  `LatePings` (what late PINGs do to it).
- **The wire.** `JoinLine`, `FromLine` and `MessageCrypto` (line formats over opaque primitives),
  `Framing` and `FramedStream` (length-prefixed frames; the latter on reused byte arrays).
- **Tables.** `ExpiringTables` (dedup and replay), `Discovery`, `PeerList`, `KnownPeers` and `Tofu`
  (pins and their append-only file); `Sweeping` is the sweep the timestamp tables share.
- **The load test.** `RttTracker`, `LoadLines`, `Statistics`, `Aggregates`.
- `Text`, `Hex`, `RoomKeys`, `AddressOrder`, `CollectionFacts` and `Wrappers` are what the others build on.

## Assumptions

- One handler call is one atomic step, except that a kick or ban and the evicted peer's `removePeer`
  are two steps with anything in between. `joinRoom` releases the registry lock before it adds the
  peer (server.go:581-590); the model takes it as atomic.
- A connection sends one JOIN (connection_manager.go:573-592), and a client has one relay connection.
- Addresses of live connections are distinct, not empty, do not start with a ban list tag and are not
  the operator's name.
- argon2id, HKDF (sections 2.2 and 2.3 of RFC 5869), HMAC, AES-GCM and base64 are deterministic
  functions with the round trips and output lengths the program relies on; room secrets are 32 bytes
  and never repeat. A few statements also need particular inputs not to collide, and say so
  (`NoCollision`, `Separates`, the HMAC clause of `EmptyAliasIsUnreadable`).
- A write to an open connection reaches the client in order; one to a closed connection is lost.
- Health check: ticks 5 s apart. That PINGs are written within less than 5 s of their tick is a condition
  of `HealthCheck.PromptPeerNeverReaped` alone.
- A sweep runs exactly every period; one timestamp is taken for each discovery packet.
- Strings are sequences of code points; lengths the program takes in bytes are computed by `ByteLen`.
  In `LoadLines` alone, characters are one byte long.
- Measurements are real numbers, so sums and ranks are exact; percentile arguments are integers.

## What the proofs found

- A room with an empty name, made by a `JOIN:` without a room, is never collected: `removePeer` takes
  the empty name for nothing to do. `Ownership.EmptiedRoomStaysExactlyWhen` says when an emptied room
  stays, `Ownership.UnnamedRoomIsNeverForgotten` that the nameless one does in every run, and
  `Ownership.UnnamedRoomLeftEmpty` is a run that leaves it behind.
- A client that gives a password to a room without auth is admitted (`OpenRooms.AnyPasswordIsAdmitted`)
  and derives keys that are not the room's: `KeyAgreement.AgreesExactlyWhen` says exactly when members
  agree, and `OpenRooms.PasswordMismatchReached` is a run in which they do not.
- The JOIN line carries its fields exactly when none has a bar or newline, the last does not end in
  white space, and a password sent without a device ID is not 64 bytes long, which makes it a device ID
  (`JoinLine.JoinRoundTrip`, `JoinLine.LongPasswordIsLost`).
- An alias of which sanitising leaves nothing makes a sender unreadable: the relay puts its address in
  front of the line, and no receiver accepts the signature (`FromLine.RelayIsVerbatim`,
  `FromLine.EmptyAliasIsUnreadable`).
- Appending to a known-peers file whose last line has no newline loses the first pin appended, for
  good (`Tofu.UnfinishedLineGarbles`; `Tofu.ReloadAgreesExactlyWhen` says exactly when it happens).
- A stream that breaks off right behind a frame's header reads like one that ended properly:
  `Framing.EndReadsAsCleanExactlyWhen` says exactly when the end of a stream is reported as clean, and
  `Framing.LoneHeaderReadsAsClean` is the failing case.
- The health check's clock starts when a tick marks a ping, not when the PING is written. A peer that
  always answers in time is safe exactly when PINGs are written less than 5 s after their tick
  (`LatePings.PromptReapedExactlyWhen`); `LatePings.LatePingReapsPrompt` is a run in which one is removed.
- A message still queued for a member when the room's secret is rotated is dropped once the SECRET line,
  which is written directly, overtakes it (`EndToEnd.QueuedMessageReadExactlyWhen`).
- `UNBAN alias:A` and `UNBAN A` do not always do the same. `Bans.TaggedLikeBareExactlyWhen` says exactly
  when they do: for an alias without a ban list tag, when the alias itself is no ban list entry. For an
  alias with a tag that is not enough (`Bans.TaggedAliasDiffers`).
- The load test's comments expect the relay to wrap its lines; the relay drops them, because they are
  not signed (`LoadLines.RelayDropsLoadLines`). A payload shorter than its ID can be counted as
  another message's delivery (`LoadLines.ShortPayloadIsMisattributed`), and one with room for its ID and
  the bar alone comes out a byte short (`LoadLines.PayloadSizeExactlyWhen`).

## Model

| member | source | states |
|---|---|---|
| RoomKeys.FiveSitesAgree | security.go:142-174 | CreateRoom, joinRoom, rotateRoomSecret, UpdateRoomKeys and DeriveRoomKeys derive the same three keys, those of argon2id and HKDF under the program's two labels, from one password (or none) and one secret, also through its hex text, and a client that has a password does so whatever keys it had |
| Hex.RoundTrip | connection_manager.go:194-214 | decoding the hex of a secret gives the secret back, for all byte strings |
| Hex.DecodesExactlyWhen | connection_manager.go:187-190 | a text decodes if and only if it is an even number of hex digits of either case, to half as many bytes |
| RelayInvariant.StepKeeps | server.go:249-497 | every step of relay or client keeps registry, membership, ownership, key and ban invariants |
| RelayInvariant.RunKeeps | server.go:505-993 | these invariants hold in every state of every run |
| Admissions.AdmittedExactlyWhen | server.go:317-376 | a JOIN is admitted if and only if neither address nor device is on the ban list, the password is right where the room asks for one, and no member has the alias; the refusals as banned and for the alias are given exactly, too |
| Admissions.JoinerIsIdentified | server.go:280-315 | whatever the verdict, an alias or device ID in the JOIN is taken over and a missing one leaves what was known |
| Admissions.FirstJoinerFounds | server.go:548-579 | the room has auth if and only if its first joiner gave a password, whose argon2id key is then the one later joiners must match; the joiner owns it, and no other room changes |
| Admissions.CreatedRoomIs | server.go:505-546 | a room made beforehand always has auth, under its password or, without one, its name, and has no owner and no members |
| Admissions.LaterJoinerEnters | server.go:581-595 | a later joiner becomes a member, and the owner only if there is none; it alone is sent a line, the room's secret, and nothing else changes |
| Admissions.PasswordRoomStaysClosed | server.go:339-357 | in every run, once a first joiner has made a room with a password, every later JOIN of that room without a password or with one of another key is refused, changes no room and sends no secret |
| Moderation.ModeratorIsOwner | server.go:655-666 | a kick, ban or unban over a connection comes from a member of that room whose address is the owner's |
| Moderation.OthersNeverModerate | server.go:706-716 | in no run is any such step made by a member that is not the owner |
| Moderation.OwnerMayModerate | server.go:773-795 | the owner may kick and ban every member and unban every entry, and so may the operator |
| Moderation.KickMeans | server.go:655-702 | exactly the target stops being a member, its connection is closed after it is told; the remaining open members are sent the new secret, nobody else anything; owner, ban list and other rooms stay |
| Moderation.BanMeans | server.go:706-771 | the same for a ban, with its own notice |
| KeyAgreement.RunInSync | server.go:592-595 | in every state of every run each open member's last SECRET in flight is its room's, or its keys already derive from it, and each member's JOIN named its room and passed its password check |
| KeyAgreement.MembersAgree | connection_manager.go:185-218 | over every run, a member in a room with auth, or without a password in a room without, has the room's keys, or the last SECRET on its way decodes to the room's secret |
| KeyAgreement.AgreesExactlyWhen | server.go:574-577 | without collisions a settled member has the room's keys if and only if the room has auth, or it gave no password, or its password is the room's name |
| OpenRooms.AnyPasswordIsAdmitted | server.go:344-356 | in a room without auth the verdict on a JOIN does not depend on the password, and is admission exactly unless banned or the alias is taken |
| OpenRooms.PasswordMismatchReached | server.go:574-577 | a run of five steps in which a member that gave a password to a room without auth has read everything sent to it and has neither of the room's keys |
| Epochs.HoldersWereMembers | server.go:632-641 | whoever holds a secret was, in some state passed through, a member of a room that had it then |
| Epochs.RunSecretsDistinct | security.go:124-130 | in every state of every run no two rooms share a secret |
| Epochs.CurrentSecretHolders | server.go:607-651 | whoever holds a room's current secret was a member of that very room while it had this secret |
| Epochs.EvictionSeparatesEpochs | server.go:655-771 | a kicked or banned connection never afterwards holds a secret that was not drawn before its eviction, however the run goes on |
| Epochs.ReadingTeaches | connection_manager.go:185-218 | a client learns a secret exactly by reading a line whose hex decodes to it |
| Epochs.ReadingRekeys | connection_manager.go:185-218 | it then has the keys of that secret, under its password's auth key or else the one it had; any other line leaves its keys |
| Epochs.PasswordGate | server.go:344-356 | in an auth room the password half of the admission check refuses exactly a missing password, and one whose auth key is not the owner's |
| Epochs.AuthKeyStays | server.go:610-615 | across any number of rotations an auth room's AuthKey stays the owner's |
| Epochs.SamePasswordAdmitted | server.go:607-651 | however many rotations later, a password is refused as incorrect if and only if it does not derive the auth key the room had at the start |
| Ownership.OwnerIsMemberOrPending | server.go:933-953 | in every state an ownerless room is empty, an owner is a member or evicted with its removal pending, and with none pending a non-empty room's owner is a member |
| Ownership.EmptyRoomsAccountedFor | server.go:955-975 | a registered empty room is locally created, has a removal pending, or has the empty name |
| Ownership.MembersPointBack | server.go:583-586 | members are keyed by their own address, point back at their room, and the room is registered under its name |
| Ownership.LateRemovalIsHarmless | server.go:955-975 | a reader exit, however late, unregisters no room that has members, and changes no room but its own |
| Ownership.SuccessorIsLeast | server.go:940-949 | the owner after a departing owner is the least remaining address |
| Ownership.OwnerChangesOnlyWhen | server.go:933-953 | a step changes a room's owner only if it is the owner's own exit, an exit that empties the room, or a JOIN while there is none; a kick or ban does not |
| Ownership.OwnerStays | server.go:933-953 | over whole runs an owner keeps the room until its own exit or until the room is left empty, whoever else leaves |
| Ownership.EmptiedRoomStaysExactlyWhen | server.go:955-975 | a registered room that a reader exit leaves empty stays registered if and only if it is locally created or has no name |
| Ownership.UnnamedRoomIsNeverForgotten | server.go:955 | in every run, once a room has the empty name, that very room has it in every later state |
| Ownership.UnnamedRoomLeftEmpty | server.go:955 | a run of three steps after which such a room stays behind, empty, not locally created and with nothing pending |
| AddressOrder.LeastUnique | server.go:941-947 | the least address of a set is one and the same whatever order the map is walked in |
| AddressOrder.LessExactlyWhen | server.go:944 | the order of addresses is decided at the first place where two differ, a proper prefix coming first |
| Bans.EntryStays | server.go:773-849 | a ban list entry stays from one state of a run to a later one unless an UNBAN in between clears it |
| Bans.BanLists | server.go:737-744 | a BAN adds to the list exactly the target's address, its alias entry and, if its device is known, its device entry, and puts the alias on record with the device |
| Bans.OnlyBanLists | server.go:737-744 | no step other than a BAN adds an entry |
| Bans.BannedJoinRefused | server.go:309-329 | a JOIN from a banned address, or with a banned device ID given now or on an earlier JOIN of the connection, changes no room, sends no secret, and closes the connection with the reason |
| Bans.BannedStayOut | server.go:706-771 | from a ban of an address and its known device until an UNBAN clears the entry, every JOIN from that address, or with that device ID given now or before, is refused with the reason |
| Bans.NoBannedMember | server.go:317-329 | no room ever has a member with a banned address |
| Bans.UnbanAlias | server.go:797-846 | an entry survives UNBAN of a bare alias if and only if it is not that name, its alias entry or its recorded device's entry; its record goes if it names a device, all others stay |
| Bans.UnbanDevice | server.go:797-846 | an entry survives UNBAN device:D if and only if it is not D's and not that of an alias on record with D; exactly those aliases' records go |
| Bans.UnbanTaggedAlias | server.go:797-846 | an entry survives UNBAN alias:A if and only if it is not A's alias entry or its recorded device's entry, for every A; records as for the bare form |
| Bans.TaggedLikeBareExactlyWhen | server.go:797-846 | for every A, UNBAN alias:A does what UNBAN A does exactly when a condition on the ban list and the records holds; for an A without a tag, that A itself is no entry |
| Bans.TaggedAliasDiffers | server.go:797-846 | an alias with a tag, no entry of the list, whose two forms lift different entries |
| Bans.RecordedAliasesAreListed | server.go:737-744 | in every state an alias on record with a device still has its ban list entry |
| EndToEnd.SettledMemberHasRoomKeys | connection_manager.go:573-592 | a member admitted by the handshake its client wrote, with no secret in flight, has the room's keys |
| EndToEnd.MembersUnderstandEachOther | connection_manager.go:858-886 | in every reachable state what one settled member sends, under any alias it goes by that is not empty once sanitised, the relay passes on byte for byte and any other settled member verifies and decrypts |
| EndToEnd.MessageIsQueued | server.go:851-931 | that line is put at the end of the queue of exactly those other members whose connection is managed, not shut down and has fewer than 1024 messages waiting |
| EndToEnd.QueuedMessageReadExactlyWhen | server.go:632-641 | a member that reads it in any later settled state accepts it if and only if the room's HMAC keys of then and now sign it alike, and decrypts it if the secret is still the same |
| Server.Server.CreateRoom | server.go:505-546 | computes the machine's Create step and keeps the invariant |
| Server.Server.IsAliasTaken | server.go:359-369 | the loop finds an alias in use, case folded, exactly when a member has it |
| Server.Server.Check | server.go:317-376 | the checks of a JOIN give the verdict of the admission specification |
| Server.Server.JoinRoom | server.go:548-605 | opens the room if there is none, enters the peer, sends it the room's secret |
| Server.Server.HandleJoin | server.go:270-383 | a parsed JOIN computes the machine's Join step and keeps the invariant |
| Server.Server.HandleFrom | server.go:385-415 | a FROM line changes the sender's alias and is re-emitted exactly when it is well formed and signed under the room's keys; otherwise nothing changes |
| Server.Server.FindByAlias | server.go:668-681 | finds a member with the alias if and only if there is one |
| Server.Server.RotateRoomSecret | server.go:607-651 | the loop over the remaining members writes the new secret to each exactly once, and to nobody else |
| Server.Server.HandleKick | server.go:655-702 | evicts if and only if the requester is the operator or the address that owns the room, and a member has the alias; otherwise nothing changes |
| Server.Server.HandleBan | server.go:706-771 | the same, with the ban list entries added before the rotation |
| Server.Server.ForgetAliases | server.go:833-843 | the loop that deletes from the map it walks drops exactly the aliases banned under the device, in any order |
| Server.Server.HandleUnban | server.go:773-849 | if the requester is the operator or the address that owns the room, clears exactly what the target form names and returns the drop in the ban list's size; otherwise nothing changes |
| Server.Server.LeastAddress | server.go:942-947 | the loop over the remaining members finds the least address, in any order |
| Server.Server.RemovePeer | server.go:933-993 | computes the machine's reader exit and keeps the invariant |
| Outbound.RunConserves | connection_manager.go:127-139 | for every interleaving, bytes written, bytes a failed write lost, batch and queue are in this order exactly the accepted messages; nothing is lost before shutdown; the queue keeps its bound |
| Outbound.StepRefines | connection_manager.go:635-661 | step for step the coalescing writer does what a writer with one write per message does, a flush being as many single writes as the batch has messages |
| Outbound.RunRefinesSimple | connection_manager.go:635-661 | every state of every run without a partly failed write is one the one-write-per-message writer reaches from the same accepted messages |
| Outbound.FailureInMidMessage | connection_manager.go:652-657 | when a write of a run fails, the wire holds the messages delivered before, some whole messages of the batch and at most the beginning of one more, of what was accepted in order |
| Outbound.PeerReadsAcceptedLines | connection_manager.go:673-690 | what the peer reads at newlines is in every state a prefix of the accepted lines, and while the writer waits all of them but those queued |
| Outbound.ClosedForGood | connection_manager.go:127-139 | once shut down a connection stays so, and from then on accepts at most the messages that had passed their first look at that moment |
| Outbound.ManagedConnection.Enqueue | connection_manager.go:127-139 | never blocks; accepts exactly when not done and below the bound, and then adds the message at the end |
| Outbound.ManagedConnection.WriteLoopTurn | connection_manager.go:635-661 | one turn writes everything queued or arriving before the queue is seen empty, in order, in one write |
| Broadcast.Pool.BroadcastToRoom | server.go:851-931 | every member but the sender is enqueued to, dropped or written to directly, and is enqueued to exactly when its queue is open with fewer than 1024 messages; those queues grow by the line, no other changes, and the counts add up to the members less the sender |
| Broadcast.CopiesExactly | connection_manager.go:127-139 | the three outcomes and the new queues for every pool and membership, from what each queue holds |
| HealthCheck.PendingPingsOwned | connection_manager.go:415-477 | at every step every pending ping's address is connected, in the tick's copy to be pinged, or a ping goroutine's still to run |
| HealthCheck.PromptPeerNeverReaped | connection_manager.go:431-434 | if PINGs are written less than 5 s after their tick, a peer whose every PONG comes within 10 s of its PING is never removed by timeout |
| LatePings.LatePingReapsPrompt | connection_manager.go:440-475 | for a delay of 5 s or more, a run that meets every other assumption and removes such a peer with its PONG not yet due |
| LatePings.PromptReapedExactlyWhen | connection_manager.go:428-475 | some run with pings delayed up to a bound removes a peer that always answers in time if and only if the bound is 5 s or more |
| HealthCheck.SilentPeerRemoved | connection_manager.go:444-452 | however long goroutines and their writes are held up, a silent peer's connection is gone by the end of the first tick more than 10 s after its ping was marked, the third one |
| HealthCheck.MarkedThisTick | connection_manager.go:440-441 | right after the pass that marks it a ping is as old as its tick, which is where the theorem above starts |
| HealthCheck.PassFinds | connection_manager.go:428-442 | a tick finds overdue exactly the addresses of its copy pending for more than 10 s, and marks exactly those of it not pending |
| HealthCheck.HealthChecker.MarkPass | connection_manager.go:428-442 | the locked loop over the copy computes exactly the timed-out and the newly marked addresses, in any order |
| HealthCheck.HealthChecker.Ping | connection_manager.go:454-475 | the ping goroutine's three outcomes, the pending mark going with a missing or failing connection |
| JoinLine.JoinRoundTrip | server.go:270-315 | for all fields, the relay reads back the client's room, alias, password and device ID if and only if no field has a bar or newline, the last does not end in white space, and the length of a lone third field does not mislead it |
| JoinLine.LongPasswordIsLost | server.go:282-291 | in that case the password becomes the device ID and the room is joined without a password |
| FromLine.SanitiseMembers | helpers.go:28-33 | sanitising keeps exactly the characters other than bar and line ends, and twice is once |
| FromLine.SanitiseBoth | helpers.go:28-33 | sanitising goes piece by piece, so what stays keeps its order and number |
| FromLine.RelayIsVerbatim | server.go:385-415 | every line the relay accepts it re-emits byte for byte, for a member if and only if the line's alias is not empty; a receiver on the same keys then finds the same fields and accepts |
| FromLine.EmptyAliasIsUnreadable | server.go:851-872 | the line of a sender with no alias left is re-emitted under its address, and no receiver on the same keys accepts it, unless HMAC collides on the two lines |
| FromLine.SignedMessageCrosses | connection_manager.go:858-886 | for every text and non-empty sanitised alias the line Send builds passes the relay verbatim and decrypts to the sanitised text |
| MessageCrypto.DecryptUndoesEncrypt | crypto.go:25-67 | keys that share the encryption key undo each other's encryption, whatever the nonce |
| MessageCrypto.VerifyAcceptsSign | crypto.go:70-86 | keys that share the HMAC key accept each other's signatures |
| MessageCrypto.DecryptedExactlyWhen | crypto.go:44-67 | a payload decrypts to a text if and only if it is base64, at least a nonce long, and AES-GCM opens the rest under that nonce to it |
| Framing.FramingRoundTrip | raw_mini/tcp_raw.go:78-95 | reading the concatenation of written frames gives the messages and then EOF if and only if every length is below 2^32 |
| Framing.FrameReadBackExactlyWhen | raw_mini/tcp_raw.go:78-95 | one message comes back if and only if its length fits; a longer one comes back as its first bytes, the rest being read as frames |
| Framing.CutStreamYieldsPrefix | raw_mini/tcp_raw.go:86-95 | a stream cut anywhere yields a prefix of the messages and never a wrong one |
| Framing.EndReadsAsCleanExactlyWhen | raw_mini/tcp_raw.go:86-95 | the end of a cut stream is reported as clean if and only if the cut is between two frames or right behind a header |
| Framing.LoneHeaderReadsAsClean | raw_mini/tcp_raw.go:216-222 | the header of a non-empty message and nothing more is reported as a clean end |
| Framing.PooledEcho | raw_mini/speed_bench/speed_bench.go:165-179 | the pooled echo loop stays in bounds if and only if all payloads have at most 4996 bytes, and then its client reads back every payload after the tag, in order |
| Framing.FreshEcho | raw_mini/tcp_raw.go:213-231 | the TCP echo loop never panics; its answers read back if and only if payload and tag fit the prefix |
| FramedStream.Reader.ReadFull | raw_mini/tcp_raw.go:86-95 | under any chunking the loop fills the buffer with the next bytes of the stream, or reports which kind of early end it met |
| FramedStream.ReadMsg | raw_mini/speed_bench/speed_bench.go:72-88 | with a pooled header and a reused buffer, whatever they held, the result is the one a fresh buffer would give |
| FramedStream.WriteMsg | raw_mini/speed_bench/speed_bench.go:61-69 | writes one frame exactly when it fits the pooled buffer, and nothing otherwise |
| FramedStream.HandleStream | raw_mini/speed_bench/speed_bench.go:165-179 | the loop with one growing buffer computes the echo specification on any stream under any chunking |
| FramedStream.HandleConnection | raw_mini/tcp_raw.go:213-231 | so does the loop with fresh buffers |
| ExpiringTables.AcceptsAreApart | replay.go:30-59 | two accepts of one key are always more than maxAge apart |
| ExpiringTables.NoncesAreApart | replay.go:30-59 | two accepts of one nonce on a connection are more than five minutes apart |
| ExpiringTables.PresentedIsAccepted | replay.go:30-38 | in every run a key presented is accepted if not accepted within the last maxAge plus a period, and refused if within the last maxAge |
| ExpiringTables.VerdictMeans | replay.go:30-59 | a key is refused only if accepted within the last maxAge plus a period, and accepted only if not within the last maxAge |
| ExpiringTables.ForgottenInTime | connection_manager.go:399-413 | the dedup table holds no key longer than 90 s, the replay table none longer than 6 min |
| ExpiringTables.DuplicatesSuppressed | connection_manager.go:384-397 | a sender/text pair is displayed again only after more than 60 s, and suppressed only if that very pair was displayed within 90 s |
| ExpiringTables.ExpiringTable.Check | replay.go:30-38 | true exactly for a key not in the table, and then no accept of it lies within maxAge |
| ExpiringTables.ExpiringTable.Cleanup | replay.go:41-59 | the sweep keeps exactly what is not older than maxAge, and the table stays faithful to its history |
| Sweeping.Expire | connection_manager.go:403-410 | a loop that deletes from the map it walks keeps exactly the entries not before the cutoff, in any order |
| Discovery.HeardIsLastHeard | discovery.go:161-172 | the timestamp kept for an address is that of its last announcement of our room |
| Discovery.SoftState | discovery.go:233-251 | an address heard in the last 15 s is listed, one silent for more than 18 s is not, and a listed relay is a listed peer with no later timestamp |
| Discovery.RelaySoftState | discovery.go:161-172 | an address that announced as a relay in the last 15 s is listed as one with that very time, and one that has not for more than 18 s is not |
| Discovery.NeverRelayed | discovery.go:161-172 | an address that never announced as a relay is not listed as one |
| Discovery.UnheardIsAbsent | discovery.go:157-172 | an address that never announced our room, or is our own, is in neither table |
| Discovery.DiscoveryService.Listen | discovery.go:135-180 | a packet counts exactly when it announces our room from an address not our own |
| PeerList.DeduplicatedMembers | discovery.go:378-400 | a loopback address survives exactly when there is no routable one, all others always do, and the list never comes out empty |
| PeerList.FilteredInOrder | discovery.go:378-400 | lists are filtered piece by piece, so what survives keeps its order and number |
| PeerList.DeduplicatePeers | discovery.go:378-400 | filtering inside the array being read gives the specified list |
| KnownPeers.AppendAddsPin | connection_manager.go:299-310 | an entry appended to a finished file adds its pin on reload and changes nothing else |
| KnownPeers.FirstTwoCount | connection_manager.go:276-287 | of a line of two or more words the first is pinned to the second, whatever follows |
| KnownPeers.CommentAddsNothing | connection_manager.go:278-281 | a line whose first character other than white space is '#' pins nothing |
| KnownPeers.AppendToUnfinished | connection_manager.go:276-287 | the line that results when an entry follows an unfinished line does not pin that entry |
| Tofu.PinStays | connection_manager.go:235-258 | a pin never changes once set |
| Tofu.FirstContactDecides | connection_manager.go:243-249 | after one accepted contact an address is accepted again if and only if it shows the same fingerprint |
| Tofu.AppendedOnce | connection_manager.go:251-256 | the file is what it was plus one entry for each new address whose append succeeded, no address twice |
| Tofu.ReloadAgreesExactlyWhen | connection_manager.go:260-310 | reloading gives the pins in memory less those whose append failed, if and only if the file had no unfinished last line or no new address was first contacted while the file could be appended to |
| Tofu.UnfinishedLineGarbles | connection_manager.go:299-310 | after any contacts that append to a file with an unfinished last line, the first pin appended is in memory and reloading does not give it |
| Tofu.ReloadGivesMemory | connection_manager.go:260-310 | with no failed append and a finished or empty file, reloading gives exactly the pins in memory |
| Tofu.PinStore.LoadKnownPeers | connection_manager.go:260-293 | the scanning loop reads the pins the format specifies, a missing file being no error |
| Tofu.PinStore.CheckAndPin | connection_manager.go:235-258 | computes one contact of the machine; refuses exactly a fingerprint other than the pinned one |
| RttTracker.IdsDiffer | loadtest/main.go:1183-1184 | no two messages of a test share an ID, whatever the alias prefix |
| RttTracker.DeliveriesConserved | loadtest/main.go:1117-1144 | over any interleaving, deliveries plus outstanding entries are exactly the messages registered, each delivery has its round-trip time, and no message is delivered twice or unregistered |
| RttTracker.RttIsElapsed | loadtest/main.go:1133-1141 | in every run a matched line adds to its reader's list the time since that very message was sent, and a line that matches nothing changes nothing |
| RttTracker.GlobalTracker.Register | loadtest/main.go:1183-1191 | registers an ID that is neither outstanding nor delivered |
| RttTracker.GlobalTracker.FindMatch | loadtest/main.go:1117-1132 | the two-step search for an outstanding ID |
| RttTracker.GlobalTracker.HandleLine | loadtest/main.go:1117-1144 | takes the matched ID out and counts it, once |
| LoadLines.EchoMatchedExactlyWhen | loadtest/main.go:1257-1270 | a message echoed verbatim is matched to its own ID if and only if the payload has room for the ID |
| LoadLines.PayloadSizeExactlyWhen | loadtest/main.go:1257-1270 | a payload has the size asked for if and only if that is not one more than the length of its ID |
| LoadLines.WrappedMatchedExactlyWhen | loadtest/main.go:1126-1132 | the same through a relay that puts a header of its own in front |
| LoadLines.ShortPayloadIsMisattributed | loadtest/main.go:1257-1270 | a truncated ID can be counted as another message's delivery |
| LoadLines.RelayDropsLoadLines | server.go:391-396 | the relay drops every line the load test sends |
| Statistics.NearestRank | loadtest/main.go:1335-1347 | the percentile is the least value in the list with at least p hundredths of the list at or below it, for p from 1 to 100, and the first or last outside |
| Statistics.PercentileOfUnsorted | loadtest/main.go:1335-1347 | the same about the values in the order they were given |
| Statistics.AverageIsMean | loadtest/main.go:1321-1333 | the average is the sum of the values as given divided by their number, zero for none |
| Statistics.SortedUnique | loadtest/main.go:1307 | two sorted arrangements of the same values are equal, so the sorting algorithm does not matter |
| Statistics.Stats | loadtest/main.go:1321-1333 | the loop computes the mean of the values given and their 95th percentile, zero for none |
| Aggregates.AggregateResults | loadtest/main.go:1272-1319 | the loop over the peers gives the aggregate of all their results, throughput included |
| Aggregates.FiguresAre | loadtest/main.go:1306-1313 | the five figures are the least, the greatest and the 50th, 95th and 99th percentile of all round-trip times measured, and min <= p50 <= p95 <= p99 <= max |
| Aggregates.TimesAre | loadtest/main.go:1289-1304 | dial and join figures are the mean and 95th percentile of all peers' times; the counts are the totals |
| Aggregates.CollectsBoth | loadtest/main.go:1272-1287 | totals are added up and times strung together over any split of the peers |
| Aggregates.ThroughputIs | loadtest/main.go:1315-1316 | throughput times peers times seconds is the number, and the kilobytes, of messages sent; it is given exactly when both are not zero |
| Aggregates.PeerOrderIsIrrelevant | loadtest/main.go:1272-1319 | the aggregate is the same for every order of the peers |

## Left out

- Sockets, QUIC, TLS, certificates, UPnP, STUN, rendezvous, dialling, logging, the command line and files other than the known-peers file.
- Heap identity of Room and Peer objects: rooms and connections are rows of maps under identities, updated in place as fields of the Server class, so aliasing of two references to one object appears as two uses of one identity.
- System notices in the relay protocol: lines other than SECRET, AUTH:FAILED and eviction notices are not on the modelled wires, since clients change no keys on them; broadcasting is modelled by itself in Broadcast.
- The relay's own ConnectionManager keys, which every rotation overwrites with those of the room rotated last (server.go:644-650), and local display of messages by the relay.
- Moderation commands reach the Server class already split into requester, room and target; the MSG and SYSTEM commands, which broadcast unsigned text, are not modelled.
- Uniqueness of aliases, which a FROM line may break at any time: it is a check at JOIN only, over an opaque case-folding comparison.
- Server.Close and ConnectionManager.Close, with their sleeps and timeouts.
- Outbound.ManagedConnection.WriteLoopTurn: a turn starts with a message queued; the wait for one and the return on done are steps of the machine only, where select may take either when both are ready.
- HealthCheck: removal of a timed-out peer and of its pending mark is one step, and a ping goroutine looks its connection up and writes in one step.
- Discovery queries and their answers, the announcing loop, and the two room-listing calls.
- Tofu: a failed append leaves the file as it was, and lines longer than the scanner's 64 KB are not modelled.
- FramedStream: io.Reader delivers at least one byte unless the stream has ended, and a write never fails.
- Aggregates: a throughput divided by zero peers or seconds is None here, infinite or no number in the program; how errors are classified before they are counted.
- Floating-point rounding in ranks and averages.
- The other benchmark programs, which copy the framing above, and charting scripts.
