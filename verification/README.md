# Verification of the messenger's core logic

This project models, in Dafny, the parts of the messenger whose correctness is hardest to
see from one function at a time, and proves what the code and its documentation promise of
them. `dafny verify dfyconfig.toml` checks everything.

**Replicated conversation log.** The server numbers the rows of a conversation, replaces a
deleted message by a record at a new number, purges by age and clamps each member to a
window (`ServerLog`, `ServerRuns`, `ServerLaws`, `Database`). A device folds rows into a store, and into
a list on screen, mixing paged backfills with live frames (`History`, `Replication`,
`Screen`, `SyncClient`, `Backfill`). A frame that a backfill already covered is handled
again, which puts edited text back or resurrects a deleted message for a while.
`Replication.Good` says exactly how far a store may be off while frames are still to come,
every step keeps it (`Convergence`), and a device that has caught up holds the messages of
the plain fold of the whole history, each with its final text unless the row of its last
edit was deleted. `Compaction` says exactly when a device that reads only what deletions
have left has the same texts, `Drops` exactly which frames a lost connection may lose,
`Mending` exactly when the rest of the log makes up for lost ones, and `Runs` that catching
up ends. `ServerHistory` and `EveryHistory` show that the histories this needs are exactly
those that runs of the server leave, and that the page query lists exactly the rows it is
read as. `Roster`, `Names` and `NameRuns` cover membership and names under every
interleaving, `Members` and `Retention` recipients and expiry; `Handlers` puts parsing,
storing and fan-out together.

**Voice mesh.** Any number of devices join, leave, reload, beat and receive each other's
broadcast signals in any order (`Voice`, `VoiceMesh`, `VoiceRuns`, `VoiceRosters`,
`VoicePeers`, `VoiceClient`).

**Envelope.** One wire format, two writers (appending, and in place at offsets) and two
parsers (`Wire`, `GoEnvelope`, `WebEnvelope`, `Envelopes`, `Ids`, `Bytes`). The
primitives are functions known by laws only: agreement (section 6.1 of RFC 7748), AEAD
(section 2.8 of RFC 8439) and signatures; `Crypto.Toy` obeys the laws, so they are
consistent.

**Timed tables.** The rate limiter, the last-seen table and the challenge store each forget
entries; each is proved to answer over every run like a reference that forgets nothing
(`Limiter`, `Forgetting`, `LastSeen`, `Challenges`).

**Indexes and links.** The hub's two connection indexes (`Hub`) and the invite link
(`Invite`).

## Assumptions

- One server transaction, one handler of a device and one page of a backfill are each one
  step; a row's commit and its fan-out are one step; frames of one connection arrive in
  order without gaps; decoding a row is a fixed function of the row.
- The convergence results are without purging and expiry. They hold for runs that lose no
  frame the device still needs; `Drops.LosingFramesExactly` shows that the frames a run may
  lose, `Replication.FramesSpare`, are the right ones.
- The results on names under interleaving hold for every history and every run, lost frames
  included, but one: no backfill is given up between two pages when a row it has passed, one
  that names the conversation or sets its roster, was deleted by a record it has not reached.
- Clocks do not go back, and time, tokens and the client's numbers are reals or integers
  without rounding, except where `WebEnvelope.ToNumber` rounds.
- The network of the voice mesh neither loses nor repeats a signal, connections do not
  fail, and no participant expires.

## What does not hold, and exactly when

- A late device does not always agree with one that saw every row: the server lets the row
  of an edit be deleted. It agrees exactly when the last edit left to read of every edited
  message says what its last edit said (`Compaction.CompactionPreservesMeaning`;
  `Convergence.DeletedEditDiverges` is an instance).
- A connection lost while frames that a backfill covered are still to come can leave wrong
  text, or a deleted message, for good: exactly when those frames are not spare
  (`Drops.LosingFramesExactly`, `Drops.LostForGood`; `Drops.DropWhileReplayingDiverges` is an
  instance). Where the log goes on, the rows the device reads later make up for lost frames
  exactly when these would have removed no message again, and every message they would have
  rewritten is removed or edited later (`Mending.LosingFramesMendsExactly`;
  `Mending.LaterEditMends` is an instance).
- The name of a conversation is not the newest one even when all frames have been handled: a
  rename counts only above the number of the roster in force, and a deleted rename is missed
  by a device that reads the table later. `NameRuns.NamesExactly` says which names a device can
  end with, in terms of the log alone: that of a row after which every naming row is gone, or
  of one that is handled again with no roster above it, every naming row read later being
  gone. If no name is lost, a roster read later must have outranked every naming row there
  was. The name is the newest one on every run exactly when all these rows give that name
  (`NameRuns.NameIsNewestExactly`; `NameRuns.OldNameCanStay` and
  `NameRuns.DeletedNameCanBeMissed` are instances).
- A voice channel's list can name a session that has left: exactly when the device has heard
  of it and what it heard last was not the leave (`VoiceRosters.QuietListsExactly`). It cannot
  where no leave overtakes its session's joins and heartbeats (`VoiceRosters.ListsAreExact`).
  The same goes for a connection to a session that has left, whose offer may have been
  overtaken as well (`VoicePeers.PeersWereHeardOf`, `VoicePeers.PeersAreExact`).
- A device that reads only surviving rows has another roster exactly when the newest
  membership event was deleted and the newest that survives names other members
  (`Roster.LateDeviceRoster`, with the instance `Roster.LateRosterDiffers`), and another name
  exactly when the newest rename was deleted and the newest that survives gives another title
  (`Roster.LateDeviceName`, with the instance `Roster.LateNameDiffers`). The server can make
  these histories, and that of `Convergence.DeletedEditDiverges`
  (`EveryHistory.DivergencesAreMade`).
- The limiter's forgetting shows exactly when ten minutes do not refill a bucket, which they do
  as configured (`Forgetting.ForgettingNeedsRefill`, `Limiter.ConfiguredRefills`).
- A client id is free again once its message is deleted (`ServerRuns.DeletedIdIsFree`).
- The client reads a timestamp of 2^53 and above inexactly unless it is a multiple of the
  spacing of doubles there (`WebEnvelope.ReadExactly`, `WebEnvelope.FirstMisread`).

## Where the code and its documentation part

- `web/src/state/voice.ts:403-404` says session ids are UUIDv7, so the earlier participant
  offers. `web/src/crypto/ids.ts:22-24` draws random ids. The proofs use only that ids
  differ and are ordered, so whoever has the smaller id offers.
- `protocol/PROTOCOL.md:157` calls the client id unique per sender. The code keeps it unique
  among surviving rows only. The proofs assume and establish no more than that.

## Model

| member | source | states |
|---|---|---|
| History.Original | web/src/store/db.ts:159-162 | The message an edit names is the first one in key order with that author and client id, if there is one. |
| History.FoldHolds | web/src/state/sync.ts:379-411 | The fold of n rows holds exactly the posts after the joining point that no record has removed, each unchanged but for its text. |
| History.LastEdit | web/src/state/sync.ts:442-447 | The row that last rewrote a message lies after it. |
| History.OneCandidate | web/src/store/db.ts:158-162 | Of two messages with one author and client id at most one is undeleted, so an edit has one target. |
| Replication.ReplayKeeps | web/src/state/sync.ts:249-260 | Handling again the oldest frame still to come leaves the store repairable by the frames after it. |
| Replication.AdvanceKeeps | web/src/state/sync.ts:379-475 | Handling the next new row keeps the store repairable, whether or not older frames are still to come, for every history the server can make. |
| Replication.GoodIsExact | web/src/state/sync.ts:379-475 | A store with nothing to repair has the messages of the plain fold, with their final texts but where the row of the last edit was deleted. |
| Replication.AgreesExactly | web/src/state/sync.ts:379-475 | Where no such row was deleted, that is being the plain fold. |
| Replication.SpareFramesKeep | web/src/state/sync.ts:249-260 | A store that waits for frames that do nothing it needs is as good without them. |
| Screen.ReplayKeepsShown | web/src/state/sync.ts:390-393 | The list on screen, which skips a row it has, stays repairable under replay too. |
| Screen.AdvanceKeepsView | web/src/state/sync.ts:390-393 | A new row keeps store and list repairable together. |
| Screen.ForgettingKeepsView | web/src/state/sync.ts:468-475 | Forgetting a message locally as soon as the server deleted it keeps them so. |
| Screen.HandledExactly | web/src/state/sync.ts:384-393 | What handling a row does to store and list, for every kind of row: a record removes its target, an edit rewrites the sender's first message under that client id if it is an older text, a malformed edit does nothing, everything else is stored as sent, and listed unless its number is. |
| Convergence.SurvivorsAreRows | internal/store/messages.go:139-159 | Every surviving row is listed. |
| Convergence.RowsReachTheEnd | internal/store/messages.go:174-207 | The newest row is never deleted, so the list of survivors ends with it. |
| Convergence.PagesConcatenate | internal/api/handlers_messages.go:160-181 | Reading page after page lists the rows one unlimited read lists. |
| Compaction.CompactionPreservesMeaning | internal/store/messages.go:171-207 | From any position, folding only the rows still in the table gives the messages of folding every row, and the same text for a message exactly when its last edit left to read says what its last edit said. |
| Compaction.TextSaysTheLastEdit | web/src/state/sync.ts:441-447 | In the fold a text says what its author's last edit of it says, or what was posted if there is none, and is marked as edited exactly when there is one. |
| Convergence.StepKeeps | web/src/state/sync.ts:235-260 | Appends, connections, lost connections, pages, failures, live frames, opening and forgetting all keep the repair invariant, as long as only spare frames are lost. |
| Convergence.Converges | web/src/state/sync.ts:235-354 | After any run a device that has caught up stores and shows the messages of the plain fold, with their final texts but where the row of the last edit was deleted; where none was, the plain fold itself. |
| Convergence.AlwaysRepairable | web/src/state/sync.ts:235-354 | At every step of every run, replaying the frames still to come gives the same on store and screen. |
| Convergence.BackfillReachesTheEnd | web/src/state/sync.ts:235-247 | The last page leaves the device at the newest row of the log it was read from. |
| Convergence.RepeatsAreNotShown | web/src/state/sync.ts:390-393 | Handling again messages that are listed leaves the list as it is, whatever they put back in the store. |
| Convergence.DeletedEditDiverges | web/src/state/sync.ts:442-466 | A concrete history in which an edit's row is deleted and a late device shows other text. |
| Runs.CatchingUpEnds | web/src/state/sync.ts:235-260 | From every reachable online state in which no frame was lost behind one that waits, any run of page reads and frames is finite, never gets stuck, and ends with the device caught up with every row the server has. |
| Runs.GivingUpIsSafe | web/src/state/sync.ts:249-260 | Where frames were lost behind one that waits for its backfill, that backfill failing and another one makes the state one of those. |
| Drops.LosingFramesExactly | web/src/state/sync.ts:249-260 | The frames still to come may be lost exactly when they are spare: otherwise some allowed run ends there with a copy that differs. |
| Drops.LostForGood | web/src/state/sync.ts:76-82 | When frames that are not spare are lost, the device that reconnects is up to date by its own count and holds a wrong message, on every later run that does not touch that message. |
| Drops.DropWhileReplayingDiverges | web/src/state/sync.ts:249-260 | A message and its edit: lost after the message was handled again, the edit is not spare, and a run leaves the old text. |
| Mending.LosingFramesMendsExactly | web/src/state/sync.ts:235-260 | When frames are lost before the log has ended, every device that reads the rest agrees with the log exactly when each message is one the frames would not have removed again, and is removed or edited later or not touched by them. |
| Mending.LaterEditMends | web/src/state/sync.ts:442-447 | Two edits of a message: the frame of the first is not spare before the second is stored, and losing it is made good by reading the second. |
| SyncClient.Client.MessageByClientId | web/src/store/db.ts:158-162 | The loop in key order finds exactly that message. |
| SyncClient.Client.MessagesFor | web/src/store/db.ts:168-171 | The list is the store in strictly ascending order. |
| SyncClient.Client.DeleteMessagesBefore | web/src/store/db.ts:183-196 | Keeps exactly the messages at or after the cutoff and counts those it deletes. |
| SyncClient.Client.SetMessageBody | web/src/state/sync.ts:449-459 | Rewrites a stored text and its mark in the store and where the list shows it, and nothing else. |
| SyncClient.Client.ApplyEdit | web/src/state/sync.ts:441-447 | An edit is one step of the fold, on store and screen. |
| SyncClient.Client.RemoveLocalMessage | web/src/state/sync.ts:468-475 | The message is gone from both and nothing else changes. |
| SyncClient.Client.AdvanceSilently | web/src/state/sync.ts:487-497 | Positions move to at least the row; the read mark only past a row that directly follows it. |
| SyncClient.Client.ApplyStored | web/src/state/sync.ts:379-428 | An expired row changes nothing, not even the position; any other is one step of the fold and of the conversation's record. |
| SyncClient.Client.HandleIncoming | web/src/state/sync.ts:309-354 | The same for any row, deletion records included, which do not expire. |
| SyncClient.Client.EffectiveRetention | web/src/state/sync.ts:516-522 | The client computes the server's effective retention. |
| SyncClient.Client.PurgeExpired | web/src/state/sync.ts:529-547 | Store and list lose exactly the messages the server's rule expires. |
| SyncClient.TimersDecide | web/src/state/sync.ts:517-522 | A stored message stays exactly when it is older than no timer that is set, to the millisecond. |
| SyncClient.Client.EnsureMessagesLoaded | web/src/state/sync.ts:549-553 | The first opening lists what is stored; later ones change nothing. |
| Lines.Insert | web/src/state/sync.ts:390-393 | Adding a message the list lacks keeps it sorted and adds that message only. |
| Lines.Replace | web/src/state/sync.ts:456 | Replaces one message in place. |
| Lines.Filter | web/src/state/sync.ts:472 | Keeps exactly the messages that pass, in order. |
| Backfill.HandleRows | web/src/state/sync.ts:240-243 | Handling a page's rows in turn is applying those that have not expired to store, screen and record. |
| Backfill.PassedOver | web/src/state/sync.ts:516-527 | A row is passed over exactly when it is older than the conversation's timer or than the server's limit in days. |
| Backfill.Backfill | web/src/state/sync.ts:235-247 | The loop ends; it handles once each, ascending, only rows of the table after the start and every one still there at the last request, passing over expired ones; with none expired and nothing pending the copy agrees with the log that request found. |
| Backfill.StillLogIsListed | web/src/state/sync.ts:235-247 | While the log stands still it handles exactly the surviving rows after the start. |
| Backfill.OnLiveMessage | web/src/state/sync.ts:249-260 | A frame past a gap first catches up; any frame, covered or not, is then handled; with no row expired the copy is good for the frames after it and agrees with the log at its newest row. |
| Roster.RosterIsNewest | web/src/state/sync.ts:397-415 | In any order and with any repetition the roster is that of the membership event with the greatest number. |
| Roster.OrderDoesNotMatter | web/src/state/sync.ts:397-415 | Two devices delivered the same rows agree on the roster. |
| Roster.PositionsGrow | web/src/state/sync.ts:396-424 | Positions and the read mark never go back under any delivery. |
| Roster.PositionsAreRows | web/src/state/sync.ts:397 | Each position is one it was before or the number of a row that came, so with PositionsGrow the greatest of them. |
| Roster.RosterMoves | web/src/state/sync.ts:399-415 | A membership event above the number in force replaces roster and number with its own; nothing else touches them. |
| Roster.ReadMoves | web/src/state/sync.ts:421 | The read mark goes to the number of an own message above it, and of a silent row exactly when that directly follows it; nothing else moves it. |
| Roster.UnreadUntilSpoken | web/src/state/sync.ts:421 | Over any delivery somebody else's message above the mark is read afterwards exactly when an own message above it came. |
| Roster.NameIsLastTaken | web/src/state/sync.ts:400-412 | Under any delivery the name is that of the last frame that names the conversation with a number above the roster it finds, or the old name if there is none. |
| Roster.NameFollowsDelivery | web/src/state/sync.ts:410-412 | Of any two renames, the older handled again wins while no roster outranks it. |
| Roster.NameIsNewestInOrder | web/src/state/sync.ts:400-412 | In particular, delivered in ascending order above the roster in force, the name is the last one given. |
| Roster.LateDeviceRoster | web/src/state/sync.ts:397-415 | A device that reads only surviving rows has the number of the roster exactly when the newest membership event was not deleted, and the roster itself exactly when it was not or the newest that survives names the same members. |
| Roster.LateRosterDiffers | internal/store/messages.go:171-207 | Two membership events and a record that removes the newer: a late device has the older roster, one that saw every row the newer. |
| Roster.LateDeviceName | web/src/state/sync.ts:397-415 | A device that reads only surviving rows has the name of the newest surviving rename, and that is the name of one that saw every row exactly when there was no rename, the newest was not deleted, or both give one title. |
| Roster.LateNameDiffers | internal/store/messages.go:171-207 | Two renames and a record that removes the newer: a late device has the older name, one that saw every row the newer. |
| Names.KnownStep | web/src/state/sync.ts:235-260 | Every step keeps what a device knows: the newest roster but for deleted ones, and a name from a row after which every naming row is gone or from a stale rename; where no name is lost, a stale one that a frame to come replaces or that a later roster has locked in. |
| NameRuns.NamesExactly | web/src/state/sync.ts:397-415 | For every history, joining point and record: a device can catch up and show a name exactly when it is the name of a row that the log lets have the last word, with lost names and without. |
| NameRuns.NameIsNewestExactly | web/src/state/sync.ts:397-415 | Every device that has caught up shows the newest name exactly when every such row gives that name. |
| NameRuns.OldNameCanStay | web/src/state/sync.ts:410-412 | Two renames and a membership event: one run ends with the old name and one with the new, though neither loses a name. |
| NameRuns.DeletedNameCanBeMissed | internal/store/messages.go:171-207 | Two renames and a record that removes the newer: one run ends with the old name and one with the new. |
| Members.SealedTo | web/src/state/messaging.ts:17-28 | Sealed to: oneself, bots of the server list the device knows as such, and whom both roster and server list name. |
| Members.SealedOnce | web/src/state/messaging.ts:17-28 | Nobody twice exactly when the roster names no current member twice. |
| Members.RepeatedRosterRepeats | web/src/state/messaging.ts:18-20 | A signed roster that repeats a member makes the recipient list repeat it. |
| Members.SealedOrUnverified | web/src/state/messaging.ts:30-34 | With a roster, every other server member is either sealed to or reported unverified, never both. |
| Members.SealingMembers | web/src/state/messaging.ts:17-28 | The loops compute that list. |
| Members.RecipientsFor | web/src/state/messaging.ts:36-45 | Succeeds exactly when every member has a known, unchanged key; otherwise names the first that has not, and why. |
| ServerRuns.RunKeeps | internal/store/messages.go:99-207 | Over every run of all operations the tables stay consistent: numbers count the rows ever inserted, survivors lie in 1..last_seq, records point back to rows that are gone, sender and client id are unique, windows are ordered. |
| ServerRuns.DoKeeps | internal/store/conversations.go:51-327 | Every single operation keeps that invariant and only lets the log grow. |
| ServerRuns.NumbersAreNotReused | internal/store/messages.go:118-131 | A number names one row for ever, across appends, deletions and purges. |
| ServerRuns.SendIsIdempotent | internal/store/messages.go:109-117 | Sending again while the row survives changes nothing and returns its number; in another conversation it is refused without change. |
| ServerRuns.FirstSendIsStored | internal/store/messages.go:118-136 | A first send is stored under the next number. |
| ServerLaws.ValidateSendExactly | internal/store/messages.go:59-88 | A send is let through exactly when its sender and everyone it is addressed to are members; who is none is told so, an outsider addressed refuses it otherwise. |
| ServerLaws.AppendExactly | internal/store/messages.go:99-137 | Every answer of a send and the state after it: which refusal, the number of the surviving row, or the row as it was sent under the next number and nothing else changed. |
| ServerLaws.DeleteExactly | internal/store/messages.go:174-207 | Only a message can be deleted; its row goes, the next number holds a record of who deleted, when, which and whose, and nothing else changes. |
| ServerRuns.ExactlyOnce | internal/store/messages.go:96-137 | A send repeated after any run in which its row survives is reported as a duplicate of the same number. |
| ServerRuns.DeletedIdIsFree | internal/store/messages.go:109-136 | Once a message is deleted its sender can send under its client id again, and gets a new number. |
| ServerRuns.MembershipKeepsWindow | internal/store/conversations.go:202-250 | While a membership lasts, joined_seq stays and read_seq never goes back. |
| ServerLaws.MembersByTheLastWord | internal/store/conversations.go:51-238 | Over every run an account is a member exactly when the last operation that spoke of its membership made it one. |
| ServerLaws.OwnersMadeTheirGroups | internal/store/conversations.go:77-98 | Over every run only who made a group owns it, and nobody owns a direct conversation. |
| ServerLaws.MarkReadExactly | internal/store/conversations.go:241-250 | The mark goes to the request, no further than the newest row and not back, and is all that changes. |
| ServerLaws.DirectExactly | internal/store/conversations.go:51-74 | The direct conversation there is, or a new, empty one with both accounts and nobody else. |
| ServerLaws.DirectIsFoundAgain | internal/store/conversations.go:42-58 | Whoever of the two asks, and whatever happened since, a pair is given the same direct conversation. |
| ServerLaws.GroupExactly | internal/store/conversations.go:77-98 | A new group is empty, owned by its creator, with everyone named; a taken identifier is refused. |
| ServerRuns.WindowHidesOldRows | internal/store/messages.go:139-159 | The page query returns no row at or before the member's joined_seq. |
| ServerRuns.JoinersSeeOnlyNewRows | internal/store/conversations.go:202-225 | A member never gets a row that was inserted before joining. |
| ServerRuns.ListingIsSound | internal/store/messages.go:139-159 | Listed rows are surviving, ascending and in range. |
| ServerRuns.ListingIsComplete | internal/store/messages.go:139-159 | Below the limit no surviving row is left out. |
| ServerRuns.GroupHasItsMembers | internal/store/conversations.go:77-98 | A group starts with its creator as owner and each named account once. |
| ServerHistory.RunsMakeHistories | internal/store/messages.go:99-207 | After any run without a purge every conversation's log is a history as the device side needs it, and the table holds its undeleted rows. |
| ServerHistory.ServerStepAppends | internal/store/messages.go:99-207 | Every step of the server leaves a conversation's log as it was or appends one row that keeps it such a history. |
| ServerHistory.QueryIsPage | internal/api/handlers_messages.go:160-176 | The limit+1 query, clamped to the member's window, is the page and the has-more flag the device's loop is proved with. |
| ServerHistory.LateDeviceAgrees | internal/store/messages.go:139-207 | End to end: whatever the server did but purge, a device that reads what the table still holds has the messages of one that saw every row, and their texts exactly where the last edit left says what the last edit said. |
| EveryHistory.HistoriesExactly | internal/store/messages.go:99-207 | A sequence of entries is a history as the device side needs it exactly when some run of the server without a purge leaves it as the log of a conversation, as some device decodes it. |
| EveryHistory.DivergencesAreMade | internal/store/messages.go:99-207 | Server runs leave the histories on which a late device has another text, roster or name. |
| Database.DirectKeyNamesThePair | internal/store/conversations.go:42-47 | Two pairs of accounts have one key exactly when they are the same pair. |
| Database.Store.ValidateSend | internal/store/messages.go:59-88 | Lists each member once; refuses a sender or a recipient who is not one. |
| Database.Store.AppendMessage | internal/store/messages.go:99-137 | One step of the log: refusal, duplicate or next number, with the whole new state. |
| Database.Store.Messages | internal/store/messages.go:141-159 | The surviving rows after max(after, minSeq), ascending, at most the limit. |
| Database.Store.Message | internal/store/messages.go:163-169 | A message, or not found for a missing row and for a deletion record. |
| Database.Store.DeleteMessage | internal/store/messages.go:174-207 | One step: the row is gone and a record with its number stands at the next one, or nothing changes. |
| Database.Store.CreateDirect | internal/store/conversations.go:51-74 | The pair's conversation, created once. |
| Database.Store.CreateGroup | internal/store/conversations.go:77-98 | The group with its members, or nothing. |
| Database.Store.MemberAccountIDs | internal/store/conversations.go:185-200 | Exactly the members, once each. |
| Database.Store.MarkRead | internal/store/conversations.go:241-250 | The read position goes to the smaller of the request and last_seq, never back. |
| Database.Store.PurgeExpired | internal/store/conversations.go:268-307 | Removes exactly the expired rows and returns how many. |
| Retention.PurgeDecides | internal/store/conversations.go:284-305 | A row stays exactly when it is older than no timer that is set. |
| Retention.PurgeTwice | internal/store/conversations.go:264-305 | A purge repeated at the same or an earlier time removes nothing. |
| Retention.LaterPurgeRemovesMore | internal/store/conversations.go:264-305 | A later purge removes a superset, and an earlier one in between makes no difference. |
| Retention.PurgesCollapse | internal/store/conversations.go:284-305 | After any purges, in any order and under any limits, the messages left are exactly those that none of them expired. |
| Retention.LastPurgeCounts | internal/api/janitor.go:35-37 | While the clock does not go back and the limit stays, only the last purge counts. |
| Handlers.AcceptedIsAuthentic | internal/api/handlers_messages.go:56-77 | What passes the checks is the serialised form of one envelope of this conversation, sender and device, and the device signed eleven fixed bytes and exactly that form, which no other envelope has. |
| Handlers.CheckedExactly | internal/api/handlers_messages.go:57-77 | Exactly when each refusal is given, in the order of the checks, and when none is. |
| Handlers.EphemeralIsTheLowBit | internal/api/handlers_messages.go:90 | An envelope is ephemeral exactly when the lowest bit of its second byte is set. |
| Handlers.LetThroughExactly | internal/api/handlers_messages.go:78-93 | The store lets an envelope through exactly when its sender and every account it holds a key for are members. |
| Handlers.SendEnvelope | internal/api/handlers_messages.go:56-110 | Refusals in order and without effect; what is accepted goes among members only and was signed as it stands; ephemeral envelopes, by their lowest flag, store nothing; a stored one takes one step of the log, which stores it as it was sent; each live connection of each member is told exactly once, and nobody on a duplicate. |
| Handlers.DeleteMessage | internal/api/handlers_messages.go:189-231 | Only the sender, being a member, or an administrator deletes; then one step of the log and every member's connections told once. |
| Handlers.ListMessages | internal/api/handlers_messages.go:148-181 | For members only: the first rows up to the clamped limit, whether there are more, and the newest number. |
| Voice.ConnectAllConnects | web/src/state/voice.ts:178 | Connecting to everyone listed adds the peers it offers to, all of them larger sessions, and no others. |
| Voice.SetListed | web/src/state/voice.ts:86-93 | Listing a session lists it once and leaves every other channel and session as it was. |
| Voice.RemoveListed | web/src/state/voice.ts:95-101 | Removing a session removes it from that channel only. |
| VoiceMesh.StepKeeps | web/src/state/voice.ts:153-208 | Joining, leaving, reloading, beating and every delivery keep the mesh invariant. |
| VoiceMesh.ReceiverKeepsPeer | web/src/state/voice.ts:465-513 | A delivered signal keeps the promise that each pair has a peer, an announcement or a description on its way. |
| VoiceRuns.MeshIsComplete | web/src/state/voice.ts:1-9 | After any run, once no signal is on its way, any two sessions in one channel hold settled peers for each other and list each other. |
| VoiceRuns.OffersNeverCross | web/src/state/voice.ts:403-406 | Along every run only the smaller session of a pair ever has an offer outstanding. |
| VoiceRuns.DeliveriesEnd | web/src/state/voice.ts:465-513 | Left alone, the devices fall silent after boundedly many deliveries, and nobody changes seats. |
| VoiceRuns.MeshForms | web/src/state/voice.ts:153-187 | From every reachable state, delivering what is on its way in any order connects whoever shares a channel. |
| VoicePeers.LeaveCloses | web/src/state/voice.ts:505-508 | A leave closes the peer of the session that left and no other. |
| VoicePeers.DescriptionsSettle | web/src/state/voice.ts:509-520 | An offer to this session is answered and settles a peer, an answer settles one that was offered to, and neither touches anything else. |
| VoicePeers.NewsIsAnswered | web/src/state/voice.ts:472-493 | A join in the own channel is answered with presence; a larger session that is no peer is offered to; nothing else is sent. |
| VoicePeers.BeatSays | web/src/state/voice.ts:179-186 | A heartbeat says its session is there and offers to exactly the larger sessions listed that are no peers yet. |
| VoicePeers.EnterSays | web/src/state/voice.ts:172-177 | Taking a seat announces it and offers to exactly the larger sessions listed. |
| VoicePeers.HeartbeatIsHeard | web/src/state/voice.ts:472-493 | Whatever a device believed, once it has handled a session's heartbeat it lists that session. |
| VoicePeers.PeersWereHeardOf | web/src/state/voice.ts:465-520 | On every run a device holds a peer for a session only if the last join, presence, offer or leave of it that it handled was not the leave. |
| VoicePeers.PeersAreExact | web/src/state/voice.ts:465-520 | Once no signal is on its way, and where no leave overtakes what its session sent before, the peers of a device are exactly the other sessions of its channel. |
| VoiceRosters.ListsSayTheLastWord | web/src/state/voice.ts:86-101 | On every run a device lists a session exactly when what it heard of it last, since it was last loaded, was that it is there. |
| VoiceRosters.QuietListsExactly | web/src/state/voice.ts:472-503 | Once no signal is on its way, a device in a channel lists every session in it, and any other session exactly when it has heard of it and what it heard last was not the leave. |
| VoiceRosters.ListsAreExact | web/src/state/voice.ts:82-101 | When no leave overtakes its session's joins and heartbeats, a device in a channel ends up listing exactly the sessions in it, and no device lists one that has left. |
| VoiceRosters.InOrderIsOrderly | web/src/state/voice.ts:472-503 | So it is when each session's signals arrive in the order they were sent. |
| VoiceRosters.ListsStayClean | web/src/state/voice.ts:86-101 | On every run no list names a session twice, and an empty list is dropped. |
| VoiceRosters.OvertakenLeaveStaysListedWithoutExpiry | web/src/state/voice.ts:472-503 | A leave that overtakes a join leaves a session listed in an empty channel, until it expires. |
| VoiceClient.Client.SetParticipant | web/src/state/voice.ts:86-93 | The list is rebuilt as specified. |
| VoiceClient.Client.RemoveParticipant | web/src/state/voice.ts:95-101 | The session leaves the list, an empty list leaves the map. |
| VoiceClient.Client.MaybeConnect | web/src/state/voice.ts:400-407 | Offers exactly when joined, not to itself, to no peer, and to a larger session. |
| VoiceClient.Client.AcceptOffer | web/src/state/voice.ts:424-439 | A settled peer, and the answer sent. |
| VoiceClient.Client.JoinVoice | web/src/state/voice.ts:153-187 | Nothing when already there; otherwise leaves the old channel, announces itself and connects. |
| VoiceClient.Client.LeaveVoice | web/src/state/voice.ts:189-208 | Every peer closed, the own entry gone, the others told. |
| VoiceClient.Client.Heartbeat | web/src/state/voice.ts:179-186 | Announces presence and retries every participant. |
| VoiceClient.Client.HandleVoiceSignal | web/src/state/voice.ts:465-537 | Each signal does what the mesh's step says, to state and outgoing signals. |
| Bytes.ReadsWhatWasWritten | pkg/e2e/envelope.go:127-128 | Big-endian numbers in range read back as written. |
| Bytes.WritesWhatWasRead | pkg/e2e/envelope.go:179-180 | Big-endian bytes are rewritten as read. |
| Bytes.WritesBigEndian | pkg/e2e/envelope.go:129-130 | Every byte is the digit of the number, base 256, that its place asks for, the highest first. |
| Bytes.HexIs | web/src/crypto/bytes.ts:23-27 | Every byte is two small digits, the high half first. |
| Bytes.PairParses | web/src/crypto/bytes.ts:29-39 | Two characters are read as ECMA-262 reads a text of any length as a hexadecimal number. |
| Bytes.UnhexHex | web/src/crypto/bytes.ts:23-39 | Hexadecimal text reads back as the bytes. |
| Bytes.HexUnhex | web/src/crypto/bytes.ts:23-39 | Small hexadecimal digits are printed back as they were. |
| Bytes.Concat | web/src/crypto/bytes.ts:3-13 | Fills one buffer with the parts in order, exactly. |
| Bytes.BytesToHex | web/src/crypto/bytes.ts:23-27 | The loop prints every byte as two digits. |
| Bytes.HexToBytes | web/src/crypto/bytes.ts:29-39 | Fails exactly on odd length or a pair that is no number; otherwise fills the buffer with what each pair parses to, which for digits is their byte. |
| Ids.TextRoundTrip | pkg/e2e/ids.go:33-52 | An identifier's text reads back as it, on the server and in the client. |
| Ids.TextIs | pkg/e2e/ids.go:33-36 | The text character by character: two small digits a byte, and four dashes. |
| Ids.AnyCaseReads | pkg/e2e/ids.go:42-52 | Any mixture of small and large letters reads back, on the server and in the client. |
| Ids.AcceptsTexts | web/src/crypto/ids.ts:3-10 | The client accepts exactly the texts of identifiers, in either case. |
| Ids.ParsersAgree | web/src/crypto/ids.ts:6-10 | The client takes what the server takes with its dashes in place, and reads the same bytes. |
| Ids.TextsDiffer | pkg/e2e/ids.go:33-36 | Different identifiers have different texts. |
| Ids.ParseReadsDigits | pkg/e2e/ids.go:42-52 | The server reads an identifier from every spelling of its digits and from nothing else. |
| Crypto.ToyObeysLaws | pkg/e2e/seal.go:26-80 | The laws assumed of the primitives can all hold at once. |
| Crypto.SealedOpens | pkg/e2e/seal.go:26-80 | A key sealed to an account opens with its private key. |
| Crypto.SealedIs | pkg/e2e/seal.go:26-47 | In the primitives alone: the ephemeral public key, and the message key under a key derived from the agreed secret salted with both public keys, bound to conversation and account. |
| Crypto.OpenedWasSealed | pkg/e2e/seal.go:51-80 | In the primitives alone: a box opens to a key exactly when it seals that key, for that conversation and account, under what is derived from the agreement with its ephemeral key. |
| Crypto.SealWith | pkg/e2e/seal.go:26-47 | Public key, then the sealed message key; fails exactly on a degenerate public key. |
| Crypto.Open | pkg/e2e/seal.go:51-80 | Malformed on a wrong size, failed when agreement or authentication fails, else the key. |
| Wire.ParsedSerialises | pkg/e2e/envelope.go:163-204 | Whatever parses is an envelope within the limits and serialises to the same bytes, its authenticated part where aadLen says. |
| Wire.SerialisedParses | pkg/e2e/envelope.go:111-204 | Every field of every envelope within the limits is recovered. |
| Wire.ParsesExactlyTheSerialised | pkg/e2e/envelope.go:163-204 | A byte string parses exactly when some envelope serialises to it. |
| Wire.WireIsCanonical | pkg/e2e/envelope.go:163-204 | Parsing and serialising are both one-to-one. |
| Wire.Layout | pkg/e2e/envelope.go:111-148 | Which bytes of the serialised form are which field, offset by offset. |
| Wire.EntryLayout | pkg/e2e/envelope.go:131-138 | Where each recipient's account and sealed key are. |
| Wire.ParsesExactly | pkg/e2e/envelope.go:163-204 | Exactly which byte strings are refused and with which error, by length, version, counts and lengths inside. |
| Envelopes.EntryFor | pkg/e2e/envelope.go:221-224 | The first entry of an account, or none. |
| Envelopes.EncryptedFits | pkg/e2e/envelope.go:119-121 | An encrypted envelope has the computed size, fits the limit and parses. |
| Envelopes.EncryptParseDecrypt | pkg/e2e/envelope.go:111-241 | Encrypt, serialise, parse, verify and decrypt gives every field and the plaintext back to every recipient not listed before under another key. |
| Envelopes.DecryptedWasBound | pkg/e2e/envelope.go:221-241 | What decrypts was sealed with the entry's key to exactly the bytes before the ciphertext's length. |
| Envelopes.SignedBytesAre | pkg/e2e/envelope.go:150-154 | What is signed is the eleven bytes of "msgr-env-v1" and the whole envelope. |
| Envelopes.SignedBytesDetermine | pkg/e2e/envelope.go:150-159 | So a signature covers one envelope only. |
| Envelopes.EncryptedExactly | pkg/e2e/envelope.go:111-148 | Which list, size or key is refused with which error, and that nothing else is. |
| Envelopes.EncryptedIs | pkg/e2e/envelope.go:111-148 | Every field of what is made, each recipient's key sealed with its own ephemeral key and the ciphertext bound to the bytes before it. |
| Envelopes.DecryptsExactly | pkg/e2e/envelope.go:221-241 | An envelope decrypts to a plaintext exactly when the account's first entry opens to a key under which the ciphertext is that plaintext bound to those bytes. |
| GoEnvelope.EncryptWith | pkg/e2e/envelope.go:111-148 | The appended buffer is the serialised envelope with its signature, or the first error. |
| GoEnvelope.Parse | pkg/e2e/envelope.go:163-204 | The moving offset reads the fields, or the first error; never out of range. |
| GoEnvelope.IsRecipient | pkg/e2e/envelope.go:210-217 | Holds exactly when some entry has the account. |
| GoEnvelope.Decrypt | pkg/e2e/envelope.go:221-241 | The first entry of the account decides. |
| WebEnvelope.WritersAgree | web/src/crypto/envelope.ts:52-97 | With identifiers the client can read, both writers make the same envelope or fail the same way. |
| WebEnvelope.HeaderReadsBack | web/src/crypto/envelope.ts:70-84 | Every header is reached through its own text form. |
| WebEnvelope.EncryptWith | web/src/crypto/envelope.ts:52-97 | The offsets fill the buffer exactly with the serialised envelope, or the first error. |
| WebEnvelope.Parse | web/src/crypto/envelope.ts:112-145 | The same envelopes and errors as the other parser, fields in text form. |
| WebEnvelope.IsRecipient | web/src/crypto/envelope.ts:147-149 | Holds exactly when some entry has that text. |
| WebEnvelope.Decrypt | web/src/crypto/envelope.ts:152-158 | The first entry under that text decides. |
| WebEnvelope.DecryptersAgree | web/src/crypto/envelope.ts:152-158 | For a parsed envelope and any text, the client decrypts what the server's library would for the identifier of that text. |
| WebEnvelope.WebEncryptedExactly | web/src/crypto/envelope.ts:52-97 | Which list, size, identifier or key is refused with which error, the first trouble in the list deciding, and that nothing else is. |
| WebEnvelope.WebDecryptsExactly | web/src/crypto/envelope.ts:152-158 | What each answer means, malformed identifiers included. |
| WebEnvelope.ParsersReadAlike | web/src/crypto/envelope.ts:132-144 | All identifiers read back to the same bytes; the timestamp agrees exactly when it is representable. |
| WebEnvelope.ReadExactly | web/src/crypto/envelope.ts:138 | A timestamp is read exactly when it is a multiple of the spacing of doubles around it, which all below 2^53 are. |
| WebEnvelope.NearestDouble | web/src/crypto/envelope.ts:138 | The number read is a nearest multiple of that spacing, the even one of two. |
| WebEnvelope.StampIs | web/src/crypto/envelope.ts:79 | What is stored of a time: nothing of a negative one, else its whole part, modulo two to the 64. |
| WebEnvelope.FirstMisread | web/src/crypto/envelope.ts:138 | 2^53 + 1 is read as 2^53. |
| Limiter.TokenBuckets.Allow | internal/auth/auth.go:174-200 | One step of the buckets, sweep included, and its decision. |
| Limiter.LevelMeans | internal/auth/auth.go:189-199 | The tokens at hand are the smallest allowance left over any stretch of calls up to now. |
| Limiter.DecidesExactly | internal/auth/auth.go:174-200 | Over every run the limiter lets a call through exactly when every stretch ending in it stays within burst plus rate times length; forgetting buckets never shows. |
| Limiter.ExactIsOne | internal/auth/auth.go:174-200 | That rule leaves one decision for every call. |
| Limiter.ForgetsExactly | internal/auth/auth.go:174-188 | A request changes no other bucket, and forgets those idle for over ten minutes only when it opens another beyond ten thousand. |
| Limiter.WindowBound | internal/auth/auth.go:167-200 | In any stretch of a run a key is let through at most burst plus rate times length times. |
| Forgetting.ForgettingNeedsRefill | internal/auth/auth.go:174-200 | Every run of calls is decided as by the reference that forgets nothing exactly when ten minutes refill the burst, or there is no burst to give; otherwise a run is constructed that is not. |
| Limiter.ConfiguredRefills | internal/api/server.go:59 | They do for the configured 20 and 10/60. |
| LastSeen.Authenticator.Touch | internal/auth/auth.go:102-120 | One step of the table and whether the store was written. |
| LastSeen.WritesExactlyWhenDue | internal/auth/auth.go:101-120 | Over every run a visit is written exactly when nothing was written for the device within the minute; forgetting never shows. |
| Challenges.ChallengeStore.Issue | internal/api/challenges.go:45-63 | The new challenge replaces the device's old one; expired ones of others may go. |
| Challenges.ChallengeStore.Take | internal/api/challenges.go:69-93 | Succeeds on the pending, unexpired value only and consumes it; a wrong guess consumes nothing. |
| Challenges.ChallengeStore.Forget | internal/api/challenges.go:96-100 | Only that device's challenge is gone. |
| Challenges.AnswersExactly | internal/api/challenges.go:45-100 | Over every run a take succeeds exactly on the device's newest challenge, unexpired, not forgotten and not taken; sweeps and wrong guesses never show. |
| Challenges.TakenOnce | internal/api/challenges.go:65-68 | Between two takes of a device there is another issue of the taken value. |
| Hub.IndexStaysExact | internal/ws/hub.go:127-160 | After any sequence of additions and removals, repeats included, an index groups exactly the one set of connections, with no empty group. |
| Hub.Hub.Add | internal/ws/hub.go:128-133 | The set gains the connection and both indexes stay exact. |
| Hub.Hub.Remove | internal/ws/hub.go:136-141 | The set loses it and both stay exact. |
| Hub.Hub.Online | internal/ws/hub.go:208-212 | Holds exactly when some connection has the account. |
| Hub.Hub.ConnectionCount | internal/ws/hub.go:215-223 | The size of the set. |
| Hub.Hub.SendToAccounts | internal/ws/hub.go:162-174 | Every connection gets the frame once for each time its account is named, nobody else any. |
| Hub.MentionedOnce | internal/ws/hub.go:162-174 | Which is once for a list without repetitions. |
| Hub.Hub.SendToDevice | internal/ws/hub.go:182-192 | Every connection of the device once. |
| Hub.DistinctRecipients | internal/api/handlers_messages.go:78-86 | The accounts without repetitions, in the order first named. |
| Hub.DistinctKeepsOrder | internal/api/handlers_messages.go:78-86 | Every mention of an account kept later comes after a mention of one kept earlier. |
| Invite.EncodingReadsBack | web/src/state/invite.ts:21-46 | Any text reads back from its percent encoding. |
| Invite.EncodedIs | web/src/state/invite.ts:16 | Letters, digits and nine marks stay as they are; any other character becomes the triplets of the bytes RFC 3629 gives it. |
| Invite.InviteRoundTrip | web/src/state/invite.ts:13-58 | A printed link reads back as the trimmed code and the trimmed origin exactly when that code is well formed and that origin is empty or has a scheme, holds no '?' or '#' and does not end in "/join". |
| Invite.ParsedShape | web/src/state/invite.ts:29-58 | Whatever parses has a well-formed code and a server with a scheme, without query or fragment, or none. |
| Invite.BareCodeReads | web/src/state/invite.ts:33-34 | A value that is no link, with space around it or not, reads as itself exactly when it is 3 to 64 letters, digits, underscores and hyphens starting with a letter or digit, and as nothing otherwise. |
| Invite.QueryLinkReads | web/src/state/invite.ts:40-57 | A link with the code in its query names the same server. |

## Left out

- A connection whose outgoing buffer is full: a frame handed to a connection counts as sent to it.
- WebRTC, media, candidates, failed and expired connections, mute, camera and screen flags, and the 1:1 call flow: they depend on browser objects and timers.
- The insides of the cryptographic primitives, randomness, key storage and constant-time comparison: only laws are used. Signing keys of contacts and trust on first use are not part of this model.
- SQL text, foreign keys and cascades, attachments and their purge, JSON, HTTP, WebSocket framing, bots, push and logging: tables are maps and a transaction is one step.
- Previews, notifications, pending bubbles, unread badges, the markRead request and local edits before the server confirms them: they interleave at other points and touch neither positions nor the fold.
- Concurrent commits whose fan-out swaps order, and leaving and rejoining a group on one device.
- Convergence.Converges: excludes purging and expiry, under which a message may be gone on one side only; says nothing of the text of a message whose last edit's row was deleted, for which the order of reading decides.
- Drops.LosingFramesExactly: a lost connection loses every frame from the next one on; frames that had arrived and waited for the conversation's lock are handled still, which this covers as a connection that is lost after them, unless a new connection delivers rows stored meanwhile before they are done.
- Mending.LosingFramesMendsExactly: the device reads the rest of the log in one backfill, all pages from the table as it is then.
- NameRuns.NamesExactly: excludes giving a backfill up between two pages over a later deletion of a naming or membership row it has passed; what a device knows then depends on where the pages ended. Its half without lost names counts a connection lost while a frame waits for its backfill as losing names.
- SyncClient.Client.SetMessageBody: the conversation's preview is not modelled.
- SyncClient.Client.RemoveLocalMessage: the preview, which is computed again, is not modelled.
- SyncClient.Client.ApplyStored: pending bubbles, the preview and the notification are not modelled.
- SyncClient.Client.HandleIncoming: signature, decryption and parsing are one fixed function of the row, and signals that are not stored are not modelled here.
- SyncClient.Client.PurgeExpired: one conversation; the client visits all, and drops their previews.
- Backfill.Backfill: says what the copy amounts to only where no row of the log has expired; with expired rows, which rows are handled and what each does.
- Backfill.OnLiveMessage: a conversation the device does not know is not fetched here.
- VoiceMesh.StepKeeps: handlers are one step, although the client awaits descriptions and the transport inside them.
- Voice.ConnectAllConnects: no participant is too old to connect to, as nobody expires.
- VoiceClient.Client.MaybeConnect: no participant is too old to connect to, as nobody expires.
- VoiceClient.Client.AcceptOffer: making and sending the answer does not fail.
- VoiceClient.Client.JoinVoice: the conversation is a group, no call is running and the microphone is granted.
- VoiceClient.Client.Heartbeat: does not drop participants that have not been heard of for 65 seconds.
- VoiceClient.Client.HandleVoiceSignal: signals of shared screens, cameras and candidates are not modelled.
- VoiceRosters.OvertakenLeaveStaysListedWithoutExpiry: the client drops the entry once it has not heard of the session for 65 seconds.
- Roster.RosterIsNewest: members are the accounts left after entries without valid keys are skipped; checking keys is part of decoding.
- Database.Store.PurgeExpired: attachments and their files are not modelled.
- Limiter.DecidesExactly: tokens and time are reals, so float rounding is not modelled, and a clock that goes back is not.
- Ids.AcceptsTexts: lower-casing covers A to Z; no other character lower-cases to a digit, a to f or a dash.
- WebEnvelope.EncryptWith: the timestamp is a finite number and flags an integer; NaN and infinities, which the client's conversion rejects, are not modelled.
- Invite.InviteRoundTrip: strings are sequences of Unicode scalar values, so lone surrogates are not modelled.
- Integers are unbounded except in the wire format, where widths are explicit; 64-bit overflow of sequence numbers and times is not modelled.
