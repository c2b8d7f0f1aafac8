# 9flx: a verified model

9flx shows a chat account as a 9P file tree. A gateway client keeps a websocket session alive across
reconnects, a hub fans message events out to the open event files, a store folds events into an
account, a tree of directories is refreshed from snapshots of that account, and a handful of files
turn bytes that were written into messages and uploads. This project models the parts that hold state
or transform data and proves what they are for. Strings and byte slices are both sequences of bytes.

**Events.** `Gateway` is the payload loop and the reconnect loop, as a class proved against a step
function; `Sessions` proves what holds over all its runs: sequence numbers in epochs, what a RESUME
asks for, and when a gap is announced. `Histories` says of every run, in terms of the payloads
alone, what is handed on and sent and what ends a connection. `EventStreams` is one subscription
(bounded queue, drop counter) and its reader as a state machine with history variables,
`GapPlacement` says where GAP records come out and `Drops` when an event is dropped, `Hubs` and
`LiveFiles` are the classes whose methods are runs of that machine, `Lifecycle` interleaves any
number of Opens and Closes, and `Pipeline` puts gateway, hub and reader together end to end.
`Presence` is the one-slot mailbox for presence updates.

Granularity: the hub's send to one subscriber is a select followed by an increment of the drop
counter, and readers do not take the hub's lock. `EventStreams` has both forms, `Publish` as one
step and `Select` followed by `Count`. Conservation and the byte stream hold at both. With one step
no event overtakes the GAP record of an earlier drop, and a reader waits only when nothing is
unreported; with two steps at most one event overtakes, and runs are given in which one does and in
which a reader waits with a drop unreported. `Pipeline` and the classes use the one-step form.

**Account and tree.** `Stores` is the account with the effect of every event, `StoreRuns` and
`Ledgers` what it holds after any log of events, map by map. `Conversations` reconciles a set of
conversation directories with a cache of nodes, `Trees` the whole tree, `TreeRuns` says what runs of
refreshes keep, `Snapshots` shows that the order in which maps are listed does not matter, and
`Refreshes` interleaves updates and refreshes. `Listings` says of the snapshot's own items which
have a directory and under which name. `Attachments`, `AttachmentIndexes` and `AttachmentRuns` do
the same for the attachments directory, `Downloads` for reading an attachment.

**Names, text and buffers.** `PathNames`, `Names`, `Escaping`, `SendFrames`, `Commands`, `Buffers`
and `Multipart` hold the naming rules, the escaping passes, the parsers, the per-fid buffers and the
slicing of uploads. `Utf8` is section 3 of RFC 3629, with the one-byte error step of Go's decoder;
`Text` has the library operations the parsers rest on.

Assumptions. A rendered record is an opaque non-empty byte sequence. `Sessions.Answering` and
`Pipeline` assume a server that sends READY only in answer to an IDENTIFY, once, with a session id
that is not empty; `Sessions.EmptySessionIdLosesGap` shows the last part is needed, and
`Sessions.GapExactly` says what the client does with any server. Clients do not open a fid that is
open. The server's lists name no channel twice (`StoreRuns.Clean`). Links of an attachment serve its
bytes from where they say they do (`Downloads.Honest`). Ids are decimal where name collisions are
concerned.

Where the code does less than one might expect, the exact condition is proved:

- two siblings can get one name: `Names.NameCollision`, `Names.CollisionExists`;
- an edited profile does not refresh the tree; that shows exactly when the account lists itself as a
  friend without a user (`Refreshes.Disturbs`): `Refreshes.ProfileSeen`, `Refreshes.ProfileEditUnseen`;
- a DM that comes without a recipient never gets avatar files, and one that comes with one keeps them:
  `TreeRuns.AvatarExactly`, `TreeRuns.AvatarNeverAdded`, `Refreshes.DmsAtRest`;
- an attachment called info.json takes the place of the message's own listing, for good:
  `Attachments.RendersInfoExactly`, `AttachmentRuns.InfoExactly`, `AttachmentRuns.InfoIsLost`;
- a file whose link is refreshed while the index renames it keeps the old name:
  `Downloads.Reader.Open`, `Downloads.StaleName`;
- a download that cannot be moved to another offset is closed but stays in place:
  `Downloads.Reader.Read`;
- frames and command lines do not all survive printing and parsing:
  `SendFrames.LfFrameRoundTrip`, `SendFrames.LfCaptionIsCut`, `SendFrames.CrlfFrameRoundTrip`,
  `SendFrames.CrlfCaptionIsCut`, `Commands.MessageRoundTrip`, `Commands.LeadingSpaceIsLost`.

`dafny verify dfyconfig.toml` checks everything.

## Model

| member | source | states |
|---|---|---|
| Gateway.Client.HandleHello | internal/fluxer/gateway.go:339-365 | A HELLO resumes a session whose last payload came within three minutes, else gives up any session (id, sequence and gap flag together) and identifies; a failed write leaves that done |
| Gateway.Client.HandlePayload | internal/fluxer/gateway.go:330-422 | Each operation changes the session and makes its calls, in order, as the step function says: READY calls OnGap before the presence and the event, a refused resume clears everything |
| Gateway.Client.HandleInput | internal/fluxer/gateway.go:310-330 | One turn of the loop: read errors end the connection by kind, a payload moves the clock and raises the sequence number, never lowers it |
| Gateway.Client.Connect | internal/fluxer/gateway.go:310-424 | A connection handles its payloads up to and including the first that ends it, and returns with that one's outcome |
| Gateway.Client.Run | internal/fluxer/gateway.go:122-170 | Reconnecting keeps session id, sequence and gap flag; the whole run is the fold of the inputs of its connections, and stops on cancellation or a refused token |
| Sessions.ResetTogether | internal/fluxer/gateway.go:343-346 | The sequence is zeroed, the session id cleared and the gap raised in one step or not at all; otherwise the sequence only grows and only READY changes the id |
| Sessions.SequenceIsMax | internal/fluxer/gateway.go:325-328 | Over every run the sequence is the largest number received since the last reset |
| Sessions.HandedInOrder | internal/fluxer/gateway.go:389-392 | Numbers given to OnEvent between resets never go back and never exceed the sequence |
| Sessions.SequenceEpochs | internal/fluxer/gateway.go:322-349 | In every run a RESUME asks for exactly the largest number received since the last reset, so for no less than any number already handed on |
| Sessions.GapPendingMeaning | internal/fluxer/gateway.go:374-379 | The gap flag is up exactly when a session was given up since the last READY |
| Sessions.GapExactly | internal/fluxer/gateway.go:367-393 | With any server OnGap is called by a READY only, before OnEvent, and exactly when a session was given up since the READY before |
| Sessions.GapOwed | internal/fluxer/gateway.go:350-365 | After the first READY a client without a session, or with an unanswered IDENTIFY, owes a gap |
| Sessions.NoSilentSessionLoss | internal/fluxer/gateway.go:367-393 | Every READY after the first calls OnGap exactly once, before its own event, when the server answers each IDENTIFY by one named READY |
| Sessions.EmptySessionIdLosesGap | internal/fluxer/gateway.go:374-382 | A concrete run in which a READY without a session id makes the next session start unannounced |
| Histories.SessionHeld | internal/fluxer/gateway.go:322-349 | After every run the client holds the session that the payloads alone say it does: the id of the last READY unless it was given up since, the times of the last payload and of the last READY, and the largest number received since the last reset |
| Histories.EventsInOrder | internal/fluxer/gateway.go:366-393 | Over every run OnEvent is called once for each READY that decodes, each RESUMED and each other dispatch, in that order and for nothing else, with that kind and the largest number received since the last reset, its own payload's included |
| Histories.ReportableMeaning | internal/fluxer/gateway.go:389-392 | The payloads these calls are made for, by their positions |
| Histories.ClientEvents | internal/fluxer/gateway.go:389-392 | So it is for the calls of a running client |
| Histories.HelloAnswered | internal/fluxer/gateway.go:331-365 | A HELLO whose write succeeds is answered by one message: RESUME exactly when a session is held and the last payload came at most 180 seconds before, else IDENTIFY |
| Histories.HeartbeatAnswered | internal/fluxer/gateway.go:397-404 | A heartbeat request is answered with the largest number received since the last reset |
| Histories.SentOnlyThen | internal/fluxer/gateway.go:331-404 | Nothing else sends anything, and presences start with READY and RESUMED alone |
| Histories.ResumedHandled | internal/fluxer/gateway.go:384-393 | A RESUMED starts the presence and is then handed on |
| Histories.EndsExactly | internal/fluxer/gateway.go:310-422 | Which inputs end a connection, whatever the state, and which of them end the run |
| Histories.ServedExactly | internal/fluxer/gateway.go:310-424 | A connection handles its payloads up to and including the first that ends it |
| Histories.RunIsDialling | internal/fluxer/gateway.go:122-170 | What a run handles depends on what comes in alone: connections follow one another until one stays up, is cancelled or is refused for good |
| Pipeline.TasksOf | cmd/9flx/main.go:75-79 | What one payload makes the hub do: a READY after a lost session is one announcement, a dispatch that carries an event is exactly that event, anything else is nothing |
| Pipeline.PerformOffers | internal/core/hub.go:76-114 | Each of these offers an open subscription its event or notice once, at the end of what was offered before |
| Pipeline.StepKeeps | internal/core/hub.go:76-114 | Every step of gateway, hub and reader keeps: each session that began while the file was open has been announced or is about to be, in front of its events |
| Pipeline.EverySessionHeralded | internal/p9fs/files.go:348-371 | End to end: before an event of session n comes out of a live file, every session from the file's opening up to n has had its GAP notice delivered or its loss reported |
| Pipeline.DeliveredIsTagged | internal/p9fs/files.go:362-370 | Every delivered record has a session it belongs to, and is a message exactly when it is no notice |
| EventStreams.StepSound | internal/core/hub.go:90-99 | Each step keeps the account of offers: delivered, queued, reported and counted ones are all of them, and what is kept stays in order |
| EventStreams.Conservation | internal/core/hub.go:76-99 | In every reachable state, at both granularities: offered = delivered + queued + drops in GAP records + drops not yet reported; delivered then queued are the offers that were not dropped, in order; the queue stays within 1024 |
| EventStreams.StepFaithful | internal/p9fs/files.go:348-371 | Each step keeps: bytes returned and pending are the rendered records, the pending ones the tail of the last |
| EventStreams.LiveByteStream | internal/p9fs/files.go:339-372 | For any sequence of read counts the bytes returned plus the pending ones are the rendered event and GAP records laid end to end, and no answer spans two records |
| Drops.PublishMeaning | internal/core/hub.go:90-99 | With fewer than 1024 waiting an event goes to the end of the queue and no drop is counted; with 1024 waiting the queue stays as it is and one drop is counted |
| Drops.SelectMeaning | internal/core/hub.go:90-99 | The same with the select and the count apart |
| Drops.LostExactlyWhenFull | internal/core/hub.go:90-99 | Over every run, at both granularities, an offer is lost exactly when 1024 earlier offers, kept and not yet delivered, were waiting when it came |
| Drops.SwapMeaning | internal/p9fs/files.go:358-361 | A counter that is not zero is reset, and its count rendered as a GAP record |
| Drops.ReceiveMeaning | internal/p9fs/files.go:362-370 | The oldest waiting event is taken and rendered |
| Drops.ReturnMeaning | internal/p9fs/files.go:352-357 | A read takes the front of what is pending: as many bytes as were asked for, or all there are |
| Drops.LiveRecords | internal/p9fs/files.go:339-372 | The bytes of a live file are its records end to end: a GAP record is the rendering of the count that was taken, any other of the event offered at its index |
| GapPlacement.StepPlaced | internal/p9fs/files.go:358-362 | Each step but a split publish keeps: no delivered event is younger than an unreported drop, and a reader about to wait has nothing unreported |
| GapPlacement.GapComesFirst | internal/p9fs/files.go:348-371 | With publish as one step, in every interleaving no event published after a drop comes out before the record that covers the drop |
| GapPlacement.BlockedMeansCaughtUp | internal/p9fs/files.go:358-365 | With publish as one step a reader waits, or sees the end, only with every drop reported |
| GapPlacement.NoSilentLoss | internal/p9fs/files.go:348-371 | When an event comes out, each offer before it has been delivered or covered by an earlier GAP record |
| GapPlacement.AtMostOneOvertakes | internal/core/hub.go:90-95 | With the select and the count apart, at most one later event comes out before the record of a drop |
| GapPlacement.WaitingWithDrop | internal/core/hub.go:90-95 | A two-step run in which the reader waits on an empty queue while a drop is unreported |
| GapPlacement.OvertakingHappens | internal/p9fs/files.go:358-362 | A two-step run in which one event does overtake the report of an earlier drop |
| Hubs.Subscription.Publish | internal/core/hub.go:90-99 | With fewer than 1024 waiting the event is queued and with 1024 it is counted, nothing else changing; this is one offer of the stream machine |
| Hubs.Subscription.TakeDropped | internal/core/hub.go:19 | Returns the number of uncounted drops and starts again at zero: one swap of the machine |
| Hubs.Subscription.Receive | internal/p9fs/files.go:362-370 | Takes the oldest queued event and makes its rendering pending |
| Hubs.Hub.Subscribe | internal/core/hub.go:41-51 | Adds one new, open, empty subscription to the channel's set and changes nothing else |
| Hubs.Hub.SubscribeAll | internal/core/hub.go:32-39 | Adds one new, open, empty subscription to the global set |
| Hubs.Hub.Unsubscribe | internal/core/hub.go:62-74 | Removes the subscription and closes its channel if it was in that set, drops the set when it is empty, else does nothing |
| Hubs.Hub.UnsubscribeAll | internal/core/hub.go:53-60 | Removes a global subscription and closes its channel; a stranger is left alone |
| Hubs.Hub.PublishTo | internal/core/hub.go:82-87 | A pass over a set offers the event once to each member, in any order, and calls the overflow callback once for each one without room |
| Hubs.Hub.Publish | internal/core/hub.go:76-88 | An event with a channel is offered once to each subscriber of that channel and each global one, and to nobody else, with an overflow call for each of those without room; one without is dropped |
| Hubs.Hub.GapAll | internal/core/hub.go:101-114 | Every live subscription is offered exactly one notice, a channel's own carrying the channel, with an overflow call for each one without room |
| LiveFiles.LiveReader.Read | internal/p9fs/files.go:339-372 | One Read, with publishers acting at every point where they can, is a run of the stream machine; it returns the next bytes, at most count, and blocks exactly when nothing is left and the channel is open; the channel stays open unless the fid is closed meanwhile |
| LiveFiles.LiveReader.Wait | internal/p9fs/files.go:362-365 | A drained channel ends the file when it is closed and blocks when it is open |
| LiveFiles.LiveFile.Open | internal/p9fs/files.go:318-338 | Refused for writing and where there is no channel yet; otherwise the fid gets a fresh subscription in the right set and no other fid changes |
| LiveFiles.LiveFile.Read | internal/p9fs/files.go:339-372 | A fid that is open gets the next bytes of its own subscription's stream, any other an error; hub and handles stay matched, so that a Close can follow |
| LiveFiles.LiveFile.Close | internal/p9fs/files.go:376-389 | Takes the fid's subscription out of the set it joined and closes it; closing a fid that is not open does nothing |
| Lifecycle.StepKeeps | internal/p9fs/files.go:318-389 | Every step of any number of concurrent Opens, Closes and publishes keeps the hub and the handles matched |
| Lifecycle.NeverPanics | internal/core/hub.go:53-99 | No send and no second close ever meets a closed channel |
| Lifecycle.OpenIsSubscribedOnce | internal/core/hub.go:32-51 | An open fid's subscription is in exactly one set, the one it asked for, and no set is empty |
| Lifecycle.AllClosedLeavesNothing | internal/core/hub.go:53-74 | When all fids are closed the hub is empty |
| Lifecycle.OpenSubscribes | internal/p9fs/files.go:318-338 | In every reachable state an undisturbed Open gives the fid a subscription nobody had before, in exactly the set it asked for |
| Lifecycle.CloseUnsubscribes | internal/p9fs/files.go:376-389 | And an undisturbed Close takes it out of the hub and closes its channel, other fids keeping theirs |
| Lifecycle.PanicMeaning | internal/core/hub.go:53-99 | A send to a closed channel and a second close would be noticed |
| Presence.StepKeeps | internal/fluxer/gateway.go:80-97 | Every step of producers and writer keeps the order of the numbers and the latest presence at hand |
| Presence.FinalSendNeverFails | internal/fluxer/gateway.go:92-95 | In every interleaving the last send of the protocol finds the slot empty |
| Presence.TakenInOrder | internal/fluxer/gateway.go:209-222 | Presences are taken in the order they were queued, each at most once, the waiting one after all taken |
| Presence.KeepsTheLatest | internal/fluxer/gateway.go:61-97 | While nobody holds the mutex the presence in force is in the slot or was the last one taken |
| Presence.Sink.QueuePresenceLocked | internal/fluxer/gateway.go:80-97 | The three selects, with the writer acting before each, are a run of the mailbox and end with the current presence in the slot |
| Presence.Sink.SetPresence | internal/fluxer/gateway.go:61-70 | An invalid status is refused and changes nothing; a valid one becomes current and is queued on a live connection |
| Presence.Sink.SetCustomStatus | internal/fluxer/gateway.go:72-78 | Replaces the custom status and queues the presence if the status is set |
| Presence.Sink.Activate | internal/fluxer/gateway.go:223-228 | A connection that becomes ready is given the presence in force |
| Stores.Upsert | internal/core/store.go:202-211 | Every namesake is replaced in place, or the channel goes to the end and the others stay as they are |
| Stores.Compact | internal/core/store.go:226-233 | The in-place loop leaves exactly the channels with another id, in order, at the front of the array |
| Stores.Remove | internal/core/store.go:226-234 | The list without the channel, in order |
| Stores.WithoutConcat | internal/core/store.go:226-234 | Each channel is kept or not by itself, in the order of the list |
| Stores.Store.ApplyReady | internal/core/store.go:148-176 | READY folds its lists over the maps one after the other; unavailable guilds are passed over |
| Stores.Store.ApplyGateway | internal/core/store.go:142-296 | Every event has its effect on the five maps, message events go to the hub and nothing else, and the observer is called exactly for the events that can change the tree |
| Stores.Store.UpsertDM | internal/core/store.go:125-133 | The DM is stored under its id and nothing else changes |
| Stores.Store.SetMe | internal/core/store.go:135-140 | The profile becomes current and goes to the user table |
| Stores.Store.FindDMForUser | internal/core/store.go:109-123 | Some channel of kind 1 with the user among its recipients, or none exactly when there is none |
| Stores.Store.Snapshot | internal/core/store.go:90-107 | Each map's values once, in some order, with blank relationship users filled in from the user table |
| Stores.SnapshotShows | internal/core/store.go:90-107 | It has the profile and each relationship, DM and guild once, a relationship without a user showing the one known under its id |
| StoreRuns.StepKeyed | internal/core/store.go:142-312 | Every event keeps each map keyed by its values' ids and each guild's channel ids distinct |
| StoreRuns.KeyedAlways | internal/core/store.go:142-312 | That holds after every log of events, created DMs and profile edits |
| StoreRuns.StepListed | internal/core/store.go:193-281 | An event changes a known guild's channel list as an ordered table: overwrite a row or append, remove a row, replace unless absent |
| StoreRuns.ListIsFolded | internal/core/store.go:193-312 | After every log each guild's channel list is the fold of the events that mention it |
| Ledgers.HeldMeaning | internal/core/store.go:142-312 | What a ledger holds under a key: what its last mark put there, nothing if that dropped it, what was there at the start if there is none |
| Ledgers.RelationshipsHeld | internal/core/store.go:158-265 | After every log each relationship is the one last added, updated or listed by a READY, unless it was removed since, and else what was loaded |
| Ledgers.DmsHeld | internal/core/store.go:125-223 | The same for DMs: created, updated or listed, and deleted |
| Ledgers.UsersHeld | internal/core/store.go:135-250 | Each user is the profile last received, be it the own one, one listed by a READY or one of a relationship |
| Ledgers.MeHeld | internal/core/store.go:135-154 | The account's own profile is that of the last READY or edit |
| Ledgers.GuildsHeld | internal/core/store.go:166-312 | The communities are those that came and were not deleted since; name, owner and availability are the last given since, a field left out keeping its value |
| Ledgers.AvailableMeaning | internal/core/store.go:166-170 | Of the guilds of a READY exactly the available ones count |
| Conversations.Conversation.SetName | internal/p9fs/nodes.go:28-35 | The version counts changes of name |
| Conversations.Touch | internal/p9fs/tree.go:194-209 | The cached node is kept and brought up to date, or one is made; avatar files neither come nor go |
| Conversations.Walk | internal/p9fs/tree.go:193-212 | The loop over the specs: every node as the specs leave it, the listing in their order |
| Conversations.ReconcileConversations | internal/p9fs/tree.go:185-219 | The cache holds exactly the active ids, each under its own id, old nodes being the same objects; every entry's key is the name its node reports |
| Conversations.EntriesMeaning | internal/p9fs/tree.go:210 | Every name leads to a node that was given it and every given name is there |
| Conversations.ReconciledMeaning | internal/p9fs/tree.go:193-212 | Each listed conversation ends with its assigned name and its latest data, whatever was cached |
| Conversations.ReconcileIsRebuild | internal/p9fs/tree.go:185-219 | The result shows, id by id, what building from nothing would, avatar files included, but that a node which was there has them just if it had them |
| Conversations.AvatarsAsRebuilt | internal/p9fs/tree.go:202-208 | So it is what building from nothing gives exactly when each conversation that stays was made with avatar files just if it would be made with them now |
| Conversations.RenamesAreCounted | internal/p9fs/tree.go:200 | A refresh moves a node's version by one if it renames it and leaves it otherwise |
| Conversations.RebuiltAnyOrder | internal/p9fs/tree.go:185-219 | With an id each, the order of the specs does not show in the result, whatever was there |
| Trees.ListFriends | internal/p9fs/tree.go:108-132 | One spec per relationship that is a friend with a known user |
| Trees.ListDms | internal/p9fs/tree.go:135-154 | One spec per DM, named by its recipient, its own name or "dm" |
| Trees.ListChannels | internal/p9fs/tree.go:289-300 | One spec per text channel of a guild |
| Trees.FriendAvatars | internal/p9fs/tree.go:108-132 | Every friend has avatar files, and they show the friend as listed |
| Trees.RefreshIsRebuild | internal/p9fs/tree.go:103-219 | What a refresh shows is what building from nothing would, avatar files included, exactly when each DM that stays was made with a recipient just if it has one now |
| Listings.FriendsShown | internal/p9fs/tree.go:108-133 | The friends shown are exactly the users of the relationships of kind 1 that have one |
| Listings.FriendShown | internal/p9fs/tree.go:108-133 | With a relationship each, a friend is shown as listed, with the listed user's avatar, under the escaped tag, with a suffix exactly when another friend's is spelled the same |
| Listings.DmsShown | internal/p9fs/tree.go:135-155 | The DMs shown are exactly the ones listed |
| Listings.DmShown | internal/p9fs/tree.go:135-155 | With distinct ids a DM is shown as listed, under the escaped tag of its first recipient if it is direct, else its own name, else dm |
| Listings.CommunitiesShown | internal/p9fs/tree.go:157-182 | The communities shown are exactly the guilds listed |
| Listings.CommunityShown | internal/p9fs/tree.go:157-182 | With distinct ids a community goes by the guild's escaped name |
| Listings.ChannelsShown | internal/p9fs/tree.go:284-302 | A community shows its guild without the channel list, and exactly the channels of kind 0 |
| Listings.ChannelShown | internal/p9fs/tree.go:284-302 | With distinct ids a text channel is shown as listed, under its escaped name |
| Trees.Community.Reconcile | internal/p9fs/tree.go:284-302 | A community shows the guild without its channels, and its text channels as built from nothing; channel nodes survive |
| Trees.ReconcileCommunity | internal/p9fs/tree.go:166-175 | Works on one community, keeping the nodes of the channels it still lists, and leaves every other one and its nodes untouched |
| Trees.ReconcileCommunities | internal/p9fs/tree.go:166-176 | The loop over the guilds: each community as its last guild says, old ones the same objects, and so the nodes of channels that no listing leaves out |
| Trees.RenewedIsRebuild | internal/p9fs/tree.go:166-181 | Restricted to the guilds at hand, that is what building from nothing gives |
| Trees.RefreshCommunities | internal/p9fs/tree.go:157-182 | The cache holds exactly the guilds at hand, showing what a rebuild would, each under the name it reports; communities and channel nodes survive while their ids do |
| Trees.RoomsApart | internal/p9fs/tree.go:25-36 | Conversations of different communities are different objects |
| Trees.Resolve | internal/p9fs/tree.go:117-151 | A node resolves to the id it was made for, whatever refreshes came since; a friend's to a DM with that user, if there is one |
| Trees.Target | internal/p9fs/tree.go:118-130 | A send to a friend creates a DM only where there is none, stores it, and so finds it the next time |
| Trees.Tree.RefreshFriends | internal/p9fs/tree.go:108-133 | Replaces the friends by those built from the relationships, avatar files and all, and leaves the rest of the view as it was; names, versions and avatars are the settled ones |
| Trees.Tree.RefreshDms | internal/p9fs/tree.go:135-155 | Replaces the DMs by those rebuilt from the snapshot over what was shown, and leaves the rest of the view as it was; names, versions and avatars are the settled ones |
| Trees.Tree.RefreshGuilds | internal/p9fs/tree.go:157-182 | Replaces the communities by those built from the guilds and leaves the rest of the view as it was; communities and channel nodes survive, all others are new |
| Trees.Tree.Refresh | internal/p9fs/tree.go:103-183 | However the tree stood, friends and communities are as built from the snapshot alone, avatars included, and DMs as rebuilt over what was shown; each cache holds exactly the active ids; friends, DMs, communities and their channels keep their objects while their ids are there |
| Trees.SameRoomsOnce | internal/p9fs/tree.go:284-302 | Where each guild is listed once, a channel that is there before and after has the same node |
| TreeRuns.Step | internal/p9fs/tree.go:103-183 | One refresh in the terms of a run: what is there before and after is the same object, the caches hold exactly the ids at hand, and every node is old or new |
| TreeRuns.RefreshAll | internal/p9fs/tree.go:103-219 | After any run of refreshes the tree shows the last snapshot, DMs with the avatar files the run has left them, and every friend, DM, community and channel that all snapshots have is the object it was before the first |
| TreeRuns.DirectedDm | internal/p9fs/tree.go:144-148 | With an id each, a DM comes with a recipient exactly when it is a direct channel that lists one |
| TreeRuns.MadeWith | internal/p9fs/tree.go:193-208 | After any run from a new tree a DM has avatar files exactly when it had a recipient in the snapshot it came with |
| TreeRuns.AvatarExactly | internal/p9fs/tree.go:193-208 | And its avatar is as built from nothing exactly when it came with a recipient just if it has one now |
| TreeRuns.AvatarNeverAdded | internal/p9fs/tree.go:202-208 | Two snapshots from a new tree: a DM that comes without a recipient and gets one shows no avatar, where a rebuild would |
| Snapshots.AnyOrder | internal/core/store.go:94-105 | For a keyed account with one user per friend, the order in which maps are listed does not show in the tree, neither in a refresh nor in a rebuild |
| Snapshots.ListedOnce | internal/core/store.go:103-105 | A snapshot of a keyed account lists each guild once |
| Snapshots.FlatOrder | internal/core/store.go:94-105 | Listing keys in another order rearranges the specs and does nothing more |
| Refreshes.ProfileShows | internal/core/store.go:135-140 | An edited profile leaves the friends to be shown as they were exactly when it is quiet |
| Refreshes.ProfileSeen | internal/core/store.go:135-140 | A tree that matched the account matches it after a profile edit exactly when the edit is quiet: no observer is called |
| Refreshes.ProfileEditUnseen | internal/core/store.go:135-140 | A run in which the account is its own friend, listed without a user, and a profile edit leaves the tree showing the old profile with nothing owed |
| Refreshes.ChangeKeeps | internal/core/store.go:125-296 | Each update keeps: a stale tree has an observer call owed, or a refresh that has yet to take its snapshot |
| Refreshes.RefreshKeeps | internal/p9fs/tree.go:103-183 | Each step of a refresh keeps that too, with the three directories replaced one at a time |
| Refreshes.NoLostRefresh | internal/p9fs/tree.go:103-183 | For any interleaving of updates and refreshes from any number of threads: once no observer call is owed, waiting or running, another refresh from the account as it is would change nothing, avatars included |
| Refreshes.Refresh | internal/p9fs/tree.go:103-183 | A refresh that nothing interrupts leaves the tree object showing the store's account, so that another one would change nothing, channel nodes surviving |
| Refreshes.MatchIsUnique | internal/core/store.go:90-107 | With one user per friend any two such trees agree on friends and communities, and on DMs but for which of them have avatar files; they are equal exactly when they agree on that too |
| Refreshes.FriendsAtRest | internal/p9fs/tree.go:108-133 | At rest every friend's avatar shows the user the friend is listed with |
| Refreshes.DmsAtRest | internal/p9fs/tree.go:202-208 | At rest, after any interleaving from a new tree, a DM's avatar is as built from the account exactly when it came with a recipient just if it has one now |
| Refreshes.RestIsRebuild | internal/p9fs/tree.go:103-183 | At rest the whole tree is the one built from the account alone exactly when that holds of every DM |
| Listings.AccountShown | internal/p9fs/tree.go:103-183 | At rest the tree lists exactly the account's friends, their users filled in, its DMs and its guilds |
| Refreshes.CatchesUp | internal/p9fs/tree.go:103-106 | From any reachable state the pending calls, run one after the other, come to an end |
| Attachments.File.Update | internal/p9fs/attachments.go:177-186 | The version moves by one exactly when name, length or attachment changed, and the file takes all three |
| Attachments.Touch | internal/p9fs/attachments.go:111-120 | The file of an attachment is kept and brought up to date, or made |
| Attachments.Walk | internal/p9fs/attachments.go:110-124 | The loop over a message's attachments: files, entries over what was under info.json, and records |
| Attachments.SettledIsRebuild | internal/p9fs/attachments.go:102-131 | The files are those of the latest message, each with its assigned name, whatever there was before |
| Attachments.VersionsMove | internal/p9fs/attachments.go:177-186 | With distinct ids each file is updated once, from what it was |
| Attachments.ShelfMeaning | internal/p9fs/attachments.go:103-131 | Every entry but info.json leads to the file with that name; info.json leads to a file of the message with that name if there is one, else to what it led to before |
| Attachments.ShelfIsRebuild | internal/p9fs/attachments.go:103-121 | The entries are those of a new directory exactly when the message's own info.json is still in place or is covered again |
| Attachments.RendersInfoExactly | internal/render/render.go:48-67 | An attachment takes the name info.json exactly when it alone is called info.json |
| Attachments.FileShown | internal/p9fs/attachments.go:102-131 | With distinct ids an attachment's file goes by its escaped file name, suffixed exactly when another one has it too, and shows the attachment as the message has it |
| Attachments.InfoShown | internal/p9fs/attachments.go:108-131 | The message's own info.json has one record for each attachment, in order: the name of its file, and itself |
| Attachments.EntriesShown | internal/p9fs/attachments.go:108-131 | A node has a file for each attachment, and each entry leads to the file of that name |
| Attachments.Node.Reconcile | internal/p9fs/attachments.go:102-132 | A message's node shows what one built from nothing would; files survive; its own info.json survives exactly when no attachment takes its name |
| AttachmentIndexes.Collect | internal/p9fs/attachments.go:58-64 | The messages with an id and attachments, by id, the later one winning |
| AttachmentIndexes.CollectedExactly | internal/p9fs/attachments.go:58-64 | A message is listed exactly if it has an id and attachments, in its last such form |
| AttachmentIndexes.Overlay | internal/p9fs/attachments.go:68-73 | Pins over history, in whatever order the maps are walked |
| AttachmentIndexes.ReconcileMessage | internal/p9fs/attachments.go:76-93 | Works on one message's node and leaves the others untouched |
| AttachmentIndexes.ReconcileAll | internal/p9fs/attachments.go:76-93 | The pass over all messages, in any order: every node as its message says, files of staying attachments the same objects |
| AttachmentIndexes.Index.Update | internal/p9fs/attachments.go:58-100 | The directory lists exactly the messages of the last history and pins, pins winning, as an index built from those two; nodes and files survive while their ids do, all others are new |
| AttachmentRuns.ListingStep | internal/p9fs/attachments.go:67-73 | One more update replaces the listing of its source and nothing else |
| AttachmentRuns.NewRan | internal/p9fs/attachments.go:50-56 | A new index is one that has run no update |
| AttachmentRuns.InfoExactly | internal/p9fs/attachments.go:102-107 | After any run of updates a message has its own info.json exactly when, since it was last listed anew, no attachment of it took the name |
| AttachmentRuns.InfoIsLost | internal/p9fs/attachments.go:105-107 | Two updates after which no attachment is called info.json any more and the message's own is still gone |
| AttachmentRuns.Replay | internal/p9fs/attachments.go:58-132 | After any run of updates an index holds and shows the last history and pins of the whole log; messages that stay listed and attachments that stay attached keep their objects |
| Downloads.Reader.Open | internal/p9fs/attachments.go:234-277 | One look at the message, exactly when the link is missing or the server answers 401, 403 or 404; one download for the link there was and one for a fresh link. It succeeds exactly when the last of them is accepted, with that body. The file takes the fresh attachment under the name read before, which is its entry's exactly when no update changed the name after it was read |
| Downloads.FirstWithMeaning | internal/p9fs/attachments.go:266-276 | The attachment taken from the message is the first with the file's id, and there is none exactly when no attachment has it |
| Downloads.Reader.Read | internal/p9fs/attachments.go:199-232 | Whatever was read before, bytes returned are the attachment's from the offset on; reading on asks nobody; elsewhere it succeeds exactly when the open and the read do; after a failed move reading on at the old offset fails |
| PathNames.PathName | internal/p9fs/tree.go:329-360 | The loop computes the escaped name |
| PathNames.SafePathName | internal/render/render.go:69-94 | The renderer's loop computes the same function |
| PathNames.EscapeRoundTrip | internal/p9fs/tree.go:333-351 | Percent-decoding (section 2.1 of RFC 3986) undoes the escaping of every byte string |
| PathNames.NameRoundTrip | internal/p9fs/tree.go:329-360 | Percent-decoding the name of any non-empty string gives the string back |
| PathNames.NameCollision | internal/p9fs/tree.go:330-332 | Two strings share a name exactly when they are equal or are "" and "_" |
| PathNames.RuneEscaped | internal/p9fs/tree.go:333-351 | A well-formed rune is copied unless it is a slash, a percent sign or a control, which is spelt out in upper-case hexadecimal |
| PathNames.BrokenEscaped | internal/p9fs/tree.go:338-343 | A byte that is no part of a well-formed rune is spelt out |
| PathNames.NameKept | internal/p9fs/tree.go:329-360 | A name is the value itself exactly when that is well-formed, no dot entry, not empty and has nothing to escape |
| PathNames.EscapeClean | internal/p9fs/tree.go:338-350 | Escaped text is valid UTF-8 without slash, NUL or control bytes, even for malformed input |
| PathNames.NameSafe | internal/p9fs/tree.go:352-359 | A name is clean, not empty and neither "." nor ".." |
| Names.AssignNames | internal/p9fs/tree.go:306-320 | Each id gets its base, with a suffix exactly when the base is repeated |
| Names.AttachmentNames | internal/render/render.go:48-67 | The same with the suffix in front of the extension |
| Names.ExtShape | internal/render/render.go:60-61 | Stem and extension make up the base; the extension holds one dot, at its start, and is empty exactly without a dot |
| Names.SuffixedShape | internal/p9fs/tree.go:314-316 | The tilde and the last six characters of the id stand at the end, or in front of the last dot for attachments |
| Names.SuffixedInjective | internal/p9fs/tree.go:314-316 | A suffixed name determines base and id suffix, for decimal ids, in both styles |
| Names.EntryOf | internal/p9fs/tree.go:312-318 | With distinct ids an item is suffixed exactly when another has its base |
| Names.NameCollision | internal/p9fs/tree.go:306-327 | Two siblings share a name exactly when they share base and six-character suffix, or one's unrepeated base is spelled like the other's suffixed name |
| Names.CollisionExists | internal/p9fs/tree.go:322-327 | Seven-digit ids that agree on their last six digits do collide |
| Names.CountPermutation | internal/p9fs/tree.go:307-310 | Counts do not depend on the order of the items |
| Names.OrderIndependent | internal/p9fs/tree.go:306-320 | Neither do the names |
| Escaping.FourPassesAreOne | internal/render/render.go:151-157 | The four sequential replacements equal one pass that maps each byte |
| Escaping.EscapesUsed | internal/render/render.go:151-157 | That map sends backslash, CR, LF and tab to two characters each, and every other byte to itself |
| Escaping.ContentRoundTrip | internal/render/render.go:151-157 | One unescaping pass restores every string, and the escaped one has no CR, LF or tab |
| SendFrames.FrameConserves | internal/p9fs/files.go:742-780 | An accepted frame is header line, caption, separator and data, byte for byte |
| SendFrames.SendConserves | internal/p9fs/files.go:717-740 | Text is sent whole but for a final newline, anything else whole |
| SendFrames.TextExactly | internal/p9fs/files.go:717-736 | Data without a header is sent as text t exactly when it is taken for text and well-formed, is t but for one final newline, and t has 1 to 4000 runes |
| SendFrames.BareExactly | internal/p9fs/files.go:724-740 | It is sent as a bare attachment exactly when it is not empty and no such text, whole, with the type and the name chosen for it |
| SendFrames.RefusedExactly | internal/p9fs/files.go:717-736 | It is refused as empty or as too long exactly otherwise |
| SendFrames.TextRoundTrip | internal/p9fs/files.go:717-736 | Text written with a final newline is sent as it was exactly when it is well-formed, taken for text, of 1 to 4000 runes, and no header |
| SendFrames.FilenameExactly | internal/p9fs/files.go:782-796 | A file name is accepted exactly when it is well-formed, of 1 to 255 bytes, no dot entry, and has no slash, backslash or control byte |
| SendFrames.FrameParses | internal/p9fs/files.go:751-763 | A printed frame parses to its parts exactly when they are acceptable and the cut falls where it was printed |
| SendFrames.LfFrameRoundTrip | internal/p9fs/files.go:742-780 | The LF form round-trips exactly when name and parts are acceptable, the remainder does not start with a line break and has no CRLFCRLF, and its first LFLF is the separator |
| SendFrames.CrlfFrameRoundTrip | internal/p9fs/files.go:757-758 | The CRLF form round-trips exactly when name and parts are acceptable, the remainder does not start with a line break and its first CRLFCRLF is the separator |
| SendFrames.LfCaptionIsCut | internal/p9fs/files.go:759-760 | A caption with a blank line in it is cut there, the rest being taken for data |
| SendFrames.CrlfCaptionIsCut | internal/p9fs/files.go:757-758 | The same for the CRLF form |
| SendFrames.UncaptionedRoundTrip | internal/p9fs/files.go:753-756 | Without a caption every non-empty body round-trips in both forms |
| Commands.MessageRoundTrip | internal/p9fs/files.go:559-580 | A printed "id content" line parses back exactly when the id is decimal and the content is acceptable |
| Commands.LeadingSpaceIsLost | internal/p9fs/files.go:569 | Content that starts with a space comes back without it |
| Commands.ReactionRoundTrip | internal/p9fs/files.go:582-591 | A printed "id emoji" line parses back exactly when the id is decimal and the emoji is acceptable content without white space |
| Commands.MessageConserves | internal/p9fs/files.go:559-622 | An accepted line is id, white space, content and at most one line end |
| Commands.CommandTextExactly | internal/p9fs/files.go:608-622 | A command is well-formed text, less one final line end, and not empty |
| Commands.MessageExactly | internal/p9fs/files.go:559-580 | It is accepted exactly when it is a decimal id, white space, and content of 1 to 4000 runes that starts with none |
| Commands.ReactionExactly | internal/p9fs/files.go:582-591 | And as a reaction exactly when that content has no white space |
| Commands.IdCommandExactly | internal/p9fs/files.go:593-634 | Accepted with exactly one decimal id and white space around it |
| Text.SpaceFound | internal/p9fs/files.go:564 | The index is that of the first white space: whole runes that are none come before it, and -1 says exactly that there is none |
| Text.TrimSpaceParts | internal/p9fs/files.go:598 | What is trimmed off is white space, and what is left neither starts nor ends with any |
| Buffers.ReadsTile | internal/p9fs/nodes.go:70-79 | Consecutive reads of any counts join up to one read of their sum |
| Buffers.SliceBytes | internal/p9fs/nodes.go:70-79 | A read gives the data's bytes from the offset on, as many as were asked for or as there are |
| Buffers.ReadsAll | internal/p9fs/nodes.go:70-79 | Reads that ask for enough in all give all of the data |
| Buffers.SnapshotFile.Read | internal/p9fs/files.go:49-57 | The slice of the fid's own snapshot, or an error for one that is not open |
| Buffers.SnapshotFile.Open | internal/p9fs/files.go:36-48 | Refused for writing or when nothing is generated; no other fid changes |
| Buffers.PutAt | internal/p9fs/files.go:435-438 | Growing with zeros and copying is the update the image needs |
| Buffers.WriteAtImage | internal/p9fs/files.go:424-441 | One more write of the buffer is one more write of the zero-filled last-write-wins image |
| Buffers.CommandFile.Write | internal/p9fs/files.go:659-676 | After any accepted writes the fid's buffer is that image, its length the largest write end, within the limit; other fids and refused writes change nothing |
| Buffers.CommandFile.Close | internal/p9fs/files.go:443-454 | Hands over the image of all accepted writes and forgets the fid |
| Buffers.SettingFile.Open | internal/p9fs/files.go:178-199 | Either loads for reading or starts an empty buffer for writing |
| Buffers.SettingFile.Write | internal/p9fs/files.go:211-228 | As for a command file, with the setting's own limit |
| Buffers.SettingFile.Close | internal/p9fs/files.go:230-242 | Hands over the image if the fid was open for writing |
| Buffers.SequentialWrites | internal/p9fs/files.go:659-676 | Writing pieces one after the other gives their concatenation |
| Multipart.UploadAttachment | internal/fluxer/client.go:498-529 | Uploads the slice of each part in turn and stops at the first bad part, overrun or failed request |
| Multipart.SliceInRange | internal/fluxer/client.go:513-520 | Each uploaded slice is in range and not empty |
| Multipart.SlicesDisjoint | internal/fluxer/client.go:509-523 | Parts with distinct numbers never upload one byte twice |
| Multipart.TilesIffEnoughParts | internal/fluxer/client.go:505-525 | For distinct numbers the slices tile the data exactly when there are ceil(length / part size) parts |
| Multipart.PartIsBlock | internal/fluxer/client.go:513-521 | Part n carries block n of the data, to the part's own URL |
| Multipart.PartsReassemble | internal/fluxer/client.go:505-525 | The blocks in order are the data |
| Utf8.ValidConcat | internal/p9fs/tree.go:335-337 | Valid texts join to valid text |
| Utf8.DecodePrefix | internal/p9fs/tree.go:335-337 | What follows a whole rune does not change how it is decoded |
| Utf8.DecodeExactly | internal/p9fs/tree.go:335-337 | Decoding finds a rune exactly where its encoding stands, and none that is overlong, a surrogate or out of range |
| Utf8.EncodeDecode | internal/p9fs/tree.go:335-337 | Decoding undoes encoding, for every Unicode scalar value |
| Utf8.RunesAreStarts | internal/p9fs/files.go:732 | The number of runes of well-formed text is that of its bytes that continue no other |

## Left out

- HTTP, websocket, JSON and the 9P library: decoded payloads and answers are inputs.
- Heartbeat timers and their deadlines, reconnect backoff and jitter, and so the effect of the time of the last READY.
- Status counters, what the overflow callback does when it is called, configuration, flags, authentication.
- Rendering, timestamps, content-type sniffing, nonces and avatar URLs: library output, passed in or opaque.
- Loading the account at start: runs begin with any account keyed by its ids.
- Slices shared between a snapshot and a later event: channel lists are values here, and nothing is said about old snapshots staying unchanged.
- Opening a fid that is already open.
- 64-bit overflow of offsets, counts, the drop counter and part arithmetic: ruled out by preconditions, or the numbers are unbounded.
- OnGap and OnEvent are taken to be set, as the program's main function sets them; errors they return are only reported.
- The per-fid buffers are byte sequences that the methods replace, not arrays changed in place.
- Trees.Tree.Refresh: where two siblings share a name, which of them the entry leads to depends on the listing order, and the view compares nodes by id. The versions of channels and communities are stated for one community's refresh only.
- Trees.Community.Reconcile: a community keeps the id it is cached under, which the program holds in the cache only.
- Attachments.Node.Reconcile: an info.json that has been lost leads to whatever file last had the name; the model keeps it but says nothing of its contents.
- Downloads.Reader.Read: deadlines and cancellation are failures of a request, and a Close during a read is not interleaved.
- Downloads.Reader.Open: an update of the index between the file's update and the second look at its link is not interleaved.
- The tree's fixed files (me, status, inbox) and the parent links of directories.
