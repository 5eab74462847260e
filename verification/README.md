# Lifemail: verified models of the hard parts

Dafny models of the parts of the mail server in which a mistake would lose,
duplicate or misrepresent a user's data, with proofs over every input and every
run. `dafny verify dfyconfig.toml` checks all of it.

| files | what they model |
|---|---|
| `ChangeStore`, `FeedWindow`, `CollectionSync`, `DateFilter` | the change feed, one window of it, the ActiveSync Sync request as the server runs it, and when it leaves out old mail |
| `Replication`, `ReplicationSafety`, `ReplicationRuns` | Sync as a replication protocol between writers, server, network and device: the invariant, every step, every run |
| `Draining`, `Uploads`, `Unloadable` | a device that keeps pulling; what an answer says of each item, uploaded ones included; items that cannot be loaded |
| `Pruning` | pruning of the feed, once and over runs |
| `WbxmlEncoder`, `WbxmlDecoder`, `WbxmlRoundTrip`, `WbxmlReading`, `WbxmlTokens` | the WBXML codec, what it reads that it never writes, and its token tables |
| `FolderHierarchy`, `HierarchyReplication` | the folder list and FolderSync with its split read |
| `PingSlots`, `PingThrottle` | the one long poll per account and device, and its notification throttle |
| `EventHub`, `EventStreams` | the event hub and what its readers receive |
| `InboundDelivery`, `InboundRetries` | the inbound endpoint, what retries add up to, and what overlapping ones do |
| `OutboundBackoff`, `OutboundQueue`, `OutboundRuns` | the outbound queue, its worker and its 64-bit backoff |
| `FailureLimiter` | the limiter on authentication failures, and how far its window slides |
| `FreeBusy` | merged free/busy strings |
| `Replacing`, `ICalText`, `ICalFold` | iCalendar escaping and folding |
| `ImapTokens` | IMAP quoting and tokenising |
| `ThreadPaging` | keyset paging of a thread |

Objects the source updates in place are classes; their methods are proved against
functions on values, and the theorems are about those functions. Where requests
run side by side, a state machine takes the same functions as its steps.

## Main results

- **Sync converges.** Writers change an item first and append to the feed
  afterwards; a Sync reads the feed, loads its items one by one while writers go
  on, and saves its cursor; its answer may be lost. Over every such run: equal keys
  mean the device holds exactly the known items, and once nothing is pending it
  shows the folder. A lost answer with commands is always noticed. With no writers
  a device is done after as many pulls as rows are pending. A device that does not
  start over never notices how often the feed is pruned.
- **WBXML round-trips** onto a normal form under every lookup whose names invert
  its tokens; the decoder is total and creates no more nodes than there are bytes,
  in documents that fail, too.
- **FolderSync survives its split read**, late answers and repeated answers, over
  every run from a new account. It needs the default folders a new account is
  created with: they keep the folder counter above 0, where key 1 would hide the
  first folder (`HierarchyReplication.FirstFolder`).
- **Registries are safe** over all interleavings: no channel is closed twice or
  sent to when closed, and a stream misses an event only when its buffer is full.
- **Inbound mail is delivered exactly once** under retries that follow one another.
  **Outbound mail** fails at most twenty times a message and manual retry, also when
  messages are removed while the worker holds them; a message is given up no sooner
  than 843 minutes after its first failure. The **limiter** and the **throttle**
  behave as if they never dropped an entry.
- **Text formats come back**: escaped and folded iCalendar text, IMAP string lists
  and arguments with nested groups.

## Where the code falls short of its promises

Each of these has a lemma that says exactly when the promise holds.

- `itemCommand` remarks that it never fails silently. A live item whose last
  consumed row is no delete is named in the answer if and only if it can be loaded
  and is not filtered by date; the cursor passes its row either way
  (`Unloadable.NamedIffLoads`, `Unloadable.CursorPasses`, with the message of
  `Unloadable.Vanished`). It then stays off the device until a row is appended for
  it or the device starts over (`Unloadable.LoadErrorLosesItem`).
- `PruneChanges` is documented to remove nothing a client may still need. It
  removes what a device new to the folder, or one starting over, needs: such a
  device gets the folder if and only if no live item has lost its rows
  (`Draining.Restart`, `Pruning.InitialAfterPrune`).
- A device is not told when an item it uploaded goes: its upload is never entered in
  the known set, and a Delete is sent exactly for known items
  (`Uploads.DeleteTold`, `Uploads.UploadNotLearned`, `Uploads.UploadOrphaned`).
- FolderCreate, FolderUpdate and FolderDelete hand out the newest key without the
  changes that led to it (`HierarchyReplication.AdoptNewestKey`).
- The limiter's window is documented as sliding; it is fixed at the first failure.
  As long as nobody records failures of a locked key it slides if and only if at most
  two failures lock one (`FailureLimiter.SlidesIff`), otherwise if and only if every
  failure does (`FailureLimiter.SlidesAlwaysIff`). That locks are earned holds always
  (`FailureLimiter.LockIsEarned`).
- A free/busy slot shows an event that ends less than half an hour before it
  starts (`FreeBusy.OverlapIff`).
- Messages without a Message-ID are stored again on every retry
  (`InboundRetries.SingleCopiesIff`). Looking for a copy and storing one are two
  statements and no index keeps ids unique, so retries that overlap can store a
  message as often as they overlap, and no more (`InboundRetries.CopiesIff`).
- When its anchor is gone, an open thread is promised the full list; it gets one
  page (`ThreadPaging.LostAnchor`).
- Not every iCalendar line is escaped: UIDs (`internal/ical/ical.go`, lines 74 and
  106, with client text from `internal/eas/appdata.go`, line 618), mail addresses and common
  names (lines 180 to 205; `quote`, lines 237 to 240, takes out quotation marks only)
  are written as they are. A line without a line break and space survives folding
  (`ICalFold.GuardedFold`); one that needs no folding does if and only if it holds
  none (`ICalFold.ShortFold`); the exact condition for all lines is
  `ICalFold.FoldRoundTrip`, and longer lines can be lucky (`ICalFold.TornMark`). A UID
  that is lost is `ICalFold.UidLost`. Escaped text always survives
  (`ICalFold.PropertySurvives`).

## Model

| member | source | states |
|---|---|---|
| `ChangeStore.Store.AddChange` | internal/store/sync.go:13-19 | appends one row under the next sequence number; the feed stays strictly ordered |
| `ChangeStore.Store.SaveSyncState` | internal/store/sync.go:78-86 | upserts one cursor row and touches no other |
| `ChangeStore.Store.ForgetAllItems` | internal/store/sync.go:131-136 | forgets one device-folder's known items and no others |
| `ChangeStore.Store.ResetSyncState` | internal/store/sync.go:89-96 | drops the cursor row and the known items of one device-folder and no others |
| `ChangeStore.Store.MarkItemKnown` | internal/store/sync.go:114-120 | adds one id to one known set; every other known set stays |
| `ChangeStore.Store.ForgetItem` | internal/store/sync.go:123-128 | removes one id from one known set; every other known set stays |
| `ChangeStore.Store.ResetDeviceSync` | internal/store/devices.go:116-126 | drops exactly the rows of one device, in every folder |
| `ChangeStore.Store.PruneChanges` | internal/store/maintenance.go:6-14 | keeps exactly the rows some cursor of their folder has not passed (all rows of folders without cursors), in order, and counts the rest |
| `ChangeStore.SinceMember` | internal/store/sync.go:22-33 | a row is returned exactly when it is in the feed, in the folder and past the cursor |
| `ChangeStore.SinceOrdered` | internal/store/sync.go:22-33 | rows come strictly ordered by sequence number |
| `ChangeStore.SinceSuffix` | internal/store/sync.go:22-33 | moving the cursor onto the c-th pending row leaves exactly the rows behind it pending |
| `ChangeStore.UnspentMember` | internal/store/maintenance.go:6-14 | a row survives pruning if and only if it was there and some cursor of its folder is below it, or no cursor row belongs to its folder |
| `FeedWindow.CollectWindow` | internal/eas/sync.go:157-190 | the scan with its index map computes the window: which rows are consumed and the collapsed work list |
| `FeedWindow.CollateMeaning` | internal/eas/sync.go:174-190 | the work list names every item with an unskipped consumed row, once, under the kind of its last such row |
| `FeedWindow.CollateBound` | internal/eas/sync.go:181-183 | no more items than the window allows |
| `FeedWindow.CollateStable` | internal/eas/sync.go:174-190 | items keep the place of their first row: a longer run only adds to the end of the list |
| `FeedWindow.WindowFilled` | internal/eas/sync.go:165-183 | a row is left behind only because the list is full and the row is not skipped, or because as many rows were consumed as are fetched at a time; and no row was taken into a full list |
| `FeedWindow.ConsumedRun` | internal/eas/sync.go:165-190 | the rows consumed are a run of the pending ones, and the new cursor leaves exactly the rest pending; something is consumed whenever something is pending |
| `FeedWindow.WindowConsumption` | internal/eas/sync.go:157-204 | consumed rows are exactly the folder's rows in (after, newSeq]; at most `window` distinct ids, exactly those with an unskipped consumed row; the cursor moves whenever something is pending |
| `CollectionSync.Admission` | internal/eas/sync.go:48-69 | the stored key is let in, key 0 starts over whatever the rows were, any other key gets Status 3 and changes nothing; the key of an answer is the one the next request is let in with |
| `CollectionSync.KeyRaised` | internal/eas/sync.go:103-114 | the key goes up by one if and only if the cursor moved, a client command was applied or rows remain; MoreAvailable says exactly that rows remain |
| `CollectionSync.ClampWindow` | internal/eas/sync.go:39-45 | the requested size up to 500, and 100 for sizes that are not positive |
| `CollectionSync.ItemCommand` | internal/eas/sync.go:206-240 | one item becomes Add, Change, Delete or nothing, and the known set, in memory and stored, follows |
| `CollectionSync.ServerChanges` | internal/eas/sync.go:157-204 | new cursor, MoreAvailable, commands and known set are those of the window's work list, front to back |
| `CollectionSync.SyncAdmitted` | internal/eas/sync.go:95-131 | the key is raised exactly when the cursor moved, a client command was applied or more is pending |
| `CollectionSync.SyncCollection` | internal/eas/sync.go:27-132 | the whole request: Status 5 and Status 3 without effect, otherwise answer, cursor row and known set as the request function says, no other device-folder touched |
| `DateFilter.FilterElsewhere` | internal/eas/sync.go:85-95 | later requests, and requests for other folders, are answered and recorded alike whatever filter they name and whenever they come |
| `DateFilter.NamedElsewhere` | internal/eas/sync.go:85-95 | there a live listed item that no row removed is named if and only if it can be loaded, however old it is |
| `DateFilter.NamedAtStart` | internal/eas/sync.go:85-154 | on the initial sync of an email folder, filter types 1 to 8 leave out exactly the items dated before 1, 3, 7, 14, 30, 90, 180 or 365 days ago; undated items stay, other filter types leave out nothing |
| `Replication.InvInit` | internal/eas/sync.go:27-240 | the invariant holds of an empty store and a fresh device |
| `Replication.LastSinceDrop` | internal/store/maintenance.go:6-14 | dropping rows up to a mark hides nothing from a cursor at or past it |
| `Replication.WindowCurrent` | internal/eas/sync.go:165-190 | a work-list entry carries the last word on its item among the consumed rows, and unlisted items have none |
| `ReplicationSafety.WriteKeeps` | internal/store/messages.go:266-275 | a write that still owes its feed rows keeps the invariant |
| `ReplicationSafety.AppendKeeps` | internal/store/sync.go:13-19 | appending an owed row keeps the invariant, also in the middle of a Sync |
| `ReplicationSafety.BeginKeeps` | internal/eas/sync.go:48-69 | the key check and the reading of the feed keep the invariant |
| `ReplicationSafety.LoadKeeps` | internal/eas/sync.go:206-240 | handling one item, while writers go on, keeps the invariant |
| `ReplicationSafety.EndKeeps` | internal/eas/sync.go:103-114 | saving the cursor and answering keeps the invariant |
| `ReplicationSafety.DeliverKeeps` | internal/eas/sync.go:116-131 | a delivered response keeps the invariant |
| `ReplicationSafety.LoseKeeps` | internal/eas/sync.go:103-110 | a lost response keeps the invariant |
| `ReplicationSafety.DeviceResetKeeps` | internal/eas/sync.go:54-65 | a device that starts over keeps the invariant |
| `ReplicationSafety.ServerResetKeeps` | internal/store/devices.go:116-126 | a server-side reset keeps the invariant |
| `ReplicationSafety.PruneKeeps` | internal/store/maintenance.go:6-14 | pruning up to the device's cursor keeps the invariant |
| `ReplicationSafety.StepKeeps` | internal/eas/sync.go:27-240 | every enabled step keeps the invariant |
| `ReplicationRuns.RunKeeps` | internal/eas/sync.go:27-240 | so does every run |
| `ReplicationRuns.Convergence` | internal/eas/sync.go:27-240 | after any run, once the keys agree and nothing is pending, the device has every item that is not left out exactly while it lives in the folder, and with its present content |
| `ReplicationRuns.PlainConvergence` | internal/eas/sync.go:27-240 | without pruning, filter and load errors the device's view then equals the live items of the folder |
| `ReplicationRuns.NoSilentLoss` | internal/eas/sync.go:206-240 | in every reachable state: equal keys mean device items = known set; every Add on the wire names an absent id, every Change or Delete a present one |
| `ReplicationRuns.LostResponseNoticed` | internal/eas/sync.go:66-69 | after a lost response with commands the old key is refused with Status 3 and nothing moves |
| `ReplicationRuns.InsertHonest` | internal/store/messages.go:100-138 | an insert with an "add" row meets what the protocol asks of writers |
| `ReplicationRuns.UpdateHonest` | internal/store/messages.go:142-153 | so does an update with a "change" row, also one that brings a deleted item back |
| `ReplicationRuns.SoftDeleteHonest` | internal/store/messages.go:266-269 | so does a soft delete with a "delete" row |
| `ReplicationRuns.MoveHonest` | internal/store/messages.go:272-275 | so does a move with a row in each folder, in either order |
| `Draining.AnsweredIsServe` | internal/eas/sync.go:27-132 | an undisturbed run of protocol steps is what the request handler computes |
| `Draining.PullKeeps` | internal/eas/sync.go:27-132 | a pull with its response delivered keeps the invariant and changes no item and no feed row |
| `Draining.RefusedPull` | internal/eas/sync.go:66-69 | a refused device is back at key 0 after one pull, and accepted by the next |
| `Draining.PullProgress` | internal/eas/sync.go:103-110 | an accepted pull with rows pending consumes some and raises the key; with none pending it changes nothing; MoreAvailable says exactly that rows remain and implies the cursor moved |
| `Draining.PullStale` | internal/eas/sync.go:157-240 | a pull never touches items without feed rows |
| `Draining.Drain` | internal/eas/sync.go:157-204 | with no writers the device is quiescent after as many pulls as rows are pending, shows the folder, and further pulls change nothing |
| `Draining.Restart` | internal/eas/sync.go:54-65 | starting over delivers exactly the live items that still have feed rows: the folder, if and only if no live item has lost its rows |
| `Uploads.WorkListed` | internal/eas/sync.go:192-240 | a listed item gets the one command its verdict and the known set call for, and no other; the known set follows |
| `Uploads.WorkUnlisted` | internal/eas/sync.go:192-198 | nothing is said of unlisted items, and they stay as known as they were |
| `Uploads.DeleteTold` | internal/eas/sync.go:206-240 | a Delete is sent if and only if a consumed row named the item, it is gone or deleted, and the server thinks the device has it |
| `Uploads.UploadNotLearned` | internal/eas/sync.go:316-381 | the request that uploads an item leaves it out of the known set and says nothing about it |
| `Uploads.UploadOrphaned` | internal/eas/sync.go:232-239 | so when an uploaded item goes before it was ever sent, no answer takes it off the device |
| `Unloadable.NamedIffLoads` | internal/eas/sync.go:206-240 | a live listed item that no row removed is named in the answer if and only if it can be loaded and the date filter lets it through |
| `Unloadable.CursorPasses` | internal/eas/sync.go:173-190 | its row lies between the old and the new cursor all the same |
| `Unloadable.Vanished` | internal/eas/sync.go:211-216 | one live message, one row, one load error: an empty answer, a raised key, nothing pending |
| `Unloadable.StaysPassed` | internal/eas/sync.go:157-240 | over every later run the device is told nothing of an item the cursor has passed, until a row is appended for it or the device starts over |
| `Unloadable.BrokenPullPasses` | internal/eas/sync.go:157-240 | a pull in which the last word on a live item met a load error leaves the device without it and the cursor past it |
| `Unloadable.LoadErrorLosesItem` | internal/eas/sync.go:211-216 | so a load error in one Sync keeps a live item off the device through every such run |
| `Pruning.NoCursorKept` | internal/store/maintenance.go:6-14 | the feed of a folder nobody holds is left alone |
| `Pruning.PrunedFeed` | internal/store/sync.go:22-50 | past its own cursor, whatever is appended later, a device sees the unpruned feed |
| `Pruning.PruneInvisible` | internal/store/maintenance.go:6-14 | the next request of a device with a cursor row is answered and recorded as without pruning |
| `Pruning.CaughtUpPrune` | internal/store/maintenance.go:6-14 | when all devices have caught up pruning empties the folder's feed |
| `Pruning.InitialAfterPrune` | internal/store/maintenance.go:3-5 | then a device new to the folder gets nothing at all: the comment's "nothing a client may still need" is false of it |
| `Pruning.PruneIsStep` | internal/store/maintenance.go:6-14 | for one folder pruning is the protocol's prune step, with a mark no device has yet to reach |
| `Pruning.AskAlike` | internal/eas/sync.go:48-132 | a request that does not start over gets the same answer from two feeds that agree past the cursor, and they agree past the new one |
| `Pruning.PruneAlike` | internal/store/maintenance.go:6-14 | pruning one of two such feeds keeps them alike |
| `Pruning.PruningUnnoticed` | internal/store/maintenance.go:3-14 | over every run of writes, appends, requests, other devices and prunes, a device that never starts over gets all answers, rows and pending rows of a server that never prunes |
| `WbxmlEncoder.SplitDigits` | internal/wbxml/wbxml.go:388-398 | the five-byte buffer holds the base-128 digits of every 32-bit value |
| `WbxmlEncoder.Encoder.WriteMB` | internal/wbxml/wbxml.go:388-406 | appends the multi-byte integer of section 5.1 of WAP-192-WBXML |
| `WbxmlEncoder.Encoder.WriteNode` | internal/wbxml/wbxml.go:120-130 | appends the code-page switch and the element, and follows the page; fails exactly when some name is missing from its page |
| `WbxmlEncoder.Encoder.WriteElement` | internal/wbxml/wbxml.go:126-158 | appends the token with its content bit, the content and END |
| `WbxmlEncoder.Encoder.WriteText` | internal/wbxml/wbxml.go:145-155 | appends opaque data, or an inline string without its NULs |
| `WbxmlEncoder.Encoder.WriteChildren` | internal/wbxml/wbxml.go:139-144 | appends the children in order, each from the page the one before left |
| `WbxmlEncoder.EncodeDocument` | internal/wbxml/wbxml.go:100-113 | the header and the encoded root, or failure |
| `WbxmlDecoder.Decoder.MB` | internal/wbxml/wbxml.go:348-362 | reads at most five bytes, wrapping at 32 bits; the cursor ends behind them |
| `WbxmlDecoder.Decoder.InlineString` | internal/wbxml/wbxml.go:364-375 | reads up to the next NUL or fails at the end of the data |
| `WbxmlDecoder.Decoder.SkipAttrs` | internal/wbxml/wbxml.go:314-346 | skips an attribute list; terminates on every input |
| `WbxmlDecoder.Decoder.SkipAttr` | internal/wbxml/wbxml.go:325-344 | skips one attribute, opaque data possibly past the end |
| `WbxmlDecoder.Decoder.Element` | internal/wbxml/wbxml.go:223-246 | parses one element, moving cursor and page and creating nodes as the parsing functions say; terminates on every input |
| `WbxmlDecoder.Decoder.Content` | internal/wbxml/wbxml.go:247-307 | the content loop, branch by branch |
| `WbxmlDecoder.Decoder.Text` | internal/wbxml/wbxml.go:262-303 | inline, opaque and string-table text; no index out of range |
| `WbxmlDecoder.ReadPrelude` | internal/wbxml/wbxml.go:169-184 | header integers and string table, or failure |
| `WbxmlDecoder.ReadBody` | internal/wbxml/wbxml.go:186-212 | the first element is the root, later ones are created and dropped; stray switches and ENDs are skipped |
| `WbxmlDecoder.DecodeDocument` | internal/wbxml/wbxml.go:161-213 | the parser that runs equals the parsing function on every byte string, and creates no more nodes than there are bytes, failing documents included |
| `WbxmlDecoder.ReadMB` | internal/wbxml/wbxml.go:348-362 | on success the cursor advances and stays within the data |
| `WbxmlDecoder.ParseElement` | internal/wbxml/wbxml.go:223-307 | on success the cursor advances and stays within the data |
| `WbxmlDecoder.ParseContent` | internal/wbxml/wbxml.go:247-307 | on success the cursor advances and stays within the data |
| `WbxmlDecoder.ElementCount` | internal/wbxml/wbxml.go:223-307 | the nodes created for an element that parses are its tree |
| `WbxmlDecoder.ElementMadeBound` | internal/wbxml/wbxml.go:223-307 | an element creates at most one node a byte it takes, or a byte left when it fails |
| `WbxmlDecoder.MadeBound` | internal/wbxml/wbxml.go:161-307 | on every byte string a parse creates at most one node a byte: behind the root and in failing documents, too |
| `WbxmlDecoder.DecodeCount` | internal/wbxml/wbxml.go:161-213 | a decoded tree is part of what was created, hence has at most as many nodes as the document has bytes |
| `WbxmlRoundTrip.MultiByteBack` | internal/wbxml/wbxml.go:348-406 | a written multi-byte integer reads back, for every 32-bit value |
| `WbxmlRoundTrip.InlineBack` | internal/wbxml/wbxml.go:364-375 | a NUL-free inline string reads back |
| `WbxmlRoundTrip.OpaqueBack` | internal/wbxml/wbxml.go:146-149 | opaque text reads back byte for byte, marked binary |
| `WbxmlRoundTrip.PlainBack` | internal/wbxml/wbxml.go:150-155 | plain text reads back without its NULs |
| `WbxmlRoundTrip.ElementBack` | internal/wbxml/wbxml.go:120-158 | an encoded element reads back as its normal form and leaves the parser on the encoder's page |
| `WbxmlRoundTrip.ChildrenBack` | internal/wbxml/wbxml.go:139-144 | encoded children add exactly their normal forms, and the code pages stay equal throughout |
| `WbxmlRoundTrip.RoundTrip` | internal/wbxml/wbxml.go:100-213 | under every faithful lookup, whatever tree the encoder accepts decodes to its normal form |
| `WbxmlRoundTrip.CleanRoundTrip` | internal/wbxml/wbxml.go:100-213 | a tree with nothing the format would lose (text or children, NULs in opaque text only, known names) is accepted and comes back exactly as it is |
| `WbxmlRoundTrip.HeaderDeclares` | internal/wbxml/wbxml.go:100-113 | every document declares version 1.3, public id 1, character set 106 and no string table, in integers that read back as such; the body stands behind |
| `WbxmlRoundTrip.LeafOnWire` | internal/wbxml/wbxml.go:100-158 | a leaf with plain text off the first page, byte by byte |
| `WbxmlRoundTrip.StripNulSplit` | internal/wbxml/wbxml.go:150-155 | exactly the NULs are dropped |
| `WbxmlReading.IntegerRead` | internal/wbxml/wbxml.go:348-362 | an integer ends with its first byte below 128, one of at most five, and is worth its digits modulo 2^32; there is none if and only if no such byte comes in time |
| `WbxmlReading.UnnamedToken` | internal/wbxml/wbxml.go:231-235 | a token without a name is called "x" and two digits that read back as the token |
| `WbxmlReading.TableText` | internal/wbxml/wbxml.go:287-303 | either form of reference adds exactly the string at the offset: up to the next NUL or the end of the table, nothing behind it |
| `WbxmlReading.AttributesSkipped` | internal/wbxml/wbxml.go:314-346 | an attribute list is skipped to the byte behind its END, whatever its values hold |
| `WbxmlReading.PlainHead` | internal/wbxml/wbxml.go:223-246 | an element without attributes: its content is read from behind its token |
| `WbxmlReading.ElementAttributes` | internal/wbxml/wbxml.go:223-246 | an element with attributes is the element without them: its content is read from behind their END |
| `WbxmlRoundTrip.EncodableNamed` | internal/wbxml/wbxml.go:126-129 | the encoder accepts exactly the trees whose every element has a name on its page |
| `WbxmlTokens.BuildPage` | internal/eas/tokens.go:197-208 | token and name tables of one page, gaps left out |
| `WbxmlTokens.NewCodec` | internal/eas/tokens.go:192-210 | tables for exactly the pages given, whatever order they are ranged over in |
| `WbxmlTokens.PageInverse` | internal/eas/tokens.go:212-228 | on a page of at most 59 names Name undoes Token, with tokens 0x05 to 0x3F |
| `WbxmlTokens.TokenPlace` | internal/eas/tokens.go:197-208 | name number i of a page has token i + 5, and a gap has none |
| `WbxmlTokens.CodecRoundTrip` | internal/eas/tokens.go:192-228 | with such pages encoding fails exactly on unnamed elements and otherwise round-trips |
| `FolderHierarchy.Folders.constructor` | internal/store/users.go:67-112 | a new account has its default folders, each under a number of its own from 1 on |
| `FolderHierarchy.Folders.Create` | internal/store/folders.go:63-104 | a new row under the next number, or nothing when a unique name is violated |
| `FolderHierarchy.Folders.Rename` | internal/store/folders.go:166-199 | the name and the number of one row, nothing else |
| `FolderHierarchy.Folders.Reparent` | internal/store/folders.go:171-199 | the parent and the number of one row, nothing else |
| `FolderHierarchy.Folders.Delete` | internal/store/folders.go:177-199 | a tombstone under the next number |
| `FolderHierarchy.FolderSync` | internal/eas/folders.go:10-61 | Status 9 for a key from the future, otherwise the changes past the key and the clamped counter |
| `FolderHierarchy.ApplyRows` | internal/eas/folders.go:24-49 | applying a response says something about exactly the folders changed past `since`, in whatever order the rows come |
| `HierarchyReplication.StepKeeps` | internal/eas/folders.go:10-61 | with key and rows read at different times, every step, late and repeated answers included, keeps the view right about every folder not changed past the key |
| `HierarchyReplication.RunKeeps` | internal/eas/folders.go:10-61 | so does every run |
| `HierarchyReplication.DeliverAgrees` | internal/eas/folders.go:50-60 | any sound answer not ahead of the device may be applied, however late |
| `HierarchyReplication.RoundIsRun` | internal/eas/folders.go:10-61 | one undisturbed sync makes the view the live folders |
| `HierarchyReplication.Convergence` | internal/eas/folders.go:10-61 | after any run from a provisioned account the view is right up to its key, and one undisturbed sync completes it: exactly the live folders, each with the parent, name, kind and class of its row, the class "Email" where the row has none |
| `HierarchyReplication.NewAccount` | internal/store/users.go:67-78 | the first sync of a new account brings eight folders, with these names, kinds and classes, and no others |
| `HierarchyReplication.FirstFolder` | internal/eas/folders.go:50-53 | why accounts are created with folders: what writers do between two syncs is always delivered if and only if the counter had left 0 at the first |
| `HierarchyReplication.FirstFolderMissed` | internal/eas/folders.go:50-53 | the folder an account without folders would keep from its device |
| `HierarchyReplication.AdoptNewestKey` | internal/eas/folders.go:63-69 | adopting the newest key after a folder command is safe for every right view if and only if no other folder changed past the old key |
| `PingSlots.Registry.Acquire` | internal/eas/misc.go:115-127 | cancels the poll it replaces and registers a new open channel; never closes a closed one |
| `PingSlots.Registry.Release` | internal/eas/misc.go:129-135 | removes the entry only if it is still the caller's own |
| `PingSlots.Registry.Cancel` | internal/eas/misc.go:141-148 | closes and removes the registered poll; never closes a closed one |
| `PingSlots.StepKeeps` | internal/eas/misc.go:115-148 | every step keeps the invariant and closes only an open channel |
| `PingSlots.RunKeeps` | internal/eas/misc.go:115-148 | over every run a channel is closed as often as its state says: at most once |
| `PingSlots.PingSafety` | internal/eas/misc.go:115-148 | over all interleavings: closed at most once, registered means open, at most one uncancelled poll a key, no entry left when no poll runs |
| `PingSlots.StaleEnd` | internal/eas/misc.go:129-135 | a stale release leaves newer polls alone |
| `PingSlots.BeginCancels` | internal/eas/misc.go:115-127 | a new poll ends every earlier one of its key and no other |
| `PingThrottle.Throttle.ShouldNotify` | internal/eas/misc.go:169-192 | muted or announced, and the table after the sweep |
| `PingThrottle.ThrottleRefines` | internal/eas/misc.go:169-192 | under a monotone clock the sweep is invisible: a call is muted exactly when the last announcement of its key, told from the history, was for the same position less than 30 seconds ago |
| `EventHub.Server.Publish` | internal/api/events.go:81-99 | offers the event to exactly the account's streams, stamped unless it has a time; a full buffer drops it; never sends on a closed channel |
| `EventHub.Server.SendAll` | internal/api/events.go:93-98 | each listed stream is offered the event once, others untouched |
| `EventHub.Server.Subscribe` | internal/api/events.go:121-141 | refuses exactly when closed, nameless or at sixteen streams; otherwise adds one open, empty channel |
| `EventHub.Server.Unsubscribe` | internal/api/events.go:173-188 | closes and unlists a listed channel, and does nothing to any other |
| `EventHub.Server.Close` | internal/api/events.go:155-171 | closes every listed channel exactly once, in whatever order the map is ranged over |
| `EventHub.Server.CloseAccount` | internal/api/events.go:165-169 | closes one account's channels and no others |
| `EventHub.PublishKeeps` | internal/api/events.go:81-99 | publishing keeps: listed if and only if open, at most sixteen a user |
| `EventHub.SubscribeKeeps` | internal/api/events.go:121-141 | so does subscribing |
| `EventHub.UnsubscribeKeeps` | internal/api/events.go:173-188 | so does unsubscribing |
| `EventStreams.HubSafety` | internal/api/events.go:81-188 | over every interleaving the hub invariant holds and no channel reopens |
| `EventStreams.StreamOrder` | internal/api/events.go:93-98 | a stream is given an in-order subsequence of what was published to its account while it was open, one event short for each time its buffer was full, hence all of it while there is room |
| `EventStreams.HeardOwn` | internal/api/events.go:81-99 | a stream hears its own account's publishes only: all while open, none after closing |
| `InboundDelivery.DomainOf` | internal/api/inbound.go:346-351 | what follows the last @, or nothing |
| `InboundDelivery.Inbound.Serve` | internal/api/inbound.go:132-181 | resolving and delivering as one attempt: status, copies and forwards |
| `InboundDelivery.Inbound.Deliver` | internal/api/inbound.go:183-286 | the delivery loop and the status it ends in |
| `InboundDelivery.Inbound.DeliverOne` | internal/api/inbound.go:185-278 | one target: forwarded, delivered or skipped, with its effect |
| `InboundRetries.ResolveMeaning` | internal/api/inbound.go:146-172 | each non-empty address becomes one target, unknown, or a failure, and the targets are distinct |
| `InboundRetries.RefusedLeavesNothing` | internal/api/inbound.go:174-184 | 550 if and only if some recipient is unknown without a catch-all; refusals and failed lookups leave no effect |
| `InboundRetries.DeliverCopies` | internal/api/inbound.go:209-262 | copies are never taken back; an account gains at most one, and only if targeted |
| `InboundRetries.DeliverServes` | internal/api/inbound.go:189-262 | a target without a fault holds a copy or has been sent to |
| `InboundRetries.EffectsExact` | internal/api/inbound.go:189-262 | copies and forwards are exactly those of the account targets that store and of the catch-all targets the relay accepted |
| `InboundRetries.AttemptExact` | internal/api/inbound.go:183-286 | with every recipient resolved: 500 if and only if some account met a storage fault, 200 if and only if none did and the relay accepted every catch-all target, 502 otherwise |
| `InboundRetries.RetryCopies` | internal/api/inbound.go:214-222 | the same over any number of attempts, one after the other |
| `InboundRetries.ExactlyOnce` | internal/api/inbound.go:132-286 | for a message with an id and any number of retries, one after the other: at most one copy an account gains, several addresses or not; a 200 means every account holds a copy and every catch-all destination was sent to |
| `InboundRetries.SingleCopiesIff` | internal/store/messages.go:252-263 | copies stay single over all retries, one after the other, if and only if the Message-ID is not empty |
| `InboundRetries.AttemptIsRun` | internal/api/inbound.go:214-262 | undisturbed, the check and the insert of an attempt do what the delivery of one target does |
| `InboundRetries.RaceBound` | internal/api/inbound.go:219-252 | over every interleaving a message with an id is stored at most as often as attempts ever stand between check and insert at once |
| `InboundRetries.CopiesIff` | internal/store/migrations/0001_init.sqlite.sql:70 | over all runs with at most n attempts between check and insert an account holds at most m copies if and only if n is 0, or the message has an id and n is at most m: single copies exactly when no two overlap |
| `OutboundBackoff.ShiftExact` | internal/outbound/worker.go:30-31 | up to 28 places the 64-bit shift is a multiplication |
| `OutboundBackoff.ShiftCoarse` | internal/outbound/worker.go:30-31 | from 31 places on only multiples of 2^42 are left |
| `OutboundBackoff.BackoffExact` | internal/outbound/worker.go:26-35 | with wrapping shifts the delay is min(2^(n-1), 60) minutes for every n >= 1 |
| `OutboundQueue.Queue.EnqueueOutbound` | internal/store/outbox.go:57-77 | a fresh row, due at once |
| `OutboundQueue.Queue.DueOutbound` | internal/store/outbox.go:81-98 | due rows of the table, each once and in id order, no more than the limit; a due row left out comes after all of a full batch |
| `OutboundQueue.Queue.RetryOutbound` | internal/store/outbox.go:155-160 | the row with the id is rewritten in place, every other row stays where and what it was |
| `OutboundQueue.Queue.RetryOutboundNow` | internal/store/outbox.go:134-139 | the row with the id has no attempts behind it and is due at any time from 0 on; every other row stays |
| `OutboundQueue.Queue.DeleteOutbound` | internal/store/outbox.go:163-176 | the rows left are exactly those with other ids, still in id order |
| `OutboundQueue.Worker.Fail` | internal/outbound/worker.go:88-105 | one attempt more and the next time, or failure at the twentieth |
| `OutboundQueue.FailedMeaning` | internal/outbound/worker.go:15-35 | the twentieth failure is final; before it the message waits min(2^n, 60) minutes, n being the failures before this one |
| `OutboundQueue.Worker.Drain` | internal/outbound/worker.go:65-86 | every due message is tried once: removed or rescheduled |
| `OutboundRuns.DrainIsRun` | internal/outbound/worker.go:65-86 | what Drain does to the table is a run of the queue machine: a fetch and one step a message |
| `OutboundQueue.DueMembers` | internal/store/outbox.go:88-89 | a row is fetched exactly when it is not failed and its time has come |
| `OutboundQueue.OneBatch` | internal/store/outbox.go:86-90 | what a batch promises determines it |
| `OutboundRuns.AttemptsBounded` | internal/outbound/worker.go:88-96 | over every run, with manual retries and removals at any time, a live message has fewer than 20 attempts |
| `OutboundRuns.StepReserve` | internal/outbound/worker.go:88-105 | every send strictly lowers the attempts in reserve; a removal, also of a message the worker holds, never raises them |
| `OutboundRuns.FailuresPaid` | internal/outbound/worker.go:65-105 | over every run failed sends are paid for out of twenty attempts a message or manual retry |
| `OutboundRuns.FailuresBounded` | internal/outbound/worker.go:65-105 | so from an empty queue sends fail at most twenty times a message and manual retry, whatever administrators remove |
| `OutboundRuns.GivingUp` | internal/outbound/worker.go:15-35 | a message nobody retried by hand is given up no sooner than 843 minutes after its first failure, whatever happens to others |
| `FailureLimiter.Limiter.constructor` | internal/authlimit/limiter.go:29-46 | defaults for values that are not positive |
| `FailureLimiter.Limiter.Locked` | internal/authlimit/limiter.go:49-67 | locked and for how long; a stale entry goes |
| `FailureLimiter.Limiter.Fail` | internal/authlimit/limiter.go:70-93 | counts, starts over or locks; prunes when the table is large |
| `FailureLimiter.Limiter.Reset` | internal/authlimit/limiter.go:96-103 | forgets the key |
| `FailureLimiter.LimiterRefines` | internal/authlimit/limiter.go:49-114 | under a monotone clock every call is answered as by a limiter that never drops an entry |
| `FailureLimiter.LockIsEarned` | internal/authlimit/limiter.go:70-93 | Fail locks only for at least `max` failures of the key within the last window since its last Reset |
| `FailureLimiter.LocksExactly` | internal/authlimit/limiter.go:70-93 | since its last reset, and within one window, the `max`-th failure of a key locks it and none before does, whatever else is called |
| `FailureLimiter.LockHolds` | internal/authlimit/limiter.go:49-67 | a lock lasts exactly its time until the key fails again or is reset, whatever other keys do |
| `FailureLimiter.LastFailure` | internal/authlimit/limiter.go:81-84 | with `max` at most 2 a count of one is the last failure since the last lock or reset |
| `FailureLimiter.BurstForgotten` | internal/authlimit/limiter.go:81-84 | with `max` of 3 or more a burst around the end of the window is forgotten |
| `FailureLimiter.SlidesIff` | internal/authlimit/limiter.go:10-11 | over all histories that leave locked keys alone, the window slides as documented if and only if `max` is at most 2 |
| `FailureLimiter.LockedFailureForgotten` | internal/authlimit/limiter.go:80-93 | with `max` of 2 a failure recorded for a locked key is forgotten, though its window still runs |
| `FailureLimiter.SlidesAlwaysIff` | internal/authlimit/limiter.go:10-11 | over all histories, failures of locked keys included, it slides if and only if `max` is 1 |
| `FreeBusy.Quotient` | internal/eas/extended.go:247-250 | the quotient next to the exact one on the side of zero, for dividends of either sign |
| `FreeBusy.Mark` | internal/eas/extended.go:233-263 | raises exactly the slots the event meets; no index out of range |
| `FreeBusy.MergedFreeBusy` | internal/eas/extended.go:211-266 | the number of slots, and in each the highest code of the events that meet it |
| `FreeBusy.SlotIsHighest` | internal/eas/extended.go:258-262 | the slot's character is the one value that is highest |
| `FreeBusy.SlotMeaning` | internal/eas/extended.go:239-262 | out of office goes before busy, busy (any other status) before tentative, tentative before free |
| `FreeBusy.OrderIndependent` | internal/eas/extended.go:232-263 | event order does not matter |
| `FreeBusy.OverlapIff` | internal/eas/extended.go:247-256 | a slot shows an event exactly when it is on at some second of it: for all ranges, if and only if it starts before it ends or a slot later |
| `ICalText.Escape` | internal/ical/ical.go:331-339 | the six passes escape each character once and a line break pair as one |
| `ICalText.PassesAreOne` | internal/ical/ical.go:331-339 | six replacement passes are one pass |
| `ICalText.TextRoundTrip` | internal/ical/ical.go:331-339 | unescaping by section 3.3.11 of RFC 5545 gives the text back with CRLF, CR and LF as LF |
| `ICalText.EscapedOneLine` | internal/ical/ical.go:331-339 | an escaped text holds no line break |
| `ICalText.NoSeparator` | internal/ical/ical.go:331-339 | an escaped text holds no bare separator |
| `ICalText.PlainUntouched` | internal/ical/ical.go:331-339 | characters that mean nothing to the format are written as they are, wherever they stand |
| `ICalFold.Fold` | internal/ical/ical.go:343-358 | the loop writes the folded line |
| `ICalFold.FoldPieces` | internal/ical/ical.go:343-358 | which is the pieces with CRLF and a space between, and a CRLF |
| `ICalFold.PiecesConcat` | internal/ical/ical.go:343-358 | the pieces add up to the line, no character split |
| `ICalFold.PiecesFit` | internal/ical/ical.go:343-355 | no piece exceeds 74 octets: with the space 75, as section 3.1 of RFC 5545 allows |
| `ICalFold.PhysicalLines` | internal/ical/ical.go:343-358 | counted in UTF-8 octets no physical line has more than 75, its leading space included, and no line is folded early |
| `ICalFold.FoldRoundTrip` | internal/ical/ical.go:343-358 | unfolding gives the line back if and only if no piece holds a fold mark of its own |
| `ICalFold.GuardedFold` | internal/ical/ical.go:343-358 | every line without a line break and space comes back, however it is cut |
| `ICalFold.ShortFold` | internal/ical/ical.go:343-358 | a line that needs no folding comes back if and only if it holds no line break and space |
| `ICalFold.BreakLost` | internal/ical/ical.go:74-74 | a line break and space in text written as it is are lost |
| `ICalFold.UidLost` | internal/ical/ical.go:74-74 | the UID "a", line break, space, "b" reads back as "ab" |
| `ICalFold.TornMark` | internal/ical/ical.go:346-352 | a long line comes back all the same when folding tears the mark apart |
| `ICalFold.PropertySurvives` | internal/ical/ical.go:331-358 | every line of a prefix without CR and an escaped text survives folding |
| `ICalFold.PropertyText` | internal/ical/ical.go:331-358 | and unescaping what was behind the prefix gives the text back, line breaks as LF |
| `ImapTokens.Quote` | internal/imap/proto.go:129-133 | the two passes escape quotes and backslashes once each |
| `ImapTokens.Unquote` | internal/imap/proto.go:112-127 | the loop reads a quoted string |
| `ImapTokens.UnquoteQuoted` | internal/imap/proto.go:112-133 | unquoting a quoted string gives it back, whatever its bytes |
| `ImapTokens.SplitTokens` | internal/imap/proto.go:62-110 | the scanner with its depth and quote flag computes the tokens |
| `ImapTokens.SplitJoined` | internal/imap/proto.go:62-110 | tokens the scanner takes whole, joined by spaces, split into themselves |
| `ImapTokens.BlanksEnd` | internal/imap/proto.go:86-92 | any run of blanks ends a token and is none itself |
| `ImapTokens.ArgumentsSplit` | internal/imap/proto.go:62-110 | arguments with groups, nested to any depth and holding blanks and quoted strings, come apart exactly where they were joined |
| `ImapTokens.ListRoundTrip` | internal/imap/proto.go:62-133 | quoting, joining, splitting and unquoting gives every list of byte strings back |
| `ThreadPaging.Scope` | internal/store/webmail.go:98-111 | a thread opened in Inbox or Sent is read from both, in any other folder from that folder alone |
| `ThreadPaging.SelectMeaning` | internal/store/webmail.go:387-393 | a query returns exactly the matching rows, strictly ascending by (date, id) |
| `ThreadPaging.SingleShown` | internal/store/webmail.go:375-386 | a single message is shown to its owner alone, while it is live, and in the folders read |
| `ThreadPaging.NextPage` | internal/store/webmail.go:409-445 | the page after a row is the next slice of the thread |
| `ThreadPaging.Paging` | internal/store/webmail.go:363-445 | on a mailbox that stands still the pages add up to the whole thread of the folders in scope, no gap, no duplicate |
| `ThreadPaging.LostAnchor` | internal/store/webmail.go:406-408 | with the anchor gone one answer brings every reader up to date if and only if the thread fits a page |

## Left out

What the theorems assume of the surroundings:

- Requests of one device for one folder are served one after the other, and the rows one Sync writes are committed together; store errors in the middle of a request are not modelled.
- A writer's change and its feed rows are one step as far as other writers of the same item are concerned, and appending a feed row succeeds. Inbound delivery only logs a failed append; such a message would never reach a device.
- Sequence numbers become visible in order. PostgreSQL can commit them out of order, so that a cursor passes a row it has not seen.
- SyncKeys are unbounded numbers here, 64-bit in the code; after key 0 they start again at 1.
- `ReplicationRuns.PlainConvergence`: runs without pruning, date filter and load errors, because the code deliberately leaves items out otherwise; `ReplicationRuns.Convergence` covers those runs for all items not left out.
- `OutboundRuns.GivingUp`: the time of a failure is not before the time its batch was fetched; clocks are otherwise free. A message retried by hand starts over, so nothing is said of how long after its first failure ever it is given up.

What the model does not cover:

- Uploads: a client's Add, Change and Delete enter Sync only as the set of its own feed rows to skip and a flag that something was applied. Convergence is stated for pulling devices, because uploads leave the known set behind (`Uploads.UploadNotLearned`).
- `CollectionSync.SyncCollection`: item contents are opaque, loading an item is a lookup that may fail, and a SyncKey is 0, a number or other text.
- A reset of a device's sync rows by an administrator while one of its Syncs is running.
- `WbxmlRoundTrip.RoundTrip`: code pages and opaque lengths that fit 32 bits, because both are written as 32-bit integers; the forced content bit is not recovered, as the format cannot carry it.
- WBXML convenience accessors (Child, Path and the like) and the contents of the token pages, of which only their sizes matter here.
- cmdPing's polling loop, and the removal of throttle entries one by one: the sweep is a single update.
- `InboundDelivery.Inbound.Serve`: the normalisation of addresses is a parameter; parsing of MIME and JSON, attachments and the hook run after delivery are left out, and storing one copy is atomic. Attempts follow one another here; `InboundRetries.CopiesIff` is about those that overlap. A catch-all destination may be sent to again when a later target fails and the sender retries.
- The outbound queue's blobs, and a delivered message whose row cannot be deleted, which would be sent again.
- `FailureLimiter.SlidesIff`: histories in which callers ask Locked before recording a failure; `FailureLimiter.SlidesAlwaysIff` is about all others.
- `FreeBusy.MergedFreeBusy`: times are unbounded integers; recurring events count once, as in the code.
- `ICalFold.Fold`: lines are sequences of characters, so invalid UTF-8, which the code replaces by U+FFFD, does not occur.
- `ThreadPaging.Paging`: a mailbox that stands still; conversation keys and message ids are parsed already.
- FolderSync's Status values other than 1 and 9, calendar ids and public flags, and folder counters that move without a folder are covered only as far as they change numbers.
- HTTP, TLS, SMTP and IMAP sessions, SQL dialects, file storage, password hashing, the administration console and the web front end.
