# docs-sign, modelled and proved in Dafny

The server keeps encrypted documents, signatures and signed exports in a tree of folders with a trash, stores
their contents as authenticated ciphertext on disk, and hands each user's data key out only to whoever knows
the latest password or recovery code. This project models that core and proves what it relies on.

| part | modules |
|---|---|
| the tables, their invariant, and name paths | `Base`, `Text`, `Tables`, `Tree` |
| SQL statements as functions on the tables, and what each keeps | `Statements`, `Trashing`, `Untrashing`, `Purging`, `Queries` |
| the restore transaction: what a step may do, how steps compose, the code itself | `Placement`, `Steps`, `RestoreSteps`, `Outcomes`, `Restoring` |
| the store's transactions, undo, folder download, whole runs | `Store`, `RoundTrip`, `Archive`, `Runs` |
| the chunked authenticated stream and recovery codes | `Octets`, `Crypto`, `Recovery` |
| blobs on disk, their life among concurrent requests, and the server that joins disk and database | `Blobs`, `Lifecycle`, `Server` |
| live sessions, accounts and the key envelope, whole runs of them | `Sessions`, `Auth`, `AuthRuns` |

How to read it:

- `Tables.Inv` is the invariant of every committed database state. The parent relation over folders *in any
  state* has no cycle and no dangling reference; a folder agrees with its parent on owner and tree and sits in
  the same trash event (or is active under an active one) unless it is the folder its event was aimed at; items
  and exports likewise; siblings that are all active, or all in one event, have distinct names; deleted means
  "in exactly one existing event of the owner". `Store.Store.constructor` establishes it and every method of
  `Store.Store` keeps it, so it holds in every reachable state. It is why `MoveFolder` may look at active
  folders only and why `LIMIT 1` lookups are deterministic.
- Database tables are maps inside one value, `Tables.Db`; a transaction works on a copy and assigns it at the
  end, or not at all. Where SQL leaves row order or `LIMIT 1` open, the methods choose arbitrarily.
- `Tables.PathOf` is the list of names from the top level down to a folder. Restores are specified by paths:
  `Placement.Placed` says what a restore may do to every single row, whatever the resolutions; so do
  `Placement.Home`, which says what comes back and what a folder may stay in the trash for, and
  `Placement.Justified`, which says what a reported conflict must have for a cause. `Placement.Exact` pins the
  items down, skips and overrides included, when no item whose place is taken is to be renamed; folders, events
  and conflicts then follow (`Outcomes.FolderFate`, `Outcomes.OutcomeDetermined`). `RestoreSteps.Decided` says
  how each single collision is settled. `Steps.Finished` puts these together for a restore: the way to the
  original place is rebuilt, and only folders missing on it are created (`Statements.OnTheWay`).
- AES-GCM is a pair of functions (`Crypto.Aead`). `Crypto.Correct` and `Crypto.OpensNothingElse` are what NIST
  SP 800-38D, sections 7.1 and 7.2, is relied on for. Argon2id (RFC 9106, section 3) is a free constructor:
  different secrets, salts or parameters give different keys.
- The clock is a parameter, `now`, of every operation that reads it.
- `Lifecycle` lets uploads, purges, crashes and a sweep interleave in any order, with time passing between any
  two steps. The grace period of the server is one hour.

Five properties one might expect hold under a condition only, which is proved exact:

- Blobs are safe in every run if and only if the longest upload and the delay between reference scan and cutoff
  fit into the grace period together (`Lifecycle.SafeExactlyWhenRoomy`).
- A recovery code survives a password change, and a new code opens the record at all, if and only if the record
  was stored under the parameters the service derives keys with now (`Auth.SharedParameters`); they are a constant
  of the program, so the failing records are those of a program with another constant (`Auth.CodeLost`), and the
  invariant of `Auth.Service` excludes them.
- A purge of one event leaves another one empty if and only if that is the event of a single export whose document
  the purged event carries (`Purging.EmptiedExactly`, `Purging.EmptiedOnce`), so the invariant does not claim that
  events have members.
- The last-administrator guard counts active administrators without asking which account is to go. For an active
  target it refuses if and only if no other administrator is active. It refuses although one would remain if and
  only if a single administrator is active and the target is a disabled one (`Auth.RefusalExact`,
  `Auth.RefusedForNothing`).
- The error message asks for a password of eight characters, the code for eight bytes. For ASCII passwords that is
  the same; otherwise fewer characters may do (`Auth.PasswordRule`, `Auth.FourCharactersDo`).

## Model

| member | source | states |
|---|---|---|
| `Tree.ParentPath` | internal/store/folders.go:279-291 | a folder's path extends its parent's, which is shorter: the measure that ends every walk up the tree |
| `Tree.PathsUnique` | internal/store/trash.go:413-432 | the name path of every folder, in any state, is determined by the table: whichever way names are spelled along parents, the result is the same |
| `Tree.RankGrounds` | internal/store/store.go:198-211 | a parent relation that descends in some rank gives every folder a path, so no cycle is left |
| `Tree.PathLocates` | internal/store/trash.go:454-473 | among active folders of a user and tree, and among those of one event, a path names one folder, so lookups by name with LIMIT 1 are unambiguous |
| `Tree.ItemLocated` | internal/store/trash.go:484-503 | the same for items: folder path and name determine the item |
| `Tree.RootAbove` | internal/store/trash.go:85-139 | following parents from any folder an event carries leads, inside the event, to the folder the delete was aimed at |
| `Tree.ActivePrefix` | internal/store/folders.go:102-123 | every prefix of an active folder's path is the path of an active folder of the same owner and tree |
| `Tree.SubtreeStable` | internal/store/trash.go:716-724 | which rows a recursive query finds depends only on the rows that carry the wanted event |
| `Queries.SubtreeIds` | internal/store/folders.go:58-67 | the recursive query, as a queue of rows, ends, yields every folder of the subtree exactly once and parents before children |
| `Statements.SetFolderKeeps` | internal/store/folders.go:29-44 | a folder row may be rewritten in place, keeping the whole invariant, when its parent, event and name slot stay consistent |
| `Statements.ChildByPath` | internal/store/trash.go:454-473 | the active folder found by name under an active place is the one whose path is that place's path and the name |
| `Statements.InsertFolderKeeps` | internal/store/folders.go:71-97 | a new folder under an active place with a free name keeps the invariant and every path, and gets the path asked for |
| `Statements.FindOrCreate` | internal/store/folders.go:102-123 | one level of a path: the active folder of that name, or a new one, is the next active place on the way; the tables stay as they were when the full path is active |
| `Statements.OnePlace` | internal/store/trash.go:436-452 | two active places with one path are one place: resolving a folder's own path leads back to it |
| `Statements.RenameFolderKeeps` | internal/store/folders.go:294-319 | renaming to a free name keeps the invariant, although it changes the path of everything below |
| `Statements.ActiveUnder` | internal/store/folders.go:58-67 | an active folder below another, through folders in whatever state, is in its active subtree |
| `Statements.MoveFolderKeeps` | internal/store/folders.go:323-370 | looking at active folders only suffices for the cycle check: a move it admits keeps all folders, in any state, acyclic |
| `Statements.RewrittenFolder` | internal/store/folders.go:294-370 | rewriting the name or the parent of a folder puts it at the new path and everything below it, in whatever state, at that path in place of the old prefix; every other folder keeps its path |
| `Statements.PlaceItemKeeps` | internal/store/content.go:162-189 | an item put under an active place with a free name keeps the invariant |
| `Trashing.TrashItemKeeps` | internal/store/trash.go:563-580 | trashing one active item as a new event keeps the invariant and every path |
| `Trashing.TrashTreeStamps` | internal/store/trash.go:67-79 | exactly the folders of the active subtree and the active items in them are stamped with the new event; nothing else changes |
| `Trashing.TrashTreeKeeps` | internal/store/trash.go:85-139 | trashing a folder's active subtree keeps the invariant and every row's path |
| `Untrashing.UntrashTreeReleases` | internal/store/trash.go:636-661 | the statements of a wholesale un-trash clear the event of exactly the subtree and its items, and re-parent its top |
| `Untrashing.UntrashTreeKeeps` | internal/store/trash.go:636-661 | a wholesale un-trash into a free active place keeps the invariant and restores the subtree connected, every path unchanged |
| `Untrashing.MergeAwayMerges` | internal/store/trash.go:620-633 | re-homing and deleting a merged folder moves its remaining children to the merge target; the SET NULL rules of the schema then find nothing left to cut |
| `Untrashing.MergeAwayKeeps` | internal/store/trash.go:614-634 | that removal keeps the invariant, and the path of every surviving row, re-homed children of other events included |
| `Untrashing.CleanupKeeps` | internal/store/trash.go:739-758 | deleting an event nothing refers to keeps the invariant |
| `Placement.Compose` | internal/store/trash.go:598-613 | placing one part of an event and then a disjoint part is placing both: every row's owner, blob and path are kept throughout |
| `Placement.TakenStays` | internal/store/trash.go:539-543 | restoring one item frees no place another item of the event needs, since what an override displaces it replaces |
| `Placement.ResolvedCommits` | internal/store/trash.go:507-547 | when every item whose name may be contested is skipped, overrides, or has a new name nothing contests, no conflict can be reported |
| `Placement.ComposeHome` | internal/store/trash.go:507-634 | whatever the resolutions: if each part brings home, under its own name, every item whose name nothing contests, and leaves a folder in the trash only for an item in or below it that stays there, then so do the parts together |
| `Placement.JustifiedBefore` | internal/store/trash.go:556-559 | a conflict reported by a later step of the restore has its cause in the tables the restore began with |
| `Placement.ComposeExact` | internal/store/trash.go:598-613 | for skips and overrides, and renames of items whose place is free, the parts' exact outcomes for every item and their reported conflicts add up, whatever the order |
| `Placement.LiveIsMap` | internal/store/content.go:116-131 | the active items of a user and tree, by path and name, form a map |
| `Placement.RestoreIsUnion` | internal/store/trash.go:292-315 | unless an item whose place is taken is renamed, a restore adds to that map exactly the items whose place was free or that override, at their original path and name, and takes from it exactly what they override |
| `Placement.LabelSpells` | internal/store/trash.go:727-736 | a conflict label is the names of the path, each after a slash; that of the root is a slash |
| `RestoreSteps.OverrideStep` | internal/store/trash.go:539-543 | an override restores the item and sends exactly the one in its way to a new event of its own, losing neither |
| `RestoreSteps.WholesaleStep` | internal/store/trash.go:636-661 | un-trashing a subtree where no active folder bears its name meets no collision at all: a free path has nothing active below it |
| `RestoreSteps.MergeStep` | internal/store/trash.go:614-634 | removing an emptied folder after a merge changes no surviving row's path |
| `RestoreSteps.PartStands` | internal/store/trash.go:598-613 | placing some children leaves the rows of the other children exactly as they were, although the table is being rewritten |
| `RestoreSteps.FolderDone` | internal/store/trash.go:614-634 | after children and items, the folder is removed or kept, as its remaining content demands, and either way the merge is complete |
| `RestoreSteps.SomethingTaken` | internal/store/trash.go:614-619 | whatever the resolutions, a merged folder is kept in the trash only with an item in or below it that stays too and whose name was contested; and some item had its place taken and did not override |
| `RestoreSteps.LeadIn` | internal/store/trash.go:349-408 | recreating missing ancestors first changes nothing about what the rest of the restore does, and nothing but those ancestors is new |
| `RestoreSteps.CloseUp` | internal/store/trash.go:739-758 | the final clean-up completes the restore: the event stays if and only if something still refers to it |
| `Outcomes.FolderFate` | internal/store/trash.go:585-661 | the fate of each folder restored, whatever the resolutions: it stays, unchanged, if and only if an item in or below it stays; else it is gone if an active folder had its path, and active again if none had |
| `Outcomes.RetainsTaken` | internal/store/trash.go:614-619 | unless an item whose place is taken is renamed, a folder stays if and only if it holds, in or below, an item whose place is taken and that does not override |
| `Outcomes.OutcomeDetermined` | internal/store/trash.go:292-315 | unless an item whose place is taken is renamed, any two finished restores agree on every row, path, event and new folder, up to drawn identifiers and times, and on the conflicts |
| `Restoring.RestoreState.constructor` | internal/store/trash.go:276-286 | a restore starts on the committed tables with no conflicts |
| `Restoring.RestoreState.ActiveItemByName` | internal/store/trash.go:484-503 | finds an active item of that name in that place if there is one |
| `Restoring.RestoreState.AncestorNames` | internal/store/trash.go:413-432 | the walk up through rows in any state ends and spells the folder's path |
| `Restoring.RestoreState.InEventSubtreeFolderIds` | internal/store/trash.go:716-724 | the event's folders below a folder, each once |
| `Restoring.RestoreState.ResolvePath` | internal/store/trash.go:436-452 | ends at an active place of exactly the path asked for, creating only missing prefixes of it, and nothing when it is active already |
| `Restoring.RestoreState.RecordConflict` | internal/store/trash.go:556-559 | one more conflict, labelled with the destination's slash path |
| `Restoring.RestoreState.TrashLeafAsEvent` | internal/store/trash.go:563-580 | the blocking item moves to a brand-new event, of its owner, under its name and created now |
| `Restoring.RestoreState.PlaceItem` | internal/store/trash.go:507-547 | how each collision and each resolution is settled, to the row: free place, no resolution, skip, rename to a blank, taken or free name, override, unrecognized action |
| `Restoring.RestoreState.PlaceFolder` | internal/store/trash.go:585-634 | ends, by the size of the event's part below the folder; handles exactly that part, each row active, still trashed, merged away or displaced, with every path kept, and a folder still trashed only for an item in or below it; un-trashes wholesale when the place is free |
| `Restoring.RestoreState.UntrashFolderWholesale` | internal/store/trash.go:636-661 | the wholesale statements on the recursive query's result are the specified un-trash of the whole part |
| `Restoring.RestoreState.MergeFolder` | internal/store/trash.go:594-634 | merging child folders, then items, then removing the folder handles the whole part, each folder of it staying only for an item in or below it |
| `Restoring.RestoreState.PlaceChildFolders` | internal/store/trash.go:598-602 | the loop over children fetched beforehand handles each of them and its part, though each turn rewrites the tables |
| `Restoring.RestoreState.PlaceChildItems` | internal/store/trash.go:603-613 | the same for the items directly in the folder, after its children |
| `Restoring.RestoreState.RemoveMerged` | internal/store/trash.go:614-634 | the folder goes, its stray children re-homed, exactly when nothing of its event is left in it; otherwise nothing changes; either way the folder's whole part has been handled |
| `Restoring.RestoreState.InEventChildCount` | internal/store/trash.go:701-714 | positive exactly when a folder or an item of the event is left in the folder |
| `Restoring.RestoreState.CleanupEvent` | internal/store/trash.go:739-758 | afterwards the event exists exactly when a row of some table still refers to it, and no content row and no other event changed |
| `Restoring.RestoreState.RestoreExport` | internal/store/trash.go:330-347 | the export is active again, its event gone exactly if no row refers to it any more, no other row changed; unknown, foreign and active exports are not found |
| `Restoring.RestoreState.RestoreItem` | internal/store/trash.go:349-378 | the item is handled at its original path, with the folders missing on that path created and no others; not-found cases; an item left behind was skipped or is reported, once, with its cause; a new event only for an item an override displaced; the exact result when its place is there and free |
| `Restoring.RestoreState.RestoreFolder` | internal/store/trash.go:380-408 | the same for a folder with everything its event holds below it, each folder of which stays in the trash only for an item in or below it |
| `Store.Store.constructor` | internal/store/store.go:50-78 | the empty tables satisfy the invariant |
| `Store.Store.CreateFolder` | internal/store/folders.go:71-97 | outcome in every case, exact new row, its path the parent's and then the name, invariant kept |
| `Store.NeatSegments` | internal/store/folders.go:142-149 | segments without blanks at their ends are taken as they are: none is altered or dropped |
| `Store.Store.EnsureFolderPath` | internal/store/folders.go:129-170 | the leaf's path is the parent's path and then the trimmed non-blank segments, and the segments themselves when no trimming touches them; only missing prefixes are created; an active path changes nothing |
| `Store.Store.FolderPath` | internal/store/folders.go:279-291 | never fails for an active folder: the breadcrumb spells its path, top level first, through active folders of the user |
| `Store.Store.RenameFolder` | internal/store/folders.go:294-319 | outcome in every case; the name column of that row and nothing else changes; the folder and all below it have the new path, everything else its old one; invariant kept |
| `Store.Store.MoveFolder` | internal/store/folders.go:323-370 | refuses exactly: unknown folder, itself, bad parent, anything below itself through folders in any state, taken name; otherwise the parent column of that row is the new parent and nothing else changes, the folder's path is the new parent's and its name, everything below it moves along, every other path stays, and the invariant is kept |
| `Store.SubtreeIsUnder` | internal/store/folders.go:350-361 | for an active folder, being in the active subtree and being below at all are the same |
| `Store.Store.CreateItem` | internal/store/content.go:284-304 | outcome in every case, exact new tables, invariant kept, for both item tables |
| `Store.Store.RenameItem` | internal/store/content.go:134-158 | outcome in every case, exact new tables, invariant kept |
| `Store.Store.MoveItem` | internal/store/content.go:162-189 | outcome in every case, exact new tables, invariant kept |
| `Store.Store.CreateExport` | internal/store/content.go:387-395 | an export of an existing document, or of none; the foreign key refuses others |
| `Store.Store.TrashNode` | internal/store/trash.go:85-139 | the node, and for a folder exactly its active subtree, moves to one new event of the user, which bears the node's name and the time of the call |
| `Store.Store.RestoreNode` | internal/store/trash.go:292-315 | commits a finished restore or, if any conflict is open, changes nothing; every conflict is of an item the restore concerns, one at most of each, whose name is contested and whose resolution is missing or useless; when the resolutions settle every collision it commits; what nothing contests comes back under its own name, and folders stay only for items that do; every new event is created now; unless an item whose place is taken is to be renamed, the conflicts are exactly the taken items that neither override nor are skipped |
| `Store.RenamedItem` | internal/store/trash.go:525-538 | in any committed restore, an item whose place is taken and whose new name has no blanks at its ends and is contested by nothing comes back to its path under exactly that name |
| `Store.RenameCommits` | internal/store/trash.go:525-538 | restoring one item under such a name is always committed |
| `Store.ReportsCaused` | internal/store/trash.go:292-315 | the conflicts of a restore have their causes, one at most for each item, and there are none when the resolutions settle every collision that can occur |
| `Store.RestoredFolder` | internal/store/trash.go:585-661 | after a committed restore each folder it concerned stayed, went or came back as the items in and below it and the active folders before demand |
| `Store.RestoredAlike` | internal/store/trash.go:292-315 | tables, node and resolutions determine what a committed restore leaves, unless an item whose place is taken is to be renamed |
| `Store.Store.PurgeEvents` | internal/store/trash.go:797-841 | the loop over events leaves the tables of a purge of the set of events, and hands back the blob of each deleted row once |
| `Store.Store.HardDeleteEvent` | internal/store/trash.go:764-774 | the same for one event of the user; foreign and unknown ones are not found |
| `Store.Store.EmptyTrash` | internal/store/trash.go:777-783 | the same for all events of the user: exactly that user's events and trashed folders and items are gone |
| `Store.Store.PurgeExpired` | internal/store/trash.go:788-794 | the same for all events older than the cutoff: an event stays exactly if it was created at the cutoff or later, a folder or item exactly if it is active or in such an event, an export exactly if besides its document is not in an older one |
| `Store.Store.AllReferencedBlobPaths` | internal/store/content.go:484-496 | the blob paths of all rows of all three tables, in whatever state |
| `Purging.PurgeEvent` | internal/store/trash.go:798-840 | one event: its exports, the exports of its documents wherever they are, its items, folders and row go, with the schema's SET NULL rules |
| `Purging.DropRowsPurges` | internal/store/store.go:198-211 | the delete statements, with ON DELETE SET NULL on parent, folder, document and event columns, amount to the purge as specified |
| `Purging.PurgeOneMore` | internal/store/trash.go:797-841 | purging a set of events and then one more is purging the larger set, so neither order nor repetition matters |
| `Purging.OrderIrrelevant` | internal/store/trash.go:797-841 | the multiset of paths handed back depends only on which rows are deleted, not on any order |
| `Purging.FreedPaths` | internal/store/trash.go:797-841 | when blobs belong to one row each, the paths are exactly those referenced before and not after, each once |
| `Purging.PurgeKeeps` | internal/store/store.go:202-210 | purging any set of event identifiers keeps the invariant: survivors of other events float to the root and stay well-formed |
| `Purging.ActiveOutlives` | internal/store/trash.go:788-794 | active folders and items survive, unmoved, a purge of any list of identifiers, however stale |
| `Purging.EmptiedExactly` | internal/store/trash.go:803-816 | an event that is not purged is left empty if and only if it is the event of an export whose document a purged event carries |
| `Purging.EmptiedOnce` | internal/store/trash.go:803-816 | tables in which that happens |
| `RoundTrip.AllBack` | internal/store/trash.go:292-315 | a restore whose items' places are all free brings back every item at its old path and name, beside all that was there |
| `RoundTrip.CarriedSubtree` | internal/store/trash.go:85-139 | the part of the event below a freshly trashed folder is exactly the subtree that was active |
| `RoundTrip.PlaceStillFree` | internal/store/trash.go:436-452 | the place a folder was trashed from is found again by its path, and its name is free there |
| `RoundTrip.RestoreUndoesTrash` | internal/store/trash.go:292-315 | in every reachable state, trashing any node and restoring it meets no collision and gives back the very same tables |
| `RoundTrip.DeleteAndUndo` | internal/store/trash.go:85-139 | the same of the two transactions, run one after the other |
| `Archive.Walk` | internal/store/folders.go:195-203 | the recursive query labels every folder of the active subtree with its slash path from the chosen folder |
| `Archive.CollectFolderArchive` | internal/store/folders.go:183-221 | exactly one entry per active item of the subtree, under its name path from the chosen folder, with its blob |
| `Archive.ArchivePathsApart` | internal/store/folders.go:179-182 | when no name holds a slash, different items have different archive paths |
| `Runs.ActiveAncestors` | internal/store/folders.go:48-55 | all ancestors of an active folder are active, of its owner and of its tree |
| `Runs.EverythingAccounted` | internal/store/trash.go:85-139 | every item and export is active or in exactly the one existing event of its owner that it names |
| `Runs.TrashConserves` | internal/store/trash.go:85-139 | trashing keeps every item and export, its owner and its blob |
| `Runs.RestoreConserves` | internal/store/trash.go:507-580 | so does a restore, whatever resolutions are given: an override destroys nothing |
| `Runs.Serve` | internal/store/store.go:126-140 | any single request keeps the invariant, and conserves all content unless it purges |
| `Runs.ServeAll` | internal/store/store.go:126-140 | any run of requests of any users keeps the invariant and, without purges, loses no document, signature or export |
| `Runs.PurgeExpiredLate` | internal/store/trash.go:785-795 | whatever is served between reading the expired events and purging them, exactly the rows then in an event that had been created before the cutoff when they were read go; no folder and no item active when the purge runs is deleted or refiled; an active export goes exactly if its document is in one of those events |
| `Runs.EnsureTwice` | internal/store/folders.go:125-170 | ensuring a path again returns the same leaf and changes nothing |
| `Text.TrimCuts` | internal/store/folders.go:143 | trimming cuts off both ends nothing but blanks, and all of them |
| `Text.BlankCharacters` | internal/store/trash.go:526 | the blanks are the 25 characters of Unicode white space; no printable ASCII character but the space is one |
| `Text.UpperLetters` | internal/crypto/crypto.go:150 | upper case maps the ASCII letters along the alphabet, dotless i and long s to I and S, and nothing else |
| `Octets.NumberOfBigEndian` | internal/crypto/crypto.go:220-221 | a length that fits its field is read back |
| `Octets.BigEndianOfNumber` | internal/crypto/crypto.go:256 | a field is the only one that reads as its number |
| `Crypto.ChunkAadInjective` | internal/crypto/crypto.go:156-163 | the associated data determines index and final flag, up to 2^64 chunks |
| `Crypto.CounterWraps` | internal/crypto/crypto.go:186-204 | the 64-bit chunk counter, wrapped or not, is encoded like the number of chunks so far |
| `Crypto.ChunkShape` | internal/crypto/crypto.go:184-207 | max(1, ceil(len/65536)) chunks, all of 65536 bytes but the last, which is empty only for the empty plaintext; together they are the plaintext |
| `Crypto.ChunkLayout` | internal/crypto/crypto.go:156-163 | a sealed chunk byte by byte: twelve of nonce, four of length, the ciphertext, 32 more than the plaintext; its associated data is the index in eight bytes and a last one that is 1 for the final chunk |
| `Crypto.NextChunk` | internal/crypto/crypto.go:188-200 | one byte of lookahead tells exactly whether a full chunk is the last |
| `Crypto.WriteChunk` | internal/crypto/crypto.go:211-227 | appends a 12-byte nonce, the length of the ciphertext, and the chunk sealed under that nonce with its index and final flag |
| `Crypto.EncryptStream` | internal/crypto/crypto.go:170-209 | writes the preamble and one frame per piece, indexed in order, only the last flagged final |
| `Crypto.ReadChunk` | internal/crypto/crypto.go:249-269 | one chunk is read and opened exactly as the recursive parser does, or nothing comes back |
| `Crypto.DecryptStream` | internal/crypto/crypto.go:230-278 | the loop with one byte of lookahead is the recursive parser, also in what was written before a failure |
| `Crypto.RoundTrip` | internal/crypto/crypto.go:280-296 | decrypting what was encrypted returns it, for every plaintext, the empty and exact-multiple ones included |
| `Crypto.StreamLength` | internal/crypto/crypto.go:165-169 | the stream begins with the magic and the chunk size 65536; it is 8 bytes, 32 per chunk of 65536, and the plaintext long |
| `Crypto.TamperEvident` | internal/crypto/crypto.go:230-278 | under a key that sealed one stream, an input is accepted if and only if it is that stream up to the four ignored size bytes; then the plaintext comes out, else a proper prefix of whole chunks |
| `Crypto.WrongKey` | internal/crypto/crypto.go:42-44 | a key that sealed nothing accepts nothing and writes nothing |
| `Crypto.EncryptBytes` | internal/crypto/crypto.go:281-287 | the in-memory form produces such a stream, which decodes to the input |
| `Crypto.DecryptBytes` | internal/crypto/crypto.go:290-296 | the plaintext exactly when the stream is accepted |
| `Crypto.WrapKey` | internal/crypto/crypto.go:93-124 | a wrapped key is nonce and ciphertext, 28 bytes longer than the key, and unwraps to it |
| `Recovery.TypedLoosely` | internal/crypto/crypto.go:147-154 | a code typed in either case with dashes and blanks anywhere normalizes to its letters |
| `Recovery.NormalizedLetters` | internal/crypto/crypto.go:147-154 | for every string: blanks at the ends, dashes and spaces go, letters become capitals, all else is kept |
| `Recovery.GenerateRecoveryCode` | internal/crypto/crypto.go:131-145 | 32 base32 letters shown in eight dashed groups of four, which normalize to the code |
| `Blobs.BlobRecognized` | internal/blob/blob.go:177-183 | a blob's path is recognized as a blob and not as a temporary file |
| `Blobs.TempRecognized` | internal/blob/blob.go:177-183 | a temporary file's path is recognized as one and not as a blob |
| `Blobs.KnownBySuffix` | internal/blob/blob.go:177-183 | by the characters of a path: it is a blob exactly if it ends in .enc, a temporary file exactly if it ends in .tmp and its last component begins with a dot |
| `Blobs.PathsApart` | internal/blob/blob.go:37-40 | blobs of different users or with different identifiers never share a path |
| `Blobs.BlobStore.Write` | internal/blob/blob.go:65-107 | one new file under the canonical path that reads back as the data, or at most one temporary file the sweep recognizes |
| `Blobs.BlobStore.ReadAll` | internal/blob/blob.go:114-136 | the decrypted contents exactly when the file is there and genuine |
| `Blobs.BlobStore.Delete` | internal/blob/blob.go:138-148 | removes the file; a missing one is no error |
| `Blobs.BlobStore.ReconcileOrphans` | internal/blob/blob.go:161-217 | removes only old unreferenced blobs and old temporary files, counts them, carries on after errors, and removes all of them if none is reported |
| `Lifecycle.StepKeeps` | internal/api/server.go:86-104 | each step of uploads, purges, crashes and sweeps keeps: rows have their files, uploads own recent files, the sweep can touch neither |
| `Lifecycle.SweepSpares` | internal/blob/blob.go:196-210 | what a sweep removes belongs to no row and to no upload under way |
| `Lifecycle.SweepCleans` | internal/blob/blob.go:150-160 | an error-free sweep leaves only files that are referenced or at least as recent as its cutoff |
| `Lifecycle.TooSlow` | internal/api/server.go:44-47 | a run of eight steps in which too slow an upload and too slow a janitor lose a blob |
| `Lifecycle.SafeExactlyWhenRoomy` | internal/api/server.go:44-47 | every row's blob is on disk in every interleaving if and only if upload duration plus scan-to-cutoff delay is at most the grace period |
| `Server.Server.constructor` | internal/api/server.go:40-42 | a server started on an existing store and disk satisfies the server's invariant when every row's blob is on the disk and no two rows share one |
| `Server.Server.UploadDocument` | internal/api/handlers_documents.go:137-154 | blob first, row second, blob removed if the row fails: the new row's blob decrypts to the upload, and a failure leaves the tables as they were |
| `Server.Server.SignDocument` | internal/api/handlers_documents.go:367-383 | the same for a signed export of a document that exists when the row is committed |
| `Server.Server.PurgeTrash` | internal/api/server.go:71-84 | exactly the rows in events older than the cutoff, and the exports of documents among them, go; only files no row points at any more are deleted, and every remaining row keeps its file |
| `Server.Server.ReconcileBlobs` | internal/api/server.go:86-104 | every row keeps its file; what goes is an unreferenced blob or a temporary file older than an hour; without errors no such blob is left |
| `Sessions.Zero` | internal/crypto/crypto.go:78-83 | every byte is zero |
| `Sessions.Session.DEK` | internal/session/session.go:30-35 | a fresh copy of the key, never the session's own array |
| `Sessions.Manager.constructor` | internal/session/session.go:47-54 | no sessions, and the invariant |
| `Sessions.Manager.Create` | internal/session/session.go:64-85 | a new session under a new token on its own copy of the key; all others untouched |
| `Sessions.Manager.Get` | internal/session/session.go:91-108 | returns a session exactly when the token is known, it was seen within the idle timeout and created within the absolute one, its idle timer restarted; an expired one is scrubbed and removed |
| `Sessions.Manager.End` | internal/session/session.go:102-103 | the removed session's key bytes are all zero; every other session keeps its key |
| `Sessions.Manager.Delete` | internal/session/session.go:137-145 | the same for a token that may be unknown |
| `Sessions.Manager.DeleteByUser` | internal/session/session.go:147-157 | exactly the user's sessions leave the map, and their keys are all zero |
| `Sessions.Manager.EvictExpired` | internal/session/session.go:176-186 | exactly the sessions seen too long ago, or created too long ago, leave the map, and their keys are all zero |
| `Sessions.Manager.PurgeAll` | internal/session/session.go:188-195 | no session is left and the key of every session ever issued is zero |
| `Sessions.Manager.SetMustChangePassword` | internal/session/session.go:110-117 | sets the flag of a live session and no other field |
| `Sessions.Manager.SetUsername` | internal/session/session.go:119-126 | sets the name of a live session and no other field |
| `Auth.UsernameRule` | internal/auth/auth.go:34 | a name is 1 to 64 characters, each an ASCII letter, a digit, a dot, an underscore or a dash |
| `Auth.PasswordRule` | internal/auth/auth.go:32 | a password takes eight bytes in UTF-8, which for ASCII is eight characters |
| `Auth.FourCharactersDo` | internal/auth/auth.go:56-61 | a password of four characters the rule accepts |
| `Auth.SameNameRule` | internal/store/store.go:168 | two names are the same exactly when they agree letter by letter but for ASCII case |
| `Auth.RefusalExact` | internal/store/users.go:174-181 | the count refuses although an active administrator would remain exactly when a single one is active and the target is not |
| `Auth.RefusedForNothing` | internal/auth/auth.go:422-431 | accounts where a disabled administrator cannot be deleted although an active one would remain |
| `Auth.OnlyLatestOpens` | internal/crypto/crypto.go:107-124 | the latest password and the latest code, however typed, open the record to the same key; every other secret opens nothing |
| `Auth.SharedParameters` | internal/auth/auth.go:232-234 | after a password change the recovery code opens the record to the data key exactly when the derivation parameters are those stored before; so does a new recovery code, however typed |
| `Auth.CodeLost` | internal/auth/auth.go:232-234 | a record stored under other parameters, whose code opens it before a password change and not after |
| `Auth.Service.constructor` | internal/auth/auth.go:45-47 | no accounts, no sessions, and the invariant |
| `Auth.Service.OneKey` | internal/auth/auth.go:214-216 | latest password, latest recovery code and every live session of a user give one and the same data key |
| `Auth.Service.GetUserByUsername` | internal/store/users.go:88-92 | finds the account of that name, without regard to case, of which there is at most one |
| `Auth.Service.CreateUser` | internal/store/users.go:42-57 | a new account, or none when the name is taken by another in whatever case; the invariant is kept unless the first account is no active administrator |
| `Auth.Service.Setup` | internal/auth/auth.go:85-128 | refuses bad names, weak passwords and a second setup; else one active administrator holding that password and the displayed code |
| `Auth.Service.Login` | internal/auth/auth.go:131-150 | succeeds exactly for an active account and its latest password, with one more session, on a fresh copy of its data key |
| `Auth.Service.Recover` | internal/auth/auth.go:153-177 | succeeds exactly for an active account and its latest recovery code, however typed, with one more session, which must change the password |
| `Auth.Service.ChangeUsername` | internal/auth/auth.go:181-198 | refuses bad names and names of others; else the account and the session bear the new name; no other account and no other field changes |
| `Auth.Service.ChangePassword` | internal/auth/auth.go:217-256 | the data key stays, the new password replaces the old, an existing code stays valid, a missing one is issued |
| `Auth.Service.RegenerateRecoveryCode` | internal/auth/auth.go:260-281 | the data key and the password stay, the displayed code replaces the old |
| `Auth.Service.Logout` | internal/auth/auth.go:284 | ends that session only, and its key bytes are all zero |
| `Auth.Service.AdminCreateUser` | internal/auth/auth.go:290-325 | outcome in every case; the new account has the temporary password, no code and must change the password |
| `Auth.Service.AdminSetUserStatus` | internal/auth/auth.go:328-351 | outcome in every case; disabling ends exactly the user's sessions, their keys zeroed; disabling an active administrator is refused exactly when no other administrator is active |
| `Auth.Service.AdminDeleteUser` | internal/auth/auth.go:354-375 | outcome in every case; the user's sessions end with their keys zeroed, and an active administrator always remains |
| `Auth.Service.AdminResetUser` | internal/auth/auth.go:379-420 | exactly the data key drawn, so another one whenever the draw differs, under the temporary password; the old password and the old code are void, and the user's sessions end with their keys zeroed |
| `Auth.Service.UpdateUserKeys` | internal/store/users.go:120-131 | writes the key columns of one account and no others |
| `Auth.Service.EnsureNotLastAdmin` | internal/auth/auth.go:422-431 | passes exactly when two different accounts are administrators and active, so that whichever account is lost one remains |
| `AuthRuns.Serve` | internal/auth/auth.go:85-420 | any single call, with a live, an expired or an unknown token, keeps the service's invariant; sessions issued stay on record; only a reset or a delete takes a user's data key away; password and code change only where the call is aimed; the reply tells exactly when a secret was replaced |
| `AuthRuns.ServeAll` | internal/session/session.go:1-4 | over any run of calls a user's data key stays unless the account is reset or deleted; every password and code is answered as before unless a call was aimed at the account's secrets; an active administrator remains once there are accounts; and every session ever issued is live on exactly its user's key or has only zeros for a key |
| `AuthRuns.ChangeAndServe` | internal/auth/auth.go:217-281 | after a password change, or a new code, and any run of calls not aimed at that account's secrets, that password and no other, or that code and no other, opens the record |

## Left out

- Columns that only describe: created_at and updated_at of content rows, byte_size, page_count, content_type, image sizes, language. Event times are kept, because expiry reads them.
- The list and get queries, whose results are plain filters of the tables, and the ordering of archive entries.
- The users table's cascades, DeleteUserContent and RemoveUserDir: an account's content and its key are modelled apart.
- Rows from before trash events existed, and unknown kind strings: the kinds are a datatype.
- I/O and SQL errors inside a transaction: a statement either takes effect or the transaction never commits. A commit that reports an error is taken not to have happened.
- Random identifiers, tokens and temporary names are any value not in use; their unpredictability is not modelled.
- Case folding: `Text.ToUpper` maps to upper case what maps to an ASCII letter (dotless i and long s included); other letters stay as they are, and no recovery code contains them.
- Path cleaning and the guard against paths that leave the store's root: paths are the canonical ones.
- PDF processing, HTTP routing, cookies, JSON, configuration flags, the front end.
- The overwrite flag of an upload, which is a lookup and a TrashNode before it; the rendering of a signed document and the default name of its export.
- Requests that still hold a session while it is deleted, and admin operations racing each other: sessions and accounts are sequential, and operations of a signed-in user require the session to be live.
- Restore: `nullString("")` for an empty identifier, since identifiers are never empty.
- Placement.ComposeExact: when items whose places are taken are to be renamed, two of them may want one new name, and the order of rows decides which gets it; such restores are described by `Placement.Placed`, `Placement.Justified` and `RestoreSteps.Decided` only.
- Crypto.TamperEvident: is stated for at most 2^64 chunks, because the chunk index wraps there, and for a key that sealed one stream, because the associated data does not name the blob.
- Auth.SharedParameters: the service itself is modelled with one constant set of derivation parameters, as its configuration provides.
- Purging.FreedPaths: assumes that no two rows share a blob path, which `Server.Server.UploadDocument` keeps by naming every blob anew; without it the paths are still one per deleted row (Store.Store.PurgeEvents).
- Auth.Service.AdminResetUser: that 32 random bytes differ from the 32 drawn before is an assumption about the random source; the contract says which key is in force and that it differs when the draw does.
- Sessions.Manager.Create: the token is new by choice; a collision of random tokens is not modelled.
- Lifecycle.StepKeeps: a file's age is the time of its last write, and checking and removing one file in a sweep is a single step.
- Auth.Service.Setup: key derivation and wrapping are symbolic there; the bytes are in `Crypto.WrapKey`.
