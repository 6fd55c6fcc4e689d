# jellysync, verified

A Dafny model of jellysync's catalog pipeline: how a node revisions its own catalog and
serves it as a change feed, how peers mirror that feed page by page, how the mirrors are
elected into one catalog, how the `.strm` files on disk are driven to match it, and the two
small protocols around it (the wake-up queue, and the ids peers and clients share).

Check it with `dafny verify dfyconfig.toml`.

## How it is laid out

| module | what it models |
|---|---|
| `Listing`, `Redirects`, `Entries` | a Jellyfin listing becomes the node's own entries; which items are redirects, and are dropped |
| `Feed`, `LocalIndex` | the provider: the revisioned log, tombstones, hides, min rev, pages; the class that executes it |
| `Mirror` | the consumer: the persisted cursor, the mirror, one pull |
| `Replication`, `Convergence` | both as one system: every interleaving of refreshes, hides, collection, database replacement, pages, crashes and resync requests |
| `Termination`, `Retention`, `Download` | when a pull ends; when collection resets a consumer; the pull as executed refines the replicated system |
| `Folders`, `Election`, `Items`, `Sync` | folder exclusions, the election, writing it to the table, and the sync that runs it all in order |
| `Hiding`, `Outcomes` | what hides do, and what a sync and a cycle come to, item by item in the fields of rows and entries |
| `Paths`, `Places`, `Suffixes`, `Layout` | names cut to length; where the path made of them lies, for every id; which ids can share one; what can be read back from it |
| `Strm`, `Reconcile`, `Recovery` | the `.strm` reconcile: one row, a whole run, interrupted runs and reruns |
| `Failures`, `Loss`, `Losing`, `Retries` | when an item can lose its file, in one reconcile and over any number of them; retrying until one is clean |
| `Cycles`, `Histories`, `SyncRun` | whole cycles: what peers offer becomes exactly the files on the disk, and stays; how rows come into conflict |
| `Network`, `Ghosts` | a network of nodes that list each other's redirects, every link a replicated system |
| `Queue` | the coalescing queue and its consumer |
| `Ids`, `Slugs`, `Migration`, `Namespace`, `Store` | ids from names, the UUID migration, the namespace of peers and clients, invites |
| `Bytes`, `Order`, `Wrappers` | byte strings, the byte order of ids, options |

A SQL table is a map; what runs in one transaction is one step that commits or changes
nothing. Code that updates state in place is a class (`LocalCatalog`, `PeerMirror`, `ItemTable`, `Node`,
`Library`, `SyncQueue`, `PeerStore`, `Registry`, `AuthStore`) whose methods are proved against
functions of the old state; the lemmas are about those functions. A string is a sequence of
bytes. Time, fetched pages, database failures and file failures are inputs or arbitrary
choices. A file operation can succeed, return an error, or be the last one before the
process dies.

## Assumptions

- Content hashes do not collide: `ContentHash` is a free constructor.
- A new database has a non-empty epoch never used before, and a database is never rolled back
  under the same epoch.
- Peer ids are non-empty. `Ids.FirstFreeSafe` shows ids made from names are also plain folder
  names, so joining a path never collapses a peer's folder; of ids given in the configuration it is a
  hypothesis where it matters (`Plain(Sanitize(st.peerID))`).
- `OUTPUT_DIR` is absolute and clean. Item ids are arbitrary: they come from peers, and their suffix goes
  into paths as it is.
- Nothing else writes `catalog_items.strm_path` or the `.strm` files while a reconcile runs.
- For the namespace: picking an id and inserting it is one step, temporary invite keys and
  UUIDs are fresh, key pins are non-empty, and peers seeded at boot are not part of a run.

## What came out differently from the comments in the code

- A pull need not end, even if the provider never refreshes meanwhile. A feed served from the
  beginning lists only visible rows, so its first page can stop below min rev; the cursor it
  hands out is then rejected and the page repeats. `Termination.EndsExactly` gives the exact
  condition. It also covers a cursor at rev 0 that the provider accepts, where the first page
  is no reset. `Termination.FirstContactStuck` gives a log for every page
  size, and `Termination.CollectionHappens` the collection that produces it.
- `normalizeFolder` is not idempotent: normalizing again changes the result exactly if the folder
  as given, trimmed, ends in white space and then slashes (`Folders.NormalizeAgain`).
- The layout of generated paths holds for ids whose suffix has no slash, and only for them: only the
  display names and the peer's id are sanitized, and joining the path splits and cleans the suffix.
  `Places.PathIsFlat` and `Places.SuffixWhole` state it as an iff. A path is inside its peer's folder
  exactly if following its names does not leave that folder for good (`Places.InPeerFolderExactly`);
  `Places.ClimbingID` is an id for which it does, and `Places.UntidySuffixesCollide` gives two ids
  with different suffixes and one path. What holds of every id: the path ends in `.strm`
  (`Places.PathEndsInStrm`) and no element made from names is over 255 bytes (`Places.ElementsFit`).
- A clean rerun after an interrupted reconcile ends at the disk an undisturbed run would have left if
  and only if every wanted row's path lies in movies/ or series/ (`Recovery.RerunExactly`):
  the sweep finds no leftover temp file elsewhere. `Recovery.RerunLeavesMore` is an id, disk and table
  for which it does not; ids without a slash keep to the two folders (`Strm.StayingBelowConfines`).
  The other results about reconciles need no hypothesis on ids.
- A reconcile in which nothing fails is exact if and only if no row records, as a path it is
  about to clear, the path where a row with a smaller id belongs: the removal does not look at
  the paths already claimed. `Reconcile.Library.Reconcile` states both directions.
  `Recovery.DistinctSuffixesNeverMeet` gives a condition on ids that rules it out,
  `Cycles.CollidingSuffixesOverrun` is a history in which it happens, for instance with two titles
  whose hashes share eight digits (`Places.TitleHashSuffix`), and `Cycles.SecondCycleNeverOverruns`
  shows the next cycle repairs it.
- An item can lose its last file. A file is the item's as long as it is what it was at the start, or
  holds the item's own URL, and the item is looked for where it belongs and where the table, as
  the reconcile left it, records it. `Losing.LosesExactly` says exactly when some pattern of failures and
  some point to stop at do it: when a later row clears the item's new file once it is recorded, or when
  every path the item has a file at is taken by a row that gives it none at the other (it clears
  the file, or writes another item's over it), or is moved to the other path and taken there by a later
  row. `Retries.EverLosesExactly` says the same of any number of reconciles in a row, where the order of
  the rows no longer matters. Nothing need fail: when two rows exchange paths, the one with the
  smaller id is left without a file (`Losing.ExchangeLoses`), as two names swapped after a clean cycle do
  if the ids share a suffix (`Histories.SwapArises`). With one failed write a new item under the old name
  of a renamed one does too (`Losing.TakenPathLoses`, `Histories.TakenArises`), and so do two
  rows that record one file (`Losing.SharedRecordLoses`, `Histories.SharedRecordArises`). An item whose
  paths no other row records or wants is safe (`Retries.UncontestedIsSafe`).
- Which ids can share a path at all: those with one suffix, and also those of which one's suffix can be
  read as more of a name followed by the other's in brackets (`Suffixes.SharesExactly`).

## Model

| member | source | states |
|---|---|---|
| Bytes.SplitAround | internal/syncrun/syncrun.go:58-59 | splitting a joined reason cuts both sides, so membership of a part is what the merge thinks it is |
| Bytes.PrefixValid | internal/strm/strm.go:97-100 | cutting well-formed UTF-8 leaves well-formed text exactly if the cut is at the end or before a rune start |
| Listing.LocalEntries | internal/catalog/catalog.go:82-137 | the two counting loops return exactly the entries of the real items in listing order: no redirect, no series whose listed episodes are all redirects |
| Listing.OfferedIsReal | internal/catalog/catalog.go:112-135 | every entry comes from a real listed item |
| Listing.RealIsOffered | internal/catalog/catalog.go:112-135 | every real listed item has its entry offered |
| Redirects.LocatedExactly | internal/catalog/catalog.go:91-96 | an item is a redirect exactly if its extension says so, or its cleaned path has the elements of the cleaned output folder first |
| Redirects.UnlocatedExactly | internal/catalog/catalog.go:93-96 | without an output folder only the extension counts |
| Redirects.StrmFoldsExactly | internal/catalog/catalog.go:95 | the extension is .strm in any case of its letters, the long s included |
| Redirects.RealExactly | internal/catalog/catalog.go:98-116 | besides redirects only a series is left out of which episodes are listed, every one a redirect |
| Redirects.OfferedDescribes | internal/catalog/catalog.go:115-135 | every entry says of a listed item that is no redirect what the listing does, under the first of its ids |
| Redirects.SameItemExactly | internal/jellyfin/client.go:110-121 | two listed items are one exactly if the first kind of id either has is the same for both, and so is the id |
| Feed.RelistedKeepsWf | internal/catalog/index.go:168-227 | recording a listing keeps revs pairwise distinct in 1..head and every tombstone above min rev |
| Feed.CollectedKeepsWf | internal/catalog/index.go:248-263 | collecting tombstones keeps it too, and min rev strictly increases whenever anything is collected |
| Feed.RefreshExact | internal/catalog/index.go:168-231 | after a refresh the live rows are the deduplicated listing with current hidden flags; the offer is the listing minus the hides |
| Feed.RefreshIdle | internal/catalog/index.go:182-187 | the head stays exactly if the log already reflects listing and hides, and then no row changes |
| Hiding.RefreshHides | internal/catalog/hidden.go:24-52 | after a refresh a listed episode is hidden, and not offered, exactly if its series' id is hidden, or its series' name if it has no such id, or its own id if it has neither; anything else by its own id |
| Hiding.HidingWithdraws | internal/catalog/hidden.go:16-24 | hiding a key more withdraws what it stands for, all episodes of a series, and nothing else |
| Hiding.ElectionHides | internal/catalog/catalog.go:530 | a remote item is elected as hidden exactly by the same rule on the elected copy |
| Hiding.HideSurvives | internal/catalog/hidden.go:71-94 | a hide survives exactly if it stands for a live local item or for one any peer, offering or not, still has |
| Feed.PageExact | internal/catalog/index.go:299-367 | a page holds exactly the rows after the cursor up to its next rev, each once, oldest first; it advances, and without more it ends at the head |
| Feed.PageSays | internal/catalog/index.go:313-355 | a page mentions an item exactly if its row changed after the cursor up to the page's next: a deleted or hidden one as gone, and not from the beginning, any other with its entry |
| Feed.PageMoves | internal/catalog/index.go:335-367 | a page with more to come moves past the rev it was served from, and never past the head |
| Feed.EvolvesTransitive | internal/catalog/index.go:168-263 | what refreshes may do to a row composes over any number of them |
| Feed.RefreshEvolves | internal/catalog/index.go:168-263 | a refresh only moves rows to higher revs, and a row goes away only as a tombstone at or below min rev |
| LocalIndex.Deduplicated | internal/catalog/index.go:121-126 | the map-filling loop computes LastWins |
| LocalIndex.LastWinsExact | internal/catalog/index.go:121-126 | one entry per listed id, the last one listed under it |
| LocalIndex.AfterFresh | internal/catalog/index.go:199-206 | each row of the loop gets a revision no other row has |
| LocalIndex.AfterAt | internal/catalog/index.go:176-226 | what the loop leaves in a row: rewritten under a new revision if its kind changed, untouched if not |
| LocalIndex.AfterCounts | internal/catalog/index.go:185-197 | the counters after some ids count exactly the ids of each kind among them |
| LocalIndex.AllCounted | internal/catalog/index.go:81-84 | over both loops the counters equal the sizes of the five kinds, and their sum the ids that moved |
| LocalIndex.StatsSay | internal/catalog/index.go:176-222 | each counter is the number of the ids it is named for: newly listed, gone, newly hidden, shown again, or listed with another entry |
| LocalIndex.RecordListed | internal/catalog/index.go:176-209 | the loop over the sorted listing is the specified fold over its ids |
| LocalIndex.RecordRemoved | internal/catalog/index.go:211-226 | the loop over the rows no longer listed continues that fold |
| LocalIndex.GcTombstones | internal/catalog/index.go:248-263 | purges every tombstone at or below the newest expired one's rev, which becomes min rev, or nothing |
| LocalIndex.Relist | internal/catalog/index.go:168-231 | the whole transaction is a Refreshed step, and every counter in the result is exact, the purged rows included |
| LocalIndex.LocalCatalog.Refresh | internal/catalog/index.go:88-238 | commits a Refreshed step from the real entries of the listing with exact counters, raising head by exactly Changed(), or changes nothing |
| LocalIndex.LocalCatalog.EnsureIndexed | internal/catalog/index.go:96-105 | refreshes only if none ever committed, and fails exactly if that was needed and did not commit |
| LocalIndex.FirstRows | internal/catalog/index.go:335-367 | the selection loop yields the oldest limit matching rows and whether one is left over |
| LocalIndex.LocalCatalog.Changes | internal/catalog/index.go:299-370 | serves exactly the specified page, from scratch when the cursor is unusable |
| LocalIndex.LocalCatalog.Entries | internal/catalog/index.go:373-392 | lists each offered entry once, by id |
| Mirror.PeerMirror.RequestResync | internal/catalog/pull.go:256-266 | sets the request and nothing else, also mid-pull |
| Mirror.PeerMirror.LoadCursor | internal/catalog/pull.go:232-249 | a requested resync blanks the position but keeps the generation |
| Mirror.PeerMirror.ApplyChanges | internal/catalog/pull.go:272-323 | the page, its cursor and the sweep commit together or not at all; the request is cleared only by a cursor that loaded it; deletes counts the changes that remove, upserts the others, swept the rows the sweep dropped |
| Mirror.PeerMirror.OnPage | internal/catalog/pull.go:133-174 | one page: reset, progress check, sweep on the last page, and what happens to the loop |
| Mirror.PeerMirror.PullLegacy | internal/catalog/pull.go:179-200 | a whole catalog replaces the mirror under a new generation and an empty epoch |
| Mirror.PeerMirror.PullPeer | internal/catalog/pull.go:111-175 | the loop is the fold of OnPage over whatever the provider answers, from the stored cursor |
| Mirror.PullAdvances | internal/catalog/pull.go:145-147 | whatever a peer answers, a pull it never restarts moves on by at least one revision a page |
| Replication.UpsertsAt | internal/catalog/pull.go:291-311 | what a page leaves in the row of one id |
| Replication.PageAt | internal/catalog/pull.go:291-311 | applying an honest page makes each id it stands for agree with the log, and leaves the rest alone |
| Replication.InStepEvolves | internal/catalog/index.go:248-263 | a mirror in step with the log stays in step while the provider refreshes and collects |
| Replication.DeltaInStep | internal/catalog/pull.go:133-175 | a delta page keeps the mirror in step, and the last one makes it equal the offer |
| Replication.ResetInStep | internal/catalog/pull.go:133-154 | a page from scratch puts any mirror in step, whatever it held, and if it is the last the sweep makes it equal the offer |
| Replication.InitInv | internal/catalog/pull.go:232-238 | a new node's empty mirror is in step |
| Replication.RefreshKeeps | internal/catalog/index.go:113-238 | a refresh at any moment of a pull keeps the invariant |
| Replication.RecreateKeeps | internal/catalog/index.go:57-62 | so does replacing the provider's database, mid-pull or not |
| Replication.FetchKeeps | internal/catalog/pull.go:120-130 | and being served a page or a whole catalog |
| Replication.PageCommitted | internal/catalog/pull.go:133-175 | committing a held page, although the log moved on since it was served, leaves the mirror in step with the log that served it, and equal to its offer if it was the last |
| Replication.LegacyCommitted | internal/catalog/pull.go:179-200 | committing a legacy catalog makes the mirror exactly the offer it was listed from |
| Replication.CommitKeeps | internal/catalog/pull.go:111-200 | every commit keeps the invariant |
| Replication.StepKeeps | internal/catalog/pull.go:111-323 | every step of every interleaving keeps the invariant |
| Convergence.CompletedPullRefinesDownload | internal/catalog/pull.go:111-175 | a completed pull makes the mirror what downloading Entries() at its last page would have |
| Convergence.HonestFeedNeverStalls | internal/catalog/pull.go:145-147 | the progress check never fires on an honest feed |
| Convergence.DeltaMissesNothing | internal/catalog/index.go:313-334 | from any cursor the provider accepts, every id the mirror has wrong is still ahead in the feed; including a cursor equal to min rev, and rev 0 |
| Convergence.MissedRemovalIsRejected | internal/catalog/index.go:320-326 | a row mirrored of a collected item implies 0 < rev < min rev, which the provider rejects |
| Convergence.NothingOfferedVanishes | internal/catalog/pull.go:105-110 | no commit drops an item offered when what it commits was served: not a reset, a resumed resync or a sweep |
| Convergence.NothingUnofferedAppears | internal/catalog/pull.go:291-306 | a commit adds only items offered when what it commits was served |
| Convergence.RequestNeverLost | internal/catalog/pull.go:251-266 | only a pull that loaded the request clears it, by a page fetched from a blank cursor or a whole legacy fetch; or the peer is removed |
| Convergence.RequestRepairs | internal/catalog/pull.go:232-266 | until a request is carried out the mirror may be anything; once it is cleared the mirror is in step |
| Convergence.RunRefinesDownload | internal/catalog/pull.go:111-175 | in every run, at every completed pull, the mirror equals what the provider offered when it was last asked |
| Convergence.RunNeverDropsOffered | internal/catalog/pull.go:105-110 | over any stretch of a run in which the provider offers an item, a mirrored item stays mirrored |
| Convergence.ResyncStabilises | internal/catalog/pull.go:251-266 | from any mirror whose generations do not exceed the cursor's, the next pull started after a request that completes makes the mirror equal the offer |
| Termination.EndsExactly | internal/catalog/pull.go:118-174 | a pull against an unchanging log ends if and only if it is not (served from scratch, with more, and next below min rev) |
| Termination.ResetEndsExactly | internal/catalog/index.go:320-326 | if the first page is a reset: it ends iff that page is the last or reaches min rev |
| Termination.NotStuckEnds | internal/catalog/pull.go:118-174 | then it is done within one page per revision ahead, plus one |
| Termination.StuckForever | internal/catalog/pull.go:145-147 | otherwise the same page repeats forever; the progress check exempts it |
| Termination.CollectionHappens | internal/catalog/index.go:248-263 | the log below is what collection leaves of a well-formed one a retention period later |
| Termination.FirstContactStuck | internal/catalog/index.go:313-326 | for every page size a log with which a first contact never ends |
| Retention.CollectsExactlyExpired | internal/catalog/index.go:245-263 | with a non-decreasing clock collection purges exactly the tombstones older than the retention period |
| Retention.InitInv | internal/catalog/index.go:57-62 | a chronological log and a consumer that has pulled nothing satisfy it |
| Retention.CompletedAtHead | internal/catalog/pull.go:133-174 | a pull that completes leaves the stored cursor at the head its last page was served at |
| Retention.ContinuedMovesOn | internal/catalog/pull.go:133-174 | a page that continues the mirror only moves the stored cursor on |
| Retention.StepKeeps | internal/catalog/index.go:245-263 | what every step of the replicated system, and the passing of time, keeps about revisions, times and the stored cursor |
| Retention.PunctualConsumerNeverReset | internal/catalog/index.go:245-263 | in every run, within one retention period of the last completed pull the provider accepts the stored cursor, and no page of a pull that continues from it is a reset |
| Download.PulledMore | internal/catalog/pull.go:111-175 | one more answer is one more turn of the pull loop |
| Download.PullIsExecuted | internal/catalog/pull.go:111-175 | after every step of a pull of the replicated system, resync requests included, executing the loop on the answers so far leaves exactly its consumer, but for the stored request |
| Download.PullDownloads | internal/catalog/pull.go:111-175 | executing a complete pull of an honest feed succeeds and leaves what the provider offered at one moment of that pull, though resyncs be requested meanwhile |
| Folders.NormalizeFolder | internal/catalog/folders.go:26-32 | the loop strips every trailing slash but a lone one |
| Folders.UnderAnyFolder | internal/catalog/folders.go:48-55 | the search decides whether some folder contains the path |
| Folders.UnderFolderIsElementPrefix | internal/catalog/folders.go:37-43 | for every folder but the root, lying under it is exactly having its elements first |
| Folders.UnderRoot | internal/catalog/folders.go:41-44 | the root holds exactly the paths that start with a slash or backslash, an empty folder none |
| Folders.NormalizedShape | internal/catalog/folders.go:26-32 | a normalized folder has no backslash, and no trailing slash unless it is one byte |
| Folders.NormalizeAgain | internal/catalog/folders.go:26-32 | normalizing again changes the result exactly if the trimmed folder ends in white space and then slashes |
| Folders.NormalizeTwiceDiffers | internal/catalog/folders.go:26-32 | "/a /" shows it is not always |
| Election.Elect | internal/catalog/catalog.go:457-548 | the ordered scan computes the declarative election and the hide keys every source offers |
| Election.ElectionUnique | internal/catalog/catalog.go:500-548 | the declarative election has one outcome |
| Election.FirstIsSmallest | internal/catalog/catalog.go:500-545 | the first row in query order is the smallest offering peer's |
| Order.LessExactly | internal/catalog/catalog.go:506 | the order of ids is that of the first byte in which they differ, a prefix first |
| Election.ElectedLocal | internal/catalog/catalog.go:470-495 | an own item is elected whoever else has it, with every field of its entry, hidden as the last refresh recorded |
| Election.ElectedRemote | internal/catalog/catalog.go:500-548 | any other item is listed exactly if an offering peer has it; its peer is the smallest whose copy lies in no excluded folder, else, marked so, the smallest; every field is that of this copy's entry |
| Election.ExclusionsKeepListing | internal/catalog/catalog.go:520-548 | changing folder exclusions never changes which items are listed |
| Election.MoreExclusionsHideMore | internal/catalog/catalog.go:520-548 | excluding more only shrinks what is not hidden by folder |
| Election.DroppedHidesChangeNothing | internal/catalog/hidden.go:81-94 | dropping the hides of items no source offers leaves the same election |
| Election.SameElection | internal/catalog/catalog.go:457-548 | an election reads only the live local items, what offering peers have and their exclusions: logs that differ in revisions or tombstones elect alike |
| Election.RemoteNamesPeer | internal/catalog/catalog.go:500-548 | an elected remote item names an offering peer that has it; a local one names none |
| Items.DesiredSurvive | internal/catalog/catalog.go:661-668 | the inert delete never drops a desired row, and its recorded file is untouched |
| Items.UpsertDesired | internal/catalog/catalog.go:614-641 | the upsert loop brings exactly the desired rows up to date |
| Items.ClearStale | internal/catalog/catalog.go:643-659 | the second loop deletes stale local rows and clears stale elections, touching nothing else |
| Items.ItemTable.WriteElection | internal/catalog/catalog.go:567-674 | one transaction turns the table into Elected(table, desired) and prunes the hides, or nothing |
| Sync.Node.PullPeers | internal/catalog/pull.go:67-102 | runs the pull loop of every online peer: its mirror is the one after that pull, every other one untouched, in whatever order; reported as failed are exactly the pulls that did not complete or whose time could not be stored |
| Sync.Node.PruneRemovedPeers | internal/catalog/pull.go:358-385 | drops exactly the mirrors, cursors and exclusions of unknown peers, or nothing |
| Sync.Node.Sync | internal/catalog/catalog.go:355-413 | a local catalog that cannot be listed or committed, when it had to be, aborts with nothing changed; a failed pull is skipped; the table becomes the election over the log and mirrors this sync left, or is not touched |
| Outcomes.SyncListsLocal | internal/catalog/catalog.go:356-370 | if a refresh is asked for, or none ever was, the own items after a sync are exactly the real items of the listing, else what they were |
| Outcomes.SyncElectsLocal | internal/catalog/catalog.go:355-413 | after a sync the table lists an own item as local, with the fields of its entry |
| Outcomes.SyncElectsRemote | internal/catalog/catalog.go:372-399 | any other item is elected to a peer exactly if a known peer that is online, or only just gone, has it mirrored, and then to one that does, with the fields of that copy; its recorded file is untouched |
| Outcomes.SyncKeepsHides | internal/catalog/hidden.go:71-94 | after a sync a hide is left exactly if it stands for an own item or for one mirrored of a known peer, online or not |
| Paths.TruncateUTF8 | internal/strm/strm.go:90-101 | the loop computes the specified truncation |
| Paths.TruncatedIsLongestValid | internal/strm/strm.go:90-101 | well-formed text (section 4 of RFC 3629) is cut to its longest well-formed prefix of at most n bytes, at most 3 short |
| Paths.NamesFit | internal/strm/strm.go:61-83 | for all names, ids and 64-bit numbers file, item folder and series folder names, as handed to the join, fit 255 bytes with the id suffix whole |
| Paths.ShortNamesSurvive | internal/strm/strm.go:70-76 | a series or episode name no longer than half the budget survives whole |
| Layout.TrimmedOfSpace | internal/strm/strm.go:27 | what is left of a name is a part of it that neither starts nor ends with white space |
| Layout.SanitizeExactly | internal/strm/strm.go:25-32 | white space around a name goes, a slash or zero byte becomes a dash, an empty name becomes "untitled", and nothing else changes |
| Layout.DisambiguatorNames | internal/strm/strm.go:112-141 | provider ids are rendered as Jellyfin reads them, titles by eight digits of their hash, ids too long by a hash |
| Layout.NamesShare | internal/strm/strm.go:74-77 | of names too long together an episode's up to half the budget stays whole, else the series gets half; the other gets the rest |
| Layout.ItemLayout | internal/strm/strm.go:61-88 | a movie's path, or that of an episode without a series, element by element |
| Layout.EpisodeLayout | internal/strm/strm.go:66-83 | an episode's path element by element: season and episode number can be read back from it, and season 0 is Specials |
| Places.PathEndsInStrm | internal/strm/strm.go:61-83 | every generated path ends in .strm, whatever the ids |
| Places.PathIsFlat | internal/strm/strm.go:61-83 | a path has the documented layout, one element a name, exactly if no id suffix in it holds a slash and the peer's id is a plain name |
| Places.SuffixWhole | internal/strm/strm.go:44-50 | the file's own name keeps the id suffix whole exactly if the suffix holds no slash |
| Places.ElementsFit | internal/strm/strm.go:58-59 | no element below the peer's folder is over 255 bytes, whatever the ids |
| Places.InPeerFolder | internal/strm/strm.go:61-83 | a row whose names never step above its peer's folder has its file inside that folder, inside movies/ or series/ |
| Places.InPeerFolderExactly | internal/strm/strm.go:61-83 | for every row: its file is inside its peer's folder exactly if its names, followed from there, do not leave the folder, or come back through the very levels they left |
| Places.FollowCleans | internal/strm/strm.go:66-82 | joining names onto any folder is leaving it by some levels and then going down |
| Places.SlashlessStaysBelow | internal/strm/strm.go:61-83 | no such step without a slash in an id suffix |
| Places.DistinctSuffixesDistinctPaths | internal/strm/strm.go:44-50 | items whose id suffixes differ, hold no bracket and clean to themselves never share a path, whatever the rows and output folders |
| Suffixes.SharedPathSuffixes | internal/strm/strm.go:44-50 | rows of two ids with slashless suffixes share a path, in whatever output folders, only if the suffixes are one or one reads as text, " [" and the other |
| Suffixes.SharesExactly | internal/strm/strm.go:61-83 | and exactly for such ids some rows do |
| Places.SlashlessIsTidy | internal/strm/strm.go:104-119 | a suffix without a slash cleans to itself |
| Places.SameSuffixSamePath | internal/strm/strm.go:61-83 | items alike but for ids of one suffix share a path |
| Places.SameNameSamePath | internal/strm/strm.go:61-83 | so do items alike in kind, peer, name and suffix, unless they are grouped episodes |
| Places.TitleHashSuffix | internal/strm/strm.go:121-126 | title hashes that share eight digits have one suffix |
| Places.UntidySuffixesCollide | internal/strm/strm.go:61-83 | two ids with different, bracket-free suffixes and one path |
| Places.ClimbingID | internal/strm/strm.go:61-83 | an id with which every movie's path leaves its peer's folder |
| Places.OutsideID | internal/strm/strm.go:61-83 | an id with which every movie's path leaves the output folder |
| Strm.StreamURLNamesTheItem | internal/strm/strm.go:143-145 | the last two elements of a stream URL are the peer and item it was made for exactly if neither holds a slash |
| Strm.TrimSlashesExactly | internal/strm/strm.go:144 | of the base URL only slashes at the end go, and all of them |
| Strm.OwnedIsNoTemp | internal/strm/strm.go:304-336 | a row's own path is never that of a temp file, whatever its id |
| Strm.StayingBelowConfines | internal/strm/strm.go:61-83 | rows whose names never step above their peer's folder keep to movies/ and series/ |
| Strm.ConfinedIsSweepable | internal/strm/strm.go:304-336 | then all a reconcile may create is what the sweep would delete unless kept |
| Strm.KeptStays | internal/strm/strm.go:240-275 | once a path is safe from the sweep no later row makes it unsafe with a file there |
| Strm.SafeStep | internal/strm/strm.go:217-284 | every row, however it fails, keeps: recorded paths are old or final, they and the desired paths are safe from the sweep, and a changed record's old file is gone |
| Strm.RanReached | internal/strm/strm.go:217-288 | what single rows keep holds after any number of rows of a run |
| Strm.CleanStep | internal/strm/strm.go:217-284 | if nothing failed, what the rows so far leave at every path |
| Strm.ExactEnd | internal/strm/strm.go:217-297 | a run without failures ends with the exact table, and with the exact disk iff no row overran another |
| Strm.SweptEnd | internal/strm/strm.go:288-297 | a run that reaches its sweep: what it saved, and that the sweep spared every tracked file |
| Failures.ActsOrNot | internal/strm/strm.go:225-240 | at its turn a row acts, or is skipped because a row with a smaller id wants its path |
| Loss.TokenEdited | internal/strm/strm.go:240-284 | a row that acts, however far it gets, leaves a file of the item that is not doomed somewhere |
| Loss.SettledEdited | internal/strm/strm.go:257-276 | the new file of an item recorded there stays its own unless a row that may follow clears it |
| Loss.KeepsRan | internal/strm/strm.go:217-284 | so it is after any number of rows of a run, however they fail |
| Loss.KeepsStopped | internal/strm/strm.go:177-298 | and wherever the run stops, saved or not, swept or not |
| Loss.SafeKept | internal/strm/strm.go:177-298 | an item that cannot lose its file has one of its own, as the table then records it, after every reconcile |
| Losing.LosesExactly | internal/strm/strm.go:177-298 | some pattern of failures and some stopping point leave a wanted item that had a file without one of its own exactly if a later row clears its new file once recorded, or each path it has a file at is doomed: taken, by clearing or by overwriting, by a row that gives it none at the other, or moved there and then taken by a later row |
| Losing.OvertakenLoses | internal/strm/strm.go:257-276 | the first of the two cases, in a run that is saved |
| Losing.ExchangeLoses | internal/strm/strm.go:257-276 | two rows exchange paths, nothing fails, and the earlier one, recorded where it wrote, has no file |
| Losing.TakenPathLoses | internal/strm/strm.go:254-284 | another row wants the path an item is leaving; if writing the item's new file fails, it has none |
| Losing.SharedRecordLoses | internal/strm/strm.go:257-276 | two rows record one file; if writing the wanted one's new file fails, clearing the other takes its last |
| Histories.SwapArises | internal/strm/strm.go:217-284 | for two ids with one suffix a history of clean cycles that leads to the exchange: the names are swapped |
| Histories.TakenArises | internal/strm/strm.go:217-284 | and one that leads to the taken path: an item is renamed as another comes in under its old name |
| Histories.SharedRecordArises | internal/strm/strm.go:225-284 | and one that leads to the shared record: a clean cycle, a reconcile that fails to remove a hidden row's file, a renamed item |
| Reconcile.Library.WriteIfChanged | internal/strm/strm.go:349-375 | writes all of the content or leaves the old file, plus at most a temp file |
| Reconcile.Library.RemoveStrm | internal/strm/strm.go:392-396 | removes one file, and a missing one counts as removed |
| Reconcile.RemoveFolders | internal/strm/strm.go:398-415 | the folders it tries lie strictly inside the output folder, and never are movies/ or series/ |
| Reconcile.Library.WriteRow | internal/strm/strm.go:254-284 | the new file is there before the old one goes; failing in between keeps both |
| Reconcile.Library.ReconcileRow | internal/strm/strm.go:217-284 | one row is a RowDone step, or an Edited disk if the process dies in it |
| Reconcile.Library.SavePaths | internal/strm/strm.go:428-455 | the updates are applied in order, all or none |
| Reconcile.Library.Sweep | internal/strm/strm.go:313-343 | deletes only unkept .strm and temp files in the two folders; all of them unless something fails |
| Reconcile.Library.Reconcile | internal/strm/strm.go:177-298 | for every pattern of failures and every crash point, with the run's states as witness: rows and files change only as Progress allows; every item that cannot lose its file has one of its own, where it belongs or where the table now records it; the saved table and the sweep are those of the run's last state, and the sweep spares every tracked file on that state's disk; when nothing fails the table is exact, and the disk is iff no row overran another |
| Recovery.ProgressComposes | internal/strm/strm.go:172-176 | what two reconciles may do in a row, one may do |
| Recovery.OverrunsShrink | internal/strm/strm.go:217-284 | an interrupted run creates no new conflict between rows |
| Recovery.RerunReachesTheSame | internal/strm/strm.go:172-176 | a clean rerun after any interrupted runs reaches the disk and table one undisturbed run would have, if the rows keep to movies/ and series/ |
| Recovery.RerunExactly | internal/strm/strm.go:172-176 | and exactly then: over all interrupted runs, or any number of them, every clean rerun ends where an undisturbed run does iff the rows keep to the two folders |
| Recovery.RerunLeavesMore | internal/strm/strm.go:304-336 | an id, table and empty disk for which it does not |
| Recovery.LeftoverHappens | internal/strm/strm.go:349-375 | next to any wanted row's place a reconcile that dies there can leave any free temp file, and all else as it was |
| Recovery.LeftoverStays | internal/strm/strm.go:304-336 | a temp file left outside the two folders outlives every clean rerun |
| Retries.SafeForever | internal/strm/strm.go:164-176 | whatever any number of reconciles do, an item that cannot lose its file over them has one of its own, as it is then recorded |
| Retries.EverLosesExactly | internal/strm/strm.go:164-176 | some reconciles in a row leave a wanted item that had a file without one exactly if another row clears its new file once recorded, or each path it has a file at is doomed in whatever order of the rows |
| Retries.UncontestedIsSafe | internal/strm/strm.go:257-276 | an item none of whose paths another row records or wants never loses its last file |
| Retries.ReconcileUntilClean | internal/strm/strm.go:164-176 | retrying until clean ends there, with every item that cannot lose its file having one all along |
| Recovery.DistinctSuffixesNeverMeet | internal/strm/strm.go:44-50 | if id suffixes differ, hold no bracket and clean to themselves, and recorded paths were made for their own rows, no rows conflict |
| Recovery.MadeForRowKeeps | internal/strm/strm.go:428-455 | and that is kept by every reconcile |
| Cycles.ElectionNamesPeers | internal/catalog/catalog.go:500-548 | elections meet what the table writer needs |
| Cycles.OneCycleSettles | internal/catalog/catalog.go:567-674 | one clean cycle settles the table iff no dropped row had a file left |
| Cycles.TwoCyclesSettle | internal/catalog/catalog.go:567-674 | two clean cycles settle any table |
| Cycles.SettledIsFixed | internal/catalog/catalog.go:613-673 | a settled table is a fixpoint of election and reconcile |
| Cycles.SecondCycleNeverOverruns | internal/strm/strm.go:217-288 | after one clean cycle no row can overrun another |
| Cycles.SettledDiskIsFixed | internal/strm/strm.go:217-297 | a disk exact for a settled table is left alone |
| Cycles.ElectedDisk | internal/strm/strm.go:217-297 | a reconcile exact for a table just written from an election leaves exactly the election's files |
| Outcomes.CleanRecords | internal/strm/strm.go:220-223 | after a clean reconcile the rows that record a file are exactly those not local, not hidden by the user or by folder, with a peer and an item id, and no series root; each records its own path |
| Outcomes.ExactByRecord | internal/strm/strm.go:143-145 | once exact, the .strm and temp files under movies/ and series/ are exactly the recorded paths, and each recorded file holds the stream URL of its row's peer and item |
| Outcomes.CycledByRecord | internal/strm/strm.go:288-297 | so they are after one cycle, also when the table still lists rows nobody offers |
| Outcomes.DroppedFileIsGone | internal/strm/strm.go:225-238 | a file a row recorded before the reconcile, wherever it was, is gone unless a row records it after |
| Outcomes.OtherFileStays | internal/strm/strm.go:308-325 | any file that is neither a .strm or temp file under movies/ or series/ nor recorded, as artwork is not, stays what it was |
| Cycles.CollidingSuffixesOverrun | internal/strm/strm.go:121-126 | for two ids with one suffix a history of cycles in which the later row takes the earlier one's file |
| SyncRun.SyncSees | internal/catalog/catalog.go:388-400 | after a sync over honest feeds every pull has completed, and the election reads exactly what each peer offered when last asked |
| SyncRun.QuietElects | internal/catalog/catalog.go:355-413 | a sync that is given nothing new elects what was elected, although revisions moved and tombstones went |
| SyncRun.AgainIsQuiet | internal/catalog/catalog.go:355-413 | the same inputs again are nothing new, although the first sync pruned hides |
| SyncRun.HonestAgain | internal/catalog/pull.go:111-175 | peers that offer the same when pulled again bring nothing new |
| SyncRun.RunLocal | internal/syncrun/syncrun.go:116-151 | a clean cycle writes, reconciles and records one election; over honest feeds it is the election of exactly what the peers offered; and if no row overran another, the .strm files under movies/ and series/ are exactly those of its items |
| SyncRun.RanShows | internal/strm/strm.go:217-297 | after such a cycle the rows that record a file are exactly those of playable items elected to a peer that neither the user nor a folder exclusion hides; if no row overran another, the redirects on the disk are exactly theirs |
| SyncRun.TwoRunsRest | internal/syncrun/syncrun.go:116-151 | two clean cycles on the same inputs come to rest on any table and any disk |
| SyncRun.Settle | internal/syncrun/syncrun.go:116-151 | two such cycles as executed, also on a table in which rows overrun each other, leave exactly the elected rows and their files, which rows have one said in the fields of their state |
| SyncRun.RepeatCycle | internal/syncrun/syncrun.go:116-151 | from there a clean cycle that is given nothing new changes no row and no file |
| Ghosts.RedirectsAreRecognised | internal/catalog/catalog.go:97-100 | a listed file this code wrote is recognised under any mount |
| Ghosts.OnlyRedirectsNotReal | internal/catalog/catalog.go:97-135 | a listing that shows an item only as redirects, or as the folder of a series whose listed episodes are all redirects, has no real copy |
| Ghosts.OffersOnlyReal | internal/catalog/index.go:113-231 | everything a node lists after a refresh was real in that listing |
| Network.StepKeeps | internal/catalog/catalog.go:355-413 | whatever any node of the network does, every link stays a replicated system in step |
| Ghosts.MirrorStep | internal/catalog/pull.go:111-200 | no commit on a link brings in an item the provider did not list when what it commits was served |
| Ghosts.MirrorStaysFree | internal/catalog/pull.go:111-175 | once a link completed a pull served after its provider refreshed, the item stays out of its mirror, whatever was mirrored before |
| Ghosts.EmptiedIsFree | internal/catalog/pull.go:358-385 | so it does once the peer was removed, or the node's own database lost, after that refresh |
| Ghosts.UnusedIsFree | internal/catalog/pull.go:358-385 | and, whatever the peer does, once it was removed for good |
| Ghosts.NoGhosts | internal/catalog/catalog.go:355-440 | whoever mirrors whom, and whoever listed or mirrored the item before: from a moment on from which it is real nowhere, after a refresh per node, then a completed pull or a removed peer per link, then an election, it is in no log, mirror or election of the node, with whatever refreshes, lost databases, pages, crashes, resync requests and removed peers in between |
| Queue.MergeIsUnion | internal/syncrun/syncrun.go:53-62 | a merged request refreshes iff either did and lists exactly the reasons of both |
| Queue.MergeAllIsUnion | internal/syncrun/syncrun.go:79-93 | so does any number of pushes |
| Queue.SyncQueue.Enqueue | internal/syncrun/syncrun.go:79-88 | the locked half of a push merges into what is pending |
| Queue.SyncQueue.Push | internal/syncrun/syncrun.go:79-93 | a push merges into what is pending and leaves a token |
| Queue.SyncQueue.Take | internal/syncrun/syncrun.go:99-108 | returns and clears what is pending |
| Queue.SyncQueue.OnTimer | internal/app/app.go:389-394 | a scheduled run refreshes; its reasons are "scheduled" and those of what is queued, which it takes |
| Queue.NextKeeps | internal/syncrun/syncrun.go:79-108 | in every interleaving a pending request has a token, a pusher about to send one, or a consumer about to take it; runs are the merged pushes they took |
| Queue.ReachableInv | internal/app/app.go:376-397 | so in every reachable state |
| Queue.EachPushRunsOnce | internal/syncrun/syncrun.go:79-108 | every push taken is in exactly one run |
| Queue.RunCoversPush | internal/syncrun/syncrun.go:64-68 | and that run does what it asked for |
| Queue.RefreshWasAsked | internal/syncrun/syncrun.go:53-62 | no run refreshes unasked, the timer aside |
| Queue.RunDoesExactly | internal/app/app.go:376-397 | every run refreshes exactly if the timer started it or a push it took asked to, and its reasons are exactly those of these pushes, and "scheduled" if the timer started it |
| Queue.ScheduledDoes | internal/app/app.go:389-394 | a scheduled run refreshes whatever is queued, and gives its own reason besides the queued ones |
| Queue.StaleTokenYieldsNothing | internal/app/app.go:383-388 | a stale token yields no run |
| Queue.PendingIsTaken | internal/app/app.go:376-397 | with no pusher halfway, three steps of the consumer alone take what is pending |
| Ids.SlugSafe | internal/peers/ids.go:21-26 | a slug has only slug characters and none to trim |
| Ids.SafeIsSlug | internal/peers/ids.go:21-26 | slugging a slug changes nothing |
| Ids.NumbersRunOut | internal/peers/ids.go:41-46 | only as many numbered ids can be taken as ids are taken |
| Ids.FirstFreeFresh | internal/peers/ids.go:33-47 | the first free id is unused, not reserved, and unique |
| Ids.FirstFreeTaken | internal/peers/ids.go:38-46 | it is the slug itself if that is free and not reserved, else the slug with 01, or 02 if that is taken, and so on |
| Slugs.SlugIgnoresCase | internal/peers/ids.go:23-26 | names that differ in the case of ASCII letters only have one slug |
| Slugs.OddCapitalsLower | internal/peers/ids.go:24 | the two non-ASCII capitals with an ASCII lower case become that letter |
| Slugs.SlugKeepsLetters | internal/peers/ids.go:21-26 | a slug has the name's ASCII letters, lowered, and digits, all of them in order |
| Ids.IdFor | internal/peers/ids.go:33-47 | the search ends for every set of taken ids, at the first free id |
| Ids.FirstFreeSafe | internal/peers/ids.go:21-47 | what it picks is one plain path element |
| Migration.ChooseRenames | internal/peers/ids.go:168-174 | UUID peers with a known name get distinct ids, none of them an old id, each the first free one given the peers added before |
| Migration.RenameMore | internal/peers/ids.go:115-136 | renaming one more peer extends renaming all at once, in every table |
| Migration.SummedKeepsTotal | internal/peers/ids.go:124-127 | a rename keeps each direction's total traffic |
| Migration.PeerStore.Apply | internal/peers/ids.go:179-191 | the renames, in any order and in one transaction, are the simultaneous renaming and keep total traffic; or nothing changes |
| Migration.RenamedEverywhere | internal/peers/ids.go:115-136 | no table mentions a renamed id any more, and what it had, each item elected to it included, is its new id's |
| Migration.OneOutcome | internal/peers/ids.go:184-188 | there is one outcome, so map order cannot matter |
| Namespace.Registry.NewIDForPin | internal/peers/ids.go:75-86 | a key that is a client takes the client's id if no peer has it, else an unused id |
| Namespace.Registry.ClientID | internal/peers/ids.go:91-100 | a key that is a peer takes the peer's id, else an unused id |
| Namespace.Registry.IdForRedeemed | internal/peers/http.go:158-171 | the peer with that key, else one added by URL under that name, else a new id |
| Namespace.Registry.Pair | internal/peers/http.go:143-148 | pairing as executed is a step of the machine, or changes nothing, and keeps the namespace sound |
| Namespace.Registry.PeerByPin | internal/peers/registry.go:307-318 | finds a peer with the key if there is one |
| Namespace.PairKeeps | internal/peers/http.go:143-144 | pairing (again, by upgrade, or anew) keeps the namespace sound |
| Namespace.PickedIDNeverTaken | internal/peerauth/store.go:195-199 | with picking and inserting in one step no redemption meets a taken id |
| Namespace.RedeemsExactly | internal/peerauth/store.go:187-221 | a redemption goes through exactly if its invite is pending and not expired; a known key keeps its id and age and is renamed; nothing else changes |
| Namespace.ClientIDChosen | internal/peers/ids.go:91-100 | a new client that is a peer gets the peer's id, any other an id nobody has, made from its name |
| Namespace.PairChooses | internal/peers/http.go:158-171 | pairing keeps the id of a peer with the key, else of one added by URL under the name, else takes that of a client with the key, else one nobody has |
| Namespace.RedeemKeeps | internal/peerauth/store.go:187-221 | redeeming keeps it sound |
| Namespace.NextKeeps | internal/peers/ids.go:75-107 | every act keeps it sound |
| Namespace.ReachableInv | internal/peers/ids.go:49-57 | over every run: client ids are distinct, a peer and a client with one id have one key, a key has at most one peer, an invite authorized at most one key, strictly before it expired |
| Namespace.OneKeyPerID | internal/peers/ids.go:49-57 | one id never names two keys |
| Store.AuthStore.SweepExpired | internal/peerauth/store.go:167-181 | drops only expired invites, from memory only once the row is gone |
| Store.AuthStore.CreateInvite | internal/peerauth/store.go:107-128 | adds one invite and leaves every other unexpired one alone |
| Store.AuthStore.CancelInvite | internal/peerauth/store.go:144-155 | removes that invite from memory and table, or from neither |
| Store.AuthStore.Redeem | internal/peerauth/store.go:187-221 | refuses exactly an invite that is gone or no longer before its expiry, and a new key under an id some client has; else consumes the invite and authorizes the key, a known one keeping its id and age, in memory and tables alike, or fails and changes nothing |
| Store.AuthStore.Revoke | internal/peerauth/store.go:272-289 | removes the client with the id, and only it |

## Left out

- HTTP handlers, JSON, gzip, TLS, certificates and the invite string: a fetch is a page of the feed or a failure.
- SQL text, schema migrations, statistics and status queries: the tables are the record types.
- Proxy streaming, metrics, tracing, configuration, settings, logging and the web UI.
- The Jellyfin client: a listing is an arbitrary sequence of items.
- Heartbeats and DNS: the set of offering peers is an input of the election, and a heartbeat only renames a peer.
- Concurrent pulls of different peers: their state is disjoint and one lock serialises the writes, so a sync runs them one after another, in any order.
- Queue.SyncQueue.OnWake: the select loop around it need not end, so it is the consumer of the `Queue` state machine rather than a loop.
- A missing peer_sync_state row: it reads as the blank cursor and is modelled as one.
- Election and reconcile counters other than the number of failures; a pull's counters are proved page by page (Mirror.PeerMirror.ApplyChanges), not summed.
- Sync.Node.Sync: does not store a resync request made while it runs; Download.PullIsExecuted says such a request changes nothing else.
- The time a peer was last synced beyond whether it could be stored, and the log lines and notification of a cycle: they feed only displays and wake-ups.
- Folders on disk beyond Reconcile.RemoveFolders: a path is a file or nothing.
- The hide endpoint and the endpoint that replaces a peer's excluded folders: hides and exclusions are inputs.
- last_seen_at of clients, and the fractions of seconds times lose when stored.
- Reconcile.Library.WriteIfChanged: does not model file modes; reading the old file may fail arbitrarily, which only causes a rewrite.
- Migration.PeerStore.Apply: content keyed by peer id is one value per peer; the rows inside it move together.
- Removing a peer: the failed delete of a removed peer's row, which would bring it back at the next boot, is not modelled.
