# Verification of goz's core

goz keeps an in-memory index of the names on NTFS volumes and answers searches from it while the
volumes change. This project models the parts of it where a mistake would be silent, and proves
that they do what they promise on every input, every run or every reachable state.

- **Names** (`Bytes`, `Folding`, `NameArena`, `NameOrder`, `NameRanks`, `NameCompaction`,
  `NameState`, `NameStore`, `NameRuns`): the interned name store, from the bytes of its two arenas
  to whole runs of intern, release, merge and compaction. `NameStore` is a class whose methods are
  proved against functions on a value (`NameState.Store`); the theorems are about that value.
- **FrnMap**: the record-number map and its two backings.
- **WTF-8** (`Wtf8`): encoder, total decoder, and how they undo each other.
- **Pages** (`Merge`, `Pages`, `PathTurn`): the k-way merge, the page builder and the shortcut for
  path sorts. A row is known by its run and index; what it is, whether it still exists and how rows
  compare is read anew for every page.
- **Locks** (`Registry`, `LockOrder`): the volume registry, and threads that take locks.
- **Tails** (`Phases`, `Pulse`, `TailPhase`, `Replay`, `TailReplay`, `TailOwner`): what a tail carries
  from turn to turn and reports, why replay from its cursor is exact and its turns are that replay,
  and who owns it, down to the word of its pulse and its open handle.
- **Supervision** (`Revival`, `Fleet`, `FleetOwner`, `FleetTails`, `Removal`): the revival budget, the
  fleet of volumes, the tails of every volume it ever indexed, and the disk-removal protocol over them.
- **Options** holds the one datatype the others share.

`fold` is a parameter. The store asks that the names given to it are NUL-free, raw and folded, and
short enough, unless they are live already; `PathTurn` asks that folding splits at a closing
backslash. `Folding.AsciiFoldFits` shows that both can be met. The store's other preconditions are the
code's own: arenas of at most 2 GiB and names of at most 65535 bytes for a name not yet live, and a last
reference released only with an empty chain head.
Clocks, device answers, journal reads, listings, thread starts and the moment a shutdown is seen
are parameters of the steps that meet them.

Where comments and code disagree the model follows the code:

- The rank table is described as holding the first live id of a group. A release can kill that id
  without ranking anew; `RankIsFirstLiveIff` says exactly when the description holds,
  `RankGoesStaleIff` which releases end it, `StaleRun` gives a run that takes one, and `RankKeyOrders`
  shows that sorting does not depend on it.
- The search for a name's place is described as free to return any position in a run of dead ids.
  `PlaceIsRightIff` says which ones are right, `DeadRunPlaceMatters` that in every run whose ranks went
  stale all but the first are wrong, and `InsertionPoint` that the code returns a right one.
- A limit of 0 does not mean no rows: skipping stale rows can pass the offset and the end in one
  step. `LimitKept` and `LimitZeroPassed` say exactly when.
- A removal query is meant to be dropped only with every tail stopped. `DroppedEarlyIff` says exactly
  when a run drops one earlier: when the supervisor panics with a query taken, or, panicked, discards
  one posted. `PanicDropsQuery` is such a run.
- A query answered, or let through at the end of shutdown, is meant to find its volume unused. Its
  tails were told to stop and waited for, but the wait is bounded, and a start that did not report in
  time is left behind. `QueryFate` says that the volume is free exactly when no tail outlived its wait
  and no abandoned start is under way (`TailOwner.QuietIff` for one volume); `AnsweredTooEarly` is a
  run in which it is not.
- A listing that names a volume twice indexes it twice, and a query for it then frees one instance
  only (`ListedTwice`). `ReconcileExact` and `DistinctIff` say exactly which listings do no harm,
  `RunKeepsFleet` exactly which runs, volume by volume, and `ListedOnceKept` that on a machine that
  lists each volume once none does.

## Model

| member | source | states |
|---|---|---|
| `NameArena.LiveNameReads` | crates/goz-core/src/index/store.rs:172-194 | in a well-laid store every live name reads back as it was interned, raw and folded, whether or not it shares its folded bytes |
| `NameArena.OffsetsAscend` | crates/goz-core/src/index/store.rs:78-84 | folded slices of ascending ids lie one after another, a separator between |
| `NameArena.ScanExact` | crates/goz-core/src/index/store.rs:78-84 | a non-empty NUL-free needle occurs at a position of the folded buffer if and only if it occurs at that place inside the slice of some live name |
| `NameArena.ScanUnique` | crates/goz-core/src/index/store.rs:78-84 | a hit lies in one live name only |
| `NameArena.LayPush` | crates/goz-core/src/index/store.rs:260-271 | appending a name and its separator to the arenas keeps them well laid, with the new name live |
| `NameArena.LayKill` | crates/goz-core/src/index/store.rs:325-358 | zero-filling a name's bytes keeps the arenas well laid, with that name dead and every other one in place |
| `NameArena.ArenaBytes` | crates/goz-core/src/index/store.rs:101-102 | the arenas' total length is the bytes and separators of the live names plus those of the dead ones |
| `NameOrder.FullOrder` | crates/goz-core/src/index/store.rs:497-520 | a full sort lists every live id once, by folded bytes and then id |
| `NameOrder.RankKeyOrders` | crates/goz-core/src/index/store.rs:604-624 | for any two live names, comparing (rank key, folded bytes) gives what comparing folded bytes gives; equal folds share a key; keys of different folds tie only for two unranked names in one gap; with dead ids in the order and stale group ranks |
| `NameOrder.EqualFoldsShareKey` | crates/goz-core/src/index/store.rs:611-624 | live names that fold alike have one rank key, ranked or not |
| `NameOrder.SmallerFoldSmallerKey` | crates/goz-core/src/index/store.rs:611-624 | a live name that folds below another never has the larger key |
| `NameOrder.OneRankPerGroup` | crates/goz-core/src/index/store.rs:109-112 | ids of one fold share a rank, whichever of them are dead |
| `NameOrder.RankedUnique` | crates/goz-core/src/index/store.rs:579-602 | the order determines the ranks |
| `NameOrder.RankIsFirstLiveIff` | crates/goz-core/src/index/store.rs:109-112 | a rank is the position of the first live id of its group exactly when the position it names is still live |
| `NameOrder.PlaceIsRightIff` | crates/goz-core/src/index/store.rs:631-636 | a position that separates the live ids by a key gives the right sort key exactly when the group that follows does not start before it |
| `NameOrder.DeadRunPlaceMatters` | crates/goz-core/src/index/store.rs:631-636 | in any order, where a group's ranks name the dead position a run of dead ids starts with, that position sorts a name waiting there right and every later one of the run, up to the group's first live id, sorts it wrong |
| `NameRanks.FirstLiveAt` | crates/goz-core/src/index/store.rs:626-629 | the loop finds the first position from a start that holds a live id |
| `NameRanks.InsertionPoint` | crates/goz-core/src/index/store.rs:636-652 | the binary search over an order with dead, zero-filled ids returns 0 or the slot just after the last live id that folds below the key |
| `NameRanks.RankKey` | crates/goz-core/src/index/store.rs:611-624 | the key computed from the arenas is the specified rank key |
| `NameRanks.MergeIds` | crates/goz-core/src/index/store.rs:534-574 | merging two sorted lists of live ids gives their union, sorted |
| `NameRanks.Rerank` | crates/goz-core/src/index/store.rs:579-602 | one pass over the order gives every live id the first live position of its group and leaves all other ids unranked |
| `NameRanks.RanksLiveRanked` | crates/goz-core/src/index/store.rs:579-602 | such ranks are group starts when the order holds live ids only |
| `NameCompaction.RemapFinds` | crates/goz-core/src/index/store.rs:371-415 | the remap of a live id finds it in the list of kept ids |
| `NameCompaction.RemapMonotone` | crates/goz-core/src/index/store.rs:371-415 | the remap is strictly monotone, so injective, on live ids |
| `NameCompaction.RemapCovers` | crates/goz-core/src/index/store.rs:371-415 | every new id is the remap of one live id |
| `NameCompaction.RenumberSorted` | crates/goz-core/src/index/store.rs:425-459 | a sorted list with its dead ids dropped and the rest renumbered is sorted by the new store's names |
| `NameState.InternFreshValid` | crates/goz-core/src/index/store.rs:208-256 | interning a new name keeps every invariant of the store: arenas, intern table, counts, order, waiting ids, garbage |
| `NameState.ReleaseValid` | crates/goz-core/src/index/store.rs:325-358 | releasing a reference, the last one included, keeps every invariant of the store |
| `NameState.RankGoesStaleIff` | crates/goz-core/src/index/store.rs:325-358 | of any valid store, releasing one name leaves the rank of another naming a dead position exactly when it was the last reference of the name at that position |
| `NameState.FullOrderUnique` | crates/goz-core/src/index/store.rs:497-520 | a sorted list of exactly the live ids is the full order |
| `NameState.ReorderedValid` | crates/goz-core/src/index/store.rs:534-602 | a full order with its ranks keeps every invariant of the store |
| `NameState.CompactionFreesGarbage` | crates/goz-core/src/index/store.rs:371-415 | the new arenas are shorter by exactly the garbage count |
| `NameState.CompactionKeepsNames` | crates/goz-core/src/index/store.rs:371-459 | under the remap every live name keeps its raw bytes, folded bytes, count and chain head, its place in the order or among the waiting, and stays the one holder of its bytes |
| `NameState.CompactedValid` | crates/goz-core/src/index/store.rs:425-459 | the compacted store keeps every invariant |
| `NameState.PlanStepLive` | crates/goz-core/src/index/store.rs:371-415 | one more live name copied keeps the plan exact and inside the original arenas' length |
| `Names.PushName` | crates/goz-core/src/index/store.rs:223-271 | a name is appended folded, and raw only if it does not fold to itself |
| `Names.KillName` | crates/goz-core/src/index/store.rs:325-358 | a dead name's cells are zero-filled and their bytes counted |
| `Names.MergedOrder` | crates/goz-core/src/index/store.rs:534-574 | dropping the dead, sorting the waiting and merging gives the full order |
| `Names.PlanNames` | crates/goz-core/src/index/store.rs:371-415 | the loop copies the live names into fresh arenas and records the remap |
| `Names.NameStore.constructor` | crates/goz-core/src/index/store.rs:197-199 | an empty store satisfies every invariant |
| `Names.NameStore.Intern` | crates/goz-core/src/index/store.rs:208-256 | returns the one live id of the name and counts it, whether or not the arenas have room left, or a fresh id if no live id has those bytes; dead ids are never returned; what either leaves of counts, bytes, order and chain heads is stated over runs |
| `Names.NameStore.Release` | crates/goz-core/src/index/store.rs:325-358 | drops one reference; the last one kills the name |
| `Names.NameStore.SetChainHead` | crates/goz-core/src/index/store.rs:316-319 | changes one chain head and nothing else |
| `Names.NameStore.PlanCompact` | crates/goz-core/src/index/store.rs:371-415 | builds the plan without changing the store |
| `Names.NameStore.InstallCompacted` | crates/goz-core/src/index/store.rs:425-459 | installs a plan made of this very state and returns its remap |
| `Names.NameStore.BuildOrder` | crates/goz-core/src/index/store.rs:497-520 | leaves the full order with its ranks and nothing waiting |
| `Names.NameStore.MergeUnranked` | crates/goz-core/src/index/store.rs:534-574 | leaves the full order with its ranks and nothing waiting, from any valid state |
| `Names.NameStore.RankKey` | crates/goz-core/src/index/store.rs:611-624 | computes the specified key of a live id |
| `NameRuns.RunValid` | crates/goz-core/src/index/store.rs:196-652 | every state of every run of intern, release, sort, merge, chain-head and compaction steps satisfies every invariant |
| `NameRuns.InterningExact` | crates/goz-core/src/index/store.rs:208-358 | in every run: distinct live ids have distinct bytes, the table holds exactly the live ids, each count is interns minus releases of that name, and a name with references left has a live id |
| `NameRuns.DeadStaysDead` | crates/goz-core/src/index/store.rs:208-358 | in every run, until a compaction renumbers, an id keeps its name and a dead id stays dead |
| `NameRuns.RunHeads` | crates/goz-core/src/index/store.rs:208-319 | after any run the chain head of a live id is the last entry set for its name since the name was last new, through interning it again, releases, sorts and renumbering, or NIL |
| `NameRuns.RunOrdersNames` | crates/goz-core/src/index/store.rs:604-652 | in every reachable state comparing live names by (rank key, folded bytes read from the arenas) equals comparing folded bytes, and different folds tie only while both wait |
| `NameRuns.RunScans` | crates/goz-core/src/index/store.rs:78-84 | in every reachable state the buffer scan is sound, complete and names one live id per hit |
| `NameRuns.SortDeterministic` | crates/goz-core/src/index/store.rs:493-602 | what both sorting methods promise of their result, a valid store with the full order, its ranks and nothing else changed, determines it: an incremental merge and a full build leave the same store |
| `NameRuns.SortedIsStep` | crates/goz-core/src/index/store.rs:493-602 | what the sorting methods promise is a sort step of a run, so the theorems about runs speak of them |
| `NameRuns.CompactedIsStep` | crates/goz-core/src/index/store.rs:371-459 | what installing a plan promises is a compaction step of a run |
| `NameRuns.StaleRun` | crates/goz-core/src/index/store.rs:325-358 | for any fold under which two storable names fold alike, interning both, sorting and releasing the first is a run that ends with the other's rank naming a dead position, so that a smaller name placed after that position instead of at it sorts wrong |
| `Frn.FrnMap.Sparse` | crates/goz-core/src/index/store.rs:1098-1101 | starts empty |
| `Frn.FrnMap.Dense` | crates/goz-core/src/index/store.rs:1103-1108 | starts empty, with the given number of slots |
| `Frn.FrnMap.Get` | crates/goz-core/src/index/store.rs:1111-1116 | reads the map's entry of a record, under either backing |
| `Frn.FrnMap.Set` | crates/goz-core/src/index/store.rs:1118-1145 | updates one entry of the map as a plain map would exactly when the entry is not NIL, the mark of an empty slot, or the map is sparse afterwards, and else removes it; a dense map stays dense exactly up to twice its length plus the slack, and never grows beyond that |
| `Frn.FrnMap.Remove` | crates/goz-core/src/index/store.rs:1148-1159 | removes one entry of the map and changes no backing |
| `Frn.FrnMap.DensifyIfSmaller` | crates/goz-core/src/index/store.rs:1161-1188 | changes the backing exactly when four bytes a record up to the largest take less than 17 bytes for each of the least power of two of buckets that holds the capacity at seven eighths, and the entries exactly when it does and some are NIL, which it drops |
| `Frn.NextPowerOfTwo` | crates/goz-core/src/index/store.rs:1161-1188 | the least power of two not below a number, as table sizes are rounded |
| `Frn.RunOps` | crates/goz-core/src/index/store.rs:1097-1188 | after any sequence of sets, removes and densifies from either backing that stores no NIL, or any sequence on a map that stays sparse, every look-up is that of one plain map |
| `Wtf8.UnitsBack` | crates/goz-core/src/wtf8.rs:14-40 | splitting the code points of a unit sequence back into units gives the sequence, lone surrogates included |
| `Wtf8.CodePointsBack` | crates/goz-core/src/wtf8.rs:122-134 | code points survive the way through units exactly when no high surrogate stands right before a low one |
| `Wtf8.DecodesEncoding` | crates/goz-core/src/wtf8.rs:44-119 | every encoded code point decodes, from its first byte, to itself and its length |
| `Wtf8.DecodesOnlyShortest` | crates/goz-core/src/wtf8.rs:81-119 | what decodes is the encoding of what it decodes to: no overlong and no over-range form does |
| `Wtf8.DecodeOneExact` | crates/goz-core/src/wtf8.rs:81-119 | a byte string starts with a decodable sequence exactly when it starts with some code point's encoding; anything else gives U+FFFD for one byte |
| `Wtf8.EncodeForms` | crates/goz-core/src/wtf8.rs:44-60 | a form is one byte below 0x80, or a lead byte of its length, C2 to DF, E0 to EF or F0 to F4, and continuation bytes |
| `Wtf8.EncodeOrders` | crates/goz-core/src/wtf8.rs:44-60 | byte order of encodings is code point order, which with those forms leaves no other encoding |
| `Wtf8.PairOrders` | crates/goz-core/src/wtf8.rs:14-40 | surrogate pairs in order stand for U+10000 to U+10FFFF in order |
| `Wtf8.DecodeBack` | crates/goz-core/src/wtf8.rs:81-119 | decoding encoded code points gives them back |
| `Wtf8.RoundTrip` | crates/goz-core/src/wtf8.rs:14-134 | to UTF-16 after from UTF-16 is the identity on every unit sequence |
| `Wtf8.BytesBackIff` | crates/goz-core/src/wtf8.rs:14-134 | from UTF-16 after to UTF-16 gives the bytes back exactly when they are some unit sequence's encoding, and exactly when they encode code points with no surrogate pair left apart |
| `Wtf8.MeetsLoneIff` | crates/goz-core/src/wtf8.rs:14-40 | the encoder meets a lone surrogate exactly when some unit is an unpaired one |
| `Wtf8.EncodeCodePoint` | crates/goz-core/src/wtf8.rs:44-60 | appends the shortest form of one code point |
| `Wtf8.FromUtf16` | crates/goz-core/src/wtf8.rs:14-40 | appends the encoding of the units and returns whether some unit is an unpaired surrogate |
| `Wtf8.CodePoints.Next` | crates/goz-core/src/wtf8.rs:81-119 | decodes one code point, moves by at least one byte and never past the end |
| `Wtf8.ToUtf16` | crates/goz-core/src/wtf8.rs:122-134 | terminates on any bytes with the units of their code points |
| `Merge.SkipStale` | crates/goz-daemon/src/server.rs:1174-1182 | steps every run past rows that are gone; the count consumed stays the sum of the positions |
| `Merge.BestHead` | crates/goz-daemon/src/server.rs:1186-1197 | finds the head no other comes before, the earlier run on ties |
| `Merge.NextHead` | crates/goz-daemon/src/server.rs:1166-1198 | skips the stale heads, then picks by turn or by comparison |
| `Merge.GreedyIsStableMerge` | crates/goz-daemon/src/server.rs:1160-1165 | picking heads until all runs are used up gives a stable merge of sorted runs, ties to the earlier run, for any number of runs |
| `Merge.StableMergeUnique` | crates/goz-daemon/src/server.rs:1160-1165 | there is one stable merge |
| `Merge.GreedyCut` | crates/goz-daemon/src/server.rs:589-677 | runs cut to a length at least the number of picks give the same picks |
| `Pages.TakeNext` | crates/goz-daemon/src/server.rs:709-723 | takes the next row, or finds the runs used up, and counts what it consumed |
| `Pages.BuildPage` | crates/goz-daemon/src/server.rs:683-750 | builds one page: the specified rows, payload and `more` flag, at the specified positions, with the count consumed their sum |
| `Pages.StreamQuery` | crates/goz-daemon/src/server.rs:668-759 | sends the specified pages, for any offset and limit; `PagesAreStableMerge`, `StreamComplete` and `StreamSafe` say which rows they hold |
| `Pages.CutIsUnseen` | crates/goz-daemon/src/server.rs:589-677 | cutting every run to saturating offset plus limit leaves the positions sent those from the offset, or the end of all rows found, to offset plus limit or, without a limit, that end, and the merged rows up to there as they were |
| `Pages.PagesAreStableMerge` | crates/goz-daemon/src/server.rs:589-759 | when nothing goes stale, the rows sent are those that show of positions offset to offset plus limit, or to the end without a limit, of the stable merge of all rows found, whatever the page cuts |
| `Pages.StreamSafe` | crates/goz-daemon/src/server.rs:673-759 | with rows going stale and changing arbitrarily between pages: the loop ends, every page but the last says more, no row is sent twice, each row sent was valid under its page's guards, at most a page of rows a page, and each payload stays under the frame cap if a row fits half of it |
| `Pages.StreamComplete` | crates/goz-daemon/src/server.rs:673-759 | without offset and limit a row that stays valid and showable is sent, however other rows change or go |
| `Pages.PageIsFull` | crates/goz-daemon/src/server.rs:693-750 | a payload is its header and its rows; a page that says more follow merged 4096 rows or filled half a frame |
| `Pages.LimitKept` | crates/goz-daemon/src/server.rs:673-677 | at most limit rows are sent, whatever goes stale, when the limit is at least 1, or the offset is 0 or past the end; a limit of 0 sends at most one |
| `Pages.LimitZeroPassed` | crates/goz-daemon/src/server.rs:709-723 | for a limit of 0 and any other offset there are rows gone stale for which one row is sent |
| `Folding.AsciiFoldFits` | crates/goz-core/src/fold.rs:28-37 | lower-casing byte by byte keeps NUL-free names NUL-free and storable and splits at a closing backslash: what the project asks of folding can be met |
| `PathTurn.VolumesInTurn` | crates/goz-daemon/src/server.rs:1237-1263 | returns no order exactly when a folded prefix does not close a folder or starts another; else each volume once, by folded prefix, reversed when descending |
| `PathTurn.KeysFollowPrefixes` | crates/goz-daemon/src/server.rs:1100-1117 | keys of rows on two volumes compare as the folded prefixes do, whatever the rows, when no prefix starts another |
| `PathTurn.KeysCompareByParts` | crates/goz-daemon/src/server.rs:1100-1117 | keys of rows with NUL-free folded paths compare as folded path and then folded name, ascending and descending |
| `PathTurn.TurnPicksBest` | crates/goz-daemon/src/server.rs:1183-1197 | the first run in turn that has a head is the run whose head has the first key, ascending and descending, for any positions |
| `PathTurn.StreamInTurn` | crates/goz-daemon/src/server.rs:1160-1197 | taking volumes in turn sends the same pages as comparing all heads by their full keys, whatever the rows and however they change or go stale between pages |
| `PathTurn.PathPagesAreStableMerge` | crates/goz-daemon/src/server.rs:589-759 | in a path sort on which nothing goes stale, volumes taken in turn or not, the rows sent are those that show of positions offset to offset plus limit, or to the end without a limit, of the stable merge by full key of all rows found |
| `Registry.Without` | crates/goz-daemon/src/volume_state.rs:107-111 | leaves out exactly the volumes of one GUID and keeps the order of the rest |
| `Registry.PickedAscends` | crates/goz-daemon/src/volume_state.rs:84-89 | leaving volumes out of a snapshot keeps the order of addition |
| `Registry.VolumeRegistry.constructor` | crates/goz-daemon/src/volume_state.rs:90-91 | an empty registry |
| `Registry.VolumeRegistry.Current` | crates/goz-daemon/src/volume_state.rs:94-96 | returns the volumes in order of addition; the snapshot is a value and stays as it is |
| `Registry.VolumeRegistry.Add` | crates/goz-daemon/src/volume_state.rs:99-104 | appends one fresh instance |
| `Registry.VolumeRegistry.Remove` | crates/goz-daemon/src/volume_state.rs:107-111 | drops every instance of a GUID, keeps every other in order |
| `LockOrder.JobDisciplined` | crates/goz-daemon/src/server.rs:601-612 | every job (query, page, status, tail batch, compaction, install, registry change) asks for locks in ascending order only and emits holding none; a page if its volumes are in order of addition |
| `LockOrder.PageDisciplined` | crates/goz-daemon/src/server.rs:683-689 | a page read-locks its volumes in ascending order and drops all guards before the hand-off |
| `LockOrder.StatusDisciplined` | crates/goz-daemon/src/server.rs:893-916 | reporting a volume's status takes its index, flag and journal-size locks in ascending order, each held while the next is taken |
| `LockOrder.CompactDisciplined` | crates/goz-daemon/src/tail.rs:440-451 | compaction upgrades the one lock it holds |
| `LockOrder.InstallDisciplined` | crates/goz-daemon/src/tail.rs:876-889 | installing takes the flags' and cache's locks above the index lock |
| `LockOrder.WritersHold` | crates/goz-daemon/src/tail.rs:440-451 | batches, plans and new indexes are applied, installed and published under the index's write lock, flags, journal size and scope cache changed while it is held, plans made under an upgradable one |
| `LockOrder.ReadersHold` | crates/goz-daemon/src/server.rs:601-612 | searches and status read the index under a read lock, and cache, flags and journal size while it is held |
| `LockOrder.PageHoldsAll` | crates/goz-daemon/src/server.rs:683-689 | a page holds the read guards of all its volumes at once |
| `LockOrder.RunOrdered` | crates/goz-daemon/src/volume_state.rs:80-112 | every run of threads keeps snapshots in order of addition, the lock discipline, and no two threads holding a lock in modes that exclude each other |
| `LockOrder.LocksExclude` | crates/goz-daemon/src/volume_state.rs:80-112 | in every reachable state a lock held to write is held by no other thread, and by one upgradably at most |
| `LockOrder.GrantExact` | crates/goz-daemon/src/volume_state.rs:80-112 | a waiting thread may be granted its lock exactly when no other holds it in a mode that excludes its own |
| `LockOrder.RegistryGuarded` | crates/goz-daemon/src/volume_state.rs:94-111 | in every reachable state a thread copies the registry under its lock and changes it under its write lock |
| `LockOrder.SnapshotExact` | crates/goz-daemon/src/volume_state.rs:94-96 | a snapshot is the registry when it was copied, and stays so whatever is added or removed |
| `LockOrder.RegistryExact` | crates/goz-daemon/src/volume_state.rs:99-111 | the registry gains one new volume at its end or loses all of one GUID, and changes in no other way |
| `LockOrder.WaitAscends` | crates/goz-daemon/src/volume_state.rs:84-89 | a waiting thread that keeps another waiting, by holding the lock or by going first, waits higher: a later lock, more urgently, or earlier in the queue |
| `LockOrder.NoWaitCycle` | crates/goz-daemon/src/volume_state.rs:84-89 | in every reachable state no wait chain, waiting writers that block new readers included, comes back to its start |
| `LockOrder.NoDeadlock` | crates/goz-daemon/src/server.rs:683-689 | while any thread is inside a job some thread inside one can move, with writers preferred and no client taking its page |
| `LockOrder.RunsEnd` | crates/goz-daemon/src/server.rs:744-756 | without new jobs no run is longer than the work left |
| `LockOrder.JobsFinish` | crates/goz-daemon/src/server.rs:744-756 | from every such state all jobs under way can be finished, up to pages no client takes |
| `LockOrder.OppositeOrdersDeadlock` | crates/goz-daemon/src/volume_state.rs:86-89 | two page builders locking two volumes in opposite orders and both tails wanting to write: the only steps enabled are grants to threads blocked under writer preference |
| `LockOrder.CrossedBlocked` | crates/goz-daemon/src/volume_state.rs:86-89 | in that state every thread waits and, under writer preference, is blocked |
| `Pulse.ReportReadsBack` | crates/goz-daemon/src/pulse.rs:58-67 | a report reads back as stored, unchanged exactly when its second fits 62 bits |
| `Pulse.TailPulse.constructor` | crates/goz-daemon/src/pulse.rs:46-50 | a fresh pulse reads as a beat |
| `Pulse.TailPulse.Load` | crates/goz-daemon/src/pulse.rs:58-67 | reads the report the word stands for |
| `Pulse.TailPulse.Stamp` | crates/goz-daemon/src/pulse.rs:52-56 | the word then reads as a beat at that second |
| `Pulse.TailPulse.EnterBusy` | crates/goz-daemon/src/pulse.rs:69-77 | the word then reads as busy since that second |
| `Pulse.TailPulse.Retire` | crates/goz-daemon/src/pulse.rs:100-104 | the word then reads Retired |
| `TailOwner.StepValid` | crates/goz-daemon/src/supervisor.rs:884-1287 | every launch, build, failure, death, hand-over, give-back, poll, drain, release, stop and wait, and every move of a tail's thread, keeps: one start at a time, no other unretired tail while one is under way, one unretired tail at most, every unretired tail held, offered or stopped, and every pulse word honest |
| `TailOwner.OneOwnedTail` | crates/goz-daemon/src/supervisor.rs:884-1287 | in every run at most one tail of a volume is unretired, one that has closed its handle and not yet stored Retired included, so at most one may still use the volume; one not asked to stop is held by the supervisor or by the worker that built it |
| `TailOwner.StopExact` | crates/goz-daemon/src/supervisor.rs:884-1046 | in every run a running tail is asked to stop exactly when a release waits or has waited for its end, or the worker that built it does |
| `TailOwner.PollExact` | crates/goz-daemon/src/supervisor.rs:1224-1287 | a poll leaves an unfinished start alone; a finished one is over, and its tail, if it offers one, is the one held |
| `TailOwner.FailureIsSeen` | crates/goz-daemon/src/supervisor.rs:1224-1287 | after a start failed or died the next poll finds it over, with the tail held before kept |
| `TailOwner.WordIsHonest` | crates/goz-daemon/src/tail.rs:152-176 | in every run a tail's word reads Retired exactly when its thread is gone, its handle closed before, and Busy exactly in a rebuild, however the loop was left |
| `TailOwner.RetiredIsLastWord` | crates/goz-daemon/src/pulse.rs:37-44 | whatever happens after a word reads Retired, it reads Retired |
| `TailOwner.QuietIff` | crates/goz-daemon/src/supervisor.rs:962-1011 | a volume let go of is used by no tail, and no start is opening it, exactly when no tail told to stop outlived the wait and the start abandoned, if one was, is over |
| `TailOwner.GiveBackUntilTaken` | crates/goz-daemon/src/supervisor.rs:884-905 | in any run after a volume is let go of, a worker that can give its tail back does so or still can |
| `TailOwner.AbandonedTailStops` | crates/goz-daemon/src/supervisor.rs:884-905 | in every run, once the volume is let go of, an unretired tail nobody asked to stop is in the hands of a worker that can stop it, and can until it does |
| `TailOwner.GiveBackEnds` | crates/goz-daemon/src/supervisor.rs:1190-1197 | a worker that waits for a tail it gave back is done once that tail's thread is gone |
| `Fleet.ReleaseExact` | crates/goz-daemon/src/supervisor.rs:553-567 | letting go of a volume takes exactly it out of registry and supervision |
| `Fleet.OnRemovalExact` | crates/goz-daemon/src/supervisor.rs:592-647 | a query or a removal leaves its volume neither indexed nor supervised and every other volume as it was; after a query it is under removal since the first one, after any other event it is not; a removal is remembered with its time; every invariant is kept |
| `Fleet.ReconcileExact` | crates/goz-daemon/src/supervisor.rs:507-545 | for any listing: it drops exactly the indexed volumes it does not name and adds exactly the indexable ones it names that are not indexed, not being removed and not removed after it began; shutdown seen on the way only leaves changes out; the invariants are kept exactly when it names no volume it will take twice, or shutdown was seen |
| `Fleet.InterruptedExact` | crates/goz-daemon/src/supervisor.rs:511-545 | shutdown first seen before one of the volumes gone leaves exactly the earlier ones dropped, and nothing found |
| `Fleet.GoneFrom` | crates/goz-daemon/src/supervisor.rs:188-215 | gone: indexed and not listed, however a listed one classifies |
| `Fleet.FoundIn` | crates/goz-daemon/src/supervisor.rs:188-215 | found: listed, indexable and not indexed |
| `Fleet.DistinctIff` | crates/goz-daemon/src/supervisor.rs:527-545 | the registry keeps one instance per GUID exactly when the listing names no volume it will take twice |
| `FleetOwner.Owner.constructor` | crates/goz-daemon/src/supervisor.rs:495-505 | an empty fleet satisfies every invariant |
| `FleetOwner.Owner.Release` | crates/goz-daemon/src/supervisor.rs:556-567 | the loop finds the supervised entry and swaps it out |
| `FleetOwner.Owner.DropGone` | crates/goz-daemon/src/supervisor.rs:518-526 | lets go of the volumes gone, one by one, until shutdown is seen |
| `FleetOwner.Owner.FindNew` | crates/goz-daemon/src/supervisor.rs:527-545 | indexes and starts the volumes found, but for those left out |
| `FleetOwner.Owner.Reconcile` | crates/goz-daemon/src/supervisor.rs:511-545 | brings the fleet in step with any listing, and keeps the invariants if it names no volume it will take twice |
| `FleetOwner.Owner.OnRemoval` | crates/goz-daemon/src/supervisor.rs:596-647 | acts on one removal event as `OnRemovalExact` says, and asks to list again exactly if a removal under way failed |
| `FleetOwner.Owner.ExpireRemoving` | crates/goz-daemon/src/supervisor.rs:648-666 | forgets exactly the removals that have waited too long for their end, and keeps the times of the others |
| `FleetOwner.Owner.ActOn` | crates/goz-daemon/src/supervisor.rs:574-590 | acts on the removals in order, answers exactly the queries acted on, and hands the rest back at shutdown |
| `FleetOwner.ActAllExact` | crates/goz-daemon/src/supervisor.rs:574-647 | removals acted on in order let go of exactly the volumes queried or removed; a volume is then under removal exactly if its last event was a query, or it had none and was, and is remembered as removed at the time of its last event if that was a removal |
| `FleetOwner.QueriesExact` | crates/goz-daemon/src/supervisor.rs:574-590 | the queries answered are all the queries acted on, once each and in order |
| `FleetTails.BeginLetGoValid` | crates/goz-daemon/src/supervisor.rs:553-567 | beginning to let go of a volume keeps the crew, whatever was listed: every instance ever made has valid tails, one in release is the one being let go of, shutdown stops all that are watched, and no volume under removal is indexed; a volume never indexed twice keeps one instance at most, watched exactly when indexed and supervised; the volume is no longer indexed |
| `FleetTails.LetGoStepValid` | crates/goz-daemon/src/supervisor.rs:1033-1046 | every part of letting go, drain, stop and wait, keeps all of that |
| `FleetTails.NotIndexedIsReleased` | crates/goz-daemon/src/supervisor.rs:569-590 | with no release under way, every instance of a volume that is not indexed, and never was twice, has been let go of |
| `FleetTails.FindNextValid` | crates/goz-daemon/src/supervisor.rs:527-545 | adding the next volume found, started or not, indexed already or not, keeps the crew |
| `FleetTails.FindNextSingle` | crates/goz-daemon/src/supervisor.rs:527-545 | a volume keeps one instance and one watch at most unless it is itself found while indexed |
| `FleetTails.FoundTwice` | crates/goz-daemon/src/supervisor.rs:527-545 | adding one that is indexed already leaves two instances of it |
| `FleetTails.AppliedValid` | crates/goz-daemon/src/supervisor.rs:511-526 | taking up any listing keeps the crew |
| `FleetTails.AllClosedIsAll` | crates/goz-daemon/src/supervisor.rs:740-751 | shutdown, which stops the watched volumes, has then let go of every instance there ever was, in every run |
| `Removal.StepSafe` | crates/goz-daemon/src/supervisor.rs:507-876 | every step of notifications, scans, listings, removals, releases in parts, tails, starts, panic and shutdown keeps the protocol, whatever is listed |
| `Removal.StepSafeFor` | crates/goz-daemon/src/supervisor.rs:507-876 | every step keeps what the protocol promises of a volume, unless it indexes that very volume while it is indexed |
| `Removal.StepConserved` | crates/goz-daemon/src/supervisor.rs:283-358 | every step, a query asked during or after shutdown included, moves queries, each with its volume, between posted, taken, acted on, waiting for shutdown, answered, dropped and freed without losing or doubling one |
| `Removal.RunKeepsFleet` | crates/goz-daemon/src/supervisor.rs:507-647 | in every run, whatever is listed, no volume under removal, which `NotFoundWhileRemoving` tells by the steps, is indexed; a volume has one instance at most in all states of a run exactly when the run never finds it while it is indexed, whatever happens to other volumes, and it is then, if supervised, indexed and watched |
| `Removal.ListedOnceKept` | crates/goz-daemon/src/supervisor.rs:188-215 | every run on a machine whose listings name each volume once keeps one instance of every volume throughout, and distinct GUIDs |
| `Removal.ListedTwice` | crates/goz-daemon/src/supervisor.rs:527-545 | for any volume there is a run in which a listing that names it twice makes the registry hold it twice, and a query for it is answered with the second instance still watched |
| `Removal.NotFoundAgain` | crates/goz-daemon/src/supervisor.rs:482-485 | in every run, whatever is listed, a listing begun before a removal of a volume was last concluded does not find it |
| `Removal.NotFoundWhileRemoving` | crates/goz-daemon/src/supervisor.rs:592-666 | in every run, from the first concluded query of a volume until a failed or completed removal of it is concluded, or overdue ones are looked for a minute on, it is not indexed and no step finds it |
| `Removal.FindsExactly` | crates/goz-daemon/src/supervisor.rs:527-545 | in every run a volume whose turn to be found has come is indexed exactly if it is not under removal so told, and was not removed after the listing that found it began |
| `Removal.ListingRefines` | crates/goz-daemon/src/supervisor.rs:507-545 | a listing acted on step by step, with releases, tails, starts and notifications going on between, makes of the fleet what acting on it at once does, unless shutdown begins |
| `Removal.TakesUpNext` | crates/goz-daemon/src/supervisor.rs:574-590 | the removal taken up is the next one taken; its volume is no longer indexed unless the removal failed, every other volume as it was |
| `Removal.ShutdownStopsWork` | crates/goz-daemon/src/supervisor.rs:518-590 | once shutdown has begun removals taken are handed back, and a listing lets go of and finds no further volume |
| `Removal.RunFlags` | crates/goz-daemon/src/supervisor.rs:279-358 | in every run shutdown has begun, taken the fleet and ended, and the supervisor panicked, exactly if a step did so |
| `Removal.QueryFate` | crates/goz-daemon/src/supervisor.rs:279-358 | in every run each removal query posted is, with its volume, waiting, answered, dropped or freed, once, and dropped, unless early, and freed only when shutdown has said that all tails have stopped, with every instance of every volume let go of; it is answered only with every instance of its volume let go of, unless that very volume was found while indexed; the volume is then free exactly when no tail outlived its wait and no abandoned start is under way |
| `Removal.DroppedEarlyIff` | crates/goz-daemon/src/supervisor.rs:855-876 | in every run some query is dropped before shutdown said that all tails have stopped exactly when some step of it is a panic with a query taken or acted on, or a discard by a panicked supervisor with a query posted |
| `Removal.FreeIff` | crates/goz-daemon/src/supervisor.rs:884-905 | a volume whose instances are all let go of is free exactly when each of them ended in time |
| `Removal.PanicDropsQuery` | crates/goz-daemon/src/supervisor.rs:855-876 | for any volume there is a run that drops its query early, with the volume indexed, supervised and in use |
| `Removal.AnsweredTooEarly` | crates/goz-daemon/src/supervisor.rs:574-590 | for any volume there is a run that answers its query while a start left behind is still opening it |
| `Removal.OutOfOrderFinds` | crates/goz-daemon/src/supervisor.rs:674-708 | were listings acted on out of order, one begun before a removal would find the volume again |
| `Replay.ApplyInBatches` | crates/goz-daemon/src/tail.rs:281-306 | applying the journal batch by batch is applying it at once |
| `Replay.ReplayConverges` | crates/goz-daemon/src/tail.rs:756-791 | with the cursor captured first, replaying the journal onto the index built by any interleaving of reads and changes gives the volume as it is, exactly when every file there was at the capture was read or changed since |
| `Replay.LateCursorIff` | crates/goz-daemon/src/tail.rs:756-764 | with the cursor captured after any number of the scan's steps, replay gives the volume as it is exactly when every file is changed after the capture or was indexed as it is |
| `Replay.LateCursorDrifts` | crates/goz-daemon/src/tail.rs:756-764 | an instance in which it does not: a change between a file's read and a cursor captured after the scan is never noticed |
| `TailReplay.BatchesFollow` | crates/goz-daemon/src/tail.rs:217-306 | until its next rebuild the batches a tail applies are the journal's changes from its first cursor to the one reached, each once and in order, through retries and empty reads |
| `TailReplay.TailConverges` | crates/goz-daemon/src/tail.rs:756-791 | a tail whose cursor was captured before its build, and whose reads got to the journal's end, has an index that is the volume exactly when every file there was at the capture was read or changed since |
| `TailPhase.WaitForJournal` | crates/goz-daemon/src/tail.rs:828-867 | returns the first answer that is not Unavailable, reporting Offline exactly if it had to wait, with waits that double up to five minutes, each cut into sleeps that add up to it |
| `TailPhase.CutWait` | crates/goz-daemon/src/tail.rs:855-865 | a wait is cut into sleeps of at most the backoff ceiling, a beat before each, that add up to it |
| `TailPhase.RunRescan` | crates/goz-daemon/src/tail.rs:749-825 | one rebuild, waiting for the journal included, ends in the specified phase and outcome |
| `TailPhase.RunBoundedRescan` | crates/goz-daemon/src/tail.rs:655-674 | a rebuild charged to the budget, or Failed when it is used up |
| `TailPhase.RunFirstBuild` | crates/goz-daemon/src/tail.rs:685-747 | the first build, with the specified phase and outcome |
| `TailPhase.RescanExact` | crates/goz-daemon/src/tail.rs:749-825 | a rebuild resumes exactly with the cursor of the journal that answered, once built; it leaves a Snapshot exactly if that was refused, Failed exactly if the build broke, and is stopped exactly by the flag, Offline if it was waiting |
| `TailPhase.FirstExact` | crates/goz-daemon/src/tail.rs:190-213 | a tail begins with the cursor captured before the build that was published, at the first try or by a rebuild, which exactly an indexed volume and one whose journal could not be read go through |
| `TailPhase.TakeTurn` | crates/goz-daemon/src/tail.rs:224-426 | one turn of the loop on its own variables is the one `LoopTold` and `EndTold` tell |
| `TailPhase.TailLoop` | crates/goz-daemon/src/tail.rs:190-427 | first build and turns give the life `FirstExact`, `LifeTold` and `EndTold` tell; its loop head is honest, and a tail that quits unasked leaves its volume Failed or a Snapshot |
| `TailPhase.LoopTold` | crates/goz-daemon/src/tail.rs:190-427 | at every loop head of every run the cursor is where the last successful read since the last rebuild got to, in that rebuild's journal; the rebuilds counted are those since the last batch; the streak began at the first of the failed reads just met, the wait doubles with each, and the volume is Offline exactly if one of them came DEGRADE_AFTER later |
| `TailPhase.LifeTold` | crates/goz-daemon/src/tail.rs:190-216 | a life begins with no rebuild charged and the cursor of its first build, and all it carries is told so |
| `TailPhase.EndTold` | crates/goz-daemon/src/tail.rs:655-674 | the turn that ends a tail asked for a rebuild, one more than MAX_RESCANS since the last batch, leaving the volume Failed, or one that did not resume |
| `TailPhase.RebuildRestarts` | crates/goz-daemon/src/tail.rs:307-352 | after a rebuild that resumes the tail runs on as one begun with that cursor, but for the rebuilds counted |
| `TailPhase.WhyTells` | crates/goz-daemon/src/tail.rs:240-427 | the reason a rebuild reports tells what the read met |
| `TailPhase.RunHonest` | crates/goz-daemon/src/tail.rs:217-224 | at every loop head of every run the phase is Live exactly when the volume is not degraded and Offline otherwise; a tail that quits unasked leaves it Failed or a Snapshot |
| `TailPhase.DriftIsAdmitted` | crates/goz-daemon/src/tail.rs:361-424 | reads retried for DEGRADE_AFTER or longer with only failures between leave the volume Offline |
| `TailPhase.RebuildsBounded` | crates/goz-daemon/src/tail.rs:655-674 | between two non-empty batches the tail goes on through at most MAX_RESCANS charged rebuilds; asking for one more leaves the volume Failed |
| `Revival.ReviveNeedsRetired` | crates/goz-daemon/src/supervisor.rs:1047-1110 | a revival is launched only with no start under way, the tail retired or absent, budget left and no snapshot; a retired tail is revived or its watch ends |
| `Revival.RevivalsApart` | crates/goz-daemon/src/supervisor.rs:1047-1246 | in any trace, between two revivals some scan, with the start that the first launched under way, found its end |
| `Revival.NoFalseClaim` | crates/goz-daemon/src/supervisor.rs:217-233 | in any trace, from a revival on and for as long as no tail is built, every scan polls, revives or ends the watch and leaves the volume claiming no tracking, but for one still to get its first index; giving up takes that claim too, and a start that failed on a volume without an index leaves it Failed with the reason |
| `Revival.PhaseExact` | crates/goz-daemon/src/supervisor.rs:217-233 | a scan keeps the phase it finds but for a claim to track that a revival takes back or giving up turns into Failed, and a failed start on a volume without an index, which says why |
| `Revival.Supervised.constructor` | crates/goz-daemon/src/supervisor.rs:1014-1028 | the first start costs no revival |
| `Revival.Supervised.ScanOnce` | crates/goz-daemon/src/supervisor.rs:1048-1287 | one scan, with its poll of a start under way, makes the specified decision and changes exactly the budget, anchor, start and phase it says |
| `Revival.BudgetKept` | crates/goz-daemon/src/supervisor.rs:83-87 | between two refunds of any trace at most MAX_REVIVES revivals are launched |
| `Revival.RefundIsEarned` | crates/goz-daemon/src/supervisor.rs:179-186 | a refund comes only after an unbroken run of scans, each with a fresh beat on a Live volume, spanning HEALTHY_AFTER, with no revival and no start inside |
| `Revival.RefundComes` | crates/goz-daemon/src/supervisor.rs:130-186 | with a clock that does not run back, a tail on its budget that every scan for HEALTHY_AFTER saw track is refunded, at the last of them if not before |
| `Revival.DeadScanExact` | crates/goz-daemon/src/supervisor.rs:130-168 | a scan that finds its tail dead releases a Snapshot; any other volume it gives up exactly when MAX_REVIVES revivals were launched since the last refund, and else revives |
| `Revival.CancelExact` | crates/goz-daemon/src/supervisor.rs:130-168 | a tail's I/O is cancelled exactly when its last beat is 300 seconds old or its busy mark 1800 |
| `Revival.PendingIff` | crates/goz-daemon/src/supervisor.rs:1118-1287 | a start is under way exactly if one was launched with a worker and no scan found its end yet |
| `Revival.HeldIff` | crates/goz-daemon/src/supervisor.rs:1224-1287 | the watch holds a tail exactly if some scan was handed one |
| `Revival.DyingTailIsGivenUp` | crates/goz-daemon/src/supervisor.rs:130-168 | a tail found dead more than MAX_REVIVES times without such a run has left supervision |

## Left out

- Intern table probing: the table is the set of ids, searched by bytes; hashing and bucket layout are not modelled.
- Vec capacity policy, trimming, memory accounting and the cues `should_compact` and `wants_merge`: they change no meaning.
- Overflow of a 32-bit reference count; ids fit 32 bits because the arenas do.
- Names.NameStore: the byte arenas, tables and order are one record field of the class and sequences rather than in-place buffers, so aliasing and buffer reuse are not captured; library sorts are insertion sorts.
- VolumeIndex policy (applying records, renames, links, child and same-name chains), the query engine, the USN and layout parsers and the wire codec: rows, runs and per-file entries stand for them.
- Unicode decomposition and lower-casing behind the non-ASCII fold.
- Pages: how a row's path is memoized and its key cached, and volumes without hits (kept as empty runs); the runs' positions are a sequence the methods pass on rather than objects; a page's bytes are counted, not encoded.
- Wtf8: the lossy flag beyond the encoder, and the lossy string form.
- LockOrder: the supervisor's own signal mutex and the condition variables; which waiter a lock wakes is left open between the two bounds the module states.
- TailOwner: a worker that panics after its tail has started; how long the waits for tails and starts are, since each may end early or late.
- Removal: a panic in the middle of letting go of a volume, how long a query's caller waits for its answer, and which of two watched instances a release takes once a volume is indexed twice (here the older one).
- Revival: a tail built and not yet handed over when its start is polled, which may write the phase before the supervisor holds it; `NoFalseClaim` speaks of the time before it is built.
- Pulse: memory ordering of the atomic word; a thread's stores are read in order.
- TailPhase: reading, applying, stat and link refresh of records inside a turn; the index's content under replay is `Replay`'s subject.
- Replay: an entry's parts (links, sizes, dates) and their refresh after a record; a change carries the file's whole new entry.
- goz-winfs, the pipe server's accept and relay code, service control, the command line, status rendering, logging and timing.
