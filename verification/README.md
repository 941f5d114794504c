# Verified models of the node's core data structures and codecs

This project models, in Dafny, the parts of the node where correctness is not visible
from any one branch, and proves what they keep over whole runs:

* the **address manager** (`AddrMan*.dfy`): seven redundant structures tied together by
  reference counts and hash-determined slots, the executable check, and the file format;
* the **coin cache stack** (`Coins*.dfy`): write-back caches with DIRTY and FRESH flags, to
  any depth, over one flat map;
* the **verification queue** (`CheckQueue*.dfy`): one master and any number of workers over
  one mutex and two condition variables;
* the **cuckoo cache** (`Cuckoo*.dfy`): eight-way displacement, lazy erasure, two epochs;
* **256-bit arithmetic** (`Digits`, `Limbs`, `LimbLoops`, `BaseUint`, `Compact`,
  `ArithUint256`): limb loops of any width, the compact target format, the work of a block;
* the **block tree and active chain** (`SkipHeights`, `Chain`);
* the **codecs**: Bech32 and Bech32m (`Gf1024`, `Bech32*.dfy`; BIP 173, section "Bech32", and
  BIP 350, section "Bech32m"), Base58 (`Radix`, `Base58*.dfy`), and compact blocks (`CompactBlocks`,
  `BlockRebuild`, `BlockMatches`, `PartialBlock`; BIP 152, section "HeaderAndShortIDs").

`Basics`, `Sets` and `Sums` hold shared helpers. `dafny verify dfyconfig.toml` verifies all of it.

## How it is built

Where the source updates fields in place there are two layers: transitions on a value
datatype, about which invariants and runs are proved as lemmas, and a class whose methods
and loops are proved to be those transitions (`Abs()` before and after). The verification
queue is a state machine: a step is one critical section, the execution of one check
outside it, a notification or a wake-up, and a run is any sequence of steps.

What the source takes from elsewhere is a parameter:

* hashing (buckets, positions, cuckoo locations, short ids), address classification, the ASN
  map and script sizes are arbitrary functions of the right type and range;
* clocks and random draws are arguments, and clock readings are positive; a map whose order
  of traversal the source does not fix is traversed in an arbitrary order;
* ids of the address manager are unbounded; its secret key is not zero; service flags are a
  set; the chain length of the cuckoo cache, a logarithm taken in floating point, is arbitrary;
* the empty script takes no memory; the best block of a database that is flushed to is not
  null, as the source asserts;
* the test for a crowded hash bucket in a compact block is an arbitrary failure; the check of
  the completed block is a parameter.

## What turned out differently from the comments

* `CheckAddrman` accepts managers that are not consistent: it looks neither for stale entries
  of `mapAddr` nor at ranges and validity, and a network missing from its counts can be masked
  by an entry that counts nothing. `AddrManCheck.CheckedExactly` is the exact gap and
  `AddrManCheck.CheckMisses` a state in it. No run leads there.
* Of the five states of the coin flags that the comments list, "spent, FRESH, not DIRTY" does
  not occur, since a base view returns only unspent coins.
* A flush of a cache without a best block of its own can change the best block reported
  (`CoinsRefinement.FlushBestBlock` says exactly when, and
  `CoinsRefinement.FlushForgetsBestBlock` gives such a stack).
* `AddCoin` without permission to overwrite relies on its caller: the invariant survives if
  and only if there is no unspent coin below (`CoinsRefinement.AddCoinUnvouched`).
* The first displacement of a cuckoo insert goes to the second location, not to the first as
  the comment says, because the search that fails yields 8 (`Cuckoo.FirstDisplacement`) and
  (1 + 8) & 7 is 1. It is the first location if and only if the two are the same
  (`Cuckoo.DisplacesSecond`); `Cuckoo.NotTheFirst` is a table where they are not.
* The packed flags of the cuckoo cache have room for their entries if and only if size + 7
  does not wrap (`CuckooCache.BytesFit`), which is a little less than the documented maximum.
* The comment before `LastCommonAncestor` expects a common root; the code returns null, and
  its assert holds, for blocks with different roots (`Chain.StrangersMeetNowhere`).

* The bound of 100000 transactions in a compact block is never reached: a message whose
  transactions do not fit in sixteen bits cannot be read.

## Model

| member | source | states |
|---|---|---|
| `AddrManRuns.EveryRunConsistent` | src/addrman.cpp:418-966 | After any sequence of public operations on a new manager, whatever the addresses, clocks and draws, the whole invariant holds: the three indexes are mutually inverse, each new entry has as many slots as its reference count (1 to 8), each tried entry sits in exactly its own slot, global and per-network counts are exact, pending collisions are real |
| `AddrManRuns.RunKeeps` | src/addrman.cpp:517-549 | From any consistent manager, every run stays consistent and a tried slot once occupied stays occupied |
| `AddrManRuns.ApplyKeeps` | src/addrman.cpp:552-966 | Each public operation re-establishes the invariant and empties no tried slot |
| `AddrManRuns.AddSingleKeeps` | src/addrman.cpp:552-626 | Adding an address re-establishes the invariant; entries that survive keep their identity |
| `AddrManRuns.AddSingleMeaning` | src/addrman.cpp:552-626 | Success is reported exactly if the address gained the new slot its source leads to; the tried table is untouched, no other address is learnt, and one is forgotten only if it was terrible and had no other slot |
| `AddrManRuns.GoodKeeps` | src/addrman.cpp:628-681 | Marking an address good re-establishes the invariant, with or without test-before-evict |
| `AddrManRuns.GoodMeaning` | src/addrman.cpp:628-681 | Success exactly if a known new entry has been moved to its tried slot; a displaced tried entry is back in one new slot; otherwise no table changes |
| `AddrManRuns.DisplaceKeeps` | src/addrman.cpp:516-541 | Evicting a tried entry gives it exactly one new slot, its own, and forgets at most the occupant of that slot |
| `AddrManRuns.MakeTriedKeeps` | src/addrman.cpp:493-550 | Moving an entry to tried is consistent before and after, though not in between |
| `AddrManRuns.CollisionsAreReal` | src/addrman.cpp:909-966 | A pending collision that still exists points at an occupied tried slot held by a tried entry: the "not a collision any more" branch and the lookup of id -1 are unreachable |
| `AddrManRuns.SelectCollisionKeeps` | src/addrman.cpp:968-994 | Selecting a collision returns the tried occupant of the slot exactly if the collision still exists, and forgets it otherwise |
| `AddrManRuns.ResolveOneKeeps` | src/addrman.cpp:909-966 | Resolving one collision by any of its outcomes keeps the manager consistent and every tried slot occupied |
| `AddrManRuns.ResolveAllKeeps` | src/addrman.cpp:905-966 | Resolving all collisions does |
| `AddrManRuns.PickedMeaning` | src/addrman.cpp:808-844 | The addresses returned are distinct and known, of the network asked for and, if filtered, not terrible, with the time and services on record; none such among those visited is left out |
| `AddrManMeaning.TerribleExactly` | src/addrman.cpp:71-94 | In seconds: never within 60 of a try; otherwise more than 600 in the future, not seen for 2592000, three failures and no success ever, or ten failures and none for 604800 |
| `AddrManMeaning.AnnouncedAgain` | src/addrman.cpp:559-626 | An announcement of a known address: exactly which time and services it has afterwards, exactly when it gains a slot (still older than announced, new, under eight slots, lucky, the slot another's that gives way), and no other entry's data changes |
| `AddrManMeaning.AnnouncedFirst` | src/addrman.cpp:585-626 | A new address is taken up if and only if its slot is free, its occupant terrible, or its occupant has another slot; then it starts with the announced time less the penalty, the announced services and source, and no history |
| `AddrManMeaning.PlaceNewExactly` | src/addrman.cpp:596-624 | A slot is gained if and only if it was not the entry's own already and its occupant, if any, gives way |
| `AddrManMeaning.AddAllReports` | src/addrman.cpp:683-693 | A batch reports success if and only if one of its announcements, each on the manager left by those before it, was taken up |
| `AddrManMeaning.GoodExactly` | src/addrman.cpp:628-681 | Every field of every entry after a success: last success, last try and failures of that entry, the tried flag exactly if it moved, a pending collision exactly if asked to test, the slot is taken and fewer than ten are pending, and no other data |
| `AddrManMeaning.AttemptExactly` | src/addrman.cpp:695-713 | The whole state after an attempt: the last try, and one more failure exactly if asked for and none was counted since the last success of the manager |
| `AddrManMeaning.CountedOnce` | src/addrman.cpp:695-713 | Two failures in a row without a success of the manager in between count once |
| `AddrManMeaning.ConnectedExactly` | src/addrman.cpp:870-887 | The whole state after a connection: the time of the entry moves exactly if it is more than 1200 seconds behind |
| `AddrManMeaning.SetServicesExactly` | src/addrman.cpp:889-903 | The whole state after new services |
| `AddrManMeaning.ResolveOneMeaning` | src/addrman.cpp:909-966 | For a pending entry and the holder of its slot, in seconds: a holder that worked within 14400 keeps the slot and the collision is dropped, nothing else; one only tried within 14400 loses it exactly if that was more than 60 ago; any other loses it exactly if the entry last worked more than 2400 ago; if the slot is not lost, the whole state is unchanged; if it is, the entry is tried, the holder back in one new slot |
| `AddrManMeaning.ResolveAllShelters` | src/addrman.cpp:905-966 | Resolving collisions, whichever and however many, never takes the tried slot of an entry that worked within four hours |
| `AddrManMeaning.RunShelters` | src/addrman.cpp:552-966 | Over every run in which no success is reported from before and collisions are resolved less than four hours after an entry worked, the entry keeps its tried slot |
| `AddrManMeaning.WantedExactly` | src/addrman.cpp:808-819 | The number asked for is the given share rounded down, or the given maximum if that is less; zero means no limit |
| `AddrManMeaning.SampleDraws` | src/addrman.cpp:824-830 | Each place of the random order is drawn from those not yet drawn and then stays |
| `AddrManMeaning.SampleReorders` | src/addrman.cpp:434-456 | Drawing a sample only reorders: the same entries with the same data |
| `AddrManOps.CreateKeeps` | src/addrman.cpp:418-432 | A created entry is consistent but for the reference it still owes |
| `AddrManOps.SwapKeeps` | src/addrman.cpp:434-456 | Swapping two positions keeps every index in step |
| `AddrManOps.DeleteKeeps` | src/addrman.cpp:458-473 | Deleting an entry without references keeps all indexes and counts exact |
| `AddrManOps.ClearNewKeeps` | src/addrman.cpp:475-491 | Clearing a slot drops one reference, and the entry with the last one, and keeps everything exact |
| `AddrManOps.WithdrawKeeps` | src/addrman.cpp:497-511 | Taking an entry out of all its new slots leaves it in transit and everything else exact |
| `AddrManOps.EvictKeeps` | src/addrman.cpp:519-527 | Taking an entry out of tried leaves it in transit |
| `AddrManOps.EnlistKeeps` | src/addrman.cpp:535-539 | Giving it one new slot settles it again |
| `AddrManOps.PromoteKeeps` | src/addrman.cpp:543-549 | Putting the entry into its free tried slot settles it |
| `AddrManager.AddrManImpl.constructor` | src/addrman.cpp:111-127 | A new manager is the empty state |
| `AddrManager.AddrManImpl.Create` | src/addrman.cpp:418-432 | In place, the transition Create: map, index, order and counts updated together |
| `AddrManager.AddrManImpl.SwapRandom` | src/addrman.cpp:434-456 | In place, the transition SwapRandom; its asserts hold |
| `AddrManager.AddrManImpl.Delete` | src/addrman.cpp:458-473 | In place, the transition Delete; its asserts hold |
| `AddrManager.AddrManImpl.ClearNew` | src/addrman.cpp:475-491 | In place, the transition ClearNew |
| `AddrManager.AddrManImpl.ScanNew` | src/addrman.cpp:497-507 | The scan over the new buckets from the home bucket, stopped early, clears all references of the entry |
| `AddrManager.AddrManImpl.MakeTried` | src/addrman.cpp:493-550 | In place, the transition MakeTried; every assert on the way holds |
| `AddrManager.AddrManImpl.AddSingle` | src/addrman.cpp:552-626 | In place, the transition AddSingle and its result, with a reading of the clock for the online test and another for the terrible occupant |
| `AddrManager.AddrManImpl.Add` | src/addrman.cpp:683-693 | A batch is its announcements one after the other, and keeps the invariant |
| `AddrManager.AddrManImpl.Good` | src/addrman.cpp:628-681 | In place, the transition Good and its result |
| `AddrManager.AddrManImpl.Attempt` | src/addrman.cpp:695-713 | In place, the transition Attempt |
| `AddrManager.AddrManImpl.Connected` | src/addrman.cpp:870-887 | In place, the transition Connected |
| `AddrManager.AddrManImpl.SetServices` | src/addrman.cpp:889-903 | In place, the transition SetServices |
| `AddrManager.AddrManImpl.ResolveOne` | src/addrman.cpp:909-966 | In place, the transition ResolveOne, whose outcome in each case is that of AddrManMeaning.ResolveOneMeaning |
| `AddrManager.AddrManImpl.ResolveCollisions` | src/addrman.cpp:905-966 | Every collision pending at the start is resolved once, in ascending order, by the transition ResolveOne; the invariant is kept, and by AddrManMeaning.ResolveAllShelters no entry that worked within four hours loses its slot |
| `AddrManager.AddrManImpl.GetAddr` | src/addrman.cpp:808-844 | At most the wanted number of addresses; fewer only if all of the random order was visited; the invariant is kept |
| `AddrManager.AddrManImpl.SelectTriedCollision` | src/addrman.cpp:968-994 | The selected collision, and the invariant kept |
| `AddrManCheck.CheckAddrman` | src/addrman.cpp:1056-1159 | The executable check returns 0 exactly on the states that satisfy its conditions, with all its loops and counters |
| `AddrManCheck.CheckedExactly` | src/addrman.cpp:1056-1159 | A manager is consistent, pending collisions included, if and only if it passes the check and satisfies what the check does not look at: stale addresses, a network count masked by a zero entry, ranges of ids and slots, validity of addresses, a nonnegative id count and real pending collisions |
| `AddrManCheck.TablesCheckedExactly` | src/addrman.cpp:1056-1159 | The same for the tables and counts alone |
| `AddrManCheck.EveryRunPasses` | src/addrman.cpp:1041-1159 | After every run of a new manager the check returns 0 |
| `AddrManCheck.CheckMisses` | src/addrman.cpp:1147-1156 | A concrete manager with a wrong network count that passes the check |
| `AddrManDisk.ParseRender` | src/addrman.cpp:135-231 | A well-formed file is read back as written, item by item |
| `AddrManDisk.LoadConsistent` | src/addrman.cpp:233-401 | Any stream whatever that loads without an exception gives a consistent manager |
| `AddrManRoundTrip.RoundTrip` | src/addrman.cpp:135-401 | Writing any consistent manager and reading it into an empty one with the same ASN map succeeds and restores, up to ids, the same key, addresses, tried slots, new slots and counts, and of each entry, field by field, address, time, services, source, last success, failures, table and reference count; last try and last counted attempt start from zero |
| `AddrManReload.StreamLayout` | src/addrman.cpp:135-231 | The stream item by item: format 4, compatible with 4 (36), the key, both counts, 1024 buckets with bit 30 flipped, every entry once with the six fields saved, the new ones first, and the checksum of the ASN map at the end |
| `AddrManReload.HeaderExactly` | src/addrman.cpp:239-282 | A stream is read only if its compatibility byte is 32 to 36 and its counts are within 65536 and 16384; one of the oldest format without entries and buckets is then read as it stands |
| `AddrManReload.Rebucketed` | src/addrman.cpp:335-378 | A file written with another ASN map or another number of buckets loads into a manager in which every new entry has exactly one slot, the one of its first source under the new map |
| `AddrManLoads.PlausibleLoads` | src/addrman.cpp:233-401 | Every file that can be read, with a key, no address twice, no negative time of success and no tried entry without a success, loads, whatever its buckets and the ASN map; no valid tried entry is lost unless another holds its slot, and no valid new entry that some bucket refers to unless the slot of its first source is taken |
| `AddrManStream.Serialize` | src/addrman.cpp:135-231 | The loops write exactly the stream of AddrManReload.StreamLayout, for any order in which the map is traversed |
| `AddrManStream.Unserialize` | src/addrman.cpp:233-401 | The loops succeed exactly when the stream loads, and leave exactly the loaded manager, which is consistent |
| `CoinsRuns.DatabaseShows` | src/coins.cpp:43-296 | For every stack of caches over a database and every legal run of reads, additions, spends, uncaching, flushes and syncs, each level shows exactly its flat map under plain insert and delete |
| `CoinsRuns.RunRefines` | src/coins.cpp:43-296 | The same from any stack that satisfies the invariant |
| `CoinsRuns.StepRefines` | src/coins.cpp:43-296 | Each legal operation is the flat operation of the same name and keeps the invariant at every level; a lookup, a spend and the question for a coin are answered as the flat map has it, and no legal addition throws |
| `CoinsRuns.RunAnswers` | src/coins.cpp:43-296 | Every lookup, spend and question of a legal run is answered as by the flat map at that point |
| `CoinsRuns.HaveCoinKeeps` | src/coins.cpp:161-164 | A coin is reported if and only if the view shows one unspent, and asking changes no view at any level |
| `CoinsRuns.AddCoinsRefines` | src/coins.cpp:117-126 | Adding all outputs of a transaction never throws under its precondition and is the flat insertion of the spendable ones |
| `CoinsMeaning.AddCoinsExactly` | src/coins.cpp:117-126 | Afterwards every spendable output is shown with its value, script, the height and the coinbase flag, and every other outpoint shows what it did |
| `CoinsMeaning.AddCoinsThrows` | src/coins.cpp:117-126 | It throws if and only if told neither to check nor to overwrite, and an output would replace an unspent coin in the cache |
| `CoinsMeaning.FetchFills` | src/coins.cpp:43-58 | A coin found below is then in the cache, unmodified and counted; nothing else in the cache changes |
| `CoinsMeaning.AddThenSpend` | src/coins.cpp:69-148 | Adding a coin the cache knows nothing of and spending it leaves the cache exactly as it was |
| `CoinsMeaning.SpendLeavesMark` | src/coins.cpp:128-148 | Spending a coin that the view below has leaves an entry that is spent, dirty and not fresh |
| `CoinsMeaning.UncacheExactly` | src/coins.cpp:283-296 | Exactly an unmodified entry is dropped, and its memory counted out |
| `CoinsMeaning.WrittenOut` | src/coins.cpp:253-281 | A flush leaves an empty cache, a sync exactly the unspent entries, clean; both hand on the best block |
| `CoinsMeaning.WriteExactly` | src/coins.cpp:181-251 | Of a modified entry nothing is left in the parent exactly if it is spent and was fresh there, or new to it and fresh; otherwise it is dirty there, and fresh as it was |
| `CoinsRefinement.GetCoinKeeps` | src/coins.cpp:60-67 | A lookup finds exactly the coin shown and changes no view at any level |
| `CoinsRefinement.FetchKeeps` | src/coins.cpp:43-58 | Fetching changes no view; the entry fetched shows the coin |
| `CoinsRefinement.AddCoinKeeps` | src/coins.cpp:69-107 | It throws exactly on an unspent coin without permission to overwrite, and otherwise sets that one coin |
| `CoinsRefinement.AddCoinUnvouched` | src/coins.cpp:89-107 | Without the promise of its caller the invariant survives if and only if there is no unspent coin below; if there is one, spending brings it back |
| `CoinsRefinement.SpendCoinKeeps` | src/coins.cpp:128-148 | Spending removes exactly that coin from the view and returns the coin shown |
| `CoinsRefinement.UncacheKeeps` | src/coins.cpp:283-296 | Uncaching changes no view |
| `CoinsRefinement.NeverMisapplied` | src/coins.cpp:214-220 | The parent never sees the FRESH flag misapplied: the throw is unreachable |
| `CoinsRefinement.BatchWriteKeeps` | src/coins.cpp:181-251 | The parent then shows what the child showed and keeps its own promises to the view below it |
| `CoinsRefinement.FlushKeeps` | src/coins.cpp:253-264 | A flush changes no coin shown, and the level below shows the same |
| `CoinsRefinement.SyncKeeps` | src/coins.cpp:266-281 | So does a sync, which keeps the unspent entries clean |
| `CoinsRefinement.AskBestKeeps` | src/coins.cpp:171-175 | Asking for the best block fills in the missing ones on the way down, changes no coin shown and answers the same when asked again |
| `CoinsRefinement.FlushForgetsBestBlock` | src/coins.cpp:253-264 | A concrete stack whose reported best block is changed by a flush |
| `CoinsRefinement.FlushBestBlock` | src/coins.cpp:171-175 | The reported best block survives a flush if and only if the cache has one of its own, or parent and grandparent reported the same |
| `CoinsView.FlagStates` | src/coins.h:89-103 | Only states of the flags that the sanity check allows occur, and of the five it allows only four |
| `CoinsCache.CoinsViewCache.Fetch` | src/coins.cpp:43-58 | In place through any number of levels, the transition Fetch |
| `CoinsCache.CoinsViewCache.GetCoin` | src/coins.cpp:60-67 | In place, the transition GetCoin |
| `CoinsCache.CoinsViewCache.HaveCoin` | src/coins.cpp:161-164 | In place, true if and only if the view shows an unspent coin; the invariant is kept |
| `CoinsCache.CoinsViewCache.AddCoin` | src/coins.cpp:69-107 | In place, the transition AddCoin, memory account included |
| `CoinsCache.CoinsViewCache.SpendCoin` | src/coins.cpp:128-148 | In place, the transition SpendCoin |
| `CoinsCache.CoinsViewCache.Uncache` | src/coins.cpp:283-296 | In place, the transition Uncache |
| `CoinsCache.CoinsViewCache.BatchWrite` | src/coins.cpp:181-251 | The loop over the child, with or without erasure, is the transition BatchWrite and never throws |
| `CoinsCache.CoinsViewCache.Flush` | src/coins.cpp:253-264 | In place through both levels, the transition Flush |
| `CoinsCache.CoinsViewCache.Sync` | src/coins.cpp:266-281 | In place through both levels, the transition Sync |
| `CoinsCache.CoinsViewCache.GetBestBlock` | src/coins.cpp:171-175 | In place through any number of levels, the transition AskBest: its own best block, or the one of the base, which it then remembers |
| `CoinsCache.AddAll` | src/coins.cpp:117-126 | The loop over the outputs is the transition AddCoins |
| `CheckQueueRuns.EveryRunIsSafe` | src/checkqueue.h:66-173 | In every interleaving of any number of workers, at every point: all accounts are exact, every session that has ended returned true exactly if all its checks hold, and the sessions partition the added checks in order |
| `CheckQueueProof.StepKeeps` | src/checkqueue.h:66-173 | Every step of every thread keeps the accounts of nTodo, nIdle and nTotal, the promise that the result will be right, and a sleeping master only while work is out |
| `CheckQueueProof.MasterLeaves` | src/checkqueue.h:88-96 | When Wait returns, its result is right for exactly the checks of the session, the queue is empty, nTodo is 0, the flag is reset and no thread holds a batch |
| `CheckQueueProof.ShareFits` | src/checkqueue.h:104-115 | A batch taken is at least one check and at most the queue |
| `CheckQueueProof.WorkerEntersKeeps` | src/checkqueue.h:75-115 | A worker can always pass its critical section, and keeps the invariant |
| `CheckQueueProof.MasterEntersKeeps` | src/checkqueue.h:75-115 | So can the master |
| `CheckQueueRuns.StepConserves` | src/checkqueue.h:104-123 | No step loses a check, executes one twice, or passes one over before a failure |
| `CheckQueueRuns.MasterLeavesConserves` | src/checkqueue.h:88-96 | If Wait returns true every check was executed exactly once; otherwise each at most once |
| `CheckQueueRuns.WaitNeverStuck` | src/checkqueue.h:90-103 | While the master is in Wait some thread can take a step without a spurious wake-up: no deadlock and no lost notification |
| `CheckQueueRuns.WaitIsBounded` | src/checkqueue.h:66-123 | A Wait that has not returned has taken at most four steps per check, one per thread and one per spurious wake-up |
| `CheckQueueWakes.NotifyExactly` | src/checkqueue.h:156-174 | After one added check exactly one sleeping worker is notified, if there is one; after more, all of them; nothing else changes |
| `CheckQueueWakes.EnabledExactly` | src/checkqueue.h:66-174 | Exactly which steps are possible: any thread that does not wait, any sleeping worker for a notification, any sleeping thread for a wake-up without cause |
| `CheckQueueWakes.EveryRunAttends` | src/checkqueue.h:66-174 | At every point of every run, checks in the queue have a worker that is not asleep, unless a notification is still to come |
| `CheckQueueWakes.NoWakeUpIsLost` | src/checkqueue.h:66-174 | After every run with checks queued and no notification to come, some worker can take its next step without a wake-up |
| `CheckQueueWakes.ShareExactly` | src/checkqueue.h:104-110 | The size of a batch: the queue divided evenly over all threads and the idle ones again plus one, rounded down, but at most the batch size and at least one |
| `CheckQueueWakes.TakenExactly` | src/checkqueue.h:110-116 | The batch is the end of the queue, and none of it is executed once a failure is known |
| `CuckooRuns.EveryRunIsSound` | src/cuckoocache.h:287-486 | For any hash functions, table size and chain length, at every point of every run: live elements at their own locations, no element twice, C + counter within the bound of the epoch, and at most twice the bound live in all |
| `CuckooRuns.LoadIsBounded` | src/cuckoocache.h:337-350 | Where 45 * size does not wrap: at most 95.625 percent of the table and a little over two slots, for every size; from 36 slots on, without these |
| `Cuckoo.EpochCheckBalances` | src/cuckoocache.h:287-319 | The epoch check keeps both generations within the bound and leaves room for one more |
| `Cuckoo.InsertBalances` | src/cuckoocache.h:399-447 | An insert adds at most one recent element and no old one |
| `Cuckoo.FirstDisplacement` | src/cuckoocache.h:399-447 | The search for the invalid location fails in every table: it yields 8 |
| `Cuckoo.DisplacesSecond` | src/cuckoocache.h:399-447 | With no open location, an insert first displaces the element at the second of the eight locations; that is the first location, as the comment has it, if and only if the two are the same |
| `Cuckoo.NotTheFirst` | src/cuckoocache.h:399-447 | A concrete table in which the element displaced is not at the first location |
| `CuckooRuns.PlaceConserves` | src/cuckoocache.h:399-447 | Of the elements live after the epoch check and the inserted one, at most one is lost, for any displacement chain; none if the element was present or a location was open |
| `CuckooRuns.PlaceKeeps` | src/cuckoocache.h:399-447 | Every live element stays at one of its own eight locations and no element is in two slots |
| `CuckooRuns.InsertThenContains` | src/cuckoocache.h:399-447 | An inserted element is found afterwards unless it is the one lost |
| `CuckooRuns.FoundExactly` | src/cuckoocache.h:476-486 | A live element is always found; an element not found is nowhere in the table |
| `CuckooRuns.DiscardStillContains` | src/cuckoocache.h:449-486 | Marking an element for erasure changes no lookup |
| `CuckooMeaning.ContainsExactly` | src/cuckoocache.h:476-486 | In a sound cache any element but the blank one is found if and only if some slot of the table holds it |
| `CuckooMeaning.FoundWasPut` | src/cuckoocache.h:399-486 | In every run an element that is found, other than the blank one, was inserted earlier |
| `CuckooMeaning.DiscardExactly` | src/cuckoocache.h:449-486 | Allowing an element to be erased marks the slot that holds it and changes nothing else |
| `CuckooMeaning.PutAgain` | src/cuckoocache.h:404-414 | Inserting an element already in the table makes its slot live and recent and changes nothing else |
| `CuckooMeaning.PutFirst` | src/cuckoocache.h:417-424 | A new element goes to the first of its eight locations that is open |
| `CuckooMeaning.DisplacesNext` | src/cuckoocache.h:426-446 | A displaced element with no open location displaces the one at the location after that it was displaced from |
| `CuckooMeaning.LocationsExactly` | src/cuckoocache.h:241-251 | The k-th location is the k-th hash scaled to the table: location * 2^32 <= hash * size < (location + 1) * 2^32 |
| `CuckooMeaning.EpochSizeExactly` | src/cuckoocache.h:337-350 | Where 45 * size does not wrap: 45 percent of the table, rounded down, at least one |
| `CuckooMeaning.NextScanExactly` | src/cuckoocache.h:311-319 | The next scan comes after as many inserts as the epoch has room for, at least a sixteenth of it and at least one |
| `CuckooMeaning.EpochCheckExactly` | src/cuckoocache.h:287-319 | When a scan is due, when it starts an epoch, and what then becomes of each slot |
| `Cuckoo.FastRangeFits` | src/util/fastrange.h:18-22 | The location of a 32-bit hash lies within the table |
| `CuckooCache.BytesFit` | src/cuckoocache.h:64-71 | The flags have room for every entry if and only if size + 7 does not wrap at 32 bits |
| `CuckooCache.BytesWrap` | src/cuckoocache.h:64-71 | For 2^32 - 2 entries, within the documented maximum, no byte is set aside |
| `CuckooCache.BitPackedFlags.Set` | src/cuckoocache.h:94-97 | Exactly one flag changes |
| `CuckooCache.BitPackedFlags.Unset` | src/cuckoocache.h:105-108 | Exactly one flag changes |
| `CuckooCache.Store.Setup` | src/cuckoocache.h:337-350 | For every size: an empty, sound cache of at least two slots, whose flags have room if and only if size + 7 does not wrap |
| `CuckooCache.Store.EpochCheck` | src/cuckoocache.h:287-319 | In place, the transition EpochCheck, counting and aging loops included |
| `CuckooCache.Store.Insert` | src/cuckoocache.h:399-447 | In place, the transition Insert: the cache stays sound, and the element left over is the one of the chain |
| `CuckooCache.Store.Contains` | src/cuckoocache.h:476-486 | True, for any element but the blank one, if and only if some slot holds it; the erasure flag is set exactly on that slot, if asked to |
| `BaseUint.Uint.Add` | src/arith_uint256.h:125-135 | The sum modulo 2^(32*WIDTH), no 64-bit overflow, argument and receiver possibly the same |
| `BaseUint.Uint.Negate` | src/arith_uint256.h:67-74 | The negative modulo 2^(32*WIDTH) |
| `BaseUint.Uint.Complement` | src/arith_uint256.h:59-65 | The largest number minus this one |
| `BaseUint.Uint.Subtract` | src/arith_uint256.h:137-141 | The difference modulo 2^(32*WIDTH) |
| `BaseUint.Uint.Increment` | src/arith_uint256.h:163-170 | One more, with wrap-around |
| `BaseUint.Uint.Decrement` | src/arith_uint256.h:180-187 | One less, with wrap-around |
| `BaseUint.Uint.MultiplySmall` | src/arith_uint256.cpp:47-57 | The product with a 32-bit factor modulo 2^(32*WIDTH), no 64-bit overflow |
| `BaseUint.Uint.Multiply` | src/arith_uint256.cpp:59-73 | The product modulo 2^(32*WIDTH), no 64-bit overflow |
| `BaseUint.Uint.ShiftLeft` | src/arith_uint256.cpp:13-28 | Times a power of two, modulo 2^(32*WIDTH), for any shift |
| `BaseUint.Uint.ShiftRight` | src/arith_uint256.cpp:30-45 | The exact floor of the quotient by a power of two, for any shift |
| `BaseUint.Uint.Divide` | src/arith_uint256.cpp:75-99 | The exact floor of the quotient; it fails exactly for a zero divisor, and then leaves zero |
| `BaseUint.Uint.CompareTo` | src/arith_uint256.cpp:101-111 | The order of the numbers |
| `BaseUint.Uint.EqualTo64` | src/arith_uint256.cpp:113-125 | Whether the number is a given 64-bit one |
| `BaseUint.Uint.Bits` | src/arith_uint256.cpp:156-168 | The position of the highest bit set plus one, or zero |
| `BaseUint.Uint.GetLow64` | src/arith_uint256.h:233-237 | The number modulo 2^64 |
| `Compact.OverflowExactly` | src/arith_uint256.cpp:188-191 | The overflow flag is set if and only if the number of the code is at least 2^256 |
| `Compact.CompactRounds` | src/arith_uint256.cpp:175-216 | Decoding an encoded number gives at most that number, off by at most one part in 2^15 |
| `Compact.CompactStable` | src/arith_uint256.cpp:175-216 | Encoding the decoded number gives the same code back |
| `Compact.ExactMeaning` | src/arith_uint256.cpp:175-193 | For every size n, sign and word m: the code n * 2^24 + sign * 2^23 + m stands for m * 256^(n - 3), rounded down |
| `Compact.KnownTarget` | src/arith_uint256.cpp:175-193 | 0x1d00ffff stands for 0xffff * 2^208 |
| `ArithUint256.SetCompact` | src/arith_uint256.cpp:175-193 | Exact value unless it overflows, both flags exact |
| `ArithUint256.GetCompact` | src/arith_uint256.cpp:195-216 | The code of the number; both asserts hold |
| `ArithUint256.GetBlockProof` | src/chain.cpp:131-144 | floor(2^256 / (target + 1)) for every target that is one, zero otherwise; no step overflows or divides by zero |
| `ArithUint256.WorkAntitone` | src/chain.cpp:131-144 | A smaller target is never less work |
| `ArithUint256.WorkExactly` | src/chain.cpp:131-144 | Work * (target + 1) <= 2^256 < (Work + 1) * (target + 1) |
| `SkipHeights.GetSkipHeight` | src/chain.cpp:83-91 | Below the height of the block, for every height from 1 |
| `SkipHeights.SkipHeightMeaning` | src/chain.cpp:83-91 | From an even height the lowest one bit is dropped; from an odd one two such bits of the height below, plus one |
| `SkipHeights.StepsBound` | src/chain.cpp:93-118 | With all skip pointers set, the walk from a height of k bits to any lower height is at most LongestWalk(k) steps |
| `SkipHeights.LongestAttained` | src/chain.cpp:93-118 | From nine bits on that bound is exact: the walk from 2^k - 8 down to 2 takes that many |
| `SkipHeights.LongestWalkClosed` | src/chain.cpp:93-118 | In closed form from nine bits on: ((k - 1)(k + 5) - 11) / 4 + k - 3 |
| `SkipHeights.AtMost110` | src/chain.cpp:87-90 | Within 2^18 blocks a walk takes at most 110 steps, the number of the comment, and one takes that many |
| `SkipHeights.Crossing` | src/chain.cpp:93-118 | Starting in the upper half of an aligned block of 2^(j + 1) heights adds at most max(j - 2, 3 + (j - 1) / 2) steps to the longest walk from an odd height of its lower half; from an odd height, at most 2 + j / 2 |
| `SkipHeights.InvertLowestOneMeaning` | src/chain.cpp:80-80 | Takes away the largest power of two that divides the number |
| `Chain.BlockIndex.GetAncestor` | src/chain.cpp:93-118 | The block reached by following pprev, whichever mixture of skip and prev steps is taken; null outside the range; with all skip pointers set, within the bound on the number of steps |
| `Chain.BlockIndex.BuildSkip` | src/chain.cpp:125-129 | The skip pointer is the true ancestor at the skip height, and the tree stays valid |
| `Chain.AddBlock` | src/chain.h:149-161 | A tree grown by a block is valid, and has all its skip pointers if it had them before |
| `Chain.ActiveChain.SetTip` | src/chain.cpp:21-29 | The chain is exactly the path of the tip by height, for any reorganisation and in spite of the early stop |
| `Chain.ActiveChain.NextMeaning` | src/chain.h:482-489 | The block after another one is none exactly for the tip and for blocks off the chain; otherwise it is on the chain, on top of that block |
| `Chain.ActiveChain.FindFork` | src/chain.cpp:60-69 | The highest ancestor-or-self on the chain, none above it is on the chain; null exactly if none is |
| `Chain.LastCommonAncestor` | src/chain.cpp:165-180 | The highest block that is an ancestor-or-self of both; null exactly if their roots differ; its assert holds |
| `Chain.RootsTell` | src/chain.cpp:165-180 | Blocks share an ancestor exactly if they share their root |
| `Chain.StrangersMeetNowhere` | src/chain.cpp:165-180 | Two blocks grown from different roots, and the null they get |
| `Bech32.ChecksumVerifies` | src/bech32.cpp:341-352 | For data of any length, symbols with their checksum appended verify under that encoding |
| `Bech32.ChecksumUnique` | src/bech32.cpp:327-352 | No other six symbols verify in its place |
| `Bech32.BurstDetected` | src/bech32.cpp:327-338 | Data changed only within six consecutive positions, checksum included, never verifies under the same encoding |
| `Bech32Errors.ThreeErrorsDetected` | src/bech32.cpp:130-216 | Data changed in one, two or three symbols that lie within 1023 consecutive ones, checksum included, never verifies under the same encoding |
| `Bech32Errors.FoldEval` | src/bech32.cpp:139-213 | At every root of the generator in GF(1024) the remainder has the value of the data |
| `Bech32Errors.TimesEmbed` | src/bech32.cpp:144-150 | GF(32) lies in GF(1024): the embedding keeps products |
| `Bech32Errors.RootPowers` | src/bech32.cpp:158-175 | e^997, e^998 and e^999 are the elements 13, 26 and 52 |
| `Bech32Errors.Root13` | src/bech32.cpp:158-175 | e^997 is a root of the generator |
| `Bech32Errors.Root26` | src/bech32.cpp:158-175 | So is e^998 |
| `Bech32Errors.Root52` | src/bech32.cpp:158-175 | And e^999 |
| `Bech32Errors.SameField` | src/bech32.cpp:158-175 | e is the element the source adjoins to GF(32): e^2 + {9}e + {23} = 0 |
| `Gf1024.OrderOfE` | src/bech32.cpp:158-175 | No power of e between the zeroth and the 1023rd is 1 |
| `Gf1024.Logarithm` | src/bech32.cpp:158-175 | Every element of GF(1024) but zero is a power of e |
| `Gf1024.MulRegroup` | src/bech32.cpp:158-175 | The product of GF(1024) is associative |
| `Gf1024.ThreeTerms` | src/bech32.cpp:158-175 | Three places that vanish at three consecutive powers are zero (a Vandermonde determinant) |
| `Bech32.EncodingsDiffer` | src/bech32.cpp:122-125 | No data verifies under both encodings; which one does is Bech32Anchors.EncodingByRemainder |
| `Bech32Anchors.EncodingByRemainder` | src/bech32.cpp:122-125 | A string is Bech32 if and only if the remainder is 1, and Bech32m if and only if it is 0x2bc830a3 |
| `Bech32Anchors.ExpandExactly` | src/bech32.cpp:312-324 | The high three bits of each character, a zero, and the low five, in this order |
| `Bech32Anchors.CharsetExactly` | src/bech32.cpp:22-22 | The 32 characters in the order of their values |
| `Bech32Anchors.GoodExactly` | src/bech32.cpp:287-309 | The characters of a string pass if and only if all are from 33 to 126 and no two letters differ in case |
| `Bech32Anchors.Bech32Known` | src/bech32.cpp:357-370 | No data under "a" in Bech32 is "a12uel5l", the example of BIP 173 |
| `Bech32Anchors.Bech32mKnown` | src/bech32.cpp:357-370 | No data under "a" in Bech32m is "a1lqfn3a", the example of BIP 350 |
| `Bech32Code.StepIsRemainder` | src/bech32.cpp:139-213 | A step is arithmetic in GF(32)[x]: the remainder before times x plus the symbol, modulo x^6 + {29}x^5 + {22}x^4 + {20}x^3 + {21}x^2 + {29}x + {18}, with GF(32) modulo a^5 + a^3 + 1; this ties the five constants to the generator |
| `Bech32Code.StepLinear` | src/bech32.cpp:177-213 | A step of the remainder is linear over exclusive or |
| `Bech32Code.StepInjective` | src/bech32.cpp:177-213 | Shifting by a symbol maps nothing but zero to zero |
| `Bech32Code.PolyMod` | src/bech32.cpp:130-216 | The loop computes the remainder |
| `Bech32String.DecodeEncode` | src/bech32.cpp:357-397 | Decoding an encoded string returns exactly what was encoded if the human-readable part is printable, not empty and the whole at most 90 characters; otherwise nothing |
| `Bech32String.EncodeDecode` | src/bech32.cpp:357-397 | Encoding a decoded string gives it back in lower case |
| `Bech32String.CheckCharacters` | src/bech32.cpp:287-309 | Exactly the positions of unprintable characters and of letters not in the case of the first letter |
| `Bech32.SymbolOfChar` | src/bech32.cpp:22-35 | The two character tables are inverse: symbol to character to symbol |
| `Bech32.CharOfSymbol` | src/bech32.cpp:22-35 | And character to symbol to lower-case character |
| `Bech32Codec.ExpandHRP` | src/bech32.cpp:312-324 | The loop computes the expansion |
| `Bech32Codec.VerifyChecksum` | src/bech32.cpp:327-338 | Bech32 if and only if the remainder is 1, Bech32m if and only if it is 0x2bc830a3, otherwise none |
| `Bech32Codec.CreateChecksum` | src/bech32.cpp:341-352 | The loop computes the six symbols that alone make the remainder the constant of the encoding |
| `Bech32Codec.EncodeString` | src/bech32.cpp:357-370 | The loop computes the encoded string, the inverse of decoding, fixed for both encodings by known strings |
| `Bech32Codec.DecodeString` | src/bech32.cpp:373-397 | The loops compute encoding, human-readable part and data, or nothing for every malformed string |
| `Base58String.DecodeEncode` | src/base58.cpp:38-125 | Decoding an encoded byte string returns it if it fits the limit, and nothing otherwise |
| `Base58String.EncodeDecode` | src/base58.cpp:38-125 | Encoding what an accepted string decodes to gives the string back without the spaces around it |
| `Base58.BuffersFit` | src/base58.cpp:52-52 | For every length both buffers are large enough: 58^n <= 256^(n*733/1000+1) and 256^n <= 58^(n*138/100+1) |
| `Radix.MulAdd` | src/base58.cpp:61-67 | In a buffer large enough, the loop multiplies and adds exactly, ends without carry, and keeps the digits without a leading zero |
| `Radix.CanonicalUnique` | src/base58.cpp:75-83 | A number has one sequence of digits without a leading zero |
| `Base58.DigitOfLetter` | src/base58.cpp:17-36 | The alphabet and the table are inverse |
| `Base58.LetterOfDigit` | src/base58.cpp:17-36 | In both directions |
| `Base58Anchors.AlphabetExactly` | src/base58.cpp:17-36 | The digit of a character is its place among the ASCII digits and letters without 0, I, O and l, and the other characters have none |
| `Base58Anchors.PlaceIsOrder` | src/base58.cpp:17-36 | These places are the order of the characters |
| `Base58Anchors.EncodedNumber` | src/base58.cpp:87-125 | An encoded string starts with one "1" for each leading zero byte, and the rest has the value of the bytes |
| `Base58Anchors.Known61` | src/base58.cpp:87-125 | The byte 0x61 is "2g" |
| `Base58Anchors.SpaceExactly` | src/util/strencodings.h:168-170 | The six characters skipped around a string |
| `Base58Codec.EncodeBase58` | src/base58.cpp:87-125 | The loops compute the encoding, every assert holding |
| `Base58Codec.DecodeBase58` | src/base58.cpp:38-85 | The loops compute the decoding with its limit, every assert holding, nothing for every malformed string |
| `CompactBlocks.Partition` | src/blockencodings.cpp:61-77 | For an accepted message the prefilled positions strictly increase and, with those of the short ids, are each index of the block exactly once |
| `BlockRebuild.Rebuilds` | src/blockencodings.cpp:50-203 | If no available transaction matches a different one of the block, the slots hold only transactions of the block, and the missing ones in order complete it to exactly the block |
| `BlockRebuild.CompactedEncodes` | src/blockencodings.cpp:20-30 | The message made from a block of at most 65535 transactions stands for it, with exactly the first one sent in full |
| `BlockMatches.AcceptedExactly` | src/blockencodings.cpp:50-105 | A message is accepted if and only if it has a header and a transaction, the object is unused, every transaction sent in full is not null and leaves no slot before it without a short id, no two short ids are the same and no bucket is crowded; it fails, rather than being invalid, exactly for one of the last two |
| `BlockMatches.CompactedAccepted` | src/blockencodings.cpp:50-105 | The message made from a block is accepted by an unused object unless short ids collide or crowd |
| `BlockMatches.FillExactly` | src/blockencodings.cpp:60-76 | The transactions sent in full are all taken if and only if each is not null and at a position within 65535 and the transactions known up to there |
| `BlockMatches.SlotsFilledExactly` | src/blockencodings.cpp:107-168 | If no available transaction is mistaken for another, a slot is filled if and only if its transaction was sent in full, is in the mempool or is among the extra ones, in spite of the early exits |
| `BlockMatches.SecondMatchEmpties` | src/blockencodings.cpp:118-162 | A second match, except of the same transaction among the extra ones, empties the slot, and nothing offered later fills it |
| `BlockMatches.AssembleExactly` | src/blockencodings.cpp:187-203 | The block can be completed if and only if there are at least as many transactions as empty slots; then filled slots give their own and the k-th empty one takes the k-th |
| `BlockRebuild.AssembleMissing` | src/blockencodings.cpp:187-203 | Slots that agree with a block and its missing transactions give the block |
| `BlockRebuild.CountIsExact` | src/blockencodings.cpp:110-168 | The count of transactions found is the number of short ids whose slot is filled |
| `CompactBlocks.IdMapExact` | src/blockencodings.cpp:82-105 | If the map has as many entries as there are short ids, each is mapped to its own slot |
| `PartialBlock.PartiallyDownloadedBlock.InitData` | src/blockencodings.cpp:50-170 | The status and the whole state left behind, on every path, all accesses in bounds |
| `PartialBlock.PartiallyDownloadedBlock.FillBlock` | src/blockencodings.cpp:180-225 | Every transaction in its place, the object spent, the status of each failure, and the slots already emptied when a transaction is still missing |

## Left out

- Select_ and GetChance of the address manager: the acceptance probability is floating point and termination holds only with probability one.
- GetEntries_, FindAddressEntry_, Size_ and GetEntry of the address manager: thin read-only views.
- The byte layout of the address file: the stream is a sequence of typed items, so the encodings of numbers, addresses and the hash that wraps the file are not captured; reading the formats before deterministic bucketing is.
- EmplaceCoinInternalDANGER, CCoinsViewErrorCatcher, cursors, AccessCoin, HaveInputs and ReallocateCache: an unchecked snapshot path and thin wrappers.
- The return value of SpendCoin is modelled as the coin moved out; that it is true for some coins already spent is kept, not claimed away.
- The stop request and the destructor of the verification queue, and the memory model below its mutex: threads run forever and a critical section is one step.
- Fairness of the scheduler: `WaitIsBounded` and `WaitNeverStuck` bound the work and exclude deadlock, but that every thread eventually runs is not modelled.
- Erasing from several threads at once in the cuckoo cache, which only sets flags: the model runs one operation at a time.
- setup_bytes of the cuckoo cache, getdouble, the hexadecimal text forms and the bitwise assignments of base_uint: thin views of what is modelled.
- GetBlockProofEquivalentTime, locators, FindEarliestAtLeast and median times of the block tree: thin views of the chain.
- LocateErrors and the tables of GF(1024) of Bech32, and its claim to detect any four errors in 89 characters, which rests on a search over all codes: any three errors within 1023 symbols and all bursts of six are proved.
- Base58Check: a thin wrapper whose four bytes come from the hash.
- The serialization of compact-block messages and of differential indexes: messages are values, with the sixteen-bit bounds that reading them guarantees as a precondition.
- AddrManDisk.ParseRender: reads and writes typed items, because the encoding of each item in bytes is the serialization library's and not the address manager's.
- AddrManStream.Serialize: writes typed items in place of bytes, for the same reason.
- AddrManStream.Unserialize: reads typed items, for the same reason, and does not state what a failed load leaves behind, because the source throws there and its callers discard the object.
- PartialBlock.PartiallyDownloadedBlock.InitData: asks for at most 65535 transactions and sixteen-bit distances, because reading a message guarantees both; the truncation of positions above that is not modelled.
- Addresses and slots reached through pointers: entries are values in maps keyed by id, as in the source, but aliasing of AddrInfo references is not modelled.
