# Vigil collector: a Dafny model of its logic

vigil-collector samples a host once a second, publishes the snapshot to HTTP and WebSocket
clients, and can push it to a hub. This project models the parts of it that decide something and
proves what they promise.

| module | models |
|---|---|
| `Options`, `Text` | an optional value; joined texts and ordered sets of strings |
| `StableSort`, `StreamingTopN` | stable descending sort, and the running top ten with an early stop |
| `Ranking` | what both process tables have in common: hash order, ranking, rows |
| `Processes` | `src/metrics/process.rs`: aggregation by name and the memory table, RSS or PSS |
| `CpuTable` | `src/metrics/process.rs`: the CPU table |
| `Admission`, `Server` | `src/server/worker.rs`, `src/server/ws.rs`: tokens and WebSocket admission |
| `Disks`, `Snapshots` | `src/metrics/disk.rs`, `src/snapshot.rs`: disk usage, and the snapshot every part passes on |
| `SamplerLoop`, `Sampler` | `src/sampler.rs`: slow cadences, tick loop, published slots |
| `Backoff`, `HubSession`, `Flatten`, `Utf8Clip` | `src/hub/client.rs`, `src/hub/flatten.rs` |
| `Pipeline` | the whole way from the process list to the hub's frames |
| `Rates` | `src/metrics/net.rs`, `src/metrics/disk.rs`: rates from counters |
| `Units` | `src/metrics/mod.rs`, `src/metrics/mem.rs`: units, rounding, memory figures |
| `Uptime` | `src/metrics/platform.rs`: the printed uptime |

Concurrent parts are state machines: every list of actions is a run, an action that is not
enabled changes nothing, and the results hold after every run. Objects the collector updates in
place (`AppState`, `SamplerState`, `Sampler`, `NetMeter`, `DiskMeter`) are classes; a ghost field
records the steps they took, and each method is proved to take the machine's step.

Idealisations. Reals and unbounded integers stand for `f64`; rounding, truncation, saturation
and the wrap of the sampler's tick are written out where the program depends on them. A library
`sort_by` is `StableSort.Sort`, which `SortCorrect` shows to be the only list that meets the
documented contract of a stable sort. Hash iteration order is any order. What is read from the
host (process list, PSS readings, counters, clocks) is input.

Where code and text differ, the model follows the code:

- The comment that the busiest process represents a group (`src/metrics/process.rs:265-267`) does
  not hold: the last visited member with positive CPU does (`RepresentativeNeedNotBeBusiest`,
  `RepresentativeIsBusiestIff`), and a busiest one in every hash order only if all busy members are
  equally busy (`AlwaysBusiestIff`).
- `used + free == total` (`README.md:71`) holds in bytes if available ≤ total, and after rounding
  then exactly under `PartsAgree`; with available > total, which the code accepts, exactly if the two
  print alike (`UsedPlusFree`, `UsedPlusFreeCanMiss`).
- The cap on WebSocket clients (`README.md:136`) can be exceeded, by exactly the number of upgrades
  that overlap, less one (`CapacityBound`, `OvershootReached`).
- The comment "2 GiB ceiling" (`src/hub/flatten.rs:5`) stands over the constant 2^41.
- "PSS ≤ RSS" (`src/metrics/process.rs:126`) is a hypothesis about readings taken at different
  moments; `StreamingExactIff` and `BoundIsNeeded` say what happens without it.

## Model

| member | source | states |
|---|---|---|
| Processes.CollectTop | src/metrics/process.rs:123-210 | Whatever order the hash map is drained in: the RSS rows are the first ten of the stable sort; the PSS rows are the table of exactly the groups read before the early stop; for any process table the rows are a true top ten if and only if no group left unread is charged more than the tenth, as is so whenever no PSS reading exceeds its pid's RSS; and a true top ten tells the process list as `TopTenTells` says. |
| Processes.TopTenTells | src/metrics/process.rs:123-225 | From the process list alone, by each process's own name ("unknown" if it has none): at most ten programs, each with the pid of its first process, its users, and the sum of its processes' bytes to within 0.005 MiB, biggest first; one is left out only of ten none of which uses less. |
| Processes.TopTenMeaning | src/metrics/process.rs:158-209 | The reference table without mention of sorting: min(10, groups) rows, distinct, each with its first member's pid, its users in ascending order joined by commas and its charge within 0.005 MiB, memory non-increasing, and no omitted group charged more than a shown one. |
| Processes.StreamTop | src/metrics/process.rs:167-191 | The streaming loop stops at the first group whose RSS does not exceed the tenth PSS so far, and returns the stable top ten of the groups measured until then. |
| Processes.StreamingIsExact | src/metrics/process.rs:167-191 | With PSS ≤ RSS per pid, the early stop gives the same table as reading every PSS, ties included. |
| Processes.StreamingExactIff | src/metrics/process.rs:167-191 | For any process table and any readings, PSS above RSS included: the early stop gives the table of all groups if and only if no group left unread is charged more than the tenth of those read. |
| Processes.StreamedTableIff | src/metrics/process.rs:167-209 | The rows shown after the early stop are a true top ten if and only if that holds. |
| Processes.CollectedRanks | src/metrics/process.rs:123-210 | The same of any rows `collect_top` can yield, by RSS or PSS: a true top ten if and only if no group was missed, and the rows of the whole list whenever no PSS reading exceeds its pid's RSS. |
| Processes.BoundIsNeeded | src/metrics/process.rs:126-127 | Eleven processes and their readings, one PSS above its RSS, for which the early stop misses the largest process in every hash order. |
| Processes.PssReadsAreFew | src/metrics/process.rs:171-179 | With a full table, every group whose RSS exceeds the tenth PSS was read, and beyond the first ten only groups whose RSS reaches it. |
| StreamingTopN.StreamExact | src/metrics/process.rs:169-191 | For any candidates in descending order of a bound on their measured value, stopping early equals sorting everything and keeping ten. |
| StreamingTopN.StreamExactIff | src/metrics/process.rs:169-191 | With no hypothesis on the readings: the shortcut is exact if and only if no unmeasured item exceeds the table's tenth value. |
| StreamingTopN.BoundIsNeeded | src/metrics/process.rs:126-127 | The same on abstract items: one measured value exceeds its bound and the shortcut misses the largest. |
| StreamingTopN.ReadsExactly | src/metrics/process.rs:176-179 | The first ten are measured, then each whose bound exceeds the tenth value so far, up to the first whose bound does not. |
| StreamingTopN.ReadsAreFew | src/metrics/process.rs:171-179 | Items measured beyond the first ten all have bounds that reach the final tenth value; items with bounds above it are all measured. |
| StreamingTopN.ReadsAreNeeded | src/metrics/process.rs:171-179 | No method could skip those reads: for each item whose bound exceeds the tenth value, another admissible value of that item alone changes the table. |
| StreamingTopN.PushSortPop | src/metrics/process.rs:181-189 | Push, stable sort and pop of an eleventh is one step of "stable sort of everything so far, cut to ten". |
| StreamingTopN.TableIsTop | src/metrics/process.rs:165-195 | A table holds min(10, n) items and none outside beats any inside. |
| StableSort.SortCorrect | src/metrics/process.rs:159-163 | A list is ordered descending with ties in their original order if and only if it is the one `Sort` computes. |
| StableSort.SortIsStable | src/metrics/process.rs:159-163 | The sort orders, keeps ties in order and keeps every element. |
| StableSort.TakeInsert | src/metrics/process.rs:181-189 | Cutting a sorted list to n before an insertion loses nothing that cutting after it keeps. |
| Processes.AggregateByName | src/metrics/process.rs:128-156 | One group for each name some non-thread process has ("unknown" for the nameless), and no other; its pids, RSS and ordered set of users are those of exactly the processes of that name, in visiting order. |
| Processes.GroupsByName | src/metrics/process.rs:218-225 | The same of the groups by definition, told without display names: two programs share a group only if they share a name. |
| Processes.EachPidInOneGroup | src/metrics/process.rs:130-152 | A pid lies in the group of its display name if it is not a thread, and in no other group. |
| Processes.GroupsConserveMemory | src/metrics/process.rs:142-151 | Over any listing of the names, group RSS adds up to the RSS of all non-thread processes. |
| Processes.RankedValuesIgnoreHashOrder | src/metrics/process.rs:128-163 | Two listings of the same processes, drained in any two orders, rank the same memory values in the same places, by RSS and by PSS. |
| Processes.GroupPss | src/metrics/process.rs:108-121 | Adding with saturation pid by pid, falling back to RSS where PSS is unreadable, gives the saturated total. |
| Processes.GroupPssWithinRss | src/metrics/process.rs:108-121 | If each readable PSS is at most that pid's RSS, each group's PSS is at most its RSS. |
| Ranking.HashOrder | src/metrics/process.rs:158 | Draining the map lists every key once, in no particular order. |
| Ranking.TableRanks | src/metrics/process.rs:158-209 | For either table: the first ten of a stable sort of all groups by their charge are a top ten of the charges. |
| Ranking.CutRanksIff | src/metrics/process.rs:167-191 | Looking only at the first n groups gives a top ten exactly if no other group would have entered. |
| Text.InsertedAscends | src/metrics/process.rs:153-155 | The ordered set of users stays ascending and gains exactly the inserted name. |
| Text.AscendingUnique | src/metrics/process.rs:202-206 | An ascending listing is determined by its members, so a row's user text is determined by the group. |
| Text.BeforeTells | src/metrics/process.rs:14 | The order is that of a dictionary: a proper prefix comes first, else the first difference decides. |
| Text.JoinTells | src/metrics/process.rs:202-206 | Pieces are joined one after the other, a comma and a space between any two. |
| CpuTable.CollectTopCpu | src/metrics/process.rs:245-298 | The rows are the first ten of the stable descending sort of group CPU sums, and with non-zero pids a true top ten. |
| CpuTable.TopTenTells | src/metrics/process.rs:245-298 | From the process list alone: at most ten programs, each with the pid of its last busy process (or its first), its users and its CPU to within 0.005, biggest first; one is left out only of ten none of which uses less. |
| CpuTable.TopTenMeaning | src/metrics/process.rs:276-298 | The CPU table without mention of sorting: distinct groups, each with the pid of its last busy member (or its first if none is busy), its users in ascending order joined by commas and its sum within 0.005, non-increasing, none omitted that beats one shown. |
| CpuTable.AggregateByName | src/metrics/process.rs:246-274 | One group for each name some non-thread process has; its CPU and users are those of exactly the processes of that name, its pid that of the last busy one or else the first. |
| CpuTable.KeptMember | src/metrics/process.rs:265-270 | With non-zero pids the kept pid is that of the last member with positive CPU, or else of the first member. |
| CpuTable.KeptRepresents | src/metrics/process.rs:265-270 | The same among all processes visited: the last busy one with the group's name, or else the first with that name. |
| CpuTable.RepresentativeIsMember | src/metrics/process.rs:265-270 | Each representative is a member of its group, with positive CPU whenever any member has it. |
| CpuTable.RepresentativeIsBusiestIff | src/metrics/process.rs:265-270 | The representative is a busiest member exactly when every busy member that follows a busier one is followed by yet another busy one. |
| CpuTable.AlwaysBusiestIff | src/metrics/process.rs:265-270 | The representative is a busiest member under every visiting order exactly when all members with positive CPU have the same. |
| CpuTable.RepresentativeNeedNotBeBusiest | src/metrics/process.rs:265-270 | 90 % visited before 1 %: the 1 % process is kept. |
| CpuTable.ColumnDescends | src/metrics/process.rs:296 | Rounding to two decimals never turns the column around. |
| Admission.CapacityBound | src/server/ws.rs:32-45 | After every run the counter equals the number of sessions between increment and decrement, sessions plus upgrades under way are at most max + max(P − 1, 0) for P the peak number of overlapping upgrades, and each connection past the token check consumed one claim. |
| Admission.CapHoldsWithoutOverlap | src/server/ws.rs:32-45 | If no two upgrades ever overlapped, the counter stays within the cap. |
| Admission.CapIff | src/server/ws.rs:32-45 | For every cap and every p: all runs with overlap at most p keep the cap if and only if p ≤ 1, or the cap is zero. |
| Admission.OvershootReached | src/server/ws.rs:32-45 | For every cap ≥ 1 and every P ≥ 1 some run, with a fresh token for each connection, has exactly max + P − 1 sessions. |
| Admission.TokensAccounted | src/server/worker.rs:28-47 | After every run, for any ids: claims plus pending never exceed issues, per id and in total; each pending id has an expiry task to come; tasks run no earlier than 5 s; and an id issued once is pending exactly until claimed or expired. |
| Admission.FreshTokenClaim | src/server/worker.rs:28-47 | For an id issued once: a first claim within 5 s succeeds, and after its expiry or its claim every claim is refused. |
| Admission.ReissuedTokenDiesEarly | src/server/worker.rs:33-39 | Freshness is needed: if an id were drawn twice, the first expiry task would remove the second token. |
| Admission.AdmissionsWithinTokens | src/server/ws.rs:25-39 | Connections ever admitted never outnumber issued tokens. |
| Admission.DrainedWhenAllFired | src/server/worker.rs:33-39 | When every expiry task has run, nothing is pending. |
| Admission.RegistryDrains | src/server/worker.rs:33-39 | From any reachable state, five seconds and the outstanding tasks empty the registry. |
| Server.AppState.Issue | src/server/worker.rs:28-41 | Inserts the id and changes nothing else, as the protocol's step. |
| Server.AppState.Expire | src/server/worker.rs:33-39 | Removes the id if it is still there, as the protocol's step. |
| Server.AppState.Claim | src/server/ws.rs:21-31 | 400 without an id, 403 for an id not pending, otherwise the token is consumed. |
| Server.AppState.CheckCapacity | src/server/ws.rs:32-39 | 503 at or above the cap, otherwise admitted; the counter is read and not raised. |
| Server.AppState.StartSession | src/server/ws.rs:42-43 | Raises the counter by one, and the overshoot bound holds on the stored counter. |
| Server.AppState.EndSession | src/server/ws.rs:45 | Lowers the counter by one, never below zero. |
| SamplerLoop.SnapshotIsFresh | src/sampler.rs:95-119 | However many refreshes, wrap of the 64-bit tick included: the process fields and frequencies come from the last due scan, at most 4 refreshes earlier, the disks from the last due mount table, at most 59 earlier, measured now; the rates are those of their own counters' histories, and the rest is from this refresh. |
| SamplerLoop.PublishedIsFresh | src/sampler.rs:95-119 | All of that for every generation ever published, across failed ticks and rebuilt states, on the one state that built it. |
| SamplerLoop.SlotsAgree | src/sampler.rs:169-179 | At every moment, whatever views fail to encode: the snapshot slot is never behind its turn; http ≥ ws ≥ network ≥ snapshot ≥ http − 1 if the newest view of each buffer was encoded; and while the task is suspended all four are equal exactly in that case. |
| SamplerLoop.BufferLags | src/sampler.rs:169-179 | Each buffer is at most at its turn's generation, and behind it exactly while its newest view failed to encode. |
| SamplerLoop.SlotsNeverGoBack | src/sampler.rs:248-260 | No slot's generation decreases over any run, whatever ticks or encodings fail. |
| SamplerLoop.LaterBufferIsNoOlder | src/sampler.rs:169-179 | A buffer loaded after a snapshot is never older than it if the newest view of each buffer was encoded, and, while the task is suspended, only then. |
| SamplerLoop.StatePresentWhenTaken | src/sampler.rs:241-260 | The loop always holds its state when it wakes. |
| SamplerLoop.LoopRuns | src/sampler.rs:232-262 | At every moment exactly one of the loop and the refresh holds the state, the loop while it sleeps or publishes; no slot is ahead of what was built, and the snapshot slot is behind only until its store. |
| SamplerLoop.PublishedRatesTrack | src/sampler.rs:121-127 | Through the whole sampler: every network and disk rate a state publishes, times the time it stands for, adds up to the growth of the counter it read to within half a unit a second, apart from what a u64 rate cannot hold. |
| Sampler.SamplerState.Refresh | src/sampler.rs:73-147 | One refresh in place yields the snapshot the cadences, both process tables, memory, disk usage and both rate meters prescribe for the state's whole history. |
| Sampler.SamplerState.RunScan | src/sampler.rs:95-108 | One scan fills both process tables with the rows `collect_top` and `collect_top_cpu` yield for this process list, with the label of the meter used, and the frequencies. |
| Sampler.Sampler.Tick | src/sampler.rs:233-261 | A tick that succeeds stores one new snapshot and, in each buffer, its view if that encodes, which tells the new reading field by field, and otherwise what was there; one that fails leaves all four as they were and a fresh state in place. |
| Sampler.Sampler.Publish | src/sampler.rs:169-179 | Each buffer becomes the view of the snapshot, each field in its own place, or stays as it was if that view fails to encode. |
| Sampler.BufferIsFresh | src/snapshot.rs:161-196 | Whatever generation a buffer holds, field by field: its memory table, metric, CPU table and frequencies are those of the last scan, its memory, CPU figures and rates those of the last refresh, its disks those of the last mount table, and the network buffer has the last reading's interfaces. |
| Sampler.Sampler.constructor | src/sampler.rs:190-229 | Before the task is spawned, one refresh has been published to every slot whose view encodes. |
| Sampler.SamplerState.constructor | src/sampler.rs:45-71 | A fresh state has tick 0 and no scan. |
| Backoff.Supervise | src/hub/client.rs:97-120 | The pause after attempt j is min(30, 1.7^(j − j0)), j0 the latest attempt that ended Ok or the first. |
| Backoff.PausesBehave | src/hub/client.rs:97-120 | Pauses lie in [1, 30], are 1 after a success, never shrink over failures, and are 30 exactly from the seventh after a reset. |
| HubSession.ConnectAndPush | src/hub/client.rs:123-186 | What is sent is a prefix of this machine's hello, each fact in its own field, and the rounds' frames; nothing without a connection, only the hello without a welcome, after a welcome the hello and one push-loop outcome, and everything if nothing fails. Every sleep is the interval the hub named, else the sampler's, and 0.1 s if that is less. |
| HubSession.PushLoop | src/hub/client.rs:188-277 | Whole rounds go out in order, a sleep of the interval asked for after each, each but the last slept in full; then either the next round stops at its first failed send, with an error, or the last wait decides how it ends. |
| HubSession.OutcomeIsUnique | src/hub/client.rs:188-277 | That outcome is determined by the environment: which frames get out and how the loop ends leave no choice. |
| HubSession.SendRound | src/hub/client.rs:206-261 | samples always, processes and processes_cpu when there are any, up to exactly the first failed send; it succeeds if and only if every frame's send does. |
| HubSession.Wait | src/hub/client.rs:263-275 | The first message that is not drained decides: the sleep went its length exactly if that is its end, and a stop, a close or an error ends the loop; if there is none the wait goes on. |
| HubSession.SentIsWellOrdered | src/hub/client.rs:142-277 | Cut anywhere, the trace follows hello (samples processes? processes_cpu?)*, with one timestamp a round. |
| HubSession.SentTellsSnapshots | src/hub/client.rs:200-261 | Every frame after the hello tells one round's snapshot: at most 25 rows in its order, names cut to at most 256 bytes at a character boundary, memory in whole bytes up to 2^41. |
| Pipeline.HubIsToldTheTruth | src/hub/client.rs:200-261 | End to end, through failed ticks and rebuilt states: every frame after the hello tells the generation its round loaded; the metrics are the host's readings as `FreshMetrics` says, and the process tables those `collect_top` and `collect_top_cpu` collected from the last scan, at most 4 refreshes earlier; each a true top ten of the process list if PSS stayed within RSS, or no pid is zero. |
| Pipeline.FreshMetrics | src/hub/flatten.rs:17-81 | From the host's reading to the hub's keys: mem.used_bytes is total − available, and mem.total_bytes, mem.free_bytes and each mount's total and used bytes are the host's, cut at 2^41, to within 5368710 bytes; percentages to within 0.05; CPU, loads, temperature and frequency under their own keys; every rate the last of its own counter's history; each mount by the last entry of the mount table that is heard of. |
| Pipeline.RoundsNeverGoBack | src/hub/client.rs:201 | No round tells an older snapshot than a round before it. |
| Utf8Clip.Clip | src/hub/client.rs:279-292 | On valid UTF-8 (section 4 of RFC 3629): the longest valid prefix of at most `max` bytes, the whole string if it fits, otherwise at most 3 bytes short of `max`. |
| Utf8Clip.BoundaryIffValid | src/hub/client.rs:287-290 | A cut of valid text leaves valid text exactly at a character boundary. |
| Utf8Clip.BoundaryNear | src/hub/client.rs:287-289 | A boundary lies within three bytes below any position. |
| Utf8Clip.Utf8Valid | src/hub/client.rs:279-292 | The bytes of any text (section 3 of RFC 3629) are valid, which is what `Clip` needs. |
| Utf8Clip.ValidIffText | src/hub/client.rs:279-292 | Bytes are valid exactly if they are the encoding of some text. |
| Utf8Clip.Utf8Injective | src/hub/client.rs:279-292 | The bytes of a text determine it. |
| Flatten.Flatten | src/hub/flatten.rs:17-81 | The inserts, in the source's order, build the map of exactly the metrics that have a value: each literal key carries its own field of the snapshot, and each mount's three keys the figures of its last disk. |
| Flatten.FlatMeaning | src/hub/flatten.rs:17-81 | A metric's key is in the map exactly if the metric has a value, with that value: undimensioned ones under their condition, a mount's three exactly if it is admitted and some disk has it, from the last such disk; and there are no other keys. |
| Flatten.NothingElseIsTold | src/hub/flatten.rs:17-81 | No key occurs besides the sixteen undimensioned ones and the three of each mount that is not left out. |
| Flatten.KeysInjective | src/hub/flatten.rs:21-77 | Two metrics share a key only if they are the same metric, of the same mount if it has one. |
| Flatten.FlatSizes | src/hub/flatten.rs:7-13 | The map is never empty and every memory or disk size in it is between 0 and 2^41. |
| Rates.RatesTrackGrowth | src/metrics/net.rs:28-40 | Over any run, counter drops, failed readings and saturated rates included, the sum of rate times elapsed plus what the casts to u64 cut off differs from the counted growth by at most half the elapsed time; so it never overstates it by more, and matches it if the rates fit. |
| Rates.RatesTrackCounter | src/metrics/disk.rs:248-274 | For a counter that never drops and readings at advancing times, that sum differs from last minus first by at most half the time between them. |
| Rates.ClippedIffNotFits | src/metrics/net.rs:37-40 | What the casts cut off is never negative, and zero exactly when every rate fits u64. |
| Rates.GrowthConserved | src/metrics/net.rs:28-40 | For a counter that never drops, last minus first is the counted growth plus what came between readings at the same instant. |
| Rates.SameInstantIsMissed | src/metrics/net.rs:34-36 | Growth between two readings at one instant is never reported. |
| Rates.Totals | src/metrics/net.rs:18-27 | Both totals over every interface but loopback, saturated, as `OneMoreInterface` says. |
| Rates.OneMoreInterface | src/metrics/net.rs:18-27 | Wherever it stands in the list, "lo" adds to neither total, and any other interface adds what it received to the first and what it sent to the second, until a u64 is full. |
| Rates.LoopbackIsIgnored | src/metrics/net.rs:21-24 | Dropping every "lo" from the list changes neither total. |
| Rates.NetMeter.CollectThroughput | src/metrics/net.rs:18-41 | The reported pair is the last rate of each of the two counters' histories: zero on the first reading and at no later time, else each rate the whole number nearest its own counter's growth over the time, as far as a u64 holds it. |
| Disks.PercentInRange | src/metrics/disk.rs:29-84 | For any statvfs answer or fallback, a disk is 0 to 100 percent full if and only if used + free does not wrap in a u64, or the wrapped sum is 0 or above 2000/2001 of used (an excess the rounding hides). |
| Disks.PercentCanOverflow | src/metrics/disk.rs:47 | 2^63 bytes used and 2^63 + 1 free wrap to 1: more than 100 percent. |
| Disks.StatTells | src/metrics/disk.rs:29-54 | With an answer from statvfs: total, used (what is not free) and free (what is available) to within 0.005 GiB and the percentage of used in used + free to within 0.05, with the source's saturation and wrap. |
| Disks.FallbackTells | src/metrics/disk.rs:69-83 | Without one: the mount table's own figures. |
| Disks.DisksInOrder | src/metrics/disk.rs:106-147 | The list is made mount by mount, in order: one disk for each of a device whose type is not a nodev one, none for the others. |
| Disks.ShowsPhysical | src/metrics/disk.rs:106-147 | A disk is shown exactly if it is a mount of a device whose filesystem type is not a nodev one, with its usage. |
| Disks.RootIsFound | src/metrics/disk.rs:86-104 | The root figures are those of the first mount at "/" if there is one, and of the first mount otherwise. |
| Rates.DiskMeter.CollectIo | src/metrics/disk.rs:248-275 | All four figures are the last rates of their own counters' histories, each nearest its growth over the time; a failed read reports zeros and keeps the previous reading. |
| Rates.LastRateTells | src/metrics/net.rs:30-40 | The rate after any history: zero if this reading failed, none before succeeded or no time passed, else the nearest whole number to the growth, a drop counting as none, over the time since the last that succeeded. |
| Units.BytesThroughGib | src/metrics/mod.rs:10-17 | Bytes to two-decimal GiB and back differ by at most 5368710 from the bytes cut at 2^41. |
| Units.GibThroughBytes | src/hub/flatten.rs:10-13 | Every two-decimal figure up to 2048 GiB survives conversion to bytes and back. |
| Units.UsedPlusFree | src/metrics/mem.rs:13-26 | For any two readings, rounded used + free equals rounded total exactly when, with available ≤ total, the parts below a hundredth round in agreement (and it is then never off by more than 0.01), and with available > total, the two print alike. |
| Units.UsedPlusFreeCanMiss | src/metrics/mem.rs:8-12 | 5 MiB used of 10 MiB prints 0 + 0 against 0.01; 2 GiB available of 1 GiB prints 0 + 2 against 1. |
| Units.MemPercentInRange | src/metrics/mem.rs:15-20 | The percentage stays within 0 to 100 for any two readings. |
| Units.MemTells | src/metrics/mem.rs:13-26 | Total, used (total − available, or nothing) and free are those of the readings to within 0.005 GiB, and the percentage that of used in total to within 0.05. |
| Units.GibToBytesFloors | src/hub/flatten.rs:10-13 | Whole bytes never above the figure and within one of it, cut at 2^41 and at 0. |
| Units.RoundHalfAway | src/metrics/mod.rs:15-22 | Rounding is to the nearest, a half away from zero. |
| Units.Round2Nearest | src/metrics/mod.rs:15-17 | Two-decimal rounding is within 0.005 and monotone. |
| Uptime.FormatUptime | src/metrics/platform.rs:50-83 | The printed text says days, hours below 24, minutes below 60 and seconds below 60 that make up the total: decimal numbers without leading zeros, each with its own word, in the plural unless it is 1, zero ones omitted, joined by commas. |
| Uptime.UptimeInjective | src/metrics/platform.rs:50-83 | Two uptimes print alike only if equal, for every natural number of seconds; only 0 prints nothing. |
| Uptime.PartsAddUp | src/metrics/platform.rs:54-59 | The parts add up to the total. |

## Left out

- CollectTop: whether PSS is used (`detect_pss`) is an input; f64 rounding error and NaN ordering are not modelled.
- Claim: the counter and the phases are unbounded; the 64-bit width of `active_ws` is not modelled.
- StartSession: the frames a WebSocket session pushes (`push_loop` in `src/server/ws.rs`) are not modelled.
- Issue: how an id is drawn is not modelled; an id is any string, and freshness is a hypothesis only where a result says so.
- Refresh: CPU usage, load and temperature are values read from the host; user, platform, uptime text and core count are one value.
- Tick: a failed refresh is an outcome of the join; release builds abort on panic (`Cargo.toml:57`).
- Supervise: durations are exact reals, without rounding to nanoseconds; a stop is the end of the list of attempts.
- ConnectAndPush: frames are values, not JSON text, without the constant version and type tags of the later ones; NaN as an interval is not modelled.
- CollectIo: parsing `/proc/diskstats`, `/sys/block` and `/proc/filesystems` is input; so are statvfs results.
- CollectThroughput: per-interface statistics are the interfaces' counters, unconverted; dropped-packet counts are not modelled; counter totals are unbounded before they are saturated.
- HTTP routes, probes, settings, logging, CLI and signals are not part of this model.
