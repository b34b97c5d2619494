# Beam & Flink 101: a model of the simulator's state logic

The site teaches Apache Beam and Apache Flink with animated, client-only
pages. Three of its components hold logic that can be stated exactly, and this
project models them:

- **Cluster simulator** (`cluster.dfy`, module `Cluster`). Three sliders set the
  parallelism, the number of TaskManagers and the slots per TaskManager. A
  rebuild lays out the TaskManagers with idle slots. While a job is processing,
  each tick fills slots greedily in (TaskManager, slot) order until
  `parallelism` tasks are placed, and computes each TaskManager's load as
  `min(100, occupied / slotsPerTM * 60 + noise)`. Stopping clears every slot
  and load. A backpressure alert shows when the parallelism exceeds the slot
  total. The component state is the class `Simulator`. The tick is the method
  `Tick`. Its per-TaskManager callback is `FillTm`, which runs the source's
  inner loop over a copied array. Both are proved against the pure
  specification `TickAll`, and the lemmas state what the tick promises about
  that specification.
- **Glossary search** (`glossary.dfy`, module `Glossary`). A fixed table of 13
  terms, filtered by a case-insensitive substring match that keeps the table's
  order. The filter is pure, so it is modelled as functions and lemmas.
- **Frame-size lesson** (`frame.dfy`, module `FrameSize`). The slider picks an
  object size in MB. "Send Record" makes the packet explode iff the size is
  strictly above the 10 MB limit. Moving the slider resets the explosion. The
  state is the class `FrameLesson`. The packet box size is computed by pure
  functions.

The simulator's comment calls its slot fill "round-robin". The loop the code
runs is a greedy fill: it fills every slot of the first TaskManager before it
moves to the second. The model follows the code.

Two consequences are proved. With the configured slot count on every
TaskManager, a load never reaches the cap of 100: it stays below 60 + 20 = 80
(`TickLoadBounds`). A tick never records the tasks beyond capacity
(`TickBusyCount`). The alert says "Tasks will wait", but no state holds
waiting tasks.

The class invariant `Simulator.Valid` also says that, while no job is
processing, every slot is idle and every load is 0. The "Idle" label relies on
this. Every transition keeps it, and so a re-run of the stop branch never
changes a stopped cluster.

## Model

| member | source | states |
|---|---|---|
| Cluster.Simulator.constructor | components/sections/FlinkSimulator.tsx:12-35 | initial sliders 4 / 2 / 2, not processing, and the cluster both effects leave on mount: two TaskManagers of two idle slots |
| Cluster.Simulator.Rebuild | components/sections/FlinkSimulator.tsx:19-29 | exactly `tmCount` TaskManagers, TaskManager t has id t, `slotsPerTM` idle slots and load 0; the state is valid afterwards |
| Cluster.FreshCluster | components/sections/FlinkSimulator.tsx:20-27 | the rebuilt list has the configured shape (count, ids 0..n-1, slot counts) and no busy slot |
| Cluster.FreshClusterAt | components/sections/FlinkSimulator.tsx:21-26 | entry t of the rebuilt list is TaskManager(t, all-false slots, load 0) |
| Cluster.Simulator.Stop | components/sections/FlinkSimulator.tsx:33-35 | the new list is the clearing of the old: shape unchanged, every slot idle, every load 0, no busy slot; the state is valid afterwards |
| Cluster.Cleared | components/sections/FlinkSimulator.tsx:34 | the stop map: same count, ids and slot counts, every flag false, every load 0, and no busy slot |
| Cluster.ClearedSpec | components/sections/FlinkSimulator.tsx:34 | entry t of the clearing is entry t with only its flags and load reset (`...tm` keeps the rest); clearing is idempotent and leaves an already idle cluster unchanged |
| Cluster.ClearedFresh | components/sections/FlinkSimulator.tsx:19-35 | clearing a freshly rebuilt cluster changes nothing, so the stop branch that runs after a rebuild leaves the fresh layout |
| Cluster.FillTm | components/sections/FlinkSimulator.tsx:41-64 | the callback overwrites every slot: the first `remaining` slots become busy, the rest idle; it returns the tasks left and the capped load |
| Cluster.TickLoad | components/sections/FlinkSimulator.tsx:57-63 | the load is min(100, occupied/slotsPerTM*60 + noise): never above either term, and equal to one of them |
| Cluster.TickTm | components/sections/FlinkSimulator.tsx:41-64 | the callback's result for one TaskManager keeps its id and slot count, occupies min(slot count, remaining) slots, and takes its load from its own busy count |
| Cluster.TickAll | components/sections/FlinkSimulator.tsx:39-66 | the whole tick: one result per TaskManager, and never more busy slots in total than the tasks to place |
| Cluster.TickList | components/sections/FlinkSimulator.tsx:39-66 | the updater's `prev.map` loop, threading `remainingTasks` through the callback in TaskManager order, computes exactly the tick specification |
| Cluster.Simulator.Tick | components/sections/FlinkSimulator.tsx:38-66 | the new list is the tick specification of the old; shape kept; min(parallelism, tmCount*slotsPerTM) busy slots; slot i of TaskManager t busy iff t*slotsPerTM+i < parallelism; every load in [0, 80) |
| Cluster.CountFill | components/sections/FlinkSimulator.tsx:46-54 | the inner loop occupies min(slot count, remaining) slots |
| Cluster.TickBusyCount | components/sections/FlinkSimulator.tsx:40-54 | the busy slots over the cluster equal min(parallelism, total slot count); tasks beyond capacity are recorded nowhere |
| Cluster.TickPrefix | components/sections/FlinkSimulator.tsx:40-54 | with k slots per TaskManager, slot i of TaskManager t is busy iff t*k + i < parallelism |
| Cluster.TickPreservesShape | components/sections/FlinkSimulator.tsx:41-64 | a tick keeps the number of TaskManagers, each id and each slot count |
| Cluster.TickIdempotent | components/sections/FlinkSimulator.tsx:42-63 | a tick does not depend on prior flags or loads: ticking twice equals ticking once with the second noise |
| Cluster.TickIgnoresOccupancy | components/sections/FlinkSimulator.tsx:42-54 | ticking a cleared cluster gives the same result as ticking the cluster in any occupancy |
| Cluster.TickLoadBounds | components/sections/FlinkSimulator.tsx:43-63 | per TaskManager, busy count <= slot count; load = min(100, busy/slotsPerTM*60 + noise) in [0, 100]; with uniform slots the cap is not reached and load < 80 |
| Cluster.TickOnCluster | components/sections/FlinkSimulator.tsx:40-64 | on a rebuilt cluster a tick keeps the configured shape and yields the count, prefix and load facts together |
| Cluster.TotalSlots | components/sections/FlinkSimulator.tsx:72 | the product tmCount*slotsPerTM is 0 only without TaskManagers or slots, and lies in 1..32 on the slider ranges |
| Cluster.IsOverprovisioned | components/sections/FlinkSimulator.tsx:73 | the alert condition parallelism > total slots; on the slider ranges it can never hold once there are 16 or more slots |
| Cluster.UniformTotal | components/sections/FlinkSimulator.tsx:72 | a cluster of TaskManagers with k slots each has (number of TaskManagers) * k slots, the `totalSlots` product |
| Cluster.OverprovisionedExample | components/sections/FlinkSimulator.tsx:72-73 | parallelism 10 on 2 TaskManagers of 2 slots raises the alert; the initial 4 / 2 / 2 does not |
| Cluster.OverprovisionedIffUnplaced | components/sections/FlinkSimulator.tsx:40-73 | the alert condition parallelism > tmCount*slotsPerTM holds iff a tick places fewer than `parallelism` tasks |
| Cluster.Simulator.SetParallelism | components/sections/FlinkSimulator.tsx:89-92 | sets parallelism; the cluster is unchanged, because a re-run of the load effect while stopped clears an already idle cluster and while processing only restarts the interval |
| Cluster.Simulator.SetTaskManagers | components/sections/FlinkSimulator.tsx:105-108 | sets tmCount; a real change makes the cluster the fresh layout for the new count, a set to the current value changes nothing |
| Cluster.Simulator.SetSlotsPerTM | components/sections/FlinkSimulator.tsx:115-118 | sets slotsPerTM; a real change makes the cluster the fresh layout for the new slot count, a set to the current value changes nothing |
| Cluster.Simulator.ToggleProcessing | components/sections/FlinkSimulator.tsx:125-126 | flips processing; stopping clears the cluster so no slot is busy, starting leaves it until the first tick |
| Glossary.Filter | components/sections/Glossary.tsx:32 | the `filteredTerms` list: never longer than the table, and every listed term matches the query |
| Glossary.Matches | components/sections/Glossary.tsx:32 | a term matches iff its lower-cased name has the lower-cased query at some offset |
| Glossary.LowerStr | components/sections/Glossary.tsx:32 | lower-casing keeps the length and lower-cases each character in place |
| Glossary.Contains | components/sections/Glossary.tsx:32 | the `includes` test: the empty needle is found in every name, and a found needle is no longer than the name |
| Glossary.FilterKeepsOrder | components/sections/Glossary.tsx:32 | the filtered list is a subsequence of the table: entries from the table, in table order |
| Glossary.FilterSoundComplete | components/sections/Glossary.tsx:32 | a term is listed iff it is in the table and its lower-cased name contains the lower-cased query |
| Glossary.FilterEmptyQuery | components/sections/Glossary.tsx:29-32 | the empty query (the initial search box) lists the whole table |
| Glossary.FilterCaseInsensitive | components/sections/Glossary.tsx:32 | queries that differ only in letter case list the same terms |
| Glossary.FilterLowerQuery | components/sections/Glossary.tsx:32 | lower-casing the query first does not change the result |
| Glossary.LowerStrIdempotent | components/sections/Glossary.tsx:32 | lower-casing twice is lower-casing once |
| Glossary.Lower | components/sections/Glossary.tsx:32 | capitals map to the letter 32 code points up, everything else is kept, and no capital is left |
| Glossary.ContainsIffOccurs | components/sections/Glossary.tsx:32 | the substring search succeeds iff the needle occurs at some offset of the name |
| Glossary.ContainsOccurs | components/sections/Glossary.tsx:32 | a successful search yields an offset where the needle occurs |
| Glossary.OccursContains | components/sections/Glossary.tsx:32 | a needle occurring at any offset is found |
| Glossary.TermIdsDistinct | components/sections/Glossary.tsx:12-26 | the table's 13 ids are pairwise distinct |
| Glossary.FilteredIdsDistinct | components/sections/Glossary.tsx:54-62 | for every query the listed ids are pairwise distinct, so the id-based highlight marks at most one entry |
| FrameSize.FrameLesson.constructor | components/sections/DebugLessons.tsx:7-8 | the initial size is 5 MB and nothing has exploded |
| FrameSize.FrameLesson.CheckFrame | components/sections/DebugLessons.tsx:10-16 | the flag is set iff size > 10; the size is unchanged; a second check changes nothing |
| FrameSize.FrameLesson.Slide | components/sections/DebugLessons.tsx:39-46 | the size becomes the slider value and the explosion is reset |
| FrameSize.Explodes | components/sections/DebugLessons.tsx:11 | a record explodes iff it is at least 11 MB, i.e. strictly over the 10 MB limit, and exactly then its box is drawn wider than a 10 MB one |
| FrameSize.ExplodesThreshold | components/sections/DebugLessons.tsx:11 | 10 MB passes and 11 MB explodes; on the slider's range exactly 11..20 explode; the initial 5 MB does not |
| FrameSize.PacketWidth | components/sections/DebugLessons.tsx:83 | the width is the larger of 40 and 10*size |
| FrameSize.PacketHeight | components/sections/DebugLessons.tsx:84 | the height is the larger of 40 and 5*size |
| FrameSize.PacketBoxGrowth | components/sections/DebugLessons.tsx:82-85 | the box grows with the size, stays 40 wide up to 4 MB and 40 high up to 8 MB, and is at most 200 by 100 on the slider's range |

## Left out

- components/sections/PipelinePlayground.tsx ends at line 8, in the middle of its first type declaration. Its node list and packet tick are not in the text, so no part of it is modelled.
- The random noise (`Math.random() * 20`) is a parameter of `Tick`: one value per TaskManager, each in [0, 20).
- Loads are `real` numbers. JavaScript doubles and their rounding are not modelled. `Math.round` in the CPU label is not modelled either.
- The timer itself (`setInterval` every 1000 ms, `clearInterval`) is not modelled. One firing is one call to `Tick`, which requires that the job is processing because only then does an interval exist. The ordering of React effects and batched state updates is reduced to: a slider change to a new value re-runs the effects that depend on it, in source order; a set to the current value changes no state and re-runs nothing.
- The slider values are modelled as the integers the range inputs produce (`parseInt` of an in-range value). With `slotsPerTM` at least 1, the load's division is always defined. JavaScript would give NaN for 0/0, but the slider excludes 0.
- `toLowerCase` is modelled as ASCII lower-casing. Unicode case mapping is not part of this model. The properties hold for any fixed character map that is idempotent.
- The glossary's `definition` and `category` fields are carried in the table but only rendered. The currently selected term and its detail panel are presentation; only the id uniqueness behind the highlight is modelled.
- The glossary's animated visuals (`TermVisual`, the `Anim*` components, including the `AnimState` counter's timer), all JSX, framer-motion animations, icons and styling are presentation.
- The packet's explosion animation and the `key={frameSize}` animation reset are presentation.
- Dark-mode toggling (`App.tsx`) is DOM I/O.
- The section router in `App.tsx` only picks which view to render.
- `types.ts` holds declarations only. Guide.tsx, Concepts.tsx, Hero.tsx, Navigation.tsx and Button.tsx are static content and presentation.
