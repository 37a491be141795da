# crispy-physics world core in Dafny

This project models the core of the crispy-physics world (`World.cs`) and its island buffer (`Island.cs`).

The world owns a list of bodies and a set of contacts. It also keeps, for every body, the set of contacts that body takes part in. Three `uint` tick cursors are moved:

- `tick`, the confirmed present;
- `pastTick`, the oldest retained history;
- `futurTick`, the forecast horizon.

`Step` advances the present and foresees new horizon ticks. For each horizon tick it:

- consults the broad phase once after an external change;
- lets the narrow phase set the contacts' future touching flags, relaying each contact it foresees to start or stop touching through the world's "foreseen" handlers;
- groups touching bodies into islands with a depth-first search (`Solve`). Each island is a connected group: every body after the seed is reached through one of the island's contacts from a non-static body added before it.

`Step` then commits every contact's touching flag to the present. Each flip raises "started" or "ended" notifications, to both bodies and then to the world. Droppable contacts are removed from the set and from the index. `RollBack` rewinds the present in the same way.

`Island` is a fixed-capacity buffer. Bodies and contacts are appended to preallocated arrays behind two occupancy counters.

Modules:

- `Common` (common.dfy): `uint` wrap-around, the `(int)` cast, and the Option/Result/Outcome wrappers.
- `Ticks` (ticks.dfy): the cursor arithmetic as pure functions, computed with unchecked `uint` semantics.
- `Islands` (islands.dfy): the class `Island` over arrays.
- `Contacts` (contacts.dfy): the contact index and its consistency.
- `Notifications` (notifications.dfy): the notification trace.
- `IslandGraph` (island_graph.dfy): the island search's invariants and what a finished search promises.
- `Dynamics` (world.dfy): the class `World`, the island search over the world's state, and the commit loop.

The world's fields are those of the source:

- the cursors;
- the `Locked` and `ExternalChange` flags;
- `bodyCount`, the bodies, the contacts and the per-body index;
- the `islandBound` markers.

`World.Valid` states the index invariant that `NewPair`, `Solve` and the commit loop maintain:

- every contact joins two owned, distinct bodies;
- every contact is listed under exactly those two bodies;
- a set holds only live contacts, and no body keeps an empty set;
- no pair of bodies has two contacts.

Behaviour kept as written, each stated by a lemma or a contract:

- `tick += steps` wraps modulo 2^32 before the overflow guard looks at it, so a large `steps` lands on a small tick without an error (`Ticks.TickOverflowWrapsSilently`).
- When the horizon is ahead of `tick + foreseeTicks`, the lookahead `tick + foreseeTicks - futurTick` wraps. `Step` then solves `bufferingTicks` more ticks. This happens after a `RollBack` (`Ticks.LookaheadWrapsAfterRollBack`). It also happens without one, when `foreseeTicks` shrinks between two steps (`Ticks.LookaheadWrapsWhenForesightShrinks`).
- The `Locked` flag is set and cleared but never consulted. A failed `Step` leaves it set, with `tick` already advanced (`Dynamics.World.Step`).
- `RollBack` moves neither the horizon nor the `ExternalChange` flag (`Dynamics.World.RollBack` changes neither field).
- The island's velocity scratch array is sized by the contact capacity, while the integration pass indexes it once per body. An island with more bodies than `max(1, number of contacts)` overruns it (`Islands.Island.SolveSlotsAsWritten`, `IslandGraph.RestingBodyOverrunsVelocities`; see Findings).

## Model

| member | source | states |
|---|---|---|
| Common.Wrap | Assets/Source/Dynamics/World.cs:169 | unchecked `uint` arithmetic: exact inside 0..2^32-1, one modulus off just above or below that range |
| Common.AsInt32 | Assets/Source/Dynamics/World.cs:495 | the `(int)` cast keeps values up to `int.MaxValue` and turns larger ones negative |
| Ticks.AdvanceTick | Assets/Source/Dynamics/World.cs:169 | `tick += steps` is the exact sum when it fits, otherwise it wraps to a tick below the old one |
| Ticks.TickLimitReached | Assets/Source/Dynamics/World.cs:169-171 | the guard on the wrapped tick fires exactly when the exact sum is `uint.MaxValue`, and never when the sum overflows |
| Ticks.ClampKeep | Assets/Source/Dynamics/World.cs:184 | the retention window never exceeds the tick or the requested window, and equals one of them |
| Ticks.PastAfterStep | Assets/Source/Dynamics/World.cs:184-185 | `pastTick` after a step never moves back, covers `tick - keepTicks`, is either the old bound or the clipped window, and stays at most `tick` when it was at most `tick` before |
| Ticks.Lookahead | Assets/Source/Dynamics/World.cs:187-197 | behind the tick: the gap plus `min(foreseeTicks, bufferingTicks)`; otherwise at most `bufferingTicks` and at most the remaining foresight; the wrapped value when the horizon is beyond `tick + foreseeTicks` |
| Ticks.AdvanceHorizon | Assets/Source/Dynamics/World.cs:199-202 | `n` executions of `futurTick++` add `n` when no wrap occurs |
| Ticks.HorizonStep | Assets/Source/Dynamics/World.cs:202 | one more `futurTick++` is one more wrapped increment of the horizon |
| Ticks.PastAfterRollBack | Assets/Source/Dynamics/World.cs:304-307 | after a rollback `pastTick` lies between `toTick - keepTicks` and `toTick`, is never lowered when already below `toTick`, and equals `toTick` when it was above |
| Ticks.FuturAfterExternalChange | Assets/Source/Dynamics/World.cs:485 | the horizon becomes the earlier of the old horizon and the change, raised to the present: at least both of those, at most either one raised to the present, and equal to one of the three |
| Ticks.StepKeepsOrdered | Assets/Source/Dynamics/World.cs:168-202 | a step that neither overflows nor wraps keeps `pastTick <= tick <= futurTick` |
| Ticks.LookaheadCatchesUp | Assets/Source/Dynamics/World.cs:187-202 | with the horizon within `tick + foreseeTicks`, a step brings the horizon into `[tick, tick + foreseeTicks]`; from behind it lands `min(foreseeTicks, bufferingTicks)` ahead |
| Ticks.NoLookaheadTracksTick | Assets/Source/Dynamics/World.cs:187-202 | without foresight or buffering the horizon lands exactly on the tick |
| Ticks.TickOverflowWrapsSilently | Assets/Source/Dynamics/World.cs:169-171 | from tick 1, `Step(uint.MaxValue)` wraps to tick 0 and the guard does not fire |
| Ticks.LookaheadWrapsAfterRollBack | Assets/Source/Dynamics/World.cs:193-197 | tick 6, horizon 10, no foresight and a buffer of 3 solve 3 ticks, up to 13 |
| Ticks.LookaheadWrapsWhenForesightShrinks | Assets/Source/Dynamics/World.cs:187-202 | from tick 0, a step with foresight 10 leaves the horizon at 11; a following step with no foresight and a buffer of 3 still solves 3 ticks, up to 14 |
| Islands.CheckCapacities | Assets/Source/Dynamics/Island.cs:24-27 | the constructor accepts exactly positive capacities; a zero body capacity is reported first |
| Islands.Island.constructor | Assets/Source/Dynamics/Island.cs:22-40 | an empty island with arrays of the given capacities |
| Islands.Island.Create | Assets/Source/Dynamics/Island.cs:22-40 | fails exactly when a capacity is zero, with the constructor's error; otherwise a valid empty island |
| Islands.Island.AddBody | Assets/Source/Dynamics/Island.cs:42-47 | appends the body exactly when there is room; when full it fails with the capacity error and changes nothing |
| Islands.Island.AddContact | Assets/Source/Dynamics/Island.cs:49-54 | appends the contact exactly when there is room; when full it fails with the capacity error and changes nothing |
| Islands.Island.Clear | Assets/Source/Dynamics/Island.cs:142-153 | both buffers become empty, with freshly allocated arrays at the same capacities |
| Islands.Island.SolveSlotsAsWritten | Assets/Source/Dynamics/Island.cs:72-125 | the integration pass indexes past its arrays exactly when the island holds more bodies than its contact capacity, the size of the velocity array |
| Islands.Island.BodyIterator | Assets/Source/Dynamics/Island.cs:56-62 | as intended: exactly the bodies added since the last clear, in order |
| Islands.Island.ContactIterator | Assets/Source/Dynamics/Island.cs:64-70 | as intended: exactly the contacts added since the last clear, in order |
| Islands.SlotRange | Assets/Source/Dynamics/Island.cs:58-61 | the as-written iteration: slots `start..end` inclusive; an `end` of 0 means the default; reaching past the array is an index error |
| Islands.Island.VisitSlots | Assets/Source/Dynamics/Island.cs:58-61 | the iteration loop yields exactly `SlotRange` |
| Islands.Island.BodyIteratorAsWritten | Assets/Source/Dynamics/Island.cs:56-62 | the body iterator as written is `SlotRange` over the body slots with the body count as default end |
| Islands.Island.ContactIteratorAsWritten | Assets/Source/Dynamics/Island.cs:64-70 | the contact iterator as written is `SlotRange` over the contact slots with the body count as default end |
| Islands.BodyIteratorReadsPastCount | Assets/Source/Dynamics/Island.cs:60 | on a partly filled island the default iteration yields one empty slot past the bodies; on a full one it fails with an index error |
| Islands.ContactIteratorUsesBodyCount | Assets/Source/Dynamics/Island.cs:67 | two bodies and one contact make the default contact iteration fail with an index error |
| Contacts.NewContact | Assets/Source/Dynamics/World.cs:529 | a new contact joins the two bodies in call order and touches in neither tier |
| Contacts.AddToIndex | Assets/Source/Dynamics/World.cs:507-531 | the body's set gains the contact and its entry is created when missing; other bodies' sets are unchanged |
| Contacts.RemoveFromBody | Assets/Source/Dynamics/World.cs:277-281 | the body's set loses the contact and its entry disappears when it becomes empty; other bodies are unchanged |
| Contacts.DropFromIndex | Assets/Source/Dynamics/World.cs:272-289 | every body's set loses the dropped contacts, and no empty entry remains |
| Contacts.Retain | Assets/Source/Dynamics/World.cs:292 | `RemoveWhere` keeps exactly the contacts not dropped, unchanged |
| Contacts.Dropped | Assets/Source/Dynamics/World.cs:272-274 | exactly the live contacts that report themselves droppable |
| Contacts.WithCurrentTouching | Assets/Source/Dynamics/World.cs:246-247 | every contact takes its committed flag, keeping its bodies and future flag |
| Contacts.WithFutureTouching | Assets/Source/Dynamics/World.cs:225 | every contact takes its narrow-phase flag, keeping its bodies and committed flag |
| Contacts.IndexDetermined | Assets/Source/Dynamics/World.cs:90 | an index without empty entries is determined by the set it gives each body |
| Contacts.DropOneMore | Assets/Source/Dynamics/World.cs:272-289 | removing one more droppable contact from its two bodies' sets is dropping it from the index |
| Contacts.ListedExactlyForEndpoints | Assets/Source/Dynamics/World.cs:507-531 | in a consistent index a live contact is listed under a body exactly when it involves that body |
| Contacts.ListedIsLive | Assets/Source/Dynamics/World.cs:403-406 | a contact found in a body's set is live and involves that body |
| Contacts.PairFoundInOwnSet | Assets/Source/Dynamics/World.cs:507-513 | scanning only `bodyA`'s set finds a contact with `bodyB` exactly when the pair has a contact |
| Contacts.AddContactKeepsConsistent | Assets/Source/Dynamics/World.cs:504-532 | adding a contact for an absent pair of distinct bodies keeps the index consistent and pairs unique, and makes the pair present |
| Contacts.AddedContactListed | Assets/Source/Dynamics/World.cs:515-531 | the new contact listed under both bodies keeps every listing exact |
| Contacts.AddedPairUnique | Assets/Source/Dynamics/World.cs:507-513 | a contact for an absent pair keeps at most one contact per pair |
| Contacts.CoverOneMore | Assets/Source/Dynamics/World.cs:499-533 | one more proposed pair is covered; old contacts are kept, and each new one joins a proposed pair and touches in no tier |
| Contacts.CoveredWhileEndpointsKept | Assets/Source/Dynamics/World.cs:218-227 | proposed pairs stay covered through new contacts and future-flag changes |
| Contacts.ExtendsKeepsCommitted | Assets/Source/Dynamics/World.cs:219-225 | adding contacts, or setting future flags, leaves every contact's bodies and committed flag alone |
| Contacts.DropKeepsConsistent | Assets/Source/Dynamics/World.cs:272-292 | dropping any contacts from the set and from the index keeps them consistent |
| Contacts.ConsistentUnderFlagChanges | Assets/Source/Dynamics/World.cs:246-247 | consistency and pair uniqueness survive any change of touching flags |
| Notifications.Transition | Assets/Source/Dynamics/World.cs:254-270 | a false-to-true flip notifies "started", and a true-to-false flip "ended": body A, then body B, then the world; no flip, no notification |
| Notifications.CommitTraceAppend | Assets/Source/Dynamics/World.cs:242-291 | visiting one more contact appends exactly its notifications |
| Notifications.CommitTraceNotifiesOnce | Assets/Source/Dynamics/World.cs:242-291 | in a commit visiting each contact once, a contact's world-level "started" (or "ended") occurs once if its flag flipped that way, never otherwise |
| Notifications.Foreseen | Assets/Source/Dynamics/World.cs:541-548 | a foreseen start or end reaches body A, body B, then the world, all of that one kind |
| Notifications.Relay | Assets/Source/Dynamics/World.cs:60-65 | a contact the collision pass does not report gets no notification; a reported one gets the foreseen relay of its kind |
| Notifications.ForeseenTrace | Assets/Source/Dynamics/World.cs:60-65 | the relays of a collision pass hold foreseen starts and ends only |
| Notifications.ForeseenTraceAppend | Assets/Source/Dynamics/World.cs:60-65 | visiting one more contact appends its relay |
| Notifications.ForeseenTraceReports | Assets/Source/Dynamics/World.cs:541-557 | the world hears a contact's foreseen start exactly when the pass visited it and reported a start, and likewise for ends |
| Notifications.AllForeseenAppend | Assets/Source/Dynamics/World.cs:199-228 | foreseen notifications of successive horizon ticks together are foreseen notifications only |
| Notifications.EndForeseenAsWritten | Assets/Source/Dynamics/World.cs:550-557 | as written, the bodies get the start relay and only the world gets the end |
| Notifications.EndForeseenTellsBodiesStart | Assets/Source/Dynamics/World.cs:552-553 | the as-written end relay tells both bodies "start foreseen" and differs from the intended relay |
| IslandGraph.MovableInExactlyOneIsland | Assets/Source/Dynamics/World.cs:385-394 | after the island pass every non-static body lies in exactly one island |
| IslandGraph.JoinedBodiesShareIsland | Assets/Source/Dynamics/World.cs:406-428 | two non-static bodies joined by a joinable contact share an island, which holds the contact too |
| IslandGraph.IslandWithoutContactsIsSeed | Assets/Source/Dynamics/World.cs:392-431 | an island without contacts holds its seed alone, so bodies no touching contact joins never share an island |
| IslandGraph.SeedConnected | Assets/Source/Dynamics/World.cs:392-394 | the search for one island starts connected, with the seed alone on the stack |
| IslandGraph.PopConnected | Assets/Source/Dynamics/World.cs:397-398 | the popped body was reached from a non-static island body through an island contact, and the bodies left on the stack still are |
| IslandGraph.AppendConnected | Assets/Source/Dynamics/World.cs:397-398 | appending a reached body keeps the island connected |
| IslandGraph.JoinConnected | Assets/Source/Dynamics/World.cs:415-428 | after the contact is added, each body pushed for it is reached through that contact from the body being expanded |
| IslandGraph.ReachedMore | Assets/Source/Dynamics/World.cs:395-431 | a body reached stays reached as the island gains contacts and bodies |
| IslandGraph.RoomForOneMore | Assets/Source/Dynamics/World.cs:373-375 | a distinct sequence missing some member of a finite set is shorter than the set |
| IslandGraph.RoomForOneMoreBelow | Assets/Source/Dynamics/World.cs:373-375 | an island cannot already hold as many distinct bodies as the world when one is still missing, so `Add` never overflows |
| IslandGraph.DistinctBelowFits | Assets/Source/Dynamics/World.cs:373-375 | an island's distinct bodies never outnumber the world's bodies |
| IslandGraph.IslandOfContact | Assets/Source/Dynamics/World.cs:406-428 | a joinable contact with a non-static body lies in an island that holds both its bodies |
| IslandGraph.IntendedVelocitiesFit | Assets/Source/Dynamics/Island.cs:38-39 | with one velocity slot per body, as intended, the integration pass fits every island a search produces |
| IslandGraph.RestingBodyOverrunsVelocities | Assets/Source/Dynamics/World.cs:373-375 | a dynamic body resting on a static one: every partition has an island of both bodies, but the velocity array gets one slot, so the integration pass fails |
| IslandGraph.ClosedForExtend | Assets/Source/Dynamics/World.cs:403-430 | closure under joinable contacts survives placing more contacts and extends to a fully expanded body |
| IslandGraph.PopStep | Assets/Source/Dynamics/World.cs:397-398 | popping into the island keeps the search invariant, and the island has room |
| IslandGraph.MarkStep | Assets/Source/Dynamics/World.cs:418-427 | marking and pushing an unmarked body keeps the search invariant |
| IslandGraph.SeedStep | Assets/Source/Dynamics/World.cs:392-394 | pushing and marking the seed starts a search in the invariant |
| IslandGraph.NewContactFits | Assets/Source/Dynamics/World.cs:408-415 | an unmarked joinable contact of a non-static body has no body in an earlier island, and the island has room for it |
| IslandGraph.AddContactStep | Assets/Source/Dynamics/World.cs:415-416 | adding and marking such a contact keeps the invariant once its bodies are marked |
| IslandGraph.AllWellFormedAppend | Assets/Source/Dynamics/World.cs:392-431 | appending a well-formed island keeps every island well formed |
| IslandGraph.DonePlacedAppend | Assets/Source/Dynamics/World.cs:392-431 | appending the island just grown extends the placement of non-static bodies and contacts |
| IslandGraph.CloseStep | Assets/Source/Dynamics/World.cs:431-437 | closing an island and unmarking its static bodies restores the invariant between seeds |
| IslandGraph.CloseGrow | Assets/Source/Dynamics/World.cs:435-437 | unmarking the closed island's static bodies leaves the markers on the placed non-static bodies only |
| IslandGraph.FinishIsland | Assets/Source/Dynamics/World.cs:392-437 | the island grown from the seed joins the finished ones and places the seed |
| IslandGraph.SearchComplete | Assets/Source/Dynamics/World.cs:385-438 | once every seed is done, the islands are connected from their seeds and partition the non-static bodies and joinable contacts, and the markers are exactly on those |
| IslandGraph.PlacedApart | Assets/Source/Dynamics/World.cs:394-428 | marking before pushing puts each non-static body and each contact in one island only |
| IslandGraph.PlacedReachesAll | Assets/Source/Dynamics/World.cs:385-430 | every non-static body, and every joinable contact of one, is in some island |
| Dynamics.BodyRange | Assets/Source/Dynamics/World.cs:491-497 | the world's body iterator yields bodies of the list only, no more than the list holds |
| Dynamics.BodyRangeDefaults | Assets/Source/Dynamics/World.cs:491-497 | with default bounds it yields every body in creation order; from a start within the list, the rest of it |
| Dynamics.FindIslands | Assets/Source/Dynamics/World.cs:371-438 | each island is connected from its seed through its own contacts and non-static bodies; the islands partition the non-static bodies and joinable contacts; body markers end exactly on non-static bodies and contact markers exactly on placed contacts |
| Dynamics.IslandFromSeed | Assets/Source/Dynamics/World.cs:392-437 | the work for one seed keeps the invariant between seeds and places the seed |
| Dynamics.GrowFresh | Assets/Source/Dynamics/World.cs:392-431 | after clearing and growing, the island starts with the seed, is connected from it, and is closed under joinable contacts |
| Dynamics.GrowIsland | Assets/Source/Dynamics/World.cs:393-431 | the stack loop ends with the island closed under joinable contacts and connected from the seed, which comes first |
| Dynamics.VisitTop | Assets/Source/Dynamics/World.cs:397-430 | one pop adds the top body, keeps the invariant and the connectivity, and keeps the island closed |
| Dynamics.ExpandBody | Assets/Source/Dynamics/World.cs:403-430 | afterwards every joinable contact of the body is placed |
| Dynamics.PopIntoIsland | Assets/Source/Dynamics/World.cs:397-398 | the popped top of the stack is appended to the island's bodies |
| Dynamics.JoinContact | Assets/Source/Dynamics/World.cs:415-428 | the contact is placed in the island and its unmarked bodies are pushed and marked |
| Dynamics.ReadBack | Assets/Source/Dynamics/World.cs:433-437 | the body iterator gives back the bodies added, in order, and exactly the island's static bodies lose their marker; the contacts handed to the solver are recorded as ghost state |
| Dynamics.UnmarkStatics | Assets/Source/Dynamics/World.cs:435-437 | the markers lose exactly the island's static bodies |
| Dynamics.CommitPass | Assets/Source/Dynamics/World.cs:241-292 | each contact is visited once; the result is the committed contacts and the droppable set, with the index dropped accordingly; the notifications are those of the commit trace in visiting order |
| Dynamics.CommitOneMore | Assets/Source/Dynamics/World.cs:242-291 | visiting one more contact extends the committed part and the removal set by that contact |
| Dynamics.CommitComplete | Assets/Source/Dynamics/World.cs:241-292 | once every contact is visited, the loop's results are the whole commit |
| Dynamics.CommitKeepsState | Assets/Source/Dynamics/World.cs:241-292 | committing flags and dropping contacts keeps the world's invariant |
| Dynamics.NewPairKeepsState | Assets/Source/Dynamics/World.cs:499-533 | a fresh contact for an absent pair of distinct owned bodies keeps the world's invariant |
| Dynamics.World.constructor | Assets/Source/Dynamics/World.cs:35-71 | an empty world at tick 0 with all cursors at 0 and no flags |
| Dynamics.World.CreateBody | Assets/Source/Dynamics/World.cs:94-121 | fails at `uint.MaxValue` bodies, changing nothing; otherwise appends a body with the next id, pulls the horizon to the present and flags an external change |
| Dynamics.World.ExternalChange | Assets/Source/Dynamics/World.cs:481-488 | only the first report since the last step pulls the horizon back; the flag is set afterwards |
| Dynamics.World.BodyIterator | Assets/Source/Dynamics/World.cs:491-497 | the iterator loop yields exactly `BodyRange` |
| Dynamics.World.ContactIterator | Assets/Source/Dynamics/World.cs:535-539 | every live contact exactly once |
| Dynamics.World.HasContactWith | Assets/Source/Dynamics/World.cs:507-513 | the scan of `bodyA`'s set finds a contact exactly when the pair has one |
| Dynamics.World.NewPair | Assets/Source/Dynamics/World.cs:499-533 | nothing for a body paired with itself or an existing pair; otherwise one new untouched contact, listed globally and under both bodies; the invariant is kept |
| Dynamics.World.FindNewContacts | Assets/Source/Dynamics/World.cs:440 | afterwards every proposed pair of distinct bodies has a contact; old contacts are untouched and each new one joins a proposed pair |
| Dynamics.World.Collide | Assets/Source/Dynamics/World.cs:225 | the narrow phase sets the future flags and the invariant is kept |
| Dynamics.World.Solve | Assets/Source/Dynamics/World.cs:371-441 | the islands are connected and partition the non-static bodies and joinable contacts of the contacts as they stood; markers exactly on those; then the new pairs are covered |
| Dynamics.World.ForeseeTick | Assets/Source/Dynamics/World.cs:202-227 | the horizon moves one wrapped tick on, no contact's bodies or committed flag change, and only foreseen notifications are raised; when the broad phase is consulted its pairs end covered, and so do the pairs proposed after the islands |
| Dynamics.World.RelayForeseen | Assets/Source/Dynamics/World.cs:60-65 | the collision pass visits every contact once and raises exactly the relays of the contacts it reports |
| Dynamics.World.RelayOne | Assets/Source/Dynamics/World.cs:541-557 | a reported contact goes to the handler of its kind, and an unreported one raises nothing |
| Dynamics.World.Forecast | Assets/Source/Dynamics/World.cs:199-228 | the horizon advances by the iteration count, the committed tier is untouched, and only foreseen notifications are raised |
| Dynamics.World.CommitContacts | Assets/Source/Dynamics/World.cs:241-292 | each contact takes its committed flag, flips are notified in visiting order, and the droppable ones leave the set and the index |
| Dynamics.World.StepCursors | Assets/Source/Dynamics/World.cs:184-197 | the inline cursor code computes `PastAfterStep` and `Lookahead` |
| Dynamics.World.ForecastAndCommit | Assets/Source/Dynamics/World.cs:199-295 | forecast, then commit, then both flags cleared; the trace is the forecast's foreseen notifications followed by the commit's |
| Dynamics.World.Step | Assets/Source/Dynamics/World.cs:163-296 | fails exactly when the wrapped tick is `uint.MaxValue`; the tick is then already advanced, the world stays locked, and nothing else changes. Otherwise the cursors move as `PastAfterStep`, `Lookahead` and `AdvanceHorizon` say, the forecast keeps the committed tier and raises only foreseen notifications, the commit is notified once per flip, droppable contacts go, and both flags are cleared |
| Dynamics.World.RollBack | Assets/Source/Dynamics/World.cs:298-369 | the tick becomes `toTick` and `pastTick` follows `PastAfterRollBack`; contacts are rewound and notified as in a commit; the world is unlocked; horizon and external-change flag are untouched |
| Dynamics.World.NotifyContactStartForeseen | Assets/Source/Dynamics/World.cs:541-548 | appends the "start foreseen" relay: body A, body B, then the world |
| Dynamics.World.NotifyContactEndForeseen | Assets/Source/Dynamics/World.cs:550-557 | as intended: appends the "end foreseen" relay |
| Dynamics.World.NotifyContactEndForeseenAsWritten | Assets/Source/Dynamics/World.cs:550-557 | as written: appends two body "start foreseen" notifications and a world "end foreseen" |

## Left out

- The floating-point work of `Island.Solve` (Island.cs:72-140), integrating positions and velocities, is not modelled. Only its index accesses to the position and velocity arrays are modelled (`Islands.Island.SolveSlotsAsWritten`). `Dynamics.World.Solve` does not run the integration pass, so it returns normally where the source throws for an overrun velocity array.
- The bodies' and contacts' histories are not modelled: `ClearFutur`, `Foresee`, `Step`, `ForgetPast`, `RollBack`, `ChangeTickDt` and the enduring-contact flag. Their outcome reaches the world through parameters:
  - the narrow phase's future flags;
  - the committed flags at the new tick, or the flags rewound to `toTick`;
  - `IsDroppable`.
- The contact manager is not part of this model. The pairs it proposes become a parameter of `FindNewContacts` and `Solve`, given by `Environment.candidatePairs`. Its `Collide` becomes `Environment.narrowPhase`. `PairsWithin` assumes it proposes only bodies the world owns.
- The world constructor's physical parameters, the `fixedStep` check, `TimeStep`, `WorldFactory` and the commented-out `Crisp` are not modelled.
- Events are recorded as a trace, as if each body and the world had a subscriber. The `!= null` subscriber checks and the bodies' own handlers are not modelled.
- `Mathf.Max` and `Mathf.Min` go through `float` in the source. They are modelled as exact integer operations, so rounding of ticks above 2^24 is not captured.
- `Dynamics.World.Forecast` counts its iterations with an unbounded integer. The source compares an `int` counter with a `uint` count, which could overflow above `int.MaxValue`.
- Object identity is abstracted:
  - bodies are their index in the list;
  - contacts are numbered by a counter, `nextContactId`, that stands for allocation;
  - the `islandBound` markers are held by the world as sets of ids rather than as a flag on each object.
- `Dynamics.World.BodyIterator` and `Islands.Island.BodyIteratorAsWritten`/`ContactIteratorAsWritten` return only the error when a lazy `yield` would already have handed out a prefix.
- `Dynamics.World.CommitContacts` runs the commit loop on values and assigns the fields once after the loop. In the source, the index sets are updated in place during the loop and the global set afterwards. Nothing else reads them in between.
- The island stack and the island's integer counters are unbounded: `Stack<Body>` grows as needed, and island capacities are `nat`. Counts never exceed the world's `uint` body counter.
- `Dynamics.World.Step`: the forecast contact set is related to the old one only by `KeepsCommitted`. The exact future flags after several foreseen ticks depend on the omitted histories.
- `Dynamics.World.RelayForeseen`: when the contact manager's collision pass calls the foreseen handlers is decided inside the manager, which is not part of this model. `Environment.foreseen` says, per horizon tick, which contacts it reports. The relay visits the world's contacts, as the manager does through `ContactIterator`, in an unspecified order. The contract therefore fixes which notifications are raised and of what kind, not the order between contacts.
- `Contacts.NewContact`: the contact factory called at World.cs:529 is not part of this model. A new contact is assumed to start touching in neither tier.

## Findings

| source | as written | input that shows it | evidently intended | confidence | as-written member | corrected member |
|---|---|---|---|---|---|---|
| Assets/Source/Dynamics/Island.cs:60 | the body iterator runs `i <= end`, with `end` defaulting to `bodyCount` | an island of capacity 2 holding 1 body: the default iteration also yields the empty slot 1, whose `type` the world's static-unmarking loop then reads; on a full island it indexes past the array | `i < end`, yielding exactly the bodies added | high; not executed | Islands.Island.BodyIteratorAsWritten, Islands.BodyIteratorReadsPastCount | Islands.Island.BodyIterator |
| Assets/Source/Dynamics/Island.cs:64-69 | the contact iterator defaults `end` to `bodyCount` and also runs `i <= end` | two bodies joined by one contact with contact capacity 1: the default iteration indexes past the contact array; no caller in `World.cs` uses this iterator, so the defect is latent there | `end` defaulting to `contactCount`, with `i < end` | high; not executed | Islands.Island.ContactIteratorAsWritten, Islands.ContactIteratorUsesBodyCount | Islands.Island.ContactIterator |
| Assets/Source/Dynamics/Island.cs:102-103 | the velocity array is allocated with the contact capacity (Island.cs:39, 151), but the integration pass writes `velocities[i]` for every `i < bodyCount` | one dynamic body resting on one static body through one touching contact: `Solve` builds `Island(2, 1)`, the island holds both bodies, and `velocities[1]` is out of range | one velocity slot per body, like the position array | high; not executed | Islands.Island.SolveSlotsAsWritten, IslandGraph.RestingBodyOverrunsVelocities | IslandGraph.IntendedVelocitiesFit |
| Assets/Source/Dynamics/World.cs:552-553 | the end-foreseen handler relays `NotifyContactStartForeseen` to both bodies | any contact foreseen to stop touching: both bodies hear "start foreseen" and never "end foreseen" | relay `NotifyContactEndForeseen` to both bodies | high; not executed | Dynamics.World.NotifyContactEndForeseenAsWritten, Notifications.EndForeseenTellsBodiesStart | Dynamics.World.NotifyContactEndForeseen |
