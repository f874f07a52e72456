# Navit: verified models of seven components

These Dafny modules model seven parts of the car navigation system Navit and prove what they keep. Each part that works by
changing things in place is a class or a method with loops, tied by its `ensures` to functions on values; lemmas then prove
what the source promises about those functions, over single steps and over whole runs.

**Route search over a contraction hierarchy** (`navit/navit/routech.c`). `RoutechHeap` is the array-backed indexed heap with
handles. `RoutechSearch` is one Dijkstra search with stall-on-demand; `RoutechModel` and `RoutechInvariant` give it as functions
and prove what every reachable state keeps; `RoutechStalling` says when a popped node is stalled and with which value, and what is
offered otherwise; `RoutechRuns` has any interleaving of the two searches.
`RoutechOptimum` proves when the bound they end with is that of a shortest road. `RoutechRoutes` follows parents and unpacks
shortcuts, and `RoutechDriver` runs the whole of `routech_test` up to the route it writes. The map is a
finite graph `node -> seq<edge>` with positive weights.

**Adaptive replacement cache** (`navit/navit/cache.c`). `CacheLists` has the doubly linked lists, pointer by pointer; `CacheHash`
and `Cache` have the cache object with its four lists, the hash and the adaptive target. `CacheModel` gives each operation as a
function on values, `CacheInvariant` what every operation and every run keeps, `CacheAdapts` how the target moves and which list
gives way. `CacheBounds` counts the bytes each insertion
adds and frees; `CacheUniform`, `CacheRecent` and `CacheTotal` say for which clients and capacities the bounds of adaptive
replacement hold, `CacheWitness` has runs that break them.

**Graphics** (`navit/navit/graphics.c`). `GraphicsClip` clips polygons in four passes between two buffers, `GraphicsBorder` shows
that a pass walks around the polygon's border in order; `GraphicsHash` is the open-addressed table of item types, `GraphicsSqrt` the
bit-by-bit square root.

**Command expressions** (`navit/navit/command.c`). `Command` is the recursive-descent evaluator with its moving cursor,
`CommandModel` what it makes of a text, and `CommandText` a printer for expression trees with the proof that evaluating a printed
tree gives the tree's value. `CommandLaws` states what C's operators mean, bit by bit where needed (`CommandBits`), and
`CommandMeaning` that a tree's text evaluates to what the tree means by these laws and C's precedence; `CommandErrors` has texts
that are no expressions.

**Navigation lists** (`navit/navit/navigation.c`): route items and commands kept in step (`Navigation`, `NavigationModel`).

**Address search** (`navit/navit/search.c`): phrases of an address (`SearchPhrases`) and postal masks (`SearchPostal`).

**HTTP header end** (`navit/navit/file.c`): the scan for the blank line of section 6 of RFC 1945 (`HttpHeader`).

## Where the code differs from what one might expect

- The element that empties the heap keeps a slot number, so `pq_is_deleted` is false for it (`routech.c:170` and `routech.c:184`),
  and the other search does not compare it with the bound. The route found is still sound, and a shortest one if a shortest road
  goes up from both ends to a node that is not hidden like this (`SearchOptimum.BoundIsShortest`). Each search hides its own start
  (`SearchOptimum.StartIsHidden`), so a road that one search follows all the way to the other's start is missed
  (`SearchOptimum.RoadToHiddenStart`); `SearchOptimum.ShortestIsFound` says for every run exactly when a shortest road is found.
- `routech_stall` takes its newest work item off the list when it appended any (`routech.c:333`); `SearchModel.AfterTurn` does
  the same. The loop still ends, and it stalls every node the stalled node's edges reach below its key
  (`SearchStalling.StallSettles`); but a node with one edge stalls nothing behind that edge's target
  (`SearchStalling.StallStopsShort`).
- The cache can outgrow its capacity, because room is made for one entry at a time. `CacheBounds.RunFits` says of every run when
  T1 and T2 stay within the capacity, T1 and B1 within the capacity, and all lists within twice the capacity: exactly when each of
  its insertions fits what the guards free. For clients that fetch entries of one size and let go of them at once the exact
  configurations are known for T1 and T2 (`CacheUniform.UniformFits`), for T1 and B1 (`CacheRecent.RecentFits`), for T1 and T2
  jointly with all lists (`CacheTotal.TotalFits`, `CacheTotal.TotalFitsFlushed`), and for all three limits of entries without data
  (`CacheUniform.UnitsFit`); for entries of any size there is none worth
  having (`CacheWitness.AnySizeFits`), and data in use exceeds any capacity (`CacheUniform.KeptDataIsHeld`). That there are ghosts
  only when T1 and T2 use the whole capacity holds without flushes (`CacheUniform.GhostsMeanFull`) and for no configuration with
  them (`CacheTotal.FlushBreaksFull`).
- `poly_intersection` can overflow 32 bits on long lines: `PolygonClipping.FitsExactly` says exactly when,
  `PolygonClipping.SmallBoxIsExact` which bounding boxes rule it out, and `PolygonClipping.LongLineOverflows` shows a line.
- `search_fix_spaces` steps in front of its buffer exactly for non-empty addresses without a word, which
  `AddressPhrases.FixSpaces` reports as `Underflow`.
- A postal code that comes with the first result of an item together with a mask is not looked at, so the mask need not match it
  (`PostalMasks.MaskInsteadOfCode`). `PostalMasks.CodeIsCovered` says exactly which codes an item's mask covers from then on.
- A route of the destination alone, as when no street item can be read (`navigation.c:832-833`), has a command that outlives its
  item; on every longer one the destination's command goes with the rest (`NavigationModel.LastItemCommands`).
- `set_hash_entry` searches without end for a new type in a full table (`DisplayHash.SetEnds`). The table has more slots than there
  are item types (`graphics.c:97`, `item_def.h`), so layouts that name their types do not fill it.

## Model

| member | source | states |
|---|---|---|
| IndexedHeap.PriorityQueue.Insert | navit/navit/routech.c:70-95 | a new handle joins the queued ones with its key and node; every other handle keeps its entry, and heap order and the slot/handle links hold again |
| IndexedHeap.PriorityQueue.DecreaseKey | navit/navit/routech.c:141-154 | exactly one queued handle gets the smaller key, the rest of the queue is untouched, order and links hold again |
| IndexedHeap.PriorityQueue.SiftUp | navit/navit/routech.c:85-93 | the element carried up from a hole ends where heap order and links hold, whatever the hole |
| IndexedHeap.PriorityQueue.SiftDown | navit/navit/routech.c:173-184 | the last element sinks from the root to where order and links hold; the stale slot behind the heap is never moved in |
| IndexedHeap.PriorityQueue.RootIsMinimum | navit/navit/routech.c:135-139 | the element in slot 1 is queued and has a smallest key |
| IndexedHeap.PriorityQueue.DeleteMin | navit/navit/routech.c:156-186 | one queued handle with a smallest key leaves, no other; it reads as deleted unless the heap became empty |
| IndexedHeap.PriorityQueue.IsDeleted | navit/navit/routech.c:129-133 | true exactly for the handles marked as deleted |
| IndexedHeap.PriorityQueue.Min | navit/navit/routech.c:135-139 | a smallest queued key, if anything is queued |
| IndexedHeap.PriorityQueue.Check | navit/navit/routech.c:194-209 | the self-check finds exactly the violations of order and links, so a valid heap passes |
| SearchModel.StallEdgesShrinks | navit/navit/routech.c:322-341 | one pass over a node's edges appends work only if it stalled a node that was not stalled |
| SearchModel.StallLoopStep | navit/navit/routech.c:318-344 | each turn of the stall loop stalls a new node or shortens the work list, with the rebinding of the work item |
| SearchModel.StallLoopOnlyStalls | navit/navit/routech.c:318-344 | stalling changes stall values and nothing else |
| SearchStalling.OfferChanges | navit/navit/routech.c:223-245 | a node offered is queued when it is new, and gets the key and parent offered exactly when the key is less than its own; then it is not stalled any more, and no other node changes |
| SearchStalling.RelaxStalls | navit/navit/routech.c:370-397 | a popped node that is not stalled gets a stall value exactly when, at its turn, some edge passable both ways leads to a known node whose stall value, or key if that is 0, plus the weight is below the popped key; the value is that of the first such edge, the edges before it have been offered, and nothing else but stall values changes; without such an edge all followed edges are offered |
| SearchStalling.EdgesStall | navit/navit/routech.c:322-341 | of the edges of a work item the first one that reaches a known, unstalled node below its key gives it its stall value and appends it to the work |
| SearchStalling.StallSettles | navit/navit/routech.c:301-345 | in the end every known node that the stalled node's edges reach below its key is stalled |
| SearchStalling.StallStopsShort | navit/navit/routech.c:333-341 | as the newest work item is dropped, the stalling of a node with one edge never gets behind the target of that edge |
| Hierarchy.DirectionFlags | navit/navit/routech.c:293-299 | flag 1 lets the forward search follow an edge and flag 2 the backward search, whatever the other flags are; flag 4 marks a shortcut |
| SearchInvariant.KeyIsWalk | navit/navit/routech.c:223-245 | the key of each reached node is the length of a real walk of direction-valid edges from the start |
| SearchInvariant.KnownIsRoad | navit/navit/routech.c:379-386 | a key or stall value is the length of a real road, driven from or to the start |
| SearchInvariant.InvPop | navit/navit/routech.c:356-396 | popping a smallest key keeps the invariant and raises the bound between popped and queued keys |
| SearchInvariant.InvOffer | navit/navit/routech.c:392-395 | offering a longer key to a node keeps the invariant; parents stay popped, with an edge for the difference of keys |
| SearchInvariant.StallKeeps | navit/navit/routech.c:301-345 | after stall propagation every non-zero stall value is a real road's length strictly below its node's key |
| SearchInvariant.RelaxFromKeeps | navit/navit/routech.c:373-397 | the edge loop keeps the invariant whether or not it stops to stall |
| SearchInvariant.RelaxKeeps | navit/navit/routech.c:347-398 | relaxing the cheapest node keeps the invariant, keys popped do not fall, popped nodes keep key and parent for good |
| SearchInvariant.PoppedKeyIsShortest | navit/navit/routech.c:347-398 | while nothing popped was stalled, a popped key is the shortest distance over the edges the search follows |
| SearchRuns.MeetIsLeast | navit/navit/routech.c:360-369 | the bound becomes the sum of the two keys exactly when the node reads as deleted in the other search and the sum is less; otherwise bound and meeting node stay |
| SearchRuns.StepKeeps | navit/navit/routech.c:347-398 | a step of either search keeps both invariants and the meeting, and never raises the bound |
| SearchRuns.RunKeeps | navit/navit/routech.c:541-566 | in every state of every interleaving the bound is the sum of the two final keys of the meeting node |
| SearchRuns.RunEvolves | navit/navit/routech.c:541-566 | between any two moments of a run popped nodes are frozen, popped keys rise, the bound falls |
| Routes.StoredIsFound | navit/navit/routech.c:444-462 | the edge a search followed is the one a lookup by its target finds, as edges are unique |
| Routes.ResolveIsRoute | navit/navit/routech.c:464-479 | unpacking an edge ends, and gives a connected chain of drivable edges without shortcuts of the same length |
| Routes.ForwardPath | navit/navit/routech.c:481-505 | the forward parents spell out a drivable route from the start as long as the node's key |
| Routes.BackwardPath | navit/navit/routech.c:481-505 | the backward parents spell out one to the destination |
| RoutechSearches.RoutechSearch.OfferNode | navit/navit/routech.c:223-245 | the hash and the heap after an insertion or decrease are those of the model |
| RoutechSearches.RoutechSearch.StallAll | navit/navit/routech.c:322-341 | the edge loop of the stalling, with the work item it leaves to be removed |
| RoutechSearches.RoutechSearch.StallNode | navit/navit/routech.c:301-345 | the whole stall propagation, which ends |
| RoutechSearches.RoutechSearch.RelaxAll | navit/navit/routech.c:373-397 | the edge loop of a relaxation on the heap and the hash is the model's, whose outcome `SearchStalling.RelaxStalls` states |
| RoutechSearches.RoutechSearch.MeetOpposite | navit/navit/routech.c:360-369 | both searches get the smaller bound and the meeting node together |
| RoutechSearches.RoutechSearch.RelaxMin | navit/navit/routech.c:347-398 | a whole relaxation is a step of the model, on the heap, the hash, the bound and the meeting node; `SearchStalling.RelaxStalls` and `SearchRuns.MeetIsLeast` say what it does |
| RoutechSearches.RoutechSearch.FollowParents | navit/navit/routech.c:481-499 | following parents ends at the start and lists the nodes in driving order |
| RoutechDriver.FindEdgeAt | navit/navit/routech.c:444-462 | the first edge with the target, if there is one |
| RoutechDriver.ResolveInto | navit/navit/routech.c:464-479 | the recursion appends the unpacked edge and ends by the level of the storing node |
| RoutechDriver.FindPath | navit/navit/routech.c:481-505 | one search's half of the route is appended, as long as the meeting node's key |
| RoutechDriver.Schedule | navit/navit/routech.c:542-556 | while both searches have work and none is finished they alternate; one that is finished or has no work leaves the turns to the other; none is chosen exactly when the one left has no work |
| RoutechDriver.Choose | navit/navit/routech.c:542-563 | when none is chosen, neither search has anything queued that could improve the bound |
| RoutechDriver.Search | navit/navit/routech.c:525-566 | the driver's loop only takes steps of a run, so it stops in a reachable state; unless it has used up its steps, nothing queued could improve the bound |
| RoutechDriver.RoutechTest | navit/navit/routech.c:507-574 | if a bound was found, the route written is drivable from source to destination and exactly as long as the bound; on maps with fewer nodes than half the driver's steps, that is the length of any shortest road in sight |
| SearchOptimum.RunTracks | navit/navit/routech.c:347-398 | over every run a node popped is relaxed or stalled for good, and a node that reads as deleted in both searches has been compared with the bound |
| SearchOptimum.WalkIsPopped | navit/navit/routech.c:301-398 | in a finished search the end of any shortest road the search follows was popped with that road's length as key at most, whatever was stalled, unless the road is longer than the bound |
| SearchOptimum.BoundIsLeast | navit/navit/routech.c:541-566 | no two walks the finished searches follow to one node not hidden are shorter than the bound, if nothing was stalled or if no road beats either of them |
| SearchOptimum.BoundIsShortest | navit/navit/routech.c:541-566 | if a shortest road goes up from both ends to a node not hidden, the bound is its length, whatever was stalled |
| SearchOptimum.ShortestIsFound | navit/navit/routech.c:541-566 | for every run: a shortest road that goes up from both ends is found exactly when, at some step, one search popped the top of one where it reads as deleted in the other |
| SearchOptimum.PoppedIsBounded | navit/navit/routech.c:541-566 | each search pops each node once at most |
| SearchOptimum.StartIsHidden | navit/navit/routech.c:156-186 | popping a start always empties the queue, so it never reads as deleted |
| SearchOptimum.RoadToHiddenStart | navit/navit/routech.c:360-369 | a map on which the only road is missed, for every length |
| CacheLists.EntryList.InsertMru | navit/navit/cache.c:116-130 | the pointers, size and order after an entry is put at the front |
| CacheLists.EntryList.Remove | navit/navit/cache.c:132-144 | the list without one entry, at whatever place |
| CacheLists.EntryList.RemoveLast | navit/navit/cache.c:154-167 | the last entry comes off, or the list is empty |
| CacheLists.EntryList.RemoveLru | navit/navit/cache.c:169-189 | the loop ends; the victim is the last entry without users and only the entries behind it moved to the front, or all are in use and the list is as before |
| CacheLists.SpunAll | navit/navit/cache.c:173-180 | the bytes seen reach the list's size only after a full turn |
| CacheInvariant.LruEviction | navit/navit/cache.c:169-189 | the victim is the least recently used entry without users; none exactly when all are in use |
| CacheInvariant.ReplaceKeeps | navit/navit/cache.c:249-268 | replacing keeps identifiers and the invariant, gives no entry data, and spares every entry in use |
| CacheInvariant.MakeRoomKeeps | navit/navit/cache.c:349-364 | making room keeps the invariant and spares every entry in use |
| CacheInvariant.LookupKeeps | navit/navit/cache.c:291-342 | a lookup returns data exactly for resident identifiers, those of the resident entry; a ghost is forgotten, entries in use stay |
| CacheInvariant.InsertKeeps | navit/navit/cache.c:344-366 | after an insertion the new entry is resident, identifiers are still unique, and no entry in use is gone |
| CacheInvariant.ReleaseKeeps | navit/navit/cache.c:204-210 | releasing takes one user off one entry |
| CacheInvariant.FlushKeeps | navit/navit/cache.c:270-278 | flushing forgets one identifier and nothing else |
| CacheInvariant.RunIsFaithful | navit/navit/cache.c:191-366 | over every run of client operations, resident entries hold what was last inserted under their identifier |
| CacheInvariant.LookupReturnsLastInserted | navit/navit/cache.c:291-342 | so a lookup that returns data returns the data last inserted |
| CacheInvariant.InUseIsKept | navit/navit/cache.c:291-366 | at any point of any run the value of an entry in use outlives a lookup or insertion; the contracts of the cache object say it of the entries themselves |
| CacheAdapts.FoundInB1 | navit/navit/cache.c:320-326 | a ghost found again in B1 raises the target by the whole ratio of B2's bytes to B1's, at least 1, up to the capacity |
| CacheAdapts.FoundInB2 | navit/navit/cache.c:327-333 | one found again in B2 lowers it by the ratio of B1's bytes to B2's, at least 1, down to 0 |
| CacheAdapts.TargetStays | navit/navit/cache.c:204-366 | no other lookup, no insertion, release or flush moves the target |
| CacheAdapts.ReplaceChooses | navit/navit/cache.c:249-268 | T1 gives way when it is not empty and has reached its target, or when all of T2 is in use; else T2 does; the last entry without users becomes the first ghost, and nothing else changes |
| CacheAdapts.MakeRoomChooses | navit/navit/cache.c:348-364 | which entry or ghost is dropped and whether one is replaced, by the bytes in T1, in T1 and B1, and in all lists |
| CacheAdapts.HitGoesToFront | navit/navit/cache.c:309-319 | an entry found in T1 or T2 heads T2 with one more user; all others keep their order |
| CacheAdapts.MissChoosesList | navit/navit/cache.c:296-341 | what is inserted after a miss goes to T2 if it was a ghost and else to T1; a ghost is forgotten and one entry replaced, an unknown identifier changes nothing else |
| CacheAdapts.InsertGoesToFront | navit/navit/cache.c:344-366 | a new entry heads T1 in the room made, or T2, for which no room is made |
| CacheBounds.InsertBytes | navit/navit/cache.c:344-366 | conservation: an insertion adds the new entry's bytes to T1+T2, to T1+B1 and to all lists, and takes off each what the guards free |
| CacheBounds.InsertFits | navit/navit/cache.c:344-366 | exactly when an insertion leaves each of the three within its limit, by the state before it |
| CacheBounds.StepFits | navit/navit/cache.c:204-366 | no lookup, release or flush raises any of the three; an insertion keeps a limit exactly when it fits |
| CacheBounds.RunFits | navit/navit/cache.c:204-366 | a run of any operations, with entries of any size, used or flushed, stays within a limit exactly when each insertion in it fits |
| CacheUniform.UniformBound | navit/navit/cache.c:291-366 | entries of one size with data, let go at once, whatever is flushed: T1 and T2 never hold more of them than it takes to reach the capacity |
| CacheUniform.UniformFits | navit/navit/cache.c:291-366 | so T1 and T2 fit the capacity in every such run exactly when the capacity is a positive multiple of that size |
| CacheUniform.UnitsFit | navit/navit/cache.c:291-366 | entries without data, let go at once, whatever is flushed: T1+T2, T1+B1 and all lists keep their limits in every run exactly when the capacity is a positive multiple of the header |
| CacheUniform.GhostsMeanFull | navit/navit/cache.c:291-366 | entries of one size, used as the client likes but not flushed: once there are ghosts T1 and T2 use the whole capacity |
| CacheUniform.KeptDataIsHeld | navit/navit/cache.c:173-180 | entries that stay in use are all held, so their number decides by how much each limit is exceeded |
| CacheRecent.RecentFits | navit/navit/cache.c:349-364 | T1 and B1 fit the capacity in every run of entries of one size, let go at once, exactly when these hold no data and the capacity is a positive multiple of the header; with flushes and without them |
| CacheTotal.TotalFits | navit/navit/cache.c:349-364 | without flushes, T1+T2 and all lists jointly keep their limits exactly when the capacity is a positive multiple of the entries' size and of the header |
| CacheTotal.TotalFitsFlushed | navit/navit/cache.c:270-366 | with flushes, both do exactly when the capacity is a positive multiple of the entries' size and that size one of the header |
| CacheTotal.FlushBreaksFull | navit/navit/cache.c:270-278 | for every size and capacity a flush can leave ghosts of a cache that is not full |
| CacheWitness.AnySizeFits | navit/navit/cache.c:349-364 | entries of any size up to the capacity keep a limit in every run exactly when the capacity leaves no room for data, whichever of the three it is |
| CacheWitness.SizesBreakFull | navit/navit/cache.c:357-361 | and a large entry that gives way to a small one leaves a ghost of a cache that is not full |
| Caches.Cache.constructor | navit/navit/cache.c:93-114 | an empty cache in order |
| Caches.Cache.HashedIsCounted | navit/navit/cache.c:116-152 | the hash knows exactly the identifiers in the four lists |
| Caches.Cache.Located | navit/navit/cache.c:296-306 | a hashed entry is on the list it names, at the place a search for its identifier finds |
| Caches.Cache.TrimEntry | navit/navit/cache.c:212-235 | an entry with data is replaced, also in the hash, by one without |
| Caches.Cache.Move | navit/navit/cache.c:237-247 | the unused victim of one list, or a header-only copy of it, heads another list as a ghost; every other entry of the two is the same object in its place, and the hash still maps exactly the owned entries |
| Caches.Cache.ReplaceEntry | navit/navit/cache.c:249-268 | replacing on the linked lists is replacing in the model; every entry in use is still the same object with its value |
| Caches.Cache.MakeRoom | navit/navit/cache.c:349-364 | so is making room for an insertion |
| Caches.Cache.Lookup | navit/navit/cache.c:291-342 | lookup on the linked lists is lookup in the model, which moves the target as `CacheAdapts.FoundInB1`, `FoundInB2` and `TargetStays` say; a hit returns the entry that was there, with one more user and its data, every other entry in use is still the same object with its value, and the cache is in order |
| Caches.Cache.Insert | navit/navit/cache.c:344-366 | insertion on the linked lists is insertion in the model; the entry given is owned with its value, every entry in use is still the same object with its value, and the cache is in order |
| Caches.Cache.NewEntry | navit/navit/cache.c:191-202 | a new entry with one user, its size counting header and data |
| Caches.Cache.Release | navit/navit/cache.c:204-210 | an entry in use, wherever it is now, has one user less, as in the model; no other entry in use changes |
| Caches.Cache.FlushEntry | navit/navit/cache.c:280-288 | flushing an entry by its data; the other entries in use stay |
| Caches.Cache.Flush | navit/navit/cache.c:270-278 | flushing by identifier, known or not; the other entries in use stay |
| PolygonClipping.CrossingBetween | navit/navit/graphics.c:1539-1562 | the crossing point is on the side and between the line's ends in both coordinates, despite truncation |
| PolygonClipping.CrossingAccuracy | navit/navit/graphics.c:1542-1561 | it is less than one pixel off the line |
| PolygonBorder.CrossingMeets | navit/navit/graphics.c:1539-1562 | the crossing is the one point on the side whose distance from the end outside, along the side, is the exact one cut to whole pixels |
| PolygonBorder.PassWalks | navit/navit/graphics.c:1589-1608 | a pass walks along the border: its vertices belong to lines that never go back, just those with an end inside; the last vertex of a line is its end, or where it leaves; a line that comes in has that crossing in front of its end, and no line has more |
| PolygonBorder.HalfOfRectangle | navit/navit/graphics.c:1595-1599 | a rectangle that reaches half into another one keeps its vertices' order |
| PolygonClipping.PassFromStaysInside | navit/navit/graphics.c:1589-1608 | a pass keeps every bound all vertices met before it |
| PolygonClipping.ClipIsInside | navit/navit/graphics.c:1589-1617 | four passes leave only vertices inside the rectangle |
| PolygonClipping.PassesKeepBox | navit/navit/graphics.c:1589-1617 | no pass leaves the polygon's bounding box |
| PolygonClipping.PassesIdentity | navit/navit/graphics.c:1589-1617 | a polygon inside the rectangle is not changed |
| PolygonClipping.ClipIsIdempotent | navit/navit/graphics.c:1589-1617 | clipping twice is clipping once |
| PolygonClipping.ClipKeepsInside | navit/navit/graphics.c:1594-1599 | no vertex inside the rectangle is lost |
| PolygonClipping.ClipAddsOnSides | navit/navit/graphics.c:1594-1605 | every other vertex of the result lies on a side's line |
| PolygonClipping.PassFromCounts | navit/navit/graphics.c:1593-1608 | a pass writes the inside vertices, the entries and the exits; around the polygon these balance |
| PolygonClipping.PassGrowth | navit/navit/graphics.c:1593-1608 | a pass writes half as much again at most |
| PolygonClipping.PassesFit | navit/navit/graphics.c:1570-1617 | four passes never outgrow buffers of 8n+1 vertices, and end with 81/16 n at most |
| PolygonClipping.FitsExactly | navit/navit/graphics.c:1539-1562 | a crossing is computed within 32 bits exactly when the line's two extents and the one product are |
| PolygonClipping.ClipFits | navit/navit/graphics.c:1542-1561 | within a bounding box of less than 2^31 pixels no step of any pass overflows 32 bits |
| PolygonClipping.SmallBoxIsExact | navit/navit/graphics.c:1542-1617 | and exactly these boxes are safe: in any other one some polygon overflows against some rectangle, wherever rectangles may lie |
| PolygonClipping.LongLineOverflows | navit/navit/graphics.c:1546 | a line that overflows against a rectangle at the origin |
| PolygonClipping.ClipPass | navit/navit/graphics.c:1590-1608 | a pass from one buffer to the other is the model's, which walks along the border (`PolygonBorder.PassWalks`), and fits |
| PolygonClipping.ClipPolygon | navit/navit/graphics.c:1564-1617 | the four passes between the two buffers leave the clipped polygon, in the order of `PolygonBorder.PassWalks`, in the last one |
| DisplayHash.FirstSlots | navit/navit/graphics.c:142-175 | the slots of the first types |
| DisplayHash.EndIsDecisive | navit/navit/graphics.c:142-155 | a probe that meets a free slot first proves the type absent; one that meets the type does so within the recorded offset |
| DisplayHash.InsertKeeps | navit/navit/graphics.c:162-167 | an insertion where the probe ended keeps every type reachable within the new offset |
| DisplayHash.SetEnds | navit/navit/graphics.c:162-173 | an insertion's probes end exactly when the type is there or a slot is free |
| DisplayHash.DisplayList.Get | navit/navit/graphics.c:142-155 | a lookup cut off after the recorded offset finds a type exactly when it is in the table |
| DisplayHash.DisplayList.Set | navit/navit/graphics.c:157-175 | a type gets one slot and keeps it; no other slot changes |
| DisplayHash.StillThere | navit/navit/graphics.c:157-175 | after an insertion the types are those before and the new one, all in their old slots |
| DisplayHash.RoomLeft | navit/navit/graphics.c:1986-1991 | with at most 1024 different types the next one is there already or finds a free slot |
| DisplayHash.DisplayList.Update | navit/navit/graphics.c:1999-2006 | after clearing and inserting, the table holds exactly the listed types |
| DisplayHash.UpdateThenGet | navit/navit/graphics.c:1999-2006 | a listed type is then found in the slot another insertion would return |
| IntegerSqrt.NextBit | navit/navit/graphics.c:1232-1240 | one step fixes one bit of the root and does not leave 32 bits |
| IntegerSqrt.StartingPower | navit/navit/graphics.c:1219-1230 | the start is the largest power of four up to n, without overflow |
| IntegerSqrt.IntSqrt | navit/navit/graphics.c:1216-1242 | the root p of every 32-bit n has p*p <= n < (p+1)*(p+1) |
| CommandEvaluator.Context.GetOp | navit/navit/command.c:84-106 | white space is skipped, and the cursor goes behind an operator exactly when it is there |
| CommandEvaluator.Context.EvalValue | navit/navit/command.c:285-365 | a literal is read as far as it reaches, or the error it gives |
| CommandEvaluator.Context.EvalBrace | navit/navit/command.c:397-408 | a parenthesised expression, or the missing parenthesis |
| CommandEvaluator.Context.EvalUnary | navit/navit/command.c:500-514 | prefix operators |
| CommandEvaluator.Context.EvalBinary | navit/navit/command.c:516-698 | the loop of each left-associative level, from its first operand to an operator that is not its own; each operator computes what `CommandLaws.ApplyMeans` states |
| CommandEvaluator.Context.EvalConditional | navit/navit/command.c:700-723 | both branches are evaluated and one is taken, or the missing colon |
| CommandEvaluator.EvaluateToInt | navit/navit/command.c:855-872 | the value or the error of a text, with every recursion ending on what is left of it; `CommandMeaning.EvaluateMeans` says which value it is |
| CommandLaws.ApplyMeans | navit/navit/command.c:516-698 | each of the 17 binary operators, by its symbol: sums, differences and products are the 32-bit number that solves the equation, quotient and rest divide with the rest smaller than the divisor and of the dividend's sign, bitwise results hold for each of 32 bits, comparisons and logic are 1 or 0; there is no result exactly when no 32-bit number solves it |
| CommandLaws.MeansOnce | navit/navit/command.c:516-698 | these laws leave one result |
| CommandLaws.ApplyUnaryMeans | navit/navit/command.c:500-514 | `~` turns each of 32 bits, `!` is 1 exactly for 0, and nothing else fits |
| CommandMeaning.DenotesValue | navit/navit/command.c:500-756 | a tree's value is the only one that follows from the meaning of its symbols |
| CommandMeaning.EvaluateMeans | navit/navit/command.c:742-756 | evaluating a tree's text gives what the tree means by C's operators, or notices that an operation in it is undefined |
| CommandMeaning.EvaluateGroups | navit/navit/command.c:516-756 | two operators between three numbers: the one that binds tighter in C is taken first, of equal ones the left |
| CommandMeaning.EvaluatePrefix | navit/navit/command.c:500-514 | a prefix operator is taken before any binary one |
| CommandMeaning.EvaluateChoice | navit/navit/command.c:700-723 | a condition reaches over every operator but the comma |
| CommandErrors.MissingColon | navit/navit/command.c:715-718 | a forgotten colon is reported for all conditions and branches, unless an undefined operation comes first |
| CommandErrors.TwoPoints | navit/navit/command.c:334-341 | a number with a second point is reported |
| CommandErrors.NothingStarts | navit/navit/command.c:368-368 | a text that starts with nothing the evaluator knows is reported |
| CommandErrors.SpaceInFront | navit/navit/command.c:298-300 | white space in front of a text does not matter |
| CommandText.ParseNumber | navit/navit/command.c:330-354 | the text of a number is read as the number when it fits 32 bits |
| CommandText.OpStops | navit/navit/command.c:84-106 | an operator is found at its own level and ends texts of tighter ones, so that a doubled operator is not taken for the single one |
| CommandText.BinaryParses | navit/navit/command.c:516-698 | operands are grouped from the left on every level |
| CommandText.TextParses | navit/navit/command.c:397-756 | the minimally parenthesised text of a tree is read back as its value wherever it can stand |
| CommandText.EvaluateText | navit/navit/command.c:742-756 | evaluating a tree's text gives its value, which is what it means (`CommandMeaning.DenotesValue`), and leaves nothing, or notices the undefined operation |
| CommandText.MissingParenthesis | navit/navit/command.c:403-404 | a forgotten closing parenthesis is reported for every tree, unless an undefined operation in it comes first |
| NavigationModel.PassedAllIsRebuilt | navit/navit/navigation.c:696-715 | passing any items, with two left, leaves the commands the rest would get by itself |
| NavigationModel.CommandsLeft | navit/navit/navigation.c:696-715 | for any answers: no command outlives all items exactly when there were two items or more and no turn was required at the last |
| NavigationModel.LastItemCommands | navit/navit/navigation.c:703-710 | on a complete route the destination's command goes when its item becomes the first; on a route of the destination alone it stays for good |
| NavigationModel.CommandsPointInOrder | navit/navit/navigation.c:1358-1377 | on a complete route commands point, in strictly rising order, to items behind the first, ending at the last item, also after passing items |
| NavigationModel.OneForTheLast | navit/navit/navigation.c:1376-1376 | so the destination has one command, the last one |
| NavigationModel.CommandIffRequired | navit/navit/navigation.c:1366-1375 | after passing any items, an item on the way has a command exactly when a turn is required there |
| NavigationModel.TurnIsAnnounced | navit/navit/navigation.c:1366-1375 | on a complete route, also after passing items, an item between the first and the last has a command exactly when streets branch off there and the tests find a turn; it is the only one for the item and has the angle they found |
| NavigationModel.DestinationIsAnnounced | navit/navit/navigation.c:1376-1376 | the last command is the only one for the destination and has the angle 0 |
| Navigations.Navigation.AddItm | navit/navit/navigation.c:871-881 | a new item is linked behind the last one |
| Navigations.Navigation.MakeManeuvers | navit/navit/navigation.c:1358-1377 | the linked commands are those the model picks, with no turn where there is no other way (1153-1155) and, by `NavigationModel.TurnIsAnnounced`, the turns found elsewhere |
| Navigations.Navigation.CompleteRoute | navit/navit/navigation.c:1899-1901 | the destination, without other ways, is linked last, and the route gets its commands, those of `NavigationModel.TurnIsAnnounced` and `DestinationIsAnnounced` |
| Navigations.Navigation.AddCommand | navit/navit/navigation.c:1347-1355 | a new command is linked behind the last one |
| Navigations.Navigation.DestroyItms | navit/navit/navigation.c:688-721 | the items in front of the given one go, or all, and with them the commands of items that became the first |
| Navigations.Navigation.CalculateDest | navit/navit/navigation.c:946-977 | every item knows length, time and number of items to the destination; the incremental form gives the same sums |
| Navigations.SumsDiffer | navit/navit/navigation.c:968-975 | the distances of two items differ by what lies between them |
| Navigations.SumsOfRest | navit/navit/navigation.c:696-715 | the sums stay right when items are passed |
| Navigations.SumsBehindFirst | navit/navit/navigation.c:742-744 | a new length of the first item leaves the sums behind it right, as the incremental form needs |
| Navigations.Navigation.NavigationTime | navit/navit/navigation.c:566-588 | the time from one item up to another, both included, or -1 when it does not follow; exactly then if no time is negative |
| AddressPhrases.FixSpaces | navit/navit/search.c:893-921 | the words of the address with single spaces, or the step in front of the buffer exactly without a word |
| AddressPhrases.PassSpaces | navit/navit/search.c:907-918 | a run of separators becomes one space between words and nothing at the ends |
| AddressPhrases.WordsOfJoin | navit/navit/search.c:893-921 | joined words are found again, so normalising is idempotent |
| AddressPhrases.WordAhead | navit/navit/search.c:893-921 | an address up to its first comma, slash or blank is its first word |
| AddressPhrases.SeparatorAhead | navit/navit/search.c:893-921 | such a character in front of an address does not matter |
| AddressPhrases.CutPhrases | navit/navit/search.c:930-939 | the text cut at each space from the right |
| AddressPhrases.CutsAreRuns | navit/navit/search.c:930-939 | these are the runs that start with the first word, longest first |
| AddressPhrases.PhraseCount | navit/navit/search.c:923-950 | there are n(n+1)/2 phrases |
| AddressPhrases.PhraseAt | navit/navit/search.c:923-950 | each run of words is at the place its start and end give |
| AddressPhrases.PhraseIsRun | navit/navit/search.c:923-950 | every phrase is a run of words |
| AddressPhrases.PhrasesOf | navit/navit/search.c:1184-1185 | normalising and splitting an address with a word yields exactly all runs of its words |
| PostalMasks.PostalMatch | navit/navit/search.c:650-666 | a code matches a mask exactly when lengths agree and every position does |
| PostalMasks.Merge | navit/navit/search.c:613-638 | the merged mask, or none when nothing changes |
| PostalMasks.MergeKeepsAgreement | navit/navit/search.c:621-633 | a position survives exactly when mask and code agree up to it |
| PostalMasks.MergeWidens | navit/navit/search.c:613-638 | a merged mask matches what the mask matched, and the code if it has its length |
| PostalMasks.SearchLevel.AddResult | navit/navit/search.c:668-688 | a new item is listed with its code as mask, a known one gets its mask merged, no other mask changes |
| PostalMasks.CodeIsCovered | navit/navit/search.c:668-688 | after any results an item's mask matches a code of its length that the item got, for good, exactly when the item was known before or the code came without a mask of that length that contradicts it |
| PostalMasks.MasksCoverCodes | navit/navit/search.c:668-688 | a code that is looked at is matched by every mask of its length the item has from then on |
| PostalMasks.MasksOnlyWiden | navit/navit/search.c:668-688 | a mask never stops matching a code |
| PostalMasks.FirstCodeIsMask | navit/navit/search.c:613-688 | as long as an item has no mask, the next code becomes the mask itself; only the first result of an item can bring another one |
| PostalMasks.MaskIsPrefix | navit/navit/search.c:613-688 | after any results a mask is the first one as far as all later codes agree with it from the left, and dots from there |
| PostalMasks.MaskInsteadOfCode | navit/navit/search.c:676-678 | a first result whose mask contradicts its code |
| HttpHeader.HeaderEnd | navit/navit/file.c:182-200 | the scan in steps of two finds what the scan in steps of one finds, and None exactly when that does |
| HttpHeader.BlankLineBytes | navit/navit/file.c:187-196 | a blank line is two line feeds, or carriage return and line feed twice |
| HttpHeader.FirstEndIsFirst | navit/navit/file.c:182-200 | that is the end of the earliest blank line, and None exactly when there is none |
| HttpHeader.MoreData | navit/navit/file.c:437-445 | the end found stays the same when more data arrives |

## Left out

- RoutechDriver.RoutechTest: on maps on which the driver uses up its 5000 steps, or on which the top of every shortest road is hidden, the route need not be a shortest one (`RoadToHiddenStart`); that the hierarchy has a shortest road that goes up from both ends is assumed, as contraction is what provides it.
- Route search: integer overflow of keys, the map access behind the graph, `routech_find_nearest`, the drawing of segments in `routech_resolve_route`, printing, and the second identical run of `routech_test`.
- RoutechDriver.RoutechTest: when the searches do not meet, the source follows a meeting node that is not there; the model writes nothing.
- RoutechDriver.ResolveInto: assumes a well-formed hierarchy, as the source does; an edge that is not found is not modelled.
- Cache: hit and miss statistics, dumping, identifiers as bytes, and clients that keep a pointer after flushing.
- CacheUniform.UniformFits: the configurations are those of clients that let go at once and fetch one size; for all other runs `CacheBounds.RunFits` gives the condition insertion by insertion.
- Caches.Cache.Insert: needs the lookup that precedes it, as the client protocol does.
- Graphics: drawing callbacks, text, icons, `clip_line`, and the buffer that a large polygon does not give back when clipping made it small.
- DisplayHash.DisplayList.Set: needs a free slot for a new type, because the source's loop does not end otherwise.
- Command: names, attributes, function calls, assignments, object filters, strings, fractions and saved commands are the outcome `Outside`; operations C leaves undefined are the outcome `Undefined`.
- Navigation: angles, roundabouts, announcements and map access; `maneuver_required2` is a sequence of answers, apart from its first test. Commands behind a freed last item are only described, not followed.
- Search: result lists of countries, towns and streets beyond their masks, and house numbers.
- HTTP: reading the socket and parsing the header lines.
- Memory allocation is not limited, and freed objects are simply no longer owned.
