# Verified model of x-expr's memory management and numerals

x-expr keeps every object of an embedding language in one header format: a link, a type, a flag
word and data units. Objects allocated on a base environment are linked into the allocation
chain; objects in stack storage that a frame wants kept are linked, through the same header slot,
into the root chain. A collection marks the root chain and the base tree and sweeps the
allocation chain. The base is itself a tree of such objects, in which the head of the root chain,
the lists of hooks and mark roots, the count of allocated objects and the allocation ceiling are
fields.

The project models that machinery twice and connects the two.

- **On values.** `States` has the state of one environment (the objects and their contents, both
  chains, where the accessor paths lead, what has left the library) and one function per
  operation. `Marking`, `Sweeping` and `Collecting` say what a collection does; `Effects` says of
  every operation what each field of each object holds afterwards, and `Departures` what leaves
  the library in a collection and in which order; `Runs`, `Accounts`, `Blocks`, `OwnedData`,
  `HeapLists` and `Borrowing` prove what holds over whole runs, for all sequences of operations
  the library's rules allow.
- **On objects.** `Collector` and `Environments` carry the algorithms out step by step on mutable
  objects: flag words as the only visited set, header links rewritten behind a trailing pointer,
  base fields found by walking the tree; `SweepSteps` and `CallDepth` say what one turn of the
  sweep does and how deep the marker's calls nest. Each method is proved to do what the function
  of the same name says. `BaseTree` and the constructor of `Environment` build the tree of
  `x_base_make` and show that every accessor path leads to its field.

`Radix` and `Library` do the same for the integer printer and parser: positional notation and its
laws, and the in-place loops proved against them.

The state invariant (`States.Inv`) has six parts: the base tree is in place and SHARED; both chains
are free of repetitions and share no node; an object on the chain that owns a datum is no pair,
holds no object and is the only owner; nothing on a chain points at a freed object; no
allocation-chain object carries a mark between collections; the root-chain field holds the head
of the root chain. A collection may be made when no mark hook is set and the rules of
include/x-heap.h are kept (`States.Ready`): every reachable pair outside the allocation chain is
registered, and a SHARED object that is not reachable points only at objects that will be kept.
The last condition is necessary as well as sufficient (`Collecting.CollectSafeExactly`).

An object flagged X_OBJ_FLAG_OWN owns the datum in its first data unit, which is released with it.
The runs are those in which a new owner is no pair, its datum is memory outside the objects or nil,
and a datum is handed over only while it has no owner (`States.MayOwn`); the unit is then left alone
(`States.Writable`). An owner that held an object would free it behind the collector's back.

## Where the code and its comments differ

- include/x-base.h (line 246) says that objects are counted once the base is set. src/x-obj.c
  (lines 96-98) also wants a type in the base's type slot, and `x_base_make` leaves that slot nil,
  so nothing is counted until an embedder gives the base a type. The model follows the code
  (`Accounts.TypingStartsCount`).
- The comment in src/x-heap.c (lines 108-112) covers a sweep started at the base to tear
  everything down. Such a sweep, and any other not started at the base's own link, stores through
  a released node as soon as the first two nodes are freed (`Sweeping.StaleStoreExactly`), and
  leaves a broken chain as soon as the first one is (`Sweeping.SweepKeepsChainExactly`). The sweep
  on objects is proved for the other starts: the base's own link and every retained node.
- The parser moves the end position past white space and sign even when no digit follows, and
  does not skip `0x` under an explicit base 16 (`Library.ParseText`, `Library.PrefixNotSkipped`).

## Model

| member | source | states |
|---|---|---|
| `Collector.TreeMark` | src/x-heap.c:34-63 | On any finite object graph, cycles included, and from any marks at entry: afterwards exactly the objects on all-unmarked paths from the argument have gained the mark bits, no other field of any object has changed, and the walk ends. It returns the last object visited, which is the argument itself if that is no pair or was marked. As many calls were active at once as CallDepth.Calls says |
| `Collector.WalksAlongRest` | src/x-heap.c:41-62 | The object returned is some number of steps along rest from the argument, all of them through pairs that lacked a mark bit at entry |
| `Collector.MarkPair` | src/x-heap.c:42-48 | One turn of the loop at a pair: going on from the rest comes to the same marks and the same deepest nesting of calls as starting at the pair would have, and fewer objects are unmarked |
| `CallDepth.CallsBounded` | src/x-heap.c:41-60 | On any graph and from any marks, every rank that falls along first and does not rise along rest bounds the nesting of calls |
| `CallDepth.CallsOfTree` | src/x-heap.c:41-60 | On an unmarked tree the calls nest exactly as deep as the tree does through first, plus one: the length of a list does not matter |
| `CallDepth.TreeNests` | src/x-heap.c:41-60 | On every acyclic structure the nesting depth through first is such a rank |
| `CallDepth.NestingLeast` | src/x-heap.c:44-48 | Every such rank is at least the nesting depth |
| `CallDepth.FlatNests` | src/x-heap.c:41-60 | Pairs whose first is never a pair nest once even if they form a cycle, so marking them takes a call depth of two at most |
| `Collector.ChainClear` | src/x-heap.c:141-148 | The bits are cleared on exactly the nodes of the chain; links, data and all other objects stay |
| `Collector.RootChainMark` | src/x-heap.c:181-187 | From the head of the chain: clearing all registered nodes and then marking from each in turn equals marking from all of them at once with their stale marks gone |
| `Environments.Environment.MarkRegistered` | src/x-heap.c:173-188 | On a base that is set the chain its field heads is marked so; on one that is not, nothing changes |
| `Marking.MarkStep` | src/x-heap.c:41-48 | Marking from an unmarked object is setting its own bits and marking from its children |
| `Marking.MarkTwice` | src/x-heap.c:45-46 | Marking from one set and then another equals marking from their union |
| `Marking.MarkClosedEntry` | src/x-heap.c:34-63 | If nothing marked at entry points at anything unmarked, the marked objects afterwards are the old ones and everything reachable |
| `Marking.MarkRootsExact` | src/x-heap.c:160-188 | If marked unregistered objects have only marked or registered children, the marked objects end up being exactly those and everything reachable from registered nodes, whatever stale marks the registered nodes carried and whatever their order |
| `Marking.MarkOrderIrrelevant` | src/x-heap.c:160-188 | Marking the base tree before or after the root chain gives every object the same flag word, from any marks at all |
| `Marking.WashUndoesMark` | src/x-heap.c:124-148 | Clearing bits that no object of a set carried before marking restores their flag words |
| `Marking.MarkSpreads` | src/x-heap.c:41-48 | Bit by bit: marking adds all the mark bits to a flag word or none, gets to where it starts, and from every pair it marks to first and rest |
| `Marking.MarkStaysWithin` | src/x-heap.c:41-60 | It does not leave any set that holds its start and, with every pair lacking a mark bit, first and rest; so the two statements determine what is marked |
| `Marking.WashClears` | src/x-heap.c:141-148 | Clearing takes all the bits from the flag words of the given objects and changes nothing else |
| `Graphs.ReachSplit` | src/x-heap.c:41-60 | What can be reached from two sets through unmarked objects is what the first reaches and then what the second reaches through the objects still unmarked |
| `Graphs.ReachPeel` | src/x-heap.c:42-46 | What an unmarked object reaches is itself and what its children reach without it |
| `Graphs.ReachPastBlack` | src/x-heap.c:160-167 | Skipping a set of marked objects loses nothing if their edges lead only to each other or to the starting set |
| `Objects.LinkedIsDistinct` | include/x-heap.h:136-141 | A chain of header links that ends in nil visits no node twice |
| `Objects.LinkedUnique` | include/x-obj.h:320 | A head and the header links determine the chain |
| `Sweeping.SweepExact` | src/x-heap.c:93-119 | Going node by node gives the outcome stated at once: the dead are gone, survivors lost only the mark bits, the count fell by the number of the dead |
| `Sweeping.SurvivorsInOrder` | src/x-heap.c:93-119 | Survivors keep their relative order |
| `Sweeping.SurvivorsExact` | src/x-heap.c:94-95 | The nodes left are exactly the marked or SHARED ones, none twice |
| `Sweeping.AnyBitRetains` | src/x-heap.c:94-95 | A node is kept exactly if it carries at least one bit of the mask, or bit 8 |
| `Sweeping.SweepClears` | src/x-heap.c:97 | A node that is kept loses all bits of the mask and nothing else, but for counting; other objects keep their flag words |
| `Sweeping.DeadEvents` | src/x-heap.c:93-119 | What leaves the library during a sweep is, for each object, what freeing it once makes leave if it is neither marked nor SHARED, and nothing otherwise |
| `Sweeping.EachFreedOnce` | src/x-heap.c:100-106 | In a sweep of nodes behind the base each node not retained is released exactly once, at the start of its block, and has its free hook called exactly once, each other node never; the datum an object owns is released exactly with it |
| `Sweeping.TeardownExactly` | src/x-heap.c:108-115 | A sweep of the base and the chain behind it releases every block where it was obtained if and only if the base is kept, there are no extra units, or no node freed after the base carries the META flag |
| `Sweeping.HookComesFirst` | src/x-heap.c:101-106 | The free hook for a node runs just before the node and its datum are released |
| `Sweeping.StaleStoreExactly` | src/x-heap.c:90-106 | A sweep started anywhere on the chain, or at the base, stores through a node it has released if and only if it was not started at the base's own link and neither of the first two nodes is retained |
| `Sweeping.SweepKeepsChainExactly` | src/x-heap.c:90-119 | The links in memory afterwards lead from the base through the nodes before the start and the survivors, and nothing else, if and only if the sweep was started at the base's own link or at a node that is retained |
| `Environments.Environment.Sweep` | src/x-heap.c:89-121 | Started at the head or at a retained node, given how to dispose of objects and where to count: the in-place filter, with a trailing pointer, leaves chain, objects, count and calls made as the specification says, and reads and writes only live objects |
| `Environments.Environment.SweepSetup` | src/x-heap.c:85-88 | What the base says of disposal: a free hook exactly if the free-hook field holds one; the number of extra units and the place to count only from a base with type and tree |
| `Departures.CollectDepartures` | src/x-heap.c:100-106 | A collection calls the free hook once for each object it frees if the free-hook field holds one, and else never; it releases the block of each where it starts, extra units included, and its datum if it owns one; and none of that for other objects |
| `Departures.CollectLog` | src/x-heap.c:93-119 | Nothing else leaves the library during a collection |
| `Departures.RunCallsFreeHook` | src/x-heap.c:101-103 | So it is for the free hook at every collection of every run |
| `Departures.SweepInOrder` | src/x-obj.c:285-295 | In every sweep, hook or not, the release of a datum is followed at once by that of the block that holds its address; with a hook its call comes right before both |
| `Departures.RunInOrder` | src/x-obj.c:285-295 | Over every run from a new base a datum is released right before the block that holds its address, and a free hook runs right before the releases of its object |
| `Departures.RunAnnounced` | src/x-heap.c:101-103 | If the base has a free hook whenever a run collects, no block is released over the whole run without the hook for its object right before |
| `Departures.NewInOrder` | src/x-base.c:40-106 | A new base is in that order to begin with |
| `Environments.Environment.Unlink` | src/x-heap.c:105 | Storing the node's link in the node before it takes exactly that node off the allocation chain and leaves the root chain alone |
| `Environments.Environment.Free` | src/x-obj.c:279-296 | The count falls by one where frees are counted, the datum is released if bit 5 says the object owns one, and then the block, further in front by the extra units if bit 7 says so; nothing else changes |
| `Collecting.MarkedExactly` | src/x-heap.c:19-31 | After both marking passes an allocation-chain object carries a mark exactly if it is reachable from the base tree or a registered object |
| `Collecting.CollectExact` | include/x-heap.h:10-31 | A collection frees exactly the chain objects that are neither reachable nor SHARED; all others keep type and data, and chain objects their flag words |
| `Collecting.CollectChain` | src/x-heap.c:65-122 | The chain afterwards is the old one without the garbage, in the same order |
| `Collecting.CollectCounts` | src/x-obj.c:279-283 | The allocated-object count falls by the number of objects collected |
| `Collecting.CollectSafeExactly` | include/x-heap.h:19-31 | A collection leaves no pointer to a freed object if and only if every SHARED object that is not reachable points only at chain objects that are SHARED or reachable |
| `Collecting.CollectKeepsInv` | include/x-heap.h:130-152 | A collection keeps the whole invariant: two disjoint chains, base tree in place, nothing dangling, no mark left on the chain |
| `Environments.Environment.Collect` | include/x-heap.h:12-17 | With no mark hook set, root-chain marking, marking from the base tree and the sweep on the objects take the state to the specified collection and keep the invariant |
| `Effects.ReachableSpreads` | src/x-heap.c:19-30 | Reachable are the registered objects and the base tree, and with each pair its first and its rest |
| `Effects.ReachableLeast` | src/x-heap.c:19-30 | Nothing else is: any set that holds all that holds every reachable object |
| `Effects.CollectLeaves` | src/x-heap.c:93-106 | A collection leaves on the chain exactly the objects that carry bit 8 or are reachable, and frees the others of the chain and nothing else |
| `Effects.CollectKeeps` | src/x-heap.c:93-119 | What it leaves has its type and data, on the chain its flag word, elsewhere its flag word but for mark bits; of the numbers only the count of a typed base changes, by as many nodes as the chain lost |
| `Effects.RunPointsAtLive` | include/x-heap.h:19-31 | In every state of a run an object on either chain is there, is on one chain only, carries no mark bit if it is on the allocation chain, and has in first and rest, if it is a pair, only objects not freed |
| `Environments.Environment.MarkAll` | include/x-heap.h:13-14 | With no mark hook set, the two marking calls set exactly the specified marks and touch nothing else |
| `Runs.StepKeepsInv` | include/x-heap.h:130-152 | Every operation the rules allow keeps the invariant |
| `Runs.RunKeepsInv` | include/x-heap.h:130-152 | In every reachable state both chains are free of repetitions and share no node, nothing on them points at a freed object, no chain object carries a mark and the base tree is intact |
| `Runs.RunFreesNothingReachable` | include/x-heap.h:19-31 | Over every run of allocations, assignments, pushes, pops and collections no step frees an object that is reachable from the roots |
| `Runs.RunCollectsPrecisely` | src/x-heap.c:65-122 | However many collections came before, each leaves on the chain exactly the reachable and the SHARED objects |
| `Runs.FrameSuffix` | include/x-heap.h:130-152 | While a frame does not pop below its start, the root chain it started with is a suffix of the current one |
| `Runs.RestoreGivesBack` | include/x-heap.h:149-151 | The head saved when a frame started is still that many nodes down the chain, and putting it back after a nonlocal exit gives back exactly the saved chain |
| `Runs.BalancedRoots` | include/x-heap.h:130-152 | Balanced pushes and pops, however nested, give back exactly the chain there was |
| `Environments.Environment.RootSlot` | include/x-heap.h:171-172 | The slot is the field that heads the root chain, or nil exactly on a base that is not set |
| `Environments.Environment.Push` | include/x-heap.h:181-186 | Two stores put an unregistered off-chain object in front of the root chain, keeping both chains intact; without a slot nothing happens |
| `Environments.Environment.Pop` | include/x-heap.h:193-196 | One store takes the newest node off the root chain, keeping both chains intact; without a slot nothing happens |
| `Environments.Environment.Restore` | include/x-heap.h:149-151 | Storing a saved head cuts the chain back to the nodes below it |
| `Effects.RootsStore` | include/x-heap.h:160-196 | Pushing, popping and restoring move the root chain as they say, store its new head in the one field that heads it, and change nothing else |
| `Environments.Environment.Place` | include/x-obj.h:341 | An object outside both chains may be set up afresh without disturbing them |
| `Effects.OthersStore` | include/x-base.h:230-265 | Typing the base, arming the ceiling and setting up an object outside the chains change one field, or that object, and nothing else |
| `Environments.Environment.Alloc` | src/x-obj.c:91-225 | Latch, ceiling, failure or a new object, as specified, and the invariant is kept; a new object has the type and the data units asked for, in the order given, and all flags asked for |
| `Effects.NewStores` | src/x-obj.c:167-223 | An allocation with memory and below the ceiling: the new object has type, data units and flags as asked for, bit 7 besides exactly when the base is typed and set and asks for extra units; it heads the chain; its block starts that many units before its header; every other object is as it was but for the count of a typed base |
| `Effects.ServedExactly` | src/x-obj.c:104-164 | An object is allocated if and only if there is memory and, on a base with type and tree, the limit is 0 or positive and above the count |
| `Effects.TripReported` | src/x-obj.c:128-136 | An allocation that finds the ceiling reached sets the limit to -1 and changes nothing else of any object; by message, hook and what the hook does it is determined what is reported and whether the program ends: it goes on only if a hook that is set jumps away |
| `Effects.RefusalReported` | src/x-obj.c:109-164 | Under the latch or without memory: on a typed base the message, if there is one, goes to standard error and the program ends without the hook; on another base nothing happens |
| `Environments.Environment.TurnDown` | src/x-obj.c:109-164 | A latched ceiling, a newly tripped one and exhausted memory each end as specified: latch, report and stop, or just a nil result without a full base |
| `Environments.Environment.Report` | src/x-obj.c:131-135 | With the latch already down a report goes through the error hook if there are a message and a hook, and ends the program unless the hook never returns |
| `Environments.Environment.RunHook` | src/x-obj.c:109-132 | A hook that asks for an object calls the allocator like anyone else, and is stopped by the latch |
| `Accounts.HookStopsAtLatch` | src/x-obj.c:109-119 | With the latch down a hook that asks for an object ends in the latched branch, without entering a hook again |
| `Environments.Environment.Consult` | src/x-obj.c:104-128 | What the allocator reads of limit, count, message and hook decides between allowed, latched and tripped |
| `Environments.Environment.ReadExtra` | src/x-obj.c:96-100 | The extra units are read from a full base only |
| `Accounts.CountIsChainLength` | src/x-obj.c:167-190 | On a full base the count is always the chain length less the chain length when counting began |
| `Accounts.CountIsNewObjects` | src/x-obj.c:167-170 | The count is the number of objects allocated since counting began and still there, less the earlier objects freed since; it is exactly the former if and only if no earlier object was freed, as when all were SHARED |
| `Accounts.TypingStartsCount` | src/x-obj.c:91-98 | The base as made is not counted on; giving it a type starts the count at zero, ceiling disarmed, with only SHARED objects on the chain |
| `Accounts.SharedNeverFreed` | include/x-heap.h:20 | An object flagged SHARED stays on the chain over every run |
| `Accounts.CountNeverExceedsCeiling` | src/x-obj.c:121-136 | While ceilings are armed at or above the count, the count never exceeds the ceiling |
| `Accounts.CeilingTripsOnce` | src/x-obj.c:109-136 | Over a whole run the error hook is entered at most once for the ceiling as armed at the start and once more for each arming after a trip, even if it asks for objects or never returns; between a trip and the next arming the latch stays down, the hook is not entered and the chain never grows |
| `Runs.LatchedRefusesAll` | src/x-obj.c:109-119 | With the latch down every allocation is the same: a message to standard error if there is one, and the end of the program |
| `Blocks.BlocksBalance` | src/x-obj.c:138-296 | Over every run the block at any place has been obtained once more than released exactly while it is that of the base or of an object on the chain: nothing is released twice, lost, or released at another address than it was obtained at, extra units included |
| `Blocks.BlocksOfNewBase` | src/x-obj.c:138-296 | So it is for every run from a new base |
| `Blocks.NewLead` | src/x-obj.c:173-177 | The allocator flags exactly the headers it puts extra units in front of |
| `OwnedData.OwnedReleasedOnce` | src/x-obj.c:285-287 | Over every run from a new base a datum handed to an object to own has been handed over once more than released exactly while an object on the chain owns it, and unless it is nil it has one owner at most; so it is released exactly once, when that owner is freed |
| `OwnedData.OwnersHoldNoObject` | src/x-obj.c:285-287 | Over every run what owns a datum is no pair and holds no object, so what is released with it is never an object |
| `OwnedData.SweepBalance` | src/x-obj.c:285-287 | A sweep releases the data of exactly the owners it frees |
| `Blocks.CollectHolds` | src/x-obj.c:285-295 | A collection gives back exactly the blocks of its garbage |
| `Environments.Environment.AddMarkHook` | src/x-heap.c:213-218 | One new pair in front of the list in the mark-hooks field, or a refused allocation |
| `Environments.Environment.AddFreeHook` | src/x-heap.c:230-235 | The same for the list in the free-hooks field |
| `Environments.Environment.AddMarkRoot` | src/x-heap.c:247-252 | The same for the list in the mark-roots field |
| `Environments.Environment.PushField` | src/x-obj.c:534-539 | A data unit that holds neither the base tree nor a number of the allocator comes to hold a new pair of the value and what it held; or the allocation is refused |
| `Effects.PushStores` | src/x-obj.c:534-539 | A push with memory and below the ceiling: the new pair has the flags asked for, bit 7 besides with extra units, first the value and rest the old value of the data unit; the data unit holds the pair; nothing else changes but the count of a typed base |
| `Environments.Environment.PopField` | src/x-obj.c:552-559 | The data unit comes to hold the rest of the pair it held, whose first is returned |
| `Effects.SlotStores` | src/x-obj.c:556 | An assignment stores its value in its own data unit and changes nothing else of any object or chain |
| `Effects.PopGivesBack` | src/x-obj.c:534-559 | After a push the pop is permitted, finds the value pushed and gives the data unit its old value back; of the push only the new pair on the chain and the count are left |
| `HeapLists.ListOverRun` | src/x-heap.c:190-252 | After any run that leaves the list to the library it holds what was added, last first, followed by what it held before |
| `HeapLists.ListedNeverFreed` | src/x-heap.c:236-252 | No object ever added to the list is freed, however many collections the run has |
| `HeapLists.ListReachable` | include/x-heap.h:109-110 | Every item of the list is reachable from the roots of a collection |
| `Effects.PushKeepsFields` | src/x-heap.c:247-252 | A push onto the current value of a field stores the new pair in that field and leaves everything else any accessor leads to as it was, apart from the count |
| `HeapLists.NewListsEmpty` | src/x-base.c:81-87 | The lists of a new base are empty |
| `Borrowing.BorrowedMarkReturned` | src/x-heap.c:124-148 | Mark with bits no chain object carried, let the program run on without collecting, clear along the chain: every object that was on the chain is there, in order, with its old flag word, reachable or not |
| `Borrowing.FlagsStay` | src/x-heap.c:128-136 | Without a collection the chain only grows at its head and no flag word on it changes |
| `Environments.Environment.ClearChain` | src/x-heap.c:141-148 | Clearing along the allocation chain changes just those bits of just those objects |
| `Environments.Environment.constructor` | src/x-base.c:40-106 | The new base satisfies the invariant; its tree is the whole allocation chain, every node SHARED and an object of its own |
| `Environments.Environment.Build` | src/x-base.c:19-21 | Evaluating the nest of pair and atom makes one more SHARED object for each node, linked as the nest says |
| `BaseTree.FieldsOf` | include/x-base.h:72-265 | Every accessor path the allocator and the collector use, the mark hook and the extra metadata among them, leads in the tree as built to its own field cell |
| `BaseTree.FilesOf` | include/x-base.h:86-108 | So do the accessors of the files |
| `BaseTree.OtherFieldsOf` | include/x-base.h:120-189 | So do the remaining accessors |
| `BaseTree.BuiltPair` | src/x-base.c:19 | A new pair of two trees laid out apart is their pair laid out |
| `BaseTree.NewPlaces` | src/x-base.c:43-103 | In a new base the hooks and the extra units are those given, lists and root chain are nil, count and ceiling zero |
| `BaseTree.NewBaseInv` | src/x-base.c:26-30 | A new base satisfies the invariant that every run keeps |
| `Library.IntToStr` | src/x-lib.c:46-80 | For every integer but the most negative: the buffer starts with the canonical numeral and a terminator and is otherwise unchanged; invalid arguments give nil and change nothing |
| `Library.WriteDigits` | src/x-lib.c:63-67 | The loop writes the digits of the number, least significant first |
| `Library.Reverse` | src/x-lib.c:70-76 | The bytes between two positions are turned around in place |
| `Library.Swap` | src/x-lib.c:73-75 | Three exclusive ors exchange two bytes |
| `Library.BufferBound` | src/x-lib.c:37-39 | Numeral and terminator never take more than 65 bytes, 8 * sizeof(x_int_t) + 1, and one number in base 2 takes them all |
| `Radix.DigitsMean` | src/x-lib.c:63-67 | The digits printed are canonical and their positional value is the number |
| `Radix.PrintedDigit` | src/x-lib.c:63-67 | Printed digit k from the right is n / b^k mod b, written 0 to 9 and then a to z |
| `Radix.CanonicalUnique` | src/x-lib.c:33-36 | Each number has only one canonical numeral in a base |
| `Radix.DigitsLength` | src/x-lib.c:37-39 | A number has k digits exactly from b^(k-1) up to b^k |
| `Radix.TidyDigits` | src/x-lib.c:154-190 | Printing the value of any digit string gives it back in lower case without leading zeros |
| `Radix.ValueIsSum` | src/x-lib.c:159-192 | The value the digit loop accumulates is the sum of the digits, letters of either case standing for 10 to 35, each times its power of the base |
| `Library.StrToInt` | src/x-lib.c:131-199 | For every terminated string whose digits fit the parser computes the specified value and end without overflow on the way, and the end is not past the first terminator |
| `Library.ReadDigits` | src/x-lib.c:159-192 | The digit loop reads the longest run of digits of the base, numbers and letters of either case, and accumulates the sum of the digits times powers of the base |
| `Library.ParseText` | src/x-lib.c:133-199 | Byte by byte: on white space, an optional sign, digits (numbers, letters of either case) and a rest that does not continue them, the result is the signed sum of the digits times powers of the base and the end is just past the digits, even when there are none |
| `Library.EveryTextSplits` | src/x-lib.c:135-192 | Every string is such a text |
| `Library.AutoBase` | src/x-lib.c:146-157 | With base 0 a text parses as it would in base 10, in base 8 after a leading zero, or after a zero and an x of either case in base 16 with the x taken out |
| `Library.RoundTrip` | src/x-lib.c:46-199 | For every integer and base 2 to 36 parsing the printed numeral gives the integer back, with the end at the terminator and a magnitude equal to that of the integer |
| `Library.AnyCase` | src/x-lib.c:46-199 | A numeral with any of its letters in upper case reads back as the same integer |
| `Library.DecimalRoundTrip` | src/x-lib.c:46-199 | A decimal numeral also reads back under base 0 |
| `Library.Respelled` | src/x-lib.c:133-199 | All spellings of a number (letter case, leading zeros, plus sign, spaces) print to the same canonical numeral |
| `Library.PrefixNotSkipped` | src/x-lib.c:146-192 | Under an explicit base 16 a 0x prefix is not skipped: the result is 0 and the end is at the x |
| `Library.OverflowExactly` | src/x-lib.c:159-192 | Some intermediate value leaves the integer range if and only if the digits alone, whatever the sign, stand for more than the greatest integer |
| `Library.LeastOverflows` | src/x-lib.c:159-199 | So the numeral of the least integer overflows although its value fits |

## Left out

- Environments.Environment.Collect: a collection with a mark hook set is outside the model (`States.Ready` says so), because the hook's body is foreign; only pairs have edges.
- Environments.Environment.MarkAll: the same.
- Environments.Environment.Sweep: on objects the start is the base's own link or a retained node; of the other starts `Sweeping.StaleStoreExactly`, `Sweeping.SweepKeepsChainExactly` and `Sweeping.TeardownExactly` say what becomes of links and blocks, and memory that was released is not otherwise modelled. Where frees are counted and how many extra units there are is found once before the loop, not again at each freed node; the atoms are SHARED and keep their place throughout.
- Environments.Environment.Free: where frees are counted and how many extra units there are is found by the caller, for the same reason.
- Environments.Environment.Alloc: allocation without a base is not modelled, nor is more than one base.
- Environments.Environment.AddMarkHook: memory exhaustion on a base that is not full is excluded, because the source then reads through the nil pair.
- Environments.Environment.AddFreeHook: the same.
- Environments.Environment.AddMarkRoot: the same.
- Environments.Environment.PushField: the field is a data unit of an object, not a pointer variable of C, and not one of those that hold the base tree together or a number of the allocator; memory exhaustion as for AddMarkHook.
- Environments.Environment.PopField: the field as for PushField.
- Environments.Environment.constructor: failure of the allocations x_base_make makes, an existing base to allocate from, and the order in which C evaluates arguments (the model allocates first before rest) are not modelled.
- Library.IntToStr: the most negative integer is excluded, because its negation is undefined in the source.
- Library.StrToInt: strings whose digits alone exceed the integer range are excluded, because the source then overflows (`Library.OverflowExactly`); bytes above 127 are neither space, digit nor letter, as in the C locale.
- Hook bodies: the free hook is an event that changes no object; an error hook returns, jumps away, or asks the allocator for objects, and does nothing else to the objects.
- Owned data: an owner that is a pair or holds an object, two owners of one datum, and a datum that anything but the library releases.
- Replacing a field cell of the base that the library itself reads, such as the error hook's: include/x-base.h lets any field be pushed and popped as a stack through the slot that holds its cell, but the slots that hold the base tree together are fixed in the model. Current values, in the first of a cell, may be replaced, pushed and popped.
- The data-unit union and the number of units: an object has two data units read as object pointers and one integer reading of the first. Atoms and the base have no second unit; an untyped object or one of another type is taken to have two, so an assignment to the second unit of a shorter one is not ruled out. The atoms in which the library reads the integer (count, ceiling, extra units) cannot be assigned to as objects; for other atoms the two readings are independent.
- A negative number of extra units, which the source turns into an enormous one, and changing the number while objects are live.
- The flag word is a set of 32 bit positions; the enumeration's other names for the same bits are not modelled.
- Objects outside both chains whose storage has died: they stay in the state as objects nothing has to refer to.
- src/x-sys.c, src/x.c, x_base_read and x_base_write: operating-system calls.
- src/x-stdlib.c: simple loops over memory and strings.
- x_error and the debug and dump functions: formatting; a message is one event here.
- Type names, units and length dispatch in src/x-obj.c: short case splits.
- The builds with X_USE_STDLIB, X_PROFILE or X_SYS_CLOCK, and without X_HEAP.
