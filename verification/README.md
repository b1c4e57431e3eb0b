# Verified models of the reference integration repository

This project models, in Dafny, the hardest parts of the repository and proves what they promise: the
concurrency library of `baselibs` (interruptible condition variable, thread pool, synchronized queue, periodic
task), its containers (intrusive list, non-relocatable vector), its path type and in-memory filesystem, the state
publication and debouncing of the remote demo app, and the dependency and version logic of the known-good scripts.

`dafny verify dfyconfig.toml` checks all of it.

## How it is laid out

| files | what they model |
|---|---|
| `ThreadPool.dfy`, `ThreadPoolSafety.dfy`, `ThreadPoolShutdown.dfy`, `ThreadPoolWakeups.dfy`, `ThreadPoolRuns.dfy`, `ThreadPoolProgress.dfy` | the thread pool, with the wait of its condition variable, as a transition system over its threads; invariants, theorems over whole runs, progress |
| `CondVar.dfy`, `CondVarSafety.dfy`, `CondVarProgress.dfy`, `CondVarWait.dfy` | the interruptible condition variable on its own, with any number of waiters, notifiers and stop requests, timed waits, and the entry counter of its destructor; invariants, progress, and what single calls do |
| `PathText.dfy`, `PathMeaning.dfy`, `PathParts.dfy`, `Path.dfy` | what a path means, its normal form in one pass, the rewriting passes of the code, and the path class |
| `Locations.dfy`, `FakeFilesystem.dfy` | where a path leads, and the in-memory filesystem as a heap of name tables |
| `IntrusiveList.dfy` | the intrusive list on the heap |
| `SynchronizedQueue.dfy` | the synchronized queue and its notification, as a transition system |
| `Publisher.dfy`, `Debounce.dfy` | the remote app's outbound state and its GPIO monitor |
| `Dependencies.dfy`, `DependencyDumps.dfy`, `Versions.dfy`, `VersionOrder.dfy` | the closure over the module graph, what dumps with stubs mean, the version comparison, and its order in words |
| `PeriodicTask.dfy`, `Vector.dfy`, `Common.dfy` | the periodic task, the non-relocatable vector, what the models share |

## Conventions

- Concurrent code is a `State`, a `Step`, and functions `Enabled` and `Next`; a run is a sequence of states linked by
  enabled steps. A step is one lock operation, test, notification or update of shared data, and threads interleave
  freely. Theorems speak of every state of every run, for any number of threads. Atomics are sequentially consistent.
- Objects that the code updates in place are classes. Iterators into a list are nodes; the position they stand for
  is a ghost argument. A list's element sequence and a filesystem's map of locations are ghost fields that `Valid()`
  ties to the pointers and tables.
- Clocks, time-outs, stop requests, GPIO reads, the results of callables and the order in which the scheduler picks
  threads are arguments or steps, hence arbitrary.

## Where the code differs from its promises

- `Pop` is documented to return nothing only while the queue is still empty. It can also return nothing while an item
  is in the queue whose sender has not set the notification yet. `SynchronizedQueue.NothingMeansEmpty` gives the exact
  condition, `SynchronizedQueue.NothingDespiteItem` a run.
- `Pop` relies on there being one reader. From an initial state its assertion can fail if and only if there are two
  readers or more, a sender, and room for an item (`SynchronizedQueue.FailsExactly`);
  `SynchronizedQueue.TwoReadersFail` gives the run.
- `FakeCreateDirectories` walks a trailing separator as an entry with an empty name. `FakeFilesystem.MadeExactly`
  gives the exact condition for adding the location and its parents only, `FakeFilesystem.EmptyNameMade` an input.
- `FakeCreateDirectories` also succeeds when the last step is a file. A success leaves a directory there if and only
  if there was nothing or a directory (`FakeFilesystem.MadeIsDirectory`); `FakeFilesystem.FileIsTaken` is a filesystem
  with a file there.
- Creating and removing address, for a path that is spelled as a directory, the empty name in it. So a location with
  nothing below it is removed through a path if and only if the path is not spelled as a directory
  (`FakeFilesystem.RemovedAsSpelled`, and a clause of `FakeFilesystem.Filesystem.Remove`). Removing `/a/` fails
  although `/a` is an empty directory (`FakeFilesystem.DirectorySpellingMisses`).
- `ParentPath` scans backwards without a bound. `Paths.ParentScanEscapes` says exactly for which paths the scan reads
  before the first character; `ParentPath` is proved for all others.
- Appending a path to itself appends the separator that was just added once more (`Paths.Path.Append`).
  `Paths.SelfAppendDiffers` says exactly for which paths the result differs from the promised one; `a` gives `a/a/`.
- A vector that was moved from keeps its size and capacity without storage. The copy loop then reads elements that are
  not there, unless the size is zero: `Vector.CopyReads` gives the exact condition,
  `Vector.MovedFromCannotBeCopied` an input.
- A pin that the report calls `ref_int_higher` is above every requested version if and only if no requested version
  has its rank (`Versions.HigherIsAbove`). Otherwise it is only not below them: it may differ from the one request in
  build metadata alone (`Versions.HigherThoughEqual`), or be the highest of several requests, letter for letter
  (`Versions.HigherThoughRequested`, `Versions.TwoRequests`).
- A failed LED write changes the outbound state without counting the change; the app then stops.
  `Publisher.GenerationCounts` gives the exact condition, `Publisher.FailureUncounted` a run.
- The closure over a dump that was cut off misses modules. `DependencyDumps.WalkNeedsExpansion` says exactly which
  ones it reaches, `DependencyDumps.CutOffLoses` gives a dump.
- A pool without workers accepts tasks and never runs them (`ThreadPoolProgress.EmptyPoolStrands`).

## Model

| member | source | states |
|---|---|---|
| `ThreadPoolRuns.TasksConserved` | baselibs/score/concurrency/thread_pool.cpp:65-153 | in every state of every run each enqueued task is in exactly one place (its call, the queue, one worker, finished); tasks leave the queue in order; a callable starts at most once, and has started exactly when it runs or is finished |
| `ThreadPoolRuns.ExitClosesQueue` | baselibs/score/concurrency/thread_pool.cpp:126-144 | once any worker has left, the queue is empty in that and every later state, also when Enqueue races Shutdown |
| `ThreadPoolRuns.ShutdownStopsTasks` | baselibs/score/concurrency/thread_pool.cpp:105-119 | from the return of a Shutdown on, every callable that runs or is about to be called belongs to a task whose stop was requested |
| `ThreadPoolRuns.NoStopBeforeShutdown` | baselibs/score/concurrency/thread_pool.cpp:146-153 | while no Shutdown has set its flag, the pool has requested no stop of any task or worker |
| `ThreadPoolRuns.StopsOnlyTaken` | baselibs/score/concurrency/thread_pool.cpp:105-153 | no stop is requested of a queued task: only of tasks a worker has taken or Enqueue runs itself |
| `ThreadPoolRuns.QueuedUntilShutdown` | baselibs/score/concurrency/thread_pool.cpp:126-144 | until the shutdown flag is set, a finished Enqueue has queued its task, and only workers start callables |
| `ThreadPoolRuns.ShutdownClosesQueue` | baselibs/score/concurrency/thread_pool.cpp:105-144 | once the flag is set, an Enqueue that has not tested it never queues its task, and has run it itself when it is done |
| `ThreadPoolRuns.NoLostWakeup` | baselibs/score/concurrency/thread_pool.cpp:69-91 | a worker asleep without a signal whose token is stopped has a Shutdown on its way to notify it; and the queue is no longer than the number of woken workers on their way to it, plus one during a push |
| `ThreadPoolRuns.FlagMeansShutdown` | baselibs/score/concurrency/thread_pool.cpp:105-108 | the shutdown flag is set only by a Shutdown call that has got past setting it |
| `ThreadPoolRuns.MonotoneRun` | baselibs/score/concurrency/thread_pool.cpp:65-93 | exits, returned Shutdown calls and accepted tasks are never undone in a run |
| `ThreadPoolRuns.RunInv` | baselibs/score/concurrency/thread_pool.cpp:65-153 | mutual exclusion of both mutexes and all invariants hold in every state of every run |
| `ThreadPoolProgress.StuckMeansDone` | baselibs/score/concurrency/thread_pool.cpp:65-144 | if no thread of a pool with workers can step, all tasks are finished, and after a Shutdown all workers have left |
| `ThreadPoolProgress.OwnStepLowers` | baselibs/score/concurrency/thread_pool.cpp:65-153 | every step of a thread of the pool lowers a measure |
| `ThreadPoolProgress.PoolDrains` | baselibs/score/concurrency/thread_pool.cpp:65-153 | from every reachable state, whatever the interleaving, the pool's own steps are bounded until the next call or spurious wakeup, and end with every task finished and, after a Shutdown, every worker gone |
| `ThreadPoolProgress.EmptyPoolStrands` | baselibs/score/concurrency/thread_pool.cpp:126-144 | without workers there is a run that gets stuck with an unfinished task |
| `ThreadPoolProgress.InnerHolderSteps` | baselibs/score/concurrency/condition_variable.h:163-178 | the holder of the internal mutex can always step: nobody waits for the user mutex while holding it |
| `CondVarSafety.NoLostWakeup` | baselibs/score/concurrency/condition_variable.h:124-182 | a waiter asleep without a signal although its token is stopped, or the predicate is true, has a stopper or a notifier that will still notify it |
| `CondVarSafety.ResultMeaning` | baselibs/score/concurrency/condition_variable.h:148-288 | wait and wait_until return with the lock held and the value of the predicate; false only if the token is stopped or the deadline has passed |
| `CondVarSafety.CounterGuardsDestruction` | baselibs/score/concurrency/condition_variable.h:111-117 | when the destructor sees a zero counter, no waiter is inside, no stop callback runs or is registered |
| `CondVarSafety.NoDeadlock` | baselibs/score/concurrency/condition_variable.h:148-288 | if no thread can step, both mutexes are free, notifiers and stoppers are done, and a waiter left asleep has an unstopped token, a false predicate and, if timed, a deadline still ahead |
| `CondVarProgress.OwnStepLowers` | baselibs/score/concurrency/condition_variable.h:124-288 | every step of a waiting, notifying or stopping thread lowers a measure, although a woken waiter may go back to sleep |
| `CondVarProgress.WaitsEnd` | baselibs/score/concurrency/condition_variable.h:124-288 | from every reachable state, whatever the interleaving, the threads' steps are bounded until the next call, spurious wakeup or tick, and end with notifications and stop requests done, every wait over that was stopped or past its deadline, and only waiters with no stop, a false predicate and time left asleep |
| `CondVarWait.WaitAlone` | baselibs/score/concurrency/condition_variable.h:148-288 | an undisturbed wait returns the value of the predicate with the mutex if the predicate is true, the token stopped or the deadline over; otherwise it falls asleep with both mutexes free |
| `CondVarWait.WokenAlone` | baselibs/score/concurrency/condition_variable.h:163-288 | the same for a waiter that was woken |
| `CondVarWait.SetAlone` | baselibs/score/concurrency/condition_variable.h:133-140 | an undisturbed change of the predicate leaves it with its value and the mutexes free, and a true one with every sleeper signalled, whether it notifies before or after unlocking |
| `CondVarWait.SetMeaning` | baselibs/score/concurrency/condition_variable.h:133-140 | in every run, a thread that changed the predicate and still has the mutex finds it with its value |
| `CondVarSafety.RunInv` | baselibs/score/concurrency/condition_variable.h:322-341 | mutual exclusion, callback registration, pending notifications and the entry count are exact in every state of every run |
| `PathMeaning.NormalFormIdempotent` | baselibs/score/filesystem/path.cpp:234-291 | normalising twice is normalising once |
| `PathMeaning.NormalFormShape` | baselibs/score/filesystem/path.cpp:263-279 | dot-dots remain only as a leading run of relative paths; no other dots remain, except a lone dot |
| `PathMeaning.NormalFormOnly` | baselibs/score/filesystem/path.cpp:234-303 | the normal form is the only text with the normal components, the root of the path, no two separators in a row, and a trailing separator exactly for the root or a name marked as a directory |
| `PathMeaning.NormalFormResolves` | baselibs/score/filesystem/path.cpp:234-291 | from every directory, a path and its normal form denote the same location |
| `PathMeaning.SameMeaning` | baselibs/score/filesystem/path.cpp:234-291 | two paths have the same meaning if and only if they denote the same location from every directory |
| `PathMeaning.SpellRead` | baselibs/score/filesystem/path.cpp:98-115 | reading the normal spelling of a route gives the route back |
| `PathParts.CancelMoveUps` | baselibs/score/filesystem/path.cpp:68-94 | erasing the first name before a dot-dot and starting over keeps what the list reads to, and leaves no such pair |
| `PathParts.DropMoveUpsAfterRoot` | baselibs/score/filesystem/path.cpp:47-66 | the dot-dots after a root are dropped, and nothing else |
| `PathParts.DropTrailingSeparator` | baselibs/score/filesystem/path.cpp:29-45 | at most one trailing empty part goes, only from behind a dot or dot-dot, and none stands behind one afterwards |
| `PathParts.Assemble` | baselibs/score/filesystem/path.cpp:98-115 | the loop joins the parts: the text that `Paths.AssembledText` characterises |
| `Paths.AssembledText` | baselibs/score/filesystem/path.cpp:98-115 | what is assembled has exactly the components of the list, begins with a separator exactly for a root, has no two in a row, and ends in one exactly for a trailing empty part |
| `PathText.ComponentsSplit` | baselibs/score/filesystem/path.cpp:630-640 | a separator splits the components of a path |
| `PathText.ComponentsJoin` | baselibs/score/filesystem/path.cpp:98-115 | splitting a joined path gives its components back |
| `PathText.TextDetermined` | baselibs/score/filesystem/path.cpp:98-115 | a text without two separators in a row is determined by its components and by whether it begins and ends with one |
| `Paths.Path.constructor` | baselibs/score/filesystem/path.cpp:584-621 | a constructed path holds its text and the parts of it |
| `Paths.Path.Parse` | baselibs/score/filesystem/path.cpp:584-621 | the parts are the root, the components and an empty part for a trailing separator, or none for a single part |
| `Paths.NoParts` | baselibs/score/filesystem/path.cpp:584-621 | no parts are stored exactly for separators alone and for a text without a separator |
| `Paths.PartsRoundTrip` | baselibs/score/filesystem/path.cpp:584-621 | assembling the stored parts of a path with single separators gives the path back |
| `Paths.Path.AddPieces` | baselibs/score/filesystem/path.cpp:630-640 | exactly the components of the text are appended |
| `Paths.Path.LexicallyNormal` | baselibs/score/filesystem/path.cpp:234-303 | the rewriting passes compute the one-pass normal form of every path |
| `Paths.Path.Append` | baselibs/score/filesystem/path.cpp:192-213 | an absolute right-hand side replaces the path, another one is appended after one separator; the self-append case |
| `Locations.AppendedSingle` | baselibs/score/filesystem/path.cpp:192-213 | appending puts one separator between two paths and doubles none |
| `Paths.SelfAppendDiffers` | baselibs/score/filesystem/path.cpp:192-213 | a path appended to itself gives what appending an equal path gives if and only if it is empty, absolute or ends in a separator; otherwise one more separator and the same meaning; `a` gives `a/a/` |
| `Paths.Path.ParentPath` | baselibs/score/filesystem/path.cpp:344-370 | the text before the last component without the separators at its end |
| `Paths.Path.Filename` | baselibs/score/filesystem/path.cpp:374-407 | the longest ending of the path without a separator: the path ends in it, and what precedes it, if anything, is a separator |
| `Paths.ParentAppendFilename` | baselibs/score/filesystem/path.cpp:344-407 | parent and filename rebuild a path with a filename if and only if its last separator does not follow another |
| `Paths.ParentScanEscapes` | baselibs/score/filesystem/path.cpp:364-367 | the backward scan reads before the first character if and only if all characters before the last separator are separators, which are exactly the paths `ParentPath` is not proved for; `//a` is one |
| `Locations.CanonicalShape` | baselibs/score/filesystem/standard_filesystem_fake.cpp:478-489 | the canonical path is rooted, denotes the location of the path in the current directory, and is spelled normally |
| `Locations.CanonicalSteps` | baselibs/score/filesystem/standard_filesystem_fake.cpp:273-276 | iterating over it visits the names of the location, then an empty part for a directory spelling |
| `Locations.CanonicalSplit` | baselibs/score/filesystem/standard_filesystem_fake.cpp:236-245 | its parent path and filename address the slot in the parent directory; the filename is empty exactly for directory spellings |
| `Locations.SameMeaningSamePlace` | baselibs/score/filesystem/standard_filesystem_fake.cpp:262-290 | paths of the same meaning, and normal forms, lead to the same location, so FindEntry depends on the meaning only |
| `FakeFilesystem.StepDown` | baselibs/score/filesystem/standard_filesystem_fake.cpp:168-177 | a location one step below another exists if and only if that one is a directory and its table has the name, and then it holds the entry of the table |
| `FakeFilesystem.Entry.Create` | baselibs/score/filesystem/standard_filesystem_fake.cpp:179-190 | a fresh entry under a new name, nothing under a name in use |
| `FakeFilesystem.Entry.Erase` | baselibs/score/filesystem/standard_filesystem_fake.cpp:192-200 | exactly that name goes |
| `FakeFilesystem.Entry.AddHardLink` | baselibs/score/filesystem/standard_filesystem_fake.cpp:217-227 | the given entry under a new name |
| `FakeFilesystem.Filesystem.constructor` | baselibs/score/filesystem/standard_filesystem_fake.cpp:67-71 | an empty root directory, the tree invariant |
| `FakeFilesystem.Filesystem.WeaklyCanonical` | baselibs/score/filesystem/standard_filesystem_fake.cpp:478-489 | the canonical path in the current directory |
| `FakeFilesystem.Filesystem.FindEntry` | baselibs/score/filesystem/standard_filesystem_fake.cpp:262-290 | finds the entry of the location the path denotes, and fails exactly if there is none or the path is empty |
| `FakeFilesystem.Filesystem.Descend` | baselibs/score/filesystem/standard_filesystem_fake.cpp:273-289 | the walk through the tables reaches a location exactly if it exists |
| `FakeFilesystem.Filesystem.CreateEntry` | baselibs/score/filesystem/standard_filesystem_fake.cpp:229-260 | adds exactly the location of the path, with a fresh entry, if and only if the path names something new in an existing directory; otherwise changes nothing; keeps the directories a tree |
| `FakeFilesystem.Filesystem.CreateDirectory` | baselibs/score/filesystem/standard_filesystem_fake.cpp:297-318 | succeeds exactly if the directory exists or can be created, and then it exists; changes no other location |
| `FakeFilesystem.Filesystem.CreateDirectories` | baselibs/score/filesystem/standard_filesystem_fake.cpp:320-344 | adds exactly the missing prefixes of the walked steps as fresh directories, or nothing if a proper prefix is a file |
| `FakeFilesystem.MadeExactly` | baselibs/score/filesystem/standard_filesystem_fake.cpp:329-342 | those are exactly the location and its missing parents if and only if the path is not spelled as a directory below the root, or the empty name was there already |
| `FakeFilesystem.MadeIsDirectory` | baselibs/score/filesystem/standard_filesystem_fake.cpp:329-342 | after success the location of the path exists, and is a directory if and only if there was nothing or a directory before |
| `FakeFilesystem.FileIsTaken` | baselibs/score/filesystem/standard_filesystem_fake.cpp:329-342 | in a filesystem with a file `/f`, creating `/f` succeeds and `/f` is no directory |
| `FakeFilesystem.EmptyNameMade` | baselibs/score/filesystem/standard_filesystem_fake.cpp:329-342 | from an empty root, creating `/a/` leaves an entry with an empty name in the table of `/a`, so more than the location and its parents is added |
| `FakeFilesystem.RemovedAsSpelled` | baselibs/score/filesystem/standard_filesystem_fake.cpp:384-412 | a location with nothing below it meets the condition of Remove, through any path to it, if and only if the path is not spelled as a directory |
| `FakeFilesystem.DirectorySpellingMisses` | baselibs/score/filesystem/standard_filesystem_fake.cpp:384-412 | for `/a/` and an empty directory `/a`, the location exists and has nothing below it, and the addressed slot does not exist |
| `FakeFilesystem.Filesystem.Remove` | baselibs/score/filesystem/standard_filesystem_fake.cpp:384-412 | removes exactly the addressed slot, if and only if it exists and nothing is below it; for an existing location with nothing below it, if and only if the path is not spelled as a directory |
| `FakeFilesystem.Filesystem.RemoveAll` | baselibs/score/filesystem/standard_filesystem_fake.cpp:414-430 | removes exactly what is at or below the addressed location, if it exists |
| `FakeFilesystem.Filesystem.CreateHardLink` | baselibs/score/filesystem/standard_filesystem_fake.cpp:533-569 | adds exactly one location, for the same file; only for regular files, so directories stay a tree |
| `FakeFilesystem.Filesystem.SetCurrentPath` | baselibs/score/filesystem/standard_filesystem_fake.cpp:496-508 | succeeds exactly for existing locations; all paths are then read from there |
| `FakeFilesystem.Filesystem.ResetRootDirectory` | baselibs/score/filesystem/standard_filesystem_fake.cpp:83-86 | an empty tree again |
| `FakeFilesystem.Linked` | baselibs/score/filesystem/standard_filesystem_fake.cpp:179-227 | a new name in one directory adds one location, and the directories stay a tree |
| `FakeFilesystem.Unlinked` | baselibs/score/filesystem/standard_filesystem_fake.cpp:192-200 | erasing one name removes what was at or below it, and the directories stay a tree |
| `FakeFilesystem.LeafAlone` | baselibs/score/filesystem/standard_filesystem_fake.cpp:405-410 | an entry is a file or an empty directory if and only if no location is below it |
| `FakeFilesystem.ViewDetermined` | baselibs/score/filesystem/standard_filesystem_fake.cpp:262-290 | root and tables determine the map of locations |
| `FakeFilesystem.RemoveUndoesCreate` | baselibs/score/filesystem/standard_filesystem_fake.cpp:384-430 | removing what was just created restores every location |
| `IntrusiveList.Exclusive` | baselibs/score/containers/intrusive_list.h:660-665 | two well-formed lists share no node: an element is in one list at most |
| `IntrusiveList.List.constructor` | baselibs/score/containers/intrusive_list.h:260-263 | an empty ring |
| `IntrusiveList.List.InsertNodeBefore` | baselibs/score/containers/intrusive_list.h:642-648 | inserts the node at the position; all other lists keep their elements |
| `IntrusiveList.List.RemoveAndDisposeNode` | baselibs/score/containers/intrusive_list.h:651-658 | takes exactly that element out; the disposer gets it once, already unlinked; all other lists keep their elements |
| `IntrusiveList.List.PushFront` | baselibs/score/containers/intrusive_list.h:426-429 | prepends; other lists unchanged |
| `IntrusiveList.List.PushBack` | baselibs/score/containers/intrusive_list.h:431-434 | appends; other lists unchanged |
| `IntrusiveList.List.PopFrontAndDispose` | baselibs/score/containers/intrusive_list.h:441-447 | drops and disposes of the first element |
| `IntrusiveList.List.PopBackAndDispose` | baselibs/score/containers/intrusive_list.h:454-460 | drops and disposes of the last element |
| `IntrusiveList.List.ClearAndDispose` | baselibs/score/containers/intrusive_list.h:535-542 | empties the list; the disposer gets every element in order; all are unlinked |
| `IntrusiveList.List.Insert` | baselibs/score/containers/intrusive_list.h:462-468 | inserts before the position and returns its iterator |
| `IntrusiveList.List.InsertRange` | baselibs/score/containers/intrusive_list.h:470-482 | inserts the range in its order before the position |
| `IntrusiveList.List.EraseAndDispose` | baselibs/score/containers/intrusive_list.h:489-498 | erases one element and returns the iterator after it |
| `IntrusiveList.List.EraseRangeAndDispose` | baselibs/score/containers/intrusive_list.h:505-517 | erases exactly the range; the disposer gets it in order, unlinked |
| `IntrusiveList.List.RemoveAndDisposeIf` | baselibs/score/containers/intrusive_list.h:581-598 | keeps exactly the elements without the property, in order; the disposer gets exactly the others, in order, unlinked; other lists unchanged |
| `IntrusiveList.SelectWanted` | baselibs/score/containers/intrusive_list.h:581-598 | the selection has exactly the elements with the wanted value of the predicate |
| `IntrusiveList.SelectOrdered` | baselibs/score/containers/intrusive_list.h:581-598 | it reads the list at increasing positions: the filter is stable |
| `IntrusiveList.SelectConserves` | baselibs/score/containers/intrusive_list.h:581-598 | kept and disposed elements together are the elements |
| `IntrusiveList.List.MoveElement` | baselibs/score/containers/intrusive_list.h:71-81 | a move-constructed element takes exactly the place of the old one, which is unlinked; an unlinked one stays unlinked |
| `IntrusiveList.List.MoveAssign` | baselibs/score/containers/intrusive_list.h:289-312 | the list gets the source's elements, the source is empty, the old elements are unlinked; self-assignment changes nothing; other lists unchanged |
| `IntrusiveList.List.Move` | baselibs/score/containers/intrusive_list.h:275-279 | the new list has the elements, the source is empty |
| `IntrusiveList.List.Swap` | baselibs/score/containers/intrusive_list.h:519-528 | three moves exchange the sequences, for any lengths and for a list with itself; other lists unchanged |
| `SynchronizedQueue.FirstInFirstOut` | baselibs/score/concurrency/synchronized_queue.h:99-166 | in every run, with any number of readers and senders, what was popped is a prefix of what was accepted, the rest is queued in order, and the bound is kept |
| `SynchronizedQueue.PushAccepts` | baselibs/score/concurrency/synchronized_queue.h:147-190 | a push, from taking the mutex to letting it go, under every interleaving: with room the item is the last one queued and accepted and the flag is set; in a full queue nothing changes |
| `SynchronizedQueue.FillsUp` | baselibs/score/concurrency/synchronized_queue.h:147-190 | from every initial state with a sender the queue can be filled to every length up to its bound |
| `SynchronizedQueue.PopTakes` | baselibs/score/concurrency/synchronized_queue.h:99-122 | a Pop that finds an item when it takes the mutex returns the first one, under every interleaving, and clears the flag |
| `SynchronizedQueue.PopReturns` | baselibs/score/concurrency/synchronized_queue.h:99-122 | a Pop returns only with the first item, or with nothing when it gives up and the flag is not set; a set flag takes it back to the queue |
| `SynchronizedQueue.AssertionHolds` | baselibs/score/concurrency/synchronized_queue.h:114-117 | with one reader, notified implies non-empty whenever the queue mutex is free, and the assertion never fails |
| `SynchronizedQueue.NoReaderStranded` | baselibs/score/concurrency/notification.h:128-159 | with one reader, asleep unsignalled while an item is queued, a sender is about to notify it |
| `SynchronizedQueue.NothingMeansEmpty` | baselibs/score/concurrency/synchronized_queue.h:104-112 | when Pop gives up, the queue is empty if and only if no push is between storing its item and setting the flag |
| `SynchronizedQueue.NothingDespiteItem` | baselibs/score/concurrency/synchronized_queue.h:104-112 | a run in which Pop gives up with an item in the queue |
| `SynchronizedQueue.TwoReadersFail` | baselibs/score/concurrency/synchronized_queue.h:104-117 | with two or more readers, a sender and room for an item, there is a run in which the assertion fails |
| `SynchronizedQueue.FailsExactly` | baselibs/score/concurrency/synchronized_queue.h:99-166 | for every initial state, the assertion can fail in some run if and only if there are two readers or more, a sender and room for an item |
| `SynchronizedQueue.NoDeadlock` | baselibs/score/concurrency/notification.h:145-177 | for any number of readers: while a mutex is held, some holder can step, unless a reader whose assertion failed holds the queue mutex and nobody holds the other; with at most one reader that never happens |
| `SynchronizedQueue.RunInv` | baselibs/score/concurrency/synchronized_queue.h:99-190 | lock ownership, order, bound and, with one reader, the meaning of the flag hold in every state of every run |
| `Publisher.GenerationCounts` | sdv-hack-demo/remote_app/main.cpp:358-378 | between changes the flag is the initial one flipped by the generation's parity, if and only if an even number of LED writes failed; while running none has |
| `Publisher.SetsTheFlag` | sdv-hack-demo/remote_app/main.cpp:358-378 | SetOutboundState, from taking the mutex to letting it go, under every interleaving: the flag then has the value asked for; nothing changes if it had it, otherwise the change is counted unless the LED write fails, which stops the app |
| `Publisher.FailureUncounted` | sdv-hack-demo/remote_app/main.cpp:358-378 | a run with one failed LED write, after which the flag is not the initial one flipped by the generation's parity |
| `Publisher.LastFrameIsCurrent` | sdv-hack-demo/remote_app/main.cpp:734-763 | publisher idle, no writer mid-change, running, no newer generation, less than 2^64 changes apart: the last frame carries the current flag |
| `Publisher.FrameParity` | sdv-hack-demo/remote_app/main.cpp:751-757 | an idle publisher's last frame is current if and only if the flag changed an even number of times since it was read |
| `Publisher.RoundAlone` | sdv-hack-demo/remote_app/main.cpp:736-763 | an undisturbed round sends the flag and notes the generation if that is new or the period is over, and otherwise changes nothing |
| `Publisher.Publishes` | sdv-hack-demo/remote_app/main.cpp:736-763 | under every interleaving a round sends only for a new generation or at the end of the period, a value the flag had after the decision, and notes the generation of the decision |
| `Publisher.StopEnds` | sdv-hack-demo/remote_app/main.cpp:743-745 | after a stop the publisher leaves without sending |
| `Debounce.MonitorGpio` | sdv-hack-demo/remote_app/main.cpp:384-418 | the loop issues exactly the changes of the last confirmed value |
| `Debounce.StartUp` | sdv-hack-demo/remote_app/main.cpp:391-398 | a switch that is pressed at start-up is issued at once, an idle one is not |
| `Debounce.IssuesAreSteady` | sdv-hack-demo/remote_app/main.cpp:407-417 | every issue of the loop follows samples that agree over at least the debounce period |
| `Debounce.ShortPulsesIgnored` | sdv-hack-demo/remote_app/main.cpp:407-417 | nothing is issued during a pulse shorter than the period |
| `Debounce.SteadyReaches` | sdv-hack-demo/remote_app/main.cpp:407-417 | when samples have agreed for the period, the last issued value is theirs, or nothing was issued and it is false |
| `Debounce.IssuesAlternate` | sdv-hack-demo/remote_app/main.cpp:391-417 | issued values alternate, starting with true |
| `Dependencies.DependencyGraph.constructor` | scripts/known_good/resolved_dependencies.py:154-156 | the index holds, for every name, its first expanded node |
| `Dependencies.DependencyGraph.BuildIndex` | scripts/known_good/resolved_dependencies.py:158-168 | the same after any part of the dump, in preorder |
| `Dependencies.FirstWins` | scripts/known_good/resolved_dependencies.py:158-168 | an expanded root is the node of its name, and so is a child whose name is expanded neither in the root nor in an earlier subtree |
| `Dependencies.DependencyGraph.Closure` | scripts/known_good/resolved_dependencies.py:185-204 | the walk ends, and returns exactly the names reachable through the index, without the module itself |
| `DependencyDumps.DumpMeansGraph` | scripts/known_good/resolved_dependencies.py:137-168 | if every module that occurs is expanded somewhere, reachability through the index is reachability in the module graph |
| `DependencyDumps.StubsDoNotMatter` | scripts/known_good/resolved_dependencies.py:148-152 | a dump with stubs and a fully expanded dump of the same graph reach the same modules |
| `DependencyDumps.WalkNeedsExpansion` | scripts/known_good/resolved_dependencies.py:185-204 | in any dump, complete or cut off, the walk reaches a module if and only if a chain of dependencies leads to it whose modules before the last are all expanded somewhere |
| `DependencyDumps.CutOffLoses` | scripts/known_good/resolved_dependencies.py:188-190 | a dump cut off by a depth limit in which a dependency is missed |
| `Versions.ParseSpelled` | scripts/known_good/resolved_dependencies.py:758-760 | every text of the grammar is parsed into its release and prerelease |
| `Versions.ParsedIsSpelled` | scripts/known_good/resolved_dependencies.py:758-760 | every text that is parsed is of the grammar, up to one final newline |
| `Versions.CompareIsKeyOrder` | scripts/known_good/resolved_dependencies.py:794-810 | the comparison is the order of the keys, antisymmetric, and zero exactly on equal keys, for all strings |
| `Versions.CompareChains` | scripts/known_good/resolved_dependencies.py:794-810 | it is transitive |
| `VersionOrder.CompareMeans` | scripts/known_good/resolved_dependencies.py:763-810 | on all strings, the comparison is the order in words: the first identifier of different rank decides or the shorter list is below, then a prerelease is below none, then the prereleases; stated without sort keys and number values |
| `VersionOrder.FirstIdentifierDecides` | scripts/known_good/resolved_dependencies.py:774-791 | after a common beginning the first identifiers of different rank decide, whatever follows |
| `VersionOrder.MoreDigitsAbove` | scripts/known_good/resolved_dependencies.py:763-771 | a number without a leading zero is above every number with fewer digits |
| `VersionOrder.FirstDigitDecides` | scripts/known_good/resolved_dependencies.py:763-771 | of numbers with equally many digits the first different digit decides |
| `VersionOrder.ZerosIgnored` | scripts/known_good/resolved_dependencies.py:763-771 | leading zeros do not matter |
| `VersionOrder.NumbersFirst` | scripts/known_good/resolved_dependencies.py:763-771 | a number is below every other identifier |
| `VersionOrder.FirstCharacterDecides` | scripts/known_good/resolved_dependencies.py:763-771 | other identifiers compare by their first different character, or the shorter one is below |
| `VersionOrder.PrereleasesCompare` | scripts/known_good/resolved_dependencies.py:774-791 | prereleases of one release compare by their identifiers |
| `VersionOrder.TenAboveSix` | scripts/known_good/resolved_dependencies.py:802-803 | 0.0.10 is above 0.0.6 |
| `VersionOrder.SplitAtDot` | scripts/known_good/resolved_dependencies.py:787-791 | a dot splits the identifiers |
| `VersionOrder.Alphabet` | scripts/known_good/resolved_dependencies.py:758-760 | the characters of the parts of a version |
| `Versions.BuildIgnored` | scripts/known_good/resolved_dependencies.py:758-760 | build metadata has no influence on any comparison |
| `Versions.PrereleaseBelow` | scripts/known_good/resolved_dependencies.py:774-791 | a prerelease is below its release |
| `Versions.LongerIsAbove` | scripts/known_good/resolved_dependencies.py:774-791 | a release is below every release that continues it |
| `Versions.NumbersByValue` | scripts/known_good/resolved_dependencies.py:763-771 | numeric identifiers after a common release compare by value |
| `Versions.Highest` | scripts/known_good/resolved_dependencies.py:813-815 | returns the first of the greatest versions |
| `Versions.Judge` | scripts/known_good/resolved_dependencies.py:874-892 | agree, differs, by commit and unknown exactly as requested versions say; lower if and only if some consumer asked for a strictly greater version; higher if and only if the pin differs and nobody did |
| `Versions.BuildReport` | scripts/known_good/resolved_dependencies.py:869-895 | for any names, the report has one entry for each, in their order and rightly judged, and the conflicts are exactly the pins that disagree, in order |
| `Versions.ConflictsAre` | scripts/known_good/resolved_dependencies.py:869-895 | the conflicts are the names at exactly the positions whose pin disagrees, in increasing order |
| `Versions.HigherIsAbove` | scripts/known_good/resolved_dependencies.py:891-893 | a pin judged higher is strictly above every request if and only if no request has its rank |
| `Versions.HigherThoughEqual` | scripts/known_good/resolved_dependencies.py:891-893 | a pin that differs from the one request in build metadata only is judged higher and compares equal |
| `Versions.HigherThoughRequested` | scripts/known_good/resolved_dependencies.py:891-893 | a pin that is itself the higher of two requests is judged higher |
| `Versions.TwoRequests` | scripts/known_good/resolved_dependencies.py:891-893 | the pin 2.0 against requests for 1.0 and 2.0 is judged higher |
| `PeriodicTask.PeriodicTask.Execute` | baselibs/score/concurrency/periodic_task.h:101-137 | the k-th call is for the k-th time point, representable, never early unless stopped; at least one call; the promise is set once, after the last call; termination exactly before an overflow |
| `PeriodicTask.PeriodicTask.ExecuteRound` | baselibs/score/concurrency/periodic_task.h:103-132 | one round waits, calls and decides accordingly |
| `PeriodicTask.NoDrift` | baselibs/score/concurrency/periodic_task.h:131-132 | the k-th time point is the first one plus k intervals |
| `Vector.NonRelocatableVector.constructor` | baselibs/score/containers/non_relocatable_vector.h:124-130 | an empty vector with an allocation of its capacity |
| `Vector.NonRelocatableVector.Copy` | baselibs/score/containers/non_relocatable_vector.h:235-259 | a fresh allocation of the same capacity with the elements that the loop reads from the source, which are the source's; the source unchanged |
| `Vector.CopyReads` | baselibs/score/containers/non_relocatable_vector.h:247-257 | all that the copy loop reads exists if and only if the source has storage or size zero |
| `Vector.MovedFromCannotBeCopied` | baselibs/score/containers/non_relocatable_vector.h:224-259 | a vector with one element that was moved from has size one and nothing to read |
| `Vector.NonRelocatableVector.Move` | baselibs/score/containers/non_relocatable_vector.h:224-232 | the storage changes hands with its elements where they are |
| `Vector.NonRelocatableVector.MoveAssign` | baselibs/score/containers/non_relocatable_vector.h:265-274 | both vectors exchange storage, allocator, size and capacity; with itself nothing happens |
| `Vector.NonRelocatableVector.EmplaceBack` | baselibs/score/containers/non_relocatable_vector.h:303-315 | appends in place; no other storage is touched |
| `Vector.NonRelocatableVector.Destruct` | baselibs/score/containers/non_relocatable_vector.h:285-299 | destroys every element once and releases the storage with the capacity it was allocated with |
| `Vector.Program.Create` | baselibs/score/containers/non_relocatable_vector.h:124-130 | creating a vector keeps ownership exact (every allocation has one owner), and every other vector keeps its storage and elements |
| `Vector.Program.Copy` | baselibs/score/containers/non_relocatable_vector.h:235-259 | copying one does so too; the copy has the elements of the source |
| `Vector.Program.Move` | baselibs/score/containers/non_relocatable_vector.h:224-232 | so does move construction; the new vector has the storage, size and capacity of the source, the source no storage |
| `Vector.Program.MoveAssign` | baselibs/score/containers/non_relocatable_vector.h:197-206 | so does move assignment; the two vectors exchange storage, allocator, size and capacity, and no block changes |
| `Vector.Program.Emplace` | baselibs/score/containers/non_relocatable_vector.h:303-315 | so does emplace_back; the element is appended in place |
| `Vector.Program.Destroy` | baselibs/score/containers/non_relocatable_vector.h:285-299 | so does destruction; exactly that vector goes |
| `Vector.AllReleased` | baselibs/score/containers/non_relocatable_vector.h:285-299 | when the last vector is gone, the elements destroyed are exactly those constructed, as often, and the blocks released are exactly those allocated, with their capacities, each once |

## Left out

- Weak memory orderings: atomics are sequentially consistent.
- Exceptions and allocation failure: the code terminates on them.
- `ThreadPool` construction and destruction (joining threads), thread names, and the promise and future types.
- The untimed and unpredicated overloads of the condition variable's waits: the predicate forms contain their code.
- Destruction of a synchronized queue while senders hold it (the expired weak pointer makes `push` return false), and the destruction counter of the notification, which is the one proved for the condition variable.
- SynchronizedQueue.NoReaderStranded: the waits and `notify_all` of the notification are single steps here; their inner locking is proved in `CondVarSafety`.
- File contents, copying files, permissions, timestamps, hard-link counts, directory listings and symbolic links of the in-memory filesystem: they do not touch the tree.
- `CreateDirectories` of the empty path, on which the code advances an iterator past its end: required to be non-empty.
- Extensions, stems, root names and comparison of paths: scans over one unchanged string.
- `assign` and the reverse and const iterators of the intrusive list: compositions of what is proved. A disposer that changes lists itself: the one modelled records what it gets.
- Lookup by index and bounds-checked pointers of the vector: simple reads.
- Publisher.LastFrameIsCurrent: states the case of less than 2^64 changes between two publications; `FrameParity` covers all.
- The menu, sockets, key-value store, speed and parking frames of the remote app: foreign calls.
- Negative intervals of a periodic task, for which the code's own overflow test overflows: the interval is a natural number.
- Non-ASCII digits in version strings: `isdigit` is the ASCII test, so texts on which Python's `int` would raise are not covered.
- The regular-expression surgery on module files, manifests, lock files, sorting and the other counters of the report: text generation around what is proved.
- The other scripts, code generators and build files of the repository.
