# FriscaOS kernel model

A model of the FriscaOS kernel for i386 and proofs of what its layers promise each other. One
word-addressed memory of 4 GB is shared by all of them.

| part | files |
|---|---|
| memory and bit fields | `Words.dfy`, `Bits.dfy`, `Bytes.dfy` |
| physical memory manager | `Pmm.dfy`, runs in `PmmRuns.dfy` |
| kernel heap | node lists and allocation in `HeapList.dfy`, release in `HeapRelease.dfy`, the list in memory in `Heap.dfy`, runs in `HeapRuns.dfy`, exact sizes in `HeapExact.dfy`, ownership in `HeapOwners.dfy` |
| paging and boot | `Paging.dfy`, `Boot.dfy` |
| tasks | the queue as a value in `RunQueue.dfy`, the register machine in `Cpu.dfy`, the queue in memory in `TaskMemory.dfy`, the scheduler in `Tasks.dfy` |
| time | `Timer.dfy`, the interrupt in `Interrupt.dfy` |
| console and strings | `Vga.dfy`, `Screen.dfy`, `CStrings.dfy`, `Numbers.dfy` |
| files | the table as a list in `Files.dfy`, the driver in `Vfs.dfy` |
| shell | meaning of lines and keys in `Commands.dfy`, sessions in `Sessions.dfy`, what the user sees in `Dialogs.dfy`, the code in `Shell.dfy` |
| everything together | the kernel as a value in `KernelRuns.dfy`, on one heap in `Kernel.dfy` |

Each driver is a class over memory whose methods follow the code statement by statement and are proved
against a pure specification. The properties are proved of the specifications, for all inputs and all
runs, and so hold of the code.

The heap is where it starts: a tiled list without adjacent free nodes is determined by its live blocks, which
gives exact undo, independence of the order of releases, and the exact condition for failure. Owners
of live blocks then know that nobody else touches them, and so the frames of parked tasks and the
bytes of files last. The size of the arena bounds the number of tasks at four, which bounds pids,
waiting times and the latency of `sleep`. `Kernel.dfy` puts the parts on one heap: any sequence of
ticks, creations, computations and keystrokes keeps the invariant of the whole, and an interrupt is
invisible to the task it interrupts.

Element `a` of the memory is the word at byte address `a`. Headers, control blocks, stack slots and
table entries are aligned words, and bytes of files are parts of aligned words, so only elements at
multiples of four are used.

## What the code does differently from its comments

- `kernel/memory/heap.h` promises null when no block is large enough; `kmalloc` grants a block of 0 bytes to a request above 0xFFFFFFFC (`HeapRuns.WrappedRequest`). Everything else is proved for all sizes.
- `kernel/memory/heap.c:27-29` says that contiguous blocks are not guaranteed; `Boot.NineBlocks` gives the exact amount of memory for which they are.
- `kernel/fs/vfs.h` says that names must be unique; the check uses the name before it is cut to 31 characters (`Files.CreatedDistinct`, `Files.LongNamesCollide`).
- `kernel/task/task.h:115` says that new tasks are appended; they come right after the head of the ring (`Tasks.AppendedOnlyAlone`). `kernel/task/task.h:125-129` says that a schedule picks ready tasks and marks the old one ready; no schedule changes a mark, and the main task is picked although it is never marked ready (`Tasks.PicksReadyUnlessMain`).
- `kernel/drivers/timer/timer.c:93-116` describes a yielding loop that rounds up; the code halts and rounds down (`Timer.DelayExact`, `Timer.DelayCovers`).

## Model

| member | source | states |
|---|---|---|
| HeapList.KmallocMeaning | kernel/memory/heap.c:59-98 | For every request: null exactly when the request is 0 or no unallocated run of 12 + rounded bytes exists in the arena; otherwise the block starts at the lowest such run, is at most 24 bytes wider than the rounded request, and is the only change to the live blocks. Failure changes nothing. The list stays tiled with no two adjacent free nodes. |
| HeapExact.ExactSize | kernel/memory/heap.c:64-92 | How much a successful call hands out: the block is exactly as large as the rounded request when that and 40 bytes more (two headers and 16) are unallocated from its start on; otherwise it takes all that is unallocated there, not a byte less. The pointer is 12 above its start. |
| HeapExact.RoomInRun | kernel/memory/heap.c:59-98 | A call succeeds exactly when the request is not 0 and 12 + rounded bytes are unallocated in one run. |
| HeapList.FirstFitIsLowest | kernel/memory/heap.c:67-74 | First fit finds a node exactly when a run of free bytes exists, and then the lowest one: no two free nodes are adjacent, so free nodes are the maximal free runs. |
| HeapList.CarveAtTidy | kernel/memory/heap.c:75-90 | Splitting and marking a node keeps tiling and leaves no two adjacent free nodes. |
| HeapRelease.CoalesceTidies | kernel/memory/heap.c:111-128 | One pass of the merging loop removes every pair of adjacent free nodes from any tiled list, and neither tiling nor live blocks change. |
| HeapRelease.PendingStep | kernel/memory/heap.c:117-128 | Each iteration of that loop, merging in place or moving on, leaves the outcome of the whole pass the same. |
| HeapRelease.KfreeMeaning | kernel/memory/heap.c:104-129 | Freeing removes exactly the given block from the live ones and restores the invariant. |
| HeapRelease.KmallocThenKfree | kernel/memory/heap.c:75-129 | An allocation followed by the release of its result restores the node list exactly: addresses, sizes and flags. |
| HeapList.TidyIsLayout | kernel/memory/heap.c:59-129 | A tidy list is determined by its live blocks alone, whatever calls led to it. |
| HeapList.TilesOrder | kernel/memory/heap.c:12-20 | The list is acyclic and in address order: an earlier node ends before a later one starts. |
| KernelHeap.Heap.Init | kernel/memory/heap.c:34-50 | Takes the four lowest blocks of the physical memory manager; the heap is one free node of 16372 bytes at the lowest. |
| KernelHeap.Heap.Kmalloc | kernel/memory/heap.c:59-98 | On the linked list in memory: the result and the new list are those of `HeapList.Kmalloc`, no word of a live payload and none outside the arena changes, and a failure changes no word at all. |
| KernelHeap.Heap.Split | kernel/memory/heap.c:75-87 | The six writes of a split turn one header into two and touch nothing outside the node. |
| KernelHeap.Heap.Kfree | kernel/memory/heap.c:104-129 | On the linked list in memory: the new list is that of `HeapRelease.Kfree`, no word of a payload that stays live and none outside the arena changes. |
| KernelHeap.Heap.CoalescePass | kernel/memory/heap.c:111-128 | The loop in memory computes `Coalesce`, with the nodes ahead as its measure. |
| KernelHeap.Heap.Absorb | kernel/memory/heap.c:118-123 | The header writes of one merge. |
| KernelHeap.Carved | kernel/memory/heap.c:75-92 | Carving a node in memory is carving it in the list: the pointers still link the new list and live payloads are untouched. |
| KernelHeap.Rewritten | kernel/memory/heap.c:108-123 | Replacing a stretch of nodes by one free node takes only the writes to the first header. |
| HeapRuns.RunSound | kernel/memory/heap.c:34-129 | In every state reachable from `heap_init` by allocations of any size and releases of live pointers: tiling, no adjacent free nodes, the live payloads are exactly the pointers handed out, and each is as large as asked and at most 27 bytes larger exactly when the request is at most 0xFFFFFFFC. |
| HeapRuns.LiveBlocksApart | kernel/memory/heap.c:59-129 | In all those states live payloads are word-aligned, inside the arena and apart from each other, headers included. |
| HeapRuns.WrappedRequest | kernel/memory/heap.c:64 | The first size past that limit wraps when rounded up and is granted a block of no bytes. |
| HeapRuns.FreeAllRestores | kernel/memory/heap.c:104-129 | Freeing every live pointer, in any order, gives back the single free node of 16372 bytes. |
| HeapRuns.RunRoomy | kernel/memory/heap.c:67-97 | With requests that do not wrap, the list never has more than 1024 nodes, which bounds both loops. |
| HeapRuns.Perform | kernel/memory/heap.c:59-129 | A whole run on the heap in memory: the list evolves as the specification says, nothing outside the arena changes, and every block that stays live throughout keeps all its words. |
| HeapRuns.RunKeeps | kernel/memory/heap.c:59-129 | A block that no call of a run frees is still live after it. |
| HeapOwners.GrantOwns | kernel/memory/heap.c:59-98 | A successful allocation hands out a block nobody owned, and everyone else keeps theirs. |
| HeapOwners.ReleaseOwns | kernel/memory/heap.c:104-129 | A release takes back exactly the given block. |
| HeapOwners.OwnsApart | kernel/memory/heap.c:59-98 | Two owned blocks are at least a header apart. |
| HeapOwners.OwnerWrites | kernel/memory/heap.c:59-98 | Whatever its owner writes into a new block, the blocks that were there before keep their words. |
| HeapOwners.NoFourPages | kernel/memory/heap.c:27-32 | The arena never holds four live blocks of 4096 bytes. |
| Bits.SetBlock | kernel/memory/pmm.c:28-30 | Setting a bit of the packed bitmap marks that block used and no other. |
| Bits.ClearBlock | kernel/memory/pmm.c:34-36 | Clearing a bit marks that block free and no other. |
| Bits.BitWeight | kernel/memory/pmm.c:28-42 | Bit k weighs 2^k: setting it adds that much when it was clear, clearing it takes that much away when it was set. |
| Bits.BitmapFromUsed | kernel/memory/pmm.c:13-42 | Bitmaps with the same used blocks are the same words. |
| PhysicalMemory.Pmm.Init | kernel/memory/pmm.c:56-79 | For every memory size, the bitmap and the counter stand for the set of whole blocks from 1 MB up to the end of memory or 16 MB; all other bits are set. |
| PhysicalMemory.UsableBlocks | kernel/memory/pmm.c:56-79 | That set in bytes: block b is in it exactly when its 4096 bytes lie between 1 MB and the end of memory and it starts below 16 MB. |
| PhysicalMemory.Pmm.AllocBlock | kernel/memory/pmm.c:85-100 | With no free block the result is null and nothing changes; otherwise the least free block is taken and its address returned. (Null is also the address of block 0, which is free only after someone has freed it.) |
| PhysicalMemory.Pmm.FreeBlock | kernel/memory/pmm.c:106-113 | A used block inside memory becomes free, any other address is ignored; bitmap and counter follow. |
| PhysicalMemory.Pmm.GetFreeMemory | kernel/memory/pmm.c:116-118 | 4096 times the number of free blocks. |
| PhysicalMemory.TakenContiguous | kernel/memory/heap.c:25-33 | Blocks taken from the lowest free one on are contiguous exactly when these blocks were all free, which is what `heap_init` trusts without checking. |
| PmmRuns.RunPartition | kernel/memory/pmm.c:85-113 | In every run that frees only live blocks, free and live blocks partition the usable ones. |
| PmmRuns.AllocationIsFresh | kernel/memory/pmm.c:85-113 | In every such run an allocation fails exactly when nothing is free; otherwise it returns a 4 KB-aligned address of at least 1 MB that is not live already. |
| PmmRuns.TakeAndReturn | kernel/memory/pmm.c:85-113 | Taking a batch of blocks and giving them back in any order restores bitmap and counter. |
| PmmRuns.Perform | kernel/memory/pmm.c:85-113 | Any sequence of calls that frees only live blocks, on the bitmap: it is such a run of the sets. |
| PmmRuns.TestBlock | kernel/shell.c:91-98 | The allocation and release of `testmem` restore the free blocks if and only if one was free; with none left they free block 0. |
| PmmRuns.TestBlockWithoutMemory | kernel/shell.c:91-98 | With 1 MB of memory they do. |
| Paging.BuiltIsIdentity | kernel/memory/paging.c:34-75 | Directory and tables as filled in memory make the two-level walk map every address below 16 MB to itself, present and writable, and find every other address not present. |
| Paging.BuiltWords | kernel/memory/paging.c:31-73 | The same entry by entry: the first four directory entries are table addresses plus 3, the other 1020 are 2, and entry i of table t is t * 4 MB + i * 4 KB + 3. |
| Paging.SixteenMegabytes | kernel/memory/paging.c:34-75 | For each address: mapped to itself and writable below 0x1000000, a fault from there on. |
| Paging.Init | kernel/memory/paging.c:20-75 | Takes the five lowest blocks, builds directory and four tables in them, writes nothing else, and the walk from the directory is the identity map. |
| Paging.MapRegion | kernel/memory/paging.c:42-75 | One round of the loop takes a block that nothing else uses, fills it as a table and enters it, and the tables built before stay as they are. |
| Paging.FillTable | kernel/memory/paging.c:48-64 | The inner loop fills all 1024 entries of one table. |
| Paging.FlagsAreLowBits | kernel/memory/paging.c:63-74 | Or-ing the two flag bits into a page address adds 3 to it. |
| Paging.BuiltFrame | kernel/memory/paging.c:20-75 | Writes outside directory and tables leave the map as built. |
| Boot.NineBlocks | kernel/memory/paging.c:20-75 | Heap and paging together obtain the nine consecutive blocks from 1 MB on exactly when memory has at least 0x109000 bytes. |
| Boot.Bring | kernel/kernel.c:84-86 | `pmm_init`, `heap_init`, `paging_init`: with that much memory, the heap is one free node over the first four blocks and the tables in the other five are the identity map. |
| Boot.MapSurvives | kernel/memory/paging.c:20-75 | No change below the end of the arena disturbs the identity map. |
| Boot.BringAndRun | kernel/kernel.c:84-86 | After booting and any legal run of heap calls the map is still the identity. |
| RunQueue.AwayAndBack | kernel/task/task_asm.asm:25-85 | A task that calls `switch_to_task` and is later resumed, whatever ran or was created in between, has all its registers, flags, stack pointer and return address as at the call. |
| RunQueue.ParkedKept | kernel/task/task_asm.asm:25-85 | No event changes what a parked task will resume with. |
| RunQueue.StepOk | kernel/task/task.c:93-128 | The queue stays one cycle of distinct tasks with one of them running. |
| RunQueue.EachExactlyOnce | kernel/task/task.c:116-128 | In any n consecutive schedules of a queue of n tasks, whatever the tasks execute in between, each task has exactly one turn. |
| RunQueue.TurnComes | kernel/task/task.c:93-128 | With creations in between, a waiting task runs within its distance plus the creations still possible. |
| RunQueue.ThreeSchedulesSuffice | kernel/task/task.c:116-128 | In a queue that stays within four tasks every waiting task runs within three schedules, creations in between or not; `KernelRuns.FourTasksEver` shows that every queue of the kernel does. |
| RunQueue.QueueCountsCreations | kernel/task/task.c:63-97 | The length of the queue counts the creations; `KernelRuns.FewCreations` bounds them. |
| KernelRuns.FourTasksEver | kernel/task/task.c:63-97 | Whatever happens to the kernel, there are never more than four tasks. |
| KernelRuns.FewCreations | kernel/task/task.c:63-97 | In any run of the kernel the creations and the tasks before them are at most four together. |
| KernelRuns.ThreeTicksSuffice | kernel/task/task.c:93-128 | In any run of the kernel a waiting task runs within three ticks, creations in between or not. |
| Kernel.Kernel.NobodyStarves | kernel/task/task.c:93-128 | Both, for the kernel in memory: its invariant gives the bound that they need. |
| RunQueue.Rotates | kernel/task/task.c:116-128 | Without creations each schedule moves the running position one place round, whatever runs in between, and nobody's place changes. |
| Cpu.Machine.SwitchToTask | kernel/task/task_asm.asm:25-85 | Word by word on stack memory: the old context is complete on the old stack, its stack pointer is stored through the first argument, and all registers come from the frame at the second. |
| Cpu.Machine.PushContext | kernel/task/task_asm.asm:28-35 | The eight pushes, in order. |
| Cpu.Machine.PopContext | kernel/task/task_asm.asm:68-85 | The pops and the return, in reverse order. |
| Cpu.ResumedFrame | kernel/task/task_asm.asm:68-85 | What a frame resumes with depends on its nine words only. |
| TaskMemory.SwitchedInMemory | kernel/task/task.c:116-128 | Parking the running task through its own stack and `esp` field keeps the whole queue in memory: `next` pointers form the ring, every other task is parked on an intact frame. |
| TaskMemory.InsertedInMemory | kernel/task/task.c:88-94 | Linking a new task after the head gives the ring with that task second. |
| Tasks.FourTasks | kernel/task/task.c:63-68 | The arena has room for three stacks: there are never more than four tasks. |
| Tasks.DistinctPids | kernel/task/task.c:88 | All pids are distinct and below the number of tasks, so the counter never wraps. |
| Tasks.AppendedOnlyAlone | kernel/task/task.h:115-116 | A new task is appended to the ring if and only if the main task is alone; in every longer ring it comes second. |
| Tasks.PicksReadyUnlessMain | kernel/task/task.h:125-129 | The task a schedule picks is marked ready if and only if it is not the main task: the main task stays marked running, every other one ready, for good. |
| Tasks.QueueWords | kernel/task/task_asm.asm:28-58 | The queue word by word: id, state, stack and next pointer of every control block, and for a parked task the nine words of its frame, each register at its own offset from the stored stack pointer. |
| Tasks.FirstSwitch | kernel/task/task.c:70-86 | The first switch to a new task, whatever runs before it: eip is the entry point, eflags 0x202, esp the end of its 4096 bytes, and the seven general registers are 0. |
| Tasks.NewTaskFits | kernel/task/task.h:61-67 | Two blocks new to the heap make a task that shares no byte with any other. |
| Tasks.Scheduler.TaskInit | kernel/task/task.c:39-48 | The running context becomes task 0, alone in the ring: id 0, saved stack pointer 0, state 1, next itself. |
| Tasks.Scheduler.WriteFrame | kernel/task/task.c:70-86 | The nine words written downwards from the end of the stack, 36 bytes below it: 0x202, seven zeros, the entry point; and `switch_to_task` resumes from them. |
| Tasks.Scheduler.CreateTask | kernel/task/task.c:63-97 | Fails exactly when one of the two allocations does, and then node list, ring and pid counter are as before; on success the node list is that of the two allocations and the ring has the new task after the head, parked to start at its entry point, with a new pid. Live blocks and parked stacks keep their words. |
| Tasks.CreationTakes | kernel/task/task.c:63-68 | In terms of the unallocated bytes: the control block starts the lowest run of 32, the stack the lowest run of 4108 left after it, and creation fails exactly when one of them does not exist. |
| Tasks.IsNewTask | kernel/task/task.c:63-97 | The new task and the new node list are functions of the old node list, the pid counter and the entry point. |
| Tasks.Scheduler.AllocatePair | kernel/task/task.c:64-68 | Both blocks or none: when the second allocation fails the first is undone exactly. |
| Tasks.Scheduler.TaskSchedule | kernel/task/task.c:116-128 | Does nothing before `task_init`. After it, through memory and registers: the running task is parked as at the call, its successor resumes with what it saved, and only the parked task's stack and `esp` field are written. |
| Tasks.Scheduler.Kmalloc | kernel/memory/heap.c:59-98 | An allocation by anyone leaves queue and tasks as they are. |
| Tasks.Scheduler.Kfree | kernel/memory/heap.c:104-129 | So does the release of any block that belongs to no task. |
| Tasks.OthersSpared | kernel/task/task.c:116-128 | What a task writes to its own stack and control block touches no other heap block. |
| Timer.SleepLatency | kernel/drivers/timer/timer.c:101-120 | For every starting value of the tick counter, wrap-around included: with n tasks and a wait of w ticks the sleeper leaves in fewer than w + n ticks if and only if w rounded up to its next turn is below 2^32; it then leaves exactly at that turn, never early. |
| Timer.LatencyCondition | kernel/drivers/timer/timer.c:112-119 | For the one to four tasks this kernel can have, that condition is: three tasks, or w at most 2^32 - n. |
| Timer.NeverLeaves | kernel/drivers/timer/timer.c:117-119 | Beyond it, with two or four tasks, the sleeper never leaves. |
| Timer.TickingQueue.Sleep | kernel/drivers/timer/timer.c:101-120 | The loop itself, on the run queue: whatever is computed and created while ticks come in, if the sleeper will ever run having waited long enough, the loop ends at the first tick where it does. |
| Timer.SleepInTurn | kernel/drivers/timer/timer.c:101-120 | Without creations that is the first turn at or past the wait. |
| Timer.SleepAmongFour | kernel/drivers/timer/timer.c:101-120 | With creations, among at most four tasks, it is after at least w and fewer than w + 4 ticks. |
| Timer.TurnsInRun | kernel/drivers/timer/timer.c:117-119 | In every run of the queue without creations the task that runs now runs again exactly at its turns: when the number of schedules is a multiple of the queue length. |
| Timer.LatencyInRun | kernel/drivers/timer/timer.c:101-120 | In every run of the queue without creations: a task that starts to wait leaves within fewer than w + n ticks if and only if that condition holds, and then at that turn. |
| Timer.HundredHertzSuffices | kernel/drivers/timer/timer.c:101-120 | At the 100 Hz this kernel sets, the condition holds for every delay. |
| Timer.ThousandHertzFails | kernel/drivers/timer/timer.c:101-120 | At 1000 Hz the longest delay violates it with two or four tasks. |
| Timer.BackAtTurns | kernel/arch/i386/interrupt.asm:27-48 | One schedule per tick brings a task back exactly at multiples of the queue length. |
| Timer.DelayExact | kernel/drivers/timer/timer.c:106-110 | The conversion for every frequency: one tick when ms is less than a tick, otherwise the number of whole ticks of 1000 / freq ms in it; at 100 Hz, 10 w <= ms < 10 w + 10. |
| Timer.SleepMillis | kernel/drivers/timer/timer.c:101-120 | In milliseconds, at 100 Hz and with at most four tasks, creations included: `sleep` waits for more than ms - 10 and for less than ms + 40, or 50 when ms is below a tick. |
| KernelRuns.SleepInMillis | kernel/drivers/timer/timer.c:101-120 | The same in any run of the kernel. |
| Timer.DelayCovers | kernel/drivers/timer/timer.c:106-110 | At 100 Hz the delay covers the requested milliseconds exactly when these are a multiple of 10 or below 10: the conversion rounds down, although the comment says up. |
| Timer.RoundUpIsFirst | kernel/drivers/timer/timer.c:117-119 | The rounded wait is the first turn at or past the requested one. |
| Interrupt.TimerInterrupt.Irq0 | kernel/arch/i386/interrupt.asm:27-48 | Through memory: the interrupted context is saved complete on its own stack, the tick is counted, the flag is cleared, and the queue takes one scheduling step, whatever the C functions push below the saved context and leave in the registers; only the interrupted task's own memory is written. |
| Interrupt.ParkedEnabled | kernel/arch/i386/interrupt.asm:41-48 | While the interrupted task is away it is parked inside the handler with bit 9 of EFLAGS set, at the return address, and its stack pointer is below the 44 bytes of saved context, the words of the C functions and two arguments. |
| Interrupt.OnlyInterruptFlag | kernel/arch/i386/interrupt.asm:43-50 | `sti` and `cli` set and clear bit 9 of EFLAGS and touch no other bit. |
| Interrupt.TimerInterrupt.Leave | kernel/arch/i386/interrupt.asm:53-55 | Whatever the registers hold, the epilogue brings back the saved ones. |
| Interrupt.TimerInterrupt.Return | kernel/arch/i386/interrupt.asm:50-55 | So does the way back: the words of the C functions are popped, then the end of the handler. |
| KernelRuns.StillSaved | kernel/arch/i386/interrupt.asm:46-55 | Whatever happens after a tick, what the interrupt saved is intact when the interrupted task's turn comes again. |
| Vga.Console.Putchar | kernel/drivers/vga/vga.c:107-146 | The scrolling buffer and cursor stay the visible window of an unbounded page: newline, backspace across rows, wrapping and scrolling included. |
| Vga.Console.Scroll | kernel/drivers/vga/vga.c:88-103 | Every row moves up by one and the last is blank. |
| Vga.Console.Clear | kernel/drivers/vga/vga.c:64-72 | All cells blank in the current colour, cursor at the top left. |
| Vga.Console.Write | kernel/drivers/vga/vga.c:150-154 | The page is the old one with the characters before the terminator put on it in order. |
| Vga.PutAllConcat | kernel/drivers/vga/vga.c:150-154 | Writing two texts is writing their concatenation. |
| Screen.PrintedCells | kernel/drivers/vga/vga.c:139-146 | A printed text stands in consecutive cells from the cursor on: character k in the low byte, the current colours in the high one. |
| Screen.CellsStay | kernel/drivers/vga/vga.c:107-146 | Whatever is written after it without a backspace, newlines and scrolling included, changes no cell before the cursor. |
| Screen.PutAllTypes | kernel/drivers/vga/vga.c:107-146 | Character by character the page follows its text: newline fills up the row, backspace takes back the last character that has not scrolled off; every cell from the cursor on is blank. |
| Screen.BufferShowsWindow | kernel/drivers/vga/vga.c:43-146 | The 80x25 buffer shows the last rows of that text, with the cursor right after it and blanks from there on. |
| Screen.TypedIsWrapped | kernel/drivers/vga/vga.c:107-146 | Text without backspaces appears as its wrapped lines, scrolled no further than needed. |
| Screen.ScreenShowsWrapped | kernel/drivers/vga/vga.c:64-146 | From a cleared screen the buffer is the visible window of the wrapped text. |
| Screen.EraseUndoesPrint | kernel/drivers/vga/vga.c:121-137 | Erasing as many characters as were printed takes them back if and only if (before + printed) / 80 - 24 <= before / 80 in characters: the row where the text ended is among the last 25. |
| Screen.ScreenfulStays | kernel/drivers/vga/vga.c:121-137 | 2000 characters from a cleared screen cannot be taken back. |
| CStrings.Strlen | kernel/lib/string.c:11-15 | The length of the text before the first terminator. |
| CStrings.Strcmp | kernel/lib/string.c:37-43 | Zero exactly on equal texts, negative exactly when the first is smaller in the lexicographic order of unsigned bytes. |
| CStrings.LessTotal | kernel/lib/string.c:37-43 | That order is total and strict. |
| CStrings.LessTransitive | kernel/lib/string.c:37-43 | And transitive. |
| CStrings.Strncmp | kernel/lib/string.c:59-67 | The same on the first n characters. |
| CStrings.Strchr | kernel/lib/string.c:108-114 | The first occurrence, the terminator for the terminator, and null exactly when the text has none. |
| Bytes.Memcpy | kernel/lib/string.c:151-157 | The bytes are in place and no word outside the target has changed. |
| Bytes.WithByteParts | kernel/lib/string.c:151-157 | A byte store changes one byte of its word. |
| Bytes.BytesMakeWord | kernel/lib/string.c:151-157 | The four bytes make the word, the least significant one at the lowest address. |
| Numbers.DecimalReads | kernel/lib/string.c:161-177 | The decimal text reads back as the number and has no leading zero except for 0 itself. |
| Numbers.DecimalUnique | kernel/lib/string.c:161-177 | It is the only such numeral. |
| Numbers.DecimalBuffer | kernel/lib/string.c:167-176 | For every 32-bit value the digits fill the buffer of 12 from the back and never leave it. |
| Numbers.PrintUint | kernel/lib/string.c:161-177 | Writes that text to the screen. |
| Numbers.HexReads | kernel/lib/string.c:185-198 | Eight hexadecimal digits read back as the number. |
| Numbers.PrintHex | kernel/lib/string.c:185-198 | Writes "0x" and these digits. |
| Numbers.FormatSize | kernel/fs/vfs.c:108-125 | The size column is the same decimal text, built from two buffers, for sizes below 2^31, and empty for the others, which the code takes for negative. |
| Files.FindIsFirst | kernel/fs/vfs.c:82-89 | Lookup yields the first file of that name, or none exactly when there is none. |
| Files.CodeMeaning | kernel/fs/vfs.c:37-51 | -1 exactly for a full table of 16, -2 exactly for a name that exists in a table that is not full, -3 exactly when only the memory is lacking, 0 otherwise. |
| Files.CreatedAppends | kernel/fs/vfs.c:54-73 | Success appends one file under the first 31 characters of its name; any failure leaves the table as it is. |
| Files.CreateInserts | kernel/fs/vfs.c:37-74 | For names of at most 31 characters creation inserts into a finite map if the name is absent. |
| Files.CreatedDistinct | kernel/fs/vfs.c:42-46 | Names stay distinct if and only if the stored, cut name is new; the code checks only the name as given. |
| Files.LongNamesCollide | kernel/fs/vfs.c:42-69 | Two names of 32 characters that differ in the last one end up as the same name twice. |
| Files.CreatedIsFound | kernel/fs/vfs.c:37-89 | A new file is found under the name it was created with if and only if that has at most 31 characters. |
| Files.FoundForGood | kernel/fs/vfs.c:37-89 | A file once found is found with the same content after any further creations, and there are never more than 16 files. |
| Files.RowColumns | kernel/fs/vfs.c:105-127 | In a listing the name is followed by spaces up to column 33, the size after it reads back, and a newline ends the row. |
| Files.ListingInOrder | kernel/fs/vfs.c:93-129 | A listing is its two header lines followed by the row of every file in table order; without files it is one sentence. |
| Vfs.Vfs.CreateFile | kernel/fs/vfs.c:37-74 | Returns -1, -2, -3 or 0 for a full table, a name that exists, no memory, success, in that order; a failure changes neither table nor heap list nor a word of memory, and success adds the file in a block that was not live before and touches no other live block. |
| Vfs.CreationMeaning | kernel/fs/vfs.c:37-74 | The same without naming the specification: each of the four codes exactly under its condition on table, name and unallocated bytes; nothing at all has changed after a failure; one file, its name cut at 31 characters, has been added after a success. |
| Vfs.SlotMeaning | kernel/fs/vfs.c:54-69 | A file in the table: name and terminator in the array, flag 1, its length, and the characters and a terminator in the bytes of its block. |
| Vfs.Vfs.GiveBack | kernel/shell.c:101-108 | A block allocated for a test and freed again leaves node list, table and files exactly as they were. |
| Vfs.Vfs.ReadFile | kernel/fs/vfs.c:82-89 | The first slot of that name. |
| Vfs.Vfs.Init | kernel/fs/vfs.c:18-28 | All 16 slots have an empty name and nothing else. |
| Vfs.Vfs.StoreName | kernel/fs/vfs.c:61-64 | The name array holds the first 31 characters, a terminator, and after it what was there before. |
| Vfs.Vfs.WriteContent | kernel/shell.c:150-152 | The bytes in the block of a file, up to the terminator, are its content. |
| Vfs.Vfs.ListFiles | kernel/fs/vfs.c:93-129 | Writes the listing. |
| Vfs.TrafficKeepsFiles | kernel/fs/vfs.c:48-58 | After any run of heap calls that frees no file's block every file holds the same bytes. |
| Vfs.FilesSpared | kernel/fs/vfs.c:51-58 | Filling a new block leaves the other files as they are. |
| Commands.ParsesAsWrite | kernel/shell.c:159-182 | A line is read as `write` with a name and a content if and only if it is the word, a name without spaces, a space and the content, both not empty. |
| Commands.ParsesAsCat | kernel/shell.c:143-148 | A line is read as `cat` with a name if and only if it is the word and the name, not empty. |
| Commands.ParsesAsWord | kernel/shell.c:46-199 | The other lines: `testheap`, `ls`, `clear` and `cat ` alone are what they say, `write ` with a missing part asks for it, and anything else is unknown. |
| Commands.DemoNames | kernel/shell.c:46-189 | The ten further words. |
| Shell.ReadCommand | kernel/shell.c:46-199 | The chain of comparisons on the buffer, with its cut in place, reads the line as the grammar says. |
| Shell.CutArguments | kernel/shell.c:160-166 | A terminator in place of the first space makes two strings of one. |
| Shell.Run | kernel/shell.c:100-199 | Every command changes files, heap and screen as specified, and nothing live in memory. |
| Shell.RunTestHeap | kernel/shell.c:101-112 | Allocates and frees 32 bytes; the node list is as before and no file changes. |
| Shell.Shell.Input | kernel/shell.c:215-231 | One key changes line, files, heap and screen as the specification of a session says. |
| Shell.Shell.ExecuteCommand | kernel/shell.c:35-203 | Enter runs the line and leaves an empty one behind a new prompt. |
| Shell.Shell.Init | kernel/shell.c:205-213 | Greeting and first prompt; on a clean screen, line and screen agree. |
| Shell.Shell.InputAll | kernel/shell.c:215-231 | Any keys, on the real buffer, console, table and heap; agreement of line and screen is kept. |
| Sessions.ScreenAgreesWithLine | kernel/shell.c:215-231 | After any keystrokes the text on the screen ends with the prompt and the line typed since, nothing follows it, and the start of the prompt has not scrolled off. |
| Sessions.CellsSpellLine | kernel/drivers/vga/vga.c:107-146 | The cells of the buffer right before the cursor spell prompt and line, across rows, and blanks follow. |
| Sessions.LineIsEdit | kernel/shell.c:215-231 | The line is what the keystrokes since the prompt leave on a stack of at most 255 characters; files and heap do not change. |
| Sessions.BackspacesDrop | kernel/shell.c:219-223 | n backspaces take back the last n characters of the line, or all of them. |
| Sessions.TypedAndErased | kernel/shell.c:215-231 | Typing a text that fits and erasing its last n characters leaves the line with the rest of the text. |
| Sessions.IgnoredKeys | kernel/shell.c:219-229 | A backspace on an empty line and a character on a line of 255 change nothing, screen included. |
| Sessions.PlainText | kernel/shell.c:215-231 | Text that fits is typed and echoed as it is. |
| Sessions.CommandDisplays | kernel/shell.c:35-203 | Every command but `clear` displays the line, its answer and the prompt, whatever the colours. |
| Dialogs.WriteReports | kernel/shell.c:159-182 | `write` by table, name and unallocated bytes: which of the three sentences appears, and files and heap afterwards; nothing changes unless it reports success. |
| Dialogs.TestHeapReports | kernel/shell.c:101-112 | `testheap` reports success exactly when 44 bytes are unallocated in one run, in these sentences, and leaves heap and files as they were. |
| Dialogs.ListDisplays | kernel/shell.c:139-140 | `ls` displays the listing and changes nothing. |
| Dialogs.CatMisses | kernel/shell.c:143-156 | `cat` with a name that no file has says so. |
| Dialogs.CatExplains | kernel/shell.c:146-147 | `cat` without a name displays its usage. |
| Dialogs.WriteExplains | kernel/shell.c:159-182 | So does `write` without a name, without a space after it or without a content. |
| Dialogs.UnknownDisplays | kernel/shell.c:193-199 | Any other line is displayed again as unknown. |
| Dialogs.ClearShowsPrompt | kernel/shell.c:185-186 | After `clear` the whole text of the screen is a prompt at its top. |
| Dialogs.EmptyLineShowsPrompt | kernel/shell.c:38-41 | Enter on an empty line displays a new row and a new prompt and changes nothing else. |
| Dialogs.GreetingDisplays | kernel/shell.c:205-213 | The shell starts with its greeting and a prompt. |
| Dialogs.StaysTinted | kernel/shell.c:17-21 | After any keystrokes the eleven cells of the prompt have colour 11 and the cells of the line behind it colour 15. |
| Dialogs.CellsTinted | kernel/drivers/vga/vga.c:34-146 | So have the cells of the 80x25 buffer. |
| Dialogs.UnknownInRed | kernel/shell.c:193-199 | An unknown line is named in colour 12 on the row below. |
| Dialogs.GreetingTinted | kernel/shell.c:205-213 | The greeting has colour 10. |
| Sessions.WriteStores | kernel/shell.c:159-182 | Typing `write`, a name and a content reports success and stores the file. |
| Sessions.CatDisplays | kernel/shell.c:143-156 | Typing `cat` and the name of a file displays exactly its content. |
| Sessions.FilesStay | kernel/shell.c:35-203 | Nothing typed into the shell changes what an existing name holds. |
| Sessions.WriteThenCat | kernel/shell.c:143-182 | The round trip: what `write` stored under a name of at most 31 characters is what `cat` displays, whatever is typed in between. |
| Kernel.Start | kernel/kernel.c:84-102 | The boot sequence on 0x109000 bytes or more establishes the invariant of the whole kernel: two tasks, no files, identity map, 100 Hz, and greeting and prompt in their colours as all there is on the screen. |
| Kernel.Kernel.Tick | kernel/arch/i386/interrupt.asm:27-48 | A timer interrupt schedules the next task and changes neither files nor heap list nor screen nor line nor identity map, nor any parked stack. |
| Kernel.Kernel.Spawn | kernel/task/task.c:63-97 | A creation, successful or not, leaves files, screen, line and identity map as they are. |
| Kernel.Kernel.Key | kernel/shell.c:215-231 | A keystroke, whatever command it completes, leaves run queue, registers, parked stacks and identity map as they are. |
| Kernel.Kernel.Compute | kernel/task/task.c:63-97 | What the running task writes on its own stack leaves everything else as it is. |
| Kernel.Kernel.Operate | kernel/kernel.c:94-121 | Any sequence of ticks, computations, creations and keystrokes on the real memory follows the kernel as a value and keeps the invariant; the tick counter counts the ticks, and every task that stays parked keeps its stack. |
| Kernel.Kernel.InterruptAndBack | kernel/arch/i386/interrupt.asm:27-55 | An interrupt is invisible to the interrupted task: whatever happens until its turn comes again, it goes on with exactly the registers it had. |
| KernelRuns.QueueRuns | kernel/task/task.c:116-128 | The run queue of any run of the kernel is a run of the run queue with one schedule per tick. |
| KernelRuns.TurnsOfKernel | kernel/drivers/timer/timer.c:117-119 | In any run of the kernel without creations the task that runs now runs again exactly when the number of ticks is a multiple of the number of tasks. |
| KernelRuns.SleepInKernel | kernel/drivers/timer/timer.c:101-120 | The exact latency of `sleep` in any run of the kernel without creations. |
| KernelRuns.SleepWithCreations | kernel/drivers/timer/timer.c:101-120 | In any run of the kernel that is long enough, creations included, a sleeper can leave after at least w and fewer than w + 4 ticks. |
| Kernel.Kernel.SleeperLeaves | kernel/drivers/timer/timer.c:101-120 | The same for the kernel in memory. |
| KernelRuns.BackFromTick | kernel/task/task_asm.asm:25-85 | When an interrupted task runs again in a run of the kernel, its registers are as at the call of `switch_to_task`. |
| KernelRuns.FilesLast | kernel/fs/vfs.c:37-89 | In any run of the kernel a file that exists keeps its content, and line and screen keep agreeing. |
| Kernel.NewTaskSparesFiles | kernel/task/task.c:63-97 | A new task's blocks belong to no file. |
| Kernel.NewFileApart | kernel/fs/vfs.c:48-58 | A new file's block belongs to no task. |

## Left out

- Nested interrupts: `irq0_handler` enables interrupts before it calls the scheduler; here a tick is one step, and a shell command runs to its end without re-entry.
- The C functions called inside the interrupt handler are modelled by what they leave: any words below the saved context, some of them still on the stack at the switch, and any registers; not by their instructions.
- A task's stack depth is a requirement (room for one interrupt, its C functions and one switch), and a task body writes only its own stack.
- Timer.DelayTicks: frequencies of 0 or above 1000 Hz, where the division is undefined, are excluded.
- KernelHeap.Heap.Init: with an empty physical memory manager the code writes its first header through a null pointer; the model writes it too but claims nothing then. With less than 0x104000 bytes it hands out an arena it does not own; the model claims ownership only from 0x109000 bytes on, the boot sequence's own need.
- KernelHeap.Heap.Kfree: the pointer is null or live, as heap.h demands of callers.
- PmmRuns.Step: runs free live blocks only; what freeing a reserved low block does is stated by `PhysicalMemory.Pmm.FreeBlock`.
- Loading CR3 and CR0 is left out: the directory that is loaded is a value of the kernel. Page-size and other control bits of the processor are taken as clear.
- EFLAGS is one word, of which the model's own instructions change the interrupt flag only.
- Port I/O, interrupt controller, timer chip, hardware cursor, keyboard scan codes, boot loader, descriptor tables, exception reports.
- The console buffer is an array of its own and not part of the shared memory, so that writes to it cannot reach the heap; the same goes for the file table, the command buffer and the bitmap, which are static arrays in the code.
- Shell.Shell.Input: the character is not the terminator, which the keyboard driver never sends.
- Vfs.Vfs.CreateFile: contents are shorter than 0xFFFFFFFC characters, as every string in a 4 GB memory beside a heap is.
- Shell.Run: the commands `help`, `version`, `timer`, `testdelay`, `mem`, `testmem`, `crash`, `divzero`, `ps` and `reboot` print a text that is a parameter of the model, depends on the line and on how many lines were entered before, and return; what `testmem` does to the free blocks is stated by `PmmRuns.TestBlock` and is not part of a session.
- `strcpy` and `memset`, which no modelled code calls.
