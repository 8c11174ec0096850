# stack-inspector, modelled in Dafny

`stack-inspector` is a debugger command. It walks the call stack of a
suspended thread from the selected frame outward. For each frame it reports
the arguments and local variables in scope, with their storage sizes,
largest first.

The model covers the two loops that do the work:

- **Per-frame scope collection** (`analyze_frame`). This is in `scope.dfy`.
  - A frame without a symbol table yields one notice and nothing else.
  - A frame whose block cannot be obtained yields its header and one notice.
  - Otherwise the block chain is walked from the innermost block outward, and global and static blocks are passed over.
  - Each other block has its arguments and variables recorded under their names. A name already recorded keeps its first (innermost) entry.
  - After each such block, the whole table is re-sorted by size, largest first, with a stable sort. The whole table is then printed again.
  - A blank line ends the frame.
- **The stable size sort** (`sorted(..., key=size, reverse=True)`). This is in `size_sort.dfy`. It is an insertion sort that takes entries from first to last, so entries of equal size keep their order.
- **The command** (`StackVisualizer.invoke`). This is in `backtrace.dfy`. It prints a banner, collects the backtrace by following each frame's next-older frame until there is none, then analyses the frames in order, numbered from 0.

Supporting files:

- `inspector.dfy` holds the data:
  - frames, blocks and symbols, as the debugger hands them over;
  - the table entries;
  - the output events: banner, header, no-symbol-table notice, no-block notice, one row per variable, blank line.
- `scope_properties.dfy` states what scope collection guarantees.
- `scenario.dfy` works through a three-frame stack. Frame 0 has an inner block and an outer block, then global and static blocks. Frame 1 has no symbol table. Frame 2 has a single variable. The lemmas there derive the command's whole output for that stack.

Printing is modelled as a returned sequence of events. Frames are identified by number in a map that stands for the debugger's frame objects. A frame's block chain is a sequence, innermost block first.

The code prints inside the per-block branch (stack-inspector.py:40-44), so the whole accumulated table is printed again after every block that is not global or static, not once per frame. `Snapshots` is the list of tables printed for one frame. Two lemmas relate those tables to the table the frame ends with:

- `ScopeProperties.CollectSortsOnce` shows that re-sorting after every block ends in the table that one sort at the end would give.
- `ScopeProperties.SnapshotsEnd` shows that the last table printed equals that final table.

## Model

| member | source | states |
|---|---|---|
| Scope.Fresh | stack-inspector.py:30-34 | What recording one block adds to a table never repeats a name and never reuses a name already in the table |
| Scope.RecordBlock | stack-inspector.py:30-34 | The loop over a block's symbols leaves the old table followed by the block's new arguments and variables, each name once, in the order the block yields them |
| Scope.PrintTable | stack-inspector.py:40-44 | One row per entry of the table, in table order |
| Scope.WalkBlocks | stack-inspector.py:27-46 | The walk over the block chain prints exactly the sequence of tables `Snapshots`, one after every block that is not global or static |
| Scope.AnalyzeFrame | stack-inspector.py:8-48 | One frame's output is `FrameReport`: the notice alone without a symbol table, the header and notice when the block cannot be had, else the header, every printed table and a blank line |
| Scope.VisitBlock | stack-inspector.py:29-44 | For a block that is not global or static: the table afterwards is the block's symbols recorded and the whole re-sorted, and the rows printed are that whole table |
| Scope.WalkSkip | stack-inspector.py:28-46 | Loop step of `WalkBlocks` for a global or static block: the tables still to be printed are those of the superblocks, from the same table |
| Scope.WalkVisit | stack-inspector.py:29-46 | Loop step of `WalkBlocks` for any other block: what was printed plus what is still to come stays the same once the re-sorted table's rows are printed and the walk continues from that table |
| SizeSort.SortBySize | stack-inspector.py:36-38 | The re-sorted table is ordered by size, largest first, and is a permutation of the table it sorts |
| SizeSort.SortIsStable | stack-inspector.py:36-38 | Entries of each size leave the sort in the order they entered it |
| SizeSort.SortOfSorted | stack-inspector.py:36-38 | Re-sorting a table that is already sorted changes nothing |
| SizeSort.SortAfterSort | stack-inspector.py:36-38 | Sorting, appending and sorting again equals appending and sorting once |
| SizeSort.SortKeepsDistinct | stack-inspector.py:36-38 | Sorting never makes two entries share a name |
| ScopeProperties.FreshCovers | stack-inspector.py:30-34 | Every argument or variable of a block whose name was not yet in the table has its name recorded |
| ScopeProperties.FreshOrigin | stack-inspector.py:30-34 | Every entry recorded from a block is the name, size and type of the first argument or variable of that name in the block, and that name was new to the table |
| ScopeProperties.FreshInOrder | stack-inspector.py:30-34 | Recorded entries follow the order of the symbols they come from: of two entries, the earlier one comes from the earlier first argument or variable of its name |
| ScopeProperties.CollectSortsOnce | stack-inspector.py:27-46 | Re-sorting after every block ends in the table that recording all local symbols, innermost first, and sorting once gives |
| ScopeProperties.FinalTable | stack-inspector.py:27-46 | A frame's final table is one stable sort of the first-come entries of the chain's local symbols |
| ScopeProperties.ScopeTable | stack-inspector.py:27-46 | The final table is sorted by size and has each name once; an entry is in it exactly when it comes from the first argument or variable of its name in the non-skipped blocks, inner to outer (inner declarations shadow outer ones) |
| ScopeProperties.ScopeTableOrder | stack-inspector.py:27-46 | Ties in the final table are broken by first appearance: of two entries of one size, the one whose first argument or variable comes earlier, innermost block first, is listed first |
| SizeSort.SortKeepsTies | stack-inspector.py:36-38 | Two entries of one size, one before the other after the sort, came in that order before it |
| ScopeProperties.ScopeTableOrigin | stack-inspector.py:28-34 | Every final entry comes from an argument or variable of a block that is not global or static, and every such symbol has its name in the table |
| ScopeProperties.AbsorbShape | stack-inspector.py:29-38 | After one block the table is a permutation of the old entries plus new ones; it is sorted; equal sizes keep old entries first in their old order, then new ones; new names are new; new entries come from the block's first symbol of each name, in the order the block yields those symbols; no name is ever duplicated |
| ScopeProperties.SnapshotCount | stack-inspector.py:28-46 | One table is printed per block that is not global or static |
| ScopeProperties.SnapshotsWellFormed | stack-inspector.py:36-44 | Every printed table is sorted by size and holds each name once |
| ScopeProperties.SnapshotsGrow | stack-inspector.py:32-38 | No entry, once recorded, is ever dropped or overwritten in a later printed table |
| ScopeProperties.SnapshotsEnd | stack-inspector.py:28-46 | The last table printed is the table the walk ends with; if none is printed, the table is unchanged |
| ScopeProperties.SkippedBlocksTransparent | stack-inspector.py:28-29 | Global and static blocks affect neither the printed tables nor the final table |
| ScopeProperties.EmitRows | stack-inspector.py:40-44 | The printed tables carry no frame number, and their rows are the tables' entries one table after the other |
| ScopeProperties.FrameTags | stack-inspector.py:11-25 | A frame's output carries its frame number exactly once, on every path |
| ScopeProperties.FrameReportShape | stack-inspector.py:11-48 | Without a symbol table the output is the one notice, whatever the blocks; when the block cannot be had it is the header and one notice; otherwise its rows are the printed tables in order and the last event is the blank line |
| Backtrace.ChainDetermined | stack-inspector.py:62-64 | The selected frame and the next-older links fix the backtrace: two chains from one frame are equal |
| Backtrace.ChainHasNoRepeats | stack-inspector.py:62-64 | No frame occurs twice in a backtrace that ends |
| Backtrace.CollectBacktrace | stack-inspector.py:59-64 | The collected list is exactly the frames reached from the selected frame by following next-older links, in that order |
| Backtrace.AnalyzeBacktrace | stack-inspector.py:66-67 | The output is the report of each frame in list order, with the frame's position as its number |
| Backtrace.StackTags | stack-inspector.py:66-67 | The frame numbers in the output are 0, 1, ..., n-1 in order; every frame is reported, whichever exit its analysis takes |
| Backtrace.CommandTags | stack-inspector.py:58-67 | The same holds for the command's whole output, banner included |
| Backtrace.Invoke | stack-inspector.py:57-67 | The command prints the banner, then the report of every frame of the backtrace from the selected frame outward |
| Scenario.FrameZeroTables | stack-inspector.py:27-46 | Two nested blocks of sizes 4096 and 4, then 64, followed by skipped blocks, print the tables [4096, 4] and then [4096, 64, 4] |
| Scenario.FrameZero | stack-inspector.py:8-48 | That frame's whole output: header, both tables, blank line |
| Scenario.FrameTwo | stack-inspector.py:8-48 | A frame with one block holding one variable prints its header, one row and a blank line |
| Scenario.WholeStack | stack-inspector.py:57-67 | The command's whole output for the three-frame stack, including the lone notice for the frame without a symbol table |

## Left out

- Registering the command with the debugger, and obtaining the selected frame. The selected frame and the frame map are parameters.
- How the debugger computes a frame's location, symbol table, function name, a type's size and a type's printed name. These arrive as plain fields of `Frame` and `Symbol`.
- Text layout. Column padding, thousands separators and newlines are not modelled. Each printed line is an event, and the header's own trailing newline is part of the `Header` event.
- Exceptions other than the caught `RuntimeError` are not modelled, for example a frame whose function is unknown. They abort the command inside the debugger.
- Backtrace.CollectBacktrace, Backtrace.Invoke: a chain of next-older frames that never ends is not modelled. Both methods require a finite chain, given as a ghost witness. A block chain is a finite sequence by construction.
- The parsing of the command's argument and the `from_tty` flag. The code ignores both.
