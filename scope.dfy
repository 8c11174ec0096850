/**
 * Scope collection for one frame: the walk over the frame's block chain from
 * the innermost block outward, recording every argument and variable under
 * its name unless the name is already recorded, re-sorting the whole table by
 * size after each block and printing the whole table again each time.
 */
module Scope {
  import opened Inspector
  import opened SizeSort

  /**
   * The entries that recording `syms` appends to a table that already holds
   * `names`: each argument or variable whose name is neither in the table nor
   * recorded earlier from `syms`, in the order of `syms`.
   */
  function Fresh(names: set<string>, syms: seq<Symbol>): (r: seq<Entry>)
    ensures Distinct(r)
    ensures Names(r) !! names
    decreases |syms|
  {
    if syms == [] then []
    else
      var prev := Fresh(names, syms[..|syms| - 1]);
      var s := syms[|syms| - 1];
      if Qualifies(s) && s.name !in names && s.name !in Names(prev) then
        NamesAppend(prev, [EntryOf(s)]);
        assert Names([EntryOf(s)]) == {s.name};
        DistinctSnoc(prev, EntryOf(s));
        prev + [EntryOf(s)]
      else
        prev
  }

  lemma FreshStep(names: set<string>, syms: seq<Symbol>, j: nat)
    requires j < |syms|
    ensures var prev := Fresh(names, syms[..j]);
            Fresh(names, syms[..j + 1]) ==
              if Qualifies(syms[j]) && syms[j].name !in names && syms[j].name !in Names(prev)
              then prev + [EntryOf(syms[j])] else prev
  {
    assert syms[..j + 1][..j] == syms[..j];
  }

  lemma FreshSnoc(names: set<string>, syms: seq<Symbol>, s: Symbol)
    ensures var prev := Fresh(names, syms);
            Fresh(names, syms + [s]) ==
              if Qualifies(s) && s.name !in names && s.name !in Names(prev)
              then prev + [EntryOf(s)] else prev
  {
    assert (syms + [s])[..|syms|] == syms;
  }

  /** One step of recording into `t`: the next symbol is added when it qualifies and its name is new. */
  lemma RecordStep(t: seq<Entry>, syms: seq<Symbol>, j: nat, recorded: seq<Entry>)
    requires j < |syms|
    requires recorded == t + Fresh(Names(t), syms[..j])
    ensures (if Qualifies(syms[j]) && syms[j].name !in Names(recorded)
             then recorded + [EntryOf(syms[j])] else recorded) ==
            t + Fresh(Names(t), syms[..j + 1])
  {
    FreshStep(Names(t), syms, j);
    NamesAppend(t, Fresh(Names(t), syms[..j]));
  }

  /** The table once the symbols of one block are recorded into `t`, before the re-sort. */
  function Merge(t: seq<Entry>, syms: seq<Symbol>): seq<Entry> {
    t + Fresh(Names(t), syms)
  }

  /** The table after a block that is not skipped: recorded into, then re-sorted. */
  function Absorb(t: seq<Entry>, b: Block): seq<Entry> {
    SortBySize(Merge(t, b.symbols))
  }

  /** A skipped block neither changes the table nor prints anything. */
  lemma WalkSkip(t: seq<Entry>, chain: seq<Block>, i: nat)
    requires i < |chain| && Skipped(chain[i])
    ensures Snapshots(t, chain[i..]) == Snapshots(t, chain[i + 1..])
  {
    assert chain[i..][0] == chain[i] && chain[i..][1..] == chain[i + 1..];
  }

  lemma SnapshotsVisit(t: seq<Entry>, chain: seq<Block>, i: nat, next: seq<Entry>)
    requires i < |chain| && !Skipped(chain[i]) && next == Absorb(t, chain[i])
    ensures Snapshots(t, chain[i..]) == [next] + Snapshots(next, chain[i + 1..])
  {
    assert chain[i..][0] == chain[i] && chain[i..][1..] == chain[i + 1..];
  }

  lemma EmitCons(next: seq<Entry>, later: seq<seq<Entry>>)
    ensures Emit([next] + later) == Rows(next) + Emit(later)
  {
    assert ([next] + later)[0] == next && ([next] + later)[1..] == later;
  }

  /**
   * Any other block prints the re-sorted table, and the walk goes on from
   * that table: what was printed so far, followed by what is still to come,
   * stays the same.
   */
  lemma WalkVisit(printed: seq<Event>, t: seq<Entry>, chain: seq<Block>, i: nat, next: seq<Entry>, rows: seq<Event>)
    requires i < |chain| && !Skipped(chain[i])
    requires next == Absorb(t, chain[i]) && rows == Rows(next)
    ensures printed + Emit(Snapshots(t, chain[i..])) == (printed + rows) + Emit(Snapshots(next, chain[i + 1..]))
  {
    var later := Snapshots(next, chain[i + 1..]);
    SnapshotsVisit(t, chain, i, next);
    EmitCons(next, later);
    assert printed + (rows + Emit(later)) == (printed + rows) + Emit(later);
  }

  /** The table once the walk from `t` has passed every block of `blocks`. */
  function Collect(t: seq<Entry>, blocks: seq<Block>): seq<Entry>
    decreases |blocks|
  {
    if blocks == [] then t
    else Collect(if Skipped(blocks[0]) then t else Absorb(t, blocks[0]), blocks[1..])
  }

  /** The table as printed after each block that is not skipped, in walk order. */
  function Snapshots(t: seq<Entry>, blocks: seq<Block>): seq<seq<Entry>>
    decreases |blocks|
  {
    if blocks == [] then []
    else if Skipped(blocks[0]) then Snapshots(t, blocks[1..])
    else
      var next := Absorb(t, blocks[0]);
      [next] + Snapshots(next, blocks[1..])
  }

  /** One row per entry of a table, in table order. */
  function Rows(t: seq<Entry>): seq<Event> {
    seq(|t|, i requires 0 <= i < |t| => Row(t[i]))
  }

  /** The rows of every snapshot, one snapshot after the other. */
  function Emit(snaps: seq<seq<Entry>>): seq<Event> {
    if snaps == [] then [] else Rows(snaps[0]) + Emit(snaps[1..])
  }

  function Concat(snaps: seq<seq<Entry>>): seq<Entry> {
    if snaps == [] then [] else snaps[0] + Concat(snaps[1..])
  }

  /** The blocks of a chain that the walk does not skip. */
  function Unskipped(blocks: seq<Block>): seq<Block> {
    if blocks == [] then []
    else (if Skipped(blocks[0]) then [] else [blocks[0]]) + Unskipped(blocks[1..])
  }

  /** The symbols of the blocks that are not skipped, innermost block first. */
  function Locals(blocks: seq<Block>): seq<Symbol> {
    if blocks == [] then []
    else (if Skipped(blocks[0]) then [] else blocks[0].symbols) + Locals(blocks[1..])
  }

  /** `syms[k]` is the first argument or variable of its name in `syms`. */
  ghost predicate FirstQualifying(syms: seq<Symbol>, k: int) {
    0 <= k < |syms| && Qualifies(syms[k]) &&
    forall j :: 0 <= j < k ==> !(Qualifies(syms[j]) && syms[j].name == syms[k].name)
  }

  /** What analysing the frame numbered `frameNr` prints. */
  function FrameReport(frameNr: nat, frame: Frame): seq<Event> {
    match frame.location
    case None => [NoSymtab(frameNr)]
    case Some(loc) =>
      var header := Header(frameNr, frame.functionName, loc.filename, loc.line);
      match frame.blocks
      case None => [header, NoBlock]
      case Some(chain) => [header] + Emit(Snapshots([], chain)) + [Blank]
  }

  /**
   * Records the arguments and variables of one block into `symbols`, each
   * under its name, unless that name is already recorded.
   */
  method RecordBlock(symbols: seq<Entry>, block: Block) returns (recorded: seq<Entry>)
    ensures recorded == Merge(symbols, block.symbols)
  {
    recorded := symbols;
    var j := 0;
    while j < |block.symbols|
      invariant 0 <= j <= |block.symbols|
      invariant recorded == symbols + Fresh(Names(symbols), block.symbols[..j])
    {
      var symbol := block.symbols[j];
      RecordStep(symbols, block.symbols, j, recorded);
      if (symbol.isArgument || symbol.isVariable) && symbol.name !in Names(recorded) {
        recorded := recorded + [Entry(symbol.name, symbol.size, symbol.typeName)];
      }
      assert recorded == symbols + Fresh(Names(symbols), block.symbols[..j + 1]);
      j := j + 1;
    }
    assert block.symbols[..j] == block.symbols;
  }

  /** Prints one row per entry of the table, in table order. */
  method PrintTable(symbols: seq<Entry>) returns (out: seq<Event>)
    ensures out == Rows(symbols)
  {
    out := [];
    var k := 0;
    while k < |symbols|
      invariant 0 <= k <= |symbols|
      invariant out == Rows(symbols[..k])
    {
      assert Rows(symbols[..k + 1]) == Rows(symbols[..k]) + [Row(symbols[k])];
      out := out + [Row(symbols[k])];
      k := k + 1;
    }
    assert symbols[..k] == symbols;
  }

  /**
   * The work done for one block that is not global or static: its symbols
   * recorded, the table re-sorted, the whole table printed.
   */
  method VisitBlock(symbols: seq<Entry>, block: Block) returns (sorted: seq<Entry>, rows: seq<Event>)
    ensures sorted == Absorb(symbols, block)
    ensures rows == Rows(sorted)
  {
    var recorded := RecordBlock(symbols, block);
    sorted := SortBySize(recorded);
    rows := PrintTable(sorted);
  }

  /**
   * Walks a block chain from the innermost block outward: each block that is
   * not global or static has its symbols recorded, the table re-sorted and
   * the whole table printed; every block, skipped or not, leads on to its
   * superblock.
   */
  method WalkBlocks(chain: seq<Block>) returns (out: seq<Event>)
    ensures out == Emit(Snapshots([], chain))
  {
    out := [];
    var symbols: seq<Entry> := [];
    var i := 0;
    ghost var total := Emit(Snapshots([], chain));
    assert chain[0..] == chain;
    while i < |chain|
      invariant 0 <= i <= |chain|
      invariant out + Emit(Snapshots(symbols, chain[i..])) == total
    {
      var block := chain[i];
      if !(block.isGlobal || block.isStatic) {
        var sorted, rows := VisitBlock(symbols, block);
        WalkVisit(out, symbols, chain, i, sorted, rows);
        out := out + rows;
        symbols := sorted;
      } else {
        WalkSkip(symbols, chain, i);
      }
      i := i + 1;
    }
    assert chain[i..] == [];
  }

  /**
   * Analyses one frame: a notice and nothing else when it has no symbol
   * table; the header and a notice when its block cannot be had; otherwise
   * the header, the whole table after each block that is not skipped, and a
   * blank line.
   */
  method AnalyzeFrame(frameNr: nat, frame: Frame) returns (out: seq<Event>)
    ensures out == FrameReport(frameNr, frame)
  {
    if frame.location.None? {
      out := [NoSymtab(frameNr)];
      return;
    }
    var loc := frame.location.value;
    out := [Header(frameNr, frame.functionName, loc.filename, loc.line)];
    if frame.blocks.None? {
      out := out + [NoBlock];
      return;
    }
    var rows := WalkBlocks(frame.blocks.value);
    out := out + rows + [Blank];
  }
}
