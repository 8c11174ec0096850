/**
 * A three-frame stack worked through by the model: frame 0 has `buf` (4096
 * bytes) and `i` (4 bytes) in its innermost block and `ctx` (64 bytes) in the
 * enclosing one, then file-level blocks; frame 1 has no symbol table; frame 2
 * has `x` (8 bytes) alone. Names, types and locations are left open: any
 * symbols of those sizes with distinct names give the same report.
 */
module Scenario {
  import opened Inspector
  import opened SizeSort
  import opened Scope
  import opened Backtrace

  lemma FreshOne(names: set<string>, c: Symbol)
    requires Qualifies(c) && c.name !in names
    ensures Fresh(names, [c]) == [EntryOf(c)]
  {
    assert [c][..0] == [];
  }

  lemma FreshTwo(a: Symbol, b: Symbol)
    requires Qualifies(a) && Qualifies(b) && a.name != b.name
    ensures Fresh({}, [a, b]) == [EntryOf(a), EntryOf(b)]
  {
    FreshOne({}, a);
    assert [a, b][..1] == [a];
    assert Names([EntryOf(a)]) == {a.name};
  }

  lemma InsertBetween(a: Entry, b: Entry, c: Entry)
    requires a.size >= c.size > b.size
    ensures Insert([a, b], c) == [a, c, b]
  {
    assert [a, b][1..] == [b];
    assert Insert([b], c) == [c] + [b];
    assert Insert([a, b], c) == [a] + Insert([b], c);
  }

  /** Blocks that are all global or static print nothing. */
  lemma {:induction false} SkippedTail(t: seq<Entry>, blocks: seq<Block>)
    requires forall k :: 0 <= k < |blocks| ==> Skipped(blocks[k])
    ensures Snapshots(t, blocks) == []
  {
    if blocks != [] {
      SkippedTail(t, blocks[1..]);
    }
  }

  lemma SnapshotsStep(t: seq<Entry>, b: Block, rest: seq<Block>, next: seq<Entry>)
    requires !Skipped(b) && Absorb(t, b) == next
    ensures Snapshots(t, [b] + rest) == [next] + Snapshots(next, rest)
  {
    assert ([b] + rest)[0] == b && ([b] + rest)[1..] == rest;
  }

  /** A block that is not skipped, then only skipped blocks: one table printed. */
  lemma WalkOne(t: seq<Entry>, b: Block, files: seq<Block>, next: seq<Entry>)
    requires !Skipped(b) && Absorb(t, b) == next
    requires forall k :: 0 <= k < |files| ==> Skipped(files[k])
    ensures Snapshots(t, [b] + files) == [next]
  {
    SnapshotsStep(t, b, files, next);
    SkippedTail(next, files);
    assert [next] + [] == [next];
  }

  lemma AfterInner(a: Symbol, b: Symbol, block: Block)
    requires Qualifies(a) && Qualifies(b) && a.name != b.name && a.size >= b.size
    requires block.symbols == [a, b]
    ensures Absorb([], block) == [EntryOf(a), EntryOf(b)]
  {
    var t0 := [EntryOf(a), EntryOf(b)];
    assert Merge([], block.symbols) == t0 by {
      assert Names([]) == {};
      FreshTwo(a, b);
    }
    assert SortBySize(t0) == t0 by {
      SortOfSorted(t0);
    }
  }

  /** A block declaring `c`, of a size between the two recorded ones, puts it between them. */
  lemma AfterOuter(a: Symbol, b: Symbol, c: Symbol, block: Block)
    requires Qualifies(c) && c.name != a.name && c.name != b.name
    requires a.size >= c.size > b.size
    requires block.symbols == [c]
    ensures Absorb([EntryOf(a), EntryOf(b)], block) == [EntryOf(a), EntryOf(c), EntryOf(b)]
  {
    var t0 := [EntryOf(a), EntryOf(b)];
    assert Merge(t0, block.symbols) == t0 + [EntryOf(c)] by {
      NameNotIn(t0, c.name);
      FreshOne(Names(t0), c);
    }
    assert SortBySize(t0 + [EntryOf(c)]) == Insert(t0, EntryOf(c)) by {
      SortSnoc(t0, EntryOf(c));
      SortOfSorted(t0);
    }
    InsertBetween(EntryOf(a), EntryOf(b), EntryOf(c));
  }

  /** Two blocks that are not skipped, then only skipped ones: two tables are printed. */
  lemma WalkTwo(inner: Block, outer: Block, files: seq<Block>, t0: seq<Entry>, t1: seq<Entry>)
    requires !Skipped(inner) && !Skipped(outer)
    requires Absorb([], inner) == t0 && Absorb(t0, outer) == t1
    requires forall k :: 0 <= k < |files| ==> Skipped(files[k])
    ensures Snapshots([], [inner, outer] + files) == [t0, t1]
  {
    assert [inner, outer] + files == [inner] + ([outer] + files);
    SnapshotsStep([], inner, [outer] + files, t0);
    WalkOne(t0, outer, files, t1);
    assert [t0] + [t1] == [t0, t1];
  }

  lemma FrameZeroTables(buf: Symbol, i: Symbol, ctx: Symbol, inner: Block, outer: Block, files: seq<Block>)
    requires Qualifies(buf) && Qualifies(i) && Qualifies(ctx)
    requires buf.name != i.name && ctx.name != buf.name && ctx.name != i.name
    requires buf.size == 4096 && i.size == 4 && ctx.size == 64
    requires !Skipped(inner) && inner.symbols == [buf, i]
    requires !Skipped(outer) && outer.symbols == [ctx]
    requires forall k :: 0 <= k < |files| ==> Skipped(files[k])
    ensures Snapshots([], [inner, outer] + files) ==
            [[EntryOf(buf), EntryOf(i)], [EntryOf(buf), EntryOf(ctx), EntryOf(i)]]
  {
    AfterInner(buf, i, inner);
    AfterOuter(buf, i, ctx, outer);
    WalkTwo(inner, outer, files, [EntryOf(buf), EntryOf(i)], [EntryOf(buf), EntryOf(ctx), EntryOf(i)]);
  }

  /** A table of two prints as two rows, one of three as three rows. */
  lemma RowsOfSmallTables(a: Entry, b: Entry, c: Entry)
    ensures Rows([a]) == [Row(a)]
    ensures Rows([a, b]) == [Row(a), Row(b)]
    ensures Rows([a, b, c]) == [Row(a), Row(b), Row(c)]
  {
  }

  lemma EmitTwo(t0: seq<Entry>, t1: seq<Entry>)
    ensures Emit([t1]) == Rows(t1)
    ensures Emit([t0, t1]) == Rows(t0) + Rows(t1)
  {
    assert [t1][1..] == [] && [t0, t1][1..] == [t1];
  }

  /** A single printed table of one entry is one row. */
  lemma OneTable(a: Entry)
    ensures Emit([[a]]) == [Row(a)]
  {
    assert [[a]][1..] == [];
    assert Rows([a]) == [Row(a)];
  }

  lemma StackOfThree(a: Frame, b: Frame, c: Frame)
    ensures StackReport([a, b, c]) == FrameReport(0, a) + FrameReport(1, b) + FrameReport(2, c)
  {
    var fs := [a, b, c];
    assert fs[0] == a && fs[1] == b && fs[2] == c;
    assert StackReport(fs[..0]) == [];
    ReportStep(fs, 0);
    assert StackReport(fs[..1]) == FrameReport(0, a);
    ReportStep(fs, 1);
    assert StackReport(fs[..2]) == FrameReport(0, a) + FrameReport(1, b);
    ReportStep(fs, 2);
    assert fs[..3] == fs;
  }

  /** Frame 0's report: its header, both tables, a blank line. */
  lemma FrameZero(f: Frame, buf: Symbol, i: Symbol, ctx: Symbol, inner: Block, outer: Block, files: seq<Block>)
    requires Qualifies(buf) && Qualifies(i) && Qualifies(ctx)
    requires buf.name != i.name && ctx.name != buf.name && ctx.name != i.name
    requires buf.size == 4096 && i.size == 4 && ctx.size == 64
    requires !Skipped(inner) && inner.symbols == [buf, i]
    requires !Skipped(outer) && outer.symbols == [ctx]
    requires forall k :: 0 <= k < |files| ==> Skipped(files[k])
    requires f.location.Some? && f.blocks == Some([inner, outer] + files)
    ensures FrameReport(0, f) ==
            [Header(0, f.functionName, f.location.value.filename, f.location.value.line)] +
            ([Row(EntryOf(buf)), Row(EntryOf(i))] + [Row(EntryOf(buf)), Row(EntryOf(ctx)), Row(EntryOf(i))]) +
            [Blank]
  {
    var t0 := [EntryOf(buf), EntryOf(i)];
    var t1 := [EntryOf(buf), EntryOf(ctx), EntryOf(i)];
    var header := Header(0, f.functionName, f.location.value.filename, f.location.value.line);
    calc {
      FrameReport(0, f);
      [header] + Emit(Snapshots([], [inner, outer] + files)) + [Blank];
      { FrameZeroTables(buf, i, ctx, inner, outer, files); }
      [header] + Emit([t0, t1]) + [Blank];
      { EmitTwo(t0, t1); }
      [header] + (Rows(t0) + Rows(t1)) + [Blank];
      { RowsOfSmallTables(EntryOf(buf), EntryOf(i), EntryOf(ctx));
        RowsOfSmallTables(EntryOf(buf), EntryOf(ctx), EntryOf(i)); }
      [header] + ([Row(EntryOf(buf)), Row(EntryOf(i))] + [Row(EntryOf(buf)), Row(EntryOf(ctx)), Row(EntryOf(i))]) + [Blank];
    }
  }

  /** Frame 2's report: its header, the one row for `x`, a blank line. */
  lemma FrameTwo(f: Frame, x: Symbol, only: Block)
    requires Qualifies(x) && !Skipped(only) && only.symbols == [x]
    requires f.location.Some? && f.blocks == Some([only])
    ensures FrameReport(2, f) ==
            [Header(2, f.functionName, f.location.value.filename, f.location.value.line)] + [Row(EntryOf(x))] + [Blank]
  {
    var t := [EntryOf(x)];
    assert Absorb([], only) == t by {
      assert Names([]) == {};
      FreshOne({}, x);
      assert Merge([], only.symbols) == t;
      SortOfSorted(t);
    }
    assert Snapshots([], [only]) == [t] by {
      assert [only][0] == only && [only][1..] == [];
    }
    OneTable(EntryOf(x));
  }

  /** Frames 0, 1 and 2, each the next-older of the one before, make the backtrace from frame 0. */
  lemma ThreeFrames(frames: map<FrameId, Frame>)
    requires 0 in frames && 1 in frames && 2 in frames
    requires frames[0].older == Some(1) && frames[1].older == Some(2) && frames[2].older.None?
    ensures IsChain(frames, 0, [0, 1, 2])
    ensures FramesAlong(frames, [0, 1, 2]) == [frames[0], frames[1], frames[2]]
  {
  }

  /**
   * The whole command on this stack: the banner; frame 0's header, its two
   * tables and a blank line; the notice for frame 1; frame 2's header, the
   * row for `x` and a blank line.
   */
  lemma WholeStack(frames: map<FrameId, Frame>, buf: Symbol, i: Symbol, ctx: Symbol, x: Symbol,
                   inner: Block, outer: Block, files: seq<Block>, only: Block)
    requires Qualifies(buf) && Qualifies(i) && Qualifies(ctx) && Qualifies(x)
    requires buf.name != i.name && ctx.name != buf.name && ctx.name != i.name
    requires buf.size == 4096 && i.size == 4 && ctx.size == 64
    requires !Skipped(inner) && inner.symbols == [buf, i]
    requires !Skipped(outer) && outer.symbols == [ctx]
    requires forall k :: 0 <= k < |files| ==> Skipped(files[k])
    requires !Skipped(only) && only.symbols == [x]
    requires 0 in frames && 1 in frames && 2 in frames
    requires frames[0].older == Some(1) && frames[1].older == Some(2) && frames[2].older.None?
    requires frames[0].location.Some? && frames[0].blocks == Some([inner, outer] + files)
    requires frames[1].location.None?
    requires frames[2].location.Some? && frames[2].blocks == Some([only])
    ensures IsChain(frames, 0, [0, 1, 2])
    ensures [Banner] + StackReport(FramesAlong(frames, [0, 1, 2])) ==
            [Banner] +
            (([Header(0, frames[0].functionName, frames[0].location.value.filename, frames[0].location.value.line)] +
              ([Row(EntryOf(buf)), Row(EntryOf(i))] + [Row(EntryOf(buf)), Row(EntryOf(ctx)), Row(EntryOf(i))]) +
              [Blank]) +
             [NoSymtab(1)] +
             ([Header(2, frames[2].functionName, frames[2].location.value.filename, frames[2].location.value.line)] +
              [Row(EntryOf(x))] +
              [Blank]))
  {
    var f0, f1, f2 := frames[0], frames[1], frames[2];
    ThreeFrames(frames);
    calc {
      StackReport(FramesAlong(frames, [0, 1, 2]));
      StackReport([f0, f1, f2]);
      { StackOfThree(f0, f1, f2); }
      FrameReport(0, f0) + FrameReport(1, f1) + FrameReport(2, f2);
      { FrameZero(f0, buf, i, ctx, inner, outer, files);
        FrameTwo(f2, x, only);
        assert FrameReport(1, f1) == [NoSymtab(1)]; }
      ([Header(0, f0.functionName, f0.location.value.filename, f0.location.value.line)] +
       ([Row(EntryOf(buf)), Row(EntryOf(i))] + [Row(EntryOf(buf)), Row(EntryOf(ctx)), Row(EntryOf(i))]) +
       [Blank]) +
      [NoSymtab(1)] +
      ([Header(2, f2.functionName, f2.location.value.filename, f2.location.value.line)] +
       [Row(EntryOf(x))] +
       [Blank]);
    }
  }
}
