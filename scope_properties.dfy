/**
 * What scope collection guarantees: inner declarations shadow outer ones,
 * no name is recorded twice, only arguments and variables of blocks that
 * are not global or static are recorded, each re-sort keeps the entries and
 * their order among equal sizes, and re-sorting after every block ends in
 * the table that one sort of everything collected would give.
 */
module ScopeProperties {
  import opened Inspector
  import opened SizeSort
  import opened Scope

  /** Every argument or variable whose name was not yet in the table has its name recorded. */
  lemma {:induction false} FreshCovers(names: set<string>, syms: seq<Symbol>)
    ensures forall k :: 0 <= k < |syms| && Qualifies(syms[k]) && syms[k].name !in names ==>
              syms[k].name in Names(Fresh(names, syms))
  {
    if syms != [] {
      var n := |syms| - 1;
      var p, s := syms[..n], syms[n];
      assert syms == p + [s];
      FreshCovers(names, p);
      FreshSnoc(names, p, s);
      var prev, r := Fresh(names, p), Fresh(names, syms);
      NamesAppend(prev, [EntryOf(s)]);
      assert Names([EntryOf(s)]) == {s.name};
      assert Names(prev) <= Names(r);
      assert Qualifies(s) && s.name !in names ==> s.name in Names(r);
      forall k | 0 <= k < n && Qualifies(syms[k]) && syms[k].name !in names
        ensures syms[k].name in Names(r)
      {
        assert p[k] == syms[k];
      }
    }
  }

  /**
   * Every entry recording adds is the first argument or variable of its name
   * among the symbols, and that name was not yet in the table.
   */
  lemma {:induction false} FreshOrigin(names: set<string>, syms: seq<Symbol>)
    ensures forall e :: e in Fresh(names, syms) ==>
              exists k :: FirstQualifying(syms, k) && syms[k].name !in names && e == EntryOf(syms[k])
  {
    if syms != [] {
      var n := |syms| - 1;
      var p, s := syms[..n], syms[n];
      assert syms == p + [s];
      FreshOrigin(names, p);
      FreshSnoc(names, p, s);
      var prev, r := Fresh(names, p), Fresh(names, syms);
      forall e | e in prev
        ensures exists k :: FirstQualifying(syms, k) && syms[k].name !in names && e == EntryOf(syms[k])
      {
        var k :| FirstQualifying(p, k) && p[k].name !in names && e == EntryOf(p[k]);
        assert forall j :: 0 <= j <= k ==> p[j] == syms[j];
        assert FirstQualifying(syms, k);
      }
      if Qualifies(s) && s.name !in names && s.name !in Names(prev) {
        FreshCovers(names, p);
        forall j | 0 <= j < n && Qualifies(syms[j]) ensures syms[j].name != s.name {
          assert p[j] == syms[j];
        }
        assert FirstQualifying(syms, n);
      }
    }
  }

  /** `a` is recorded from an earlier first argument or variable of its name than `b` is. */
  ghost predicate FirstBefore(syms: seq<Symbol>, a: Entry, b: Entry) {
    exists ka, kb :: ka < kb && FirstQualifying(syms, ka) && FirstQualifying(syms, kb) &&
                     a == EntryOf(syms[ka]) && b == EntryOf(syms[kb])
  }

  lemma FirstLift(p: seq<Symbol>, s: Symbol, k: int)
    requires FirstQualifying(p, k)
    ensures FirstQualifying(p + [s], k)
  {
    assert forall x :: 0 <= x <= k ==> (p + [s])[x] == p[x];
  }

  lemma FirstBeforeLift(p: seq<Symbol>, s: Symbol, a: Entry, b: Entry)
    requires FirstBefore(p, a, b)
    ensures FirstBefore(p + [s], a, b)
  {
    var ka, kb :| ka < kb && FirstQualifying(p, ka) && FirstQualifying(p, kb) &&
                  a == EntryOf(p[ka]) && b == EntryOf(p[kb]);
    FirstLift(p, s, ka);
    FirstLift(p, s, kb);
    assert (p + [s])[ka] == p[ka] && (p + [s])[kb] == p[kb];
  }

  /** A symbol added after `p` is recorded after everything recorded from `p`. */
  lemma FirstBeforeLast(names: set<string>, p: seq<Symbol>, s: Symbol, a: Entry)
    requires a in Fresh(names, p)
    requires Qualifies(s) && s.name !in names && s.name !in Names(Fresh(names, p))
    ensures FirstBefore(p + [s], a, EntryOf(s))
  {
    var syms, n := p + [s], |p|;
    FreshOrigin(names, p);
    var ka :| FirstQualifying(p, ka) && p[ka].name !in names && a == EntryOf(p[ka]);
    FirstLift(p, s, ka);
    assert syms[ka] == p[ka] && syms[n] == s;
    FreshCovers(names, p);
    forall x | 0 <= x < n && Qualifies(syms[x]) ensures syms[x].name != s.name {
      assert p[x] == syms[x];
    }
    assert FirstQualifying(syms, n);
  }

  /** Recording keeps the order of the symbols: each entry follows the ones recorded from earlier symbols. */
  lemma {:induction false} FreshInOrder(names: set<string>, syms: seq<Symbol>)
    ensures forall i, j :: 0 <= i < j < |Fresh(names, syms)| ==>
              FirstBefore(syms, Fresh(names, syms)[i], Fresh(names, syms)[j])
  {
    if syms != [] {
      var n := |syms| - 1;
      var p, s := syms[..n], syms[n];
      assert syms == p + [s];
      var prev, r := Fresh(names, p), Fresh(names, syms);
      FreshInOrder(names, p);
      FreshSnoc(names, p, s);
      forall i, j | 0 <= i < j < |r| ensures FirstBefore(syms, r[i], r[j]) {
        if j < |prev| {
          assert r[i] == prev[i] && r[j] == prev[j];
          FirstBeforeLift(p, s, prev[i], prev[j]);
        } else {
          assert r == prev + [EntryOf(s)] && r[i] == prev[i] && r[j] == EntryOf(s);
          FirstBeforeLast(names, p, s, prev[i]);
        }
      }
    }
  }

  lemma {:induction false} FreshAppend(names: set<string>, xs: seq<Symbol>, ys: seq<Symbol>)
    ensures Fresh(names, xs + ys) ==
            Fresh(names, xs) + Fresh(names + Names(Fresh(names, xs)), ys)
  {
    var a := Fresh(names, xs);
    var m := names + Names(a);
    if ys == [] {
      assert xs + ys == xs;
    } else {
      var k := |ys| - 1;
      var init, y := ys[..k], ys[k];
      assert ys == init + [y];
      assert xs + ys == (xs + init) + [y];
      FreshAppend(names, xs, init);
      var p2 := Fresh(m, init);
      NamesAppend(a, p2);
      FreshSnoc(m, init, y);
      FreshSnoc(names, xs + init, y);
      if Qualifies(y) && y.name !in m && y.name !in Names(p2) {
        assert a + (p2 + [EntryOf(y)]) == (a + p2) + [EntryOf(y)];
      }
    }
  }

  lemma MergeAppend(t: seq<Entry>, xs: seq<Symbol>, ys: seq<Symbol>)
    ensures Merge(Merge(t, xs), ys) == Merge(t, xs + ys)
  {
    var a := Fresh(Names(t), xs);
    NamesAppend(t, a);
    FreshAppend(Names(t), xs, ys);
  }

  /** Absorbing a block into a sorted table is one sort of the unsorted table with the block recorded. */
  lemma AbsorbSorted(d: seq<Entry>, b: Block)
    ensures Absorb(SortBySize(d), b) == SortBySize(Merge(d, b.symbols))
  {
    NamesOfPermutation(SortBySize(d), d);
    SortAfterSort(d, Fresh(Names(d), b.symbols));
  }

  /**
   * Re-sorting after every block ends where recording every local symbol of
   * the chain, innermost block first, and sorting once would end.
   */
  lemma {:induction false} CollectSortsOnce(d: seq<Entry>, blocks: seq<Block>)
    ensures Collect(SortBySize(d), blocks) == SortBySize(Merge(d, Locals(blocks)))
    decreases |blocks|
  {
    if blocks == [] {
      assert Merge(d, []) == d;
      assert Locals(blocks) == [];
      assert Collect(SortBySize(d), blocks) == SortBySize(d);
    } else {
      var b, rest := blocks[0], blocks[1..];
      if Skipped(b) {
        assert Locals(blocks) == Locals(rest) by {
          assert Locals(blocks) == [] + Locals(rest);
        }
        assert Collect(SortBySize(d), blocks) == Collect(SortBySize(d), rest);
        assert Collect(SortBySize(d), rest) == SortBySize(Merge(d, Locals(rest))) by {
          CollectSortsOnce(d, rest);
        }
      } else {
        var m := Merge(d, b.symbols);
        assert Collect(SortBySize(d), blocks) == Collect(SortBySize(m), rest) by {
          AbsorbSorted(d, b);
        }
        assert Collect(SortBySize(m), rest) == SortBySize(Merge(m, Locals(rest))) by {
          CollectSortsOnce(m, rest);
        }
        assert Merge(m, Locals(rest)) == Merge(d, Locals(blocks)) by {
          MergeAppend(d, b.symbols, Locals(rest));
          assert Locals(blocks) == b.symbols + Locals(rest);
        }
      }
    }
  }

  /** Which symbols a chain contributes: those of its blocks that are not skipped. */
  lemma {:induction false} LocalsFrom(blocks: seq<Block>)
    ensures forall s :: s in Locals(blocks) <==>
              exists b :: b in blocks && !Skipped(b) && s in b.symbols
  {
    if blocks != [] {
      LocalsFrom(blocks[1..]);
      assert blocks == [blocks[0]] + blocks[1..];
    }
  }

  /** Recording into an empty table keeps exactly the first argument or variable of each name. */
  lemma FreshFirstQualifying(syms: seq<Symbol>)
    ensures forall e :: e in Fresh({}, syms) <==>
              exists k :: FirstQualifying(syms, k) && e == EntryOf(syms[k])
  {
    var f := Fresh({}, syms);
    FreshOrigin({}, syms);
    FreshCovers({}, syms);
    forall k | FirstQualifying(syms, k) ensures EntryOf(syms[k]) in f {
      assert syms[k].name in Names(f);
      var e :| e in f && e.name == syms[k].name;
      var k' :| FirstQualifying(syms, k') && e == EntryOf(syms[k']);
      assert !(k' < k) && !(k < k');
    }
  }

  lemma MergeIntoEmpty(syms: seq<Symbol>)
    ensures Merge([], syms) == Fresh({}, syms)
  {
    var e: seq<Entry> := [];
    assert Names(e) == {};
    assert e + Fresh({}, syms) == Fresh({}, syms);
  }

  lemma CollectFromEmpty(blocks: seq<Block>)
    ensures Collect([], blocks) == SortBySize(Merge([], Locals(blocks)))
  {
    var e: seq<Entry> := [];
    assert SortBySize(e) == e;
    CollectSortsOnce(e, blocks);
  }

  /** The table a frame's walk ends with is one sort of the chain's local symbols, recorded in order. */
  lemma FinalTable(blocks: seq<Block>)
    ensures Collect([], blocks) == SortBySize(Fresh({}, Locals(blocks)))
  {
    CollectFromEmpty(blocks);
    MergeIntoEmpty(Locals(blocks));
  }

  /** Sorting what recording produced keeps its entries, its names and their uniqueness. */
  lemma SortedRecord(table: seq<Entry>, syms: seq<Symbol>)
    requires table == SortBySize(Fresh({}, syms))
    ensures SortedBySize(table) && Distinct(table)
    ensures forall e :: e in table <==> e in Fresh({}, syms)
    ensures Names(table) == Names(Fresh({}, syms))
  {
    var f := Fresh({}, syms);
    SortKeepsDistinct(f);
    NamesOfPermutation(table, f);
    forall e ensures e in table <==> e in f {
      assert e in table <==> e in multiset(f);
    }
  }

  /**
   * The table a frame's walk ends with: sorted by size, one entry per name,
   * and for each name the size and type of its first argument or variable
   * from the innermost block outward, among blocks that are not global or
   * static; nothing else is in it.
   */
  lemma ScopeTable(blocks: seq<Block>)
    ensures SortedBySize(Collect([], blocks))
    ensures Distinct(Collect([], blocks))
    ensures forall e :: e in Collect([], blocks) <==>
              exists k :: FirstQualifying(Locals(blocks), k) && e == EntryOf(Locals(blocks)[k])
  {
    FinalTable(blocks);
    SortedRecord(Collect([], blocks), Locals(blocks));
    FreshFirstQualifying(Locals(blocks));
  }

  /**
   * Ties in the final table are broken by first appearance: of two entries
   * of one size, the one whose first argument or variable comes earlier in
   * the chain, innermost block first, is listed first.
   */
  lemma ScopeTableOrder(blocks: seq<Block>)
    ensures forall i, j ::
              0 <= i < j < |Collect([], blocks)| && Collect([], blocks)[i].size == Collect([], blocks)[j].size ==>
              FirstBefore(Locals(blocks), Collect([], blocks)[i], Collect([], blocks)[j])
  {
    var f := Fresh({}, Locals(blocks));
    var table := Collect([], blocks);
    FinalTable(blocks);
    FreshInOrder({}, Locals(blocks));
    forall i, j | 0 <= i < j < |table| && table[i].size == table[j].size
      ensures FirstBefore(Locals(blocks), table[i], table[j])
    {
      SortKeepsTies(f, i, j);
      var p, q :| 0 <= p < q < |f| && f[p] == table[i] && f[q] == table[j];
    }
  }

  /**
   * Every entry of the final table comes from an argument or variable of a
   * block that is not global or static, and every such symbol has its name
   * in the table.
   */
  lemma ScopeTableOrigin(blocks: seq<Block>)
    ensures forall e :: e in Collect([], blocks) ==>
              exists b, s :: b in blocks && !Skipped(b) && s in b.symbols && Qualifies(s) && e == EntryOf(s)
    ensures forall b, s :: b in blocks && !Skipped(b) && s in b.symbols && Qualifies(s) ==>
              s.name in Names(Collect([], blocks))
  {
    var table, locals := Collect([], blocks), Locals(blocks);
    FinalTable(blocks);
    SortedRecord(table, locals);
    FreshOrigin({}, locals);
    FreshCovers({}, locals);
    LocalsFrom(blocks);
    forall b, s | b in blocks && !Skipped(b) && s in b.symbols && Qualifies(s)
      ensures s.name in Names(table)
    {
      assert s in locals;
      var k :| 0 <= k < |locals| && locals[k] == s;
    }
    forall e | e in table
      ensures exists b, s :: b in blocks && !Skipped(b) && s in b.symbols && Qualifies(s) && e == EntryOf(s)
    {
      var k :| FirstQualifying(locals, k) && e == EntryOf(locals[k]);
      assert locals[k] in locals;
    }
  }

  /**
   * One block that is not skipped: the table afterwards holds exactly the
   * entries it held before plus the ones the block adds, whose names are new
   * and which come from the block's first argument or variable of each such
   * name; it is sorted by size, and among entries of one size the old ones
   * come first, in their old order, then the new ones in the order the block yields their symbols.
   */
  lemma AbsorbShape(t: seq<Entry>, b: Block)
    ensures multiset(Absorb(t, b)) == multiset(t + Fresh(Names(t), b.symbols))
    ensures SortedBySize(Absorb(t, b))
    ensures forall k :: OfSize(Absorb(t, b), k) == OfSize(t, k) + OfSize(Fresh(Names(t), b.symbols), k)
    ensures Names(Fresh(Names(t), b.symbols)) !! Names(t)
    ensures forall e :: e in Fresh(Names(t), b.symbols) ==>
              exists k :: FirstQualifying(b.symbols, k) && e == EntryOf(b.symbols[k])
    ensures forall i, j :: 0 <= i < j < |Fresh(Names(t), b.symbols)| ==>
              FirstBefore(b.symbols, Fresh(Names(t), b.symbols)[i], Fresh(Names(t), b.symbols)[j])
    ensures Distinct(t) ==> Distinct(Absorb(t, b))
  {
    var added := Fresh(Names(t), b.symbols);
    FreshInOrder(Names(t), b.symbols);
    forall k ensures OfSize(Absorb(t, b), k) == OfSize(t, k) + OfSize(added, k) {
      SortIsStable(t + added, k);
      OfSizeAppend(t, added, k);
    }
    FreshOrigin(Names(t), b.symbols);
    if Distinct(t) {
      forall i, j | 0 <= i < j < |t + added| ensures (t + added)[i].name != (t + added)[j].name {
        if i < |t| && j >= |t| {
          NameIn(t, i);
          NameIn(added, j - |t|);
        }
      }
      SortKeepsDistinct(t + added);
    }
  }

  /** The walk prints one table per block that is not skipped. */
  lemma {:induction false} SnapshotCount(t: seq<Entry>, blocks: seq<Block>)
    ensures |Snapshots(t, blocks)| == |Unskipped(blocks)|
    decreases |blocks|
  {
    if blocks != [] {
      var b, rest := blocks[0], blocks[1..];
      if Skipped(b) {
        SnapshotCount(t, rest);
        assert Unskipped(blocks) == [] + Unskipped(rest);
      } else {
        var next := Absorb(t, b);
        SnapshotCount(next, rest);
        assert Snapshots(t, blocks) == [next] + Snapshots(next, rest);
        assert Unskipped(blocks) == [b] + Unskipped(rest);
      }
    }
  }

  /** Every table the walk prints is sorted by size and holds each name at most once. */
  lemma {:induction false} SnapshotsWellFormed(t: seq<Entry>, blocks: seq<Block>)
    requires Distinct(t)
    ensures forall i :: 0 <= i < |Snapshots(t, blocks)| ==>
              SortedBySize(Snapshots(t, blocks)[i]) && Distinct(Snapshots(t, blocks)[i])
    decreases |blocks|
  {
    if blocks != [] {
      var b, rest := blocks[0], blocks[1..];
      if Skipped(b) {
        SnapshotsWellFormed(t, rest);
      } else {
        var next := Absorb(t, b);
        assert SortedBySize(next) && Distinct(next) by { AbsorbShape(t, b); }
        SnapshotsWellFormed(next, rest);
        ghost var later, snaps := Snapshots(next, rest), Snapshots(t, blocks);
        assert snaps == [next] + later;
        forall i | 0 <= i < |snaps| ensures SortedBySize(snaps[i]) && Distinct(snaps[i]) {
          if i > 0 {
            assert snaps[i] == later[i - 1];
          }
        }
      }
    }
  }

  /**
   * Every entry of `t` is in every table of `snaps`, and every entry of a
   * table is in all later ones.
   */
  predicate Keeps(t: seq<Entry>, snaps: seq<seq<Entry>>) {
    (forall i, e :: 0 <= i < |snaps| && e in t ==> e in snaps[i]) &&
    (forall i, j, e :: 0 <= i < j < |snaps| && e in snaps[i] ==> e in snaps[j])
  }

  lemma KeepsCons(t: seq<Entry>, next: seq<Entry>, later: seq<seq<Entry>>)
    requires forall e :: e in t ==> e in next
    requires Keeps(next, later)
    ensures Keeps(t, [next] + later)
  {
    var snaps := [next] + later;
    forall i, e | 0 <= i < |snaps| && e in t ensures e in snaps[i] {
      if i > 0 {
        assert snaps[i] == later[i - 1];
      }
    }
    forall i, j, e | 0 <= i < j < |snaps| && e in snaps[i] ensures e in snaps[j] {
      assert snaps[j] == later[j - 1];
      if i > 0 {
        assert snaps[i] == later[i - 1];
      }
    }
  }

  /** Nothing recorded is ever dropped from the tables the walk prints. */
  lemma {:induction false} SnapshotsGrow(t: seq<Entry>, blocks: seq<Block>)
    ensures Keeps(t, Snapshots(t, blocks))
    decreases |blocks|
  {
    if blocks != [] {
      var b, rest := blocks[0], blocks[1..];
      if Skipped(b) {
        SnapshotsGrow(t, rest);
      } else {
        var next := Absorb(t, b);
        SnapshotsGrow(next, rest);
        forall e | e in t ensures e in next {
          assert e in multiset(t + Fresh(Names(t), b.symbols));
        }
        KeepsCons(t, next, Snapshots(next, rest));
      }
    }
  }

  /** The last of the tables `snaps`, or `t` when there is none. */
  function LastTable(t: seq<Entry>, snaps: seq<seq<Entry>>): seq<Entry> {
    if snaps == [] then t else snaps[|snaps| - 1]
  }

  lemma LastTableCons(t: seq<Entry>, next: seq<Entry>, later: seq<seq<Entry>>)
    ensures LastTable(t, [next] + later) == LastTable(next, later)
  {
    if later != [] {
      assert ([next] + later)[|later|] == later[|later| - 1];
    }
  }

  lemma {:induction false} CollectIsLastTable(t: seq<Entry>, blocks: seq<Block>)
    ensures Collect(t, blocks) == LastTable(t, Snapshots(t, blocks))
    decreases |blocks|
  {
    if blocks != [] {
      var b, rest := blocks[0], blocks[1..];
      if Skipped(b) {
        assert Collect(t, blocks) == LastTable(t, Snapshots(t, rest)) by {
          CollectIsLastTable(t, rest);
        }
      } else {
        var next := Absorb(t, b);
        assert Collect(t, blocks) == LastTable(next, Snapshots(next, rest)) by {
          CollectIsLastTable(next, rest);
        }
        LastTableCons(t, next, Snapshots(next, rest));
      }
    }
  }

  /** The last table printed is the table the walk ends with; with none printed, the walk ends where it began. */
  lemma SnapshotsEnd(t: seq<Entry>, blocks: seq<Block>)
    ensures Snapshots(t, blocks) == [] ==> Collect(t, blocks) == t
    ensures Snapshots(t, blocks) != [] ==>
              Snapshots(t, blocks)[|Snapshots(t, blocks)| - 1] == Collect(t, blocks)
  {
    CollectIsLastTable(t, blocks);
  }

  /** Global and static blocks neither add entries nor print: the walk is as if they were absent. */
  lemma {:induction false} SkippedBlocksTransparent(t: seq<Entry>, blocks: seq<Block>)
    ensures Snapshots(t, blocks) == Snapshots(t, Unskipped(blocks))
    ensures Collect(t, blocks) == Collect(t, Unskipped(blocks))
    decreases |blocks|
  {
    if blocks != [] {
      var b, rest := blocks[0], blocks[1..];
      if Skipped(b) {
        SkippedBlocksTransparent(t, rest);
        assert Unskipped(blocks) == Unskipped(rest) by {
          assert Unskipped(blocks) == [] + Unskipped(rest);
        }
      } else {
        var next := Absorb(t, b);
        SkippedBlocksTransparent(next, rest);
        var u := [b] + Unskipped(rest);
        assert Unskipped(blocks) == u;
        assert u != [] && u[0] == b && u[1..] == Unskipped(rest);
        assert Snapshots(t, u) == [next] + Snapshots(next, Unskipped(rest));
        assert Collect(t, u) == Collect(next, Unskipped(rest));
      }
    }
  }

  lemma {:induction false} RowsAreRows(t: seq<Entry>)
    ensures Tags(Rows(t)) == []
    ensures RowsOf(Rows(t)) == t
  {
    if t != [] {
      RowsAreRows(t[1..]);
      assert Rows(t) == [Row(t[0])] + Rows(t[1..]);
      assert Rows(t)[0] == Row(t[0]) && Rows(t)[1..] == Rows(t[1..]);
    }
  }

  /** The printed tables carry no frame number, and their rows are the tables' entries in order. */
  lemma {:induction false} EmitRows(snaps: seq<seq<Entry>>)
    ensures Tags(Emit(snaps)) == []
    ensures RowsOf(Emit(snaps)) == Concat(snaps)
  {
    if snaps != [] {
      EmitRows(snaps[1..]);
      RowsAreRows(snaps[0]);
      TagsAppend(Rows(snaps[0]), Emit(snaps[1..]));
      RowsOfAppend(Rows(snaps[0]), Emit(snaps[1..]));
    }
  }

  /** One frame's report carries its number exactly once. */
  lemma FrameTags(nr: nat, f: Frame)
    ensures Tags(FrameReport(nr, f)) == [nr]
  {
    if f.location.None? {
      assert [NoSymtab(nr)][1..] == [];
    } else {
      var loc := f.location.value;
      var header := Header(nr, f.functionName, loc.filename, loc.line);
      assert Tags([header]) == [nr] by {
        assert [header][1..] == [];
      }
      if f.blocks.None? {
        assert Tags([NoBlock]) == [] by {
          assert [NoBlock][1..] == [];
        }
        TagsAppend([header], [NoBlock]);
        assert [header] + [NoBlock] == [header, NoBlock];
      } else {
        var body := Emit(Snapshots([], f.blocks.value));
        EmitRows(Snapshots([], f.blocks.value));
        assert Tags([Blank]) == [] by {
          assert [Blank][1..] == [];
        }
        TagsAppend([header], body);
        TagsAppend([header] + body, [Blank]);
      }
    }
  }

  /**
   * Without a symbol table a frame's report is one notice, whatever the
   * frame's blocks; when the block cannot be had it is the header and one
   * notice; otherwise its rows are the printed tables one after the other
   * and a blank line ends it.
   */
  lemma FrameReportShape(nr: nat, f: Frame, other: Option<seq<Block>>)
    ensures f.location.None? ==>
              FrameReport(nr, f) == [NoSymtab(nr)] && FrameReport(nr, f.(blocks := other)) == FrameReport(nr, f)
    ensures f.location.Some? && f.blocks.None? ==>
              FrameReport(nr, f) == [Header(nr, f.functionName, f.location.value.filename, f.location.value.line), NoBlock]
    ensures f.location.Some? && f.blocks.Some? ==>
              RowsOf(FrameReport(nr, f)) == Concat(Snapshots([], f.blocks.value)) &&
              FrameReport(nr, f)[|FrameReport(nr, f)| - 1] == Blank
  {
    if f.location.Some? && f.blocks.Some? {
      var loc := f.location.value;
      var header := Header(nr, f.functionName, loc.filename, loc.line);
      var body := Emit(Snapshots([], f.blocks.value));
      EmitRows(Snapshots([], f.blocks.value));
      RowsOfAppend([header], body);
      RowsOfAppend([header] + body, [Blank]);
      assert RowsOf([header]) == [] by {
        assert [header][1..] == [];
      }
      assert RowsOf([Blank]) == [] by {
        assert [Blank][1..] == [];
      }
    }
  }
}
