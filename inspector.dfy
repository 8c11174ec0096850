/**
 * The data the debugger hands to the stack inspector (frames, their lexical
 * blocks and the symbols declared in them) and the events the inspector
 * reports for them. Everything the debugger computes (symbol tables, type
 * sizes, the rendering of a type) arrives here as a plain field.
 */
module Inspector {

  datatype Option<T> = None | Some(value: T)

  /** A symbol declared in a block, with the size and name of its type. */
  datatype Symbol = Symbol(name: string, isArgument: bool, isVariable: bool, size: nat, typeName: string)

  /** A lexical block; its symbols in the order the debugger yields them. */
  datatype Block = Block(isGlobal: bool, isStatic: bool, symbols: seq<Symbol>)

  /** Where a frame stands, when its symbol table is known. */
  datatype Location = Location(filename: string, line: nat)

  type FrameId = nat

  /**
   * A frame of the suspended thread. `location` is None when the frame has no
   * symbol table; `blocks` is the chain from the innermost block outward, or
   * None when asking for the block fails; `older` is the next-older frame.
   */
  datatype Frame = Frame(location: Option<Location>, functionName: string,
                         blocks: Option<seq<Block>>, older: Option<FrameId>)

  /** One recorded variable: its name with the size and type it was recorded with. */
  datatype Entry = Entry(name: string, size: nat, typeName: string)

  /** What the inspector writes, line by line. */
  datatype Event =
    | Banner
    | Header(frameNr: nat, functionName: string, filename: string, line: nat)
    | NoSymtab(frameNr: nat)
    | NoBlock
    | Row(entry: Entry)
    | Blank

  /** Only arguments and variables are recorded. */
  predicate Qualifies(s: Symbol) {
    s.isArgument || s.isVariable
  }

  /** Global and static (file-level) blocks are passed over. */
  predicate Skipped(b: Block) {
    b.isGlobal || b.isStatic
  }

  function EntryOf(s: Symbol): Entry {
    Entry(s.name, s.size, s.typeName)
  }

  /** The names a table of entries holds. */
  function Names(t: seq<Entry>): set<string> {
    set e | e in t :: e.name
  }

  /** No two entries share a name. */
  predicate Distinct(t: seq<Entry>) {
    forall i, j :: 0 <= i < j < |t| ==> t[i].name != t[j].name
  }

  lemma NameIn(t: seq<Entry>, i: nat)
    requires i < |t|
    ensures t[i].name in Names(t)
  {
    assert t[i] in t;
  }

  lemma NameNotIn(t: seq<Entry>, n: string)
    requires forall i :: 0 <= i < |t| ==> t[i].name != n
    ensures n !in Names(t)
  {
  }

  lemma DistinctCons(a: Entry, t: seq<Entry>)
    requires Distinct(t) && a.name !in Names(t)
    ensures Distinct([a] + t)
  {
    forall j | 0 <= j < |t| ensures t[j].name != a.name {
      NameIn(t, j);
    }
  }

  lemma DistinctSnoc(t: seq<Entry>, a: Entry)
    requires Distinct(t) && a.name !in Names(t)
    ensures Distinct(t + [a])
  {
    forall i | 0 <= i < |t| ensures t[i].name != a.name {
      NameIn(t, i);
    }
  }

  lemma NamesAppend(a: seq<Entry>, b: seq<Entry>)
    ensures Names(a + b) == Names(a) + Names(b)
  {
    forall n | n in Names(a + b) ensures n in Names(a) + Names(b) {
      var e :| e in a + b && e.name == n;
      if e in a { assert n in Names(a); } else { assert n in Names(b); }
    }
    forall n | n in Names(a) + Names(b) ensures n in Names(a + b) {
      if n in Names(a) {
        var e :| e in a && e.name == n;
        assert e in a + b;
      } else {
        var e :| e in b && e.name == n;
        assert e in a + b;
      }
    }
  }

  lemma NamesOfPermutation(a: seq<Entry>, b: seq<Entry>)
    requires multiset(a) == multiset(b)
    ensures Names(a) == Names(b)
  {
    forall n | n in Names(a) ensures n in Names(b) {
      var e :| e in a && e.name == n;
      assert e in multiset(b);
    }
    forall n | n in Names(b) ensures n in Names(a) {
      var e :| e in b && e.name == n;
      assert e in multiset(a);
    }
  }

  /** The frame numbers that headers and symbol-table notices carry, in order. */
  function Tags(events: seq<Event>): seq<nat> {
    if events == [] then []
    else
      (match events[0]
       case Header(nr, _, _, _) => [nr]
       case NoSymtab(nr) => [nr]
       case _ => []) + Tags(events[1..])
  }

  /** The entries of the rows among `events`, in order. */
  function RowsOf(events: seq<Event>): seq<Entry> {
    if events == [] then []
    else (if events[0].Row? then [events[0].entry] else []) + RowsOf(events[1..])
  }

  lemma {:induction false} TagsAppend(a: seq<Event>, b: seq<Event>)
    ensures Tags(a + b) == Tags(a) + Tags(b)
  {
    if a == [] {
      assert a + b == b;
    } else {
      assert (a + b)[0] == a[0] && (a + b)[1..] == a[1..] + b;
      TagsAppend(a[1..], b);
    }
  }

  lemma {:induction false} RowsOfAppend(a: seq<Event>, b: seq<Event>)
    ensures RowsOf(a + b) == RowsOf(a) + RowsOf(b)
  {
    if a == [] {
      assert a + b == b;
    } else {
      assert (a + b)[0] == a[0] && (a + b)[1..] == a[1..] + b;
      RowsOfAppend(a[1..], b);
    }
  }
}
