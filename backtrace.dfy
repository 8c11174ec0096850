/**
 * The command itself: a banner, then the backtrace collected from the
 * selected frame by following each frame's next-older frame until there is
 * none, then each frame analysed in turn, numbered from 0 at the selected
 * frame.
 */
module Backtrace {
  import opened Inspector
  import opened Scope
  import opened ScopeProperties

  /**
   * `chain` is the sequence of frames met from `selected` by following
   * next-older frames, ending at the frame that has none.
   */
  ghost predicate IsChain(frames: map<FrameId, Frame>, selected: FrameId, chain: seq<FrameId>) {
    |chain| > 0 && chain[0] == selected &&
    (forall i :: 0 <= i < |chain| ==> chain[i] in frames) &&
    (forall i :: 0 <= i < |chain| - 1 ==> frames[chain[i]].older == Some(chain[i + 1])) &&
    frames[chain[|chain| - 1]].older.None?
  }

  /** Two chains from the same frame agree on every position both have. */
  lemma {:induction false} ChainsAgree(frames: map<FrameId, Frame>, selected: FrameId,
                                        c1: seq<FrameId>, c2: seq<FrameId>, n: nat)
    requires IsChain(frames, selected, c1) && IsChain(frames, selected, c2)
    requires n <= |c1| && n <= |c2|
    ensures forall i :: 0 <= i < n ==> c1[i] == c2[i]
  {
    if n > 1 {
      ChainsAgree(frames, selected, c1, c2, n - 1);
      assert Some(c1[n - 1]) == frames[c1[n - 2]].older == Some(c2[n - 1]);
    }
  }

  /** Only the last frame of a chain has no next-older frame. */
  lemma ChainEnds(frames: map<FrameId, Frame>, selected: FrameId, chain: seq<FrameId>)
    requires IsChain(frames, selected, chain)
    ensures forall i :: 0 <= i < |chain| ==> (frames[chain[i]].older.None? <==> i == |chain| - 1)
  {
    forall i | 0 <= i < |chain| - 1 ensures frames[chain[i]].older.Some? {
      assert frames[chain[i]].older == Some(chain[i + 1]);
    }
  }

  /** A chain that is longer than another from the same frame cannot be a chain. */
  lemma ChainNotLonger(frames: map<FrameId, Frame>, selected: FrameId, c1: seq<FrameId>, c2: seq<FrameId>)
    requires IsChain(frames, selected, c1) && IsChain(frames, selected, c2)
    ensures |c1| >= |c2|
  {
    var n := if |c1| < |c2| then |c1| else |c2|;
    ChainsAgree(frames, selected, c1, c2, n);
    ChainEnds(frames, selected, c1);
    ChainEnds(frames, selected, c2);
    assert c1[n - 1] == c2[n - 1];
  }

  /** The selected frame and the frames' next-older links fix the backtrace. */
  lemma ChainDetermined(frames: map<FrameId, Frame>, selected: FrameId, c1: seq<FrameId>, c2: seq<FrameId>)
    requires IsChain(frames, selected, c1) && IsChain(frames, selected, c2)
    ensures c1 == c2
  {
    ChainNotLonger(frames, selected, c1, c2);
    ChainNotLonger(frames, selected, c2, c1);
    ChainsAgree(frames, selected, c1, c2, |c1|);
  }

  /** What follows any frame of a chain is the chain from that frame. */
  lemma TailIsChain(frames: map<FrameId, Frame>, selected: FrameId, chain: seq<FrameId>, i: nat)
    requires IsChain(frames, selected, chain) && i < |chain|
    ensures IsChain(frames, chain[i], chain[i..])
  {
    var tail := chain[i..];
    assert forall k :: 0 <= k < |tail| ==> tail[k] == chain[i + k];
  }

  /** No frame appears twice in a backtrace: a chain that ends cannot run in a circle. */
  lemma ChainHasNoRepeats(frames: map<FrameId, Frame>, selected: FrameId, chain: seq<FrameId>)
    requires IsChain(frames, selected, chain)
    ensures forall i, j :: 0 <= i < j < |chain| ==> chain[i] != chain[j]
  {
    forall i, j | 0 <= i < j < |chain| ensures chain[i] != chain[j] {
      TailIsChain(frames, selected, chain, i);
      TailIsChain(frames, selected, chain, j);
      if chain[i] == chain[j] {
        ChainNotLonger(frames, chain[i], chain[j..], chain[i..]);
        assert false;
      }
    }
  }

  /** The frames a chain of ids names, in order. */
  function FramesAlong(frames: map<FrameId, Frame>, ids: seq<FrameId>): seq<Frame>
    requires forall k :: 0 <= k < |ids| ==> ids[k] in frames
  {
    seq(|ids|, k requires 0 <= k < |ids| => frames[ids[k]])
  }

  /**
   * Collects the backtrace: the selected frame, then each next-older frame
   * until there is none.
   */
  method CollectBacktrace(frames: map<FrameId, Frame>, selected: FrameId, ghost chain: seq<FrameId>)
    returns (backtrace: seq<Frame>)
    requires IsChain(frames, selected, chain)
    ensures backtrace == FramesAlong(frames, chain)
  {
    backtrace := [];
    var frame: Option<FrameId> := Some(selected);
    ghost var n := 0;
    while frame.Some?
      invariant n <= |chain|
      invariant backtrace == FramesAlong(frames, chain[..n])
      invariant n < |chain| ==> frame == Some(chain[n])
      invariant n == |chain| ==> frame.None?
      decreases |chain| - n
    {
      assert FramesAlong(frames, chain[..n + 1]) == FramesAlong(frames, chain[..n]) + [frames[chain[n]]];
      backtrace := backtrace + [frames[frame.value]];
      frame := frames[frame.value].older;
      n := n + 1;
    }
    assert chain[..n] == chain;
  }

  /** What analysing the frames `fs` in turn prints, the first numbered 0. */
  function StackReport(fs: seq<Frame>): seq<Event> {
    if fs == [] then []
    else StackReport(fs[..|fs| - 1]) + FrameReport(|fs| - 1, fs[|fs| - 1])
  }

  lemma ReportStep(fs: seq<Frame>, k: nat)
    requires k < |fs|
    ensures StackReport(fs[..k + 1]) == StackReport(fs[..k]) + FrameReport(k, fs[k])
  {
    assert fs[..k + 1][..k] == fs[..k];
  }

  lemma CountUp(n: nat)
    ensures seq(n, k => k) + [n] == seq(n + 1, k => k)
  {
  }

  /** The frames are reported in backtrace order, numbered 0, 1, 2, ..., each number once. */
  lemma {:induction false} StackTags(fs: seq<Frame>)
    ensures Tags(StackReport(fs)) == seq(|fs|, k => k)
  {
    if fs != [] {
      var n := |fs| - 1;
      var init, last := StackReport(fs[..n]), FrameReport(n, fs[n]);
      StackTags(fs[..n]);
      assert Tags(init) == seq(n, k => k);
      assert StackReport(fs) == init + last;
      TagsAppend(init, last);
      FrameTags(n, fs[n]);
      assert Tags(last) == [n];
      CountUp(n);
    }
  }

  /**
   * What the command prints carries the numbers 0 to one less than the
   * length of the backtrace, in order, and the banner comes first.
   */
  lemma CommandTags(frames: map<FrameId, Frame>, selected: FrameId, chain: seq<FrameId>)
    requires IsChain(frames, selected, chain)
    ensures Tags([Banner] + StackReport(FramesAlong(frames, chain))) == seq(|chain|, k => k)
  {
    var fs := FramesAlong(frames, chain);
    StackTags(fs);
    TagsAppend([Banner], StackReport(fs));
    assert Tags([Banner]) == [] by {
      assert [Banner][1..] == [];
    }
  }

  /** Analyses each frame of the backtrace in turn, numbering them from 0. */
  method AnalyzeBacktrace(backtrace: seq<Frame>) returns (out: seq<Event>)
    ensures out == StackReport(backtrace)
  {
    out := [];
    var frameNr := 0;
    while frameNr < |backtrace|
      invariant 0 <= frameNr <= |backtrace|
      invariant out == StackReport(backtrace[..frameNr])
    {
      var report := AnalyzeFrame(frameNr, backtrace[frameNr]);
      assert out + report == StackReport(backtrace[..frameNr + 1]) by {
        ReportStep(backtrace, frameNr);
      }
      out := out + report;
      frameNr := frameNr + 1;
    }
    assert backtrace[..frameNr] == backtrace;
  }

  /**
   * The command: the banner, then the report of each frame of the backtrace
   * from the selected frame outward, numbered from 0.
   */
  method Invoke(frames: map<FrameId, Frame>, selected: FrameId, ghost chain: seq<FrameId>)
    returns (out: seq<Event>)
    requires IsChain(frames, selected, chain)
    ensures out == [Banner] + StackReport(FramesAlong(frames, chain))
  {
    var backtrace := CollectBacktrace(frames, selected, chain);
    var reports := AnalyzeBacktrace(backtrace);
    out := [Banner] + reports;
  }
}
