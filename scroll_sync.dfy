/**
 * The scroll-driven "active job" of the Work section (src/App.tsx).
 *
 * The experience section is a tall scroll track with a sticky viewport.
 * A scroll progress in [0, 1] is turned into the index of the job shown,
 * and that index (also writable by clicking a progress dot or a block of
 * the 3D chain) drives the progress bar, the dots and the scroll hint.
 * All lengths are in viewport-height units (vh); arithmetic is exact.
 */
module ScrollSync {
  import BlockchainExperience

  /** Scroll distance given to each job before the next one takes over. */
  const ScrollPerItemVh: int := 100
  /** Scroll distance before the first transition. */
  const EntryBufferVh: int := 20
  /** Scroll distance after the last job is reached. */
  const ExitBufferVh: int := 30
  /** The sticky viewport itself. */
  const ViewportVh: int := 100
  /** Number of entries of the experience list of the resume document. */
  const NumExperiences: int := 5

  function Min(a: int, b: int): int { if a <= b then a else b }
  function Max(a: int, b: int): int { if a >= b then a else b }

  /** Height of the scroll track: viewport, entry buffer, n-1 transitions, exit buffer. */
  function TrackHeight(n: int): int
  {
    ViewportVh + EntryBufferVh + (n - 1) * ScrollPerItemVh + ExitBufferVh
  }

  /** The distance actually scrolled between progress 0 and progress 1. */
  function ScrollDistance(n: int): (d: int)
    ensures n >= 1 ==> d >= EntryBufferVh + ExitBufferVh
    ensures n >= 1 ==> d == EntryBufferVh + ExitBufferVh + (n - 1) * ScrollPerItemVh
  {
    TrackHeight(n) - ViewportVh
  }

  /** The job position before flooring: scrolled distance past the entry buffer, in items. */
  function RawIndex(progress: real, n: int): real
  {
    (progress * ScrollDistance(n) as real - EntryBufferVh as real) / ScrollPerItemVh as real
  }

  /**
   * The active job for a scroll progress: floor of the raw index, clamped
   * to [0, n-1]. Progress outside [0, 1] is accepted. For n <= 0 the clamp
   * still yields 0, which is then not an index of anything.
   */
  function ActiveIndex(progress: real, n: int): (r: int)
    ensures n >= 1 ==> 0 <= r < n
    ensures n <= 0 ==> r == 0
  {
    Max(0, Min(RawIndex(progress, n).Floor, n - 1))
  }

  lemma FloorMonotone(x: real, y: real)
    requires x <= y
    ensures x.Floor <= y.Floor
  {
  }

  /** Scrolling further never moves the active job backwards. */
  lemma ActiveIndexMonotone(p1: real, p2: real, n: int)
    requires p1 <= p2
    ensures ActiveIndex(p1, n) <= ActiveIndex(p2, n)
  {
    if n >= 1 {
      var d := ScrollDistance(n) as real;
      assert d > 0.0;
      assert p1 * d <= p2 * d by {
        assert (p2 - p1) * d >= 0.0;
      }
      assert RawIndex(p1, n) <= RawIndex(p2, n);
      FloorMonotone(RawIndex(p1, n), RawIndex(p2, n));
    }
  }

  /** At the top of the track the first job is active: -20/100 floors to -1 and clamps to 0. */
  lemma ActiveIndexAtStart(n: int)
    requires n >= 1
    ensures RawIndex(0.0, n).Floor == -1
    ensures ActiveIndex(0.0, n) == 0
  {
  }

  /** At the bottom of the track the last job is active: the raw index is n - 1 + 0.3. */
  lemma ActiveIndexAtEnd(n: int)
    requires n >= 1
    ensures RawIndex(1.0, n) == (n - 1) as real + 0.3
    ensures ActiveIndex(1.0, n) == n - 1
  {
    var raw := RawIndex(1.0, n);
    assert raw == ((ScrollDistance(n) - EntryBufferVh) as real) / 100.0;
    assert ScrollDistance(n) - EntryBufferVh == 100 * (n - 1) + 30;
    assert raw == (n - 1) as real + 0.3;
    assert raw.Floor == n - 1;
  }

  /** Overscroll (progress outside [0, 1]) is tolerated: it saturates at the ends. */
  lemma ActiveIndexOverscroll(p: real, n: int)
    requires n >= 1
    ensures p <= 0.0 ==> ActiveIndex(p, n) == 0
    ensures p >= 1.0 ==> ActiveIndex(p, n) == n - 1
  {
    if p <= 0.0 {
      ActiveIndexMonotone(p, 0.0, n);
      ActiveIndexAtStart(n);
    }
    if p >= 1.0 {
      ActiveIndexMonotone(1.0, p, n);
      ActiveIndexAtEnd(n);
    }
  }

  lemma FloorAtLeast(x: real, k: int)
    ensures x.Floor >= k <==> x >= k as real
  {
  }

  /**
   * Job k is active exactly while the scrolled distance lies in
   * [20 + 100k, 20 + 100(k+1)); the first interval extends downwards and the
   * last one upwards, without bound.
   */
  lemma ActiveIndexInterval(p: real, n: int, k: int)
    requires n >= 1 && 0 <= k < n
    ensures ActiveIndex(p, n) == k <==>
      && (k == 0 || (EntryBufferVh + k * ScrollPerItemVh) as real <= p * ScrollDistance(n) as real)
      && (k == n - 1 || p * ScrollDistance(n) as real < (EntryBufferVh + (k + 1) * ScrollPerItemVh) as real)
  {
    var scrolled := p * ScrollDistance(n) as real;
    var raw := RawIndex(p, n);
    assert raw == (scrolled - 20.0) / 100.0;
    FloorAtLeast(raw, k);
    FloorAtLeast(raw, k + 1);
    assert raw >= k as real <==> (20 + k * 100) as real <= scrolled;
    assert raw >= (k + 1) as real <==> (20 + (k + 1) * 100) as real <= scrolled;
  }

  /** The five-job page: a 550vh track, job 0 at the top and job 4 at the bottom. */
  lemma FiveJobScenario()
    ensures TrackHeight(NumExperiences) == 550
    ensures ActiveIndex(0.0, NumExperiences) == 0
    ensures RawIndex(1.0, NumExperiences) == 4.3
    ensures ActiveIndex(1.0, NumExperiences) == 4
  {
    ActiveIndexAtEnd(NumExperiences);
  }

  /** Height of the vertical progress bar, in percent. */
  function ProgressBarHeight(active: int, n: int): real
    requires n >= 1
  {
    ((active + 1) as real / n as real) * 100.0
  }

  /** For a valid index the bar is never empty and is full exactly on the last job. */
  lemma ProgressBarHeightRange(active: int, n: int)
    requires 0 <= active < n
    ensures 0.0 < ProgressBarHeight(active, n) <= 100.0
    ensures ProgressBarHeight(active, n) == 100.0 <==> active == n - 1
  {
    var q := (active + 1) as real / n as real;
    assert q * n as real == (active + 1) as real;
    assert 0.0 < q;
    assert q <= 1.0;
    assert q == 1.0 <==> active + 1 == n;
  }

  /** Each further job fills strictly more of the bar. */
  lemma ProgressBarHeightIncreasing(a1: int, a2: int, n: int)
    requires n >= 1 && a1 < a2
    ensures ProgressBarHeight(a1, n) < ProgressBarHeight(a2, n)
  {
    var q1 := (a1 + 1) as real / n as real;
    var q2 := (a2 + 1) as real / n as real;
    assert q1 * n as real < q2 * n as real;
    assert q1 < q2;
  }

  /** How the progress dot of a job is drawn. */
  datatype DotState = Current | Past | Upcoming

  function DotStateOf(i: int, active: int): DotState
  {
    if i == active then Current else if i < active then Past else Upcoming
  }

  /** Exactly one dot is current; the ones before it are past, the ones after upcoming. */
  lemma DotStatesPartition(n: int, active: int)
    requires 0 <= active < n
    ensures (set i | 0 <= i < n && DotStateOf(i, active) == Current) == {active}
    ensures forall i :: 0 <= i < n && DotStateOf(i, active) == Past ==> i < active
    ensures forall i :: 0 <= i < n && DotStateOf(i, active) == Upcoming ==> active < i
  {
  }

  const ScrollMore: string := "\U{2193} SCROLL"
  const ScrollDone: string := "\U{2713} DONE"

  function ScrollHint(active: int, n: int): string
  {
    if active < n - 1 then ScrollMore else ScrollDone
  }

  /** The hint invites further scrolling exactly while a later job remains. */
  lemma ScrollHintMeaning(active: int, n: int)
    ensures ScrollHint(active, n) == ScrollMore <==> active < n - 1
    ensures ScrollHint(active, n) == ScrollDone <==> active >= n - 1
  {
  }

  /**
   * The `activeJobIndex` state cell of the page. It is written by the scroll
   * listener and by clicks on a progress dot or on a block of the chain; the
   * last write wins.
   */
  class JobTimeline {
    const numExperiences: int
    var activeJobIndex: int

    ghost predicate Valid()
      reads this
    {
      1 <= numExperiences && 0 <= activeJobIndex < numExperiences
    }

    constructor (n: int)
      requires n >= 1
      ensures Valid() && numExperiences == n && activeJobIndex == 0
    {
      numExperiences := n;
      activeJobIndex := 0;
    }

    /** The scroll listener: recomputes the index from the latest progress. */
    method OnScrollProgress(latest: real)
      requires Valid()
      modifies this
      ensures Valid()
      ensures activeJobIndex == ActiveIndex(latest, numExperiences)
    {
      var totalScrollDistance := TrackHeight(numExperiences) - ViewportVh;
      var scrolledVh := latest * totalScrollDistance as real;
      var adjustedScroll := scrolledVh - EntryBufferVh as real;
      var rawIndex := adjustedScroll / ScrollPerItemVh as real;
      var index := Max(0, Min(rawIndex.Floor, numExperiences - 1));
      activeJobIndex := index;
    }

    /** A click on progress dot i, or on block i of the chain. */
    method SelectJob(i: int)
      requires Valid() && 0 <= i < numExperiences
      modifies this
      ensures Valid() && activeJobIndex == i
    {
      activeJobIndex := i;
    }

    /** The progress bar shown for the current state. */
    function ProgressBar(): (h: real)
      requires Valid()
      reads this
      ensures 0.0 < h <= 100.0
      ensures h == 100.0 <==> activeJobIndex == numExperiences - 1
    {
      ProgressBarHeightRange(activeJobIndex, numExperiences);
      ProgressBarHeight(activeJobIndex, numExperiences)
    }
  }

  /** The page wires the career chain's click handler to the job-index setter: a block click selects that job. */
  method ClickBlockOnPage(timeline: JobTimeline, index: int)
    requires timeline.Valid() && 0 <= index < timeline.numExperiences
    modifies timeline
    ensures timeline.Valid() && timeline.activeJobIndex == index
  {
    var forwarded := BlockchainExperience.HandleBlockClick(index, true);
    if forwarded.Some? {
      timeline.SelectJob(forwarded.value);
    }
  }
}
