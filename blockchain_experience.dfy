/**
 * The 3D "career ledger" (src/components/BlockchainExperience.tsx): one block
 * per job stacked downwards, a chain group that slides so the active block is
 * centred, connector lines between blocks, and 2D labels beside them. Per-frame
 * smoothing is linear interpolation, modelled over exact reals.
 */
module BlockchainExperience {
  import opened Wrappers

  /** Active palette, cycled by block index. */
  const Colors: seq<string> := ["#4f46e5", "#0284c7", "#d97706", "#059669", "#db2777"]
  const InactiveLineColor: string := "#e2e8f0"

  /** Vertical distance between consecutive blocks, in world units. */
  const BlockSpacing: int := 4
  /** Vertical distance between consecutive labels, in pixels. */
  const LabelSpacingPx: int := 60
  const LabelLiftPx: int := 20

  const ActiveScale: real := 1.15
  const InactiveScale: real := 1.0
  const ActiveEmissive: real := 0.35
  const InactiveEmissive: real := 0.0
  const ScaleAlpha: real := 0.06
  const EmissiveAlpha: real := 0.08
  const ChainAlpha: real := 0.06

  function Abs(x: int): int { if x < 0 then -x else x }
  function AbsReal(x: real): real { if x < 0.0 then -x else x }

  /** The integers 0 .. m-1 as a set. */
  function Range(m: int): (r: set<int>)
    ensures forall i :: i in r <==> 0 <= i < m
    ensures |r| == if m < 0 then 0 else m
  {
    if m <= 0 then {} else
      var r := Range(m - 1);
      assert m - 1 !in r;
      r + {m - 1}
  }

  /** Local y position of block i inside the chain group. */
  function BlockY(i: int): int { -i * BlockSpacing }

  /** Where the chain group is steered for a given active job. */
  function ChainTargetY(activeIndex: int): int { activeIndex * BlockSpacing }

  /** Once the chain has settled, block i sits 4 units per job away from the centre; only the active block is at 0. */
  lemma ActiveBlockCentred(i: int, activeIndex: int)
    ensures ChainTargetY(activeIndex) + BlockY(i) == (activeIndex - i) * BlockSpacing
    ensures ChainTargetY(activeIndex) + BlockY(i) == 0 <==> i == activeIndex
  {
  }

  predicate IsActiveBlock(i: int, activeIndex: int) { i == activeIndex }

  /** For a valid active index exactly one block is active. */
  lemma ExactlyOneActiveBlock(n: int, activeIndex: int)
    requires 0 <= activeIndex < n
    ensures (set i | 0 <= i < n && IsActiveBlock(i, activeIndex)) == {activeIndex}
  {
  }

  /** The colour block i takes while active: always an entry of the palette. */
  function ActiveColor(i: int): (c: string)
    requires i >= 0
    ensures c in Colors
  {
    assert 0 <= i % |Colors| < |Colors|;
    Colors[i % |Colors|]
  }

  /** The palette repeats every five blocks; the first five blocks all get distinct colours. */
  lemma PaletteCycles(i: int)
    requires i >= 0
    ensures ActiveColor(i + |Colors|) == ActiveColor(i)
    ensures i < |Colors| ==> forall j :: 0 <= j < i ==> ActiveColor(j) != ActiveColor(i)
  {
    assert (i + |Colors|) % |Colors| == i % |Colors|;
  }

  /** A connector line is drawn below every block but the last. */
  predicate HasConnector(i: int, n: int) { i < n - 1 }

  /** n blocks are joined by n - 1 connectors. */
  lemma ConnectorCount(n: int)
    requires n >= 1
    ensures (set i | 0 <= i < n && HasConnector(i, n)) == Range(n - 1)
    ensures |set i | 0 <= i < n && HasConnector(i, n)| == n - 1
  {
    var s := set i | 0 <= i < n && HasConnector(i, n);
    assert forall i :: i in s <==> i in Range(n - 1);
    assert s == Range(n - 1);
  }

  datatype LineStyle = LineStyle(color: string, width: int, opacity: real)

  /** The connector below block i is highlighted in the block's colour while the block is active. */
  function ConnectorStyle(i: int, activeIndex: int): (s: LineStyle)
    requires i >= 0
    ensures s.color in Colors <==> i == activeIndex
    ensures i == activeIndex ==> s.color == ActiveColor(i)
    ensures i != activeIndex ==> s.color == InactiveLineColor
    ensures 0.0 < s.opacity < 1.0
  {
    if i == activeIndex then LineStyle(ActiveColor(i), 2, 0.6)
    else LineStyle(InactiveLineColor, 1, 0.3)
  }

  /** Vertical offset, in pixels, of the label of job i. */
  function LabelOffset(i: int, activeIndex: int): int
  {
    (i - activeIndex) * LabelSpacingPx - LabelLiftPx
  }

  /** Labels are stacked 60px apart in job order, the active one 20px above the centre line. */
  lemma LabelOffsetLayout(i: int, j: int, activeIndex: int)
    ensures LabelOffset(activeIndex, activeIndex) == -LabelLiftPx
    ensures LabelOffset(j, activeIndex) - LabelOffset(i, activeIndex) == (j - i) * LabelSpacingPx
    ensures i < j ==> LabelOffset(i, activeIndex) < LabelOffset(j, activeIndex)
  {
  }

  function LabelOpacity(i: int, activeIndex: int): real
  {
    var distance := Abs(i - activeIndex);
    if distance == 0 then 1.0 else if distance == 1 then 0.2 else 0.0
  }

  lemma SubsetCard(a: set<int>, b: set<int>)
    requires a <= b
    ensures |a| <= |b|
  {
    assert b == a + (b - a);
  }

  /** Exactly one label is fully opaque, at most two (its neighbours) are faint, the rest are hidden. */
  lemma LabelVisibility(n: int, activeIndex: int)
    requires 0 <= activeIndex < n
    ensures (set i | 0 <= i < n && LabelOpacity(i, activeIndex) == 1.0) == {activeIndex}
    ensures (set i | 0 <= i < n && LabelOpacity(i, activeIndex) == 0.2) <= {activeIndex - 1, activeIndex + 1}
    ensures |set i | 0 <= i < n && LabelOpacity(i, activeIndex) == 0.2| <= 2
    ensures forall i :: LabelOpacity(i, activeIndex) == 1.0 <==> i == activeIndex
    ensures forall i :: LabelOpacity(i, activeIndex) == 0.2 <==> Abs(i - activeIndex) == 1
    ensures forall i :: LabelOpacity(i, activeIndex) == 0.0 <==> Abs(i - activeIndex) >= 2
  {
    var faint := set i | 0 <= i < n && LabelOpacity(i, activeIndex) == 0.2;
    assert faint <= {activeIndex - 1, activeIndex + 1};
    SubsetCard(faint, {activeIndex - 1, activeIndex + 1});
  }

  /** `handleBlockClick`: the clicked block's own index goes to the handler when there is one. */
  function HandleBlockClick(index: int, hasHandler: bool): (forwarded: Option<int>)
    ensures forwarded.Some? <==> hasHandler
    ensures forwarded.Some? ==> forwarded.value == index
  {
    if hasHandler then Some(index) else None
  }

  /** `r` lies between `a` and `b`, in whichever order they come. */
  predicate Between(r: real, a: real, b: real)
  {
    (a <= b ==> a <= r <= b) && (b <= a ==> b <= r <= a)
  }

  /** One smoothing step of `actual` towards `target` with factor `alpha`. */
  function Lerp(actual: real, target: real, alpha: real): real
  {
    actual + (target - actual) * alpha
  }

  /** A step with a factor in [0, 1] never overshoots: it lands between the current value and the target. */
  lemma LerpBetween(actual: real, target: real, alpha: real)
    requires 0.0 <= alpha <= 1.0
    ensures Between(Lerp(actual, target, alpha), actual, target)
  {
    var d := target - actual;
    FractionBetween(d, alpha);
    assert Lerp(actual, target, alpha) == actual + d * alpha;
  }

  /** The remaining distance is scaled by exactly 1 - alpha; in particular the target is a fixed point. */
  lemma LerpGap(actual: real, target: real, alpha: real)
    ensures Lerp(actual, target, alpha) - target == (1.0 - alpha) * (actual - target)
    ensures actual == target ==> Lerp(actual, target, alpha) == target
  {
    var d := target - actual;
    assert actual + d * alpha - target == d * alpha - d;
    assert (1.0 - alpha) * (actual - target) == -d + d * alpha;
  }

  lemma FractionBetween(x: real, alpha: real)
    requires 0.0 <= alpha <= 1.0
    ensures x >= 0.0 ==> 0.0 <= x * alpha <= x
    ensures x <= 0.0 ==> x <= x * alpha <= 0.0
  {
    if x >= 0.0 {
      assert x * alpha <= x * 1.0;
    } else {
      assert x * alpha >= x * 1.0;
    }
  }

  /** A step with a positive factor strictly reduces the remaining distance unless it is already zero. */
  lemma LerpStrictlyCloser(actual: real, target: real, alpha: real)
    requires 0.0 < alpha <= 1.0 && actual != target
    ensures AbsReal(Lerp(actual, target, alpha) - target) < AbsReal(actual - target)
  {
    LerpGap(actual, target, alpha);
    var d := actual - target;
    var r := Lerp(actual, target, alpha) - target;
    assert r == (1.0 - alpha) * d;
    FractionBetween(d, 1.0 - alpha);
    assert r - d == -(alpha * d);
    if d > 0.0 {
      assert alpha * d > 0.0;
    } else {
      assert alpha * (-d) > 0.0;
    }
  }

  /** k frames of smoothing towards a fixed target. */
  function LerpSteps(actual: real, target: real, alpha: real, k: nat): real
    decreases k
  {
    if k == 0 then actual else LerpSteps(Lerp(actual, target, alpha), target, alpha, k - 1)
  }

  function Pow(x: real, k: nat): real
  {
    if k == 0 then 1.0 else x * Pow(x, k - 1)
  }

  /** After k frames the distance to the target has shrunk by the factor (1 - alpha)^k. */
  lemma {:induction false} LerpStepsDistance(actual: real, target: real, alpha: real, k: nat)
    ensures LerpSteps(actual, target, alpha, k) - target == Pow(1.0 - alpha, k) * (actual - target)
    decreases k
  {
    if k > 0 {
      var next, q := Lerp(actual, target, alpha), 1.0 - alpha;
      var p := Pow(q, k - 1);
      assert LerpSteps(actual, target, alpha, k) == LerpSteps(next, target, alpha, k - 1);
      assert Pow(q, k) == q * p;
      LerpStepsDistance(next, target, alpha, k - 1);
      LerpGap(actual, target, alpha);
      ScaleTwice(p, q, actual - target);
    }
  }

  lemma ScaleTwice(p: real, q: real, d: real)
    ensures p * (q * d) == (q * p) * d
  {
  }

  /** Bernoulli's inequality in the form (1 - alpha)^k * (1 + k*alpha) <= 1. */
  lemma {:induction false} PowBound(alpha: real, k: nat)
    requires 0.0 <= alpha <= 1.0
    ensures 0.0 <= Pow(1.0 - alpha, k)
    ensures Pow(1.0 - alpha, k) * (1.0 + k as real * alpha) <= 1.0
  {
    if k > 0 {
      PowBound(alpha, k - 1);
      BernoulliStep(Pow(1.0 - alpha, k - 1), alpha, (k - 1) as real);
      assert k as real == (k - 1) as real + 1.0;
    }
  }

  /** One induction step of PowBound: multiplying by 1 - alpha pays for one more alpha. */
  lemma BernoulliStep(p: real, alpha: real, m: real)
    requires 0.0 <= alpha <= 1.0 && 0.0 <= p && 0.0 <= m
    requires p * (1.0 + m * alpha) <= 1.0
    ensures 0.0 <= (1.0 - alpha) * p
    ensures ((1.0 - alpha) * p) * (1.0 + (m + 1.0) * alpha) <= 1.0
  {
    var q := 1.0 - alpha;
    ShrinkFactor(alpha, m);
    assert p * (q * (1.0 + (m + 1.0) * alpha)) <= p * (1.0 + m * alpha);
    assert (q * p) * (1.0 + (m + 1.0) * alpha) == p * (q * (1.0 + (m + 1.0) * alpha));
  }

  lemma ShrinkFactor(alpha: real, m: real)
    requires 0.0 <= alpha <= 1.0 && 0.0 <= m
    ensures (1.0 - alpha) * (1.0 + (m + 1.0) * alpha) <= 1.0 + m * alpha
  {
    assert (1.0 - alpha) * (1.0 + (m + 1.0) * alpha) == 1.0 + m * alpha - m * alpha * alpha - alpha * alpha;
    assert m * alpha * alpha >= 0.0;
  }

  /** Enough frames: k*alpha*eps exceeds the starting distance d. */
  lemma EnoughSteps(d: real, alpha: real, eps: real) returns (k: nat)
    requires d >= 0.0 && 0.0 < alpha <= 1.0 && eps > 0.0
    ensures d < k as real * alpha * eps
  {
    var q := d / (eps * alpha);
    k := q.Floor + 1;
    assert q * (eps * alpha) == d;
    assert k as real > q;
    assert k as real * (eps * alpha) > q * (eps * alpha);
  }

  /** A distance shrunk by p with p * (1 + x) <= 1 falls below eps once d < x * eps. */
  lemma ShrunkBelow(p: real, d: real, x: real, eps: real)
    requires 0.0 <= p && 0.0 <= d && eps > 0.0
    requires p * (1.0 + x) <= 1.0 && d < x * eps
    ensures p * d < eps
  {
    assert d * (p * (1.0 + x)) <= d;
    assert (p * d) * (1.0 + x) <= d;
    assert d < (1.0 + x) * eps;
    assert (p * d) * (1.0 + x) < eps * (1.0 + x);
  }

  lemma AbsScaled(p: real, x: real, y: real)
    requires p >= 0.0 && y == p * x
    ensures AbsReal(y) == p * AbsReal(x)
  {
    if x < 0.0 {
      assert p * x == -(p * -x);
    }
  }

  /** After k frames the absolute distance to the target is (1 - alpha)^k times the starting one. */
  lemma GapAfterSteps(actual: real, target: real, alpha: real, k: nat)
    requires 0.0 <= alpha <= 1.0
    ensures AbsReal(LerpSteps(actual, target, alpha, k) - target) == Pow(1.0 - alpha, k) * AbsReal(actual - target)
  {
    LerpStepsDistance(actual, target, alpha, k);
    PowBound(alpha, k);
    AbsScaled(Pow(1.0 - alpha, k), actual - target, LerpSteps(actual, target, alpha, k) - target);
  }

  /** (1 - alpha)^k shrinks d below eps once d < k*alpha*eps. */
  lemma PowShrinks(alpha: real, k: nat, d: real, eps: real)
    requires 0.0 <= alpha <= 1.0 && eps > 0.0
    requires 0.0 <= d < k as real * alpha * eps
    ensures Pow(1.0 - alpha, k) * d < eps
  {
    PowBound(alpha, k);
    ShrunkBelow(Pow(1.0 - alpha, k), d, k as real * alpha, eps);
  }

  /** k frames suffice once k*alpha*eps exceeds the starting distance. */
  lemma StepsSuffice(actual: real, target: real, alpha: real, eps: real, k: nat)
    requires 0.0 < alpha <= 1.0 && eps > 0.0
    requires AbsReal(actual - target) < k as real * alpha * eps
    ensures AbsReal(LerpSteps(actual, target, alpha, k) - target) < eps
  {
    GapAfterSteps(actual, target, alpha, k);
    PowShrinks(alpha, k, AbsReal(actual - target), eps);
  }

  /** Repeated smoothing with 0 < alpha <= 1 gets within any positive distance of the target. */
  lemma LerpConverges(actual: real, target: real, alpha: real, eps: real)
    requires 0.0 < alpha <= 1.0 && eps > 0.0
    ensures exists k: nat :: AbsReal(LerpSteps(actual, target, alpha, k) - target) < eps
  {
    var k := EnoughSteps(AbsReal(actual - target), alpha, eps);
    StepsSuffice(actual, target, alpha, eps, k);
  }

  function TargetScale(isActive: bool): real { if isActive then ActiveScale else InactiveScale }
  function TargetEmissive(isActive: bool): real { if isActive then ActiveEmissive else InactiveEmissive }

  /**
   * The per-frame state of one block: mesh scale, material emissive intensity,
   * and whether the first frame has run. Before that the mesh has its default
   * scale 1 and the material its declared emissive intensity 0.
   */
  class BlockMotion {
    var initialized: bool
    var scale: real
    var emissiveIntensity: real

    ghost predicate Valid()
      reads this
    {
      !initialized ==> scale == InactiveScale && emissiveIntensity == InactiveEmissive
    }

    constructor ()
      ensures Valid() && !initialized
    {
      initialized := false;
      scale := InactiveScale;
      emissiveIntensity := InactiveEmissive;
    }

    /**
     * One frame: the first one snaps scale (and, for the active block, the
     * emissive intensity) to the target; every frame then smooths towards it.
     */
    method Frame(isActive: bool)
      requires Valid()
      modifies this
      ensures Valid() && initialized
      ensures scale == Lerp(if old(initialized) then old(scale) else TargetScale(isActive), TargetScale(isActive), ScaleAlpha)
      ensures emissiveIntensity ==
        Lerp(if old(initialized) then old(emissiveIntensity) else TargetEmissive(isActive), TargetEmissive(isActive), EmissiveAlpha)
      ensures !old(initialized) ==> scale == TargetScale(isActive) && emissiveIntensity == TargetEmissive(isActive)
      ensures old(scale) == TargetScale(isActive) ==> scale == old(scale)
    {
      if !initialized {
        var initialScale := if isActive then ActiveScale else InactiveScale;
        scale := initialScale;
        if isActive {
          emissiveIntensity := ActiveEmissive;
        }
        initialized := true;
      }
      var targetScale := if isActive then ActiveScale else InactiveScale;
      scale := Lerp(scale, targetScale, ScaleAlpha);
      emissiveIntensity := Lerp(emissiveIntensity, if isActive then ActiveEmissive else InactiveEmissive, EmissiveAlpha);
    }
  }

  /** The chain group's vertical position, smoothed towards the active block. */
  class ChainMotion {
    var y: real

    constructor ()
      ensures y == 0.0
    {
      y := 0.0;
    }

    method Frame(activeIndex: int)
      modifies this
      ensures y == Lerp(old(y), ChainTargetY(activeIndex) as real, ChainAlpha)
      ensures AbsReal(y - ChainTargetY(activeIndex) as real) <= AbsReal(old(y) - ChainTargetY(activeIndex) as real)
    {
      var targetY := activeIndex * BlockSpacing;
      y := Lerp(y, targetY as real, ChainAlpha);
    }
  }
}
