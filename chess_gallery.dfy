/**
 * The "capture to reveal" project gallery (src/components/ChessGallery.tsx).
 *
 * An 8x8 board carries four black pawns, one per project. Clicking a pawn's
 * square moves the white queen there, records the square as captured and
 * reveals that project. When the board scrolls out of view the game resets.
 */
module ChessGallery {
  import opened Wrappers

  datatype Project = Project(id: string, targetSquare: int, title: string, tech: seq<string>, color: string)

  /** The four projects, each hidden under one square (0..63, row-major from a8). */
  const Projects: seq<Project> := [
    Project("battery", 27, "EV Battery Passport", ["Bitcoin SV", "Cryptography", "Python"], "bg-emerald-500"),
    Project("ico", 18, "ICO Success Predictor", ["Python", "TensorFlow", "NLP"], "bg-blue-500"),
    Project("music", 45, "Remuscent", ["Solidity", "React", "Web3.js"], "bg-purple-500"),
    Project("trading", 42, "Algo Trading Bot", ["Python", "Pandas", "Binance API"], "bg-orange-500")
  ]

  const BoardSize: int := 64
  /** The queen starts on e4. */
  const QueenStart: int := 36

  function TargetSquares(): set<int>
  {
    set p | p in Projects :: p.targetSquare
  }

  /** The first project of `ps` hidden under `square`, as `Array.prototype.find` returns it. */
  function FindByTarget(ps: seq<Project>, square: int): (r: Option<Project>)
    ensures r.None? <==> forall k :: 0 <= k < |ps| ==> ps[k].targetSquare != square
    ensures r.Some? ==> exists k :: 0 <= k < |ps| && ps[k] == r.value && r.value.targetSquare == square &&
                                    forall j :: 0 <= j < k ==> ps[j].targetSquare != square
  {
    if ps == [] then None
    else if ps[0].targetSquare == square then Some(ps[0])
    else
      var r := FindByTarget(ps[1..], square);
      assert forall k :: 1 <= k < |ps| ==> ps[k] == ps[1..][k - 1];
      r
  }

  function ProjectAt(square: int): Option<Project>
  {
    FindByTarget(Projects, square)
  }

  /** Target squares are pairwise distinct and on the board. */
  lemma TargetsDistinct()
    ensures |Projects| == 4
    ensures forall j, k :: 0 <= j < k < |Projects| ==> Projects[j].targetSquare != Projects[k].targetSquare
    ensures forall k :: 0 <= k < |Projects| ==> 0 <= Projects[k].targetSquare < BoardSize
  {
  }

  /** Project identifiers are pairwise distinct. */
  lemma IdsDistinct()
    ensures forall j, k :: 0 <= j < k < |Projects| ==> Projects[j].id != Projects[k].id
  {
    assert Projects[0].id[0] == 'b' && Projects[1].id[0] == 'i' && Projects[2].id[0] == 'm' && Projects[3].id[0] == 't';
  }

  /** The four target squares; the queen's start is not one of them. */
  lemma TargetSquaresValue()
    ensures TargetSquares() == {27, 18, 45, 42}
    ensures QueenStart !in TargetSquares()
  {
    assert Projects[0].targetSquare in TargetSquares();
    assert Projects[1].targetSquare in TargetSquares();
    assert Projects[2].targetSquare in TargetSquares();
    assert Projects[3].targetSquare in TargetSquares();
  }

  /** A square shows a project exactly when it is a target square, and then the project is the one placed there. */
  lemma ProjectAtMeaning(square: int)
    ensures ProjectAt(square).Some? <==> square in TargetSquares()
    ensures ProjectAt(square).Some? ==> ProjectAt(square).value in Projects && ProjectAt(square).value.targetSquare == square
  {
    if square in TargetSquares() {
      var p :| p in Projects && p.targetSquare == square;
      var k :| 0 <= k < |Projects| && Projects[k] == p;
      assert Projects[k].targetSquare == square;
    }
  }

  /** The gallery's three state cells. */
  datatype GalleryState = GalleryState(activeProject: Option<Project>, queenPos: int, capturedSquares: seq<int>)

  const Initial: GalleryState := GalleryState(None, QueenStart, [])

  predicate NoDuplicates(s: seq<int>)
  {
    forall j, k :: 0 <= j < k < |s| ==> s[j] != s[k]
  }

  /**
   * Either nothing has happened yet, or a project is shown, the queen sits on
   * its square, and that square is among the captured ones. Captures are
   * distinct target squares.
   */
  predicate GalleryInv(s: GalleryState)
  {
    && NoDuplicates(s.capturedSquares)
    && (forall k :: 0 <= k < |s.capturedSquares| ==> s.capturedSquares[k] in TargetSquares())
    && (s == Initial ||
        (&& s.activeProject.Some?
         && s.activeProject == ProjectAt(s.queenPos)
         && s.queenPos == s.activeProject.value.targetSquare
         && s.queenPos in s.capturedSquares))
  }

  lemma DistinctLength(s: seq<int>, bound: set<int>)
    requires NoDuplicates(s)
    requires forall k :: 0 <= k < |s| ==> s[k] in bound
    ensures |s| <= |bound|
  {
    if s != [] {
      var last := s[|s| - 1];
      var init := s[..|s| - 1];
      assert forall k :: 0 <= k < |init| ==> init[k] != last;
      DistinctLength(init, bound - {last});
    }
  }

  /** At most four captures can ever be recorded. */
  lemma CapturedAtMostFour(s: GalleryState)
    requires GalleryInv(s)
    ensures |s.capturedSquares| <= |Projects|
  {
    TargetSquaresValue();
    DistinctLength(s.capturedSquares, TargetSquares());
  }

  /** `handleSquareClick`: only a target square reacts; the queen takes it and its project is shown. */
  function Click(s: GalleryState, index: int): (r: GalleryState)
    ensures ProjectAt(index).None? ==> r == s
    ensures ProjectAt(index).Some? ==>
      && r.queenPos == index
      && r.activeProject == ProjectAt(index)
      && r.activeProject.value.targetSquare == index
      && (index in s.capturedSquares ==> r.capturedSquares == s.capturedSquares)
      && (index !in s.capturedSquares ==> r.capturedSquares == s.capturedSquares + [index])
    ensures GalleryInv(s) ==> GalleryInv(r)
  {
    ProjectAtMeaning(index);
    match ProjectAt(index)
    case None => s
    case Some(p) =>
      var captured := if index in s.capturedSquares then s.capturedSquares else s.capturedSquares + [index];
      GalleryState(Some(p), index, captured)
  }

  /** Captures behave as a set: the click adds the square once and keeps every earlier capture. */
  lemma ClickCaptureSet(s: GalleryState, index: int)
    requires GalleryInv(s)
    ensures (set x | x in Click(s, index).capturedSquares) ==
            (set x | x in s.capturedSquares) + (if index in TargetSquares() then {index} else {})
    ensures |Click(s, index).capturedSquares| <= |Projects|
  {
    ProjectAtMeaning(index);
    CapturedAtMostFour(Click(s, index));
  }

  /** Clicking the same square twice is the same as clicking it once. */
  lemma ClickIdempotent(s: GalleryState, index: int)
    ensures Click(Click(s, index), index) == Click(s, index)
  {
  }

  /** The reset performed while rendering when the board is not at least half in view. */
  function ResetIfOutOfView(s: GalleryState, isInView: bool): (r: GalleryState)
    ensures isInView ==> r == s
    ensures GalleryInv(s) ==> GalleryInv(r)
    ensures GalleryInv(s) && !isInView ==> r == Initial
  {
    if !isInView && (s.activeProject.Some? || |s.capturedSquares| > 0) then Initial else s
  }

  /** Resetting twice is resetting once. */
  lemma ResetIdempotent(s: GalleryState, isInView: bool)
    ensures ResetIfOutOfView(ResetIfOutOfView(s, isInView), isInView) == ResetIfOutOfView(s, isInView)
  {
  }

  lemma InitialValid()
    ensures GalleryInv(Initial)
  {
  }

  function Row(i: int): int { i / 8 }
  function Col(i: int): int { i % 8 }

  /** The dark squares of the board. */
  predicate IsBlack(i: int)
  {
    (Row(i) + Col(i)) % 2 == 1
  }

  /** Neighbours in a row, and neighbours in a column, always differ in colour. */
  lemma BoardAlternates(i: int)
    requires 0 <= i < BoardSize
    ensures i + 1 < BoardSize && Row(i + 1) == Row(i) ==> IsBlack(i) != IsBlack(i + 1)
    ensures i + 8 < BoardSize ==> Col(i + 8) == Col(i) && IsBlack(i) != IsBlack(i + 8)
    ensures 0 <= Row(i) < 8 && 0 <= Col(i) < 8 && i == 8 * Row(i) + Col(i)
  {
  }

  /** A black pawn is drawn on an uncaptured target square the queen is not on. */
  predicate ShowPawn(s: GalleryState, i: int)
  {
    ProjectAt(i).Some? && i !in s.capturedSquares && s.queenPos != i
  }

  predicate ShowQueen(s: GalleryState, i: int)
  {
    s.queenPos == i
  }

  /** A faded dot marks a captured square the queen has left. */
  predicate ShowCaptureDot(s: GalleryState, i: int)
  {
    i in s.capturedSquares && s.queenPos != i
  }

  /** The highlight ring of the square whose project is shown. */
  predicate IsActiveSquare(s: GalleryState, i: int)
  {
    ProjectAt(i).Some? && s.activeProject.Some? && s.activeProject.value.id == ProjectAt(i).value.id
  }

  /** A project of the gallery is identified by its id. */
  lemma SameIdSameProject(p: Project, q: Project)
    requires p in Projects && q in Projects && p.id == q.id
    ensures p == q
  {
    IdsDistinct();
    var j :| 0 <= j < |Projects| && Projects[j] == p;
    var k :| 0 <= k < |Projects| && Projects[k] == q;
  }

  /** The queen is on exactly one square of the board, and the ring (if any) is on that square. */
  lemma QueenAndRing(s: GalleryState, i: int)
    requires GalleryInv(s)
    ensures 0 <= s.queenPos < BoardSize
    ensures ShowQueen(s, i) <==> i == s.queenPos
    ensures IsActiveSquare(s, i) <==> s.activeProject.Some? && i == s.queenPos
  {
    if s != Initial {
      var p := s.activeProject.value;
      var k :| 0 <= k < |Projects| && Projects[k] == p;
      TargetsDistinct();
    }
    ProjectAtMeaning(i);
    if IsActiveSquare(s, i) {
      SameIdSameProject(ProjectAt(i).value, s.activeProject.value);
    }
  }

  /** Every target square shows exactly one of: a pawn, the queen, a capture dot; other squares show no marker but possibly the queen. */
  lemma MarkersExclusive(s: GalleryState, i: int)
    requires GalleryInv(s)
    ensures i in TargetSquares() ==>
      (ShowPawn(s, i) && !ShowQueen(s, i) && !ShowCaptureDot(s, i)) ||
      (!ShowPawn(s, i) && ShowQueen(s, i) && !ShowCaptureDot(s, i)) ||
      (!ShowPawn(s, i) && !ShowQueen(s, i) && ShowCaptureDot(s, i))
    ensures i !in TargetSquares() ==> !ShowPawn(s, i) && !ShowCaptureDot(s, i)
  {
    ProjectAtMeaning(i);
  }

  /** The gallery component with its three React state cells. */
  class Gallery {
    var activeProject: Option<Project>
    var queenPos: int
    var capturedSquares: seq<int>

    function State(): GalleryState
      reads this
    {
      GalleryState(activeProject, queenPos, capturedSquares)
    }

    ghost predicate Valid()
      reads this
    {
      GalleryInv(State())
    }

    constructor ()
      ensures Valid() && State() == Initial
    {
      activeProject := None;
      queenPos := QueenStart;
      capturedSquares := [];
    }

    method HandleSquareClick(index: int)
      requires Valid()
      modifies this
      ensures Valid()
      ensures State() == Click(old(State()), index)
    {
      var project := ProjectAt(index);
      if project.Some? {
        queenPos := index;
        if index !in capturedSquares {
          capturedSquares := capturedSquares + [index];
        }
        activeProject := project;
      }
    }

    method ResetWhenHidden(isInView: bool)
      requires Valid()
      modifies this
      ensures Valid()
      ensures State() == ResetIfOutOfView(old(State()), isInView)
      ensures !isInView ==> State() == Initial
    {
      if !isInView && (activeProject.Some? || |capturedSquares| > 0) {
        activeProject := None;
        queenPos := QueenStart;
        capturedSquares := [];
      }
    }
  }
}
