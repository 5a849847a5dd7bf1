# Portfolio site core, modelled in Dafny

The site is a single-page resume. Under its rendering sit four small pieces of
logic, modelled here one module per source file:

- `ScrollSync` (`scroll_sync.dfy`, from `src/App.tsx`): the experience section's
  scroll progress becomes the active job index. The steps are a linear rescale
  over the scroll track, a 20vh entry buffer, 100vh per job, a floor and a
  clamp to `[0, n-1]`. The index also drives the progress bar, the progress
  dots and the scroll hint. The `activeJobIndex` state cell is the class
  `JobTimeline`. Scroll events and dot/block clicks are its methods.
- `ChessGallery` (`chess_gallery.dfy`): the "capture to reveal" board. It has
  three state cells: the active project, the queen's square and the captured
  squares. Clicks on a target square and the out-of-view reset are pure
  transitions (`Click`, `ResetIfOutOfView`) over an invariant. The class
  `Gallery` holds the three cells, and its methods are proved to perform
  those transitions. The board colouring and the pawn, queen, dot and ring
  markers are predicates on squares 0..63.
- `BlockchainExperience` (`blockchain_experience.dfy`): the career chain. This
  covers block and chain positions, the palette, connectors, label offset and
  opacity, and block clicks. It also covers the per-frame smoothing
  `actual + (target - actual) * alpha` over exact reals: no overshoot, the
  target is a fixed point, strict progress, the exact distance after k frames,
  and convergence. `BlockMotion` is one block's frame state, with its
  first-frame snap. `ChainMotion` is the sliding chain group.
- `NeuralSkills` (`neural_skills.dfy`): the skill graph. It flattens the
  categories, looks up each skill's category, applies the size rule
  (category first, then headline names via substring search), maps
  categories to colours, and links each node to its list neighbours.

`Wrappers` (`wrappers.dfy`) holds the `Option` type. It stands for
JavaScript's `undefined`/`null` results of `find`.

The five experiences and the five skill categories with their items come
from the resume document (`src/data/resume.ts`); the four chess projects
come from the gallery component's own table
(`src/components/ChessGallery.tsx`).

Click writes to the active index are not clamped: `setActiveJobIndex(i)` is
called with the dot's or block's own index (`src/App.tsx`, lines 245 and
253). The model follows the code: `SelectJob`
requires an index in range, which every caller (the dots and blocks are
rendered from the experience list) provides.

## Model

| member | source | states |
|---|---|---|
| ScrollSync.ScrollDistance | src/App.tsx:95-112 | `TrackHeight`, `ScrollDistance`: for n >= 1 the scroll distance is 50 + 100(n-1) vh, hence at least 50 (positive) |
| ScrollSync.ActiveIndex | src/App.tsx:112-122 | for n >= 1 the index lies in [0, n-1] for every progress value, including values outside [0, 1]; for n <= 0 the clamp yields 0, which is not a valid index |
| ScrollSync.ActiveIndexMonotone | src/App.tsx:112-122 | a larger scroll progress never gives a smaller index (for every n) |
| ScrollSync.ActiveIndexAtStart | src/App.tsx:112-122 | at progress 0 the raw index floors to -1 and the result is 0 |
| ScrollSync.ActiveIndexAtEnd | src/App.tsx:100-122 | `RawIndex`: at progress 1 the raw index is n - 1 + 0.3 and the result is the last job n - 1 |
| ScrollSync.ActiveIndexOverscroll | src/App.tsx:110-122 | progress below 0 gives job 0 and progress above 1 gives job n - 1 |
| ScrollSync.ActiveIndexInterval | src/App.tsx:112-122 | job k is produced exactly when 20 + 100k <= p*D < 20 + 100(k+1), the first interval open downwards and the last upwards (both directions) |
| ScrollSync.FiveJobScenario | src/App.tsx:86-122 | with the resume's five jobs the track is 550vh, progress 0 gives job 0, and progress 1 gives raw index 4.3 and job 4 |
| ScrollSync.ProgressBarHeightRange | src/App.tsx:279 | `ProgressBarHeight`: for a valid index the bar height is in (0, 100] and equals 100 exactly on the last job |
| ScrollSync.ProgressBarHeightIncreasing | src/App.tsx:279 | the bar height is strictly increasing in the active index |
| ScrollSync.DotStatesPartition | src/App.tsx:250-260 | `DotStateOf`: exactly one dot is current (the active one); past dots precede it and upcoming dots follow it |
| ScrollSync.ScrollHintMeaning | src/App.tsx:268 | `ScrollHint`: the hint reads "↓ SCROLL" iff a later job remains, otherwise "✓ DONE" |
| ScrollSync.JobTimeline.constructor | src/App.tsx:81 | the state cell starts at job 0 and is a valid index |
| ScrollSync.JobTimeline.OnScrollProgress | src/App.tsx:109-125 | the scroll listener stores ActiveIndex(latest, n) and keeps the index valid |
| ScrollSync.JobTimeline.SelectJob | src/App.tsx:243-253 | a dot or block click stores that job's index (last write wins) |
| ScrollSync.JobTimeline.ProgressBar | src/App.tsx:279 | the bar for the current state is in (0, 100] and full iff the last job is active |
| ScrollSync.ClickBlockOnPage | src/App.tsx:243-246 | on the page, clicking block i makes job i active |
| ChessGallery.FindByTarget | src/components/ChessGallery.tsx:64 | finds the FIRST project on the square, or none exactly when no project has that target square |
| ChessGallery.TargetsDistinct | src/components/ChessGallery.tsx:13-46 | the four target squares are pairwise distinct and on the board |
| ChessGallery.IdsDistinct | src/components/ChessGallery.tsx:13-46 | project identifiers are pairwise distinct |
| ChessGallery.TargetSquaresValue | src/components/ChessGallery.tsx:13-50 | the target squares are {27, 18, 45, 42}; the queen's start 36 is not one of them |
| ChessGallery.ProjectAtMeaning | src/components/ChessGallery.tsx:84 | `ProjectAt`: a square has a project iff it is a target square, and that project is the one placed there |
| ChessGallery.Click | src/components/ChessGallery.tsx:63-73 | a non-target square changes nothing; a target square moves the queen there and shows its project; a re-capture keeps the captures and a new capture is appended; the invariant is preserved |
| ChessGallery.ClickCaptureSet | src/components/ChessGallery.tsx:68-70 | captures behave as a set: the click adds exactly the target square and at most four captures exist |
| ChessGallery.ClickIdempotent | src/components/ChessGallery.tsx:63-73 | clicking the same square twice equals clicking it once |
| ChessGallery.CapturedAtMostFour | src/components/ChessGallery.tsx:68-70 | in every valid state at most four squares are captured |
| ChessGallery.ResetIfOutOfView | src/components/ChessGallery.tsx:56-61 | in view nothing changes; out of view a valid state returns exactly to the initial one; the invariant is preserved |
| ChessGallery.ResetIdempotent | src/components/ChessGallery.tsx:56-61 | applying the reset twice equals applying it once |
| ChessGallery.InitialValid | src/components/ChessGallery.tsx:49-51 | the initial state (no project, queen on 36, no captures) satisfies the invariant |
| ChessGallery.BoardAlternates | src/components/ChessGallery.tsx:79-82 | `IsBlack`, `Row`, `Col`: square i has row i/8 and column i%8; horizontal and vertical neighbours differ in colour |
| ChessGallery.QueenAndRing | src/components/ChessGallery.tsx:84-113 | `ShowQueen`, `IsActiveSquare`: in a valid state the queen is on exactly one board square and the highlight ring is exactly on the queen's square when a project is shown |
| ChessGallery.MarkersExclusive | src/components/ChessGallery.tsx:100-118 | `ShowPawn`, `ShowQueen`, `ShowCaptureDot`: each target square shows exactly one of pawn, queen or capture dot; other squares show neither pawn nor dot |
| ChessGallery.Gallery.constructor | src/components/ChessGallery.tsx:49-51 | the three state cells start in the initial state |
| ChessGallery.Gallery.HandleSquareClick | src/components/ChessGallery.tsx:63-73 | updating the three cells in place performs Click and keeps the invariant |
| ChessGallery.Gallery.ResetWhenHidden | src/components/ChessGallery.tsx:56-61 | the in-place reset performs ResetIfOutOfView; out of view the state is initial |
| BlockchainExperience.ActiveBlockCentred | src/components/BlockchainExperience.tsx:113-127 | `BlockY`, `ChainTargetY`: with the chain at its target, block i sits (active - i)*4 from the centre, which is 0 iff i is active |
| BlockchainExperience.ExactlyOneActiveBlock | src/components/BlockchainExperience.tsx:122-127 | `IsActiveBlock`: for a valid active index exactly one block is active, block activeIndex |
| BlockchainExperience.ActiveColor | src/components/BlockchainExperience.tsx:8-30 | a block's active colour is always a palette entry |
| BlockchainExperience.PaletteCycles | src/components/BlockchainExperience.tsx:8-30 | the palette repeats every five blocks and the first five blocks get distinct colours |
| BlockchainExperience.ConnectorCount | src/components/BlockchainExperience.tsx:96-105 | `HasConnector`: connectors are drawn below blocks 0..n-2, so there are n - 1 of them |
| BlockchainExperience.ConnectorStyle | src/components/BlockchainExperience.tsx:98-104 | an active connector takes its own block's colour (ActiveColor(i)), an inactive one #e2e8f0; so its colour is a palette entry iff its block is active; its opacity is strictly between 0 and 1 |
| BlockchainExperience.LabelOffsetLayout | src/components/BlockchainExperience.tsx:162-174 | `LabelOffset`: the active label sits 20px above centre; labels are 60px apart in job order |
| BlockchainExperience.LabelVisibility | src/components/BlockchainExperience.tsx:162-175 | `LabelOpacity`: opacity 1 iff the label is the active one, 0.2 iff it is at distance 1, 0 iff at distance 2 or more; exactly one label is opaque; at most two are faint and they are its neighbours; labels two or more away are hidden |
| BlockchainExperience.HandleBlockClick | src/components/BlockchainExperience.tsx:141-145 | the clicked index is forwarded unchanged iff a handler is present |
| BlockchainExperience.LerpBetween | src/components/BlockchainExperience.tsx:54-56 | `Lerp`: with 0 <= alpha <= 1 a smoothing step lands between the current value and the target (no overshoot) |
| BlockchainExperience.LerpGap | src/components/BlockchainExperience.tsx:113-117 | a step scales the remaining distance by exactly 1 - alpha; the target is a fixed point |
| BlockchainExperience.LerpStrictlyCloser | src/components/BlockchainExperience.tsx:54-56 | with alpha > 0 a step strictly reduces a nonzero distance to the target |
| BlockchainExperience.LerpStepsDistance | src/components/BlockchainExperience.tsx:113-117 | `LerpSteps`: after k frames the distance is (1 - alpha)^k times the initial distance |
| BlockchainExperience.PowBound | src/components/BlockchainExperience.tsx:54-56 | the shrink factor satisfies (1 - alpha)^k * (1 + k*alpha) <= 1 |
| BlockchainExperience.GapAfterSteps | src/components/BlockchainExperience.tsx:113-117 | after k frames the absolute distance to the target is (1 - alpha)^k times the starting one |
| BlockchainExperience.StepsSuffice | src/components/BlockchainExperience.tsx:113-117 | k frames bring the value within eps of the target once k*alpha*eps exceeds the starting distance |
| BlockchainExperience.LerpConverges | src/components/BlockchainExperience.tsx:113-117 | repeated smoothing gets within any eps > 0 of the target |
| BlockchainExperience.BlockMotion.constructor | src/components/BlockchainExperience.tsx:20-31 | a new block is uninitialised, with scale 1 and emissive intensity 0 |
| BlockchainExperience.BlockMotion.Frame | src/components/BlockchainExperience.tsx:33-69 | `TargetScale`, `TargetEmissive`: the first frame snaps scale and emissive intensity to the target and sets the flag; every frame then smooths; a value at its target stays there |
| BlockchainExperience.ChainMotion.constructor | src/components/BlockchainExperience.tsx:121 | the chain group starts at y = 0 |
| BlockchainExperience.ChainMotion.Frame | src/components/BlockchainExperience.tsx:113-118 | the chain moves one smoothing step towards activeIndex*4 and never gets farther from it |
| NeuralSkills.AllSkillsMembership | src/components/NeuralSkills.tsx:59 | `AllSkills`: a skill is in the flattening iff some category lists it |
| NeuralSkills.FlattenAppend | src/components/NeuralSkills.tsx:59 | flattening two category lists one after the other gives the two flattenings one after the other |
| NeuralSkills.FlattenBlocks | src/components/NeuralSkills.tsx:59 | each category's items form one contiguous block of the flattening, after all earlier categories' items and before all later ones |
| NeuralSkills.CategoryOf | src/components/NeuralSkills.tsx:66 | the result is the FIRST category listing the skill, or none exactly when no category lists it |
| NeuralSkills.CategoryDefined | src/components/NeuralSkills.tsx:59-66 | every flattened skill has a category |
| NeuralSkills.Contains | src/components/NeuralSkills.tsx:73 | substring search holds iff the needle occurs at some position |
| NeuralSkills.SizeRuleMeaning | src/components/NeuralSkills.tsx:68-75 | `HasHeadlineName`, `SizeRule`: size 0.1 iff the category is Tools & Hardware or Languages, whatever the name; size 0.4 iff another category and a headline name occurs in the skill |
| NeuralSkills.GetColorMeaning | src/components/NeuralSkills.tsx:90-99 | `GetColor`: the five known categories get five distinct colours; anything else, including none, is #cbd5e1 |
| NeuralSkills.Nodes | src/components/NeuralSkills.tsx:58-87 | `NodeOf`, `Nodes`: one node per flattened skill, in order, with its category and size rule |
| NeuralSkills.NodeColoured | src/components/NeuralSkills.tsx:58-99 | when every category name is one of the five known ones, every node has a known category and a non-grey colour |
| NeuralSkills.EveryNodeColoured | src/components/NeuralSkills.tsx:58-99 | on the resume's data no node is grey |
| NeuralSkills.Neighbours | src/components/NeuralSkills.tsx:115-118 | the links of node i are exactly the nodes j with abs(j - i) < 2, in increasing index order |
| NeuralSkills.NeighboursAreWindow | src/components/NeuralSkills.tsx:115-118 | the links of node i are the consecutive indices max(0, i-1) .. min(n-1, i+1) |
| NeuralSkills.NeighbourCount | src/components/NeuralSkills.tsx:115-118 | with n >= 2, a node links to itself; end nodes have 2 links and middle nodes 3 |
| NeuralSkills.NeighboursSymmetric | src/components/NeuralSkills.tsx:115-118 | j is linked from i iff i is linked from j |

## Left out

- Rendering, Tailwind classes, the contact modal, navigation and the education tab: presentation only.
- `useScroll`, `useTransform`, the `on("change")` subscription and its cleanup, `useInView`, `useFrame`, `Canvas`: framework plumbing. Scroll progress, the in-view flag and "a frame happened" are plain method inputs.
- The early return in a block's frame callback when its mesh or material is not yet mounted: framework plumbing.
- Idle rotation and sine wobble of blocks, the hover scale lerp of skill nodes, the decorative hero scene: time-driven float animation.
- Colour and emissive-colour lerps on `THREE.Color`: colour-space arithmetic. Only the scalar scale and emissive intensity are modelled, over exact reals. Nothing is claimed about JavaScript float rounding.
- Skill node positions on the sphere (`acos`, `sqrt`, `cos`, `sin`): trigonometry. Links are modelled as node indices, not as positions.
- The randomised default node size `0.15 + random * 0.15`: it is the value `RandomDefault`, unspecified.
- `document.body.style.cursor` changes on hover: a global side effect.
- Project descriptions and the experience records' text: content, not logic. Only the counts, identifiers, target squares, titles, tech tags and colours are kept.
- `ScrollSync.ProgressBarHeight` requires n >= 1: for n = 0 the source divides by zero, and the page always has five jobs.
