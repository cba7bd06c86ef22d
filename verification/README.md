# piece_solver core, modelled in Dafny

`piece_solver` fills a square board with polyomino pieces: three cells
hold pegs, and the solver covers every other cell with pieces from a fixed
catalog, each piece used at most once. This project models the Ruby core
of that program as pure Dafny functions and proves properties about them.
The modules follow the source files:

- `Geometry` (`geometry.dfy`) holds shared vocabulary: cells as integer
  pairs, `Elems` and `Distinct` on lists, the `n` x `n` square, translation,
  and `Option`.
- `PieceShape` (`piece.dfy`) covers `Piece`. It has `normalize`, the eight
  rotation and flip transforms, `apply_transform`, and the deduplicated
  orientation list that `compute_unique_orientations` builds.
- `PieceCatalog` (`pieces.dfy`) covers `Pieces.all` and `Pieces.by_name`.
  It computes the orientations of all six catalog pieces exactly.
- `BoardModel` (`board.dfy`) covers `Board`: bounds, pegs, occupied cells,
  `place` and `unplace`, the counters, and the row-major `next_free_cell`.
- `PegRules` (`peg_rules.dfy`) covers `PegRules.allowed_positions` and
  `PegRules.validate!`. Errors are a `Verdict` value instead of a raised
  `ArgumentError`.
- `InteractivePegs` (`interactive_pegs.dfy`) is the pure state machine of
  interactive peg entry: `move`, `toggle_place`, `undo`,
  `partial_feasible?`, `used_domain_indices`,
  `highlight_candidates_with_domains`, and the `run` loop over a list of
  key events.
- `PegMatching` (`peg_matching.dfy`) relates the validator to the
  interactive feasibility test.
- `Solver` (`solver.dfy`) covers `Solver`: `Placement`, `placement_valid?`,
  the depth-first `backtrack`, and `solve_one`.

The mutable Ruby objects are modelled as values.

- `backtrack` mutates the board, the `used` hash and the placement stack.
  Here it becomes a family of mutually recursive functions: `Backtrack`,
  `TryPieces`, `TryOrientations`, `TryAnchors`, `TryAnchor` and `Descend`.
  Each stands for one level of the nested loop or for its body. Each takes
  a search state and returns either `Found(state)` or `NotFound(state)`.
- Placing and undoing a piece are `Push` and `Pop`.
- The search carries the invariant `Consistent`:
  - the board is the start board plus exactly the placed cells;
  - `used` is exactly the set of placed names;
  - the placements are legal: catalog shapes, distinct names, on cells that
    were free, pairwise disjoint;
  - every placement covers the first free cell of the board it was placed on.
- The search terminates because every recursive call into `Backtrack` marks
  one more catalog name as used.
- The solver receives its pieces as `Stock` values: a name plus the
  orientation list. `StockOf` builds them from `Piece` values exactly as
  `Piece#orientations` would.

Source and documentation disagree in three places. The model follows the
code in each:

- **Zig orientations.** `Pieces.all` defines the zig tetromino with cells
  `[[1,0],[2,0],[0,1],[1,1]]`.
  - `PieceCatalog.ZigOrientations` proves this shape has 4 distinct
    orientations.
  - spec/piece_orientations_spec.rb expects 8.
- **Validator binding.** `validate!` checks peg `i` against domain `i` only.
  `PegMatching.FeasibleButRejected` exhibits a triplet that:
  - the interactive picker accepts, because it matches pegs to domains in
    some order;
  - `validate!` rejects.
- **Error message.** spec/peg_rules_spec.rb expects the message "not in any
  allowed domain", but the code reports that the peg "must be in" its own
  list. The model keeps only the kind of error and the 1-based peg number.
  `PegRules.ValidateNotInDomainExample` proves which error that example's
  triplet draws.

## Model

| member | source | states |
|---|---|---|
| PieceShape.Normalize | lib/piece_solver/piece.rb:59-63 | The result is strictly sorted, its least x and least y are 0 (when non-empty), it has one entry per distinct input cell, and it holds the same cells as the input shifted by its minima |
| PieceShape.NormalizeFixpoint | lib/piece_solver/piece.rb:59-63 | `normalize` leaves a list unchanged exactly when the list is already normalised, and normalising twice equals normalising once |
| PieceShape.NormalizeTranslate | lib/piece_solver/piece.rb:59-63 | A shape and any translate of it normalise to the same list |
| PieceShape.NormalizeOfElems | lib/piece_solver/piece.rb:59-63 | Two lists with the same cells normalise to the same list, whatever their order or repeats (the `uniq.sort`) |
| PieceShape.AllTransforms | lib/piece_solver/piece.rb:32-53 | Eight distinct transforms, one for each rotation and flip pair, ordered rotation by rotation with the unflipped one first; every transform is listed and the first is the identity |
| PieceShape.Inverse | lib/piece_solver/piece.rb:32-53 | Each transform is undone by a transform in the list, in both orders, so every transform is a bijection of cells |
| PieceShape.ApplyTransformCard | lib/piece_solver/piece.rb:55-57 | Mapping a cell list through a transform keeps its number of distinct cells |
| PieceShape.Dedup | lib/piece_solver/piece.rb:19-29 | The `seen`-hash filter returns distinct shapes, exactly the input's shapes, at most as many, the first shape kept first, and in order of first occurrence. The source keys `seen` on `shape.sort.flatten.join(",")`; every candidate is already normalised (strictly sorted), so equal keys mean equal lists and the model compares the lists directly |
| PieceShape.OrientationCount | lib/piece_solver/piece.rb:16-30 | The number of orientations is the number of distinct normalised images of the base |
| PieceShape.PieceOrientations | lib/piece_solver/piece.rb:8-12 | A constructed piece has a normalised base with one cell per distinct given cell; its orientations are distinct, at most eight, start with the base, and are exactly the normalised images of the base under the eight transforms, each normalised and of the base's size |
| PieceShape.OrientationsAreImages | lib/piece_solver/piece.rb:16-30 | Every transform's normalised image is an orientation, and every orientation is the normalised image under some transform |
| PieceCatalog.CatalogNames | lib/piece_solver/pieces.rb:7-17 | Six pieces named short_l, long_l, square, zig, bar, triangle, in that order and pairwise distinct |
| PieceCatalog.CatalogCounts | lib/piece_solver/pieces.rb:7-17 | The pieces have 3, 4, 4, 4, 3 and 4 cells, with no repeated cell in any piece |
| PieceCatalog.CatalogArea | lib/piece_solver/pieces.rb:7-17 | The pieces cover 22 cells together, the free area of a 5 x 5 board with three pegs |
| PieceCatalog.ShortLOrientations | lib/piece_solver/pieces.rb:9 | The short L has normalised base (0,0),(0,1),(1,0), the listed eight transform images, and 4 orientations |
| PieceCatalog.LongLOrientations | lib/piece_solver/pieces.rb:10 | The long L has the listed base and eight images, and 8 orientations |
| PieceCatalog.SquareOrientations | lib/piece_solver/pieces.rb:11 | The square's eight images coincide: 1 orientation |
| PieceCatalog.ZigOrientations | lib/piece_solver/pieces.rb:12-13 | The zig, as defined, has 4 orientations: a half turn maps it onto itself, so the last four images repeat the first four |
| PieceCatalog.BarOrientations | lib/piece_solver/pieces.rb:14 | The bar has 2 orientations, vertical then horizontal |
| PieceCatalog.TriangleOrientations | lib/piece_solver/pieces.rb:15 | The T-shaped triangle has 4 orientations |
| PieceCatalog.ByName | lib/piece_solver/pieces.rb:19-21 | `to_h` keys are exactly the names, each key maps to a piece of that name, and the final piece is found under its own name |
| PieceCatalog.ByNameLastWins | lib/piece_solver/pieces.rb:19-21 | On a repeated name the last piece wins: every piece that no later piece shares a name with is returned under its name |
| PieceCatalog.ByNameOfDistinct | lib/piece_solver/pieces.rb:19-21 | With distinct names the map has one entry per piece and returns each piece under its own name |
| PieceCatalog.CatalogByName | lib/piece_solver/pieces.rb:19-21 | The catalog map has the six names as keys and returns each catalog piece under its name |
| BoardModel.NewBoard | lib/piece_solver/board.rb:9-13 | A new board keeps the size, holds exactly the given pegs as a set, and has nothing occupied |
| BoardModel.FreeCells | lib/piece_solver/board.rb:15-29 | A cell is free exactly when it is in bounds, not a peg and not occupied |
| BoardModel.Place | lib/piece_solver/board.rb:31-33 | Placing adds exactly the given cells to the occupied set and changes nothing else |
| BoardModel.Unplace | lib/piece_solver/board.rb:35-37 | Unplacing removes exactly the given cells from the occupied set and changes nothing else |
| BoardModel.PlaceThenUnplace | lib/piece_solver/board.rb:31-37 | Unplacing cells that were not occupied before placing them restores the board |
| BoardModel.PlaceCount | lib/piece_solver/board.rb:31-41 | Placing distinct, unoccupied cells raises the occupancy count by their number |
| BoardModel.FreeCellsTargetCounts | lib/piece_solver/board.rb:43-45 | With all pegs on the board and nothing placed, the target equals the number of free cells |
| BoardModel.NextFreeCell | lib/piece_solver/board.rb:47-55 | The result is a free cell with no free cell before it in row-major order (row y outside, column x inside), and it is nil exactly when no cell is free |
| PegRules.AllowedPositions | lib/piece_solver/peg_rules.rb:7-19 | Three lists; a cell is allowed for peg i exactly when it is in hard-coded list i and on the board |
| PegRules.OnBoardAppend | lib/piece_solver/peg_rules.rb:16-18 | The bounds filter keeps the cells' order: filtering a concatenation concatenates the filtered parts |
| PegRules.AllowedOnFive | lib/piece_solver/peg_rules.rb:7-19 | On a 5 x 5 board only (0,5) is dropped, from the first list; the other two lists are unchanged |
| PegRules.RawDomainsDisjoint | lib/piece_solver/peg_rules.rb:8-12 | No cell is in two of the three lists |
| PegRules.Validate | lib/piece_solver/peg_rules.rb:23-45 | Each check fails exactly when its condition fails and the earlier checks pass: count, then pair shape, then distinctness. A bounds or domain error names a peg that fails it while all earlier pegs fit their own lists. The triplet is accepted exactly when every peg i is on the board and in list i |
| PegRules.ValidateNamesFirstMisfit | lib/piece_solver/peg_rules.rb:34-43 | The error reports the first peg that misfits, as out of bounds when it is off the board and as outside its domain otherwise |
| PegRules.ValidateAcceptsExample | spec/peg_rules_spec.rb:7-10 | Pegs (1,0),(2,2),(3,1) are accepted on every board of side 4 or more |
| PegRules.ValidateNotInDomainExample | spec/peg_rules_spec.rb:12-15 | Pegs (2,0),(2,2),(3,1) are rejected at peg 1 as outside its domain on every board of side 3 or more |
| PegRules.ValidateOutOfBoundsExample | spec/peg_rules_spec.rb:17-20 | Pegs (0,0),(4,4),(10,10) are rejected at peg 3 as out of bounds on boards of side 5 to 10 |
| InteractivePegs.Start | lib/piece_solver/interactive_pegs.rb:12-17 | A session starts with no pegs, the cursor at (0,0), and the given size and domains |
| InteractivePegs.StartWithDefaultDomains | lib/piece_solver/interactive_pegs.rb:12 | Without explicit domains a session uses the allowed positions of the 5 x 5 board, whatever its size |
| InteractivePegs.Clamp | lib/piece_solver/interactive_pegs.rb:66-67 | On a non-empty board the clamped value lies on the board and is the board value nearest the input |
| InteractivePegs.Move | lib/piece_solver/interactive_pegs.rb:64-69 | Moving keeps pegs, size and domains, keeps the cursor on a non-empty board, lands exactly on the target when the target is on the board, and otherwise lands, on each axis separately, on the board coordinate nearest the target |
| InteractivePegs.NearestUnique | lib/piece_solver/interactive_pegs.rb:66-67 | Only one board coordinate is nearest a value, so the per-axis clamp is fully determined |
| InteractivePegs.RemoveAll | lib/piece_solver/interactive_pegs.rb:72-73 | `Array#delete` leaves exactly the other cells, each as often as before, and none of `x` |
| InteractivePegs.RemoveAllAppend | lib/piece_solver/interactive_pegs.rb:72-73 | Deletion distributes over concatenation, so the remaining cells keep their order |
| InteractivePegs.RemoveAllOnce | lib/piece_solver/interactive_pegs.rb:72-73 | In a list without repeats, deleting a present cell removes just its one position |
| InteractivePegs.Toggle | lib/piece_solver/interactive_pegs.rb:71-83 | A peg under the cursor is removed: every copy of it goes, the other pegs keep their counts, and on a list without repeats exactly its one entry is cut out with the others in order. Otherwise the cursor is appended exactly when the enlarged list is feasible, and the pegs are unchanged when it is not. Cursor, size and domains never change |
| InteractivePegs.UndoLast | lib/piece_solver/interactive_pegs.rb:85-87 | Undo drops the last peg, or changes nothing when there are no pegs |
| InteractivePegs.OptionsFrom | lib/piece_solver/interactive_pegs.rb:133-134 | The options of a peg are exactly the indices of the domains holding it |
| InteractivePegs.ArrangementsAre | lib/piece_solver/interactive_pegs.rb:139-143 | `permutation(k)` yields exactly the length-k sequences of distinct available indices |
| InteractivePegs.PartialFeasibleIff | lib/piece_solver/interactive_pegs.rb:126-144 | A peg list is feasible exactly when it has no repeats, lies on the board, and some assignment gives each peg its own distinct domain among the first three, a domain that holds the peg |
| InteractivePegs.FeasibleSizes | lib/piece_solver/interactive_pegs.rb:139-143 | No pegs is feasible, and a feasible list has at most three pegs |
| InteractivePegs.FeasibleDrop | lib/piece_solver/interactive_pegs.rb:126-144 | Removing any one peg from a feasible list leaves it feasible |
| InteractivePegs.StepKeepsFeasible | lib/piece_solver/interactive_pegs.rb:52-87 | Every key except quit keeps the placed pegs feasible |
| InteractivePegs.RunKeepsFeasible | lib/piece_solver/interactive_pegs.rb:19-29 | From a feasible start, a finished session returns exactly three feasible pegs, and a session still waiting for keys holds fewer than three feasible pegs |
| InteractivePegs.FirstDomain | lib/piece_solver/interactive_pegs.rb:171 | The match is the least index of a domain holding the cell, or nil when no domain holds it |
| InteractivePegs.UsedIndicesAreFirst | lib/piece_solver/interactive_pegs.rb:166-175 | When every peg lies in some domain, the used indices are, peg by peg, the first domain holding that peg |
| InteractivePegs.UsedDomainsMatch | lib/piece_solver/interactive_pegs.rb:166-175 | With pairwise disjoint domains, the greedy indices of a feasible peg list are a matching: distinct, each under 3, each domain holding its peg |
| InteractivePegs.UsedIsAssignment | lib/piece_solver/interactive_pegs.rb:166-175 | With disjoint domains, any assignment of pegs to domains is exactly the greedy result |
| PegRules.AllowedDisjoint | lib/piece_solver/peg_rules.rb:7-19 | The allowed-position lists are pairwise disjoint on every board size |
| InteractivePegs.TagIfOpen | lib/piece_solver/interactive_pegs.rb:155-162 | Scanning one domain adds exactly its open cells (unused domain, on the board, not a peg) and tags them with that domain, keeping earlier tags elsewhere |
| InteractivePegs.Highlights | lib/piece_solver/interactive_pegs.rb:148-164 | Nothing is highlighted exactly when domains 0, 1 and 2 are all used. Otherwise the highlighted cells are the map's keys, they are exactly the open cells of the unused domains, and each is tagged with the last unused domain that holds it |
| PegMatching.ValidatedPegsAreFeasible | lib/piece_solver/peg_rules.rb:23-45 | Every triplet the validator accepts is feasible for the interactive picker with the same domains |
| PegMatching.FeasibleButRejected | lib/piece_solver/peg_rules.rb:34-43 | The converse fails: (2,2),(1,0),(3,1) is feasible on any board of side 4 or more, yet rejected at peg 1 as outside its domain |
| Solver.StockOf | lib/piece_solver/solver.rb:11-15 | The solver's stock lists each piece's name with exactly its computed orientations, in catalog order |
| Solver.PlacementValid | lib/piece_solver/solver.rb:65-67 | A placement is valid exactly when every one of its cells is free |
| Solver.PopUndoesPush | lib/piece_solver/solver.rb:49-57 | Popping the placement, deleting its name and unplacing its cells restore the state exactly, when the cells were unoccupied and the name unused |
| Solver.PushKeepsConsistent | lib/piece_solver/solver.rb:43-53 | Placing an unused piece's orientation over the first free cell on free cells keeps the search invariant: board equals start plus placed cells, `used` equals placed names, placements legal and anchored |
| Solver.Backtrack | lib/piece_solver/solver.rb:26-63 | From a consistent state the search either fails and leaves the state exactly as it was, or succeeds with a consistent, complete state that extends the current placement stack |
| Solver.TryPieces | lib/piece_solver/solver.rb:38-39 | Trying the pieces from index i on, skipping used names, either fails with the state restored or returns a complete consistent extension |
| Solver.TryOrientations | lib/piece_solver/solver.rb:41 | Trying the orientations of piece i from index o on either fails with the state restored or returns a complete consistent extension |
| Solver.TryAnchors | lib/piece_solver/solver.rb:43 | Trying the cells of an orientation as anchors from index k on either fails with the state restored or returns a complete consistent extension |
| Solver.TryAnchor | lib/piece_solver/solver.rb:43-47 | Shifting the orientation so that cell k lands on the first free cell, and skipping it unless every shifted cell is free, either fails with the state restored or returns a complete consistent extension |
| Solver.Descend | lib/piece_solver/solver.rb:49-57 | Placing, marking and pushing a placement, then searching on, either succeeds with a complete consistent extension or, after the pop, unmark and unplace, returns exactly the state before the placement |
| Solver.AnchoredAt | lib/piece_solver/solver.rb:33-46 | The stack is anchored exactly when each placement k covers the row-major-first free cell of the start board with placements 0 to k-1 added |
| Solver.SolveOne | lib/piece_solver/solver.rb:17-22 | A returned placement list is a solution: catalog shapes at free, non-overlapping cells, each piece at most once, covering exactly as many cells as the target; each placement covers the first free cell in row-major order of the board it was placed on |
| Solver.ExactCover | spec/solver_spec.rb:9-22 | On a fresh board with its pegs on the board, a solution covers exactly the non-peg cells |
| Solver.SolutionSize | lib/piece_solver/solver.rb:38-39 | A solution uses at most as many placements as there are distinct piece names |

## Left out

- Default arguments are not modelled. Each becomes a required parameter:
  `Board.new(size: 5, pegs: [])`, `allowed_positions(board_size = 5)`,
  `validate!(pegs, board_size: 5)` and `Solver.new(board, pieces = Pieces.all)`.
  The one exception is `InteractivePegs.new`, whose default domains
  `StartWithDefaultDomains` models.
- The terminal is not modelled: `with_raw_tty`, `read_key`, `instructions`,
  `draw`, the ANSI renderer, and the `warn` and `sleep` on a rejected peg.
  Key presses are a list of `Event` values given to `Run`, and `Other`
  stands for a key `handle_key` ignores.
- `abort("Aborted by user")` ends the model's run as `Aborted`; process exit
  is not modelled.
- Exception messages are not modelled: `validate!` returns
  `Rejected(error)`, with the peg number where the message has one.
- `x.is_a?(Integer)` in `allowed_positions` and `validate!` always holds in
  the model, because pegs are lists of `int`. A non-array peg or a
  non-integer coordinate cannot be represented. `NotIntegerPairs` stands for
  the wrong-length case only.
- `pegs.is_a?(Array)` always holds: pegs are a sequence.
- The `@solutions` array and repeated calls of `solve_one` on one solver are
  not modelled. `SolveOne` runs one fresh search and returns the first
  solution it finds, which is `@solutions.first`.
- `placements.map(&:dup)`, `Board#occupied_cells` (a copy of the occupied
  set) and object identity are not modelled: values have no aliasing.
- Solver.SolveOne: states soundness only. Completeness (a solution is found
  whenever one exists) and solvability of particular peg sets are not
  proved. The first example in spec/solver_spec.rb asks for a solution on pegs
  (1,0),(2,2),(3,1); `ExactCover` proves any returned list covers exactly
  the non-peg cells, but not that one is returned.
- Solver.Backtrack: no contract states that the solution found is the first
  one in the source's search order. The functions do search in that order
  (pieces, then orientations, then anchor cells), but only their bodies say
  so.
- InteractivePegs.Highlights: requires at least three domains, because the
  source indexes `@domains[di]` for `di` in 0..2, and fewer domains make
  `nil.each` raise.
- InteractivePegs.UsedIndicesAreFirst: covers only peg lists where every
  peg lies in some domain. Otherwise `UsedDomainIndices` skips the peg, as
  `indices << match if match` does, and the positions shift.
- The candidate list of `highlight_candidates_with_domains` is a set in the
  source (`to_set`), so duplicates and order are not modelled.
- PegRules.ValidateAcceptsExample, PegRules.ValidateOutOfBoundsExample,
  PegRules.ValidateNotInDomainExample and PegMatching.FeasibleButRejected:
  state the RSpec examples for every board size where they hold, not only
  for size 5.
- Integer width plays no part: Ruby integers are unbounded, and so are
  Dafny's.
