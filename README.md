# Salpakan (Game of the Generals) rules engine, modelled in Dafny

This project models the game engine of a small browser game in the style of the Game of
the Generals: a 6×6 board, five piece kinds per side (flag, private, 1-star, 2-star, spy),
random setup in each side's two home rows, a 30-second setup countdown, single-step
orthogonal moves by the player, combat decided by a rank table with a private/spy
exception, and an AI opponent that moves a random piece to a random empty neighbouring
cell.

The engine is one object (`Engine.Game`). It holds the board as an array of 36 cells in
row-major order, each empty or holding one `Piece(kind, owner)`. It also holds the game's
flags: `playerTurn`, `isSetupPhase`, the selected piece (as the cell it stands on),
`timeLeft`, whether the countdown is still scheduled, and the declared winner. Each event
handler of the page is a method that updates the object in place:

- `Tick` is one firing of the countdown interval.
- `StartGame` is the start-now button.
- `DragStart` and `Drop` are drag and drop during setup.
- `Click` is a click on a cell once the game has started.
- `AiMove` is the AI's turn.

Every method keeps the object invariant `Valid()`:

- No piece stands on two cells.
- The selection is always a player piece on the board.
- The countdown runs exactly during setup.
- During setup every piece stays in its side's rows.

Each method is specified against pure functions of the board (module `Rules`, `Board`,
`Setup`), and the lemmas prove what the game promises about those functions.

Modules:

- `Pieces` holds the kinds, the owners, the dealing order and the rank table.
- `Arbitration` holds the combat verdict as a pure function of the two kinds.
- `Chance` turns `Math.floor(Math.random() * n)` into an argument: a `Roll` num/den with num < den.
- `Board` holds cells, adjacency, the AI's candidate targets, relocation, combat removal, the piece count and uniqueness.
- `Setup` covers dealing each side's pieces into its home rows, and the initial layout.
- `Rules` gives the effect of a player move and of an AI step, as values.
- `Engine` is the `Game` class.
- `Wrappers` provides `Option`.

How the code and a plain reading of the game's design differ (the model follows the code):

- When the player captures the AI's flag, the arbiter declares **AI** the winner. An attacking flag always declares **Player** the winner, whatever it attacks.
- A surviving attacker stays on its own cell. It does not advance into the defender's cell.
- The AI never attacks. It only steps onto empty cells. No flag win exists for the AI reaching row 5.
- If no AI piece can move, the AI's turn ends without a move and `playerTurn` stays false. Nothing further is scheduled.
- Clicking a cell that holds a player piece selects that piece. A player move therefore never targets the player's own piece.

## Model

| member | source | states |
|---|---|---|
| Pieces.Rank | index.js:176-182 | Ranks lie in 0..4; rank 0 is exactly the flag and rank 4 exactly the spy |
| Pieces.PieceTypesListEachKindOnce | index.js:14-20 | Every kind is in the dealing list, and no kind appears twice |
| Pieces.RankInjective | index.js:176-182 | Two kinds have equal rank iff they are the same kind |
| Arbitration.Arbitrate | index.js:184-208 | A win happens iff a flag is involved: an attacking flag gives Player, a defending flag gives AI; both pieces go iff the kinds are equal; private beats spy and spy loses to private |
| Arbitration.ArbitrateFollowsRanks | index.js:201-208 | Outside the private/spy pairing, the higher rank removes the lower, in both directions of the comparison |
| Arbitration.ArbitrateRoleSwap | index.js:192-208 | Without flags, swapping attacker and defender swaps which piece is removed; a tie stays a tie |
| Arbitration.ArbitrateRemovesSomething | index.js:192-208 | A verdict that is not a win removes at least one of the two pieces |
| Chance.Pick | index.js:73 | `Math.floor(Math.random() * n)` is a valid index below n for every n > 0 |
| Chance.ScaledFloorBelow | index.js:216 | Scaling a fraction below one by n and rounding down stays below n |
| Board.Index | index.js:53-58 | Cell (row, col) is at position 6·row + col of the cell list, and that position gives back row and col |
| Board.IndexOfRowCol | index.js:53-60 | Every one of the 36 positions is an in-bounds cell whose index is that position |
| Board.Blank | index.js:52-60 | The freshly created board has 36 cells, all empty |
| Board.BlankCount | index.js:52-60 | The freshly created board holds no piece |
| Board.Targets | index.js:224-236 | The direction loop yields at most one cell per direction, each on the board and empty |
| Board.TargetsExact | index.js:224-236 | A cell is yielded iff it is on the board, empty, and one of the listed steps away |
| Board.EmptyNeighbours | index.js:224-236 | At most four candidate targets, all on the board |
| Board.EmptyNeighboursExact | index.js:224-236 | The AI's candidate targets are exactly the empty cells one orthogonal step away |
| Board.Relocate | index.js:155-159 | `appendChild` onto an empty cell (also the setup drop and the AI step): the target gets the moving piece, the origin empties, every other cell keeps what it held |
| Board.RelocateKeepsCount | index.js:155-159 | Moving a piece onto an empty cell keeps the number of pieces |
| Board.RelocateKeepsUnique | index.js:155-159 | Moving a piece onto an empty cell never puts one piece on two cells |
| Board.Combat | index.js:184-208 | The `removeChild` calls of the arbiter: the attacker's cell keeps its piece iff the verdict lets the attacker survive, the defender's likewise, and no other cell changes; the attacker never moves |
| Board.CombatCount | index.js:192-208 | Combat removes exactly the verdict's number of pieces (0 on a win, else 1 or 2), adds none, and leaves every other cell as it was |
| Board.CellsOf | index.js:212 | The AI piece list holds exactly the cells with an AI piece |
| Board.SetupZonesLeaveMiddleEmpty | index.js:66-70 | While pieces stay in their setup rows, rows 2 and 3 are empty |
| Setup.ZoneCells | index.js:67-70 | A side's available cells are 12 cells, all in its setup rows |
| Setup.ZoneCellsExact | index.js:105-108 | The available cells are exactly the cells of rows 4-5 (player) or rows 0-1 (AI), each listed once |
| Setup.SpliceKeeps | index.js:74 | Splicing out one cell keeps every other listed cell and adds none |
| Setup.SpliceDistinct | index.js:74 | Splicing a list of distinct cells leaves distinct cells without the removed one |
| Setup.Allocate | index.js:72-75 | One cell per roll, each the picked entry of the still-available list, which is then spliced; AllocateDistinct proves the cells distinct and drawn from the list |
| Setup.AllocateDistinct | index.js:72-75 | Dealing gives each piece its own cell, drawn from the available cells |
| Setup.Dealt | index.js:110-112 | A side's five dealt cells are distinct cells of its setup rows |
| Setup.Deal | index.js:72-88 | The k-th dealt cell gets the k-th kind of the dealing side; the result is a 36-cell board, and its partner lemmas DealAt and DealCount say which cells hold what and how many pieces were added |
| Setup.DealAt | index.js:87 | After dealing, a dealt cell holds its piece and every other cell what it held before |
| Setup.DealCount | index.js:120 | Dealing onto distinct empty cells adds exactly one piece per cell |
| Setup.InitialBoard | index.js:62-63 | The board after both sides are dealt has 36 cells; InitialAt and InitialLayout say what stands where |
| Setup.InitialAt | index.js:62-63 | On the initial board, each dealt cell holds its side's piece of the matching kind; every other cell is empty |
| Setup.InitialPairDistinct | index.js:72-88 | Two different cells of the initial board never hold the same piece |
| Setup.InitialPlacement | index.js:104-121 | On the initial board each piece is in its own side's setup rows, and no piece stands on two cells |
| Setup.InitialPieces | index.js:62-63 | The initial board holds every (kind, owner) pair somewhere, ten pieces in all |
| Setup.InitialLayout | index.js:66-122 | After setup: every (kind, owner) stands on exactly one cell, ten pieces in all, the player's in rows 4-5, the AI's in rows 0-1, rows 2-3 empty |
| Rules.PlayerMove | index.js:144-170 | A non-adjacent target changes nothing; the turn passes iff the move is a step and nobody won; Player wins only with a flag; AI is declared only when a flag is attacked |
| Rules.RejectedMoveChangesNothing | index.js:151-154 | Anything other than one orthogonal step leaves the board, the turn and the selection unchanged |
| Rules.StepOntoEmptyCell | index.js:155-168 | A step onto an empty cell moves the piece and empties its origin, and changes nothing else; the selection follows the piece; a flag entering row 0 wins for Player, otherwise the turn passes |
| Rules.PlayerMoveCount | index.js:155-159 | A move never adds pieces: a step keeps the count, and a combat without a winner removes one or two |
| Rules.CombatNeverAdvances | index.js:155-159 | After combat the target cell holds its defender or nothing, and the attacker's cell holds the attacker or nothing; a win leaves the board untouched |
| Rules.PlayerMoveKeepsPieces | index.js:144-170 | A move keeps every piece unique, and a remaining selection is the moved piece itself |
| Rules.AiStep | index.js:238-242 | One mobile AI piece moves onto one of its empty neighbours; such a step keeps the piece count and never puts one piece on two cells |
| Rules.AiStepKeepsPieces | index.js:229-242 | An AI step goes exactly one orthogonal step onto an empty cell; it keeps the count and uniqueness and never touches a player piece |
| Rules.PrivateAttacksSpy | index.js:192-195 | A private at (4,2) attacking a spy at (3,2) removes only the spy; the private stays at (4,2) and the turn passes |
| Rules.FlagReachesRowZero | index.js:161-164 | The player's flag stepping from (1,0) to an empty (0,0) wins for Player and keeps the turn |
| Rules.CapturingTheFlagDeclaresAI | index.js:188-191 | A non-flag piece attacking the AI flag declares AI the winner and leaves the board as it was |
| Engine.Game.constructor | index.js:51-64 | The new game is in setup with the player to move, a 30-second countdown and no selection; its board is the initial board dealt by the rolls |
| Engine.Game.PlacePieces | index.js:66-88 | Dealing one side writes the dealt board: for each kind in dealing order, a roll picks a cell and removes it from the available list |
| Engine.Game.Tick | index.js:22-32 | While the countdown runs, a tick at zero starts the game and any other tick takes one second off; after it is cleared, nothing changes |
| Engine.Game.RunSetupTimer | index.js:22-32 | Left alone, the countdown ends setup after timeLeft + 1 ticks (31 from a fresh game), stopping at 0 seconds left |
| Engine.Game.StartGame | index.js:34-41 | Setup ends and the countdown is cleared; nothing else changes, so a second call is a no-op |
| Engine.Game.DragStart | index.js:82-85 | Dragging a player piece selects it during setup and does nothing after |
| Engine.Game.Drop | index.js:90-99 | A drop moves the selected piece only in setup, onto an empty cell of rows 4-5; otherwise the board and the selection are unchanged; the piece count never changes |
| Engine.Game.Click | index.js:124-136 | On the player's turn in play, clicking a player piece selects it, and any other cell is a move of the selected piece as PlayerMove says; the board never changes onto a player piece's cell; in setup, after the game ends or on the AI's turn nothing changes; with nothing selected, a click on any other cell changes nothing, the winner included |
| Engine.Game.SelectPiece | index.js:138-142 | The clicked player piece becomes the selection |
| Engine.Game.MovePiece | index.js:144-170 | The board, winner, selection and turn become exactly PlayerMove's result; the piece count does not grow |
| Engine.Game.Step | index.js:157-158 | The selected piece moves onto the empty target and its old cell empties; no other cell changes; it stays selected |
| Engine.Game.Arbiter | index.js:172-209 | The board becomes the combat result for Arbitrate's verdict; the winner is set on a win; the selection is cleared when the attacker is removed |
| Engine.Game.DeclareWinner | index.js:250-253 | The winner is recorded and nothing else changes |
| Engine.Game.PossibleMoves | index.js:222-236 | The collected targets are exactly EmptyNeighbours: the empty in-bounds cells up, down, left and right, in that order |
| Engine.Game.AiMove | index.js:211-248 | If some AI piece has an empty neighbour, exactly one AI piece moves one step onto an empty cell and the turn passes to the player; otherwise the board is unchanged and the turn stays with the AI; the loop terminates and the piece count is kept |

## Left out

- Page rendering: building the cell elements, CSS classes (`selected`, `hidden`), piece labels, the status and timer texts, and the buttons' visibility. These are presentation only and change no rule.
- Event wiring: `dragover`'s `preventDefault` and the listener registration itself. Only each listener's guard conditions are modelled. A drop outside rows 4-5 has no listener, and the model treats it as a no-op.
- Scheduling by `setInterval` and `setTimeout`. A countdown firing is the explicit `Tick` call. The AI's delayed turn is an explicit `AiMove` call. `AiMove` requires what holds whenever its only caller schedules it before any win: the game has started, nobody has won, and the turn is the AI's. The calls scheduled after a win are described in the line on code that runs after a win, below.
- `Math.random`. Each draw is a `Roll` argument num/den with num < den, so `Pick` computes exactly `Math.floor(Math.random() * n)`. Floating-point rounding is not modelled. `AiMove` takes one roll per attempt plus one for the target. It requires more rolls than there are AI pieces, which is enough for every iteration.
- `alert` and `location.reload`. A declared winner is a terminal state in which every later event is ignored. The restart button is the same as constructing a new `Game`.
- Code that runs after a win until the page unloads. After `arbiter` declares a winner, the rest of `movePiece` still runs (index.js:161-168). If the attacking piece is a flag and the target is in row 0, it declares Player a second time and returns without touching `playerTurn`. Otherwise it sets `playerTurn` to false and schedules `aiMove`, which then runs on the finished game. The model stops at the first declaration.
- A selected piece removed in combat stays referenced as a detached element. The next move attempt with it fails on its missing parent cell before changing anything. The model clears the selection instead, which has the same effect on the game.
- `InsufficientCellsError`. The code has no such check. Each side's 12 home cells are always enough for its five pieces.
- Engine.Game.AiMove: the contract does not say which piece and which target the rolls select. It says only that the AI makes one legal step whenever one exists. The randomness is the source's and has no intended outcome.
