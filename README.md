# Falling-block kernel game: a Dafny model

This project models the game engine of a small i686 kernel that plays a falling-block puzzle
game directly on the VGA text screen, together with the terminal driver, pseudo-random
generator and keyboard decoding it relies on.

- `tetrominoes.dfy` (module `Tetrominoes`) holds the piece catalogue. It is the literal
  7 kinds × 4 rotations × 4×4 mask table, with lemmas about its shape: every mask holds only
  0 and 1, has exactly four set cells, and those cells form one orthogonally connected piece.
- `rules.dfy` (module `Rules`) holds the game rules as functions over values. The board is a
  sequence of 20 rows of 10 cells. It covers collision, settlement (`Place`), line clearing
  (`Cleared`), scoring (`ScoreDelta`), moves, the hard-drop resting place (`Landed`), spawning,
  and one iteration of the main loop (`Frame`) over a `Game` record. The lemmas state what the
  rules guarantee. The main one is the invariant `Inv`, which every frame keeps: cells stay in
  0..7, no row is left full, the piece in play fits, the score never decreases, and the timer
  stays below its period.
- `engine.dfy` (module `Kernel`) holds the class `Engine`. It keeps the board as a 20×10
  `array2`, plus the current piece, score, pause flag, game-over flag and gravity timer. Its
  methods are the kernel's loops, written in place: `check_collision`, `place_piece`,
  `clear_lines` with its row shifting, `move_piece`, `rotate_piece`, `drop_piece`,
  `spawn_piece`, and the body of `kernel_main`'s loop. Each method is proved to have the effect
  of the matching `Rules` function on the abstract `State()`.
- `tty.dfy` (module `Tty`) holds the terminal. `Terminal` has the 80×25 cell buffer as an
  ordinary array, the cursor and the colour. `Prng` is the 32-bit linear congruential `rand`.
  `KeyState` is the key-state record, and `Decode` is the per-scancode update of
  `keyboard_update`.

Frame input and randomness are explicit. `Engine.Frame` takes the key state that
`keyboard_update` produced and returns the key state the loop leaves behind. Random piece kinds
come from the `Prng` object that the engine holds. In the value model, its state is the `seed`
field of `Game`.

The infinite `while (1);` after a spawn collision is modelled as the terminal flag `over`. A
frame on a game that is over changes nothing (`Rules.GameOverIsFinal`). Like the source, the
model does not clear the pause key after using it. A held pause key therefore toggles the pause
flag on every frame (`Rules.HeldPauseToggles`).

Two behaviours of the code worth knowing:
- A spawn over two full top rows does not always end the game. The I kind in rotation 0 has its
  cells in mask row 1. At the spawn origin (3, -2) that is board row -1, which `check_collision`
  never compares with the board. So the I kind spawns without a collision over full top rows,
  while every other kind collides (`Rules.SpawnOverFullTopRows`).
- `clear_lines` does not re-check row y after shifting the rows above it down; it moves on to
  row y + 1. The result is still the packed board, because the row shifted into y was already
  checked. `Kernel.Engine.ClearLines` follows the code, and its postcondition is the packed board
  `Rules.Cleared`.

## Model

| member | source | states |
|---|---|---|
| Tetrominoes.TableShape | kernel/kernel/kernel.c:65-256 | the table has 7 kinds of 4 rotations of 4×4 masks, and every entry is 0 or 1 |
| Tetrominoes.Shapes | kernel/kernel/kernel.c:65-256 | the literal mask table, entry for entry |
| Tetrominoes.SpansEverySetCell | kernel/kernel/kernel.c:65-256 | the row-by-row covering check used for connectedness means that every set cell of the mask is reached |
| Tetrominoes.AllConnected | kernel/kernel/kernel.c:65-256 | every one of the 28 masks is one piece: from one of its set cells every set cell is reached through orthogonally adjacent set cells |
| Tetrominoes.FourCells | kernel/kernel/kernel.c:65-256 | every one of the 28 masks has exactly four set cells |
| Tetrominoes.OIsRotationInvariant | kernel/kernel/kernel.c:93-120 | the O kind's four rotation states are identical |
| Tetrominoes.SZHalfTurnSymmetric | kernel/kernel/kernel.c:202-255 | for S and Z, rotation 0 equals rotation 2 and rotation 1 equals rotation 3 |
| Tetrominoes.SomeCellFilled | kernel/kernel/kernel.c:65-256 | every mask has at least one set cell, which is what ends a hard drop |
| Tetrominoes.FirstRotationRows | kernel/kernel/kernel.c:65-256 | in rotation 0 the top and bottom mask rows are empty for every kind |
| Rules.Collides | kernel/kernel/kernel.c:310-322 | a piece collides when some set cell is beyond a wall or the floor, or lies on a nonzero board cell; cells above the board are checked against the side walls only, never against the board |
| Rules.EmptyBoard | kernel/kernel/kernel.c:475-477 | the zeroed board is 20×10 with all cells in 0..7 |
| Rules.OutsideAlwaysCollides | kernel/kernel/kernel.c:316 | a set cell left of column 0, right of column 9 or below row 19 collides whatever the board holds |
| Rules.EmptyBoardCollision | kernel/kernel/kernel.c:310-322 | on an empty board a piece collides iff some set cell is outside the walls or floor |
| Rules.CollisionReadsOnlyCovered | kernel/kernel/kernel.c:313-317 | the collision result depends only on the on-board cells the piece covers; rows above the board are never read |
| Rules.FitsAboveFloor | kernel/kernel/kernel.c:316 | a piece that does not collide has its origin above row 20 |
| Rules.Place | kernel/kernel/kernel.c:324-336 | settlement keeps the 20×10 shape of the board |
| Rules.PlaceKeepsBoardWellFormed | kernel/kernel/kernel.c:324-336 | settlement writes kind+1 into each covered on-board cell, leaves every other cell unchanged, and keeps cells in 0..7 |
| Rules.PlaceFillsOnlyEmptyCells | kernel/kernel/kernel.c:324-336 | a piece that fits covers only empty cells, so no settled cell is overwritten |
| Rules.CountFull | kernel/kernel/kernel.c:339-348 | `lines_cleared`: the number of full rows, never more than the rows scanned |
| Rules.Kept | kernel/kernel/kernel.c:340-358 | the rows that survive a clear: their number plus the number of full rows is the number of input rows |
| Rules.Cleared | kernel/kernel/kernel.c:338-360 | the cleared board has as many rows as the input (the empty rows on top plus the kept rows) |
| Rules.ClearedKeepsShape | kernel/kernel/kernel.c:338-360 | clearing keeps the 20×10 shape |
| Rules.KeptRows | kernel/kernel/kernel.c:340-348 | each kept row is an input row that is not full |
| Rules.ClearedSnoc | kernel/kernel/kernel.c:340-359 | one step of the top-down pass: a full row turns into an empty row on top, and any other row stays below the rows already processed |
| Rules.ClearedHasNoFullRow | kernel/kernel/kernel.c:338-360 | after a clear no row is full and all cells stay in 0..7 |
| Rules.ClearedWithoutFullRow | kernel/kernel/kernel.c:338-360 | a board with no full row is unchanged and counts zero cleared lines |
| Rules.ClearIsIdempotent | kernel/kernel/kernel.c:338-360 | clearing twice gives the same board as clearing once |
| Rules.ScoreDelta | kernel/kernel/kernel.c:361-365 | the points are zero exactly when no line was cleared |
| Rules.ScoreDeltaGrows | kernel/kernel/kernel.c:361-365 | points never fall as more lines are cleared, and each extra line up to four adds at least 100 |
| Rules.Moved | kernel/kernel/kernel.c:456-461 | all or nothing: the result is the old piece or the piece shifted by both offsets, never a partial move; it moves exactly when the target fits, a moved piece fits, and kind and rotation are kept |
| Rules.Rotated | kernel/kernel/kernel.c:448-453 | the result is the old piece or the one with rotation (r+1) mod 4; it turns exactly when that fits, a turned piece fits, and position and kind are kept |
| Rules.MovesKeepPieceFitting | kernel/kernel/kernel.c:448-461 | moves and rotations keep the kind and keep a fitting piece fitting |
| Rules.Landed | kernel/kernel/kernel.c:463-466 | the hard drop only lowers the piece, every row it passes fits, and it stops where the next row collides; termination is proved |
| Rules.LandedFits | kernel/kernel/kernel.c:463-466 | a fitting piece still fits where the drop leaves it |
| Rules.Spawn | kernel/kernel/kernel.c:368-373 | the new piece is kind rand() mod 7 at rotation 0 and origin (3, -2); the game is over iff it collides there; board and score are untouched |
| Rules.Settle | kernel/kernel/kernel.c:467-469 | place, clear and spawn: the board becomes `Cleared` of the board with the piece placed, the score grows by the points for its full rows, pause flag and timer are kept, a new piece stands at the spawn point in rotation 0, and the game is over iff it collides there |
| Rules.HardDrop | kernel/kernel/kernel.c:463-470 | `drop_piece`: the score never falls, pause flag and timer are kept, and the game is over iff the new piece collides |
| Rules.Gravity | kernel/kernel/kernel.c:514-521 | when the row below fits, the piece falls exactly one row and nothing else changes; otherwise the step is exactly `Settle`: the piece is placed, full rows are cleared and a new piece spawns |
| Rules.Tick | kernel/kernel/kernel.c:512-522 | below 30 the timer counts up by one and nothing else changes; when it reaches 30 it resets to 0 and gravity applies: the piece falls one row with nothing else changed if that fits, otherwise the step is `Settle` with the timer reset; the timer stays in 0..29 and the score never falls |
| Rules.Frame | kernel/kernel/kernel.c:484-523 | one loop iteration keeps the state well shaped, never lowers the score, and never clears the pause key |
| Rules.Start | kernel/kernel/kernel.c:473-481 | before the loop: empty board, score 0, not paused, timer 0, one draw from the generator |
| Rules.Inv | kernel/kernel/kernel.c:484-523 | the loop invariant: cells in 0..7, no full row, the piece fits unless the game is over, score and seed in range, timer in 0..29 |
| Rules.Steer | kernel/kernel/kernel.c:491-506 | key actions change only the current piece |
| Rules.SpawnCellsOnBoard | kernel/kernel/kernel.c:368-372 | a rotation-0 piece at the spawn point covers only mask rows 1..2 |
| Rules.StartIsRunning | kernel/kernel/kernel.c:473-481 | the state before the loop satisfies the invariant and is not over |
| Rules.SettleKeepsInv | kernel/kernel/kernel.c:467-469 | place, clear and spawn keep the invariant and never lower the score |
| Rules.TickKeepsInv | kernel/kernel/kernel.c:512-522 | the gravity timer step keeps the invariant and never lowers the score |
| Rules.SteerKeepsInv | kernel/kernel/kernel.c:491-506 | key actions keep the invariant |
| Rules.FrameKeepsInv | kernel/kernel/kernel.c:484-523 | every frame keeps the invariant and the score never decreases |
| Rules.GameOverIsFinal | kernel/kernel/kernel.c:373-390 | once the game is over a frame changes nothing |
| Rules.PausedFrameOnlyTogglesPause | kernel/kernel/kernel.c:487-489 | a frame that ends paused changes only the pause flag and consumes no key |
| Rules.HeldPauseToggles | kernel/kernel/kernel.c:487 | with the pause key held, every frame of a running game flips the pause flag and leaves the key set |
| Rules.IdleFrameOnlyTicks | kernel/kernel/kernel.c:484-522 | with no key held, a running frame is exactly the gravity timer step and leaves no key set |
| Rules.RunningFrameConsumesKeys | kernel/kernel/kernel.c:489-511 | a running frame that does not end the game clears the five action keys and never the pause key |
| Rules.IRotation0Cells | kernel/kernel/kernel.c:68-73 | I in rotation 0 occupies exactly mask row 1 |
| Rules.LandedAt | kernel/kernel/kernel.c:463-466 | the drop stops at the first row whose next row collides |
| Rules.ILandsOnFloor | kernel/kernel/kernel.c:463-466 | on an empty board the spawned I piece falls to origin row 18 |
| Rules.IPlacedOnFloor | kernel/kernel/kernel.c:324-336 | settling it fills columns 3..6 of row 19 and leaves no full row |
| Rules.DropIOnEmptyBoard | kernel/kernel/kernel.c:463-470 | the hard drop of the I piece on an empty board settles along the bottom row and scores nothing |
| Rules.SpawnOverFullTopRows | kernel/kernel/kernel.c:368-373 | with the two top rows full, I spawns without collision while every other kind collides |
| Kernel.Engine.constructor | kernel/kernel/kernel.c:472-481 | set-up reaches `Rules.Start`: empty board, score 0, not paused, first piece spawned |
| Kernel.Engine.ClearBoard | kernel/kernel/kernel.c:475-477 | the nested loop leaves the empty board |
| Kernel.Engine.CheckCollision | kernel/kernel/kernel.c:310-322 | the nested loop with early returns answers exactly `Collides` on the board array |
| Kernel.Engine.PlacePiece | kernel/kernel/kernel.c:324-336 | the board array becomes `Place` of the old board and the current piece |
| Kernel.Engine.ShiftDown | kernel/kernel/kernel.c:350-358 | rows 0..y-1 move down one row, row 0 is emptied, rows below y are unchanged |
| Kernel.Engine.ClearLines | kernel/kernel/kernel.c:338-366 | the board becomes `Cleared` of the old board and the score grows by the points for the number of full rows |
| Kernel.Engine.Spawn | kernel/kernel/kernel.c:368-392 | the state becomes `Rules.Spawn` of the old state, drawing the kind from the generator |
| Kernel.Engine.RotatePiece | kernel/kernel/kernel.c:448-453 | the piece becomes `Rotated`; nothing else changes |
| Kernel.Engine.MovePiece | kernel/kernel/kernel.c:456-461 | the piece becomes `Moved`; nothing else changes |
| Kernel.Engine.Settle | kernel/kernel/kernel.c:467-469 | place, clear and spawn in that order give `Rules.Settle` |
| Kernel.Engine.DropPiece | kernel/kernel/kernel.c:463-470 | the falling loop ends at `Landed` and the whole drop gives `HardDrop` |
| Kernel.Engine.Steer | kernel/kernel/kernel.c:491-506 | the four key actions in the loop's order give `Rules.Steer` |
| Kernel.Engine.Tick | kernel/kernel/kernel.c:512-522 | the timer counts to 30, then resets and moves the piece down one row or settles it |
| Kernel.Engine.Frame | kernel/kernel/kernel.c:484-523 | one loop iteration gives `Rules.Frame`: the new state and the key state left behind |
| Tty.IndexInjective | kernel/arch/i386/tty.c:35-39 | on-screen cells have distinct buffer indices y*80+x, all below 2000 |
| Tty.AfterPutEntryAt | kernel/arch/i386/tty.c:35-39 | off-screen coordinates change nothing; otherwise only index y*80+x is written |
| Tty.AfterPutChar | kernel/arch/i386/tty.c:41-53 | `terminal_putchar` keeps the buffer size and the colour, and keeps an on-screen cursor on screen |
| Tty.NewlineMovesOnly | kernel/arch/i386/tty.c:42-46 | a newline writes no cell, sets the column to 0 and advances the row with wrap from 24 to 0 |
| Tty.PutCharAdvances | kernel/arch/i386/tty.c:47-53 | another byte is written at the cursor in the current colour; the cursor moves to the next cell, wrapping from the last to the first, and stays on screen |
| Tty.AfterWrite | kernel/arch/i386/tty.c:55-58 | writing keeps the buffer at 2000 cells |
| Tty.WriteKeepsCursorOnScreen | kernel/arch/i386/tty.c:55-58 | writing keeps the cursor on screen and the colour unchanged |
| Tty.WriteAppend | kernel/arch/i386/tty.c:55-58 | writing a concatenation is writing its two parts in turn |
| Tty.SetColorThenPutChar | kernel/arch/i386/tty.c:31-48 | after a colour change the next ordinary character is drawn in that colour |
| Tty.Terminal.constructor | kernel/arch/i386/tty.c:13-16 | before initialisation the cursor and colour are zero |
| Tty.Terminal.Initialize | kernel/arch/i386/tty.c:18-29 | cursor (0, 0), default colour, and all 2000 cells a blank in that colour; the cursor invariant holds |
| Tty.Terminal.SetColor | kernel/arch/i386/tty.c:31-33 | only the colour changes |
| Tty.Terminal.PutEntryAt | kernel/arch/i386/tty.c:35-39 | the buffer becomes `AfterPutEntryAt` of the old buffer |
| Tty.Terminal.PutChar | kernel/arch/i386/tty.c:41-53 | the terminal becomes `AfterPutChar` of its old view, and the cursor stays on screen |
| Tty.Terminal.Write | kernel/arch/i386/tty.c:55-58 | the loop has the effect of `AfterWrite`, one `terminal_putchar` per byte in order, and the cursor stays on screen |
| Tty.NextState | kernel/arch/i386/tty.c:110 | the new state (state·1103515245 + 12345) mod 2^32 is a 32-bit value |
| Tty.Output | kernel/arch/i386/tty.c:111 | the value `rand` returns is below 32768 |
| Tty.OutputIsBits16To30 | kernel/arch/i386/tty.c:111 | the output is bits 16..30 of the state, so it is below 32768 |
| Tty.Prng.constructor | kernel/arch/i386/tty.c:108 | the seed starts at 123456789 |
| Tty.Prng.Rand | kernel/arch/i386/tty.c:108-112 | the state advances by `NextState` and the result is `Output` of the new state, below 32768 |
| Tty.Decode | kernel/arch/i386/tty.c:87-99 | an unrecognised code changes nothing; any scancode changes at most one field |
| Tty.DecodeSetsOwnKey | kernel/arch/i386/tty.c:88-99 | a recognised scancode sets its own key to pressed (bit 7 clear) or released (bit 7 set) and no other key |
| Tty.LastEventWins | kernel/arch/i386/tty.c:88-99 | of two scancodes for the same key only the later one matters |
| Tty.DifferentKeysCommute | kernel/arch/i386/tty.c:91-99 | scancodes for different keys can be applied in either order |

## Left out

- Rendering is not modelled, because it only draws and changes no game state. This covers `draw_cell`, `draw_border`, `draw_board`, `draw_current_piece`, `clear_current_piece`, `draw_score`, `draw_menu` and the Game Over text. The colour table `tetromino_colors` is kept as data only.
- The menu state (`GameState`, `menu_selected`, `menu_items`) is not modelled, because the loop never reads it.
- The halt `while (1);` is modelled as the terminal flag `over`, not as divergence.
- The port reads in `keyboard_update` (status port 0x64, data port 0x60) and its draining loop are hardware I/O. Only the per-byte decoding is modelled (`Tty.Decode`).
- `sleep` is a busy-wait with no effect on state, so it is not modelled.
- The buffer's physical address 0xB8000 is not modelled. The buffer is an ordinary array.
- vga.h, which defines `vga_entry` and `vga_entry_color`, is not part of this model. A buffer cell is kept as the pair (glyph, colour) it is built from. The light-grey-on-black colour byte is a constructor parameter of `Terminal`.
- `terminal_writestring` is not modelled separately. It is `terminal_write` over the bytes before a NUL, and strings here are byte sequences (`seq<Byte>`). Characters are unsigned bytes, as `terminal_putchar` converts them.
- Kernel.Engine.ClearLines: the score is an unbounded integer. The C `int` would overflow after about 1.4 million maximal clears, and that wrap-around is not modelled.
- Kernel.Engine.Frame: the four movement keys are cleared together after `Steer`, instead of each one after its own action. The resulting key state is the same.
