// The game rules of kernel/kernel/kernel.c as functions over values: the board as a sequence of
// rows, the falling piece, collision, settlement, line clearing, scoring, spawning and one
// iteration of the main loop. The class in engine.dfy runs the same steps in place and is proved
// against these functions; the lemmas here state what the rules guarantee.

module Rules {
  import opened Tetrominoes
  import Tty

  const Width := 10
  const Height := 20
  const SpawnX := 3
  const SpawnY := -2
  const DropDelay := 30

  /** board[row][column]: 0 is empty, k + 1 a settled cell of kind k. */
  type Board = seq<seq<int>>

  predicate Shaped(b: Board)
  {
    |b| == Height && forall r :: 0 <= r < Height ==> |b[r]| == Width
  }

  predicate WellFormed(b: Board)
  {
    Shaped(b) && forall r, c :: 0 <= r < Height && 0 <= c < Width ==> 0 <= b[r][c] <= Kinds
  }

  function EmptyRow(): (row: seq<int>)
    ensures |row| == Width
  {
    seq(Width, _ => 0)
  }

  function EmptyBoard(): (b: Board)
    ensures WellFormed(b)
  {
    seq(Height, _ => EmptyRow())
  }

  /** The falling piece: origin (top-left corner of its 4x4 mask), kind and rotation. */
  datatype Piece = Piece(x: int, y: int, kind: int, rot: int)

  predicate ValidPiece(p: Piece)
  {
    ValidKind(p.kind) && ValidRotation(p.rot)
  }

  // ---------------------------------------------------------------------------------------
  // Collision

  /** Mask cell (py, px) of p is set and lands on a side wall, below the floor, or on a settled
      cell. Rows above the board are checked against the walls only. */
  predicate Blocked(b: Board, p: Piece, py: int, px: int)
    requires Shaped(b) && ValidPiece(p)
  {
    Filled(p.kind, p.rot, py, px) &&
    (p.x + px < 0 || p.x + px >= Width || p.y + py >= Height ||
     (p.y + py >= 0 && b[p.y + py][p.x + px] != 0))
  }

  /** check_collision */
  predicate Collides(b: Board, p: Piece)
    requires Shaped(b) && ValidPiece(p)
  {
    exists py, px :: 0 <= py < MaskSize && 0 <= px < MaskSize && Blocked(b, p, py, px)
  }

  /** Does a set mask cell of p cover board cell (r, c)? */
  predicate Covers(p: Piece, r: int, c: int)
    requires ValidPiece(p)
  {
    Filled(p.kind, p.rot, r - p.y, c - p.x)
  }

  /** A set cell beside the walls or below the floor collides whatever the board holds. */
  lemma OutsideAlwaysCollides(b: Board, p: Piece, py: int, px: int)
    requires Shaped(b) && ValidPiece(p) && Filled(p.kind, p.rot, py, px)
    requires p.x + px < 0 || p.x + px >= Width || p.y + py >= Height
    ensures Collides(b, p)
  {
    assert Blocked(b, p, py, px);
  }

  /** On an empty board a piece collides exactly when a set cell is outside the walls or floor. */
  lemma EmptyBoardCollision(p: Piece)
    requires ValidPiece(p)
    ensures Collides(EmptyBoard(), p) <==>
      exists py, px :: Filled(p.kind, p.rot, py, px) &&
        (p.x + px < 0 || p.x + px >= Width || p.y + py >= Height)
  {
    var b := EmptyBoard();
    if Collides(b, p) {
      var py, px :| 0 <= py < MaskSize && 0 <= px < MaskSize && Blocked(b, p, py, px);
      assert Filled(p.kind, p.rot, py, px);
    }
    if exists py, px :: Filled(p.kind, p.rot, py, px) &&
        (p.x + px < 0 || p.x + px >= Width || p.y + py >= Height) {
      var py, px :| Filled(p.kind, p.rot, py, px) &&
        (p.x + px < 0 || p.x + px >= Width || p.y + py >= Height);
      OutsideAlwaysCollides(b, p, py, px);
    }
  }

  /** Collision reads only the board cells the piece covers: cells above the board and cells
      outside the mask never matter. */
  lemma CollisionReadsOnlyCovered(b1: Board, b2: Board, p: Piece)
    requires Shaped(b1) && Shaped(b2) && ValidPiece(p)
    requires forall r, c :: 0 <= r < Height && 0 <= c < Width && Covers(p, r, c) ==> b1[r][c] == b2[r][c]
    ensures Collides(b1, p) == Collides(b2, p)
  {
    if Collides(b1, p) {
      var py, px :| 0 <= py < MaskSize && 0 <= px < MaskSize && Blocked(b1, p, py, px);
      assert Blocked(b2, p, py, px);
    }
    if Collides(b2, p) {
      var py, px :| 0 <= py < MaskSize && 0 <= px < MaskSize && Blocked(b2, p, py, px);
      assert Blocked(b1, p, py, px);
    }
  }

  /** A piece that fits has its origin above the floor row, since every mask has a set cell. */
  lemma FitsAboveFloor(b: Board, p: Piece)
    requires Shaped(b) && ValidPiece(p) && !Collides(b, p)
    ensures p.y < Height
  {
    var py, px := SomeCellFilled(p.kind, p.rot);
    if p.y >= Height {
      assert Blocked(b, p, py, px);
    }
  }

  // ---------------------------------------------------------------------------------------
  // Settlement

  /** place_piece: kind + 1 written into every on-board cell a set mask cell covers; covered
      cells above the board are dropped. */
  function Place(b: Board, p: Piece): (r: Board)
    requires Shaped(b) && ValidPiece(p)
    ensures Shaped(r)
  {
    seq(Height, row requires 0 <= row < Height =>
      seq(Width, col requires 0 <= col < Width =>
        if Covers(p, row, col) then p.kind + 1 else b[row][col]))
  }

  /** Settlement keeps every cell in 0..7, writes the kind's code into each covered on-board cell,
      and leaves every other cell as it was. */
  lemma PlaceKeepsBoardWellFormed(b: Board, p: Piece)
    requires WellFormed(b) && ValidPiece(p)
    ensures WellFormed(Place(b, p))
    ensures forall py, px ::
              (Filled(p.kind, p.rot, py, px) && 0 <= p.y + py < Height && 0 <= p.x + px < Width) ==>
              Place(b, p)[p.y + py][p.x + px] == p.kind + 1
    ensures forall r, c :: 0 <= r < Height && 0 <= c < Width && !Covers(p, r, c) ==>
              Place(b, p)[r][c] == b[r][c]
  {
  }

  /** A piece that fits is settled onto empty cells only: no settled cell is overwritten. */
  lemma PlaceFillsOnlyEmptyCells(b: Board, p: Piece)
    requires Shaped(b) && ValidPiece(p) && !Collides(b, p)
    ensures forall r, c :: 0 <= r < Height && 0 <= c < Width && Covers(p, r, c) ==> b[r][c] == 0
    ensures forall r, c :: 0 <= r < Height && 0 <= c < Width && b[r][c] != 0 ==>
              Place(b, p)[r][c] == b[r][c]
  {
    forall r, c | 0 <= r < Height && 0 <= c < Width && Covers(p, r, c)
      ensures b[r][c] == 0
    {
      if b[r][c] != 0 {
        assert Blocked(b, p, r - p.y, c - p.x);
      }
    }
  }

  // ---------------------------------------------------------------------------------------
  // Line clearing and scoring

  predicate Full(row: seq<int>)
  {
    forall c :: 0 <= c < |row| ==> row[c] != 0
  }

  predicate NoFullRow(rows: seq<seq<int>>)
  {
    forall r :: 0 <= r < |rows| ==> !Full(rows[r])
  }

  /** Number of full rows. */
  function CountFull(rows: seq<seq<int>>): (n: nat)
    ensures n <= |rows|
  {
    if rows == [] then 0
    else CountFull(rows[..|rows| - 1]) + (if Full(rows[|rows| - 1]) then 1 else 0)
  }

  /** The rows that are not full, in their original order. */
  function Kept(rows: seq<seq<int>>): (k: seq<seq<int>>)
    ensures |k| + CountFull(rows) == |rows|
  {
    if rows == [] then []
    else if Full(rows[|rows| - 1]) then Kept(rows[..|rows| - 1])
    else Kept(rows[..|rows| - 1]) + [rows[|rows| - 1]]
  }

  function ZeroRows(n: nat): (z: seq<seq<int>>)
    ensures |z| == n
  {
    seq(n, _ => EmptyRow())
  }

  /** The board clear_lines leaves: one empty row on top for every full row, then the other rows
      packed to the bottom in their original order. */
  function Cleared(rows: seq<seq<int>>): (r: seq<seq<int>>)
    ensures |r| == |rows|
  {
    ZeroRows(CountFull(rows)) + Kept(rows)
  }

  /** Clearing keeps the board's shape. */
  lemma ClearedKeepsShape(b: Board)
    requires Shaped(b)
    ensures Shaped(Cleared(b))
  {
    KeptRows(b);
    var z := ZeroRows(CountFull(b));
    forall i | 0 <= i < Height ensures |Cleared(b)[i]| == Width {
      if i >= |z| {
        assert Cleared(b)[i] == Kept(b)[i - |z|];
      }
    }
  }

  /** Every row Kept returns is a row of the input that is not full. */
  lemma {:induction false} KeptRows(rows: seq<seq<int>>)
    ensures forall i :: 0 <= i < |Kept(rows)| ==> Kept(rows)[i] in rows && !Full(Kept(rows)[i])
  {
    if rows != [] {
      KeptRows(rows[..|rows| - 1]);
    }
  }

  /** Processing one more row from the top: clear_lines' outer loop step. A full row becomes an
      empty row on top; any other row goes below the rows already processed. */
  lemma ClearedSnoc(rows: seq<seq<int>>, row: seq<int>)
    ensures Full(row) ==> Cleared(rows + [row]) == [EmptyRow()] + Cleared(rows)
    ensures !Full(row) ==> Cleared(rows + [row]) == Cleared(rows) + [row]
  {
    var all := rows + [row];
    assert all[..|all| - 1] == rows;
    if Full(row) {
      assert ZeroRows(CountFull(rows) + 1) == [EmptyRow()] + ZeroRows(CountFull(rows));
    }
  }

  /** After a clear no row is full, the board keeps its shape, and cells stay in 0..7. */
  lemma ClearedHasNoFullRow(b: Board)
    requires WellFormed(b)
    ensures WellFormed(Cleared(b)) && NoFullRow(Cleared(b))
  {
    KeptRows(b);
    var z := ZeroRows(CountFull(b));
    forall i | 0 <= i < Height
      ensures |Cleared(b)[i]| == Width && !Full(Cleared(b)[i])
      ensures forall c :: 0 <= c < Width ==> 0 <= Cleared(b)[i][c] <= Kinds
    {
      if i < |z| {
        assert Cleared(b)[i] == EmptyRow();
        assert !Full(EmptyRow()) by { assert EmptyRow()[0] == 0; }
      } else {
        assert Cleared(b)[i] == Kept(b)[i - |z|];
      }
    }
  }

  /** A board with no full row is left as it is. */
  lemma {:induction false} ClearedWithoutFullRow(rows: seq<seq<int>>)
    requires NoFullRow(rows)
    ensures CountFull(rows) == 0 && Cleared(rows) == rows
  {
    if rows != [] {
      ClearedWithoutFullRow(rows[..|rows| - 1]);
      assert rows[..|rows| - 1] + [rows[|rows| - 1]] == rows;
    }
  }

  /** Clearing twice is clearing once. */
  lemma ClearIsIdempotent(b: Board)
    requires WellFormed(b)
    ensures Cleared(Cleared(b)) == Cleared(b)
  {
    ClearedHasNoFullRow(b);
    ClearedWithoutFullRow(Cleared(b));
  }

  /** The points one clear_lines call adds for the number of rows it removed. */
  function ScoreDelta(lines: nat): (d: nat)
    ensures d == 0 <==> lines == 0
  {
    if lines == 1 then 100
    else if lines == 2 then 300
    else if lines == 3 then 700
    else if lines >= 4 then 1500
    else 0
  }

  /** Clearing more rows at once never earns fewer points, and each further row up to four is
      worth more than the one before. */
  lemma ScoreDeltaGrows(m: nat, n: nat)
    requires m <= n
    ensures ScoreDelta(m) <= ScoreDelta(n)
    ensures m < n <= 4 ==> ScoreDelta(n) - ScoreDelta(m) >= 100 * (n - m)
  {
  }

  // ---------------------------------------------------------------------------------------
  // Moves

  function Shifted(p: Piece, dx: int, dy: int): Piece
  {
    p.(x := p.x + dx, y := p.y + dy)
  }

  /** move_piece: both offsets applied when the target fits, otherwise no change at all. */
  function Moved(b: Board, p: Piece, dx: int, dy: int): (q: Piece)
    requires Shaped(b) && ValidPiece(p)
    ensures ValidPiece(q) && q.kind == p.kind && q.rot == p.rot
    ensures q == p || q == Shifted(p, dx, dy)
    ensures q != p ==> !Collides(b, q)
    ensures Collides(b, Shifted(p, dx, dy)) ==> q == p
    ensures !Collides(b, Shifted(p, dx, dy)) ==> q == Shifted(p, dx, dy)
  {
    var target := Shifted(p, dx, dy);
    if Collides(b, target) then p else target
  }

  function Turned(p: Piece): Piece
  {
    p.(rot := (p.rot + 1) % Rotations)
  }

  /** rotate_piece: the next rotation state if it fits in place, otherwise no change. */
  function Rotated(b: Board, p: Piece): (q: Piece)
    requires Shaped(b) && ValidPiece(p)
    ensures ValidPiece(q) && q.x == p.x && q.y == p.y && q.kind == p.kind
    ensures q == p || q.rot == (p.rot + 1) % Rotations
    ensures q != p ==> !Collides(b, q)
    ensures Collides(b, Turned(p)) ==> q == p
    ensures !Collides(b, Turned(p)) ==> q == Turned(p)
  {
    var target := Turned(p);
    if Collides(b, target) then p else target
  }

  /** Moves and rotations keep the kind and keep a piece that fits fitting. */
  lemma MovesKeepPieceFitting(b: Board, p: Piece, dx: int, dy: int)
    requires Shaped(b) && ValidPiece(p) && !Collides(b, p)
    ensures ValidPiece(Moved(b, p, dx, dy)) && !Collides(b, Moved(b, p, dx, dy))
    ensures ValidPiece(Rotated(b, p)) && !Collides(b, Rotated(b, p))
    ensures Moved(b, p, dx, dy).kind == p.kind && Moved(b, p, dx, dy).rot == p.rot
  {
  }

  function Below(p: Piece): Piece
  {
    p.(y := p.y + 1)
  }

  /** The resting place of a hard drop: the piece moved down while the row below is free. The
      loop always stops, because a set cell of every mask reaches the floor. */
  function Landed(b: Board, p: Piece): (q: Piece)
    requires Shaped(b) && ValidPiece(p)
    ensures q.x == p.x && q.kind == p.kind && q.rot == p.rot && q.y >= p.y
    ensures Collides(b, Below(q))
    ensures forall y :: p.y < y <= q.y ==> !Collides(b, p.(y := y))
    decreases Height - p.y
  {
    if Collides(b, Below(p)) then p
    else
      FitsAboveFloor(b, Below(p));
      Landed(b, Below(p))
  }

  /** A piece that fits still fits where a hard drop leaves it. */
  lemma LandedFits(b: Board, p: Piece)
    requires Shaped(b) && ValidPiece(p) && !Collides(b, p)
    ensures !Collides(b, Landed(b, p))
  {
    var q := Landed(b, p);
    assert q == p.(y := q.y);
  }

  // ---------------------------------------------------------------------------------------
  // The game state and one frame of the main loop

  /** Everything the main loop keeps between frames; `seed` is rand_state and `over` records that
      spawn_piece halted the machine. */
  datatype Game = Game(board: Board, cur: Piece, score: int, paused: bool, over: bool,
                       timer: int, seed: int)

  predicate Consistent(g: Game)
  {
    Shaped(g.board) && ValidPiece(g.cur)
  }

  /** spawn_piece: the next kind from rand(), rotation 0, origin (3, -2); the game is over when
      that piece collides at once. */
  function Spawn(g: Game): (h: Game)
    requires Shaped(g.board)
    ensures Consistent(h) && h.board == g.board && h.score == g.score && h.timer == g.timer
    ensures h.cur.x == SpawnX && h.cur.y == SpawnY && h.cur.rot == 0
    ensures h.seed == Tty.NextState(g.seed) && h.cur.kind == Tty.Output(h.seed) % Kinds
    ensures h.over <==> Collides(g.board, h.cur)
  {
    var seed := Tty.NextState(g.seed);
    var p := Piece(SpawnX, SpawnY, Tty.Output(seed) % Kinds, 0);
    g.(cur := p, seed := seed, over := Collides(g.board, p))
  }

  /** place_piece, clear_lines (with its score update) and spawn_piece, in that order. */
  function Settle(g: Game): (h: Game)
    requires Consistent(g)
    ensures Consistent(h) && h.score >= g.score && h.paused == g.paused && h.timer == g.timer
    ensures h.cur.x == SpawnX && h.cur.y == SpawnY && h.cur.rot == 0 && h.seed == Tty.NextState(g.seed)
    ensures h.over <==> Collides(h.board, h.cur)
    ensures h.board == Cleared(Place(g.board, g.cur))
    ensures h.score == g.score + ScoreDelta(CountFull(Place(g.board, g.cur)))
  {
    var placed := Place(g.board, g.cur);
    ClearedKeepsShape(placed);
    Spawn(g.(board := Cleared(placed), score := g.score + ScoreDelta(CountFull(placed))))
  }

  /** drop_piece */
  function HardDrop(g: Game): (h: Game)
    requires Consistent(g)
    ensures Consistent(h) && h.score >= g.score && h.paused == g.paused && h.timer == g.timer
    ensures h.over <==> Collides(h.board, h.cur)
  {
    Settle(g.(cur := Landed(g.board, g.cur)))
  }

  /** The gravity tick: one row down if that fits, otherwise settle the piece. */
  function Gravity(g: Game): (h: Game)
    requires Consistent(g)
    ensures Consistent(h) && h.score >= g.score && h.paused == g.paused && h.timer == g.timer
    ensures h.board != g.board ==> Collides(g.board, Below(g.cur))
    ensures !Collides(g.board, Below(g.cur)) ==> h == g.(cur := Below(g.cur))
    ensures Collides(g.board, Below(g.cur)) ==> h == Settle(g)
    ensures Collides(g.board, Below(g.cur)) ==>
              h.cur.x == SpawnX && h.cur.y == SpawnY && h.cur.rot == 0 && h.seed == Tty.NextState(g.seed)
  {
    if !Collides(g.board, Below(g.cur)) then g.(cur := Below(g.cur)) else Settle(g)
  }

  /** The key actions of a running frame, in the loop's order: left, right, down, rotate. */
  function Steer(g: Game, k: Tty.KeyState): (h: Game)
    requires Consistent(g)
    ensures Consistent(h) && h == g.(cur := h.cur)
  {
    var g1 := if k.a then g.(cur := Moved(g.board, g.cur, -1, 0)) else g;
    var g2 := if k.d then g1.(cur := Moved(g1.board, g1.cur, 1, 0)) else g1;
    var g3 := if k.s then g2.(cur := Moved(g2.board, g2.cur, 0, 1)) else g2;
    if k.w then g3.(cur := Rotated(g3.board, g3.cur)) else g3
  }

  /** The gravity timer step: count the frame, and every DropDelay frames reset and tick. */
  function Tick(g: Game): (h: Game)
    requires Consistent(g)
    ensures Consistent(h) && h.score >= g.score && h.paused == g.paused
    ensures 0 <= g.timer < DropDelay ==> 0 <= h.timer < DropDelay
    ensures h.board != g.board ==> g.timer + 1 >= DropDelay
    ensures g.timer + 1 < DropDelay ==> h == g.(timer := g.timer + 1)
    ensures g.timer + 1 >= DropDelay ==> h.timer == 0
    ensures g.timer + 1 >= DropDelay && !Collides(g.board, Below(g.cur)) ==>
              h == g.(timer := 0, cur := Below(g.cur))
    ensures g.timer + 1 >= DropDelay && Collides(g.board, Below(g.cur)) ==> h == Settle(g.(timer := 0))
  {
    if g.timer + 1 >= DropDelay then Gravity(g.(timer := 0)) else g.(timer := g.timer + 1)
  }

  /** One iteration of kernel_main's loop, from the key state keyboard_update produced: the new
      game and the key state the loop leaves behind (consumed action keys cleared). A halted
      game does nothing. */
  function Frame(g: Game, k: Tty.KeyState): (r: (Game, Tty.KeyState))
    requires Consistent(g)
    ensures Consistent(r.0) && r.0.score >= g.score && r.1.p == k.p
  {
    if g.over then (g, k)
    else
      var g0 := g.(paused := if k.p then !g.paused else g.paused);
      if g0.paused then (g0, k)
      else
        var g1 := Steer(g0, k);
        var k1 := k.(a := false, d := false, s := false, w := false);
        if !k.space then (Tick(g1), k1)
        else
          var g2 := HardDrop(g1);
          if g2.over then (g2, k1)
          else (Tick(g2), k1.(space := false))
  }

  /** The state kernel_main reaches before its loop: empty board, score 0, a piece spawned. */
  function Start(seed: int): (h: Game)
    ensures Consistent(h) && h.board == EmptyBoard() && h.score == 0 && !h.paused && h.timer == 0
    ensures h.seed == Tty.NextState(seed)
  {
    Spawn(Game(EmptyBoard(), Piece(0, 0, 0, 0), 0, false, false, 0, seed))
  }

  // ---------------------------------------------------------------------------------------
  // What the rules guarantee

  /** The invariant the main loop keeps: cells in 0..7, no full row, a valid piece that fits
      while the game runs, a non-negative score, the timer below its period, a 32-bit seed. */
  predicate Inv(g: Game)
  {
    WellFormed(g.board) && NoFullRow(g.board) && ValidPiece(g.cur) &&
    (!g.over ==> !Collides(g.board, g.cur)) &&
    g.score >= 0 && 0 <= g.timer < DropDelay && Tty.IsUInt32(g.seed)
  }

  /** The first piece always fits on the empty board, so the game starts running. */
  lemma StartIsRunning(seed: int)
    requires Tty.IsUInt32(seed)
    ensures Inv(Start(seed)) && !Start(seed).over
  {
    var g := Start(seed);
    var b := EmptyBoard();
    forall py, px | 0 <= py < MaskSize && 0 <= px < MaskSize
      ensures !Blocked(b, g.cur, py, px)
    {
      if Filled(g.cur.kind, 0, py, px) {
        SpawnCellsOnBoard(g.cur.kind, py, px);
      }
    }
    assert NoFullRow(b) by {
      forall r | 0 <= r < Height ensures !Full(b[r]) { assert b[r][0] == 0; }
    }
  }

  /** In rotation 0 every set cell lies in mask rows 1..2, so a piece spawned at (3, -2) is
      inside the walls and reaches at most board row 0. */
  lemma SpawnCellsOnBoard(kind: int, py: int, px: int)
    requires ValidKind(kind) && Filled(kind, 0, py, px)
    ensures 1 <= py <= 2 && 0 <= px < MaskSize
  {
    FirstRotationRows();
  }

  /** Settling keeps the invariant; the new piece fits unless the game is over. */
  lemma SettleKeepsInv(g: Game)
    requires WellFormed(g.board) && ValidPiece(g.cur) && g.score >= 0 && 0 <= g.timer < DropDelay
    ensures Inv(Settle(g))
    ensures Settle(g).score >= g.score
  {
    var placed := Place(g.board, g.cur);
    PlaceKeepsBoardWellFormed(g.board, g.cur);
    ClearedHasNoFullRow(placed);
  }

  /** The gravity timer step keeps the invariant and never lowers the score. */
  lemma TickKeepsInv(g: Game)
    requires Inv(g) && !g.over
    ensures Inv(Tick(g)) && Tick(g).score >= g.score
  {
    if g.timer + 1 >= DropDelay {
      var h := g.(timer := 0);
      if Collides(h.board, Below(h.cur)) {
        SettleKeepsInv(h);
      }
    }
  }

  /** Key actions keep the invariant and change only the piece. */
  lemma SteerKeepsInv(g: Game, k: Tty.KeyState)
    requires Inv(g) && !g.over
    ensures Inv(Steer(g, k)) && !Steer(g, k).over
  {
    var g1 := if k.a then g.(cur := Moved(g.board, g.cur, -1, 0)) else g;
    MovesKeepPieceFitting(g.board, g.cur, -1, 0);
    var g2 := if k.d then g1.(cur := Moved(g1.board, g1.cur, 1, 0)) else g1;
    MovesKeepPieceFitting(g1.board, g1.cur, 1, 0);
    var g3 := if k.s then g2.(cur := Moved(g2.board, g2.cur, 0, 1)) else g2;
    MovesKeepPieceFitting(g2.board, g2.cur, 0, 1);
    MovesKeepPieceFitting(g3.board, g3.cur, 0, 0);
  }

  /** Every frame keeps the invariant: cells stay in 0..7, no row is left full, the piece in
      play always fits, and the score never decreases. */
  lemma FrameKeepsInv(g: Game, k: Tty.KeyState)
    requires Inv(g)
    ensures Inv(Frame(g, k).0)
    ensures Frame(g, k).0.score >= g.score
  {
    if !g.over {
      var g0 := g.(paused := if k.p then !g.paused else g.paused);
      if !g0.paused {
        SteerKeepsInv(g0, k);
        var g1 := Steer(g0, k);
        if !k.space {
          TickKeepsInv(g1);
        } else {
          var g2 := HardDrop(g1);
          LandedFits(g1.board, g1.cur);
          SettleKeepsInv(g1.(cur := Landed(g1.board, g1.cur)));
          if !g2.over {
            TickKeepsInv(g2);
          }
        }
      }
    }
  }

  /** A halted game stays halted and unchanged. */
  lemma GameOverIsFinal(g: Game, k: Tty.KeyState)
    requires Consistent(g) && g.over
    ensures Frame(g, k) == (g, k)
  {
  }

  /** A paused frame changes nothing but (possibly) the pause flag, and consumes no key; the
      pause key itself is never consumed. */
  lemma PausedFrameOnlyTogglesPause(g: Game, k: Tty.KeyState)
    requires Consistent(g) && !g.over && (g.paused != k.p)
    ensures Frame(g, k) == (g.(paused := true), k)
  {
  }

  /** The pause key is never cleared, so while it is held every frame flips the pause flag. */
  lemma HeldPauseToggles(g: Game, k: Tty.KeyState)
    requires Consistent(g) && !g.over && k.p
    ensures Frame(g, k).0.paused == !g.paused && Frame(g, k).1.p
  {
  }

  /** With no key held (the zero-initialised key_state), a running frame only runs the gravity
      timer and leaves no key set. */
  lemma IdleFrameOnlyTicks(g: Game)
    requires Consistent(g) && !g.over && !g.paused
    ensures Frame(g, Tty.NoKeys) == (Tick(g), Tty.NoKeys)
  {
  }

  /** A running frame consumes every action key it saw except the pause key. */
  lemma RunningFrameConsumesKeys(g: Game, k: Tty.KeyState)
    requires Consistent(g) && !g.over && g.paused == k.p && !Frame(g, k).0.over
    ensures Frame(g, k).1 == k.(a := false, d := false, s := false, w := false, space := false)
  {
  }

  // ---------------------------------------------------------------------------------------
  // Worked cases

  /** The I kind in rotation 0 occupies mask row 1, all four columns, and nothing else. */
  lemma IRotation0Cells(py: int, px: int)
    ensures Filled(0, 0, py, px) <==> py == 1 && 0 <= px < MaskSize
  {
    assert Shapes[0][0] == [[0, 0, 0, 0], [1, 1, 1, 1], [0, 0, 0, 0], [0, 0, 0, 0]];
  }

  /** A hard drop stops at the first row y whose next row collides. */
  lemma {:induction false} LandedAt(b: Board, p: Piece, y: int)
    requires Shaped(b) && ValidPiece(p) && p.y <= y
    requires forall y' :: p.y < y' <= y ==> !Collides(b, p.(y := y'))
    requires Collides(b, p.(y := y + 1))
    ensures Landed(b, p) == p.(y := y)
    decreases y - p.y
  {
    if p.y < y {
      assert Below(p) == p.(y := p.y + 1);
      LandedAt(b, Below(p), y);
    }
  }

  /** The I piece spawned on an empty board falls until its cells reach row 19. */
  lemma ILandsOnFloor()
    ensures Landed(EmptyBoard(), Piece(SpawnX, SpawnY, 0, 0)) == Piece(3, 18, 0, 0)
  {
    var b := EmptyBoard();
    var p := Piece(SpawnX, SpawnY, 0, 0);
    forall y' | p.y < y' <= 18 ensures !Collides(b, p.(y := y')) {
      EmptyBoardCollision(p.(y := y'));
      forall py, px ensures !(Filled(0, 0, py, px) && (3 + px < 0 || 3 + px >= Width || y' + py >= Height)) {
        IRotation0Cells(py, px);
      }
    }
    IRotation0Cells(1, 0);
    OutsideAlwaysCollides(b, p.(y := 19), 1, 0);
    LandedAt(b, p, 18);
  }

  /** Settling that I piece fills columns 3..6 of row 19 and leaves no row full. */
  lemma IPlacedOnFloor()
    ensures Place(EmptyBoard(), Piece(3, 18, 0, 0))[19] == [0, 0, 0, 1, 1, 1, 1, 0, 0, 0]
    ensures NoFullRow(Place(EmptyBoard(), Piece(3, 18, 0, 0)))
  {
    var placed := Place(EmptyBoard(), Piece(3, 18, 0, 0));
    forall r, c | 0 <= r < Height && 0 <= c < Width
      ensures placed[r][c] == if r == 19 && 3 <= c <= 6 then 1 else 0
    {
      IRotation0Cells(r - 18, c - 3);
    }
    forall r | 0 <= r < Height ensures !Full(placed[r]) {
      assert placed[r][0] == 0;
    }
  }

  /** The end-to-end case: a hard drop of the I piece on an empty board settles it along the
      bottom row and earns no points, since only one row is partly filled. */
  lemma DropIOnEmptyBoard(seed: int)
    ensures var g := Game(EmptyBoard(), Piece(SpawnX, SpawnY, 0, 0), 0, false, false, 0, seed);
      HardDrop(g).board == Place(EmptyBoard(), Piece(3, 18, 0, 0)) &&
      HardDrop(g).board[19] == [0, 0, 0, 1, 1, 1, 1, 0, 0, 0] &&
      HardDrop(g).score == 0
  {
    ILandsOnFloor();
    IPlacedOnFloor();
    ClearedWithoutFullRow(Place(EmptyBoard(), Piece(3, 18, 0, 0)));
  }

  /** With the two top rows full, the I kind still spawns without a collision (its cells are in
      board row -1, which is never compared with the board), while every other kind collides. */
  lemma SpawnOverFullTopRows(b: Board)
    requires Shaped(b) && Full(b[0]) && Full(b[1])
    ensures !Collides(b, Piece(SpawnX, SpawnY, 0, 0))
    ensures forall kind :: 1 <= kind < Kinds ==> Collides(b, Piece(SpawnX, SpawnY, kind, 0))
  {
    var p := Piece(SpawnX, SpawnY, 0, 0);
    forall py, px | 0 <= py < MaskSize && 0 <= px < MaskSize ensures !Blocked(b, p, py, px) {
      IRotation0Cells(py, px);
    }
    forall kind | 1 <= kind < Kinds ensures Collides(b, Piece(SpawnX, SpawnY, kind, 0)) {
      var px := if kind == 3 then 2 else if kind == 4 || kind == 5 then 0 else 1;
      assert Shapes[kind][0][2][px] != 0;
      assert Blocked(b, Piece(SpawnX, SpawnY, kind, 0), 2, px);
    }
  }
}
