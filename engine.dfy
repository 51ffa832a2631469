// The game engine of kernel/kernel/kernel.c as it runs: the board array, the falling piece, the
// score, the pause flag and the gravity timer, changed in place by the kernel's own loops. Every
// method is proved to have the effect of the matching function in rules.dfy.

module Kernel {
  import opened Tetrominoes
  import opened Rules
  import Tty

  class Engine {
    /** board[row, column] */
    const board: array2<int>
    /** The generator behind rand(). */
    const rng: Tty.Prng
    /** current_piece */
    var cur: Piece
    var score: int
    var paused: bool
    /** Set where spawn_piece halts the machine. */
    var over: bool
    /** drop_timer, a local of kernel_main that lives across frames. */
    var dropTimer: int

    ghost predicate Valid()
      reads this
    {
      BoardShaped() && ValidPiece(cur)
    }

    ghost predicate BoardShaped()
    {
      board.Length0 == Height && board.Length1 == Width
    }

    /** The board as a sequence of rows. */
    ghost function Grid(): (g: Board)
      reads board
      requires BoardShaped()
      ensures Shaped(g)
      ensures forall r, c :: 0 <= r < Height && 0 <= c < Width ==> g[r][c] == board[r, c]
    {
      seq(Height, r requires 0 <= r < Height reads board =>
        seq(Width, c requires 0 <= c < Width reads board => board[r, c]))
    }

    ghost function State(): Game
      reads this, board, rng
      requires Valid()
    {
      Game(Grid(), cur, score, paused, over, dropTimer, rng.state)
    }

    /** Two boards with the same cells are the same board. */
    lemma GridIs(b: Board)
      requires BoardShaped() && Shaped(b)
      requires forall r, c :: 0 <= r < Height && 0 <= c < Width ==> board[r, c] == b[r][c]
      ensures Grid() == b
    {
      forall r | 0 <= r < Height ensures Grid()[r] == b[r] {
      }
    }

    /** kernel_main's set-up: zero the board, then spawn the first piece. */
    constructor (rng: Tty.Prng)
      modifies rng
      ensures Valid() && fresh(board) && this.rng == rng
      ensures State() == Start(old(rng.state))
    {
      this.rng := rng;
      board := new int[Height, Width];
      cur := Piece(0, 0, 0, 0);
      score := 0;
      paused := false;
      over := false;
      dropTimer := 0;
      new;
      ClearBoard();
      Spawn();
    }

    /** The zero-fill loops at the start of kernel_main. */
    method ClearBoard()
      requires Valid()
      modifies board
      ensures Valid() && Grid() == EmptyBoard()
    {
      var y := 0;
      while y < Height
        invariant 0 <= y <= Height
        invariant forall r, c :: 0 <= r < y && 0 <= c < Width ==> board[r, c] == 0
      {
        var x := 0;
        while x < Width
          invariant 0 <= x <= Width
          invariant forall r, c :: 0 <= r < y && 0 <= c < Width ==> board[r, c] == 0
          invariant forall c :: 0 <= c < x ==> board[y, c] == 0
        {
          board[y, x] := 0;
          x := x + 1;
        }
        y := y + 1;
      }
      GridIs(EmptyBoard());
    }

    /** check_collision */
    method CheckCollision(p: Piece) returns (hit: bool)
      requires Valid() && ValidPiece(p)
      ensures hit == Collides(Grid(), p)
    {
      TableShape();
      var py := 0;
      while py < MaskSize
        invariant 0 <= py <= MaskSize
        invariant forall i, j :: 0 <= i < py && 0 <= j < MaskSize ==> !Blocked(Grid(), p, i, j)
      {
        var px := 0;
        while px < MaskSize
          invariant 0 <= px <= MaskSize
          invariant forall i, j :: 0 <= i < py && 0 <= j < MaskSize ==> !Blocked(Grid(), p, i, j)
          invariant forall j :: 0 <= j < px ==> !Blocked(Grid(), p, py, j)
        {
          if Shapes[p.kind][p.rot][py][px] != 0 {
            var col := p.x + px;
            var row := p.y + py;
            if col < 0 || col >= Width || row >= Height {
              assert Blocked(Grid(), p, py, px);
              return true;
            }
            if row >= 0 && board[row, col] != 0 {
              assert Blocked(Grid(), p, py, px);
              return true;
            }
          }
          px := px + 1;
        }
        py := py + 1;
      }
      return false;
    }

    /** place_piece */
    method PlacePiece()
      requires Valid()
      modifies board
      ensures Valid() && Grid() == Place(old(Grid()), cur)
    {
      TableShape();
      ghost var before := Grid();
      var py := 0;
      while py < MaskSize
        invariant 0 <= py <= MaskSize
        invariant forall r, c :: 0 <= r < Height && 0 <= c < Width ==>
                    board[r, c] == if Covers(cur, r, c) && r - cur.y < py then cur.kind + 1 else before[r][c]
      {
        var px := 0;
        while px < MaskSize
          invariant 0 <= px <= MaskSize
          invariant forall r, c :: 0 <= r < Height && 0 <= c < Width ==>
                      board[r, c] ==
                        if Covers(cur, r, c) && (r - cur.y < py || (r - cur.y == py && c - cur.x < px))
                        then cur.kind + 1 else before[r][c]
        {
          if Shapes[cur.kind][cur.rot][py][px] != 0 {
            var col := cur.x + px;
            var row := cur.y + py;
            if row >= 0 && row < Height && col >= 0 && col < Width {
              board[row, col] := cur.kind + 1;
            }
          }
          px := px + 1;
        }
        py := py + 1;
      }
      GridIs(Place(before, cur));
    }

    /** The row shift inside clear_lines for a full row y: rows 0..y-1 move down by one and row 0
        becomes empty; rows below y are untouched. */
    method ShiftDown(y: int)
      requires Valid() && 0 <= y < Height
      modifies board
      ensures Valid() && Grid() == [EmptyRow()] + old(Grid())[..y] + old(Grid())[y + 1..]
    {
      ghost var before := Grid();
      var ty := y;
      while ty > 0
        invariant 0 <= ty <= y
        invariant forall r, c :: 0 <= r < Height && 0 <= c < Width ==>
                    board[r, c] == if ty < r <= y then before[r - 1][c] else before[r][c]
      {
        var tx := 0;
        while tx < Width
          invariant 0 <= tx <= Width
          invariant forall r, c :: 0 <= r < Height && 0 <= c < Width ==>
                      board[r, c] ==
                        if ty < r <= y || (r == ty && c < tx) then before[r - 1][c] else before[r][c]
        {
          board[ty, tx] := board[ty - 1, tx];
          tx := tx + 1;
        }
        ty := ty - 1;
      }
      var tx := 0;
      while tx < Width
        invariant 0 <= tx <= Width
        invariant forall r, c :: 0 <= r < Height && 0 <= c < Width ==>
                    board[r, c] ==
                      if r == 0 && c < tx then 0 else if 0 < r <= y then before[r - 1][c] else before[r][c]
      {
        board[0, tx] := 0;
        tx := tx + 1;
      }
      ghost var after := [EmptyRow()] + before[..y] + before[y + 1..];
      assert forall r :: 0 < r <= y ==> after[r] == before[r - 1];
      assert forall r :: y < r < Height ==> after[r] == before[r];
      GridIs(after);
    }

    /** clear_lines: removes every full row (a single top-to-bottom pass), then adds the points. */
    method ClearLines()
      requires Valid()
      modifies this`score, board
      ensures Valid() && Grid() == Cleared(old(Grid()))
      ensures score == old(score) + ScoreDelta(CountFull(old(Grid())))
    {
      ghost var before := Grid();
      var linesCleared := 0;
      var y := 0;
      while y < Height
        invariant 0 <= y <= Height
        invariant Valid()
        invariant Grid()[..y] == Cleared(before[..y]) && Grid()[y..] == before[y..]
        invariant linesCleared == CountFull(before[..y])
        invariant score == old(score)
      {
        var full := true;
        var x := 0;
        while x < Width
          invariant 0 <= x <= Width
          invariant full == forall c :: 0 <= c < x ==> board[y, c] != 0
        {
          if board[y, x] == 0 {
            full := false;
            break;
          }
          x := x + 1;
        }
        assert Grid()[y] == before[y] by { assert Grid()[y..][0] == before[y..][0]; }
        assert full == Full(before[y]);
        assert before[..y + 1] == before[..y] + [before[y]];
        ClearedSnoc(before[..y], before[y]);
        if full {
          linesCleared := linesCleared + 1;
          ghost var g := Grid();
          ShiftDown(y);
          assert Grid()[..y + 1] == [EmptyRow()] + g[..y];
          assert Grid()[y + 1..] == g[y + 1..];
        } else {
          assert Grid()[..y + 1] == Grid()[..y] + [Grid()[y]];
        }
        y := y + 1;
      }
      assert before[..Height] == before;
      assert Grid()[..Height] == Grid();
      if linesCleared == 1 {
        score := score + 100;
      } else if linesCleared == 2 {
        score := score + 300;
      } else if linesCleared == 3 {
        score := score + 700;
      } else if linesCleared >= 4 {
        score := score + 1500;
      }
    }

    /** spawn_piece: a new piece from rand(); a collision at the spawn point ends the game. */
    method Spawn()
      requires Valid() && !over
      modifies this`cur, this`over, rng
      ensures Valid() && State() == Rules.Spawn(old(State()))
    {
      var r := rng.Rand();
      cur := Piece(SpawnX, SpawnY, r % Kinds, 0);
      var hit := CheckCollision(cur);
      if hit {
        over := true;
      }
    }

    /** rotate_piece */
    method RotatePiece()
      requires Valid()
      modifies this`cur
      ensures Valid() && cur == Rotated(Grid(), old(cur))
    {
      var newRot := (cur.rot + 1) % Rotations;
      var hit := CheckCollision(cur.(rot := newRot));
      if !hit {
        cur := cur.(rot := newRot);
      }
    }

    /** move_piece */
    method MovePiece(dx: int, dy: int)
      requires Valid()
      modifies this`cur
      ensures Valid() && cur == Moved(Grid(), old(cur), dx, dy)
    {
      var hit := CheckCollision(cur.(x := cur.x + dx, y := cur.y + dy));
      if !hit {
        cur := cur.(x := cur.x + dx, y := cur.y + dy);
      }
    }

    /** The settle sequence of drop_piece and of the gravity tick: place_piece, clear_lines,
        spawn_piece. */
    method Settle()
      requires Valid() && !over
      modifies this, board, rng
      ensures Valid() && State() == Rules.Settle(old(State()))
    {
      ghost var g := State();
      PlacePiece();
      ghost var placed := Grid();
      ClearLines();
      assert State() == g.(board := Cleared(placed), score := g.score + ScoreDelta(CountFull(placed)));
      Spawn();
    }

    /** drop_piece: fall while the row below is free, then settle. */
    method DropPiece()
      requires Valid() && !over
      modifies this, board, rng
      ensures Valid() && State() == HardDrop(old(State()))
    {
      ghost var g := State();
      var hit := CheckCollision(Below(cur));
      while !hit
        invariant Valid() && Landed(Grid(), cur) == Landed(Grid(), g.cur)
        invariant hit == Collides(Grid(), Below(cur))
        invariant State() == g.(cur := cur)
        decreases Height - cur.y
      {
        FitsAboveFloor(Grid(), Below(cur));
        cur := Below(cur);
        hit := CheckCollision(Below(cur));
      }
      assert State() == g.(cur := Landed(g.board, g.cur));
      Settle();
    }

    /** The key handling of the loop body: left, right, soft drop, rotate. */
    method Steer(keys: Tty.KeyState)
      requires Valid()
      modifies this`cur
      ensures Valid() && State() == Rules.Steer(old(State()), keys)
    {
      if keys.a {
        MovePiece(-1, 0);
      }
      if keys.d {
        MovePiece(1, 0);
      }
      if keys.s {
        MovePiece(0, 1);
      }
      if keys.w {
        RotatePiece();
      }
    }

    /** The gravity timer of the loop body. */
    method Tick()
      requires Valid() && !over
      modifies this, board, rng
      ensures Valid() && State() == Rules.Tick(old(State()))
    {
      dropTimer := dropTimer + 1;
      if dropTimer >= DropDelay {
        dropTimer := 0;
        var hit := CheckCollision(Below(cur));
        if !hit {
          cur := Below(cur);
        } else {
          Settle();
        }
      }
    }

    /** One iteration of kernel_main's loop, given the key state keyboard_update left; returns the
        key state after the loop has consumed its action keys. */
    method Frame(keys: Tty.KeyState) returns (left: Tty.KeyState)
      requires Valid()
      modifies this, board, rng
      ensures Valid() && (State(), left) == Rules.Frame(old(State()), keys)
    {
      left := keys;
      if over {
        return;
      }
      if keys.p {
        paused := !paused;
      }
      if !paused {
        Steer(keys);
        left := left.(a := false, d := false, s := false, w := false);
        if keys.space {
          DropPiece();
          if over {
            return;
          }
          left := left.(space := false);
        }
        Tick();
      }
    }
  }
}
