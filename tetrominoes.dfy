// The piece catalogue of kernel/kernel/kernel.c: seven kinds (I, O, T, J, L, S, Z), four
// precomputed rotation states each, every state a 4x4 occupancy mask of 0/1 bytes.

module Tetrominoes {

  const Kinds := 7
  const Rotations := 4
  const MaskSize := 4

  /** The mask table, indexed [kind][rotation][row][column], exactly as the literal table. */
  const Shapes: seq<seq<seq<seq<int>>>> := [
    // I
    [
      [[0, 0, 0, 0],
       [1, 1, 1, 1],
       [0, 0, 0, 0],
       [0, 0, 0, 0]],
      [[0, 0, 1, 0],
       [0, 0, 1, 0],
       [0, 0, 1, 0],
       [0, 0, 1, 0]],
      [[0, 0, 0, 0],
       [0, 0, 0, 0],
       [1, 1, 1, 1],
       [0, 0, 0, 0]],
      [[0, 1, 0, 0],
       [0, 1, 0, 0],
       [0, 1, 0, 0],
       [0, 1, 0, 0]]
    ],
    // O
    [
      [[0, 0, 0, 0],
       [0, 1, 1, 0],
       [0, 1, 1, 0],
       [0, 0, 0, 0]],
      [[0, 0, 0, 0],
       [0, 1, 1, 0],
       [0, 1, 1, 0],
       [0, 0, 0, 0]],
      [[0, 0, 0, 0],
       [0, 1, 1, 0],
       [0, 1, 1, 0],
       [0, 0, 0, 0]],
      [[0, 0, 0, 0],
       [0, 1, 1, 0],
       [0, 1, 1, 0],
       [0, 0, 0, 0]]
    ],
    // T
    [
      [[0, 0, 0, 0],
       [1, 1, 1, 0],
       [0, 1, 0, 0],
       [0, 0, 0, 0]],
      [[0, 1, 0, 0],
       [1, 1, 0, 0],
       [0, 1, 0, 0],
       [0, 0, 0, 0]],
      [[0, 1, 0, 0],
       [1, 1, 1, 0],
       [0, 0, 0, 0],
       [0, 0, 0, 0]],
      [[0, 1, 0, 0],
       [0, 1, 1, 0],
       [0, 1, 0, 0],
       [0, 0, 0, 0]]
    ],
    // J
    [
      [[0, 0, 0, 0],
       [1, 1, 1, 0],
       [0, 0, 1, 0],
       [0, 0, 0, 0]],
      [[0, 1, 0, 0],
       [0, 1, 0, 0],
       [1, 1, 0, 0],
       [0, 0, 0, 0]],
      [[1, 0, 0, 0],
       [1, 1, 1, 0],
       [0, 0, 0, 0],
       [0, 0, 0, 0]],
      [[0, 1, 1, 0],
       [0, 1, 0, 0],
       [0, 1, 0, 0],
       [0, 0, 0, 0]]
    ],
    // L
    [
      [[0, 0, 0, 0],
       [1, 1, 1, 0],
       [1, 0, 0, 0],
       [0, 0, 0, 0]],
      [[1, 1, 0, 0],
       [0, 1, 0, 0],
       [0, 1, 0, 0],
       [0, 0, 0, 0]],
      [[0, 0, 1, 0],
       [1, 1, 1, 0],
       [0, 0, 0, 0],
       [0, 0, 0, 0]],
      [[0, 1, 0, 0],
       [0, 1, 0, 0],
       [0, 1, 1, 0],
       [0, 0, 0, 0]]
    ],
    // S
    [
      [[0, 0, 0, 0],
       [0, 1, 1, 0],
       [1, 1, 0, 0],
       [0, 0, 0, 0]],
      [[1, 0, 0, 0],
       [1, 1, 0, 0],
       [0, 1, 0, 0],
       [0, 0, 0, 0]],
      [[0, 0, 0, 0],
       [0, 1, 1, 0],
       [1, 1, 0, 0],
       [0, 0, 0, 0]],
      [[1, 0, 0, 0],
       [1, 1, 0, 0],
       [0, 1, 0, 0],
       [0, 0, 0, 0]]
    ],
    // Z
    [
      [[0, 0, 0, 0],
       [1, 1, 0, 0],
       [0, 1, 1, 0],
       [0, 0, 0, 0]],
      [[0, 1, 0, 0],
       [1, 1, 0, 0],
       [1, 0, 0, 0],
       [0, 0, 0, 0]],
      [[0, 0, 0, 0],
       [1, 1, 0, 0],
       [0, 1, 1, 0],
       [0, 0, 0, 0]],
      [[0, 1, 0, 0],
       [1, 1, 0, 0],
       [1, 0, 0, 0],
       [0, 0, 0, 0]]
    ]
  ]

  /** Display colour of each kind (used only when drawing). */
  const Colors: seq<int> := [9, 14, 13, 1, 6, 10, 12]

  predicate ValidKind(kind: int) { 0 <= kind < Kinds }
  predicate ValidRotation(rot: int) { 0 <= rot < Rotations }

  /** Does the mask of `kind` in rotation `rot` have its cell (py, px) set? */
  predicate Filled(kind: int, rot: int, py: int, px: int)
    requires ValidKind(kind) && ValidRotation(rot)
  {
    0 <= py < MaskSize && 0 <= px < MaskSize && Shapes[kind][rot][py][px] != 0
  }

  /** 1 for a set mask byte, 0 for a clear one. */
  function Bit(v: int): (b: nat)
    ensures b <= 1 && (b == 1 <==> v != 0)
  {
    if v != 0 then 1 else 0
  }

  predicate IsMask(m: seq<seq<int>>)
  {
    |m| == MaskSize && forall py :: 0 <= py < MaskSize ==> |m[py]| == MaskSize
  }

  /** Number of set cells in a 4x4 mask. */
  function Count(m: seq<seq<int>>): nat
    requires IsMask(m)
  {
    Bit(m[0][0]) + Bit(m[0][1]) + Bit(m[0][2]) + Bit(m[0][3]) +
    Bit(m[1][0]) + Bit(m[1][1]) + Bit(m[1][2]) + Bit(m[1][3]) +
    Bit(m[2][0]) + Bit(m[2][1]) + Bit(m[2][2]) + Bit(m[2][3]) +
    Bit(m[3][0]) + Bit(m[3][1]) + Bit(m[3][2]) + Bit(m[3][3])
  }

  /** Number of set cells in the mask of `kind` in rotation `rot`. */
  function CellCount(kind: int, rot: int): nat
    requires ValidKind(kind) && ValidRotation(rot)
  {
    TableShape();
    Count(Shapes[kind][rot])
  }

  /** Row-major scan for the first set cell of a mask; finds none only when the count is zero. */
  lemma FirstSetCell(m: seq<seq<int>>) returns (found: bool, py: int, px: int)
    requires IsMask(m)
    ensures found ==> 0 <= py < MaskSize && 0 <= px < MaskSize && m[py][px] != 0
    ensures !found ==> Count(m) == 0
  {
    py, px := 0, 0;
    while py < MaskSize
      invariant 0 <= py <= MaskSize
      invariant forall i, j :: 0 <= i < py && 0 <= j < MaskSize ==> m[i][j] == 0
    {
      px := 0;
      while px < MaskSize
        invariant 0 <= px <= MaskSize
        invariant forall j :: 0 <= j < px ==> m[py][j] == 0
      {
        if m[py][px] != 0 { return true, py, px; }
        px := px + 1;
      }
      py := py + 1;
    }
    found := false;
  }

  /** Every one of the 28 masks has exactly four set cells. */
  lemma FourCells(kind: int, rot: int)
    requires ValidKind(kind) && ValidRotation(rot)
    ensures CellCount(kind, rot) == 4
  {
    match kind
    case 0 => FourCellsI(rot);
    case 1 => FourCellsO(rot);
    case 2 => FourCellsT(rot);
    case 3 => FourCellsJ(rot);
    case 4 => FourCellsL(rot);
    case 5 => FourCellsS(rot);
    case 6 => FourCellsZ(rot);
  }

  lemma FourCellsI(rot: int)
    requires ValidRotation(rot)
    ensures CellCount(0, rot) == 4
  {
    if rot == 0 { assert CellCount(0, 0) == 4; }
    else if rot == 1 { assert CellCount(0, 1) == 4; }
    else if rot == 2 { assert CellCount(0, 2) == 4; }
    else { assert CellCount(0, 3) == 4; }
  }

  lemma FourCellsO(rot: int)
    requires ValidRotation(rot)
    ensures CellCount(1, rot) == 4
  {
    if rot == 0 { assert CellCount(1, 0) == 4; }
    else if rot == 1 { assert CellCount(1, 1) == 4; }
    else if rot == 2 { assert CellCount(1, 2) == 4; }
    else { assert CellCount(1, 3) == 4; }
  }

  lemma FourCellsT(rot: int)
    requires ValidRotation(rot)
    ensures CellCount(2, rot) == 4
  {
    if rot == 0 { assert CellCount(2, 0) == 4; }
    else if rot == 1 { assert CellCount(2, 1) == 4; }
    else if rot == 2 { assert CellCount(2, 2) == 4; }
    else { assert CellCount(2, 3) == 4; }
  }

  lemma FourCellsJ(rot: int)
    requires ValidRotation(rot)
    ensures CellCount(3, rot) == 4
  {
    if rot == 0 { assert CellCount(3, 0) == 4; }
    else if rot == 1 { assert CellCount(3, 1) == 4; }
    else if rot == 2 { assert CellCount(3, 2) == 4; }
    else { assert CellCount(3, 3) == 4; }
  }

  lemma FourCellsL(rot: int)
    requires ValidRotation(rot)
    ensures CellCount(4, rot) == 4
  {
    if rot == 0 { assert CellCount(4, 0) == 4; }
    else if rot == 1 { assert CellCount(4, 1) == 4; }
    else if rot == 2 { assert CellCount(4, 2) == 4; }
    else { assert CellCount(4, 3) == 4; }
  }

  lemma FourCellsS(rot: int)
    requires ValidRotation(rot)
    ensures CellCount(5, rot) == 4
  {
    if rot == 0 { assert CellCount(5, 0) == 4; }
    else if rot == 1 { assert CellCount(5, 1) == 4; }
    else if rot == 2 { assert CellCount(5, 2) == 4; }
    else { assert CellCount(5, 3) == 4; }
  }

  lemma FourCellsZ(rot: int)
    requires ValidRotation(rot)
    ensures CellCount(6, rot) == 4
  {
    if rot == 0 { assert CellCount(6, 0) == 4; }
    else if rot == 1 { assert CellCount(6, 1) == 4; }
    else if rot == 2 { assert CellCount(6, 2) == 4; }
    else { assert CellCount(6, 3) == 4; }
  }

  /** The table has the 7 x 4 x 4 x 4 shape and holds only 0 and 1. */
  lemma TableShape()
    ensures |Shapes| == Kinds
    ensures forall k :: 0 <= k < Kinds ==> |Shapes[k]| == Rotations
    ensures forall k, r :: 0 <= k < Kinds && 0 <= r < Rotations ==> |Shapes[k][r]| == MaskSize
    ensures forall k, r, py :: 0 <= k < Kinds && 0 <= r < Rotations && 0 <= py < MaskSize ==>
              |Shapes[k][r][py]| == MaskSize
    ensures forall k, r, py, px ::
              0 <= k < Kinds && 0 <= r < Rotations && 0 <= py < MaskSize && 0 <= px < MaskSize ==>
                Shapes[k][r][py][px] == 0 || Shapes[k][r][py][px] == 1
  {
  }

  /** The O kind (index 1) has four identical rotation states. */
  lemma OIsRotationInvariant()
    ensures forall r :: 0 <= r < Rotations ==> Shapes[1][r] == Shapes[1][0]
  {
  }

  /** For S (index 5) and Z (index 6) a half turn gives back the same mask. */
  lemma SZHalfTurnSymmetric()
    ensures forall k :: 5 <= k <= 6 ==> Shapes[k][0] == Shapes[k][2] && Shapes[k][1] == Shapes[k][3]
  {
  }

  /** Every mask has some set cell: the witness a hard drop needs to reach the floor. */
  lemma SomeCellFilled(kind: int, rot: int) returns (py: int, px: int)
    requires ValidKind(kind) && ValidRotation(rot)
    ensures Filled(kind, rot, py, px)
  {
    FourCells(kind, rot);
    TableShape();
    var found;
    found, py, px := FirstSetCell(Shapes[kind][rot]);
  }

  /** In rotation 0 the top and bottom mask rows are empty for every kind. */
  lemma FirstRotationRows()
    ensures forall k :: 0 <= k < Kinds ==> Shapes[k][0][0] == [0, 0, 0, 0] && Shapes[k][0][3] == [0, 0, 0, 0]
  {
  }

  // ---------------------------------------------------------------------------------------
  // Connectedness: the four cells of every mask form a single piece

  /** A 4x4 grid of marks laid over a mask: the cells a flood fill has reached so far. */
  predicate IsMarks(r: seq<seq<bool>>)
  {
    |r| == MaskSize && forall py :: 0 <= py < MaskSize ==> |r[py]| == MaskSize
  }

  /** Cell (py, px) is set in `m`, and it or one of its orthogonal neighbours is marked in `r`. */
  predicate Touched(m: seq<seq<int>>, r: seq<seq<bool>>, py: int, px: int)
    requires IsMask(m) && IsMarks(r) && 0 <= py < MaskSize && 0 <= px < MaskSize
  {
    m[py][px] != 0 &&
    (r[py][px] ||
     (0 < py && r[py - 1][px]) || (py + 1 < MaskSize && r[py + 1][px]) ||
     (0 < px && r[py][px - 1]) || (px + 1 < MaskSize && r[py][px + 1]))
  }

  /** One step of a flood fill through the set cells of `m`. */
  function Spread(m: seq<seq<int>>, r: seq<seq<bool>>): (r': seq<seq<bool>>)
    requires IsMask(m) && IsMarks(r)
    ensures IsMarks(r')
  {
    [[Touched(m, r, 0, 0), Touched(m, r, 0, 1), Touched(m, r, 0, 2), Touched(m, r, 0, 3)],
     [Touched(m, r, 1, 0), Touched(m, r, 1, 1), Touched(m, r, 1, 2), Touched(m, r, 1, 3)],
     [Touched(m, r, 2, 0), Touched(m, r, 2, 1), Touched(m, r, 2, 2), Touched(m, r, 2, 3)],
     [Touched(m, r, 3, 0), Touched(m, r, 3, 1), Touched(m, r, 3, 2), Touched(m, r, 3, 3)]]
  }

  /** The marks with only the cell (ay, ax) marked. */
  function Seed(ay: int, ax: int): (r: seq<seq<bool>>)
    ensures IsMarks(r)
  {
    seq(MaskSize, py => seq(MaskSize, px => py == ay && px == ax))
  }

  /** The set cells reached from (ay, ax) in at most three steps between adjacent set cells. */
  function Reach(m: seq<seq<int>>, ay: int, ax: int): (r: seq<seq<bool>>)
    requires IsMask(m)
    ensures IsMarks(r)
  {
    Spread(m, Spread(m, Spread(m, Seed(ay, ax))))
  }

  /** Every set cell of mask row `py` is marked in `r`. */
  predicate RowCovered(m: seq<seq<int>>, r: seq<seq<bool>>, py: int)
    requires IsMask(m) && IsMarks(r) && 0 <= py < MaskSize
  {
    (m[py][0] != 0 ==> r[py][0]) && (m[py][1] != 0 ==> r[py][1]) &&
    (m[py][2] != 0 ==> r[py][2]) && (m[py][3] != 0 ==> r[py][3])
  }

  /** Every set cell of `m` is marked in `r`, written out row by row. */
  predicate Spans(m: seq<seq<int>>, r: seq<seq<bool>>)
    requires IsMask(m) && IsMarks(r)
  {
    RowCovered(m, r, 0) && RowCovered(m, r, 1) && RowCovered(m, r, 2) && RowCovered(m, r, 3)
  }

  /** The row-by-row `Spans` means what it says: every set cell of `m` is marked in `r`. */
  lemma SpansEverySetCell(m: seq<seq<int>>, r: seq<seq<bool>>)
    requires IsMask(m) && IsMarks(r) && Spans(m, r)
    ensures forall py, px :: 0 <= py < MaskSize && 0 <= px < MaskSize && m[py][px] != 0 ==> r[py][px]
  {
    forall py, px | 0 <= py < MaskSize && 0 <= px < MaskSize && m[py][px] != 0
      ensures r[py][px]
    {
      assert RowCovered(m, r, py);
      assert px == 0 || px == 1 || px == 2 || px == 3;
    }
  }

  /** The cells of a mask form one piece: from some set cell, every set cell is reached by steps
      between orthogonally adjacent set cells. Three steps suffice for any connected four cells. */
  predicate Connected(kind: int, rot: int)
    requires ValidKind(kind) && ValidRotation(rot)
  {
    TableShape();
    exists ay, ax | 0 <= ay < MaskSize && 0 <= ax < MaskSize ::
      Filled(kind, rot, ay, ax) && Spans(Shapes[kind][rot], Reach(Shapes[kind][rot], ay, ax))
  }

  /** Every one of the 28 masks is a single connected piece. */
  lemma AllConnected(kind: int, rot: int)
    requires ValidKind(kind) && ValidRotation(rot)
    ensures Connected(kind, rot)
  {
    match kind
    case 0 =>
      match rot {
        case 0 => ConnectedI0();
        case 1 => ConnectedI1();
        case 2 => ConnectedI2();
        case 3 => ConnectedI3();
      }
    case 1 =>
      match rot {
        case 0 => ConnectedO0();
        case 1 => ConnectedO1();
        case 2 => ConnectedO2();
        case 3 => ConnectedO3();
      }
    case 2 =>
      match rot {
        case 0 => ConnectedT0();
        case 1 => ConnectedT1();
        case 2 => ConnectedT2();
        case 3 => ConnectedT3();
      }
    case 3 =>
      match rot {
        case 0 => ConnectedJ0();
        case 1 => ConnectedJ1();
        case 2 => ConnectedJ2();
        case 3 => ConnectedJ3();
      }
    case 4 =>
      match rot {
        case 0 => ConnectedL0();
        case 1 => ConnectedL1();
        case 2 => ConnectedL2();
        case 3 => ConnectedL3();
      }
    case 5 =>
      match rot {
        case 0 => ConnectedS0();
        case 1 => ConnectedS1();
        case 2 => ConnectedS2();
        case 3 => ConnectedS3();
      }
    case 6 =>
      match rot {
        case 0 => ConnectedZ0();
        case 1 => ConnectedZ1();
        case 2 => ConnectedZ2();
        case 3 => ConnectedZ3();
      }
  }

  // Each witness below is the first set cell of its mask in row-major order.

  lemma ConnectedI0()
    ensures Connected(0, 0)
  {
    assert Filled(0, 0, 1, 0) && Spans(Shapes[0][0], Reach(Shapes[0][0], 1, 0));
  }

  lemma ConnectedI1()
    ensures Connected(0, 1)
  {
    assert Filled(0, 1, 0, 2) && Spans(Shapes[0][1], Reach(Shapes[0][1], 0, 2));
  }

  lemma ConnectedI2()
    ensures Connected(0, 2)
  {
    assert Filled(0, 2, 2, 0) && Spans(Shapes[0][2], Reach(Shapes[0][2], 2, 0));
  }

  lemma ConnectedI3()
    ensures Connected(0, 3)
  {
    assert Filled(0, 3, 0, 1) && Spans(Shapes[0][3], Reach(Shapes[0][3], 0, 1));
  }

  lemma ConnectedO0()
    ensures Connected(1, 0)
  {
    assert Filled(1, 0, 1, 1) && Spans(Shapes[1][0], Reach(Shapes[1][0], 1, 1));
  }

  lemma ConnectedO1()
    ensures Connected(1, 1)
  {
    assert Filled(1, 1, 1, 1) && Spans(Shapes[1][1], Reach(Shapes[1][1], 1, 1));
  }

  lemma ConnectedO2()
    ensures Connected(1, 2)
  {
    assert Filled(1, 2, 1, 1) && Spans(Shapes[1][2], Reach(Shapes[1][2], 1, 1));
  }

  lemma ConnectedO3()
    ensures Connected(1, 3)
  {
    assert Filled(1, 3, 1, 1) && Spans(Shapes[1][3], Reach(Shapes[1][3], 1, 1));
  }

  lemma ConnectedT0()
    ensures Connected(2, 0)
  {
    assert Filled(2, 0, 1, 0) && Spans(Shapes[2][0], Reach(Shapes[2][0], 1, 0));
  }

  lemma ConnectedT1()
    ensures Connected(2, 1)
  {
    assert Filled(2, 1, 0, 1) && Spans(Shapes[2][1], Reach(Shapes[2][1], 0, 1));
  }

  lemma ConnectedT2()
    ensures Connected(2, 2)
  {
    assert Filled(2, 2, 0, 1) && Spans(Shapes[2][2], Reach(Shapes[2][2], 0, 1));
  }

  lemma ConnectedT3()
    ensures Connected(2, 3)
  {
    assert Filled(2, 3, 0, 1) && Spans(Shapes[2][3], Reach(Shapes[2][3], 0, 1));
  }

  lemma ConnectedJ0()
    ensures Connected(3, 0)
  {
    assert Filled(3, 0, 1, 0) && Spans(Shapes[3][0], Reach(Shapes[3][0], 1, 0));
  }

  lemma ConnectedJ1()
    ensures Connected(3, 1)
  {
    assert Filled(3, 1, 0, 1) && Spans(Shapes[3][1], Reach(Shapes[3][1], 0, 1));
  }

  lemma ConnectedJ2()
    ensures Connected(3, 2)
  {
    assert Filled(3, 2, 0, 0) && Spans(Shapes[3][2], Reach(Shapes[3][2], 0, 0));
  }

  lemma ConnectedJ3()
    ensures Connected(3, 3)
  {
    assert Filled(3, 3, 0, 1) && Spans(Shapes[3][3], Reach(Shapes[3][3], 0, 1));
  }

  lemma ConnectedL0()
    ensures Connected(4, 0)
  {
    assert Filled(4, 0, 1, 0) && Spans(Shapes[4][0], Reach(Shapes[4][0], 1, 0));
  }

  lemma ConnectedL1()
    ensures Connected(4, 1)
  {
    assert Filled(4, 1, 0, 0) && Spans(Shapes[4][1], Reach(Shapes[4][1], 0, 0));
  }

  lemma ConnectedL2()
    ensures Connected(4, 2)
  {
    assert Filled(4, 2, 0, 2) && Spans(Shapes[4][2], Reach(Shapes[4][2], 0, 2));
  }

  lemma ConnectedL3()
    ensures Connected(4, 3)
  {
    assert Filled(4, 3, 0, 1) && Spans(Shapes[4][3], Reach(Shapes[4][3], 0, 1));
  }

  lemma ConnectedS0()
    ensures Connected(5, 0)
  {
    assert Filled(5, 0, 1, 1) && Spans(Shapes[5][0], Reach(Shapes[5][0], 1, 1));
  }

  lemma ConnectedS1()
    ensures Connected(5, 1)
  {
    assert Filled(5, 1, 0, 0) && Spans(Shapes[5][1], Reach(Shapes[5][1], 0, 0));
  }

  lemma ConnectedS2()
    ensures Connected(5, 2)
  {
    assert Filled(5, 2, 1, 1) && Spans(Shapes[5][2], Reach(Shapes[5][2], 1, 1));
  }

  lemma ConnectedS3()
    ensures Connected(5, 3)
  {
    assert Filled(5, 3, 0, 0) && Spans(Shapes[5][3], Reach(Shapes[5][3], 0, 0));
  }

  lemma ConnectedZ0()
    ensures Connected(6, 0)
  {
    assert Filled(6, 0, 1, 0) && Spans(Shapes[6][0], Reach(Shapes[6][0], 1, 0));
  }

  lemma ConnectedZ1()
    ensures Connected(6, 1)
  {
    assert Filled(6, 1, 0, 1) && Spans(Shapes[6][1], Reach(Shapes[6][1], 0, 1));
  }

  lemma ConnectedZ2()
    ensures Connected(6, 2)
  {
    assert Filled(6, 2, 1, 0) && Spans(Shapes[6][2], Reach(Shapes[6][2], 1, 0));
  }

  lemma ConnectedZ3()
    ensures Connected(6, 3)
  {
    assert Filled(6, 3, 0, 1) && Spans(Shapes[6][3], Reach(Shapes[6][3], 0, 1));
  }
}
