/**
 The static data of the game: the four movement directions with their unit
 vectors, and the catalog of the seven tetrominoes, each a colour tag and four
 4x4 rotation masks.
 */
module Catalog {

  datatype Direction = Left | Right | Up | Down

  datatype DirectionVector = DirectionVector(x: int, y: int)

  /** The unit step of each direction; y grows downwards, so Up is (0, -1). */
  function DirVector(d: Direction): (v: DirectionVector)
    ensures v.x * v.x + v.y * v.y == 1
    ensures (d == Left || d == Right) <==> v.y == 0
    ensures (d == Right || d == Down) <==> v.x + v.y == 1
  {
    match d
    case Left => DirectionVector(-1, 0)
    case Right => DirectionVector(1, 0)
    case Up => DirectionVector(0, -1)
    case Down => DirectionVector(0, 1)
  }

  /** Colour tags, in the numbering ncurses gives its eight basic colours. */
  const ColorRed := 1
  const ColorGreen := 2
  const ColorYellow := 3
  const ColorBlue := 4
  const ColorMagenta := 5
  const ColorCyan := 6
  /** Not an ncurses colour: the game defines its own ninth colour slot. */
  const ColorOrange := 8

  /** One cell of a rotation mask: 1 when filled. */
  type Bit = b: int | 0 <= b <= 1

  type MaskRow = r: seq<Bit> | |r| == 4 witness EmptyMaskRow

  const EmptyMaskRow: seq<Bit> := [0, 0, 0, 0]

  /** A mask is indexed [y][x], row first, like the source's tables. */
  type Mask = m: seq<MaskRow> | |m| == 4 witness EmptyMask

  const EmptyMask: seq<MaskRow> := [EmptyMaskRow, EmptyMaskRow, EmptyMaskRow, EmptyMaskRow]

  type Rotations = s: seq<Mask> | |s| == 4 witness EmptyRotations

  const EmptyRotations: seq<Mask> := [EmptyMask, EmptyMask, EmptyMask, EmptyMask]

  datatype PieceType = PieceType(color: int, rotations: Rotations)

  /** An index into the catalog; the random draw of the game yields one of these. */
  type PieceIndex = i: int | 0 <= i < 7

  /** A rotation state. */
  type Rotation = r: int | 0 <= r < 4

  /** The catalog, in the order I, J, L, O, S, T, Z. */
  const Pieces: seq<PieceType> := [
    PieceType(ColorCyan, [          // I
      [[0,0,0,0], [0,0,0,0], [1,1,1,1], [0,0,0,0]],
      [[0,0,1,0], [0,0,1,0], [0,0,1,0], [0,0,1,0]],
      [[0,0,0,0], [0,0,0,0], [1,1,1,1], [0,0,0,0]],
      [[0,0,1,0], [0,0,1,0], [0,0,1,0], [0,0,1,0]]]),
    PieceType(ColorBlue, [          // J
      [[0,0,0,0], [1,1,1,0], [0,0,1,0], [0,0,0,0]],
      [[0,1,0,0], [0,1,0,0], [1,1,0,0], [0,0,0,0]],
      [[1,0,0,0], [1,1,1,0], [0,0,0,0], [0,0,0,0]],
      [[0,1,1,0], [0,1,0,0], [0,1,0,0], [0,0,0,0]]]),
    PieceType(ColorOrange, [        // L
      [[0,0,0,0], [1,1,1,0], [1,0,0,0], [0,0,0,0]],
      [[1,1,0,0], [0,1,0,0], [0,1,0,0], [0,0,0,0]],
      [[0,0,1,0], [1,1,1,0], [0,0,0,0], [0,0,0,0]],
      [[0,1,0,0], [0,1,0,0], [0,1,1,0], [0,0,0,0]]]),
    PieceType(ColorYellow, [        // O
      [[0,0,0,0], [0,1,1,0], [0,1,1,0], [0,0,0,0]],
      [[0,0,0,0], [0,1,1,0], [0,1,1,0], [0,0,0,0]],
      [[0,0,0,0], [0,1,1,0], [0,1,1,0], [0,0,0,0]],
      [[0,0,0,0], [0,1,1,0], [0,1,1,0], [0,0,0,0]]]),
    PieceType(ColorGreen, [         // S
      [[0,0,0,0], [0,1,1,0], [1,1,0,0], [0,0,0,0]],
      [[0,1,0,0], [0,1,1,0], [0,0,1,0], [0,0,0,0]],
      [[0,0,0,0], [0,1,1,0], [1,1,0,0], [0,0,0,0]],
      [[0,1,0,0], [0,1,1,0], [0,0,1,0], [0,0,0,0]]]),
    PieceType(ColorMagenta, [       // T
      [[0,0,0,0], [1,1,1,0], [0,1,0,0], [0,0,0,0]],
      [[0,1,0,0], [1,1,0,0], [0,1,0,0], [0,0,0,0]],
      [[0,1,0,0], [1,1,1,0], [0,0,0,0], [0,0,0,0]],
      [[0,1,0,0], [0,1,1,0], [0,1,0,0], [0,0,0,0]]]),
    PieceType(ColorRed, [           // Z
      [[0,0,0,0], [1,1,0,0], [0,1,1,0], [0,0,0,0]],
      [[0,0,1,0], [0,1,1,0], [0,1,0,0], [0,0,0,0]],
      [[0,0,0,0], [1,1,0,0], [0,1,1,0], [0,0,0,0]],
      [[0,0,1,0], [0,1,1,0], [0,1,0,0], [0,0,0,0]]])
  ]

  /** The colour and the mask of one rotation of one catalog entry. */
  function ColorOf(kind: PieceIndex): int
  {
    Pieces[kind].color
  }

  function MaskOf(kind: PieceIndex, rotation: Rotation): Mask
  {
    Pieces[kind].rotations[rotation]
  }

  /** The number of filled cells of a mask. */
  function FilledCount(m: Mask): nat
  {
    RowCount(m[0]) + RowCount(m[1]) + RowCount(m[2]) + RowCount(m[3])
  }

  function RowCount(r: MaskRow): nat
  {
    r[0] as int + r[1] + r[2] + r[3]
  }

  /** Every catalog entry has a nonzero colour and four cells in each rotation. */
  lemma CatalogIsTetrominoes(kind: PieceIndex, rotation: Rotation)
    ensures |Pieces| == 7
    ensures ColorOf(kind) != 0
    ensures FilledCount(MaskOf(kind, rotation)) == 4
  {
  }

  /** Unrotated, every catalog piece occupies only rows 1 and 2 of its box. */
  lemma SpawnMaskRows(kind: PieceIndex, lx: int, ly: int)
    requires 0 <= lx < 4 && 0 <= ly < 4
    requires MaskOf(kind, 0)[ly][lx] == 1
    ensures 1 <= ly <= 2
  {
  }
}
