/**
 * Stonehenge (assignments/a2/stonehenge.py): a triangular board of
 * lettered cells that two players claim in turn, and three groups of
 * ley-line markers, one group per direction (rows, diagonal-right,
 * diagonal-left). A player who holds at least half of the cells of a
 * ley-line takes its marker, if it is still unclaimed; whoever holds at
 * least half of all markers has won.
 *
 * Cells and markers are one-character Python strings; here each is a
 * `char`, a row of cells is a `string` and so is a marker group. Python's
 * negative indices are kept as written and resolved with `Seqs.At` and
 * `Seqs.PyIndex`.
 */
module Stonehenge {
  import opened Wrappers
  import opened Seqs

  datatype StonehengeState = StonehengeState(
    p1Turn: bool,
    size: int,
    cells: seq<string>,
    leyLineMarkers: seq<string>)

  /** A cell's position: its row and its (non-negative) place in that row. */
  datatype Cell = Cell(row: nat, col: nat)

  // ---------------------------------------------------------------------
  // The board
  // ---------------------------------------------------------------------

  /** `alpha_list` of `cell_list`: 'A' .. 'Z'. */
  function Alphabet(): string
  {
    seq(26, i requires 0 <= i < 26 => (65 + i) as char)
  }

  lemma AlphabetLetters()
    ensures Alphabet() == "ABCDEFGHIJKLMNOPQRSTUVWXYZ"
  {
  }

  /** Python's `s[lo:hi]` for non-negative bounds: clamped to the list, empty when hi <= lo. */
  function PySlice(s: string, lo: nat, hi: nat): string
  {
    if lo >= |s| || hi <= lo then [] else s[lo..if hi <= |s| then hi else |s|]
  }

  /** Where row k starts in the alphabet: rows 0, 1, 2, ... hold 2, 3, 4, ... letters. */
  function Offset(k: nat): nat
  {
    if k == 0 then 0 else Offset(k - 1) + k + 1
  }

  /** The number of cells in row k of a board of the given size: k + 2, and `size` in the last row. */
  function RowLength(size: int, k: int): int
  {
    if k < size then k + 2 else size
  }

  /** The board `cell_list` builds, described by where each row starts and how long it is. */
  function Board(size: nat): seq<string>
  {
    seq(size + 1, k requires 0 <= k <= size => BoardRow(size, k))
  }

  /** Row k of `Board(size)`: the letters from `Offset(k)` on, as many as the row holds. */
  function BoardRow(size: nat, k: nat): string
  {
    PySlice(Alphabet(), Offset(k), Offset(k) + RowLength(size, k))
  }

  /** `StonehengeGame.cell_list`: its running `start`/`end` pair walks the same row offsets. */
  method CellList(size: nat) returns (result: seq<string>)
    ensures result == Board(size)
  {
    var start, end := 0, 1;
    result := [];
    for i := 2 to size + 2
      invariant |result| == i - 2
      invariant start == Offset(i - 2) && end == start + i - 1
      invariant forall k :: 0 <= k < |result| ==> result[k] == BoardRow(size, k)
    {
      var line := PySlice(Alphabet(), start, end + 1);
      assert line == BoardRow(size, i - 2);
      result := result + [line];
      start := end + 1;
      end := start + i;
    }
    var lastLine := PySlice(Alphabet(), start, start + size);
    assert lastLine == BoardRow(size, size);
    result := result + [lastLine];
    assert forall k :: 0 <= k <= size ==> result[k] == Board(size)[k];
  }

  /** Rows have the lengths `cell_list` gives them: size + 1 rows, row k of k + 2 cells, a last row of `size`. */
  predicate Shaped(size: int, cells: seq<string>)
  {
    size >= 0 && |cells| == size + 1
    && forall k :: 0 <= k < |cells| ==> |cells[k]| == RowLength(size, k)
  }

  /** Three marker groups of size + 1 markers each. */
  predicate MarkersShaped(size: int, markers: seq<string>)
  {
    |markers| == 3 && forall g :: 0 <= g < 3 ==> |markers[g]| == size + 1
  }

  /** The shape every state the game builds has. */
  predicate WellFormed(st: StonehengeState)
  {
    Shaped(st.size, st.cells) && MarkersShaped(st.size, st.leyLineMarkers)
  }

  lemma {:induction false} OffsetMonotone(j: nat, k: nat)
    requires j <= k
    ensures Offset(j) + (k - j) <= Offset(k)
    decreases k
  {
    if j < k {
      OffsetMonotone(j, k - 1);
    }
  }

  lemma OffsetFive()
    ensures Offset(5) == 20
  {
    assert Offset(1) == 2 && Offset(2) == 5 && Offset(3) == 9 && Offset(4) == 14;
  }

  /** Up to size 5 every row fits in the alphabet and is the slice starting at its offset. */
  lemma RowSpan(size: nat, k: nat)
    requires size <= 5 && k <= size
    ensures Offset(k) + RowLength(size, k) <= 25
    ensures BoardRow(size, k) == Alphabet()[Offset(k)..Offset(k) + RowLength(size, k)]
  {
    OffsetFive();
    if k < size {
      OffsetMonotone(k + 1, 5);
    } else {
      OffsetMonotone(k, 5);
    }
  }

  lemma {:induction false} BoardPrefix(size: nat, n: nat)
    requires size <= 5 && n <= size
    ensures Offset(n) <= 20
    ensures Flatten(Board(size)[..n]) == Alphabet()[..Offset(n)]
    decreases n
  {
    OffsetFive();
    OffsetMonotone(n, 5);
    if n > 0 {
      BoardPrefix(size, n - 1);
      RowSpan(size, n - 1);
      PrefixStep(Board(size), n, Alphabet(), Offset(n - 1), Offset(n));
    }
  }

  /** A flattened prefix that spells a[..lo], followed by a row spelling a[lo..hi], spells a[..hi]. */
  lemma PrefixStep(rows: seq<string>, n: nat, a: string, lo: nat, hi: nat)
    requires 0 < n <= |rows| && lo <= hi <= |a|
    requires Flatten(rows[..n - 1]) == a[..lo] && rows[n - 1] == a[lo..hi]
    ensures Flatten(rows[..n]) == a[..hi]
  {
    assert rows[..n][..n - 1] == rows[..n - 1];
    assert a[..lo] + a[lo..hi] == a[..hi];
  }

  /**
   * For sizes up to 5 the board has the intended shape, and the cell in
   * row k, place j is the letter at `Offset(k) + j`.
   */
  lemma BoardShape(size: nat)
    requires size <= 5
    ensures Shaped(size, Board(size))
    ensures forall k, j :: 0 <= k <= size && 0 <= j < |Board(size)[k]| ==>
      Offset(k) + j < 26 && Board(size)[k][j] == Alphabet()[Offset(k) + j]
  {
    var b := Board(size);
    forall k | 0 <= k <= size
      ensures |b[k]| == RowLength(size, k)
      ensures forall j :: 0 <= j < |b[k]| ==> Offset(k) + j < 26 && b[k][j] == Alphabet()[Offset(k) + j]
    {
      RowSpan(size, k);
    }
  }

  lemma AlphabetOrder()
    ensures forall i, j :: 0 <= i < j < 26 ==> Alphabet()[i] < Alphabet()[j]
    ensures forall i :: 0 <= i < 26 ==> 'A' <= Alphabet()[i] <= 'Z'
  {
  }

  lemma BoardFlatten(size: nat)
    requires size <= 5
    ensures Offset(size) + size <= 25
    ensures Flatten(Board(size)) == Alphabet()[..Offset(size) + size]
  {
    var b := Board(size);
    BoardPrefix(size, size);
    RowSpan(size, size);
    assert b[..size + 1][..size] == b[..size];
    assert b[..size + 1] == b;
  }

  /**
   * For sizes up to 5 the cells, read row by row, are the first
   * `Offset(size) + size` letters of the alphabet in order: distinct
   * capital letters.
   */
  lemma BoardLetters(size: nat)
    requires size <= 5
    ensures Offset(size) + size <= 25
    ensures Flatten(Board(size)) == Alphabet()[..Offset(size) + size]
    ensures forall i, j :: 0 <= i < j < |Flatten(Board(size))| ==> Flatten(Board(size))[i] < Flatten(Board(size))[j]
    ensures forall c :: c in Flatten(Board(size)) ==> 'A' <= c <= 'Z'
  {
    BoardFlatten(size);
    AlphabetOrder();
  }

  /** The boards of sizes 1 and 3, spelled out. */
  lemma SmallBoards()
    ensures Board(1) == ["AB", "C"]
    ensures Board(3) == ["AB", "CDE", "FGHI", "JKL"]
  {
    AlphabetLetters();
    var abc := "ABCDEFGHIJKLMNOPQRSTUVWXYZ";
    assert Offset(1) == 2 && Offset(2) == 5 && Offset(3) == 9;
    RowSpan(1, 0);
    RowSpan(1, 1);
    assert Board(1)[0] == abc[0..2] == "AB";
    assert Board(1)[1] == abc[2..3] == "C";
    RowSpan(3, 0);
    RowSpan(3, 1);
    RowSpan(3, 2);
    RowSpan(3, 3);
    assert Board(3)[0] == abc[0..2] == "AB";
    assert Board(3)[1] == abc[2..5] == "CDE";
    assert Board(3)[2] == abc[5..9] == "FGHI";
    assert Board(3)[3] == abc[9..12] == "JKL";
  }

  /** The markers the constructor lays out: three groups of size + 1 unclaimed markers. */
  function Unclaimed(size: nat): seq<string>
  {
    seq(3, g => seq(size + 1, i => '@'))
  }

  /** `StonehengeGame.__init__`; the size read from the keyboard is the parameter. */
  method NewStonehengeGame(p1Starts: bool, size: nat) returns (st: StonehengeState)
    ensures st == StonehengeState(p1Starts, size, Board(size), Unclaimed(size))
  {
    var markers := [seq(size + 1, i => '@'), seq(size + 1, i => '@'), seq(size + 1, i => '@')];
    var cells := CellList(size);
    st := StonehengeState(p1Starts, size, cells, markers);
  }

  // ---------------------------------------------------------------------
  // Possible moves
  // ---------------------------------------------------------------------

  /** The cells of a row that neither player has claimed, in order. */
  function Free(s: string): (r: string)
    ensures |r| <= |s|
    ensures forall i :: 0 <= i < |r| ==> r[i] != '1' && r[i] != '2'
  {
    if s == [] then []
    else Free(s[..|s| - 1]) + (if s[|s| - 1] == '1' || s[|s| - 1] == '2' then [] else [s[|s| - 1]])
  }

  lemma {:induction false} FreeConcat(a: string, b: string)
    ensures Free(a + b) == Free(a) + Free(b)
    decreases |b|
  {
    if b == [] {
      assert a + b == a;
    } else {
      assert (a + b)[..|a + b| - 1] == a + b[..|b| - 1];
      FreeConcat(a, b[..|b| - 1]);
    }
  }

  lemma {:induction false} FreeMember(s: string, c: char)
    ensures c in Free(s) <==> c in s && c != '1' && c != '2'
    decreases |s|
  {
    if s != [] {
      FreeMember(s[..|s| - 1], c);
      assert s == s[..|s| - 1] + [s[|s| - 1]];
    }
  }

  /** Whether a player holds at least half of the 3 * len(markers[0]) ley-line markers. */
  predicate Decided(markers: seq<string>)
    requires |markers| > 0
  {
    2 * Count(Flatten(markers), '1') >= 3 * |markers[0]|
    || 2 * Count(Flatten(markers), '2') >= 3 * |markers[0]|
  }

  /** The list `get_possible_moves` returns. */
  function PossibleMoves(st: StonehengeState): (moves: seq<char>)
    requires |st.leyLineMarkers| > 0
    ensures Decided(st.leyLineMarkers) ==> moves == []
    ensures |moves| <= |Flatten(st.cells)|
    ensures forall i :: 0 <= i < |moves| ==> moves[i] != '1' && moves[i] != '2'
  {
    if Decided(st.leyLineMarkers) then [] else Free(Flatten(st.cells))
  }

  /**
   * No move once a player holds half of the markers; otherwise the moves
   * are exactly the cells that are not yet '1' or '2'.
   */
  lemma PossibleMovesSpec(st: StonehengeState, c: char)
    requires |st.leyLineMarkers| > 0
    ensures Decided(st.leyLineMarkers) ==> PossibleMoves(st) == []
    ensures c in PossibleMoves(st) <==>
      !Decided(st.leyLineMarkers) && c != '1' && c != '2'
      && exists k :: 0 <= k < |st.cells| && c in st.cells[k]
  {
    FreeMember(Flatten(st.cells), c);
    FlattenMember(st.cells, c);
  }

  /** `StonehengeState.get_possible_moves`: two counting loops, then a collecting loop. */
  method GetPossibleMoves(st: StonehengeState) returns (result: seq<char>)
    requires |st.leyLineMarkers| > 0
    ensures result == PossibleMoves(st)
  {
    var markers, cells := st.leyLineMarkers, st.cells;
    var count1, count2 := 0, 0;
    for g := 0 to |markers|
      invariant count1 == Count(Flatten(markers[..g]), '1')
      invariant count2 == Count(Flatten(markers[..g]), '2')
    {
      var group := markers[g];
      for j := 0 to |group|
        invariant count1 == Count(Flatten(markers[..g]), '1') + Count(group[..j], '1')
        invariant count2 == Count(Flatten(markers[..g]), '2') + Count(group[..j], '2')
      {
        assert group[..j + 1][..j] == group[..j];
        if group[j] == '1' {
          count1 := count1 + 1;
        } else if group[j] == '2' {
          count2 := count2 + 1;
        }
      }
      assert group[..|group|] == group;
      assert markers[..g + 1][..g] == markers[..g];
      CountConcat(Flatten(markers[..g]), group, '1');
      CountConcat(Flatten(markers[..g]), group, '2');
    }
    assert markers[..|markers|] == markers;
    if 2 * count1 >= 3 * |markers[0]| || 2 * count2 >= 3 * |markers[0]| {
      return [];
    }
    result := [];
    for k := 0 to |cells|
      invariant result == Free(Flatten(cells[..k]))
    {
      var line := cells[k];
      for j := 0 to |line|
        invariant result == Free(Flatten(cells[..k])) + Free(line[..j])
      {
        assert line[..j + 1][..j] == line[..j];
        if line[j] != '1' && line[j] != '2' {
          result := result + [line[j]];
        }
      }
      assert line[..|line|] == line;
      assert cells[..k + 1][..k] == cells[..k];
      FreeConcat(Flatten(cells[..k]), line);
    }
    assert cells[..|cells|] == cells;
  }

  /** `is_valid_move` of the base class: the move is one of the possible moves. */
  predicate IsValidMove(st: StonehengeState, move: string)
    requires |st.leyLineMarkers| > 0
    ensures IsValidMove(st, move) ==> |move| == 1 && move[0] != '1' && move[0] != '2' && !Decided(st.leyLineMarkers)
  {
    |move| == 1 && move[0] in PossibleMoves(st)
  }

  // ---------------------------------------------------------------------
  // Finding the played cell
  // ---------------------------------------------------------------------

  /** Python's `s.index(c)`: the first position of c. */
  function IndexOf(s: string, c: char): (i: nat)
    requires c in s
    ensures i < |s| && s[i] == c && c !in s[..i]
  {
    if s[0] == c then 0
    else
      var i := 1 + IndexOf(s[1..], c);
      assert s[..i] == [s[0]] + s[1..][..i - 1];
      i
  }

  /** The first row holding c: the head of `make_move`'s `index_move` list. */
  function RowOf(rows: seq<string>, c: char): (k: nat)
    requires exists k :: 0 <= k < |rows| && c in rows[k]
    ensures k < |rows| && c in rows[k]
    ensures forall k' :: 0 <= k' < k ==> c !in rows[k']
  {
    if c in rows[0] then 0
    else
      var k :| 0 <= k < |rows| && c in rows[k];
      assert c in rows[1..][k - 1];
      1 + RowOf(rows[1..], c)
  }

  /** Whether (l, m) is a cell of the board. */
  predicate OnBoard(cells: seq<string>, l: int, m: int)
  {
    0 <= l < |cells| && 0 <= m < |cells[l]|
  }

  /**
   * The cell a valid move names: the first occurrence of its letter, row
   * by row; the letter is there and is not claimed.
   */
  function MoveCell(st: StonehengeState, move: string): (p: Cell)
    requires |st.leyLineMarkers| > 0 && IsValidMove(st, move)
    ensures OnBoard(st.cells, p.row, p.col) && st.cells[p.row][p.col] == move[0]
    ensures move[0] != '1' && move[0] != '2'
    ensures forall k :: 0 <= k < p.row ==> move[0] !in st.cells[k]
    ensures move[0] !in st.cells[p.row][..p.col]
  {
    PossibleMovesSpec(st, move[0]);
    var l := RowOf(st.cells, move[0]);
    Cell(l, IndexOf(st.cells[l], move[0]))
  }

  // ---------------------------------------------------------------------
  // Ley-lines, as the four extractors build them
  // ---------------------------------------------------------------------

  function Upper(cells: seq<string>): seq<string>
    requires |cells| > 0
  {
    cells[..|cells| - 1]
  }

  function Last(cells: seq<string>): string
    requires |cells| > 0
  {
    cells[|cells| - 1]
  }

  /** The entry at the negative Python index i of every row long enough to have one. */
  function FromRight(layers: seq<string>, i: int): string
    requires i < 0
  {
    if layers == [] then []
    else
      var layer := layers[|layers| - 1];
      FromRight(layers[..|layers| - 1], i) + (if -i <= |layer| then [At(layer, i)] else [])
  }

  /** The entry at index j of every row long enough to have one. */
  function FromLeft(layers: seq<string>, j: nat): string
  {
    if layers == [] then []
    else
      var layer := layers[|layers| - 1];
      FromLeft(layers[..|layers| - 1], j) + (if j <= |layer| - 1 then [layer[j]] else [])
  }

  /**
   * `dr_leyline_v1`: the upper rows at `inverse`, then the last row at
   * `inverse + 1` when `indexm <= len(cells[-1]) - 2`. The requires are
   * exactly when none of these indexings raises.
   */
  function DrV1(cells: seq<string>, indexm: int, inverse: int): string
    requires |cells| > 0 && inverse < 0
    requires indexm <= |Last(cells)| - 2 ==> -|Last(cells)| <= inverse + 1 < |Last(cells)|
  {
    FromRight(Upper(cells), inverse)
    + (if indexm <= |Last(cells)| - 2 then [At(Last(cells), inverse + 1)] else [])
  }

  /** `dr_leyline_v2`: the upper rows at `inverse - 1`, then the last row at `inverse`. */
  function DrV2(cells: seq<string>, inverse: int): string
    requires |cells| > 0 && inverse <= 0 && -|Last(cells)| <= inverse < |Last(cells)|
  {
    FromRight(Upper(cells), inverse - 1) + [At(Last(cells), inverse)]
  }

  /** `dl_leyline_v1`: the upper rows at `indexm`, then the last row at `indexm - 1` when `0 <= indexm - 1 <= len(cells[-1])`. */
  function DlV1(cells: seq<string>, indexm: int): string
    requires |cells| > 0 && indexm >= 0
    requires 0 <= indexm - 1 <= |Last(cells)| ==> indexm - 1 < |Last(cells)|
  {
    FromLeft(Upper(cells), indexm)
    + (if 0 <= indexm - 1 <= |Last(cells)| then [Last(cells)[indexm - 1]] else [])
  }

  /** `dl_leyline_v2`: the upper rows at `indexm + 1`, then the last row at `indexm`. */
  function DlV2(cells: seq<string>, indexm: int): string
    requires |cells| > 0 && 0 <= indexm < |Last(cells)|
  {
    FromLeft(Upper(cells), indexm + 1) + [Last(cells)[indexm]]
  }

  method DrLeylineV1(cells: seq<string>, indexm: int, inverse: int) returns (leyLine: string)
    requires |cells| > 0 && inverse < 0
    requires indexm <= |Last(cells)| - 2 ==> -|Last(cells)| <= inverse + 1 < |Last(cells)|
    ensures leyLine == DrV1(cells, indexm, inverse)
  {
    var layers := cells[..|cells| - 1];
    leyLine := [];
    for k := 0 to |layers|
      invariant leyLine == FromRight(layers[..k], inverse)
    {
      var layer := layers[k];
      if -1 * inverse <= |layer| {
        leyLine := leyLine + [layer[PyIndex(|layer|, inverse)]];
      }
      assert layers[..k + 1][..k] == layers[..k];
    }
    assert layers[..|layers|] == layers;
    var last := cells[|cells| - 1];
    if indexm <= |last| - 2 {
      leyLine := leyLine + [last[PyIndex(|last|, inverse + 1)]];
    }
  }

  method DrLeylineV2(cells: seq<string>, inverse: int) returns (leyLine: string)
    requires |cells| > 0 && inverse <= 0 && -|Last(cells)| <= inverse < |Last(cells)|
    ensures leyLine == DrV2(cells, inverse)
  {
    var layers := cells[..|cells| - 1];
    leyLine := [];
    for k := 0 to |layers|
      invariant leyLine == FromRight(layers[..k], inverse - 1)
    {
      var layer := layers[k];
      if -1 * (inverse - 1) <= |layer| {
        leyLine := leyLine + [layer[PyIndex(|layer|, inverse - 1)]];
      }
      assert layers[..k + 1][..k] == layers[..k];
    }
    assert layers[..|layers|] == layers;
    var last := cells[|cells| - 1];
    leyLine := leyLine + [last[PyIndex(|last|, inverse)]];
  }

  method DlLeylineV1(cells: seq<string>, indexm: int) returns (leyLine: string)
    requires |cells| > 0 && indexm >= 0
    requires 0 <= indexm - 1 <= |Last(cells)| ==> indexm - 1 < |Last(cells)|
    ensures leyLine == DlV1(cells, indexm)
  {
    var layers := cells[..|cells| - 1];
    leyLine := [];
    for k := 0 to |layers|
      invariant leyLine == FromLeft(layers[..k], indexm)
    {
      var layer := layers[k];
      if indexm <= |layer| - 1 {
        leyLine := leyLine + [layer[indexm]];
      }
      assert layers[..k + 1][..k] == layers[..k];
    }
    assert layers[..|layers|] == layers;
    var last := cells[|cells| - 1];
    if 0 <= indexm - 1 <= |last| {
      leyLine := leyLine + [last[indexm - 1]];
    }
  }

  method DlLeylineV2(cells: seq<string>, indexm: int) returns (leyLine: string)
    requires |cells| > 0 && 0 <= indexm < |Last(cells)|
    ensures leyLine == DlV2(cells, indexm)
  {
    var layers := cells[..|cells| - 1];
    leyLine := [];
    for k := 0 to |layers|
      invariant leyLine == FromLeft(layers[..k], indexm + 1)
    {
      var layer := layers[k];
      if indexm + 1 <= |layer| - 1 {
        leyLine := leyLine + [layer[indexm + 1]];
      }
      assert layers[..k + 1][..k] == layers[..k];
    }
    assert layers[..|layers|] == layers;
    var last := cells[|cells| - 1];
    leyLine := leyLine + [last[indexm]];
  }

  /**
   * The (Python) index of the marker that group g rechecks after a move at
   * (l, m): `indexl`; `indexm_inverse`, one less in the last row; `indexm`,
   * one more in the last row. On a shaped board it is always in range.
   */
  function Site(size: int, cells: seq<string>, l: int, m: int, g: int): (i: int)
    requires Shaped(size, cells) && OnBoard(cells, l, m) && 0 <= g < 3
    ensures -(size + 1) <= i < size + 1
  {
    var inverse := m - |cells[l]|;
    if g == 0 then l
    else if g == 1 then (if l + 1 != |cells| then inverse else inverse - 1)
    else (if l + 1 != |cells| then m else m + 1)
  }

  /**
   * The ley-line of group g through (l, m), as `markers_after_claimed`
   * picks it: the row itself, or the diagonal extractor for a cell in
   * an upper row or in the last row. On a shaped board every extractor
   * index is in range.
   */
  function Line(size: int, cells: seq<string>, l: int, m: int, g: int): string
    requires Shaped(size, cells) && OnBoard(cells, l, m) && 0 <= g < 3
  {
    var inverse := m - |cells[l]|;
    if g == 0 then cells[l]
    else if g == 1 then (if l + 1 != |cells| then DrV1(cells, m, inverse) else DrV2(cells, inverse))
    else (if l + 1 != |cells| then DlV1(cells, m) else DlV2(cells, m))
  }

  lemma {:induction false} FromRightMember(layers: seq<string>, i: int, k: nat)
    requires i < 0 && k < |layers| && -i <= |layers[k]|
    ensures At(layers[k], i) in FromRight(layers, i)
    decreases |layers|
  {
    if k < |layers| - 1 {
      assert layers[..|layers| - 1][k] == layers[k];
      FromRightMember(layers[..|layers| - 1], i, k);
    }
  }

  lemma {:induction false} FromLeftMember(layers: seq<string>, j: nat, k: nat)
    requires k < |layers| && j < |layers[k]|
    ensures layers[k][j] in FromLeft(layers, j)
    decreases |layers|
  {
    if k < |layers| - 1 {
      assert layers[..|layers| - 1][k] == layers[k];
      FromLeftMember(layers[..|layers| - 1], j, k);
    }
  }

  /** Every ley-line rechecked after a move passes through the cell just played. */
  lemma LineHasCell(size: int, cells: seq<string>, l: int, m: int, g: int)
    requires Shaped(size, cells) && OnBoard(cells, l, m) && 0 <= g < 3
    ensures cells[l][m] in Line(size, cells, l, m, g)
  {
    var inverse := m - |cells[l]|;
    assert At(cells[l], inverse) == cells[l][m];
    if l + 1 != |cells| {
      assert Upper(cells)[l] == cells[l];
      if g == 1 {
        FromRightMember(Upper(cells), inverse, l);
      } else if g == 2 {
        FromLeftMember(Upper(cells), m, l);
      }
    }
  }

  // ---------------------------------------------------------------------
  // Claiming markers
  // ---------------------------------------------------------------------

  /** `display_player`: the mark of the player to move. */
  function DisplayPlayer(p1Turn: bool): (mark: char)
    ensures mark == '1' || mark == '2'
    ensures mark == '1' <==> p1Turn
  {
    if p1Turn then '1' else '2'
  }

  /** `take_turn`: whether it is p1's turn after this one. */
  function TakeTurn(p1Turn: bool): (p1Next: bool)
    ensures p1Next <==> !p1Turn
  {
    if p1Turn then false else true
  }

  /**
   * One marker group after a recheck: an unclaimed marker at `index` goes
   * to `mark` when `mark` holds at least half of `line`.
   */
  function ClaimAt(group: string, index: int, line: string, mark: char): string
    requires -|group| <= index < |group|
  {
    if At(group, index) == '@' && 2 * Count(line, mark) >= |line| then group[PyIndex(|group|, index) := mark]
    else group
  }

  /** The three groups `markers_after_claimed` returns. */
  function ClaimedMarkers(size: int, markers: seq<string>, cells: seq<string>, l: int, m: int, mark: char): seq<string>
    requires Shaped(size, cells) && MarkersShaped(size, markers) && OnBoard(cells, l, m)
  {
    seq(3, g requires 0 <= g < 3 => ClaimAt(markers[g], Site(size, cells, l, m, g), Line(size, cells, l, m, g), mark))
  }

  /** `claim_marker`: writes the mover's mark into the group, in place, when they hold half the line. */
  method ClaimMarker(p1Turn: bool, leyLine: string, markerList: array<char>, index: int)
    requires -markerList.Length <= index < markerList.Length
    modifies markerList
    ensures var mark := DisplayPlayer(p1Turn);
      markerList[..] ==
        if 2 * Count(leyLine, mark) >= |leyLine| then old(markerList[..])[PyIndex(markerList.Length, index) := mark]
        else old(markerList[..])
  {
    var player := DisplayPlayer(p1Turn);
    var count := Count(leyLine, player);
    if 2 * count >= |leyLine| {
      markerList[PyIndex(markerList.Length, index)] := player;
    }
  }

  /** `list(group)`: a fresh character array holding the group's markers. */
  method CopyGroup(group: string) returns (a: array<char>)
    ensures fresh(a) && a[..] == group
  {
    a := new char[|group|](i requires 0 <= i < |group| => group[i]);
  }

  /** The horizontal block of `markers_after_claimed`: rechecks marker `indexl` against row `indexl`. */
  method RecheckRow(p1Turn: bool, size: int, group: string, cells: seq<string>, indexl: int, indexm: int)
    returns (claimed: string)
    requires Shaped(size, cells) && |group| == size + 1 && OnBoard(cells, indexl, indexm)
    ensures claimed == ClaimAt(group, Site(size, cells, indexl, indexm, 0), Line(size, cells, indexl, indexm, 0), DisplayPlayer(p1Turn))
  {
    var group1 := CopyGroup(group);
    if group1[indexl] == '@' {
      ClaimMarker(p1Turn, cells[indexl], group1, indexl);
    }
    claimed := group1[..];
  }

  /** The diagonal-right block of `markers_after_claimed`. */
  method RecheckDr(p1Turn: bool, size: int, group: string, cells: seq<string>, indexl: int, indexm: int)
    returns (claimed: string)
    requires Shaped(size, cells) && |group| == size + 1 && OnBoard(cells, indexl, indexm)
    ensures claimed == ClaimAt(group, Site(size, cells, indexl, indexm, 1), Line(size, cells, indexl, indexm, 1), DisplayPlayer(p1Turn))
  {
    var inverse := indexm - |cells[indexl]|;
    var group2 := CopyGroup(group);
    if indexl + 1 != |cells| {
      if group2[PyIndex(group2.Length, inverse)] == '@' {
        var leyLine := DrLeylineV1(cells, indexm, inverse);
        ClaimMarker(p1Turn, leyLine, group2, inverse);
      }
    } else {
      if group2[PyIndex(group2.Length, inverse - 1)] == '@' {
        var leyLine := DrLeylineV2(cells, inverse);
        ClaimMarker(p1Turn, leyLine, group2, inverse - 1);
      }
    }
    claimed := group2[..];
  }

  /** The diagonal-left block of `markers_after_claimed`. */
  method RecheckDl(p1Turn: bool, size: int, group: string, cells: seq<string>, indexl: int, indexm: int)
    returns (claimed: string)
    requires Shaped(size, cells) && |group| == size + 1 && OnBoard(cells, indexl, indexm)
    ensures claimed == ClaimAt(group, Site(size, cells, indexl, indexm, 2), Line(size, cells, indexl, indexm, 2), DisplayPlayer(p1Turn))
  {
    var group3 := CopyGroup(group);
    if indexl + 1 != |cells| {
      if group3[indexm] == '@' {
        var leyLine := DlLeylineV1(cells, indexm);
        ClaimMarker(p1Turn, leyLine, group3, indexm);
      }
    } else {
      if group3[indexm + 1] == '@' {
        var leyLine := DlLeylineV2(cells, indexm);
        ClaimMarker(p1Turn, leyLine, group3, indexm + 1);
      }
    }
    claimed := group3[..];
  }

  /** `markers_after_claimed`: copies each group, then rechecks the one marker of each group through (indexl, indexm). */
  method MarkersAfterClaimed(p1Turn: bool, size: int, markers: seq<string>, cells: seq<string>, indexl: int, indexm: int)
    returns (result: seq<string>)
    requires Shaped(size, cells) && MarkersShaped(size, markers) && OnBoard(cells, indexl, indexm)
    ensures result == ClaimedMarkers(size, markers, cells, indexl, indexm, DisplayPlayer(p1Turn))
  {
    var group1 := RecheckRow(p1Turn, size, markers[0], cells, indexl, indexm);
    var group2 := RecheckDr(p1Turn, size, markers[1], cells, indexl, indexm);
    var group3 := RecheckDl(p1Turn, size, markers[2], cells, indexl, indexm);
    result := [group1, group2, group3];
  }

  // ---------------------------------------------------------------------
  // make_move
  // ---------------------------------------------------------------------

  /** The state `make_move` returns. */
  function Apply(st: StonehengeState, move: string): (r: StonehengeState)
    requires WellFormed(st)
    ensures !IsValidMove(st, move) ==> r == st
    ensures IsValidMove(st, move) ==> r.p1Turn == !st.p1Turn && r.size == st.size && |r.cells| == |st.cells|
  {
    if !IsValidMove(st, move) then st
    else
      var p := MoveCell(st, move);
      var mark := DisplayPlayer(st.p1Turn);
      var cells := st.cells[p.row := st.cells[p.row][p.col := mark]];
      StonehengeState(TakeTurn(st.p1Turn), st.size, cells,
        ClaimedMarkers(st.size, st.leyLineMarkers, cells, p.row, p.col, mark))
  }

  /** `StonehengeState.make_move`: copies the board, marks the played cell in place, rechecks the markers. */
  method MakeMove(st: StonehengeState, move: string) returns (result: StonehengeState)
    requires WellFormed(st)
    ensures result == Apply(st, move)
  {
    if !IsValidMove(st, move) {
      return st;
    }
    var cells := st.cells;
    var markers := st.leyLineMarkers;
    PossibleMovesSpec(st, move[0]);
    var indexl := RowOf(cells, move[0]);
    var indexm := IndexOf(cells[indexl], move[0]);
    cells := cells[indexl := cells[indexl][indexm := DisplayPlayer(st.p1Turn)]];
    var newMarkers := MarkersAfterClaimed(st.p1Turn, st.size, markers, cells, indexl, indexm);
    result := StonehengeState(TakeTurn(st.p1Turn), st.size, cells, newMarkers);
  }

  /**
   * An invalid move returns the state itself. A valid move marks exactly
   * the cell it names with the mover's mark ('1' iff it was p1's turn),
   * leaves every other cell and the size alone, passes the turn and keeps
   * the board's shape.
   */
  lemma MakeMoveCells(st: StonehengeState, move: string)
    requires WellFormed(st)
    ensures !IsValidMove(st, move) ==> Apply(st, move) == st
    ensures IsValidMove(st, move) ==>
      var r := Apply(st, move);
      var p := MoveCell(st, move);
      && WellFormed(r) && r.size == st.size
      && r.p1Turn == !st.p1Turn
      && r.cells[p.row][p.col] == (if st.p1Turn then '1' else '2')
      && |r.cells| == |st.cells|
      && (forall k :: 0 <= k < |st.cells| ==> |r.cells[k]| == |st.cells[k]|)
      && forall k, j :: OnBoard(st.cells, k, j) && (k != p.row || j != p.col) ==> r.cells[k][j] == st.cells[k][j]
  {
    if IsValidMove(st, move) {
      var r := Apply(st, move);
      assert forall g :: 0 <= g < 3 ==> |r.leyLineMarkers[g]| == |st.leyLineMarkers[g]|;
    }
  }

  lemma FreeUpdate(row: string, m: nat, x: char)
    requires m < |row| && row[m] != '1' && row[m] != '2' && (x == '1' || x == '2')
    ensures |Free(row[m := x])| == |Free(row)| - 1
    ensures forall c :: c in Free(row[m := x]) ==> c in Free(row)
  {
    var after := row[m := x];
    assert row == row[..m] + [row[m]] + row[m + 1..];
    assert after == row[..m] + [x] + row[m + 1..];
    FreeConcat(row[..m] + [row[m]], row[m + 1..]);
    FreeConcat(row[..m], [row[m]]);
    FreeConcat(row[..m] + [x], row[m + 1..]);
    FreeConcat(row[..m], [x]);
    assert Free([x]) == [] by { assert [x][..0] == []; }
    assert Free([row[m]]) == [row[m]] by { assert [row[m]][..0] == []; }
  }

  lemma FreeRowsUpdate(cells: seq<string>, l: nat, row: string)
    requires l < |cells|
    ensures Free(Flatten(cells[l := row])) == Free(Flatten(cells[..l])) + Free(row) + Free(Flatten(cells[l + 1..]))
    ensures Free(Flatten(cells)) == Free(Flatten(cells[..l])) + Free(cells[l]) + Free(Flatten(cells[l + 1..]))
  {
    forall r: string | true
      ensures Free(Flatten(cells[l := r])) == Free(Flatten(cells[..l])) + Free(r) + Free(Flatten(cells[l + 1..]))
    {
      var c := cells[l := r];
      assert c == cells[..l] + [r] + cells[l + 1..];
      FlattenConcat(cells[..l] + [r], cells[l + 1..]);
      FlattenConcat(cells[..l], [r]);
      assert Flatten([r]) == r by { assert [r][..0] == []; }
      FreeConcat(Flatten(cells[..l]) + r, Flatten(cells[l + 1..]));
      FreeConcat(Flatten(cells[..l]), r);
    }
    assert cells[l := cells[l]] == cells;
  }

  /**
   * A valid move claims one free cell: the unclaimed cells afterwards are
   * one fewer, and every one of them was unclaimed before. So a cell free
   * in a later state was free in every earlier one.
   */
  lemma MakeMoveFree(st: StonehengeState, move: string)
    requires WellFormed(st) && IsValidMove(st, move)
    ensures |Free(Flatten(Apply(st, move).cells))| == |Free(Flatten(st.cells))| - 1
    ensures forall c :: c in Free(Flatten(Apply(st, move).cells)) ==> c in Free(Flatten(st.cells))
  {
    var p := MoveCell(st, move);
    var mark := DisplayPlayer(st.p1Turn);
    var row := st.cells[p.row][p.col := mark];
    FreeRowsUpdate(st.cells, p.row, row);
    FreeUpdate(st.cells[p.row], p.col, mark);
  }

  /**
   * Markers after a valid move: in each group at most the marker at the
   * group's site changes; it changes exactly when it was unclaimed and
   * the mover holds at least half of the line through the played cell,
   * and it then becomes the mover's mark. A claimed marker never changes.
   */
  lemma MakeMoveMarkers(st: StonehengeState, move: string, g: int, i: int)
    requires WellFormed(st) && IsValidMove(st, move) && 0 <= g < 3 && 0 <= i < st.size + 1
    ensures var r := Apply(st, move);
      var p := MoveCell(st, move);
      var mark := if st.p1Turn then '1' else '2';
      Shaped(st.size, r.cells) && MarkersShaped(st.size, r.leyLineMarkers)
      && var line := Line(st.size, r.cells, p.row, p.col, g);
      && (r.leyLineMarkers[g][i] != st.leyLineMarkers[g][i] <==>
           i == PyIndex(st.size + 1, Site(st.size, st.cells, p.row, p.col, g))
           && st.leyLineMarkers[g][i] == '@' && 2 * Count(line, mark) >= |line|)
      && (r.leyLineMarkers[g][i] != st.leyLineMarkers[g][i] ==> r.leyLineMarkers[g][i] == mark)
      && (st.leyLineMarkers[g][i] != '@' ==> r.leyLineMarkers[g][i] == st.leyLineMarkers[g][i])
  {
    MakeMoveCells(st, move);
  }

  // ---------------------------------------------------------------------
  // The game
  // ---------------------------------------------------------------------

  /** The player to move, from `p1_turn`. */
  function PlayerName(st: StonehengeState): (name: string)
    ensures name == "p1" || name == "p2"
    ensures name == "p1" <==> st.p1Turn
  {
    if st.p1Turn then "p1" else "p2"
  }

  /** `StonehengeGame.is_over`. */
  predicate IsOver(st: StonehengeState)
    requires |st.leyLineMarkers| > 0
    ensures IsOver(st) <==> Decided(st.leyLineMarkers) || Free(Flatten(st.cells)) == []
  {
    PossibleMoves(st) == []
  }

  /** `StonehengeGame.is_winner`, whose docstring restricts `player` to 'p1' and 'p2'. */
  predicate IsWinner(st: StonehengeState, player: string)
    requires |st.leyLineMarkers| > 0 && (player == "p1" || player == "p2")
    ensures IsWinner(st, player) ==> IsOver(st)
    ensures IsOver(st) ==> (IsWinner(st, player) <==> player == (if st.p1Turn then "p2" else "p1"))
  {
    PlayerName(st) != player && IsOver(st)
  }

  /**
   * The winner is the player who is not to move, once the game is over:
   * exactly one of p1 and p2 then, nobody before.
   */
  lemma WinnerSpec(st: StonehengeState)
    requires |st.leyLineMarkers| > 0
    ensures IsOver(st) ==> IsWinner(st, "p1") != IsWinner(st, "p2")
    ensures !IsWinner(st, PlayerName(st))
    ensures !IsOver(st) ==> !IsWinner(st, "p1") && !IsWinner(st, "p2")
  {
  }

  /** `StonehengeGame.str_to_move`: the text if it is a valid move, else the invalid move "-1". */
  function StrToMove(st: StonehengeState, text: string): (r: string)
    requires |st.leyLineMarkers| > 0
    ensures IsValidMove(st, r) || r == "-1"
    ensures r == text <==> IsValidMove(st, text) || text == "-1"
    ensures !IsValidMove(st, "-1")
  {
    if IsValidMove(st, text) then text else "-1"
  }

  /** A possible move reads back as itself. */
  lemma StrToMoveRoundTrip(st: StonehengeState, c: char)
    requires |st.leyLineMarkers| > 0 && c in PossibleMoves(st)
    ensures StrToMove(st, [c]) == [c]
  {
  }

  /** Playing the cells of path in turn, each a possible move when played, leads from st to end. */
  predicate Reaches(st: StonehengeState, path: seq<char>, end: StonehengeState)
    decreases |path|
  {
    if path == [] then end == st
    else WellFormed(st) && path[0] in PossibleMoves(st) && Reaches(Apply(st, [path[0]]), path[1..], end)
  }

  /** A cell that is a possible move after a move was already a possible move before it. */
  lemma MoveStaysPossible(st: StonehengeState, d: char, c: char)
    requires WellFormed(st) && d in PossibleMoves(st)
    requires |Apply(st, [d]).leyLineMarkers| > 0 && c in PossibleMoves(Apply(st, [d]))
    ensures c in PossibleMoves(st)
  {
    var after := Apply(st, [d]);
    assert IsValidMove(st, [d]);
    MakeMoveFree(st, [d]);
    assert !Decided(after.leyLineMarkers) && c in Free(Flatten(after.cells));
    assert !Decided(st.leyLineMarkers);
  }

  /**
   * The engines type a move of any state they reach back through the
   * game's `str_to_move`, which checks it against the game's current
   * state, the root of the search. Every move possible in a state reached
   * from the root by possible moves is possible at the root, so it reads
   * back as itself.
   */
  lemma {:induction false} ReachedMovesReadBack(root: StonehengeState, path: seq<char>, end: StonehengeState, c: char)
    requires Reaches(root, path, end) && |end.leyLineMarkers| > 0 && c in PossibleMoves(end)
    ensures |root.leyLineMarkers| > 0 && c in PossibleMoves(root) && StrToMove(root, [c]) == [c]
    decreases |path|
  {
    if path != [] {
      var next := Apply(root, [path[0]]);
      assert IsValidMove(root, [path[0]]);
      MakeMoveCells(root, [path[0]]);
      ReachedMovesReadBack(next, path[1..], end, c);
      MoveStaysPossible(root, path[0], c);
    }
  }

  // ---------------------------------------------------------------------
  // Worked games
  // ---------------------------------------------------------------------

  /**
   * The diagonal-right lines as the extractors compute them on the size-3
   * board (rows AB, CDE, FGHI, JKL). The guard of `dr_leyline_v1` tests
   * the column `indexm` against the last row's length, not the position
   * from the right, so B's line picks up J from the far end of the last
   * row and H's line misses L, even though L's own line (built by
   * `dr_leyline_v2`) is A, D, H, L. The model keeps this behaviour.
   */
  lemma DrLinesAsWritten()
    ensures var b := ["AB", "CDE", "FGHI", "JKL"];
      && Shaped(3, b)
      && Line(3, b, 0, 1, 1) == "BEIJ"
      && Line(3, b, 2, 2, 1) == "ADH"
      && Line(3, b, 3, 2, 1) == "ADHL"
      && Line(3, b, 3, 0, 1) == "FJ"
      && 'H' in Line(3, b, 3, 2, 1) && 'L' !in Line(3, b, 2, 2, 1)
  {
    SizeThreeShaped();
    SizeThreeUpperLines();
    SizeThreeLastLines();
  }

  /** The diagonal-right lines through B and H, both cells of upper rows of the size-3 board. */
  lemma SizeThreeUpperLines()
    ensures Shaped(3, ["AB", "CDE", "FGHI", "JKL"])
    ensures Line(3, ["AB", "CDE", "FGHI", "JKL"], 0, 1, 1) == "BEIJ"
    ensures Line(3, ["AB", "CDE", "FGHI", "JKL"], 2, 2, 1) == "ADH"
  {
    var b := ["AB", "CDE", "FGHI", "JKL"];
    SizeThreeShaped();
    assert Upper(b) == ["AB", "CDE", "FGHI"] && Last(b) == "JKL";
    SizeThreeFromRight();
    assert At("JKL", 0) == 'J';
  }

  /** The diagonal-right lines through L and J, both cells of the last row of the size-3 board. */
  lemma SizeThreeLastLines()
    ensures Shaped(3, ["AB", "CDE", "FGHI", "JKL"])
    ensures Line(3, ["AB", "CDE", "FGHI", "JKL"], 3, 2, 1) == "ADHL"
    ensures Line(3, ["AB", "CDE", "FGHI", "JKL"], 3, 0, 1) == "FJ"
  {
    var b := ["AB", "CDE", "FGHI", "JKL"];
    SizeThreeShaped();
    assert Upper(b) == ["AB", "CDE", "FGHI"] && Last(b) == "JKL";
    SizeThreeFromRight();
    assert At("JKL", -1) == 'L' && At("JKL", -3) == 'J';
  }

  /** The rows of the size-3 board have the lengths 2, 3, 4 and 3. */
  lemma SizeThreeShaped()
    ensures Shaped(3, ["AB", "CDE", "FGHI", "JKL"])
  {
    assert RowLength(3, 0) == 2 && RowLength(3, 1) == 3 && RowLength(3, 2) == 4 && RowLength(3, 3) == 3;
  }

  /** The entries the diagonal-right extractors take from the upper rows of the size-3 board. */
  lemma SizeThreeFromRight()
    ensures FromRight(["AB", "CDE", "FGHI"], -1) == "BEI"
    ensures FromRight(["AB", "CDE", "FGHI"], -2) == "ADH"
    ensures FromRight(["AB", "CDE", "FGHI"], -4) == "F"
  {
    var u := ["AB", "CDE", "FGHI"];
    assert u[..2] == ["AB", "CDE"] && ["AB", "CDE"][..1] == ["AB"] && ["AB"][..0] == [];
    FromRightLast(["AB", "CDE"], -1, 'B', 'E');
    FromRightLast(["AB", "CDE"], -2, 'A', 'D');
    assert FromRight(["AB", "CDE"], -4) == "";
    assert At("FGHI", -1) == 'I' && At("FGHI", -2) == 'H' && At("FGHI", -4) == 'F';
  }

  /** Two rows long enough for index i contribute their entries at i, in order. */
  lemma FromRightLast(rows: seq<string>, i: int, a: char, b: char)
    requires |rows| == 2 && i < 0 && -i <= |rows[0]| && -i <= |rows[1]|
    requires At(rows[0], i) == a && At(rows[1], i) == b
    ensures FromRight(rows, i) == [a, b]
  {
    var first := rows[..1];
    assert first[0] == rows[0] && first[..0] == [];
    assert FromRight(first, i) == [a];
  }

  /** The size-1 board before any move: all three cells free. */
  lemma SizeOneStart()
    ensures var s0 := StonehengeState(true, 1, ["AB", "C"], ["@@", "@@", "@@"]);
      WellFormed(s0) && PossibleMoves(s0) == "ABC"
  {
    SizeOneShaped();
    SizeOneMarkersOpen();
    SizeOneCellsFree();
  }

  /** The size-1 start board is well formed. */
  lemma SizeOneShaped()
    ensures WellFormed(StonehengeState(true, 1, ["AB", "C"], ["@@", "@@", "@@"]))
  {
    assert RowLength(1, 0) == 2 && RowLength(1, 1) == 1;
  }

  /** No ley-line is claimed on the size-1 start board, so the game is not decided. */
  lemma SizeOneMarkersOpen()
    ensures !Decided(["@@", "@@", "@@"])
  {
    var f := Flatten(["@@", "@@", "@@"]);
    assert f == "@@@@@@" by {
      assert ["@@", "@@", "@@"][..2] == ["@@", "@@"];
      assert ["@@", "@@"][..1] == ["@@"];
      assert ["@@"][..0] == [];
    }
    CountBound(f, '1');
    CountBound(f, '2');
    assert '1' !in f && '2' !in f;
  }

  /** Every cell of the size-1 start board is free. */
  lemma SizeOneCellsFree()
    ensures Free(Flatten(["AB", "C"])) == "ABC"
  {
    assert Flatten(["AB", "C"]) == "ABC" by {
      assert ["AB", "C"][..1] == ["AB"];
      assert ["AB"][..0] == [];
    }
    assert "ABC"[..2] == "AB" && "AB"[..1] == "A" && "A"[..0] == [];
  }

  /** Playing A on the size-1 board marks the top-left cell. */
  lemma SizeOneMoveA()
    ensures var s0 := StonehengeState(true, 1, ["AB", "C"], ["@@", "@@", "@@"]);
      IsValidMove(s0, "A") && MoveCell(s0, "A") == Cell(0, 0)
  {
    SizeOneStart();
    assert 'A' in "AB";
  }

  /** After A on the size-1 board, every ley-line through A is held by p1. */
  lemma SizeOneLines()
    ensures var cells := ["1B", "C"];
      Shaped(1, cells) && OnBoard(cells, 0, 0)
      && ClaimedMarkers(1, ["@@", "@@", "@@"], cells, 0, 0, '1') == ["1@", "1@", "1@"]
  {
    var cells := ["1B", "C"];
    assert Line(1, cells, 0, 0, 0) == "1B";
    assert Line(1, cells, 0, 0, 1) == "1" by {
      assert Upper(cells) == ["1B"] && Upper(cells)[..0] == [];
      assert At("1B", -2) == '1';
      assert FromRight(["1B"], -2) == "1";
    }
    assert Line(1, cells, 0, 0, 2) == "1" by {
      assert Upper(cells) == ["1B"] && Upper(cells)[..0] == [];
    }
    assert Count("1B", '1') == 1 by { assert "1B"[..1] == "1"; }
    assert Count("1", '1') == 1;
    assert Site(1, cells, 0, 0, 0) == 0 && Site(1, cells, 0, 0, 1) == -2 && Site(1, cells, 0, 0, 2) == 0;
    assert ClaimAt("@@", 0, "1B", '1') == "1@";
    assert ClaimAt("@@", -2, "1", '1') == "1@";
  }

  /**
   * On the size-1 board (rows AB and C) the first player who takes A
   * claims the row, both diagonal markers through A, and with them half of
   * the six markers: the game is over and p1 has won.
   */
  lemma SizeOneOpening()
    ensures var s0 := StonehengeState(true, 1, ["AB", "C"], ["@@", "@@", "@@"]);
      && WellFormed(s0) && PossibleMoves(s0) == "ABC" && IsValidMove(s0, "A")
      && Apply(s0, "A") == StonehengeState(false, 1, ["1B", "C"], ["1@", "1@", "1@"])
      && IsOver(Apply(s0, "A")) && IsWinner(Apply(s0, "A"), "p1")
  {
    var s0 := StonehengeState(true, 1, ["AB", "C"], ["@@", "@@", "@@"]);
    SizeOneStart();
    SizeOneMoveA();
    SizeOneLines();
    var cells := ["1B", "C"];
    assert "AB"[0 := '1'] == "1B";
    assert ["AB", "C"][0 := "AB"[0 := '1']] == cells;
    var s1 := Apply(s0, "A");
    assert s1 == StonehengeState(false, 1, cells, ["1@", "1@", "1@"]);
    assert Flatten(s1.leyLineMarkers) == "1@1@1@" by {
      assert ["1@", "1@", "1@"][..2] == ["1@", "1@"];
      assert ["1@", "1@"][..1] == ["1@"];
      assert ["1@"][..0] == [];
    }
    assert Count("1@1@1@", '1') == 3 by {
      assert "1@1@1@"[..5] == "1@1@1";
      assert "1@1@1"[..4] == "1@1@";
      assert "1@1@"[..3] == "1@1";
      assert "1@1"[..2] == "1@";
      assert "1@"[..1] == "1";
    }
  }


  // ---------------------------------------------------------------------
  // add_between
  // ---------------------------------------------------------------------

  /** The separator of `add_between`: one value, or a list of them. */
  datatype Sep<T> = One(x: T) | Many(xs: seq<T>)

  /** The separator that goes after the i-th element. */
  function SepAt<T>(c: Sep<T>, i: nat): T
    requires c.Many? ==> i < |c.xs|
  {
    match c
    case One(x) => x
    case Many(xs) => xs[i]
  }

  /**
   * `add_between`: a list of at most one element comes back unchanged;
   * otherwise the elements sit at the even positions with the separators
   * between them. A separator list must be one shorter than the list.
   */
  method AddBetween<T>(listToAdd: seq<T>, separator: Sep<T>) returns (result: seq<T>)
    requires |listToAdd| > 1 && separator.Many? ==> |separator.xs| == |listToAdd| - 1
    ensures |listToAdd| <= 1 ==> result == listToAdd
    ensures |listToAdd| > 1 ==>
      |result| == 2 * |listToAdd| - 1
      && (forall i :: 0 <= i < |listToAdd| ==> result[2 * i] == listToAdd[i])
      && (forall i :: 0 <= i < |listToAdd| - 1 ==> result[2 * i + 1] == SepAt(separator, i))
  {
    if |listToAdd| <= 1 {
      return listToAdd;
    }
    var seps := match separator
      case One(x) => seq(|listToAdd| - 1, _ => x)
      case Many(xs) => xs;
    result := [];
    for i := 0 to |seps|
      invariant |result| == 2 * i
      invariant forall k :: 0 <= k < i ==> result[2 * k] == listToAdd[k] && result[2 * k + 1] == SepAt(separator, k)
    {
      result := result + [listToAdd[i], seps[i]];
    }
    result := result + [listToAdd[|listToAdd| - 1]];
  }

  /** The doctests of `add_between`. */
  method AddBetweenDoctests()
  {
    var xs := ["a", "b", "c"];
    var a := AddBetween(xs, One("1"));
    assert a[2 * 0] == xs[0] && a[2 * 1] == xs[1] && a[2 * 2] == xs[2];
    assert a[2 * 0 + 1] == SepAt(One("1"), 0) && a[2 * 1 + 1] == SepAt(One("1"), 1);
    assert a == ["a", "1", "b", "1", "c"];
    var b := AddBetween(["single"], One("whatever"));
    assert b == ["single"];
    var c := AddBetween(xs, Many(["1", "2"]));
    assert c[2 * 0] == xs[0] && c[2 * 1] == xs[1] && c[2 * 2] == xs[2];
    assert c[2 * 0 + 1] == SepAt(Many(["1", "2"]), 0) && c[2 * 1 + 1] == SepAt(Many(["1", "2"]), 1);
    assert c == ["a", "1", "b", "2", "c"];
  }
}
