/** The FEN encoder behind the piece classifier: 64 class indices, one per square,
    become the piece-placement field of Forsyth-Edwards Notation (section 16.1.3.1
    of the PGN Standard), followed by a fixed tail for the other five fields. */
module Predictor {
  import opened Text

  /** The board image is resized to BoardSize x BoardSize and cut into 8 x 8 squares. */
  const BoardSize: nat := 400
  const SquareSize: nat := 50

  /** The character PIECE_MAP gives an empty square (class 0). */
  const EmptyMark: char := '1'

  /** PIECE_MAP: classifier output index to FEN character. */
  const PieceMap: map<int, char> :=
    map[0 := '1',
        1 := 'P', 2 := 'N', 3 := 'B', 4 := 'R', 5 := 'Q', 6 := 'K',
        7 := 'p', 8 := 'n', 9 := 'b', 10 := 'r', 11 := 'q', 12 := 'k']

  const WhitePieces: string := "PNBRQK"
  const BlackPieces: string := "pnbrqk"

  /** The fields after the placement that `predict` appends: white to move, full
      castling rights, no en-passant square, clocks at 0 and 1. */
  const DefaultTail: string := " w KQkq - 0 1"

  /** `PIECE_MAP.get(pred, '1')`: an index outside the map reads as an empty square. */
  function PieceOf(pred: int): (c: char)
    ensures 1 <= pred <= 6 ==> c == WhitePieces[pred - 1]
    ensures 7 <= pred <= 12 ==> c == BlackPieces[pred - 7]
    ensures pred < 1 || pred > 12 ==> c == EmptyMark
    ensures IsCell(c)
  {
    if pred in PieceMap then PieceMap[pred] else EmptyMark
  }

  predicate IsPiece(c: char)
  {
    c in WhitePieces || c in BlackPieces
  }

  predicate IsDigit(c: char)
  {
    '0' <= c <= '9'
  }

  /** A square as `_to_fen` sees it after the lookup: empty or a piece letter. */
  predicate IsCell(c: char)
  {
    c == EmptyMark || IsPiece(c)
  }

  /** `str(n)` for a single-digit count. */
  function DigitChar(n: nat): (c: char)
    requires n <= 9
    ensures IsDigit(c)
  {
    ('0' as int + n) as char
  }

  function DigitValue(c: char): nat
    requires IsDigit(c)
  {
    c as int - '0' as int
  }

  /** The twelve piece classes map to twelve different letters. */
  lemma PieceMapInjective(a: int, b: int)
    requires 1 <= a <= 12 && 1 <= b <= 12
    requires PieceOf(a) == PieceOf(b)
    ensures a == b
  {
    if a <= 6 && b <= 6 {
      assert WhitePieces[a - 1] == WhitePieces[b - 1];
    } else if a > 6 && b > 6 {
      assert BlackPieces[a - 7] == BlackPieces[b - 7];
    }
  }

  // ---------------------------------------------------------------------------
  // One rank: run-length encoding of empty squares

  /** Writes out a pending count of empty squares, if there is one. */
  function Flush(run: nat): string
    requires run <= 8
  {
    if run > 0 then [DigitChar(run)] else ""
  }

  /** What `_to_fen` still appends for a rank when `run` empty squares are pending
      and `cells` are still to be read. */
  function EncodeRun(cells: seq<char>, run: nat): string
    requires run + |cells| <= 8
    decreases |cells|
  {
    if |cells| == 0 then Flush(run)
    else if cells[0] == EmptyMark then EncodeRun(cells[1..], run + 1)
    else Flush(run) + [cells[0]] + EncodeRun(cells[1..], 0)
  }

  function Repeat(c: char, n: nat): (r: seq<char>)
    ensures |r| == n && forall i :: 0 <= i < n ==> r[i] == c
  {
    seq(n, _ => c)
  }

  /** Reads a rank back: a digit d stands for d empty squares, a letter for itself. */
  function Expand(rank: string): seq<char>
  {
    if |rank| == 0 then []
    else (if IsDigit(rank[0]) then Repeat(EmptyMark, DigitValue(rank[0])) else [rank[0]])
         + Expand(rank[1..])
  }

  /** A rank is maximally compressed: only piece letters and the digits 1 to 8
      (never 0), and never two digits side by side. */
  predicate WellCompressed(rank: string)
  {
    && (forall i :: 0 <= i < |rank| ==> IsPiece(rank[i]) || '1' <= rank[i] <= '8')
    && (forall i :: 0 < i < |rank| ==> !IsDigit(rank[i - 1]) || !IsDigit(rank[i]))
  }

  lemma {:induction false} ExpandAppend(a: string, b: string)
    ensures Expand(a + b) == Expand(a) + Expand(b)
    decreases |a|
  {
    if |a| == 0 {
      assert a + b == b;
    } else {
      assert (a + b)[1..] == a[1..] + b;
      ExpandAppend(a[1..], b);
    }
  }

  lemma ExpandFlush(run: nat)
    requires run <= 8
    ensures Expand(Flush(run)) == Repeat(EmptyMark, run)
  {
    if run > 0 {
      assert Expand(Flush(run)) == Repeat(EmptyMark, run) + Expand([]);
    }
  }

  lemma ExpandLetter(c: char)
    requires !IsDigit(c)
    ensures Expand([c]) == [c]
  {
    assert Expand([c]) == [c] + Expand([]);
  }

  /** Decoding what is appended for a rank gives back the pending empties and the cells. */
  lemma {:induction false} ExpandEncodeRun(cells: seq<char>, run: nat)
    requires run + |cells| <= 8
    requires forall i :: 0 <= i < |cells| ==> IsCell(cells[i])
    ensures Expand(EncodeRun(cells, run)) == Repeat(EmptyMark, run) + cells
    decreases |cells|
  {
    if |cells| == 0 {
      ExpandFlush(run);
    } else if cells[0] == EmptyMark {
      ExpandEncodeRun(cells[1..], run + 1);
      ExpandEmptyStep(cells, run);
    } else {
      ExpandEncodeRun(cells[1..], 0);
      ExpandPieceStep(cells, run);
    }
  }

  /** The step of ExpandEncodeRun where the next square is empty. */
  lemma ExpandEmptyStep(cells: seq<char>, run: nat)
    requires run + |cells| <= 8 && |cells| > 0 && cells[0] == EmptyMark
    requires Expand(EncodeRun(cells[1..], run + 1)) == Repeat(EmptyMark, run + 1) + cells[1..]
    ensures Expand(EncodeRun(cells, run)) == Repeat(EmptyMark, run) + cells
  {
    assert EncodeRun(cells, run) == EncodeRun(cells[1..], run + 1);
    var r := Repeat(EmptyMark, run);
    assert Repeat(EmptyMark, run + 1) == r + [EmptyMark];
    assert cells == [EmptyMark] + cells[1..];
    assert r + [EmptyMark] + cells[1..] == r + cells;
  }

  /** The step of ExpandEncodeRun where the next square holds a piece. */
  lemma ExpandPieceStep(cells: seq<char>, run: nat)
    requires run + |cells| <= 8 && |cells| > 0
    requires cells[0] != EmptyMark && IsCell(cells[0])
    requires Expand(EncodeRun(cells[1..], 0)) == cells[1..]
    ensures Expand(EncodeRun(cells, run)) == Repeat(EmptyMark, run) + cells
  {
    var c, f := cells[0], Flush(run);
    var rest := EncodeRun(cells[1..], 0);
    assert EncodeRun(cells, run) == f + [c] + rest;
    ExpandAroundLetter(f, c, rest);
    ExpandFlush(run);
    FirstAndRest(Repeat(EmptyMark, run), cells);
  }

  /** A letter between two strings reads back as itself between their readings. */
  lemma ExpandAroundLetter(a: string, c: char, b: string)
    requires !IsDigit(c)
    ensures Expand(a + [c] + b) == Expand(a) + [c] + Expand(b)
  {
    ExpandAppend(a + [c], b);
    ExpandAppend(a, [c]);
    ExpandLetter(c);
  }

  /** What is appended for a rank is maximally compressed. */
  lemma {:induction false} EncodeRunCompressed(cells: seq<char>, run: nat)
    requires run + |cells| <= 8
    requires forall i :: 0 <= i < |cells| ==> IsCell(cells[i])
    ensures WellCompressed(EncodeRun(cells, run))
    decreases |cells|
  {
    if |cells| == 0 {
    } else if cells[0] == EmptyMark {
      EncodeRunCompressed(cells[1..], run + 1);
    } else {
      EncodeRunCompressed(cells[1..], 0);
      var rest := EncodeRun(cells[1..], 0);
      var r := Flush(run) + [cells[0]] + rest;
      assert !IsDigit(cells[0]);
      forall i | 0 < i < |r|
        ensures !IsDigit(r[i - 1]) || !IsDigit(r[i])
      {
        if i > |Flush(run)| + 1 {
          assert r[i - 1] == rest[i - 1 - |Flush(run)| - 1];
          assert r[i] == rest[i - |Flush(run)| - 1];
        }
      }
    }
  }

  // ---------------------------------------------------------------------------
  // The whole placement field

  /** Python slice bounds: an index past the end stops at the end. */
  function Clip(n: nat, len: nat): nat
  {
    if n <= len then n else len
  }

  /** `predictions[row * 8 : (row + 1) * 8]`, each looked up in PIECE_MAP. */
  function RowCells(p: seq<int>, row: nat): (cells: seq<char>)
    ensures |cells| <= 8
    ensures forall i :: 0 <= i < |cells| ==> IsCell(cells[i])
  {
    var lo := Clip(8 * row, |p|);
    var hi := Clip(8 * row + 8, |p|);
    Cells(p[lo..hi])
  }

  function Rank(p: seq<int>, row: nat): string
  {
    EncodeRun(RowCells(p, row), 0)
  }

  function Ranks(p: seq<int>): (ranks: seq<string>)
    ensures |ranks| == 8
  {
    seq(8, row requires 0 <= row < 8 => Rank(p, row))
  }

  /** The placement field: the eight ranks, image row 0 first, separated by '/'. */
  function Placement(p: seq<int>): string
  {
    Join(Ranks(p), '/')
  }

  /** One square of the inner loop of `_to_fen`, read off EncodeRun. */
  lemma EncodeStep(cells: seq<char>, i: nat, run: nat)
    requires i < |cells| && run + |cells| - i <= 8
    ensures cells[i] == EmptyMark ==> EncodeRun(cells[i..], run) == EncodeRun(cells[i + 1..], run + 1)
    ensures cells[i] != EmptyMark ==>
      EncodeRun(cells[i..], run) == Flush(run) + [cells[i]] + EncodeRun(cells[i + 1..], 0)
  {
    assert cells[i..][1..] == cells[i + 1..];
  }

  /** What `_to_fen` has built once `row` ranks are done. */
  ghost function PlacementPrefix(ranks: seq<string>, row: nat): string
    requires |ranks| == 8 && row <= 8
  {
    if row == 0 then ""
    else if row < 8 then Join(ranks[..row], '/') + "/"
    else Join(ranks, '/')
  }

  lemma PlacementPrefixStep(ranks: seq<string>, row: nat)
    requires |ranks| == 8 && row < 8
    ensures PlacementPrefix(ranks, row) + ranks[row] + (if row < 7 then "/" else "")
            == PlacementPrefix(ranks, row + 1)
  {
    if row == 0 {
      assert ranks[..1] == [ranks[0]];
    } else {
      assert ranks[..row + 1] == ranks[..row] + [ranks[row]];
      JoinSnoc(ranks[..row], ranks[row], '/');
    }
    if row == 7 {
      assert ranks[..8] == ranks;
    }
  }

  /** The squares of one rank after the PIECE_MAP lookup. */
  function Cells(rowPreds: seq<int>): (cells: seq<char>)
    ensures |cells| == |rowPreds|
    ensures forall i :: 0 <= i < |cells| ==> cells[i] == PieceOf(rowPreds[i]) && IsCell(cells[i])
  {
    seq(|rowPreds|, i requires 0 <= i < |rowPreds| => PieceOf(rowPreds[i]))
  }

  /** The inner loop of `_to_fen`: one rank, counting runs of empty squares. */
  method EncodeRank(rowPreds: seq<int>) returns (rank: string)
    requires |rowPreds| <= 8
    ensures rank == EncodeRun(Cells(rowPreds), 0)
  {
    ghost var cells := Cells(rowPreds);
    rank := "";
    var emptyCount := 0;
    var i := 0;
    while i < |rowPreds|
      invariant 0 <= i <= |rowPreds|
      invariant emptyCount <= i
      invariant rank + EncodeRun(cells[i..], emptyCount) == EncodeRun(cells, 0)
    {
      EncodeRankStep(cells, i, emptyCount, rank);
      var piece := PieceOf(rowPreds[i]);
      ghost var before, run := rank, emptyCount;
      if piece == EmptyMark {
        emptyCount := emptyCount + 1;
      } else {
        if emptyCount > 0 {
          rank := rank + [DigitChar(emptyCount)];
          emptyCount := 0;
        }
        assert rank == before + Flush(run);
        rank := rank + [piece];
      }
      i := i + 1;
    }
    assert cells[i..] == [];
    if emptyCount > 0 {
      rank := rank + [DigitChar(emptyCount)];
    }
  }

  /** The loop invariant of EncodeRank carried over one square. */
  lemma EncodeRankStep(cells: seq<char>, i: nat, run: nat, rank: string)
    requires |cells| <= 8 && i < |cells| && run + |cells| - i <= 8
    requires rank + EncodeRun(cells[i..], run) == EncodeRun(cells, 0)
    ensures cells[i] == EmptyMark ==> rank + EncodeRun(cells[i + 1..], run + 1) == EncodeRun(cells, 0)
    ensures cells[i] != EmptyMark ==>
      rank + Flush(run) + [cells[i]] + EncodeRun(cells[i + 1..], 0) == EncodeRun(cells, 0)
  {
    EncodeStep(cells, i, run);
    if cells[i] != EmptyMark {
      Regroup(rank + Flush(run), [cells[i]], EncodeRun(cells[i + 1..], 0));
      Regroup(rank, Flush(run), [cells[i]] + EncodeRun(cells[i + 1..], 0));
      Regroup(Flush(run), [cells[i]], EncodeRun(cells[i + 1..], 0));
    }
  }

  /** `_to_fen`: the ranks in order, each followed by '/' except the last. */
  method ToFen(predictions: seq<int>) returns (fen: string)
    ensures fen == Placement(predictions)
  {
    ghost var ranks := Ranks(predictions);
    fen := "";
    var row := 0;
    while row < 8
      invariant 0 <= row <= 8
      invariant fen == PlacementPrefix(ranks, row)
    {
      var lo := if row * 8 <= |predictions| then row * 8 else |predictions|;
      var hi := if (row + 1) * 8 <= |predictions| then (row + 1) * 8 else |predictions|;
      var rowPreds := predictions[lo..hi];
      var rank := EncodeRank(rowPreds);
      assert Cells(rowPreds) == RowCells(predictions, row);
      PlacementPrefixStep(ranks, row);
      fen := fen + rank;
      if row < 7 {
        fen := fen + "/";
      }
      row := row + 1;
    }
  }

  /** `predict`, after inference: the placement field followed by the fixed tail. */
  method Predict(predictions: seq<int>) returns (fen: string)
    ensures fen == Placement(predictions) + DefaultTail
  {
    var placement := ToFen(predictions);
    fen := placement + DefaultTail;
  }

  // ---------------------------------------------------------------------------
  // Properties of the encoding for a full board of 64 predictions

  /** A compressed rank holds neither a rank separator nor a field separator. */
  lemma CompressedHasNoSeparator(rank: string)
    requires WellCompressed(rank)
    ensures '/' !in rank && ' ' !in rank
  {
  }

  /** Each rank of a full board is maximally compressed and reads back as its eight
      squares, left to right. */
  lemma {:induction false} RankDecodes(p: seq<int>, row: nat)
    requires |p| == 64 && row < 8
    ensures Expand(Rank(p, row)) == Cells(p[8 * row .. 8 * row + 8])
    ensures |Expand(Rank(p, row))| == 8
    ensures WellCompressed(Rank(p, row))
    ensures Rank(p, row) != ""
  {
    var cells := RowCells(p, row);
    ExpandEncodeRun(cells, 0);
    assert Repeat(EmptyMark, 0) + cells == cells;
    EncodeRunCompressed(cells, 0);
  }

  /** The ranks of a full board are non-empty and hold no separator. */
  lemma RanksAreClean(p: seq<int>)
    requires |p| == 64
    ensures forall row :: 0 <= row < 8 ==>
      Ranks(p)[row] != "" && '/' !in Ranks(p)[row] && ' ' !in Ranks(p)[row]
  {
    forall row | 0 <= row < 8
      ensures Ranks(p)[row] != "" && '/' !in Ranks(p)[row] && ' ' !in Ranks(p)[row]
    {
      RankDecodes(p, row);
      CompressedHasNoSeparator(Ranks(p)[row]);
    }
  }

  /** The placement field of a full board is exactly eight non-empty ranks joined by
      seven '/' characters, with no '/' at either end and no space. */
  lemma PlacementShape(p: seq<int>)
    requires |p| == 64
    ensures Split(Placement(p), '/') == Ranks(p)
    ensures multiset(Placement(p))['/'] == 7
    ensures Placement(p) != []
    ensures Placement(p)[0] != '/' && Placement(p)[|Placement(p)| - 1] != '/'
    ensures ' ' !in Placement(p)
  {
    var ranks := Ranks(p);
    RanksAreClean(p);
    SplitJoin(ranks, '/');
    SplitCount(Placement(p), '/');
    NotInJoin(ranks, '/', ' ');
    NoEdgeSeparator(Placement(p), '/');
  }

  /** Reads a whole placement field back into squares, rank by rank. */
  function ExpandAll(ranks: seq<string>): seq<char>
  {
    if |ranks| == 0 then [] else ExpandAll(ranks[..|ranks| - 1]) + Expand(ranks[|ranks| - 1])
  }

  function Decode(placement: string): seq<char>
  {
    ExpandAll(Split(placement, '/'))
  }

  lemma CellsAppend(a: seq<int>, b: seq<int>)
    ensures Cells(a + b) == Cells(a) + Cells(b)
  {
  }

  lemma RankCells(p: seq<int>, row: nat)
    requires |p| == 64 && row < 8
    ensures Expand(Ranks(p)[row]) == Cells(p[8 * row .. 8 * row + 8])
  {
    RankDecodes(p, row);
  }

  lemma {:induction false} DecodeRanks(p: seq<int>, k: nat)
    requires |p| == 64 && k <= 8
    ensures ExpandAll(Ranks(p)[..k]) == Cells(p[..8 * k])
    decreases k
  {
    if k == 0 {
      assert Cells(p[..0]) == [];
    } else {
      var ranks := Ranks(p);
      DecodeRanks(p, k - 1);
      assert ranks[..k][..k - 1] == ranks[..k - 1];
      assert ExpandAll(ranks[..k]) == ExpandAll(ranks[..k - 1]) + Expand(ranks[k - 1]);
      RankCells(p, k - 1);
      assert p[..8 * k] == p[..8 * (k - 1)] + p[8 * (k - 1) .. 8 * k];
      CellsAppend(p[..8 * (k - 1)], p[8 * (k - 1) .. 8 * k]);
    }
  }

  /** Round trip: expanding every digit of the placement field into that many empty
      squares recovers the 64 looked-up squares in row-major order, image row 0 first. */
  lemma DecodePlacement(p: seq<int>)
    requires |p| == 64
    ensures Decode(Placement(p)) == Cells(p)
  {
    PlacementShape(p);
    DecodeRanks(p, 8);
    assert Ranks(p)[..8] == Ranks(p);
    assert p[..64] == p;
  }

  /** The full string `predict` returns has six space-separated fields: the placement,
      white to move, full castling rights, no en-passant square, clocks 0 and 1. */
  lemma PredictFields(p: seq<int>)
    requires |p| == 64
    ensures var parts := Split(Placement(p) + DefaultTail, ' ');
      && |parts| == 6 && parts[0] == Placement(p) && parts[1] == "w" && parts[2] == "KQkq"
      && parts[3] == "-" && parts[4] == "0" && parts[5] == "1"
  {
    PlacementShape(p);
    DefaultTailFields(Placement(p));
  }

  /** The default tail appended to any space-free field adds the five fixed fields. */
  lemma DefaultTailFields(head: string)
    requires ' ' !in head
    ensures var parts := Split(head + DefaultTail, ' ');
      && |parts| == 6 && parts[0] == head && parts[1] == "w" && parts[2] == "KQkq"
      && parts[3] == "-" && parts[4] == "0" && parts[5] == "1"
  {
    DefaultTailPieces(head);
    SixPieces(head, "w", "KQkq", "-", "0", "1", "w KQkq - 0 1", "KQkq - 0 1", "- 0 1", "0 1", ' ');
  }

  /** The default tail, cut at each of its spaces. */
  lemma DefaultTailPieces(head: string)
    ensures head + DefaultTail == head + [' '] + "w KQkq - 0 1"
    ensures "w KQkq - 0 1" == "w" + [' '] + "KQkq - 0 1"
    ensures "KQkq - 0 1" == "KQkq" + [' '] + "- 0 1"
    ensures "- 0 1" == "-" + [' '] + "0 1"
    ensures "0 1" == "0" + [' '] + "1"
  {
    assert DefaultTail == [' '] + "w KQkq - 0 1";
  }

  // ---------------------------------------------------------------------------
  // Cutting the board image into squares

  /** The pixel rows [yStart, yEnd) and columns [xStart, xEnd) of one square. */
  datatype Square = Square(yStart: nat, yEnd: nat, xStart: nat, xEnd: nat)

  function SquareAt(row: nat, col: nat): Square
  {
    Square(row * SquareSize, (row + 1) * SquareSize, col * SquareSize, (col + 1) * SquareSize)
  }

  predicate Covers(s: Square, y: int, x: int)
  {
    s.yStart <= y < s.yEnd && s.xStart <= x < s.xEnd
  }

  /** `_extract_squares`, without the pixels: the bounds of the 64 slices, row-major. */
  method ExtractSquares() returns (squares: seq<Square>)
    ensures |squares| == 64
    ensures forall k :: 0 <= k < 64 ==> squares[k] == SquareAt(k / 8, k % 8)
  {
    squares := [];
    var row := 0;
    while row < 8
      invariant 0 <= row <= 8
      invariant |squares| == 8 * row
      invariant forall k :: 0 <= k < |squares| ==> squares[k] == SquareAt(k / 8, k % 8)
    {
      var col := 0;
      while col < 8
        invariant 0 <= col <= 8
        invariant |squares| == 8 * row + col
        invariant forall k :: 0 <= k < |squares| ==> squares[k] == SquareAt(k / 8, k % 8)
      {
        var yStart := row * SquareSize;
        var yEnd := (row + 1) * SquareSize;
        var xStart := col * SquareSize;
        var xEnd := (col + 1) * SquareSize;
        assert (8 * row + col) / 8 == row && (8 * row + col) % 8 == col;
        squares := squares + [Square(yStart, yEnd, xStart, xEnd)];
        col := col + 1;
      }
      row := row + 1;
    }
  }

  /** The 64 squares tile the board: every pixel lies in exactly one of them, the one
      at row y / 50 and column x / 50, and none reaches outside the board. */
  lemma SquaresTile(k: int, y: int, x: int)
    requires 0 <= k < 64 && 0 <= y < BoardSize && 0 <= x < BoardSize
    ensures Covers(SquareAt(k / 8, k % 8), y, x) <==> k == (y / SquareSize) * 8 + x / SquareSize
    ensures SquareAt(k / 8, k % 8).yEnd <= BoardSize && SquareAt(k / 8, k % 8).xEnd <= BoardSize
  {
    var r, c := k / 8, k % 8;
    assert k == 8 * r + c;
    var yr, xc := y / SquareSize, x / SquareSize;
    assert 0 <= yr < 8 && 0 <= xc < 8;
    assert r * SquareSize <= y < (r + 1) * SquareSize <==> r == yr;
    assert c * SquareSize <= x < (c + 1) * SquareSize <==> c == xc;
  }
}
