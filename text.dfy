/** String operations the source uses on FEN text, file names and URLs. */
module Text {

  /** `s.split(sep)` with a one-character separator, as in TypeScript and Python:
      the pieces between separators, empty pieces included. */
  function Split(s: string, sep: char): (parts: seq<string>)
    ensures |parts| >= 1
    ensures forall i :: 0 <= i < |parts| ==> sep !in parts[i]
    decreases |s|
  {
    if |s| == 0 then [""]
    else
      var rest := Split(s[1..], sep);
      assert s == [s[0]] + s[1..];
      if s[0] == sep then [""] + rest
      else [[s[0]] + rest[0]] + rest[1..]
  }

  /** `parts.join(sep)` (TypeScript) or `sep.join(parts)` (Python). */
  function Join(parts: seq<string>, sep: char): string
  {
    if |parts| == 0 then ""
    else if |parts| == 1 then parts[0]
    else parts[0] + [sep] + Join(parts[1..], sep)
  }

  /** Every occurrence of `from` replaced by `to`: `s.replace(/ /g, "_")` and `s.replace(' ', '_')`. */
  function ReplaceAll(s: string, from: char, to: char): (r: string)
    ensures |r| == |s|
    ensures from != to ==> from !in r
    ensures forall i :: 0 <= i < |s| && s[i] != from ==> r[i] == s[i]
    ensures forall i :: 0 <= i < |s| && s[i] == from ==> r[i] == to
  {
    seq(|s|, i requires 0 <= i < |s| => if s[i] == from then to else s[i])
  }

  predicate StartsWith(s: string, prefix: string)
  {
    |prefix| <= |s| && s[..|prefix|] == prefix
  }

  /** The last piece of a split: Python's `s.split(sep)[-1]`. */
  function LastPiece(s: string, sep: char): (r: string)
    ensures sep !in r
    ensures sep !in s ==> r == s
  {
    var parts := Split(s, sep);
    assert sep !in s ==> parts == [s] by {
      if sep !in s { NoSeparator(s, sep); }
    }
    parts[|parts| - 1]
  }

  /** Splitting then joining on the same separator gives back the string. */
  lemma {:induction false} JoinSplit(s: string, sep: char)
    ensures Join(Split(s, sep), sep) == s
    decreases |s|
  {
    if |s| > 0 {
      var rest := Split(s[1..], sep);
      JoinSplit(s[1..], sep);
      SplitStep(s, sep);
      if s[0] == sep {
        JoinCons("", rest, sep);
        assert Join(Split(s, sep), sep) == [sep] + s[1..];
      } else {
        JoinExtendHead(s[0], rest, sep);
        assert Join(Split(s, sep), sep) == [s[0]] + s[1..];
      }
      assert s == [s[0]] + s[1..];
    }
  }

  /** There is one more piece than there are separators. */
  lemma {:induction false} SplitCount(s: string, sep: char)
    ensures |Split(s, sep)| == 1 + multiset(s)[sep]
    decreases |s|
  {
    if |s| > 0 {
      SplitCount(s[1..], sep);
      assert s == [s[0]] + s[1..];
    }
  }

  /** A string splits into several pieces exactly when it holds the separator. */
  lemma SeparatorSplits(s: string, sep: char)
    ensures sep in s <==> |Split(s, sep)| > 1
  {
    SplitCount(s, sep);
    if sep in s {
      assert multiset(s)[sep] > 0;
    } else {
      assert multiset(s)[sep] == 0;
    }
  }

  /** One step of the split: the first character either starts a new piece or
      extends the first piece of the rest. */
  lemma SplitStep(s: string, sep: char)
    requires |s| > 0
    ensures |Split(s[1..], sep)| >= 1
    ensures s[0] == sep ==> Split(s, sep) == [""] + Split(s[1..], sep)
    ensures s[0] != sep ==>
      Split(s, sep) == [[s[0]] + Split(s[1..], sep)[0]] + Split(s[1..], sep)[1..]
  {
  }

  /** Joining a piece in front of at least one more piece puts a separator between. */
  lemma JoinCons(p: string, parts: seq<string>, sep: char)
    requires |parts| >= 1
    ensures Join([p] + parts, sep) == p + [sep] + Join(parts, sep)
  {
    assert ([p] + parts)[1..] == parts;
  }

  /** Extending the first piece by one character extends the join by that character. */
  lemma JoinExtendHead(c: char, parts: seq<string>, sep: char)
    requires |parts| >= 1
    ensures Join([[c] + parts[0]] + parts[1..], sep) == [c] + Join(parts, sep)
  {
    var q := [[c] + parts[0]] + parts[1..];
    assert q[1..] == parts[1..];
    if |parts| > 1 {
      assert Join(q, sep) == [c] + parts[0] + [sep] + Join(parts[1..], sep);
      assert Join(parts, sep) == parts[0] + [sep] + Join(parts[1..], sep);
    }
  }

  /** A string cut at one separator splits into the pieces of the two sides. */
  lemma {:induction false} SplitAround(a: string, b: string, sep: char)
    ensures Split(a + [sep] + b, sep) == Split(a, sep) + Split(b, sep)
    decreases |a|
  {
    var s := a + [sep] + b;
    if |a| == 0 {
      assert s[1..] == b;
    } else {
      assert s[1..] == a[1..] + [sep] + b;
      SplitAround(a[1..], b, sep);
    }
  }

  /** Joining pieces that contain no separator and splitting again gives back the pieces. */
  lemma {:induction false} SplitJoin(parts: seq<string>, sep: char)
    requires |parts| >= 1
    requires forall i :: 0 <= i < |parts| ==> sep !in parts[i]
    ensures Split(Join(parts, sep), sep) == parts
    decreases |parts|
  {
    if |parts| == 1 {
      NoSeparator(parts[0], sep);
    } else {
      var head, tail := parts[0], parts[1..];
      assert forall i :: 0 <= i < |tail| ==> tail[i] == parts[i + 1];
      SplitJoin(tail, sep);
      JoinCons(head, tail, sep);
      assert parts == [head] + tail;
      SplitAround(head, Join(tail, sep), sep);
      NoSeparator(head, sep);
    }
  }

  /** A separator-free piece in front of a separator adds one piece before the rest's. */
  lemma PieceBefore(piece: string, rest: string, sep: char)
    requires sep !in piece
    ensures var parts := Split(piece + [sep] + rest, sep);
      |parts| == 1 + |Split(rest, sep)| && parts[0] == piece && parts[1..] == Split(rest, sep)
  {
    NoSeparator(piece, sep);
    SplitAround(piece, rest, sep);
  }

  /** Six separator-free pieces joined by single separators split back into those
      pieces; `r1` to `r4` name the joined tails. */
  lemma SixPieces(f0: string, f1: string, f2: string, f3: string, f4: string, f5: string,
                  r1: string, r2: string, r3: string, r4: string, sep: char)
    requires sep !in f0 && sep !in f1 && sep !in f2 && sep !in f3 && sep !in f4 && sep !in f5
    requires r4 == f4 + [sep] + f5 && r3 == f3 + [sep] + r4
    requires r2 == f2 + [sep] + r3 && r1 == f1 + [sep] + r2
    ensures var parts := Split(f0 + [sep] + r1, sep);
      && |parts| == 6 && parts[0] == f0 && parts[1] == f1 && parts[2] == f2
      && parts[3] == f3 && parts[4] == f4 && parts[5] == f5
  {
    NoSeparator(f5, sep);
    PieceBefore(f4, f5, sep);
    PieceBefore(f3, r4, sep);
    PieceBefore(f2, r3, sep);
    PieceBefore(f1, r2, sep);
    PieceBefore(f0, r1, sep);
  }

  /** A string without the separator is a single piece. */
  lemma NoSeparator(s: string, sep: char)
    requires sep !in s
    ensures Split(s, sep) == [s]
  {
    SeparatorSplits(s, sep);
    JoinSplit(s, sep);
  }

  /** Joining appends the separator and the new last piece. */
  lemma {:induction false} JoinSnoc(parts: seq<string>, last: string, sep: char)
    requires |parts| >= 1
    ensures Join(parts + [last], sep) == Join(parts, sep) + [sep] + last
    decreases |parts|
  {
    if |parts| > 1 {
      assert (parts + [last])[1..] == parts[1..] + [last];
      JoinSnoc(parts[1..], last, sep);
    }
  }

  /** A character that is neither the separator nor in any piece is not in the join. */
  lemma {:induction false} NotInJoin(parts: seq<string>, sep: char, c: char)
    requires c != sep
    requires forall i :: 0 <= i < |parts| ==> c !in parts[i]
    ensures c !in Join(parts, sep)
    decreases |parts|
  {
    if |parts| > 1 {
      NotInJoin(parts[1..], sep, c);
    }
  }

  /** When the first and last pieces are non-empty, the string neither starts nor ends
      with the separator. */
  lemma NoEdgeSeparator(s: string, sep: char)
    requires Split(s, sep)[0] != ""
    requires Split(s, sep)[|Split(s, sep)| - 1] != ""
    ensures s != [] && s[0] != sep && s[|s| - 1] != sep
  {
    if s != [] && s[|s| - 1] == sep {
      assert s == s[..|s| - 1] + [sep] + [];
      SplitAround(s[..|s| - 1], [], sep);
    }
  }

  /** The last piece of a string ending in a separator-free tail after a separator
      is that tail. */
  lemma LastPieceAfter(a: string, b: string, sep: char)
    requires sep !in b
    ensures LastPiece(a + [sep] + b, sep) == b
  {
    SplitAround(a, b, sep);
    NoSeparator(b, sep);
  }

  /** The last piece of a non-empty string, from that of its tail: the whole
      string when it holds no separator, else the tail's last piece. */
  lemma LastPieceStep(s: string, sep: char)
    requires |s| > 0
    ensures sep !in s ==> LastPiece(s, sep) == s
    ensures sep in s ==> LastPiece(s, sep) == LastPiece(s[1..], sep)
  {
    var t := s[1..];
    var rest := Split(t, sep);
    assert s == [s[0]] + t;
    if sep in s {
      if s[0] != sep {
        assert sep in t;
        SeparatorSplits(t, sep);
      }
      assert Split(s, sep)[|Split(s, sep)| - 1] == rest[|rest| - 1];
    }
  }

  /** The last piece is a suffix of the string, and when it is not the whole string
      a separator comes right before it. */
  lemma {:induction false} LastPieceSuffix(s: string, sep: char)
    ensures |LastPiece(s, sep)| <= |s|
    ensures s[|s| - |LastPiece(s, sep)|..] == LastPiece(s, sep)
    ensures |LastPiece(s, sep)| < |s| ==> s[|s| - |LastPiece(s, sep)| - 1] == sep
    decreases |s|
  {
    if |s| > 0 && sep in s {
      var t := s[1..];
      LastPieceSuffix(t, sep);
      LastPieceStep(s, sep);
      var last := LastPiece(t, sep);
      assert s[|s| - |last|..] == t[|t| - |last|..];
      if |last| < |t| {
        assert s[|s| - |last| - 1] == t[|t| - |last| - 1];
      } else {
        assert last == t;
        assert sep !in t;
        assert s[0] == sep;
      }
    } else if |s| > 0 {
      LastPieceStep(s, sep);
    }
  }

  /** Concatenation regrouped to the right. */
  lemma Regroup(a: string, b: string, c: string)
    ensures a + b + c == a + (b + c)
  {
  }

  /** A string is its first character followed by the rest. */
  lemma FirstAndRest(prefix: string, s: string)
    requires |s| > 0
    ensures prefix + [s[0]] + s[1..] == prefix + s
  {
    assert s == [s[0]] + s[1..];
  }

  /** Replacing characters distributes over concatenation. */
  lemma ReplaceAllAppend(a: string, b: string, from: char, to: char)
    ensures ReplaceAll(a + b, from, to) == ReplaceAll(a, from, to) + ReplaceAll(b, from, to)
  {
  }

  /** Replacing a character that does not occur changes nothing. */
  lemma ReplaceAllAbsent(s: string, from: char, to: char)
    requires from !in s
    ensures ReplaceAll(s, from, to) == s
  {
  }
}
