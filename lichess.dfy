/** The Lichess board-editor link built by the prediction endpoint
    (backend/routers/predict.py) and by the Analyze button of the board page
    (frontend/src/pages/BoardDetails.tsx): the FEN with every space turned into '_'. */
module Lichess {
  import opened Text

  const EditorPrefix: string := "https://lichess.org/editor/"

  function EditorUrl(fen: string): (url: string)
    ensures StartsWith(url, EditorPrefix)
    ensures |url| == |EditorPrefix| + |fen|
    ensures ' ' !in url
  {
    EditorPrefix + ReplaceAll(fen, ' ', '_')
  }

  /** The part of a link after the editor prefix. */
  function EditorPath(url: string): string
  {
    if StartsWith(url, EditorPrefix) then url[|EditorPrefix|..] else url
  }

  /** A FEN without underscores is recovered from its link by turning '_' back into
      spaces; FEN text never holds '_'. */
  lemma EditorUrlRecoversFen(fen: string)
    requires '_' !in fen
    ensures ReplaceAll(EditorPath(EditorUrl(fen)), '_', ' ') == fen
  {
    var url := EditorUrl(fen);
    var path := EditorPath(url);
    assert path == ReplaceAll(fen, ' ', '_');
    var back := ReplaceAll(path, '_', ' ');
    assert forall i :: 0 <= i < |fen| ==> back[i] == fen[i] by {
      forall i | 0 <= i < |fen|
        ensures back[i] == fen[i]
      {
        if fen[i] == ' ' {
          assert path[i] == '_';
        } else {
          assert path[i] == fen[i];
        }
      }
    }
  }

  /** Two FENs give the same link only when they agree everywhere except where one
      has a space and the other an underscore; without underscores the link is
      injective. */
  lemma EditorUrlInjective(a: string, b: string)
    requires '_' !in a && '_' !in b
    requires EditorUrl(a) == EditorUrl(b)
    ensures a == b
  {
    EditorUrlRecoversFen(a);
    EditorUrlRecoversFen(b);
  }
}
