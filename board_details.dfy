/** The board detail page (frontend/src/pages/BoardDetails.tsx): it reads and
    rewrites the side-to-move field of a FEN, loads a saved board with display
    defaults, and saves the edited fields back before returning to the library. */
module BoardDetails {
  import opened Common
  import opened Text
  import Browser
  import Predictor

  /** The fields the page loads from `getBoard(id)`. */
  datatype BoardData = BoardData(fen: string, imagePath: Option<string>,
                                 category: Option<string>, notes: Option<string>)

  /** The body of `updateBoard(id, …)`. */
  datatype BoardUpdate = BoardUpdate(id: string, fen: string, category: string, notes: string)

  const FallbackTail: string := " - - 0 1"
  const SaveFailedMessage: string := "Failed to save changes."
  const LibraryPath: string := "/library"

  /** `getTurn`: the second space-separated field, or "w" when there is none. */
  function GetTurn(fen: string): (turn: string)
    ensures ' ' !in turn
    ensures ' ' !in fen ==> turn == "w"
    ensures ' ' in fen ==> |Split(fen, ' ')| > 1 && turn == Split(fen, ' ')[1]
  {
    SeparatorSplits(fen, ' ');
    var parts := Split(fen, ' ');
    if |parts| > 1 then parts[1] else "w"
  }

  /** The FEN `handleTurnChange(turn)` stores. */
  function WithTurn(fen: string, turn: string): string
  {
    var parts := Split(fen, ' ');
    if |parts| > 1 then Join(parts[1 := turn], ' ')
    else fen + " " + turn + FallbackTail
  }

  /** With a second field present, only that field changes: same field count,
      every other field unchanged. */
  lemma TurnPreservesFields(fen: string, turn: string)
    requires ' ' !in turn
    requires |Split(fen, ' ')| > 1
    ensures Split(WithTurn(fen, turn), ' ') == Split(fen, ' ')[1 := turn]
    ensures |Split(WithTurn(fen, turn), ' ')| == |Split(fen, ' ')|
    ensures |Split(WithTurn(fen, turn), ' ')| > 1 && Split(WithTurn(fen, turn), ' ')[1] == turn
  {
    var parts := Split(fen, ' ');
    SplitJoin(parts[1 := turn], ' ');
  }

  /** Without a space, the fallback builds exactly six fields: the input, the turn,
      "-", "-", "0" and "1". */
  lemma TurnFallback(fen: string, turn: string)
    requires ' ' !in turn
    requires ' ' !in fen
    ensures var parts := Split(WithTurn(fen, turn), ' ');
      && |parts| == 6 && parts[0] == fen && parts[1] == turn && parts[2] == "-"
      && parts[3] == "-" && parts[4] == "0" && parts[5] == "1"
  {
    SeparatorSplits(fen, ' ');
    assert WithTurn(fen, turn) == fen + " " + turn + FallbackTail;
    FallbackPieces(fen, turn);
    SixPieces(fen, turn, "-", "-", "0", "1", turn + [' '] + "- - 0 1", "- - 0 1", "- 0 1", "0 1", ' ');
  }

  /** The fallback FEN cut at each of its spaces. */
  lemma FallbackPieces(fen: string, turn: string)
    ensures fen + " " + turn + FallbackTail == fen + [' '] + (turn + [' '] + "- - 0 1")
    ensures "- - 0 1" == "-" + [' '] + "- 0 1"
    ensures "- 0 1" == "-" + [' '] + "0 1"
    ensures "0 1" == "0" + [' '] + "1"
  {
    assert FallbackTail == [' '] + "- - 0 1";
  }

  /** After setting the turn there is a second field, and it is the turn. */
  lemma TurnIsSecondField(fen: string, turn: string)
    requires ' ' !in turn
    ensures var parts := Split(WithTurn(fen, turn), ' '); |parts| > 1 && parts[1] == turn
  {
    SeparatorSplits(fen, ' ');
    if ' ' in fen {
      TurnPreservesFields(fen, turn);
    } else {
      TurnFallback(fen, turn);
    }
  }

  /** Reading the turn back after setting it gives the turn that was set. */
  lemma TurnRoundTrip(fen: string, turn: string)
    requires ' ' !in turn
    ensures GetTurn(WithTurn(fen, turn)) == turn
  {
    TurnIsSecondField(fen, turn);
  }

  /** Setting the same turn twice is the same as setting it once. */
  lemma TurnIdempotent(fen: string, turn: string)
    requires ' ' !in turn
    ensures WithTurn(WithTurn(fen, turn), turn) == WithTurn(fen, turn)
  {
    var once := WithTurn(fen, turn);
    var parts := Split(once, ' ');
    TurnIsSecondField(fen, turn);
    assert parts[1 := turn] == parts;
    JoinSplit(once, ' ');
    assert WithTurn(once, turn) == Join(parts, ' ');
  }

  /** The FEN the prediction service produces has white to move. */
  lemma PredictedTurnIsWhite(predictions: seq<int>)
    requires |predictions| == 64
    ensures GetTurn(Predictor.Placement(predictions) + Predictor.DefaultTail) == "w"
  {
    Predictor.PredictFields(predictions);
  }

  class Page {
    const id: Option<string>
    var fen: string
    var category: string
    var notes: string
    var imageUrl: Option<string>
    var isLoading: bool
    var isSaving: bool

    /** The initial state, before `fetchBoard` has run. */
    constructor (routeId: Option<string>)
      ensures id == routeId
      ensures fen == "" && category == "Uncategorized" && notes == "" && imageUrl == Some("")
      ensures isLoading && !isSaving
    {
      id := routeId;
      fen := "";
      category := "Uncategorized";
      notes := "";
      imageUrl := Some("");
      isLoading := true;
      isSaving := false;
    }

    /** `fetchBoard`: without an id nothing is loaded; a failed fetch keeps the
        defaults; a loaded board shows its fields, with a missing or empty category
        shown as "Uncategorized" and missing notes as "". Loading ends either way. */
    method FetchBoard(data: Result<BoardData, string>)
      modifies this
      ensures !isLoading && isSaving == old(isSaving)
      ensures !Present(id) || data.Err? ==> (
        fen == old(fen) && category == old(category) && notes == old(notes) && imageUrl == old(imageUrl))
      ensures Present(id) && data.Ok? ==> (
        fen == data.value.fen && imageUrl == data.value.imagePath &&
        category == OrElse(data.value.category, "Uncategorized") &&
        notes == OrElse(data.value.notes, ""))
      ensures Present(id) && data.Ok? ==> category != ""
    {
      if !Present(id) {
        isLoading := false;
        return;
      }
      if data.Ok? {
        var board := data.value;
        fen := board.fen;
        imageUrl := board.imagePath;
        category := OrElse(board.category, "Uncategorized");
        notes := OrElse(board.notes, "");
      }
      isLoading := false;
    }

    /** `handleTurnChange`: split the FEN, overwrite field 1 in place and join, or
        append the fallback tail when there is no second field. */
    method HandleTurnChange(newTurn: string)
      modifies this
      ensures fen == WithTurn(old(fen), newTurn)
      ensures category == old(category) && notes == old(notes) && imageUrl == old(imageUrl)
      ensures isLoading == old(isLoading) && isSaving == old(isSaving)
    {
      var split := Split(fen, ' ');
      if |split| > 1 {
        var parts := new string[|split|](i requires 0 <= i < |split| => split[i]);
        parts[1] := newTurn;
        assert parts[..] == split[1 := newTurn];
        fen := Join(parts[..], ' ');
      } else {
        fen := fen + " " + newTurn + FallbackTail;
      }
    }

    /** `handleSave`: without an id nothing happens. Otherwise the current FEN,
        category and notes are sent; a failure raises an alert; either way saving
        ends and the page returns to the library. */
    method HandleSave(succeeded: bool, window: Browser.Window) returns (sent: Option<BoardUpdate>)
      modifies this, window
      ensures !Present(id) ==> sent.None? && isSaving == old(isSaving)
      ensures !Present(id) ==> window.navigations == old(window.navigations) && window.alerts == old(window.alerts)
      ensures Present(id) ==> sent == Some(BoardUpdate(id.value, fen, category, notes))
      ensures Present(id) ==> !isSaving && window.navigations == old(window.navigations) + [Browser.Route(LibraryPath)]
      ensures Present(id) && succeeded ==> window.alerts == old(window.alerts)
      ensures Present(id) && !succeeded ==> window.alerts == old(window.alerts) + [SaveFailedMessage]
      ensures fen == old(fen) && category == old(category) && notes == old(notes)
      ensures imageUrl == old(imageUrl) && isLoading == old(isLoading)
      ensures window.storage == old(window.storage) && window.tabs == old(window.tabs)
    {
      if !Present(id) {
        return None;
      }
      isSaving := true;
      sent := Some(BoardUpdate(id.value, fen, category, notes));
      if !succeeded {
        window.Alert(SaveFailedMessage);
      }
      isSaving := false;
      window.Navigate(Browser.Route(LibraryPath));
    }
  }
}
