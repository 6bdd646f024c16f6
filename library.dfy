/** The library page (frontend/src/pages/Library.tsx): the list of saved boards,
    its optimistic delete with rollback, the client-side category filter and the
    choice between the loading, error, empty and grid views. */
module Library {
  import opened Common
  import opened Seqs
  import Browser

  /** Board ids arrive as numbers or strings; `!==` tells the two kinds apart. */
  datatype BoardId = NumId(n: int) | StrId(s: string)

  datatype SavedBoard = SavedBoard(id: BoardId, fen: string, imagePath: string,
                                   category: Option<string>, createdAt: string)

  /** What the page renders. */
  datatype View =
    | Loading
    | Failed(message: string)
    | Empty(message: string, showClearFilter: bool)
    | Grid(shown: seq<SavedBoard>)

  const AllCategories: string := "All"
  const Uncategorized: string := "Uncategorized"
  const LoadFailedMessage: string := "Failed to load your saved games."
  const DeleteFailedMessage: string := "Failed to delete the board. Ensure the server is running."
  const NoScansMessage: string := "You haven't scanned any boards yet."

  function NoMatchesMessage(selected: string): string
  {
    "No boards found in \"" + selected + "\"."
  }

  /** `board.category || "Uncategorized"`. */
  function DisplayCategory(board: SavedBoard): (c: string)
    ensures c != ""
    ensures Present(board.category) ==> c == board.category.value
    ensures !Present(board.category) ==> c == Uncategorized
  {
    OrElse(board.category, Uncategorized)
  }

  /** `filteredBoards`. */
  function Filtered(boards: seq<SavedBoard>, selected: string): (r: seq<SavedBoard>)
    ensures selected == AllCategories ==> r == boards
    ensures selected != AllCategories ==>
      (forall i :: 0 <= i < |r| ==> r[i] in boards && DisplayCategory(r[i]) == selected)
    ensures selected != AllCategories ==>
      (forall i :: 0 <= i < |boards| && DisplayCategory(boards[i]) == selected ==> boards[i] in r)
    ensures selected != AllCategories ==>
      (forall b :: multiset(r)[b] == if DisplayCategory(b) == selected then multiset(boards)[b] else 0)
  {
    if selected == AllCategories then boards
    else
      FilterMembers(boards, (b: SavedBoard) => DisplayCategory(b) == selected);
      FilterCounts(boards, (b: SavedBoard) => DisplayCategory(b) == selected);
      FilterBy(boards, (b: SavedBoard) => DisplayCategory(b) == selected)
  }

  /** `boards.filter(board => board.id !== id)`. */
  function Without(boards: seq<SavedBoard>, id: BoardId): (r: seq<SavedBoard>)
    ensures forall i :: 0 <= i < |r| ==> r[i].id != id && r[i] in boards
    ensures forall i :: 0 <= i < |boards| && boards[i].id != id ==> boards[i] in r
    ensures forall b :: multiset(r)[b] == if b.id != id then multiset(boards)[b] else 0
  {
    FilterMembers(boards, (b: SavedBoard) => b.id != id);
    FilterCounts(boards, (b: SavedBoard) => b.id != id);
    FilterBy(boards, (b: SavedBoard) => b.id != id)
  }

  /** The filter keeps the boards it shows in their stored order. */
  lemma FilteredIsSubsequence(boards: seq<SavedBoard>, selected: string)
    ensures IsSubsequence(Filtered(boards, selected), boards)
  {
    if selected == AllCategories {
      FilterKeepsAll(boards, (b: SavedBoard) => true);
      FilterIsSubsequence(boards, (b: SavedBoard) => true);
    } else {
      FilterIsSubsequence(boards, (b: SavedBoard) => DisplayCategory(b) == selected);
    }
  }

  /** Filtering what is already filtered changes nothing. */
  lemma FilteredIdempotent(boards: seq<SavedBoard>, selected: string)
    ensures Filtered(Filtered(boards, selected), selected) == Filtered(boards, selected)
  {
    if selected != AllCategories {
      FilterIdempotent(boards, (b: SavedBoard) => DisplayCategory(b) == selected);
    }
  }

  /** The optimistic removal keeps the other boards in their order. */
  lemma WithoutIsSubsequence(boards: seq<SavedBoard>, id: BoardId)
    ensures IsSubsequence(Without(boards, id), boards)
  {
    FilterIsSubsequence(boards, (b: SavedBoard) => b.id != id);
  }

  /** A list without the id is left as it is. */
  lemma WithoutAbsent(boards: seq<SavedBoard>, id: BoardId)
    requires forall i :: 0 <= i < |boards| ==> boards[i].id != id
    ensures Without(boards, id) == boards
  {
    FilterKeepsAll(boards, (b: SavedBoard) => b.id != id);
  }

  /** The view for a given page state. */
  function Render(boards: seq<SavedBoard>, isLoading: bool, error: string, selected: string): (v: View)
    ensures isLoading <==> v.Loading?
    ensures v.Failed? <==> !isLoading && error != ""
    ensures v.Empty? ==> (v.showClearFilter <==> |boards| > 0)
    ensures v.Grid? ==> v.shown == Filtered(boards, selected) && v.shown != []
    ensures !isLoading && error == "" ==> (v.Grid? <==> Filtered(boards, selected) != [])
    ensures v.Failed? ==> v.message == error
    ensures v.Empty? ==> v.message == (if boards == [] then NoScansMessage else NoMatchesMessage(selected))
  {
    if isLoading then Loading
    else if error != "" then Failed(error)
    else
      var shown := Filtered(boards, selected);
      if |shown| == 0 then
        Empty(if |boards| == 0 then NoScansMessage else NoMatchesMessage(selected), |boards| > 0)
      else Grid(shown)
  }

  /** Once loaded without error, the "haven't scanned" message shows exactly when
      there are no boards at all, and then without a Clear Filter button. */
  lemma NoScansIff(boards: seq<SavedBoard>, selected: string)
    ensures Render(boards, false, "", selected) == Empty(NoScansMessage, false) <==> boards == []
  {
    if boards != [] {
      var v := Render(boards, false, "", selected);
      if v.Empty? {
        assert v.message[0] == 'N' != NoScansMessage[0];
      }
    }
  }

  /** Clear Filter shows every board again. */
  lemma ClearFilterShowsAll(boards: seq<SavedBoard>)
    requires boards != []
    ensures Render(boards, false, "", AllCategories) == Grid(boards)
  {
  }

  class Page {
    var boards: seq<SavedBoard>
    var isLoading: bool
    var error: string
    var selectedCategory: string

    constructor ()
      ensures boards == [] && isLoading && error == "" && selectedCategory == AllCategories
    {
      boards := [];
      isLoading := true;
      error := "";
      selectedCategory := AllCategories;
    }

    function View(): View
      reads this
    {
      Render(boards, isLoading, error, selectedCategory)
    }

    /** `fetchLibrary`: the fetched list on success, an error message on failure;
        loading ends either way. */
    method FetchLibrary(data: Result<seq<SavedBoard>, string>)
      modifies this
      ensures !isLoading && selectedCategory == old(selectedCategory)
      ensures data.Ok? ==> boards == data.value && error == old(error)
      ensures data.Err? ==> boards == old(boards) && error == LoadFailedMessage
      ensures data.Err? ==> View() == Failed(LoadFailedMessage)
    {
      if data.Ok? {
        boards := data.value;
      } else {
        error := LoadFailedMessage;
      }
      isLoading := false;
    }

    /** The synchronous part of `handleDelete`: snapshot, then remove the id. */
    method StartDelete(id: BoardId) returns (snapshot: seq<SavedBoard>)
      modifies this
      ensures snapshot == old(boards)
      ensures boards == Without(old(boards), id)
      ensures isLoading == old(isLoading) && error == old(error) && selectedCategory == old(selectedCategory)
    {
      snapshot := boards;
      boards := Without(boards, id);
    }

    /** The part of `handleDelete` after the remote delete settles: on failure the
        snapshot comes back and an alert is raised. */
    method SettleDelete(snapshot: seq<SavedBoard>, succeeded: bool, window: Browser.Window)
      modifies this, window
      ensures succeeded ==> boards == old(boards) && window.alerts == old(window.alerts)
      ensures !succeeded ==> boards == snapshot && window.alerts == old(window.alerts) + [DeleteFailedMessage]
      ensures isLoading == old(isLoading) && error == old(error) && selectedCategory == old(selectedCategory)
      ensures window.storage == old(window.storage) && window.navigations == old(window.navigations)
      ensures window.tabs == old(window.tabs)
    {
      if !succeeded {
        boards := snapshot;
        window.Alert(DeleteFailedMessage);
      }
    }

    /** `handleDelete` run to completion without another handler in between. */
    method HandleDelete(id: BoardId, succeeded: bool, window: Browser.Window)
      modifies this, window
      ensures succeeded ==> boards == Without(old(boards), id) && window.alerts == old(window.alerts)
      ensures !succeeded ==> boards == old(boards) && window.alerts == old(window.alerts) + [DeleteFailedMessage]
      ensures isLoading == old(isLoading) && error == old(error) && selectedCategory == old(selectedCategory)
      ensures window.storage == old(window.storage) && window.navigations == old(window.navigations)
      ensures window.tabs == old(window.tabs)
    {
      var snapshot := StartDelete(id);
      SettleDelete(snapshot, succeeded, window);
    }

    method SelectCategory(selected: string)
      modifies this
      ensures selectedCategory == selected
      ensures boards == old(boards) && isLoading == old(isLoading) && error == old(error)
    {
      selectedCategory := selected;
    }

    /** The Clear Filter button. */
    method ClearFilter()
      modifies this
      ensures selectedCategory == AllCategories
      ensures boards == old(boards) && isLoading == old(isLoading) && error == old(error)
      ensures !isLoading && error == "" && boards != [] ==> View() == Grid(boards)
    {
      selectedCategory := AllCategories;
    }
  }
}
