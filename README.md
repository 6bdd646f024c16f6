# ChessLens core, modelled in Dafny

ChessLens turns a photo of a chessboard into a FEN string and keeps a per-user library of
scanned positions. The backend is a FastAPI service. It has a classifier that maps the 64
squares of a board image to piece codes and then to a FEN placement. It also has endpoints
for prediction, registration and login, image upload to S3, and create/list/update/delete
of saved positions over a SQL database. The frontend is a React client: an axios layer that
attaches the bearer token, a route guard, a navigation bar, and the login, home, library and
board-details pages with an image drop zone.

This project models that core, one Dafny module per source file:

- **`Predictor`** (`backend/ml/predictor.py`): the piece map, the run-length encoding of a
  rank, the FEN placement, the default tail, and the tiling of the 400x400 image into
  64 squares.
- **`PredictRouter`**: the prediction endpoint.
- **`AuthRouter`**: registration and login.
- **`FenRouter`**: image upload and the user library.
- **`PositionsRouter`**: the position endpoints.
- **`Records`** (`models.py` and `schemas.py`): the ORM rows with their column limits, and
  the request and response schemas.
- **`Database`**: the SQLAlchemy session, as an in-memory pair of tables. Its commit
  enforces the declared column constraints, and its invariant covers the unique columns,
  the foreign key and the id counters.
- **`Api`** (`services/api.ts`), **`AuthGuard`**, **`Navbar`**, **`Login`**, **`Home`**,
  **`Library`**, **`BoardDetails`**, **`Dropzone`**: the client side.
- **`Browser`**: the browser services the pages touch (`localStorage`, navigation,
  `alert`, `window.open`). Storage is a map; the other services are logs of events.

Support modules:

- **`Common`**: `Option`, `Result`, HTTP errors, string truthiness.
- **`Text`**: split, join, replace.
- **`Seqs`**: filtering and subsequences.
- **`Lichess`**: the editor link that both predict.py and BoardDetails.tsx build.

State that the source updates in place is modelled with classes: the database session, the
pages' React state, the browser window, the request config and the drop zone. Pure logic is
modelled with functions. Loops in the source are methods with loop invariants, proved
against a specification function.

Async page handlers are split at their `await` into a `Start…` and a `Settle…` method. The
`Handle…` method runs the two in sequence. The remote call is a parameter: its outcome, the
uploaded flag, the hash, password-check and token functions, the uuid, the clock, and the
bucket and region.

## Model

| member | source | states |
|---|---|---|
| Predictor.PieceOf | backend/ml/predictor.py:24-28 | class 1-6 are the white pieces PNBRQK, 7-12 the black pnbrqk, anything else the empty mark '1' (`PIECE_MAP.get(pred, '1')`) |
| Predictor.PieceMapInjective | backend/ml/predictor.py:24-28 | no two piece classes map to the same letter |
| Predictor.Repeat | backend/ml/predictor.py:108-112 | n copies of one cell |
| Predictor.ExpandEncodeRun | backend/ml/predictor.py:105-117 | expanding the digits of an encoded rank gives back the pending empty run followed by exactly the rank's cells |
| Predictor.EncodeRunCompressed | backend/ml/predictor.py:108-117 | an encoded rank never has two digits in a row: each empty run is flushed as one count |
| Predictor.RowCells | backend/ml/predictor.py:103 | a row slice yields at most 8 cells, each a piece letter or the empty mark |
| Predictor.Cells | backend/ml/predictor.py:105-106 | each prediction becomes its piece-map cell, one for one |
| Predictor.EncodeRank | backend/ml/predictor.py:101-117 | the imperative rank loop with its `empty_count` produces the run-length encoding of the rank's cells |
| Predictor.EncodeStep | backend/ml/predictor.py:105-114 | one square of the rank: an empty square extends the pending run, a piece flushes the run and is written |
| Predictor.EncodeRankStep | backend/ml/predictor.py:105-114 | the text written so far followed by what the rest of the rank still writes stays the whole rank's encoding, square by square |
| Predictor.ToFen | backend/ml/predictor.py:98-121 | the nested loop produces the placement: the eight encoded ranks joined by '/' |
| Predictor.Predict | backend/ml/predictor.py:47-50 | the returned FEN is the placement followed by " w KQkq - 0 1" |
| Predictor.CompressedHasNoSeparator | backend/ml/predictor.py:105-117 | an encoded rank holds no '/' and no space |
| Predictor.RankDecodes | backend/ml/predictor.py:100-117 | each rank of a 64-square board is non-empty, well compressed and decodes to exactly its 8 cells |
| Predictor.RanksAreClean | backend/ml/predictor.py:100-120 | no rank is empty or holds a '/' or a space |
| Predictor.PlacementShape | backend/ml/predictor.py:119-120 | splitting the placement at '/' gives back the eight ranks; there are exactly seven '/' and none at either end; there is no space |
| Predictor.DecodeRanks | backend/ml/predictor.py:100-117 | the first k ranks decode to the first 8k cells |
| Predictor.DecodePlacement | backend/ml/predictor.py:98-121 | the placement decodes to exactly the 64 cells: the FEN loses nothing about the predictions |
| Predictor.PredictFields | backend/ml/predictor.py:50 | the predicted FEN splits into exactly six fields, in order the placement, "w", "KQkq", "-", "0", "1" |
| Predictor.DefaultTailFields | backend/ml/predictor.py:50 | any space-free placement followed by the default tail splits into itself and "w", "KQkq", "-", "0", "1" |
| Predictor.DefaultTailPieces | backend/ml/predictor.py:50 | the default tail is a space and the five fixed fields, each cut at its next space |
| Predictor.ExtractSquares | backend/ml/predictor.py:63-73 | the row/column loop lists the 64 squares in row-major order, square k at row k/8, column k%8 |
| Predictor.SquaresTile | backend/ml/predictor.py:64-71 | every pixel of the 400x400 image lies in exactly one square, the one at (y/50, x/50), and each square lies inside the image |
| PredictRouter.PredictFen | backend/routers/predict.py:11-39 | 503 without a model whatever the upload; else 400 for a type other than JPEG/PNG; success exactly when inference succeeds, with the FEN unchanged and its editor link; a failed inference is a 500 carrying "Prediction failed: " and the error text, and every 500 is one |
| PredictRouter.ModelCheckedFirst | backend/routers/predict.py:13-18 | without a model the content type does not matter |
| PredictRouter.PredictedLink | backend/routers/predict.py:26-33 | for the classifier's own output the link is the editor prefix, the placement, then "_w_KQkq_-_0_1" |
| PredictRouter.TailLink | backend/routers/predict.py:33 | a space-free placement with the default tail links to the placement followed by "_w_KQkq_-_0_1" |
| PredictRouter.TailUnderscored | backend/routers/predict.py:33 | the default tail with its spaces replaced reads "_w_KQkq_-_0_1" |
| Lichess.EditorUrl | backend/routers/predict.py:33 | the link starts with the editor prefix, has the FEN's length after it, and holds no space |
| Lichess.EditorUrlRecoversFen | frontend/src/pages/BoardDetails.tsx:193 | turning '_' back into spaces in the link's path gives back the FEN (for a FEN without '_') |
| Lichess.EditorUrlInjective | backend/routers/predict.py:33 | different FENs without '_' get different links |
| Records.CreateWithFen | backend/schemas.py:9-17 | a create payload with only a FEN leaves category, notes and image path unset |
| Records.ToPositionResponse | backend/schemas.py:25-32 | the response carries every column of the row |
| Records.PositionResponseLossless | backend/schemas.py:25-32 | the row can be rebuilt from its response |
| Records.ToUserResponse | backend/schemas.py:47-52 | the user response carries id, username, email and creation time |
| Records.UserResponseHidesPassword | backend/schemas.py:47-52 | the user response does not depend on the password hash |
| Database.Cascade | backend/models.py:16 | deleting a user keeps exactly the positions of other users |
| Database.WithoutId | backend/routers/positions.py:94-95 | no remaining row has the deleted id, every remaining row was stored, and every row with another id stays, as often as it was stored |
| Database.WithoutUser | backend/models.py:6-16 | deleting a user keeps exactly the other users |
| Database.WithoutUserUnique | backend/models.py:9-11 | removing users keeps ids, usernames and emails unique |
| Database.CascadeIdsUnique | backend/models.py:16-22 | the cascade keeps position ids unique |
| Database.CascadeOwnersPresent | backend/models.py:16-23 | every position the cascade keeps still has its owner |
| Database.CascadeKeepsTablesValid | backend/models.py:16-23 | the delete-orphan cascade keeps ids and usernames and emails unique and every position's owner present |
| Database.Db.constructor | backend/models.py:6-31 | the tables start empty and valid |
| Database.Db.InsertUser | backend/models.py:9-13 | a user within the column limits is committed with the next id; otherwise nothing changes; the tables stay valid |
| Database.Db.InsertPosition | backend/models.py:22-28 | a position within the limits and with an existing owner is committed with the next id; otherwise nothing changes |
| Database.Db.ReplacePosition | backend/routers/positions.py:70-73 | the edited row is committed exactly when its columns fit; otherwise the session is unchanged |
| Database.Db.RemovePositionAt | backend/routers/positions.py:94-95 | the row is removed and the others keep their order |
| Database.Db.DeleteUser | backend/models.py:16 | the user and, by cascade, its positions go; the tables stay valid |
| PositionsRouter.PrependNewest | backend/routers/positions.py:42 | a row no older than the head keeps the list newest first |
| PositionsRouter.NewestFirstTail | backend/routers/positions.py:42 | the tail of a newest-first list is newest first |
| PositionsRouter.InsertBehindHead | backend/routers/positions.py:42 | a row older than the head, inserted into the tail, leaves the head in front and the list newest first with one more row |
| PositionsRouter.InsertNewestFirst | backend/routers/positions.py:42 | insertion keeps the list newest first and adds exactly the one row |
| PositionsRouter.SelectedSnoc | backend/routers/positions.py:36-39 | the selection of one more row adds that row exactly when it matches |
| PositionsRouter.InSelected | backend/routers/positions.py:36-39 | a row is selected exactly when it is stored, owned by the user and, when a category is given, in that category |
| PositionsRouter.Query | backend/routers/positions.py:36-45 | the result is newest first, is a permutation of the matching rows, holds only the user's rows and only the category asked for, and misses no matching row |
| PositionsRouter.SortSelected | backend/routers/positions.py:36-45 | the loop inserting each matching row in a newest-first list yields a newest-first permutation of the selection |
| PositionsRouter.QueryStep | backend/routers/positions.py:36-42 | one more row keeps the list a permutation of the selection so far |
| PositionsRouter.SelectedBeforeEnds | backend/routers/positions.py:36-45 | the query starts from an empty selection and, after the last row, has selected exactly the filtered table |
| PositionsRouter.SelectedFacts | backend/routers/positions.py:36-39 | a permutation of the selection holds only matching rows and all of them |
| PositionsRouter.GetPositions | backend/routers/positions.py:29-45 | as Query, over the stored table |
| PositionsRouter.CreatePosition | backend/routers/positions.py:13-27 | the payload's fields become a new row of the current user with the next id, or 500 with no change when a column does not fit |
| PositionsRouter.SentFields | backend/routers/positions.py:67 | every listed field was sent and carries the sent value (null included), every sent field is listed, each once and in declaration order; none for an empty body, all three when all were sent |
| PositionsRouter.ApplySentFields | backend/routers/positions.py:67-71 | applying the sent fields one by one gives the update |
| PositionsRouter.ApplyAppend | backend/routers/positions.py:70-71 | applying two lists of fields in turn is applying their concatenation |
| PositionsRouter.ApplyUpdate | backend/routers/positions.py:70-71 | the `setattr` loop yields the row with every sent field set |
| PositionsRouter.Edited | backend/routers/positions.py:67-73 | the edit keeps id, owner, image and creation time, and is impossible exactly when the FEN is sent as null |
| PositionsRouter.EmptyUpdateKeepsRow | backend/routers/positions.py:67-71 | an empty body leaves the row as it is |
| PositionsRouter.UpdateIdempotent | backend/routers/positions.py:67-71 | applying the same update twice is applying it once |
| PositionsRouter.EditedFields | backend/routers/positions.py:67-71 | each sent field takes the sent value, even null; unsent fields keep theirs |
| PositionsRouter.FindOwned | backend/routers/positions.py:56-61 | finds a row with the id owned by the user exactly when there is one |
| PositionsRouter.UpdatePosition | backend/routers/positions.py:47-75 | 404 when the user owns no row with the id; else the edited row replaces it, or 500 with no change when it breaks a column constraint |
| PositionsRouter.WithoutIdAppend | backend/routers/positions.py:94 | removal by id distributes over concatenation |
| PositionsRouter.WithoutIdAbsent | backend/routers/positions.py:94 | removing an id no row has changes nothing |
| PositionsRouter.WithoutIdDropsHead | backend/routers/positions.py:94 | removing a row's id from it and rows with other ids leaves those rows |
| PositionsRouter.OnlyRowWithId | backend/routers/positions.py:84-89 | with unique ids, no other part of the table has the found row's id |
| PositionsRouter.RemoveAtIsRemoveId | backend/routers/positions.py:94 | deleting the found row is deleting its id |
| PositionsRouter.DeletePosition | backend/routers/positions.py:77-96 | 404 with no change when the user owns no row with the id; else exactly that row is gone |
| FenRouter.Extension | backend/routers/fen.py:33 | the extension holds no '.', and is the whole name when there is none |
| FenRouter.ExtensionIsSuffix | backend/routers/fen.py:33 | the extension is the end of the name, after its last '.' |
| FenRouter.StorageKeyKeepsExtension | backend/routers/fen.py:33-34 | the object key ends in the upload's extension |
| FenRouter.StorageKeySegments | backend/routers/fen.py:34 | the key has exactly three segments: "boards", the username, and uuid.extension |
| FenRouter.StorageKeyShape | backend/routers/fen.py:34 | the key is "boards", the username and the object name joined by '/', and the object name holds no '/' |
| FenRouter.ImageUrlSegments | backend/routers/fen.py:45 | the URL has exactly six '/'-separated parts: "https:", "", the host naming bucket and region, then the key's three segments |
| FenRouter.ImageUrlShape | backend/routers/fen.py:45 | the URL is "https:", an empty part, the host and the key joined by '/', and the host holds no '/' |
| FenRouter.UploadImage | backend/routers/fen.py:20-68 | an unhandled 500 when the part has no content type, and a 400 for a non-image type, both before anything is stored; 500 with no new row when the upload or the commit fails; else one row with the FEN and the image URL |
| FenRouter.UserLibrary | backend/routers/fen.py:70-80 | the user's positions, newest first, all of them and no others |
| AuthRouter.Unauthorized | backend/routers/auth.py:60-64 | 401 with the fixed detail and a Bearer challenge |
| AuthRouter.FindConflict | backend/routers/auth.py:21-25 | finds a user with the username or the email exactly when one exists |
| AuthRouter.Register | backend/routers/auth.py:15-46 | 400 when the username or email is taken; else one user with the hash of the password, answered without it, or 500 when a column does not fit; the tables stay valid |
| AuthRouter.FirstByUsername | backend/routers/auth.py:54-56 | finds a user with the name exactly when one exists |
| AuthRouter.FirstIsTheOne | backend/routers/auth.py:54-56 | with unique usernames, the user found is the only one with the name |
| AuthRouter.Login | backend/routers/auth.py:48-70 | any failure is the same 401; success is a bearer token whose subject is the username |
| AuthRouter.LoginRejectsUniformly | backend/routers/auth.py:59-64 | an unknown user and a wrong password get the same answer |
| AuthRouter.LoginSucceedsIff | backend/routers/auth.py:54-70 | login succeeds exactly when a user has the name and the password checks against its hash |
| AuthRouter.RegisteredUserCanLogIn | backend/routers/auth.py:37-70 | a newly registered user logs in with the password that was hashed |
| Api.BearerValue | frontend/src/services/api.ts:16 | the credential is "Bearer " followed by the token |
| Api.BearerParses | frontend/src/services/api.ts:16 | a token without spaces splits back out of the credential after the scheme |
| Api.Intercepted | frontend/src/services/api.ts:12-21 | with a non-empty token the Authorization header is its bearer credential; without one the headers are unchanged; other headers are kept |
| Api.Intercept | frontend/src/services/api.ts:12-21 | the interceptor changes only the config, as Intercepted says, and never writes storage |
| Api.InterceptedAuthorization | frontend/src/services/api.ts:14-17 | the header is present exactly when a token is, with scheme Bearer |
| Api.FormValue | frontend/src/services/api.ts:28-30 | a key's value is found exactly when the form has the key |
| Api.LoginUser | frontend/src/services/api.ts:23-38 | a form of username then password, form-encoded, to the login path |
| Api.RegisterUser | frontend/src/services/api.ts:40-48 | the user data unchanged, as JSON, to the registration path |
| Api.Encode | frontend/src/services/api.ts:28-36 | the body is empty exactly when the form is |
| Api.DecodeEncodePair | frontend/src/services/api.ts:28-36 | one field reads back as its key and value |
| Api.DecodeEncode | frontend/src/services/api.ts:28-36 | the server reads back exactly the fields sent |
| Api.LoginFormReadable | frontend/src/services/api.ts:28-36 | both credentials reach the server |
| Api.LogoutUser | frontend/src/services/api.ts:50-54 | the token is removed, then the login page is loaded; afterwards there is no token |
| Api.LoggedOutSendsNoCredential | frontend/src/services/api.ts:14-17 | once the token is removed the interceptor attaches nothing |
| AuthGuard.Guard | frontend/src/components/AuthGuard.tsx:7-17 | a replace-redirect to /login exactly when no non-empty token is stored; else the children unchanged |
| AuthGuard.GuardDependsOnPresenceOnly | frontend/src/components/AuthGuard.tsx:8-10 | the decision depends on the token's presence only, not on its value |
| AuthGuard.EmptyTokenRedirects | frontend/src/components/AuthGuard.tsx:10 | an empty stored token counts as none |
| Navbar.NavItems | frontend/src/components/Navbar.tsx:34-65 | exactly one of the two link sets, with Logout exactly when logged in |
| Navbar.HandleLogout | frontend/src/components/Navbar.tsx:8-11 | the token is removed, then the app routes to /login; afterwards the guest links show |
| Navbar.LogoutShowsGuestItems | frontend/src/components/Navbar.tsx:6-11 | after removing the token the user is logged out |
| Login.ErrorMessage | frontend/src/pages/Login.tsx:21-25 | for any axios error, the server's detail when present, else "Invalid username or password", which a request that got no response also shows; "An unexpected error occurred" only for non-axios errors; never empty |
| Login.Page.StartLogin | frontend/src/pages/Login.tsx:14 | the error is cleared at the start of each attempt |
| Login.Page.SettleLogin | frontend/src/pages/Login.tsx:16-26 | on success the token is stored, then the app routes to /library; on failure only the error changes |
| Login.Page.HandleLogin | frontend/src/pages/Login.tsx:12-27 | as above, from a cleared error |
| Login.LoginOpensProtectedPages | frontend/src/pages/Login.tsx:18 | after storing a non-empty token the guard renders and requests carry it as bearer |
| Home.Page.StartAnalyze | frontend/src/pages/Home.tsx:9 | the page is busy while the request runs |
| Home.Page.SettleAnalyze | frontend/src/pages/Home.tsx:11-24 | the Lichess link is opened on success, the alert shown on failure; busy ends either way; no navigation or storage change |
| Home.Page.HandleAnalyzeBoard | frontend/src/pages/Home.tsx:8-25 | exactly one tab or one alert, not busy afterwards |
| Dropzone.Lower | frontend/src/components/ChessboardDropzone.tsx:26-34 | ASCII letters are lowered, other characters kept |
| Dropzone.AcceptedFiles | frontend/src/components/ChessboardDropzone.tsx:26-34 | each dropped file is tested against the accept table; onDrop receives a file exactly when one dropped file passes, and that file is one of the dropped files and accepted; otherwise nothing |
| Dropzone.OneAcceptedFileSelected | frontend/src/components/ChessboardDropzone.tsx:26-34 | a drop with exactly one accepted file, among any number of rejected ones, hands that file to onDrop |
| Dropzone.TwoAcceptedFilesRejected | frontend/src/components/ChessboardDropzone.tsx:26-34 | a drop with two accepted files hands nothing to onDrop |
| Dropzone.NoAcceptedFileRejected | frontend/src/components/ChessboardDropzone.tsx:26-34 | a drop with no accepted file hands nothing to onDrop |
| Dropzone.Dropzone.constructor | frontend/src/components/ChessboardDropzone.tsx:14-15 | nothing selected, no preview |
| Dropzone.Dropzone.OnDrop | frontend/src/components/ChessboardDropzone.tsx:17-24 | the first file is selected with its preview; an empty list changes nothing; file and preview stay paired |
| Dropzone.Dropzone.HandleClear | frontend/src/components/ChessboardDropzone.tsx:36-40 | both cleared |
| Dropzone.Dropzone.ClickAnalyze | frontend/src/components/ChessboardDropzone.tsx:109-112 | the selected file is handed over exactly when there is one and no analysis runs |
| Dropzone.Dropzone.ClickClear | frontend/src/components/ChessboardDropzone.tsx:88-92 | the clear runs exactly when a file is shown and no analysis runs |
| Dropzone.DropThenAnalyze | frontend/src/components/ChessboardDropzone.tsx:17-34 | from the empty area, Analyze sends a file exactly when one dropped file was accepted, and the file it sends is that accepted dropped file |
| Library.DisplayCategory | frontend/src/pages/Library.tsx:51-56 | the category when present, else "Uncategorized"; never empty |
| Library.Filtered | frontend/src/pages/Library.tsx:51-56 | "All" shows every board; else exactly the boards whose shown category is the selection, each as often as stored |
| Library.Without | frontend/src/pages/Library.tsx:40-41 | the optimistic removal keeps exactly the boards with other ids, each as often as before |
| Library.FilteredIsSubsequence | frontend/src/pages/Library.tsx:51-56 | the filter keeps stored order |
| Library.FilteredIdempotent | frontend/src/pages/Library.tsx:51-56 | filtering twice is filtering once |
| Library.WithoutIsSubsequence | frontend/src/pages/Library.tsx:40-41 | the removal keeps order |
| Library.WithoutAbsent | frontend/src/pages/Library.tsx:40-41 | removing an absent id changes nothing |
| Library.Render | frontend/src/pages/Library.tsx:58-119 | loading first, then the error with its own text, then the grid exactly when the filter leaves boards, showing the filtered boards; otherwise the empty state, with "You haven't scanned any boards yet." when there are no boards and `No boards found in "<selection>".` otherwise, and Clear Filter exactly when boards exist |
| Library.NoScansIff | frontend/src/pages/Library.tsx:101-116 | the "haven't scanned" state shows exactly when there are no boards |
| Library.ClearFilterShowsAll | frontend/src/pages/Library.tsx:101-116 | after Clear Filter every board shows |
| Library.Page.constructor | frontend/src/pages/Library.tsx:14-19 | no boards, loading, no error, "All" |
| Library.Page.FetchLibrary | frontend/src/pages/Library.tsx:25-35 | the fetched boards, or the failure message; loading ends either way |
| Library.Page.StartDelete | frontend/src/pages/Library.tsx:37-41 | a snapshot is taken and the board removed at once |
| Library.Page.SettleDelete | frontend/src/pages/Library.tsx:42-47 | on failure the snapshot comes back with an alert |
| Library.Page.HandleDelete | frontend/src/pages/Library.tsx:37-48 | the board is gone on success; on failure the list is as before and one alert is shown |
| Library.Page.SelectCategory | frontend/src/pages/Library.tsx:51-56 | only the selection changes |
| Library.Page.ClearFilter | frontend/src/pages/Library.tsx:101-116 | the selection is "All" and every board shows |
| BoardDetails.GetTurn | frontend/src/pages/BoardDetails.tsx:17-20 | the second space-separated field, or "w" for a FEN without a space |
| BoardDetails.TurnPreservesFields | frontend/src/pages/BoardDetails.tsx:23-27 | changing the turn changes the second field only |
| BoardDetails.TurnFallback | frontend/src/pages/BoardDetails.tsx:28-31 | a bare placement gets the turn and the fallback tail: exactly six fields, in order the input, the turn, "-", "-", "0", "1" |
| BoardDetails.FallbackPieces | frontend/src/pages/BoardDetails.tsx:28-31 | the fallback FEN is the input, the turn and "- - 0 1", cut at each space |
| BoardDetails.TurnIsSecondField | frontend/src/pages/BoardDetails.tsx:17-32 | after the turn is set, the second field exists and is that turn, on both branches |
| BoardDetails.TurnRoundTrip | frontend/src/pages/BoardDetails.tsx:17-32 | the turn read after setting it is the turn set |
| BoardDetails.TurnIdempotent | frontend/src/pages/BoardDetails.tsx:23-32 | setting the same turn twice is setting it once |
| BoardDetails.PredictedTurnIsWhite | frontend/src/pages/BoardDetails.tsx:17-20 | a FEN from the classifier reads as white to move |
| BoardDetails.Page.constructor | frontend/src/pages/BoardDetails.tsx:9-14 | the initial page state |
| BoardDetails.Page.FetchBoard | frontend/src/pages/BoardDetails.tsx:35-48 | without an id or on failure the fields are kept; else the board's fields with "Uncategorized" and "" as defaults; loading ends |
| BoardDetails.Page.HandleTurnChange | frontend/src/pages/BoardDetails.tsx:23-32 | the in-place edit of the split array gives WithTurn of the old FEN; nothing else changes |
| BoardDetails.Page.HandleSave | frontend/src/pages/BoardDetails.tsx:52-64 | without an id nothing happens; else the fields are sent, an alert on failure, and the app goes to /library either way |
| Browser.GetItem | frontend/src/services/api.ts:14 | the stored value, or null when the key is absent |
| Text.Split | frontend/src/pages/BoardDetails.tsx:18 | at least one piece, none holding a separator |
| Text.SplitCount | frontend/src/pages/BoardDetails.tsx:18 | one more piece than separators |
| Text.SeparatorSplits | frontend/src/pages/BoardDetails.tsx:18-19 | several pieces exactly when the separator occurs |
| Text.SplitStep | frontend/src/pages/BoardDetails.tsx:18 | the first character starts a new piece when it is the separator, and extends the first piece otherwise |
| Text.JoinSplit | frontend/src/pages/BoardDetails.tsx:24-27 | joining the pieces of a split gives back the string |
| Text.JoinCons | frontend/src/pages/BoardDetails.tsx:24-27 | joining a piece before further pieces puts one separator between them |
| Text.JoinExtendHead | frontend/src/pages/BoardDetails.tsx:24-27 | extending the first piece by a character extends the join by that character |
| Text.SplitJoin | frontend/src/pages/BoardDetails.tsx:24-27 | splitting a join of separator-free pieces gives back the pieces |
| Text.PieceBefore | frontend/src/pages/BoardDetails.tsx:18 | a separator-free piece before a separator adds exactly one leading piece to the split |
| Text.SixPieces | backend/ml/predictor.py:50 | six separator-free pieces joined by single separators split back into those six pieces, in order |
| Text.ReplaceAll | backend/routers/predict.py:33 | every occurrence replaced, all else kept, length kept |
| Text.LastPiece | backend/routers/fen.py:33 | the last piece holds no separator, and is the string when there is none |
| Text.LastPieceSuffix | backend/routers/fen.py:33 | the last piece is the end of the string, after a separator when shorter |

## Left out

- The TFLite interpreter, image decoding, resizing, grayscale conversion and per-square
  inference are not modelled. Inference is a sequence of predicted class indices, and
  `Predictor.ExtractSquares` models only the square geometry.
- The temporary file in predict.py and its removal are left out. A failure anywhere in the
  `try` is the `Err` outcome of `inference`.
- S3 (`upload_fileobj`), `uuid4`, the bucket and region settings, and the database clock
  are parameters. An object uploaded before a failed commit stays in the bucket; `storedKey`
  of `FenRouter.UploadImage` reports it.
- Password hashing, password verification and JWT creation are function parameters;
  `get_current_user` is a user parameter. The auth module itself is not part of this model.
- The database engine, sessions, async execution and concurrent requests are not modelled.
  Each handler runs atomically on the in-memory tables.
- Column limits are enforced at commit as declared (`String(n)`, `nullable=False`). A
  backend that ignores VARCHAR lengths, as SQLite does, would accept rows the model rejects.
- PositionsRouter.Query: ties in `created_at` may come back in any order; the model only
  promises newest first and the same rows.
- The `response_model` serialisation of list endpoints is `Records.ToPositionResponse`
  applied per row. Validation of `EmailStr` is not modelled.
- Axios, the HTTP transport, the base URL and the remote client functions the pages import
  are not modelled. `getUserLibrary`, `deleteBoardFromLibrary`, `getBoard`, `updateBoard`
  and `predictBoard` are not defined in services/api.ts; each is a success-or-failure
  outcome parameter.
- Dropzone.Accepts: percent-encoding and non-ASCII case folding of file names and types
  and react-dropzone's Firefox `application/x-moz-file` exception are not modelled.
- Api.Encode: percent-encoding of form values is not modelled, so the round trip is proved
  for values without '&' and keys without '='.
- Login.ErrorMessage: a non-string `detail`, such as FastAPI's list of validation errors,
  is not modelled.
- The HTML `required` attribute on the login inputs is not modelled.
- Rendering (JSX, CSS, date formatting, `URL.createObjectURL`), the react-dropzone drag
  state and the routes of App.tsx are not modelled. Register.tsx and Layout.tsx are not
  part of this model.
- Interleavings of page handlers with other events between `Start…` and `Settle…` are not
  modelled. BoardDetails' `isSaving` flag is only observed before and after the save.
- Home.Page.HandleAnalyzeBoard: Home.tsx only predicts, then opens the editor link in a new
  tab or shows an alert; it neither saves the scan nor navigates, and the model promises
  no more than that.
- `console.log` and `console.error` output is not modelled.
