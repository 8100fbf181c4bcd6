# Turn-based games and their minimax engines (CSC148 assignments 1 and 2)

This project models the games and game engines of the CSC148 assignments.

**Assignment 1.** `current_state.py` and `game1.py` define two-player games whose state knows its possible moves and how to make one:
- Subtract Square: take a positive square from a number.
- Chopsticks: add one of your hands to one of the opponent's, modulo 5.

A game remembers who started and decides who won.

**Assignment 2.** `stonehenge.py` adds Stonehenge:
- The board is triangular, with cells lettered A, B, C, ….
- The two players claim cells in turn.
- Three groups of ley-line markers exist, one per direction.
- A player who holds at least half of a ley-line's cells takes its marker.
- Whoever holds at least half of the markers has won.

`strategy.py` holds two engines that pick a move with the highest guaranteed score:
- `get_score` and `recursive_strategy`, which recurse over the game tree and file moves in the buckets -1, 0 and 1;
- `iterative_strategy`, which runs the same search with an explicit stack of `Box` nodes.

The Dafny modules follow the source files:
- `current_state.dfy` (module `CurrentState`)
- `game1.dfy` (`Game1`)
- `stonehenge.dfy` (`Stonehenge`)
- `strategy.dfy` (`Strategy`)
- `instances.dfy` (`Instances`), which plugs Subtract Square and Stonehenge into the engines
- `wrappers.dfy` and `seqs.dfy`: `Option` and a few sequence helpers (`count`, `sum(…, [])` and Python's negative indexing)

Python values that can raise become `Option` results. A Python list that a method mutates becomes a Dafny `array` (`claim_marker`) or a class field (`Stack`, `Box`). Loops that build lists become methods with loop invariants, each proved equal to a specification function.

## How the model is organised

**The engines are generic.** They are written once, over a `Strategy.Rules` value. This gives the valid states, the moves, the state after a move, the player to move, `is_winner`, and a measure that every move lowers.

**The specification of both engines is the negamax value `Strategy.Value`:**
- A finished state scores 1 if the player to move has won, -1 if the opponent has, and 0 otherwise.
- Any other state scores the maximum of the negated values after each move.

**What is proved about the engines:**
- `GetScore` returns exactly the dictionary `Scores`. Every possible move sits, in order, in the bucket of its reply, and the best key is the value.
- `RecursiveStrategy` and `IterativeStrategy` both return a move of the best bucket, and return no move only when the game is over.
- For the iterative search, the proof carries an invariant over a ghost record of the tree built so far. It also carries a decreasing measure: the number of pops still to come.

**The games are then solved on small positions.** `Instances` proves:
- In Subtract Square, the player to move from 4 wins only by taking 4, and loses from 5.
- On the size-1 Stonehenge board, p1 wins with the first move.
- Both engines, run on these positions, return a winning move.

**Where the code and its documentation disagree, the model follows the code:**
- Row k of a Stonehenge board has k + 2 cells, and the last row has `size` cells.
- There are 3 × (size + 1) ley-line markers.
- Subtract Square from 5 is a loss for the player to move.
- For a cell in an upper row, the diagonal-right extractor `dr_leyline_v1` decides whether to take a cell from the last row by testing the cell's column against the last row's length, not its position from the right. On the size-3 board, the line through B therefore ends in J, and the line through H misses L. The model keeps this behaviour (`Stonehenge.DrLinesAsWritten`).

## Model

| member | source | states |
|---|---|---|
| Game1.StartingPlayer | assignments/a1/game1.py:22-25 | the starting player is 'p1' exactly when p1first holds, and 'p2' otherwise |
| Game1.NewGame | assignments/a1/game1.py:15-26 | a new game records its starting player (p1 iff p1first) and starts from a base state of that player |
| Game1.NewSubtractSquare | assignments/a1/game1.py:77-86 | a Subtract-Square game starts from the given number with the starting player to move, in a state whose moves can be listed |
| Game1.NewChopsticks | assignments/a1/game1.py:111-123 | a Chopsticks game starts with one finger on each of the four hands, and is not over |
| Game1.IsOver | assignments/a1/game1.py:32-37 | a game is over exactly when its state offers no move: at 0 for Subtract Square, once a player has two dead hands for Chopsticks |
| Game1.IsWinner | assignments/a1/game1.py:39-48 | a player has won only once the game is over; with p1 or p2 to move, the winner is p1 or p2 and not the player to move, and that player has won as soon as the game is over |
| Game1.WinnerSpec | assignments/a1/game1.py:39-48 | someone has won only once the game is over; then exactly one of p1 and p2 has won, the player not to move; no other name ever wins |
| Game1.SubtractSquareOverAtZero | assignments/a1/game1.py:32-37 | a Subtract-Square game is over exactly when the number is 0 |
| Game1.ChopsticksOverAgrees | assignments/a1/game1.py:32-37 | for Chopsticks, "no possible move" agrees with the state's own is_over |
| Game1.ParseInt | assignments/a1/game1.py:96-100 | `int` on text: nothing from empty text; a negative number only after a minus sign; a string of digits always reads as a natural number; one non-digit character is refused |
| Game1.ParseShowInt | assignments/a1/game1.py:96-100 | int(str(n)) == n for every integer n |
| Game1.StrToMoveRoundTrip | assignments/a1/game1.py:96-132 | typing back a move the game offers yields that move: a number in decimal for Subtract Square, a move name as is for Chopsticks |
| Game1.StrToMoveRejects | assignments/a1/game1.py:96-100 | text that is not a number ("ll", "", "-") is refused, as int raises ValueError; "-4" reads as -4; Chopsticks takes any text |
| Game1.StrToMove | assignments/a1/game1.py:96-132 | Chopsticks takes any text as the move of that name; Subtract Square reads a move exactly when `int` reads the text, and the move is that integer |
| Game1.Equals | assignments/a1/game1.py:54-66 | equal games are of the same class with the same player to move; a game equals every game of its class holding the same state |
| Game1.EqualsSpec | assignments/a1/game1.py:54-66 | game equality is an equivalence that holds exactly for the same class and the same player to move; new games are equal iff the same player starts |
| Game1.EqualsDoctest | assignments/a1/game1.py:54-66 | the doctest of Game.__eq__: Game(True) != Game(False), Game(True) == Game(True), and games of different classes differ |
| CurrentState.SquaresExactly | assignments/a1/current_state.py:79-87 | the Subtract-Square moves from n are 1², 2², … in order, up to the largest square not above n, and no more |
| CurrentState.SquaresMembers | assignments/a1/current_state.py:79-87 | the moves ascend strictly, each lies in [1, n], and every square k² with 1 <= k² <= n is among them |
| CurrentState.SquaresMembership | assignments/a1/current_state.py:79-87 | x is a move from n exactly when x <= n and x is the square of a positive integer |
| CurrentState.SquaresOfFive | assignments/a1/current_state.py:82-84 | the moves from 5 are [1, 4] |
| CurrentState.SubtractSquareMovesOfFive | assignments/a1/current_state.py:79-87 | the doctest: get_possible_moves of SubtractSquareState('p1', 5) is [1, 4] |
| CurrentState.SubtractSquareValidMoves | assignments/a1/current_state.py:20-25 | a move is valid exactly when it is not None and is a positive square no larger than the number |
| CurrentState.IsValidMove | assignments/a1/current_state.py:20-25 | a valid move is not None; for Subtract Square it is an integer in [1, number], for Chopsticks one of the four move names |
| CurrentState.CurrentPlayerName | assignments/a1/current_state.py:27-34 | the name returned is the player stored in the state, the one to move |
| CurrentState.PossibleMoves | assignments/a1/current_state.py:79-87 | Subtract-Square moves are integers in [1, number], and there is none exactly at 0; Chopsticks moves are move names, and there is none exactly when a player has two dead hands |
| CurrentState.MakeMove | assignments/a1/current_state.py:89-104 | a move that applies passes the turn and keeps the class; Subtract Square applies exactly the integer moves, subtracting them from the number |
| CurrentState.SubtractSquareMakeMoveSpec | assignments/a1/current_state.py:89-104 | make_move subtracts whatever it is given (no check) and passes the turn between p1 and p2; the doctest 5 - 2 == 3 |
| CurrentState.ChopsticksMoves | assignments/a1/current_state.py:137-163 | at most four moves; each is one of the four names whose attacking and target hands are both alive |
| CurrentState.ChopsticksMovesSpec | assignments/a1/current_state.py:137-163 | a move is offered exactly when both the mover's attacking hand and the opponent's target hand are alive; only the four names occur, in the order ll, lr, rl, rr |
| CurrentState.ChopsticksMakeMoveSpec | assignments/a1/current_state.py:165-195 | each of the four moves leaves the mover's hands alone, adds the attacking hand to the target hand modulo 5, reduces the other opponent hand modulo 5 and passes the turn |
| CurrentState.ChopsticksMakeMove | assignments/a1/current_state.py:165-195 | a move that applies passes the turn to the other player, leaves the mover's hands as they were, and leaves the opponent's fingers in 0..4 |
| CurrentState.ChopsticksMakeMoveRejects | assignments/a1/current_state.py:173-190 | make_move fails (Python indexes '') exactly on a move that is not one of the four names |
| CurrentState.ChopsticksOverIffNoMoves | assignments/a1/current_state.py:197-204 | a Chopsticks state is over (a player has two dead hands) exactly when it offers no move |
| CurrentState.ChopsticksIsOver | assignments/a1/current_state.py:197-204 | a state that is over offers no move |
| CurrentState.EqualsSpec | assignments/a1/current_state.py:46-60 | state equality is an equivalence; it holds exactly for the same class and the same player, whatever the number or the hands |
| CurrentState.Equals | assignments/a1/current_state.py:46-60 | equal states have the same player and are both or neither of the base class; identical states are equal |
| CurrentState.EqualsDoctest | assignments/a1/current_state.py:46-60 | the doctest of CurrentState.__eq__ |
| CurrentState.ChopsticksDoctests | assignments/a1/current_state.py:137-204 | the doctests of the Chopsticks moves, of make_move('ll') and of is_over |
| CurrentState.ChopsticksCycle | assignments/a1/current_state.py:165-195 | Chopsticks can return to a state after four offered moves, so no measure falls with every move |
| Stonehenge.AlphabetLetters | assignments/a2/stonehenge.py:34-36 | alpha_list is 'A' to 'Z' in order |
| Stonehenge.CellList | assignments/a2/stonehenge.py:29-46 | the loop with its running start/end pair builds exactly the board of size + 1 rows, row k with k + 2 letters from its offset, and a last row of size letters |
| Stonehenge.BoardShape | assignments/a2/stonehenge.py:37-46 | up to size 5 the board is shaped (row lengths k + 2 and size), and each cell is the alphabet letter at its row offset plus its column |
| Stonehenge.BoardLetters | assignments/a2/stonehenge.py:29-46 | up to size 5 the cells read row by row are the first letters of the alphabet, strictly ascending, all capitals |
| Stonehenge.SmallBoards | assignments/a2/stonehenge.py:29-46 | the boards of sizes 1 and 3 are [AB, C] and [AB, CDE, FGHI, JKL] |
| Stonehenge.NewStonehengeGame | assignments/a2/stonehenge.py:15-27 | the initial state has the given first player and size, the cell_list board and three groups of size + 1 '@' markers |
| Stonehenge.FreeMember | assignments/a2/stonehenge.py:216-221 | a cell is collected exactly when it is in the row and neither '1' nor '2' |
| Stonehenge.Free | assignments/a2/stonehenge.py:216-221 | the collected cells are no more than the row's, and none is '1' or '2' |
| Stonehenge.PossibleMoves | assignments/a2/stonehenge.py:202-221 | no move once a player holds half of the markers; no more moves than cells; no move is a claimed cell |
| Stonehenge.IsValidMove | assignments/a2/stonehenge.py:313-318 | a valid move is one letter, not a claimed cell, on a board where nobody yet holds half of the markers |
| Stonehenge.PossibleMovesSpec | assignments/a2/stonehenge.py:202-221 | once a player holds at least half of the markers there is no move; otherwise the moves are exactly the unclaimed cells |
| Stonehenge.GetPossibleMoves | assignments/a2/stonehenge.py:202-221 | the counting loops and the collecting loop return the possible-move list |
| Stonehenge.StrToMove | assignments/a2/stonehenge.py:75-81 | the result is a valid move or "-1"; it is the text itself exactly when the text is a valid move or "-1"; "-1" is never valid |
| Stonehenge.StrToMoveRoundTrip | assignments/a2/stonehenge.py:75-81 | a possible move reads back as itself |
| Stonehenge.MoveStaysPossible | assignments/a2/stonehenge.py:202-221 | a cell that is a possible move after a move was already a possible move before it, as moves only claim cells |
| Stonehenge.ReachedMovesReadBack | assignments/a2/strategy.py:245-251 | every possible move of a state reached from the root by possible moves is possible at the root, so `str_to_move` checked against the root reads it back as itself |
| Stonehenge.IndexOf | assignments/a2/stonehenge.py:322-323 | el.index(move) is the first position holding the letter |
| Stonehenge.RowOf | assignments/a2/stonehenge.py:322-325 | index_move[0] names the first row holding the letter |
| Stonehenge.MoveCell | assignments/a2/stonehenge.py:318-325 | a valid move names an unclaimed cell on the board, at its first occurrence |
| Stonehenge.DrLeylineV1 | assignments/a2/stonehenge.py:261-273 | the loop collects the upper rows' entries at indexm_inverse, then the last row's entry at indexm_inverse + 1 when indexm <= len(cells[-1]) - 2 |
| Stonehenge.DrLeylineV2 | assignments/a2/stonehenge.py:275-286 | the upper rows' entries at indexm_inverse - 1, then the last row's at indexm_inverse |
| Stonehenge.DlLeylineV1 | assignments/a2/stonehenge.py:288-299 | the upper rows' entries at indexm, then the last row's at indexm - 1 when 0 <= indexm - 1 <= len(cells[-1]) |
| Stonehenge.DlLeylineV2 | assignments/a2/stonehenge.py:301-311 | the upper rows' entries at indexm + 1, then the last row's at indexm |
| Stonehenge.Site | assignments/a2/stonehenge.py:231-257 | the marker index each group rechecks after a move lies within the group's Python index range |
| Stonehenge.LineHasCell | assignments/a2/stonehenge.py:231-257 | every ley-line rechecked after a move passes through the cell just played |
| Stonehenge.ClaimMarker | assignments/a2/stonehenge.py:332-341 | the marker becomes the mover's mark exactly when the mover holds at least half of the line; nothing else changes |
| Stonehenge.RecheckRow | assignments/a2/stonehenge.py:232-235 | the row group's marker at indexl is claimed against the row, if still '@' |
| Stonehenge.RecheckDr | assignments/a2/stonehenge.py:237-246 | the diagonal-right group's marker is claimed against the v1 or v2 line, whichever the row of the move selects |
| Stonehenge.RecheckDl | assignments/a2/stonehenge.py:248-257 | the diagonal-left group's marker is claimed against the v1 or v2 line, whichever the row of the move selects |
| Stonehenge.MarkersAfterClaimed | assignments/a2/stonehenge.py:223-259 | the three groups after the move: each a copy, with its one site rechecked |
| Stonehenge.MakeMove | assignments/a2/stonehenge.py:313-330 | the method (deep copies, in-place write of the mark, marker recheck) returns the state Apply describes |
| Stonehenge.MakeMoveCells | assignments/a2/stonehenge.py:318-330 | an invalid move returns the same state; a valid one writes the mover's mark into exactly the played cell, passes the turn and keeps size and shape |
| Stonehenge.MakeMoveFree | assignments/a2/stonehenge.py:318-330 | a valid move removes exactly one unclaimed cell and frees none |
| Stonehenge.MakeMoveMarkers | assignments/a2/stonehenge.py:327-341 | in each group only the site's marker can change; it changes exactly when it was '@' and the mover holds half of the line through the cell, and then becomes the mover's mark |
| Stonehenge.DisplayPlayer | assignments/a2/stonehenge.py:343-348 | the mark is '1' exactly on p1's turn, '2' otherwise |
| Stonehenge.TakeTurn | assignments/a2/stonehenge.py:350-354 | the next turn is p1's exactly when this one is not |
| Stonehenge.Apply | assignments/a2/stonehenge.py:313-330 | an invalid move returns the state itself; a valid one passes the turn and keeps the size and the number of rows |
| Stonehenge.PlayerName | assignments/a2/stonehenge.py:66-73 | the player to move is p1 or p2, and p1 exactly on p1's turn |
| Stonehenge.IsOver | assignments/a2/stonehenge.py:59-64 | the game is over exactly when a player holds half of the markers or every cell is claimed |
| Stonehenge.IsWinner | assignments/a2/stonehenge.py:66-73 | nobody has won before the end; once over, the winner is exactly the player who moved last |
| Stonehenge.WinnerSpec | assignments/a2/stonehenge.py:59-73 | when the game is over exactly one of p1 and p2 has won; the player to move never has; nobody has won before the end |
| Stonehenge.DrLinesAsWritten | assignments/a2/stonehenge.py:261-273 | on the size-3 board the guard tests the column, so B's diagonal-right line is B, E, I, J and H's line misses L, whereas L's own line is A, D, H, L |
| Stonehenge.SizeOneOpening | assignments/a2/stonehenge.py:313-341 | on the size-1 board, p1 playing A claims one marker in each group; the game is then over and p1 has won |
| Stonehenge.AddBetween | assignments/a2/stonehenge.py:395-417 | a list of at most one element comes back unchanged; otherwise elements sit at the even places with the separators between them |
| Strategy.TerminalScore | assignments/a2/strategy.py:89-98 | the score of a finished state is 1 exactly when the player to move has won, -1 exactly when only the opponent has, otherwise 0 |
| Strategy.Opponent | assignments/a2/strategy.py:90-91 | the opponent is p1 or p2, and differs from a player who is p1 or p2 |
| Strategy.Value | assignments/a2/strategy.py:83-114 | the negamax value of a state lies in -1..1 |
| Strategy.Scores | assignments/a2/strategy.py:83-114 | the highest non-empty key of the dictionary `get_score` returns is the state's value |
| Strategy.MaxOf | assignments/a2/strategy.py:163-164 | max of a non-empty list is an element of it and no element exceeds it |
| Strategy.ValueSpec | assignments/a2/strategy.py:64-79 | the best bucket is non-empty, all buckets above it are empty, and its moves are exactly those after which the opponent's value is the negation of this state's value; no move does better |
| Strategy.ScoresSpec | assignments/a2/strategy.py:83-114 | get_score files 'over' under the terminal score on a finished state; otherwise bucket k holds, in order, the moves whose reply scores k; the best key is the value |
| Strategy.BucketPartition | assignments/a2/strategy.py:100-113 | every possible move lands in the bucket of its negated reply, and the buckets together hold as many moves as there are |
| Strategy.FiledGet | assignments/a2/strategy.py:100-113 | appending each move under its score puts into bucket k exactly the moves scored k, in order |
| Strategy.FiledBest | assignments/a2/strategy.py:106-113 | the highest non-empty key of the filed dictionary is the maximum score |
| Strategy.OverScore | assignments/a2/strategy.py:89-97 | the if-chain computes the terminal score |
| Strategy.OppoScore | assignments/a2/strategy.py:106-112 | the if-chain reads the highest non-empty key, -1000 only when all lists are empty |
| Strategy.GetScore | assignments/a2/strategy.py:83-114 | the recursive method with its for loop returns exactly the specified score dictionary |
| Strategy.ChooseRandomMove | assignments/a2/strategy.py:117-134 | the move chosen is one of the list's moves |
| Strategy.BestBucket | assignments/a2/strategy.py:74-79 | the buckets recursive_strategy reads above the value are empty, and the value's bucket holds at least one move, only moves, each of the best bucket |
| Strategy.RecursiveStrategy | assignments/a2/strategy.py:64-80 | the move returned has the highest guaranteed score; there is none exactly when the game is over |
| Strategy.Box.constructor | assignments/a2/strategy.py:176-185 | a box holds its state and move, no children and no score |
| Strategy.Stack.constructor | assignments/a2/strategy.py:200-203 | a new stack is empty |
| Strategy.Stack.Add | assignments/a2/strategy.py:205-208 | add pushes the object on top |
| Strategy.Stack.Remove | assignments/a2/strategy.py:210-225 | remove pops and returns the element added last; on an empty stack it fails and leaves the stack empty |
| Strategy.Stack.IsEmpty | assignments/a2/strategy.py:227-237 | is_empty holds exactly when the stack holds nothing |
| Strategy.AddChild | assignments/a2/strategy.py:240-251 | one fresh child per possible move, in order, holding the state after the move and the move, appended to the node's children and pushed, in the same order |
| Strategy.NegatedScores | assignments/a2/strategy.py:163-164 | the list comprehension negates each child's score, place by place |
| Strategy.IterativeStrategy | assignments/a2/strategy.py:137-168 | the move returned has the highest guaranteed score; there is none exactly when the game is over |
| Strategy.Search | assignments/a2/strategy.py:146-164 | the loop ends with an empty stack, every node scored with its value, and the tree recorded |
| Strategy.Visit | assignments/a2/strategy.py:147-164 | one pass keeps the search invariant and lowers the number of pops still to come |
| Strategy.ScoreLeaf | assignments/a2/strategy.py:148-157 | a finished node is scored with its terminal score |
| Strategy.ScoreFromChildren | assignments/a2/strategy.py:162-164 | an expanded node is scored with the maximum of its children's negated scores, which is its value |
| Strategy.Expand | assignments/a2/strategy.py:159-161 | the node goes back on the stack with its new children above it, one per move, in order |
| Strategy.ChildrenScored | assignments/a2/strategy.py:162-164 | when a node with children is popped again, every child is scored and the negated scores are its replies |
| Strategy.RootScored | assignments/a2/strategy.py:146-166 | once the stack is empty the root holds its value and each root child the reply to its move |
| Strategy.GoodMovesPick | assignments/a2/strategy.py:165-166 | the moves of the children scored -1 times the root score are the moves of the root's best bucket |
| Strategy.ChooseGoodMove | assignments/a2/strategy.py:165-168 | the move picked from good_moves is in the best bucket; there is none exactly when the root is finished |
| Instances.SubSqSound | assignments/a1/current_state.py:79-104 | every Subtract-Square move keeps the number natural and lowers it, so the engines' recursion ends |
| Instances.SubSqOverIsLoss | assignments/a2/strategy.py:89-98 | at 0 the player to move has lost: get_score files 'over' under -1 only |
| Instances.SubSqUpToThree | assignments/a2/strategy.py:83-114 | from 0 and 2 the player to move loses, from 1 and 3 they win |
| Instances.SubSqFour | assignments/a2/strategy.py:64-80 | from 4 the player to move wins, and taking 4 is the only best move |
| Instances.SubSqFive | assignments/a2/strategy.py:83-114 | from 5 the player to move loses whatever they take |
| Instances.SubSqFiveBucket | assignments/a2/strategy.py:100-113 | from 5 both moves are filed under -1 |
| Instances.EnginesTakeFour | assignments/a2/strategy.py:64-80 | both engines, started at 4, return the move 4 |
| Instances.StoneSound | assignments/a2/stonehenge.py:313-330 | every Stonehenge move claims an unclaimed cell and keeps the board well formed, so the engines' recursion ends |
| Instances.SizeOneSolved | assignments/a2/strategy.py:83-114 | on the size-1 board the first player's value is 1 and A is a best move |
| Instances.EnginesWinSizeOne | assignments/a2/strategy.py:137-168 | both engines, on the size-1 board, play a cell after which the opponent faces a lost game |

## Left out

- Keyboard input, printing and instructions: the start number, the board size and typed moves are parameters; `__str__`, `__repr__`, `get_instructions` and the Stonehenge board rendering (`insert_dash`, `generate_slash`, `generate_board`, `add_markers`, `add_space`) produce text only and are not modelled.
- Randomness: `random.choice` and `randint` are a nondeterministic choice of index, so the contracts hold for every choice.
- Strategy.ChooseRandomMove: its `while move == 'over'` loop is left out because its only callers pass lists with no 'over'; on a list holding 'over' the source may loop forever.
- Strategy.RecursiveStrategy, Strategy.IterativeStrategy and Strategy.AddChild: `game.str_to_move(str(move))` is taken to return the move itself. `Game1.StrToMoveRoundTrip` and `Stonehenge.StrToMoveRoundTrip` show this for a move of the game's current state. `add_child` asks the game whose state is the root of the search about moves of deeper states; `Stonehenge.ReachedMovesReadBack` shows that every such move reads back as itself there too. On a finished game the source passes `''` (recursive) or raises ValueError from `randint` (iterative); the model returns `None`.
- Game objects and the copies `deepcopy` makes are modelled as values; an engine sees the game only through `Strategy.Rules`.
- Strategy.Box.constructor: the unused `children` and `highest_score` parameters are left out; every call site omits them.
- Strategy.Stack.Remove: the raised exception is the `None` result.
- Chopsticks is not given to the engines: its game graph has cycles (`CurrentState.ChopsticksCycle`), so the source's recursion need not end on it.
- Subtract Square with a negative number is left out of the engines and of `CurrentState.PossibleMoves`: there `number ** 0.5` is a complex number and `int` raises TypeError.
- Game1.ParseInt accepts an optional sign and ASCII digits only; Python's `int` also skips surrounding whitespace, underscores between digits, and reads the other Unicode decimal digits (Arabic-Indic "٤", full-width "４").
- Stonehenge.CellList and Stonehenge.NewStonehengeGame take the size as a natural number. The source accepts any `int(input())`: with a negative size `cell_list(-1)` returns `[alpha_list[0:-1]]`, the marker groups are empty, and the game is over at once. Negative sizes are not modelled.
- The base classes' `NotImplementedError` members (`CurrentState.get_possible_moves`, `make_move`, `Game.str_to_move`) are the absence of a case.
- Stonehenge boards above size 5 need more than 26 letters; `Stonehenge.BoardShape` and `Stonehenge.BoardLetters` are stated up to size 5.
- `rough_outcome`, `max_after_claim`, `interactive_strategy` and `rough_outcome_strategy` are not part of this model. They estimate or ask the user, and neither engine calls them.
- The abstract `Game` and `GameState` classes of the second assignment are not part of this model; Stonehenge is modelled as the state datatype plus the functions of its game class.
- Stonehenge.AddBetween: the precondition that a separator list is one shorter than the list is the docstring's own.
- Stonehenge.DrLeylineV2: the requires that `inverse <= 0` holds for every call `markers_after_claimed` makes; other calls are left out.
