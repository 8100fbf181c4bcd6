/**
 * The first assignment's game objects (assignments/a1/game1.py): a game
 * remembers who started and holds its current state; the subclasses only
 * choose the start state and how typed text becomes a move.
 */
module Game1 {
  import opened Wrappers
  import opened CurrentState

  /** The Python class of a game object: `Game`, `SubtractSquare` or `Chopsticks`. */
  datatype Kind = BaseGame | SubtractSquareGame | ChopsticksGame

  datatype Game = Game(kind: Kind, playerToStart: string, currentState: State)

  /** `'p1'` when p1 goes first, `'p2'` otherwise. */
  function StartingPlayer(p1First: bool): (r: string)
    ensures r == "p1" || r == "p2"
    ensures r == "p1" <==> p1First
  {
    if p1First then "p1" else "p2"
  }

  /** `Game.__init__`. */
  function NewGame(p1First: bool): (g: Game)
    ensures g.kind == BaseGame && g.currentState == Plain(g.playerToStart)
    ensures g.playerToStart == "p1" <==> p1First
  {
    Game(BaseGame, StartingPlayer(p1First), Plain(StartingPlayer(p1First)))
  }

  /**
   * `SubtractSquare.__init__`; the number typed at the prompt is the
   * parameter `start`, a natural number because the prompt only accepts
   * digit strings.
   */
  function NewSubtractSquare(p1First: bool, start: nat): (g: Game)
    ensures g.kind == SubtractSquareGame
    ensures g.currentState == SubtractSquare(g.playerToStart, start)
    ensures g.playerToStart == "p1" <==> p1First
    ensures Playable(g.currentState)
  {
    Game(SubtractSquareGame, StartingPlayer(p1First), SubtractSquare(StartingPlayer(p1First), start))
  }

  /** `Chopsticks.__init__`: both players start with one finger on each hand. */
  function NewChopsticks(p1First: bool): (g: Game)
    ensures g.kind == ChopsticksGame
    ensures g.currentState == Chopsticks(g.playerToStart, Hand(1, 1), Hand(1, 1))
    ensures g.playerToStart == "p1" <==> p1First
    ensures !ChopsticksIsOver(g.currentState)
  {
    Game(ChopsticksGame, StartingPlayer(p1First), Chopsticks(StartingPlayer(p1First), Hand(1, 1), Hand(1, 1)))
  }

  /** `Game.is_over(current_state)`: the state offers no move. */
  function IsOver(s: State): (over: bool)
    requires Playable(s)
    ensures s.SubtractSquare? ==> (over <==> s.number == 0)
    ensures s.Chopsticks? ==> (over <==> ChopsticksIsOver(s))
  {
    PossibleMoves(s) == []
  }

  /** The opponent `is_winner` computes: the empty string for a name other than p1 and p2. */
  function Opponent(player: string): string
  {
    if player == "p1" then "p2" else if player == "p2" then "p1" else ""
  }

  /** `Game.is_winner`: the game is over and it is the opponent's turn. */
  function IsWinner(g: Game, player: string): (won: bool)
    requires Playable(g.currentState)
    ensures won ==> IsOver(g.currentState)
    ensures won && g.currentState.player in {"p1", "p2"} ==> player in {"p1", "p2"} && player != g.currentState.player
    ensures (IsOver(g.currentState) && g.currentState.player in {"p1", "p2"} && player in {"p1", "p2"}
      && player != g.currentState.player) ==> won
  {
    Opponent(player) == CurrentPlayerName(g.currentState) && IsOver(g.currentState)
  }

  /**
   * Once a game is over with p1 or p2 to move, exactly one of p1 and p2
   * has won, and it is the player not to move; no other name ever wins,
   * and nobody has won while moves remain.
   */
  lemma WinnerSpec(g: Game, player: string)
    requires Playable(g.currentState)
    ensures IsWinner(g, player) ==> IsOver(g.currentState)
    ensures IsWinner(g, player) && g.currentState.player in {"p1", "p2"} ==> player in {"p1", "p2"}
    ensures !IsOver(g.currentState) ==> !IsWinner(g, player)
    ensures IsOver(g.currentState) && g.currentState.player in {"p1", "p2"} ==>
      (IsWinner(g, "p1") != IsWinner(g, "p2"))
      && (IsWinner(g, player) <==> player in {"p1", "p2"} && player != g.currentState.player)
  {
  }

  /** A Subtract-Square game is over exactly at zero. */
  lemma SubtractSquareOverAtZero(s: State)
    requires s.SubtractSquare? && s.number >= 0
    ensures IsOver(s) <==> s.number == 0
  {
    if s.number > 0 {
      SquaresMembership(s.number, 1);
      assert 1 in Squares(s.number) by { assert 1 * 1 == 1; }
      var sq := Squares(s.number);
      var i :| 0 <= i < |sq| && sq[i] == 1;
      assert PossibleMoves(s)[i] == IntMove(1);
    } else {
      assert Squares(0) == [];
    }
  }

  /** A Chopsticks game is over exactly when the state's own `is_over` says so. */
  lemma ChopsticksOverAgrees(s: State)
    requires s.Chopsticks?
    ensures IsOver(s) <==> ChopsticksIsOver(s)
  {
    ChopsticksOverIffNoMoves(s);
  }

  // ---------------------------------------------------------------------
  // str_to_move
  // ---------------------------------------------------------------------

  predicate IsDigit(c: char)
  {
    '0' <= c <= '9'
  }

  /** The value of a string of decimal digits, most significant first. */
  function DigitsValue(ds: string): nat
    requires forall i :: 0 <= i < |ds| ==> IsDigit(ds[i])
  {
    if ds == [] then 0
    else
      assert IsDigit(ds[|ds| - 1]);
      10 * DigitsValue(ds[..|ds| - 1]) + (ds[|ds| - 1] as int - '0' as int)
  }

  /** Python's `int(text)` for an optional sign and ASCII digits; `None` where it raises ValueError. */
  function ParseInt(text: string): (r: Option<int>)
    ensures r.Some? ==> |text| > 0
    ensures r.Some? && r.value < 0 ==> text[0] == '-'
    ensures |text| > 0 && (forall i :: 0 <= i < |text| ==> IsDigit(text[i])) ==> r.Some? && r.value >= 0
    ensures |text| == 1 && !IsDigit(text[0]) ==> r.None?
  {
    if |text| > 0 && (text[0] == '-' || text[0] == '+') then
      var ds := text[1..];
      if |ds| > 0 && forall i :: 0 <= i < |ds| ==> IsDigit(ds[i]) then
        var v: int := DigitsValue(ds);
        Some(if text[0] == '-' then -v else v)
      else None
    else if |text| > 0 && forall i :: 0 <= i < |text| ==> IsDigit(text[i]) then
      Some(DigitsValue(text))
    else None
  }

  /** The decimal digits of n, as Python's `str` writes a natural number. */
  function ShowNat(n: nat): (ds: string)
    ensures |ds| > 0 && forall i :: 0 <= i < |ds| ==> IsDigit(ds[i])
  {
    if n < 10 then [('0' as int + n) as char]
    else ShowNat(n / 10) + [('0' as int + n % 10) as char]
  }

  /** Python's `str` on an int. */
  function ShowInt(n: int): string
  {
    if n < 0 then "-" + ShowNat(-n) else ShowNat(n)
  }

  lemma {:induction false} DigitsOfShowNat(n: nat)
    ensures DigitsValue(ShowNat(n)) == n
  {
    if n >= 10 {
      DigitsOfShowNat(n / 10);
      var ds := ShowNat(n);
      assert ds[..|ds| - 1] == ShowNat(n / 10);
    }
  }

  /** `int(str(n)) == n`: reading back a printed move gives the move. */
  lemma ParseShowInt(n: int)
    ensures ParseInt(ShowInt(n)) == Some(n)
  {
    var ds := ShowNat(if n < 0 then -n else n);
    DigitsOfShowNat(if n < 0 then -n else n);
    assert IsDigit(ds[0]);
    if n < 0 {
      assert ShowInt(n)[1..] == ds;
    }
  }

  /** The `str_to_move` of each game class; the base class raises NotImplementedError. */
  function StrToMove(g: Game, text: string): (r: Option<Move>)
    requires g.kind != BaseGame
    ensures g.kind == ChopsticksGame ==> r == Some(StrMove(text))
    ensures g.kind == SubtractSquareGame ==> (r.Some? <==> ParseInt(text).Some?)
    ensures g.kind == SubtractSquareGame && r.Some? ==> r.value.IntMove? && r.value.n == ParseInt(text).value
  {
    match g.kind
    case SubtractSquareGame => (match ParseInt(text) case Some(n) => Some(IntMove(n)) case None => None)
    case ChopsticksGame => Some(StrMove(text))
  }

  /**
   * Typing back a move the game offers gives that move: a Subtract-Square
   * number printed in decimal, a Chopsticks name as is.
   */
  lemma StrToMoveRoundTrip(g: Game, m: Move)
    requires g.kind != BaseGame
    ensures g.kind == SubtractSquareGame && m.IntMove? ==> StrToMove(g, ShowInt(m.n)) == Some(m)
    ensures g.kind == ChopsticksGame && m.StrMove? ==> StrToMove(g, m.s) == Some(m)
  {
    if g.kind == SubtractSquareGame && m.IntMove? {
      ParseShowInt(m.n);
    }
  }

  /** Text that is not a number is refused by Subtract-Square, as `int` raises ValueError. */
  lemma StrToMoveRejects()
    ensures StrToMove(NewSubtractSquare(true, 5), "ll") == None
    ensures StrToMove(NewSubtractSquare(true, 5), "") == None
    ensures StrToMove(NewSubtractSquare(true, 5), "-") == None
    ensures StrToMove(NewSubtractSquare(true, 5), "-4") == Some(IntMove(-4))
    ensures StrToMove(NewChopsticks(true), "ll") == Some(StrMove("ll"))
  {
    assert DigitsValue("4") == 4;
  }

  /** `Game.__eq__`: same class and equal current states. */
  function Equals(a: Game, b: Game): (same: bool)
    ensures same ==> a.kind == b.kind && a.currentState.player == b.currentState.player
    ensures a.kind == b.kind && a.currentState == b.currentState ==> same
  {
    a.kind == b.kind && CurrentState.Equals(a.currentState, b.currentState)
  }

  /**
   * Game equality is an equivalence; two games of the same class are equal
   * exactly when their current states name the same player, so games
   * started by different players are never equal at the start.
   */
  lemma EqualsSpec(a: Game, b: Game, c: Game)
    ensures Equals(a, a)
    ensures Equals(a, b) ==> Equals(b, a)
    ensures Equals(a, b) && Equals(b, c) ==> Equals(a, c)
    ensures Equals(a, b) ==> a.kind == b.kind && a.currentState.player == b.currentState.player
    ensures forall p, q: bool :: Equals(NewGame(p), NewGame(q)) <==> p == q
    ensures forall p, q: bool, n, m: nat :: Equals(NewSubtractSquare(p, n), NewSubtractSquare(q, m)) <==> p == q
  {
    CurrentState.EqualsSpec(a.currentState, b.currentState, c.currentState);
  }

  /** The doctest of `Game.__eq__`. */
  lemma EqualsDoctest()
    ensures !Equals(NewGame(true), NewGame(false))
    ensures Equals(NewGame(true), NewGame(true))
    ensures !Equals(NewSubtractSquare(true, 5), NewChopsticks(true))
  {
  }
}
