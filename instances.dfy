/**
 * The engines of assignments/a2/strategy.py on concrete games: the
 * Subtract-Square game of the first assignment, with the winner rule of
 * assignments/a1/game1.py, and Stonehenge. Each game is given as the
 * `Rules` the engines ask for, with a measure that every move lowers (the
 * remaining number; the number of unclaimed cells), and small positions
 * are solved.
 */
module Instances {
  import opened Wrappers
  import opened Seqs
  import opened CurrentState
  import Game1
  import Stonehenge
  import Strategy

  // ---------------------------------------------------------------------
  // Subtract-Square
  // ---------------------------------------------------------------------

  /** The Subtract-Square states a game reaches: a number that is not negative, and p1 or p2 to move. */
  predicate SubSqValid(s: State)
  {
    s.SubtractSquare? && s.number >= 0 && (s.player == "p1" || s.player == "p2")
  }

  function SubSqMoves(s: State): seq<Move>
  {
    if Playable(s) then PossibleMoves(s) else []
  }

  /** `make_move`; a move it rejects leaves the state as it is. */
  function SubSqApply(s: State, m: Move): State
  {
    if !s.Plain? && MakeMove(s, m).Some? then MakeMove(s, m).value else s
  }

  /** `Game.is_winner` of a game whose current state is s. */
  predicate SubSqWinner(s: State, player: string)
  {
    Playable(s) && Game1.IsWinner(Game1.Game(Game1.SubtractSquareGame, "p1", s), player)
  }

  function SubSqRank(s: State): nat
  {
    if s.SubtractSquare? && s.number >= 0 then s.number else 0
  }

  function SubSq(): Strategy.Rules<State, Move>
  {
    Strategy.Rules(SubSqValid, SubSqMoves, SubSqApply, CurrentPlayerName, SubSqWinner, SubSqRank)
  }

  /** Every move takes a positive square no larger than the number, so the number stays natural and falls. */
  lemma SubSqSound()
    ensures Strategy.Sound(SubSq())
  {
    var g := SubSq();
    forall s, m | g.valid(s) && m in g.moves(s)
      ensures g.valid(g.apply(s, m)) && g.rank(g.apply(s, m)) < g.rank(s)
    {
      var sq := Squares(s.number);
      var i :| 0 <= i < |sq| && PossibleMoves(s)[i] == m;
      assert m == IntMove(sq[i]) && sq[i] in sq;
      SquaresMembership(s.number, sq[i]);
      var k :| 1 <= k && k * k == sq[i];
      assert k * k >= k by {
        assert k * k == k * (k - 1) + k;
        assert k * (k - 1) >= 0;
      }
      SubtractSquareMakeMoveSpec(s, sq[i]);
    }
  }

  /**
   * With `is_winner`, the player to move at 0 has lost: `get_score`
   * files 'over' under -1 and leaves the other buckets empty.
   */
  lemma SubSqOverIsLoss(p: string)
    requires p == "p1" || p == "p2"
    ensures Strategy.TerminalScore(SubSq(), SubtractSquare(p, 0)) == -1
    ensures Strategy.Sound(SubSq())
      && Strategy.Get(Strategy.Scores(SubSq(), SubtractSquare(p, 0)), -1) == [Strategy.Over]
      && Strategy.Get(Strategy.Scores(SubSq(), SubtractSquare(p, 0)), 0) == []
      && Strategy.Get(Strategy.Scores(SubSq(), SubtractSquare(p, 0)), 1) == []
  {
    var g, s := SubSq(), SubtractSquare(p, 0);
    SubSqSound();
    assert Squares(0) == [] by { SquaresExactly(0); }
    assert g.moves(s) == [];
    Strategy.ScoresSpec(g, s, -1);
    Strategy.ScoresSpec(g, s, 0);
    Strategy.ScoresSpec(g, s, 1);
  }

  /** From 1, 2 and 3 the only move takes 1, so the value flips the value one below. */
  lemma SubSqOneMove(p: string, n: nat)
    requires p == "p1" || p == "p2"
    requires 1 <= n <= 3
    ensures Strategy.Sound(SubSq())
      && Strategy.Value(SubSq(), SubtractSquare(p, n))
         == -Strategy.Value(SubSq(), SubtractSquare(NextPlayer(p), n - 1))
  {
    var g, s := SubSq(), SubtractSquare(p, n);
    SubSqSound();
    assert Squares(n) == [1] by {
      assert SquaresFrom(2, n) == [] by { SquaresFromPastEnd(2, n); }
    }
    assert g.moves(s) == [IntMove(1)];
    SubtractSquareMakeMoveSpec(s, 1);
    Strategy.RepliesAt(g, s);
  }

  /** From 4 and 5 the moves are 1 and 4, and their replies flip the values at n - 1 and n - 4. */
  lemma SubSqTwoMoves(p: string, n: nat)
    requires p == "p1" || p == "p2"
    requires n == 4 || n == 5
    ensures SubSqMoves(SubtractSquare(p, n)) == [IntMove(1), IntMove(4)]
    ensures Strategy.Sound(SubSq())
      && |Strategy.Replies(SubSq(), SubtractSquare(p, n))| == 2
      && Strategy.Replies(SubSq(), SubtractSquare(p, n))[0]
         == -Strategy.Value(SubSq(), SubtractSquare(NextPlayer(p), n - 1))
      && Strategy.Replies(SubSq(), SubtractSquare(p, n))[1]
         == -Strategy.Value(SubSq(), SubtractSquare(NextPlayer(p), n - 4))
  {
    var g, s := SubSq(), SubtractSquare(p, n);
    SubSqSound();
    assert Squares(n) == [1, 4] by {
      assert SquaresFrom(3, n) == [] by { SquaresFromPastEnd(3, n); }
    }
    assert g.moves(s) == [IntMove(1), IntMove(4)];
    SubtractSquareMakeMoveSpec(s, 1);
    SubtractSquareMakeMoveSpec(s, 4);
    Strategy.RepliesAt(g, s);
  }

  /** Two moves: the maximum and the picks read off the two scores. */
  lemma PairPick<M>(ms: seq<M>, rs: seq<int>, k: int)
    requires |ms| == |rs| == 2
    ensures Strategy.MaxOf(rs) == if rs[0] < rs[1] then rs[1] else rs[0]
    ensures Strategy.Pick(ms, rs, k)
      == (if rs[0] == k then [ms[0]] else []) + (if rs[1] == k then [ms[1]] else [])
  {
    assert rs[..1][..0] == [] && ms[..1][..0] == [];
    assert Strategy.Pick(ms[..1], rs[..1], k) == (if rs[0] == k then [ms[0]] else []);
  }

  /** A state with two moves is worth the better of their two replies. */
  lemma PairValue<S(!new), M>(g: Strategy.Rules<S, M>, s: S)
    requires Strategy.Sound(g) && g.valid(s) && |g.moves(s)| == 2
    ensures var rs := Strategy.Replies(g, s);
      Strategy.Value(g, s) == if rs[0] < rs[1] then rs[1] else rs[0]
  {
    PairPick(g.moves(s), Strategy.Replies(g, s), 0);
  }

  /** A state with two moves files each under its reply's score. */
  lemma PairBucket<S(!new), M>(g: Strategy.Rules<S, M>, s: S, k: int)
    requires Strategy.Sound(g) && g.valid(s) && |g.moves(s)| == 2
    ensures var ms, rs := g.moves(s), Strategy.Replies(g, s);
      Strategy.Bucket(g, s, k) == (if rs[0] == k then [ms[0]] else []) + (if rs[1] == k then [ms[1]] else [])
  {
    PairPick(g.moves(s), Strategy.Replies(g, s), k);
  }

  /** Up to 3 the moves all take 1: the player to move loses from 0 and 2 and wins from 1 and 3. */
  lemma {:induction false} SubSqUpToThree(p: string, n: nat)
    requires p == "p1" || p == "p2"
    requires n <= 3
    ensures Strategy.Sound(SubSq())
      && Strategy.Value(SubSq(), SubtractSquare(p, n)) == if n == 0 || n == 2 then -1 else 1
    decreases n
  {
    SubSqSound();
    if n == 0 {
      SubSqOverIsLoss(p);
      assert Squares(0) == [] by { SquaresExactly(0); }
    } else {
      SubSqUpToThree(NextPlayer(p), n - 1);
      SubSqOneMove(p, n);
    }
  }

  /** From 4 the player to move wins, and only by taking 4. */
  lemma SubSqFour(p: string)
    requires p == "p1" || p == "p2"
    ensures Strategy.Sound(SubSq())
      && Strategy.Value(SubSq(), SubtractSquare(p, 4)) == 1
      && Strategy.Bucket(SubSq(), SubtractSquare(p, 4), 1) == [IntMove(4)]
  {
    var g, s, q := SubSq(), SubtractSquare(p, 4), NextPlayer(p);
    SubSqSound();
    SubSqUpToThree(q, 3);
    SubSqUpToThree(q, 0);
    SubSqTwoMoves(p, 4);
    PairValue(g, s);
    PairBucket(g, s, 1);
  }

  /** From 5 both moves leave the opponent a won position. */
  lemma SubSqFiveReplies(p: string)
    requires p == "p1" || p == "p2"
    ensures Strategy.Sound(SubSq())
      && SubSqMoves(SubtractSquare(p, 5)) == [IntMove(1), IntMove(4)]
      && |Strategy.Replies(SubSq(), SubtractSquare(p, 5))| == 2
      && Strategy.Replies(SubSq(), SubtractSquare(p, 5))[0] == -1
      && Strategy.Replies(SubSq(), SubtractSquare(p, 5))[1] == -1
  {
    var q := NextPlayer(p);
    SubSqSound();
    SubSqUpToThree(q, 1);
    SubSqFour(q);
    SubSqTwoMoves(p, 5);
  }

  /** From 5 the player to move loses whatever they take. */
  lemma SubSqFive(p: string)
    requires p == "p1" || p == "p2"
    ensures Strategy.Sound(SubSq())
      && Strategy.Value(SubSq(), SubtractSquare(p, 5)) == -1
  {
    SubSqFiveReplies(p);
    PairValue(SubSq(), SubtractSquare(p, 5));
  }

  /** Both moves from 5 lose, so they share the best bucket. */
  lemma SubSqFiveBucket(p: string)
    requires p == "p1" || p == "p2"
    ensures Strategy.Sound(SubSq())
      && Strategy.Bucket(SubSq(), SubtractSquare(p, 5), -1) == [IntMove(1), IntMove(4)]
  {
    var g, s := SubSq(), SubtractSquare(p, 5);
    SubSqFiveReplies(p);
    PairBucket(g, s, -1);
  }

  /** Both engines, started at 4, take 4 and leave the opponent at 0. */
  method EnginesTakeFour(p: string) returns (recursive: Option<Move>, iterative: Option<Move>)
    requires p == "p1" || p == "p2"
    ensures recursive == Some(IntMove(4)) && iterative == Some(IntMove(4))
  {
    var g, s := SubSq(), SubtractSquare(p, 4);
    SubSqSound();
    SubSqFour(p);
    SubSqTwoMoves(p, 4);
    recursive := Strategy.RecursiveStrategy(g, s);
    iterative := Strategy.IterativeStrategy(g, s);
  }

  // ---------------------------------------------------------------------
  // Stonehenge
  // ---------------------------------------------------------------------

  /** A move is one cell letter; `apply` is `make_move` on the one-letter string. */
  function StoneMoves(st: Stonehenge.StonehengeState): seq<char>
  {
    if |st.leyLineMarkers| > 0 then Stonehenge.PossibleMoves(st) else []
  }

  function StoneApply(st: Stonehenge.StonehengeState, c: char): Stonehenge.StonehengeState
  {
    if Stonehenge.WellFormed(st) then Stonehenge.Apply(st, [c]) else st
  }

  /** `is_winner`, whose callers only ask about p1 and p2. */
  predicate StoneWinner(st: Stonehenge.StonehengeState, player: string)
  {
    |st.leyLineMarkers| > 0 && (player == "p1" || player == "p2") && Stonehenge.IsWinner(st, player)
  }

  function StoneRank(st: Stonehenge.StonehengeState): nat
  {
    |Stonehenge.Free(Flatten(st.cells))|
  }

  function Stone(): Strategy.Rules<Stonehenge.StonehengeState, char>
  {
    Strategy.Rules(Stonehenge.WellFormed, StoneMoves, StoneApply, Stonehenge.PlayerName, StoneWinner, StoneRank)
  }

  /** Every Stonehenge move claims one unclaimed cell and keeps the board well formed. */
  lemma StoneSound()
    ensures Strategy.Sound(Stone())
  {
    var g := Stone();
    forall st, c | g.valid(st) && c in g.moves(st)
      ensures g.valid(g.apply(st, c)) && g.rank(g.apply(st, c)) < g.rank(st)
    {
      assert Stonehenge.IsValidMove(st, [c]);
      Stonehenge.MakeMoveCells(st, [c]);
      Stonehenge.MakeMoveFree(st, [c]);
    }
  }

  /** The size-1 board before any move: cells A, B, C and six unclaimed markers. */
  function SizeOne(): Stonehenge.StonehengeState
  {
    Stonehenge.StonehengeState(true, 1, ["AB", "C"], ["@@", "@@", "@@"])
  }

  /**
   * On the size-1 board p1 wins with the first move: the value for p1 is
   * 1 and A is in the best bucket, because after A p2 faces a finished
   * game that p1 has won.
   */
  lemma SizeOneSolved()
    ensures Strategy.Sound(Stone()) && Stonehenge.WellFormed(SizeOne())
      && Strategy.Value(Stone(), SizeOne()) == 1
      && 'A' in Strategy.Bucket(Stone(), SizeOne(), 1)
  {
    var g, s0 := Stone(), SizeOne();
    StoneSound();
    Stonehenge.SizeOneOpening();
    var s1 := g.apply(s0, 'A');
    assert s1 == Stonehenge.Apply(s0, "A");
    assert g.moves(s1) == [];
    assert Strategy.TerminalScore(g, s1) == -1;
    assert Strategy.Value(g, s1) == -1;
    assert g.moves(s0) == "ABC";
    Strategy.RepliesAt(g, s0);
    assert Strategy.Replies(g, s0)[0] == 1;
    assert Strategy.Value(g, s0) == 1;
    Strategy.ValueSpec(g, s0, 'A');
  }

  /** Either engine, on the size-1 board, plays a move after which p2 faces a lost game. */
  method EnginesWinSizeOne() returns (recursive: char, iterative: char)
    ensures Strategy.Sound(Stone()) && recursive in "ABC" && iterative in "ABC"
    ensures Stonehenge.WellFormed(StoneApply(SizeOne(), recursive))
      && Strategy.Value(Stone(), StoneApply(SizeOne(), recursive)) == -1
    ensures Stonehenge.WellFormed(StoneApply(SizeOne(), iterative))
      && Strategy.Value(Stone(), StoneApply(SizeOne(), iterative)) == -1
  {
    var g, s0 := Stone(), SizeOne();
    StoneSound();
    SizeOneSolved();
    var r := Strategy.RecursiveStrategy(g, s0);
    var i := Strategy.IterativeStrategy(g, s0);
    Strategy.ValueSpec(g, s0, r.value);
    Strategy.ValueSpec(g, s0, i.value);
    recursive, iterative := r.value, i.value;
  }
}
