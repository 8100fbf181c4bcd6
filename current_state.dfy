/**
 * The states of the first assignment's games (assignments/a1/current_state.py).
 *
 * The Python class hierarchy CurrentState > {SubtractSquareState,
 * ChopsticksState} becomes one datatype whose constructor is the class:
 * Python's `type(self) == type(other)` is "same constructor" here. Every
 * state is immutable; `make_move` always builds a new one.
 */
module CurrentState {
  import opened Wrappers

  /** A player's two hands, Python's tuple `(left, right)`. */
  datatype Hand = Hand(left: int, right: int)

  /** A Python move value: Subtract-Square moves are ints, Chopsticks moves strings. */
  datatype Move = IntMove(n: int) | StrMove(s: string)

  datatype State =
    | Plain(player: string)                             // CurrentState itself
    | SubtractSquare(player: string, number: int)       // SubtractSquareState
    | Chopsticks(player: string, p1: Hand, p2: Hand)    // ChopsticksState

  /** The states whose `get_possible_moves` returns instead of raising. */
  predicate Playable(s: State)
  {
    !s.Plain? && (s.SubtractSquare? ==> s.number >= 0)
  }

  /** The player who moves after `player`, as both `make_move`s compute it. */
  function NextPlayer(player: string): string
  {
    if player == "p1" then "p2" else "p1"
  }

  // ---------------------------------------------------------------------
  // Subtract-Square
  // ---------------------------------------------------------------------

  /** `[k ** 2 for k in range(from, ...) if k ** 2 <= n]`, scanning k = from .. n. */
  function SquaresFrom(from: nat, n: nat): seq<int>
    decreases n + 1 - from
  {
    if from > n then []
    else (if from * from <= n then [from * from] else []) + SquaresFrom(from + 1, n)
  }

  /** The list comprehension of `SubtractSquareState.get_possible_moves`. */
  function Squares(n: nat): seq<int>
  {
    SquaresFrom(1, n)
  }

  lemma {:induction false} SquaresFromPastEnd(from: nat, n: nat)
    requires from * from > n
    ensures SquaresFrom(from, n) == []
    decreases n + 1 - from
  {
    if from <= n {
      assert (from + 1) * (from + 1) == from * from + 2 * from + 1;
      SquaresFromPastEnd(from + 1, n);
    }
  }

  lemma {:induction false} SquaresFromShape(from: nat, n: nat)
    requires 1 <= from && (from - 1) * (from - 1) <= n
    ensures forall i :: 0 <= i < |SquaresFrom(from, n)| ==> SquaresFrom(from, n)[i] == (from + i) * (from + i)
    ensures var c := from - 1 + |SquaresFrom(from, n)|;
      c * c <= n < (c + 1) * (c + 1)
    decreases n + 1 - from
  {
    if from * from <= n {
      SquaresFromShape(from + 1, n);
      SquaresFromCons(from, n, from + 1);
    } else {
      assert SquaresFrom(from, n) == [] by {
        SquaresFromPastEnd(from, n);
      }
    }
  }

  /** One square more: the list from `from` is from^2 followed by the list from from + 1. */
  lemma SquaresFromCons(from: nat, n: nat, next: nat)
    requires 1 <= from && from * from <= n && next == from + 1
    requires forall i :: 0 <= i < |SquaresFrom(next, n)| ==> SquaresFrom(next, n)[i] == (next + i) * (next + i)
    ensures forall i :: 0 <= i < |SquaresFrom(from, n)| ==> SquaresFrom(from, n)[i] == (from + i) * (from + i)
    ensures |SquaresFrom(from, n)| == 1 + |SquaresFrom(next, n)|
  {
    var r, rest := SquaresFrom(from, n), SquaresFrom(from + 1, n);
    assert from <= n by { SquareMonotone(1, from); assert 1 * from <= from * from; }
    assert r == [from * from] + rest;
    forall i | 0 <= i < |r| ensures r[i] == (from + i) * (from + i) {
      if i > 0 {
        assert r[i] == rest[i - 1];
        assert from + 1 + (i - 1) == from + i;
      }
    }
  }

  /**
   * The Subtract-Square moves are exactly the squares 1, 4, 9, ... up to n:
   * the i-th is (i+1)^2 and the next square after the last exceeds n.
   */
  lemma SquaresExactly(n: nat)
    ensures forall i :: 0 <= i < |Squares(n)| ==> Squares(n)[i] == (i + 1) * (i + 1)
    ensures |Squares(n)| * |Squares(n)| <= n < (|Squares(n)| + 1) * (|Squares(n)| + 1)
  {
    SquaresFromShape(1, n);
  }

  /** Consequences of `SquaresExactly`: ascending, positive, at most n, and every square up to n. */
  lemma SquaresMembers(n: nat)
    ensures forall i, j :: 0 <= i < j < |Squares(n)| ==> Squares(n)[i] < Squares(n)[j]
    ensures forall m :: m in Squares(n) ==> 1 <= m <= n
    ensures forall k: int :: 1 <= k && k * k <= n ==> k * k in Squares(n)
  {
    SquaresAscending(n);
    SquaresBounded(n);
    SquaresComplete(n);
  }

  lemma SquaresAscending(n: nat)
    ensures forall i, j :: 0 <= i < j < |Squares(n)| ==> Squares(n)[i] < Squares(n)[j]
  {
    var r := Squares(n);
    SquaresExactly(n);
    forall i, j | 0 <= i < j < |r| ensures r[i] < r[j] {
      SquareStrict(i + 1, j + 1);
    }
  }

  lemma SquaresBounded(n: nat)
    ensures forall m :: m in Squares(n) ==> 1 <= m <= n
  {
    var r := Squares(n);
    SquaresExactly(n);
    forall m | m in r ensures 1 <= m <= n {
      var i :| 0 <= i < |r| && r[i] == m;
      SquareMonotone(i + 1, |r|);
    }
  }

  lemma SquaresComplete(n: nat)
    ensures forall k: int :: 1 <= k && k * k <= n ==> k * k in Squares(n)
  {
    var r := Squares(n);
    SquaresExactly(n);
    forall k: int | 1 <= k && k * k <= n ensures k * k in r {
      if k > |r| {
        SquareMonotone(|r| + 1, k);
      }
      assert r[k - 1] == k * k;
    }
  }

  lemma SquareStrict(a: int, b: int)
    requires 0 <= a < b
    ensures a * a < b * b
  {
    assert a * a <= a * b by { assert a * (b - a) >= 0; }
    assert a * b < b * b by { assert (b - a) * b > 0; }
  }

  lemma SquareMonotone(a: int, b: int)
    requires 0 <= a <= b
    ensures a * a <= b * b
  {
    assert a * a <= a * b <= b * b;
  }

  lemma SquaresOfFive()
    ensures Squares(5) == [1, 4]
  {
    assert SquaresFrom(6, 5) == [];
    assert SquaresFrom(3, 5) == SquaresFrom(4, 5) == SquaresFrom(5, 5) == [];
    assert SquaresFrom(2, 5) == [4];
  }

  // ---------------------------------------------------------------------
  // Chopsticks
  // ---------------------------------------------------------------------

  /** The mover's hands and the opponent's, as `get_possible_moves` and `make_move` pick them. */
  function MoverHand(s: State): Hand
    requires s.Chopsticks?
  {
    if s.player == "p1" then s.p1 else s.p2
  }

  function OpponentHand(s: State): Hand
    requires s.Chopsticks?
  {
    if s.player == "p1" then s.p2 else s.p1
  }

  /** The four Chopsticks move names in the order `get_possible_moves` tries them. */
  const MoveNames: seq<string> := ["ll", "lr", "rl", "rr"]

  /** Whether the mover's hand (first letter) and the opponent's hand (second letter) are both alive. */
  predicate HandsAlive(s: State, name: string)
    requires s.Chopsticks? && name in MoveNames
  {
    var attacker := if name[0] == 'l' then MoverHand(s).left else MoverHand(s).right;
    var target := if name[1] == 'l' then OpponentHand(s).left else OpponentHand(s).right;
    attacker != 0 && target != 0
  }

  function ChopsticksMoves(s: State): (moves: seq<Move>)
    requires s.Chopsticks?
    ensures |moves| <= 4
    ensures forall i :: 0 <= i < |moves| ==>
      moves[i].StrMove? && moves[i].s in MoveNames && HandsAlive(s, moves[i].s)
  {
    var mine, theirs := MoverHand(s), OpponentHand(s);
    (if mine.left != 0 && theirs.left != 0 then [StrMove("ll")] else [])
    + (if mine.left != 0 && theirs.right != 0 then [StrMove("lr")] else [])
    + (if mine.right != 0 && theirs.left != 0 then [StrMove("rl")] else [])
    + (if mine.right != 0 && theirs.right != 0 then [StrMove("rr")] else [])
  }

  /** Where a move name stands in the order ll, lr, rl, rr. */
  function NameRank(m: Move): int
  {
    if m == StrMove("ll") then 0
    else if m == StrMove("lr") then 1
    else if m == StrMove("rl") then 2
    else if m == StrMove("rr") then 3
    else 4
  }

  /**
   * A Chopsticks move is offered iff both hands it names are alive, and the
   * moves come in the order ll, lr, rl, rr.
   */
  lemma ChopsticksMovesSpec(s: State)
    requires s.Chopsticks?
    ensures forall name :: name in MoveNames ==> (StrMove(name) in ChopsticksMoves(s) <==> HandsAlive(s, name))
    ensures forall m :: m in ChopsticksMoves(s) ==> m.StrMove? && m.s in MoveNames
    ensures forall i, j :: 0 <= i < j < |ChopsticksMoves(s)| ==>
      NameRank(ChopsticksMoves(s)[i]) < NameRank(ChopsticksMoves(s)[j])
  {
    ChopsticksMovesOffered(s);
    ChopsticksMovesOrdered(s);
  }

  lemma ChopsticksMovesOffered(s: State)
    requires s.Chopsticks?
    ensures forall name :: name in MoveNames ==> (StrMove(name) in ChopsticksMoves(s) <==> HandsAlive(s, name))
    ensures forall m :: m in ChopsticksMoves(s) ==> m.StrMove? && m.s in MoveNames
  {
  }

  lemma ChopsticksMovesOrdered(s: State)
    requires s.Chopsticks?
    ensures forall i, j :: 0 <= i < j < |ChopsticksMoves(s)| ==>
      NameRank(ChopsticksMoves(s)[i]) < NameRank(ChopsticksMoves(s)[j])
  {
    var mine, theirs := MoverHand(s), OpponentHand(s);
    var ll := if mine.left != 0 && theirs.left != 0 then [StrMove("ll")] else [];
    var lr := if mine.left != 0 && theirs.right != 0 then [StrMove("lr")] else [];
    var rl := if mine.right != 0 && theirs.left != 0 then [StrMove("rl")] else [];
    var rr := if mine.right != 0 && theirs.right != 0 then [StrMove("rr")] else [];
    assert ChopsticksMoves(s) == ll + lr + rl + rr;
    RankedAppend([], ll, 0);
    RankedAppend(ll, lr, 1);
    RankedAppend(ll + lr, rl, 2);
    RankedAppend(ll + lr + rl, rr, 3);
  }

  /** Appending at most one move of a higher rank keeps the ranks strictly increasing. */
  lemma RankedAppend(xs: seq<Move>, extra: seq<Move>, r: int)
    requires forall i, j :: 0 <= i < j < |xs| ==> NameRank(xs[i]) < NameRank(xs[j])
    requires forall i :: 0 <= i < |xs| ==> NameRank(xs[i]) < r
    requires |extra| <= 1 && forall i :: 0 <= i < |extra| ==> NameRank(extra[i]) == r
    ensures forall i, j :: 0 <= i < j < |xs + extra| ==> NameRank((xs + extra)[i]) < NameRank((xs + extra)[j])
    ensures forall i :: 0 <= i < |xs + extra| ==> NameRank((xs + extra)[i]) <= r
  {
  }

  /** Python's tuple `(x % 5, y % 5)`: for the positive modulus 5 Python's `%` and Dafny's agree. */
  function Mod5(h: Hand): Hand
  {
    Hand(h.left % 5, h.right % 5)
  }

  /** `ChopsticksState.make_move`; `None` where Python indexes the empty string `''` and raises. */
  function ChopsticksMakeMove(s: State, m: Move): (r: Option<State>)
    requires s.Chopsticks?
    ensures r.Some? ==> r.value.Chopsticks? && r.value.player == NextPlayer(s.player)
    ensures r.Some? ==> MoverHand(s) == (if s.player == "p1" then r.value.p1 else r.value.p2)
    ensures r.Some? ==> var hit := if s.player == "p1" then r.value.p2 else r.value.p1;
      0 <= hit.left < 5 && 0 <= hit.right < 5
  {
    var mine, theirs := MoverHand(s), OpponentHand(s);
    var hit :=
      if m == StrMove("ll") then Some(Hand(theirs.left + mine.left, theirs.right))
      else if m == StrMove("lr") then Some(Hand(theirs.left, theirs.right + mine.left))
      else if m == StrMove("rl") then Some(Hand(theirs.left + mine.right, theirs.right))
      else if m == StrMove("rr") then Some(Hand(theirs.left, theirs.right + mine.right))
      else None;
    match hit
    case None => None
    case Some(h) =>
      if s.player == "p1" then Some(Chopsticks("p2", s.p1, Mod5(h)))
      else Some(Chopsticks("p1", Mod5(h), s.p2))
  }

  function ChopsticksIsOver(s: State): (over: bool)
    requires s.Chopsticks?
    ensures over ==> ChopsticksMoves(s) == []
  {
    s.p1 == Hand(0, 0) || s.p2 == Hand(0, 0)
  }

  /** `is_over` holds exactly when no move is offered. */
  lemma ChopsticksOverIffNoMoves(s: State)
    requires s.Chopsticks?
    ensures ChopsticksIsOver(s) <==> ChopsticksMoves(s) == []
  {
    if !ChopsticksIsOver(s) {
      var mine, theirs := MoverHand(s), OpponentHand(s);
      assert mine != Hand(0, 0) && theirs != Hand(0, 0);
      assert StrMove("ll") in ChopsticksMoves(s) || StrMove("lr") in ChopsticksMoves(s)
          || StrMove("rl") in ChopsticksMoves(s) || StrMove("rr") in ChopsticksMoves(s);
    }
  }

  /**
   * Any of the four moves leaves the mover's hands alone, adds the named
   * attacking hand to the named target hand modulo 5 (so it lands in [0, 5)),
   * leaves the opponent's other hand alone and passes the turn.
   */
  lemma ChopsticksMakeMoveSpec(s: State, name: string)
    requires s.Chopsticks? && name in MoveNames
    ensures var r := ChopsticksMakeMove(s, StrMove(name));
      && r.Some? && r.value.Chopsticks?
      && r.value.player == NextPlayer(s.player)
      && MoverHand(s) == (if s.player == "p1" then r.value.p1 else r.value.p2)
      && var after := if s.player == "p1" then r.value.p2 else r.value.p1;
         var attacker := if name[0] == 'l' then MoverHand(s).left else MoverHand(s).right;
         (name[1] == 'l' ==> after.left == (OpponentHand(s).left + attacker) % 5
                             && after.right == OpponentHand(s).right % 5)
         && (name[1] == 'r' ==> after.right == (OpponentHand(s).right + attacker) % 5
                                && after.left == OpponentHand(s).left % 5)
         && 0 <= after.left < 5 && 0 <= after.right < 5
  {
  }

  /** A move that is none of the four names raises in Python (`''[0]`). */
  lemma ChopsticksMakeMoveRejects(s: State, m: Move)
    requires s.Chopsticks?
    ensures ChopsticksMakeMove(s, m).None? <==> !(m.StrMove? && m.s in MoveNames)
  {
  }

  // ---------------------------------------------------------------------
  // The CurrentState interface, dispatched on the class
  // ---------------------------------------------------------------------

  /** `get_possible_moves`; `CurrentState`'s own raises NotImplementedError, and a negative number makes `number ** 0.5` complex. */
  function PossibleMoves(s: State): (moves: seq<Move>)
    requires Playable(s)
    ensures s.SubtractSquare? ==> forall i :: 0 <= i < |moves| ==> moves[i].IntMove? && 1 <= moves[i].n <= s.number
    ensures s.SubtractSquare? ==> (moves == [] <==> s.number == 0)
    ensures s.Chopsticks? ==> forall i :: 0 <= i < |moves| ==> moves[i].StrMove? && moves[i].s in MoveNames
    ensures s.Chopsticks? ==> (moves == [] <==> ChopsticksIsOver(s))
  {
    match s
    case SubtractSquare(_, n) =>
      SquaresMembers(n);
      assert n > 0 ==> 1 * 1 in Squares(n);
      var sq := Squares(n);
      assert forall i :: 0 <= i < |sq| ==> sq[i] in Squares(n);
      seq(|sq|, i requires 0 <= i < |sq| => IntMove(sq[i]))
    case Chopsticks(_, _, _) =>
      ChopsticksOverIffNoMoves(s);
      ChopsticksMoves(s)
  }

  /** `SubtractSquareState.make_move` performs no check: any int is subtracted; a string raises TypeError. */
  function MakeMove(s: State, m: Move): (r: Option<State>)
    requires !s.Plain?
    ensures r.Some? ==> r.value.player == NextPlayer(s.player)
    ensures r.Some? ==> (r.value.SubtractSquare? <==> s.SubtractSquare?)
    ensures s.SubtractSquare? ==> (r.Some? <==> m.IntMove?)
    ensures s.SubtractSquare? && r.Some? ==> r.value.number == s.number - m.n
  {
    match s
    case SubtractSquare(player, n) =>
      if m.IntMove? then Some(SubtractSquare(NextPlayer(player), n - m.n)) else None
    case Chopsticks(_, _, _) => ChopsticksMakeMove(s, m)
  }

  /** `is_valid_move`; Python's `None` is `Option.None`. */
  function IsValidMove(s: State, m: Option<Move>): (valid: bool)
    requires Playable(s)
    ensures valid ==> m.Some?
    ensures valid && s.SubtractSquare? ==> m.value.IntMove? && 1 <= m.value.n <= s.number
    ensures valid && s.Chopsticks? ==> m.value.StrMove? && m.value.s in MoveNames
  {
    m.Some? && m.value in PossibleMoves(s)
  }

  function CurrentPlayerName(s: State): (name: string)
    ensures name == s.player
  {
    s.player
  }

  /** A number is among the Subtract-Square moves exactly when it is a positive square no larger than n. */
  lemma SquaresMembership(n: nat, x: int)
    ensures x in Squares(n) <==> x <= n && exists k :: 1 <= k && k * k == x
  {
    SquaresMembers(n);
    if x in Squares(n) {
      SquaresExactly(n);
      var i :| 0 <= i < |Squares(n)| && Squares(n)[i] == x;
      assert 1 <= i + 1 && (i + 1) * (i + 1) == x;
    }
  }

  /**
   * A Subtract-Square move is valid exactly when it is a positive perfect
   * square no larger than the number; `None` and strings never are.
   */
  lemma SubtractSquareValidMoves(s: State, m: Option<Move>)
    requires s.SubtractSquare? && s.number >= 0
    ensures IsValidMove(s, m) <==>
      m.Some? && m.value.IntMove? && m.value.n <= s.number
      && exists k :: 1 <= k && k * k == m.value.n
  {
    var sq := Squares(s.number);
    var ms := PossibleMoves(s);
    assert forall mv :: mv in ms <==> mv.IntMove? && mv.n in sq by {
      forall mv ensures mv in ms <==> mv.IntMove? && mv.n in sq {
        if mv in ms {
          var i :| 0 <= i < |ms| && ms[i] == mv;
          assert sq[i] == mv.n;
        }
        if mv.IntMove? && mv.n in sq {
          var i :| 0 <= i < |sq| && sq[i] == mv.n;
          assert ms[i] == mv;
        }
      }
    }
    if m.Some? && m.value.IntMove? {
      SquaresMembership(s.number, m.value.n);
    }
  }

  /** `SubtractSquareState.make_move` subtracts whatever it is given and passes the turn. */
  lemma SubtractSquareMakeMoveSpec(s: State, k: int)
    requires s.SubtractSquare?
    ensures MakeMove(s, IntMove(k)) == Some(SubtractSquare(NextPlayer(s.player), s.number - k))
    ensures s.player == "p1" <==> MakeMove(s, IntMove(k)).value.player == "p2"
    ensures s == SubtractSquare("p1", 5) ==> MakeMove(s, IntMove(2)).value.number == 3
  {
  }

  /** The doctest of `get_possible_moves` for 5. */
  lemma SubtractSquareMovesOfFive()
    ensures PossibleMoves(SubtractSquare("p1", 5)) == [IntMove(1), IntMove(4)]
  {
    SquaresOfFive();
  }

  /** `__eq__`: same class and same `_player`; no subclass overrides it. */
  function Equals(a: State, b: State): (same: bool)
    ensures same ==> a.player == b.player && a.Plain? == b.Plain?
    ensures a == b ==> same
  {
    ((a.Plain? && b.Plain?) || (a.SubtractSquare? && b.SubtractSquare?) || (a.Chopsticks? && b.Chopsticks?))
    && a.player == b.player
  }

  /**
   * Equality is an equivalence that ignores every attribute but the
   * player: two Subtract-Square states with different numbers are equal,
   * and states of different classes never are.
   */
  lemma EqualsSpec(a: State, b: State, c: State)
    ensures Equals(a, a)
    ensures Equals(a, b) ==> Equals(b, a)
    ensures Equals(a, b) && Equals(b, c) ==> Equals(a, c)
    ensures Equals(a, b) ==> a.player == b.player
    ensures a.SubtractSquare? && b.SubtractSquare? ==> (Equals(a, b) <==> a.player == b.player)
    ensures a.Chopsticks? && b.Chopsticks? ==> (Equals(a, b) <==> a.player == b.player)
    ensures a.Plain? != b.Plain? ==> !Equals(a, b)
  {
  }

  /** The doctests of `__eq__`. */
  lemma EqualsDoctest()
    ensures !Equals(Plain("p1"), Plain("p2")) && Equals(Plain("p1"), Plain("p1"))
    ensures Equals(SubtractSquare("p1", 5), SubtractSquare("p1", 9))
  {
  }

  /** The doctests of the Chopsticks moves and of `make_move('ll')`. */
  lemma ChopsticksDoctests()
    ensures PossibleMoves(Chopsticks("p1", Hand(1, 1), Hand(1, 1)))
      == [StrMove("ll"), StrMove("lr"), StrMove("rl"), StrMove("rr")]
    ensures PossibleMoves(Chopsticks("p1", Hand(0, 0), Hand(0, 0))) == []
    ensures MakeMove(Chopsticks("p1", Hand(1, 1), Hand(1, 1)), StrMove("ll"))
      == Some(Chopsticks("p2", Hand(1, 1), Hand(2, 1)))
    ensures ChopsticksIsOver(Chopsticks("p1", Hand(0, 0), Hand(1, 1)))
  {
  }

  /**
   * Chopsticks can go round in circles: from p1 = (3, 1), p2 = (2, 1) with
   * p1 to move, the moves lr, rl, lr, rl are all offered and come back to
   * the same state. No measure falls with every move, so the exhaustive
   * search is not applied to Chopsticks.
   */
  lemma ChopsticksCycle()
    ensures var s0 := Chopsticks("p1", Hand(3, 1), Hand(2, 1));
      var s1 := Chopsticks("p2", Hand(3, 1), Hand(2, 4));
      var s2 := Chopsticks("p1", Hand(2, 1), Hand(2, 4));
      var s3 := Chopsticks("p2", Hand(2, 1), Hand(2, 1));
      && StrMove("lr") in PossibleMoves(s0) && MakeMove(s0, StrMove("lr")) == Some(s1)
      && StrMove("rl") in PossibleMoves(s1) && MakeMove(s1, StrMove("rl")) == Some(s2)
      && StrMove("lr") in PossibleMoves(s2) && MakeMove(s2, StrMove("lr")) == Some(s3)
      && StrMove("rl") in PossibleMoves(s3) && MakeMove(s3, StrMove("rl")) == Some(s0)
  {
  }
}
