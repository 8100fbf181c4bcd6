/**
 * The minimax engines of assignments/a2/strategy.py, over any game that
 * supplies the interface below: `get_score` and `recursive_strategy`
 * (recursion over the game tree, scores filed in buckets -1, 0 and 1),
 * and `iterative_strategy` (the same search with an explicit stack of
 * `Box` nodes). Both are proved to pick a move of the best bucket, whose
 * score is the negamax value of the state.
 */
module Strategy {
  import opened Wrappers

  // ---------------------------------------------------------------------
  // The game interface the engines use
  // ---------------------------------------------------------------------

  /**
   * What the engines ask of a game: which states can occur, the possible
   * moves of a state and the state after a move, the name of the player
   * to move, the game's `is_winner` once its current state is the given
   * one, and a measure that every move lowers (the remaining number, the
   * number of unclaimed cells).
   */
  datatype Rules<!S, !M> = Rules(
    valid: S -> bool,
    moves: S -> seq<M>,
    apply: (S, M) -> S,
    player: S -> string,
    isWinner: (S, string) -> bool,
    rank: S -> nat)

  /** Every move keeps the state legal and lowers the measure, so every game ends. */
  ghost predicate Sound<S(!new), M>(g: Rules<S, M>)
  {
    forall s, m :: g.valid(s) && m in g.moves(s) ==>
      g.valid(g.apply(s, m)) && g.rank(g.apply(s, m)) < g.rank(s)
  }

  /** The opponent both engines name: 'p1' for 'p2', 'p2' for anything else. */
  function Opponent(player: string): (other: string)
    ensures other == "p1" || other == "p2"
    ensures (player == "p1" || player == "p2") ==> other != player
  {
    if player == "p2" then "p1" else "p2"
  }

  /** The score of a finished state for the player to move: 1 if they won, -1 if the opponent won, else 0. */
  function TerminalScore<S, M>(g: Rules<S, M>, s: S): (r: int)
    ensures -1 <= r <= 1
    ensures r == 1 <==> g.isWinner(s, g.player(s))
    ensures r == -1 <==> !g.isWinner(s, g.player(s)) && g.isWinner(s, Opponent(g.player(s)))
  {
    if g.isWinner(s, g.player(s)) then 1
    else if g.isWinner(s, Opponent(g.player(s))) then -1
    else 0
  }

  // ---------------------------------------------------------------------
  // The highest guaranteed score (negamax)
  // ---------------------------------------------------------------------

  /** Python's `max` on a non-empty list. */
  function MaxOf(xs: seq<int>): (r: int)
    requires |xs| > 0
    ensures r in xs && forall x :: x in xs ==> x <= r
  {
    if |xs| == 1 then xs[0]
    else
      var m := MaxOf(xs[..|xs| - 1]);
      assert forall x :: x in xs ==> x in xs[..|xs| - 1] || x == xs[|xs| - 1];
      if xs[|xs| - 1] > m then xs[|xs| - 1] else m
  }

  /**
   * The highest score the player to move can guarantee: the terminal
   * score of a finished state, otherwise the best of the negated values
   * of the states after each move.
   */
  function Value<S(!new), M>(g: Rules<S, M>, s: S): (v: int)
    requires Sound(g) && g.valid(s)
    ensures -1 <= v <= 1
    decreases g.rank(s), 1
  {
    if g.moves(s) == [] then TerminalScore(g, s)
    else
      var rs := Replies(g, s);
      assert forall x :: x in rs ==> -1 <= x <= 1;
      MaxOf(rs)
  }

  /** For each possible move, in order, the negated value of the state it leads to. */
  function Replies<S(!new), M>(g: Rules<S, M>, s: S): (rs: seq<int>)
    requires Sound(g) && g.valid(s)
    ensures |rs| == |g.moves(s)|
    ensures forall i :: 0 <= i < |rs| ==> -1 <= rs[i] <= 1
    decreases g.rank(s), 0
  {
    var ms := g.moves(s);
    seq(|ms|, i requires 0 <= i < |ms| => -Value(g, g.apply(s, ms[i])))
  }

  /** The reply to the i-th move is the negated value of the state it leads to. */
  lemma RepliesAt<S(!new), M>(g: Rules<S, M>, s: S)
    requires Sound(g) && g.valid(s)
    ensures forall i :: 0 <= i < |g.moves(s)| ==> -Replies(g, s)[i] == Value(g, g.apply(s, g.moves(s)[i]))
  {
  }

  /** The moves of `ms` whose score in `rs` is k, in order. */
  function Pick<M>(ms: seq<M>, rs: seq<int>, k: int): seq<M>
    requires |ms| == |rs|
  {
    if ms == [] then []
    else Pick(ms[..|ms| - 1], rs[..|rs| - 1], k) + (if rs[|rs| - 1] == k then [ms[|ms| - 1]] else [])
  }

  lemma {:induction false} PickMember<M>(ms: seq<M>, rs: seq<int>, k: int, m: M)
    requires |ms| == |rs|
    ensures m in Pick(ms, rs, k) <==> exists i :: 0 <= i < |ms| && ms[i] == m && rs[i] == k
    decreases |ms|
  {
    if ms != [] {
      var n := |ms| - 1;
      PickMember(ms[..n], rs[..n], k, m);
      if m in Pick(ms[..n], rs[..n], k) {
        var i :| 0 <= i < n && ms[..n][i] == m && rs[..n][i] == k;
        assert ms[i] == m && rs[i] == k;
      }
      if exists i :: 0 <= i < |ms| && ms[i] == m && rs[i] == k {
        var i :| 0 <= i < |ms| && ms[i] == m && rs[i] == k;
        if i < n {
          assert ms[..n][i] == m && rs[..n][i] == k;
        }
      }
    }
  }

  lemma {:induction false} PickNone<M>(ms: seq<M>, rs: seq<int>, k: int)
    requires |ms| == |rs| && forall i :: 0 <= i < |rs| ==> rs[i] != k
    ensures Pick(ms, rs, k) == []
    decreases |ms|
  {
    if ms != [] {
      PickNone(ms[..|ms| - 1], rs[..|rs| - 1], k);
    }
  }

  /** Scores in {-1, 0, 1} split the moves: the three picks together have as many moves as there are. */
  lemma {:induction false} PickSizes<M>(ms: seq<M>, rs: seq<int>)
    requires |ms| == |rs| && forall i :: 0 <= i < |rs| ==> -1 <= rs[i] <= 1
    ensures |Pick(ms, rs, -1)| + |Pick(ms, rs, 0)| + |Pick(ms, rs, 1)| == |ms|
    decreases |ms|
  {
    if ms != [] {
      var n := |ms| - 1;
      PickSizes(ms[..n], rs[..n]);
    }
  }

  /** The moves whose reply scores k for the player to move: the bucket k of `get_score`. */
  function Bucket<S(!new), M>(g: Rules<S, M>, s: S, k: int): seq<M>
    requires Sound(g) && g.valid(s)
  {
    Pick(g.moves(s), Replies(g, s), k)
  }

  /**
   * The best bucket is never empty on a state with moves, no bucket above
   * it holds a move, and its moves are exactly those after which the
   * opponent's value is the negation of this state's value.
   */
  lemma ValueSpec<S(!new), M>(g: Rules<S, M>, s: S, m: M)
    requires Sound(g) && g.valid(s) && g.moves(s) != []
    ensures Bucket(g, s, Value(g, s)) != []
    ensures forall k :: Value(g, s) < k ==> Bucket(g, s, k) == []
    ensures m in Bucket(g, s, Value(g, s)) <==>
      m in g.moves(s) && -Value(g, g.apply(s, m)) == Value(g, s)
    ensures m in g.moves(s) ==> -Value(g, g.apply(s, m)) <= Value(g, s)
  {
    var ms, rs, v := g.moves(s), Replies(g, s), Value(g, s);
    var i :| 0 <= i < |rs| && rs[i] == v;
    PickMember(ms, rs, v, ms[i]);
    assert forall j :: 0 <= j < |rs| ==> rs[j] in rs;
    forall k | v < k
      ensures Bucket(g, s, k) == []
    {
      PickNone(ms, rs, k);
    }
    PickMember(ms, rs, v, m);
    if m in ms {
      var j :| 0 <= j < |ms| && ms[j] == m;
      assert rs[j] in rs;
    }
  }

  // ---------------------------------------------------------------------
  // get_score: the score dictionary
  // ---------------------------------------------------------------------

  /** An entry of a score list: the marker 'over' of a finished state, or a move. */
  datatype Entry<M> = Over | Play(move: M)

  /** The dictionary `{-1: [...], 0: [...], 1: [...]}` of `get_score`. */
  datatype Buckets<M> = Buckets(lose: seq<Entry<M>>, draw: seq<Entry<M>>, win: seq<Entry<M>>)

  function Get<M>(b: Buckets<M>, k: int): seq<Entry<M>>
    requires -1 <= k <= 1
  {
    if k == -1 then b.lose else if k == 0 then b.draw else b.win
  }

  /** `score_dict[k].append(e)`. */
  function Append<M>(b: Buckets<M>, k: int, e: Entry<M>): (r: Buckets<M>)
    requires -1 <= k <= 1
    ensures Get(r, k) == Get(b, k) + [e]
    ensures forall j :: -1 <= j <= 1 && j != k ==> Get(r, j) == Get(b, j)
  {
    if k == -1 then b.(lose := b.lose + [e])
    else if k == 0 then b.(draw := b.draw + [e])
    else b.(win := b.win + [e])
  }

  /** The `oppo_score` read off a dictionary: its highest non-empty key, -1000 if all are empty. */
  function Best<M>(b: Buckets<M>): int
  {
    if Get(b, 1) != [] then 1 else if Get(b, 0) != [] then 0 else if Get(b, -1) != [] then -1 else -1000
  }

  /** The dictionary after filing each move of `ms` under the score of the same place in `rs`. */
  function Filed<M>(ms: seq<M>, rs: seq<int>): Buckets<M>
    requires |ms| == |rs| && forall i :: 0 <= i < |rs| ==> -1 <= rs[i] <= 1
  {
    if ms == [] then Buckets([], [], [])
    else Append(Filed(ms[..|ms| - 1], rs[..|rs| - 1]), rs[|rs| - 1], Play(ms[|ms| - 1]))
  }

  lemma FiledStep<M>(ms: seq<M>, rs: seq<int>, i: int, k: int)
    requires |ms| == |rs| && forall j :: 0 <= j < |rs| ==> -1 <= rs[j] <= 1
    requires 0 <= i < |ms| && k == rs[i]
    ensures -1 <= k <= 1
    ensures Filed(ms[..i + 1], rs[..i + 1]) == Append(Filed(ms[..i], rs[..i]), k, Play(ms[i]))
  {
    assert ms[..i + 1][..i] == ms[..i] && rs[..i + 1][..i] == rs[..i];
  }

  /** The dictionary `get_score` returns for a state. */
  function Scores<S(!new), M>(g: Rules<S, M>, s: S): (d: Buckets<M>)
    requires Sound(g) && g.valid(s)
    ensures Best(d) == Value(g, s)
  {
    if g.moves(s) == [] then Append(Buckets([], [], []), TerminalScore(g, s), Over)
    else FiledBest(g.moves(s), Replies(g, s)); Filed(g.moves(s), Replies(g, s))
  }

  function Plays<M>(ms: seq<M>): (r: seq<Entry<M>>)
    ensures |r| == |ms| && forall i :: 0 <= i < |ms| ==> r[i] == Play(ms[i])
  {
    seq(|ms|, i requires 0 <= i < |ms| => Play(ms[i]))
  }

  /** Filing puts in bucket k exactly the moves scored k, in order, and nothing else. */
  lemma {:induction false} FiledGet<M>(ms: seq<M>, rs: seq<int>, k: int)
    requires |ms| == |rs| && forall i :: 0 <= i < |rs| ==> -1 <= rs[i] <= 1
    requires -1 <= k <= 1
    ensures Get(Filed(ms, rs), k) == Plays(Pick(ms, rs, k))
    decreases |ms|
  {
    if ms != [] {
      var n := |ms| - 1;
      FiledGet(ms[..n], rs[..n], k);
    }
  }

  /** Filing scores that are all -1, 0 or 1 makes the highest one the best key. */
  lemma FiledBest<M>(ms: seq<M>, rs: seq<int>)
    requires |ms| == |rs| && |rs| > 0 && forall i :: 0 <= i < |rs| ==> -1 <= rs[i] <= 1
    ensures Best(Filed(ms, rs)) == MaxOf(rs)
  {
    var v := MaxOf(rs);
    forall k | -1 <= k <= 1
      ensures Get(Filed(ms, rs), k) != [] <==> k in rs
    {
      FiledGet(ms, rs, k);
      if k in rs {
        var i :| 0 <= i < |rs| && rs[i] == k;
        PickMember(ms, rs, k, ms[i]);
      } else if Pick(ms, rs, k) != [] {
        PickMember(ms, rs, k, Pick(ms, rs, k)[0]);
      }
    }
  }

  /**
   * What `get_score` returns. A finished state gives one 'over' entry,
   * filed under its terminal score, and no move. Otherwise every possible
   * move sits, in order, in the bucket of the negated value after it, and
   * no bucket holds 'over'. Either way the best key is the state's value.
   */
  lemma ScoresSpec<S(!new), M>(g: Rules<S, M>, s: S, k: int)
    requires Sound(g) && g.valid(s) && -1 <= k <= 1
    ensures g.moves(s) == [] ==>
      Get(Scores(g, s), k) == (if k == TerminalScore(g, s) then [Over] else [])
    ensures g.moves(s) != [] ==> Get(Scores(g, s), k) == Plays(Bucket(g, s, k))
    ensures Best(Scores(g, s)) == Value(g, s)
  {
    if g.moves(s) != [] {
      FiledGet(g.moves(s), Replies(g, s), k);
      FiledBest(g.moves(s), Replies(g, s));
    }
  }

  /** Every possible move is in exactly one bucket, the one of the negated value after it. */
  lemma BucketPartition<S(!new), M>(g: Rules<S, M>, s: S, i: int, k: int)
    requires Sound(g) && g.valid(s) && 0 <= i < |g.moves(s)| && -1 <= k <= 1
    ensures g.moves(s)[i] in Bucket(g, s, -Value(g, g.apply(s, g.moves(s)[i])))
    ensures |Bucket(g, s, -1)| + |Bucket(g, s, 0)| + |Bucket(g, s, 1)| == |g.moves(s)|
  {
    var ms, rs := g.moves(s), Replies(g, s);
    PickMember(ms, rs, rs[i], ms[i]);
    PickSizes(ms, rs);
  }

  /** The best key of the dictionary for the state after the i-th move is the negated reply score. */
  lemma BestOfChild<S(!new), M>(g: Rules<S, M>, s: S, i: int, d: Buckets<M>)
    requires Sound(g) && g.valid(s) && 0 <= i < |g.moves(s)|
    requires d == Scores(g, g.apply(s, g.moves(s)[i]))
    ensures Best(d) == -Replies(g, s)[i]
  {
    ScoresSpec(g, g.apply(s, g.moves(s)[i]), 0);
  }

  /** The score of a finished state: 1 if the player to move has won, -1 if the opponent has, else 0. */
  method OverScore<S, M>(g: Rules<S, M>, s: S) returns (score: int)
    ensures score == TerminalScore(g, s)
    ensures -1 <= score <= 1
  {
    var player := g.player(s);
    var opponent := Opponent(player);
    if g.isWinner(s, player) {
      score := 1;
    } else if g.isWinner(s, opponent) {
      score := -1;
    } else {
      score := 0;
    }
  }

  /** The `oppo_score` loop of `get_score`: the highest key whose list is non-empty, -1000 if none is. */
  method OppoScore<M>(d: Buckets<M>) returns (oppoScore: int)
    ensures oppoScore == Best(d)
    ensures oppoScore != -1000 ==> -1 <= oppoScore <= 1 && Get(d, oppoScore) != []
  {
    oppoScore := -1000;
    if Get(d, 1) != [] {
      oppoScore := 1;
    } else if Get(d, 0) != [] {
      oppoScore := 0;
    } else if Get(d, -1) != [] {
      oppoScore := -1;
    }
  }

  /** Filing the i-th move under the negated best key of its child's dictionary extends the filing of the moves before it. */
  lemma FiledChild<S(!new), M>(g: Rules<S, M>, s: S, i: int, d: Buckets<M>, k: int)
    requires Sound(g) && g.valid(s) && 0 <= i < |g.moves(s)|
    requires d == Scores(g, g.apply(s, g.moves(s)[i])) && k == Best(d)
    ensures -1 <= -1 * k <= 1
    ensures Filed(g.moves(s)[..i + 1], Replies(g, s)[..i + 1])
      == Append(Filed(g.moves(s)[..i], Replies(g, s)[..i]), -1 * k, Play(g.moves(s)[i]))
  {
    BestOfChild(g, s, i, d);
    FiledStep(g.moves(s), Replies(g, s), i, -1 * k);
  }

  /**
   * `get_score`: a finished state files 'over' under its terminal score;
   * otherwise each move is scored by a recursive call on the state after
   * it and filed under the negation of that call's best key.
   */
  method GetScore<S(!new), M>(g: Rules<S, M>, s: S) returns (scoreDict: Buckets<M>)
    requires Sound(g) && g.valid(s)
    ensures scoreDict == Scores(g, s)
    decreases g.rank(s)
  {
    scoreDict := Buckets([], [], []);
    if g.moves(s) == [] {
      var score := OverScore(g, s);
      scoreDict := Append(scoreDict, score, Over);
    } else {
      var moves := g.moves(s);
      ghost var rs := Replies(g, s);
      for i := 0 to |moves|
        invariant scoreDict == Filed(moves[..i], rs[..i])
      {
        var move := moves[i];
        var nextScoreDict := GetScore(g, g.apply(s, move));
        var oppoScore := OppoScore(nextScoreDict);
        FiledChild(g, s, i, nextScoreDict, oppoScore);
        scoreDict := Append(scoreDict, -1 * oppoScore, Play(move));
      }
      assert moves[..|moves|] == moves && rs[..|rs|] == rs;
    }
  }

  /**
   * `choose_random_move` at the call sites of `recursive_strategy`, where
   * the list holds moves only: some move of the list, the random index
   * being a nondeterministic choice.
   */
  method ChooseRandomMove<M>(scoreList: seq<Entry<M>>) returns (move: M)
    requires |scoreList| > 0 && forall e :: e in scoreList ==> e.Play?
    ensures Play(move) in scoreList
  {
    var index :| 0 <= index < |scoreList|;
    move := scoreList[index].move;
  }

  /** A move is among the plays of a list exactly when it is in the list. */
  lemma PlaysMember<M>(ms: seq<M>, m: M)
    ensures Play(m) in Plays(ms) <==> m in ms
  {
    if Play(m) in Plays(ms) {
      var i :| 0 <= i < |ms| && Plays(ms)[i] == Play(m);
    }
    if m in ms {
      var i :| 0 <= i < |ms| && ms[i] == m;
      assert Plays(ms)[i] == Play(m);
    }
  }

  /**
   * What `recursive_strategy` reads off the dictionary: on a finished
   * state every bucket is empty or just 'over'; otherwise the buckets
   * above the value are empty, and the value's bucket holds moves only,
   * at least one, each of them a best move.
   */
  lemma BestBucket<S(!new), M>(g: Rules<S, M>, s: S, d: Buckets<M>)
    requires Sound(g) && g.valid(s) && d == Scores(g, s)
    ensures g.moves(s) == [] ==> forall k :: -1 <= k <= 1 ==> Get(d, k) == [] || Get(d, k) == [Over]
    ensures g.moves(s) != [] ==>
      var v := Value(g, s);
      (forall k :: v < k <= 1 ==> Get(d, k) == [])
      && |Get(d, v)| > 0 && Get(d, v)[0] != Over
      && (forall e :: e in Get(d, v) ==> e.Play?)
      && (forall m :: Play(m) in Get(d, v) ==> m in Bucket(g, s, v))
  {
    if g.moves(s) == [] {
      forall k | -1 <= k <= 1 {
        ScoresSpec(g, s, k);
      }
    } else {
      BestBucketOfMoves(g, s, d);
    }
  }

  lemma BestBucketOfMoves<S(!new), M>(g: Rules<S, M>, s: S, d: Buckets<M>)
    requires Sound(g) && g.valid(s) && d == Scores(g, s) && g.moves(s) != []
    ensures var v := Value(g, s);
      (forall k :: v < k <= 1 ==> Get(d, k) == [])
      && |Get(d, v)| > 0 && Get(d, v)[0] != Over
      && (forall e :: e in Get(d, v) ==> e.Play?)
      && (forall m :: Play(m) in Get(d, v) ==> m in Bucket(g, s, v))
  {
    var v := Value(g, s);
    ValueSpec(g, s, g.moves(s)[0]);
    forall k | v < k <= 1
      ensures Get(d, k) == []
    {
      ScoresSpec(g, s, k);
    }
    ScoresSpec(g, s, v);
    forall m | Play(m) in Get(d, v)
      ensures m in Bucket(g, s, v)
    {
      PlaysMember(Bucket(g, s, v), m);
    }
  }

  /**
   * `recursive_strategy`: a move of the highest non-empty bucket that is
   * not just 'over'; no move when the state is finished (the code then
   * passes '' to `str_to_move`).
   */
  method RecursiveStrategy<S(!new), M(==)>(g: Rules<S, M>, s: S) returns (r: Option<M>)
    requires Sound(g) && g.valid(s)
    ensures r.None? <==> g.moves(s) == []
    ensures r.Some? ==> r.value in Bucket(g, s, Value(g, s))
  {
    var scoreDict := GetScore(g, s);
    BestBucket(g, s, scoreDict);
    if Get(scoreDict, 1) != [] && Get(scoreDict, 1) != [Over] {
      var move := ChooseRandomMove(Get(scoreDict, 1));
      r := Some(move);
    } else if Get(scoreDict, 0) != [] && Get(scoreDict, 0) != [Over] {
      var move := ChooseRandomMove(Get(scoreDict, 0));
      r := Some(move);
    } else if Get(scoreDict, -1) != [] && Get(scoreDict, -1) != [Over] {
      var move := ChooseRandomMove(Get(scoreDict, -1));
      r := Some(move);
    } else {
      r := None;
    }
  }

  // ---------------------------------------------------------------------
  // iterative_strategy: Box, Stack, add_child
  // ---------------------------------------------------------------------

  /** A node of the search tree: a state, the move that led to it, its children and its score once known. */
  class Box<S, M> {
    const state: S
    const move: Option<M>
    var children: seq<Box<S, M>>
    var highestScore: Option<int>

    constructor (state: S, move: Option<M>)
      ensures this.state == state && this.move == move
      ensures children == [] && highestScore == None
    {
      this.state := state;
      this.move := move;
      children := [];
      highestScore := None;
    }
  }

  /** A last-in, first-out stack over a list. */
  class Stack<T> {
    var storage: seq<T>

    constructor ()
      ensures storage == []
    {
      storage := [];
    }

    /** `add`: pushes obj on top. */
    method Add(obj: T)
      modifies this
      ensures storage == old(storage) + [obj]
    {
      storage := storage + [obj];
    }

    /** `remove`: pops the element added last; `None` where the code raises on an empty stack. */
    method Remove() returns (r: Option<T>)
      modifies this
      ensures old(storage) == [] ==> r == None && storage == []
      ensures old(storage) != [] ==>
        r == Some(old(storage)[|old(storage)| - 1]) && storage == old(storage)[..|old(storage)| - 1]
    {
      if IsEmpty() {
        return None;
      }
      r := Some(storage[|storage| - 1]);
      storage := storage[..|storage| - 1];
    }

    /** `is_empty`. */
    function IsEmpty(): (r: bool)
      reads this
      ensures r <==> |storage| == 0
    {
      |storage| == 0
    }
  }

  /** The doctests of `Stack.remove` and `Stack.is_empty`. */
  method StackDoctests()
  {
    var s := new Stack<int>();
    assert s.IsEmpty();
    s.Add(5);
    s.Add(7);
    assert !s.IsEmpty();
    var r := s.Remove();
    assert r == Some(7);
    r := s.Remove();
    assert r == Some(5);
    r := s.Remove();
    assert r == None;
  }

  /** `add_child`: one fresh child per possible move, in order, appended to the node's children and pushed. */
  method AddChild<S, M>(cur: Box<S, M>, s: Stack<Box<S, M>>, g: Rules<S, M>)
    modifies cur, s
    ensures |cur.children| >= |old(cur.children)| && cur.children[..|old(cur.children)|] == old(cur.children)
    ensures s.storage == old(s.storage) + cur.children[|old(cur.children)|..]
    ensures ChildStates(g, cur.state, cur.children[|old(cur.children)|..]) && Distinct(cur.children[|old(cur.children)|..])
    ensures forall c :: c in cur.children[|old(cur.children)|..] ==>
      fresh(c) && c.children == [] && c.highestScore == None
    ensures cur.highestScore == old(cur.highestScore)
  {
    var moves := g.moves(cur.state);
    ghost var added: seq<Box<S, M>> := [];
    for i := 0 to |moves|
      invariant |added| == i && cur.children == old(cur.children) + added && s.storage == old(s.storage) + added
      invariant forall k :: 0 <= k < i ==> added[k].state == g.apply(cur.state, moves[k]) && added[k].move == Some(moves[k])
      invariant forall c :: c in added ==> fresh(c) && c.children == [] && c.highestScore == None
      invariant Distinct(added) && cur.highestScore == old(cur.highestScore)
    {
      var nextState := g.apply(cur.state, moves[i]);
      var child := new Box(nextState, Some(moves[i]));
      cur.children := cur.children + [child];
      s.Add(child);
      added := added + [child];
    }
    assert cur.children[|old(cur.children)|..] == added;
  }

  // ---------------------------------------------------------------------
  // The invariant of the iterative search, stated on a recorded view of
  // the tree: the nodes built so far with their children and scores
  // ---------------------------------------------------------------------

  /** What the search has recorded about a node: its children and its score. */
  datatype Info<S, M> = Info(children: seq<Box<S, M>>, score: Option<int>)

  type View<S, M> = map<Box<S, M>, Info<S, M>>

  /** The nodes in the heap hold what the view records. */
  ghost predicate Mirrors<S, M>(view: View<S, M>)
    reads view.Keys
  {
    forall n :: n in view ==> n.children == view[n].children && n.highestScore == view[n].score
  }

  /** One child per possible move of s, in order, holding the state after that move and the move itself. */
  ghost predicate ChildStates<S, M>(g: Rules<S, M>, s: S, kids: seq<Box<S, M>>)
  {
    |kids| == |g.moves(s)|
    && forall i :: 0 <= i < |kids| ==> kids[i].state == g.apply(s, g.moves(s)[i]) && kids[i].move == Some(g.moves(s)[i])
  }

  /**
   * One node of the tree built so far: a legal state, its children, once
   * added, one per move and among the nodes, a score that, once set, is
   * the node's value, and no score on a node with moves before it has
   * been expanded.
   */
  ghost predicate NodeOk<S(!new), M>(g: Rules<S, M>, view: View<S, M>, n: Box<S, M>)
    requires Sound(g) && n in view
  {
    g.valid(n.state)
    && (view[n].children != [] ==> ChildStates(g, n.state, view[n].children))
    && (forall c :: c in view[n].children ==> c in view)
    && (view[n].score.Some? ==> view[n].score.value == Value(g, n.state))
    && (view[n].score.Some? && g.moves(n.state) != [] ==> view[n].children != [])
  }

  ghost predicate Tree<S(!new), M>(g: Rules<S, M>, view: View<S, M>)
    requires Sound(g)
  {
    forall n {:trigger NodeOk(g, view, n)} :: n in view ==> NodeOk(g, view, n)
  }

  /** The stack holds nodes that are not scored yet. */
  ghost predicate Stacked<S, M>(st: seq<Box<S, M>>, view: View<S, M>)
  {
    forall i :: 0 <= i < |st| ==> st[i] in view && view[st[i]].score == None
  }

  ghost predicate Distinct<T>(st: seq<T>)
  {
    forall i, j :: 0 <= i < j < |st| ==> st[i] != st[j]
  }

  /** Every node not scored yet is on the stack. */
  ghost predicate Covered<S, M>(st: seq<Box<S, M>>, view: View<S, M>)
  {
    forall n :: n in view && view[n].score == None ==> n in st
  }

  /** An unscored child of a stacked node lies above it: a parent is popped again only once its children are scored. */
  ghost predicate Ordered<S, M>(st: seq<Box<S, M>>, view: View<S, M>)
  {
    forall j, c :: 0 <= j < |st| && st[j] in view && c in view[st[j]].children && c in view && view[c].score == None
      ==> c in st[j + 1..]
  }

  /** The invariant of the search loop: the tree built so far and the schedule of the stack. */
  ghost predicate Searching<S(!new), M>(g: Rules<S, M>, view: View<S, M>, st: seq<Box<S, M>>)
    requires Sound(g)
  {
    Tree(g, view) && Stacked(st, view) && Distinct(st) && Covered(st, view) && Ordered(st, view)
  }

  function Sum(xs: seq<nat>): nat
  {
    if xs == [] then 0 else Sum(xs[..|xs| - 1]) + xs[|xs| - 1]
  }

  /** The number of times the search pops the root of a fresh subtree for state s. */
  ghost function Pops<S(!new), M>(g: Rules<S, M>, s: S): (r: nat)
    requires Sound(g) && g.valid(s)
    ensures r >= 1
    decreases g.rank(s), 1
  {
    if g.moves(s) == [] then 1 else 2 + Sum(ChildPops(g, s))
  }

  ghost function ChildPops<S(!new), M>(g: Rules<S, M>, s: S): (ps: seq<nat>)
    requires Sound(g) && g.valid(s)
    ensures |ps| == |g.moves(s)|
    decreases g.rank(s), 0
  {
    var ms := g.moves(s);
    seq(|ms|, i requires 0 <= i < |ms| => Pops(g, g.apply(s, ms[i])))
  }

  /** The pops a stacked node still costs: one if expanded, its whole subtree otherwise. */
  ghost function Work<S(!new), M>(g: Rules<S, M>, view: View<S, M>, n: Box<S, M>): nat
    requires Sound(g)
  {
    if n in view && view[n].children != [] then 1 else if g.valid(n.state) then Pops(g, n.state) else 0
  }

  /** The pops left before the stack st is empty. */
  ghost function Weight<S(!new), M>(g: Rules<S, M>, view: View<S, M>, st: seq<Box<S, M>>): nat
    requires Sound(g)
  {
    if st == [] then 0 else Weight(g, view, st[..|st| - 1]) + Work(g, view, st[|st| - 1])
  }

  lemma {:induction false} WeightConcat<S(!new), M>(g: Rules<S, M>, view: View<S, M>, a: seq<Box<S, M>>, b: seq<Box<S, M>>)
    requires Sound(g)
    ensures Weight(g, view, a + b) == Weight(g, view, a) + Weight(g, view, b)
    decreases |b|
  {
    if b == [] {
      assert a + b == a;
    } else {
      assert (a + b)[..|a + b| - 1] == a + b[..|b| - 1];
      WeightConcat(g, view, a, b[..|b| - 1]);
    }
  }

  lemma {:induction false} WeightOfWork<S(!new), M>(g: Rules<S, M>, view: View<S, M>, st: seq<Box<S, M>>, xs: seq<nat>)
    requires Sound(g) && |st| == |xs|
    requires forall i :: 0 <= i < |st| ==> Work(g, view, st[i]) == xs[i]
    ensures Weight(g, view, st) == Sum(xs)
    decreases |st|
  {
    if st != [] {
      WeightOfWork(g, view, st[..|st| - 1], xs[..|xs| - 1]);
    }
  }

  lemma {:induction false} WeightSame<S(!new), M>(g: Rules<S, M>, a: View<S, M>, b: View<S, M>, st: seq<Box<S, M>>)
    requires Sound(g)
    requires forall i :: 0 <= i < |st| ==> Work(g, a, st[i]) == Work(g, b, st[i])
    ensures Weight(g, a, st) == Weight(g, b, st)
    decreases |st|
  {
    if st != [] {
      WeightSame(g, a, b, st[..|st| - 1]);
    }
  }

  /** `[-1 * child.highest_score for child in children]`, for scored children. */
  function NegatedScores<S, M>(children: seq<Box<S, M>>): (r: seq<int>)
    requires forall i :: 0 <= i < |children| ==> children[i].highestScore.Some?
    reads children
    ensures |r| == |children|
    ensures forall i :: 0 <= i < |children| ==> r[i] == -children[i].highestScore.value
  {
    if children == [] then []
    else NegatedScores(children[..|children| - 1]) + [-children[|children| - 1].highestScore.value]
  }

  /** `[child.move for child in children if child.highest_score == target]`. */
  function GoodMoves<S, M>(children: seq<Box<S, M>>, target: int): seq<M>
    requires forall i :: 0 <= i < |children| ==> children[i].move.Some?
    reads children
  {
    if children == [] then []
    else
      var last := children[|children| - 1];
      GoodMoves(children[..|children| - 1], target)
      + (if last.highestScore == Some(target) then [last.move.value] else [])
  }

  /** Scored children of the root give, as good moves, the moves of the bucket of the negated target. */
  lemma {:induction false} GoodMovesPick<S, M>(children: seq<Box<S, M>>, ms: seq<M>, rs: seq<int>, v: int)
    requires |children| == |ms| == |rs|
    requires forall i :: 0 <= i < |children| ==>
      children[i].move == Some(ms[i]) && children[i].highestScore == Some(-rs[i])
    ensures GoodMoves(children, -1 * v) == Pick(ms, rs, v)
    decreases |ms|
  {
    if ms != [] {
      var n := |ms| - 1;
      GoodMovesPick(children[..n], ms[..n], rs[..n], v);
    }
  }

  // ---------------------------------------------------------------------
  // iterative_strategy
  // ---------------------------------------------------------------------

  /**
   * `iterative_strategy`: pushes a root box, pops nodes until the stack
   * is empty, then picks a root child whose score is the negated root score.
   */
  method IterativeStrategy<S(!new), M>(g: Rules<S, M>, s0: S) returns (r: Option<M>)
    requires Sound(g) && g.valid(s0)
    ensures r.None? <==> g.moves(s0) == []
    ensures r.Some? ==> r.value in Bucket(g, s0, Value(g, s0))
  {
    var s := new Stack<Box<S, M>>();
    var root := new Box(s0, None);
    s.Add(root);
    ghost var view: View<S, M> := map[root := Info([], None)];
    assert Searching(g, view, s.storage) by {
      assert s.storage == [root] && [root][1..] == [];
    }
    view := Search(g, s, view);
    RootScored(g, view, root);
    r := ChooseGoodMove(g, root);
  }

  /** The loop of `iterative_strategy`: visits nodes until the stack is empty. */
  method Search<S(!new), M>(g: Rules<S, M>, s: Stack<Box<S, M>>, ghost view0: View<S, M>)
    returns (ghost view: View<S, M>)
    requires Sound(g) && Mirrors(view0) && Searching(g, view0, s.storage)
    modifies s, view0.Keys
    ensures view0.Keys <= view.Keys && fresh(view.Keys - view0.Keys)
    ensures s.storage == [] && Mirrors(view) && Searching(g, view, [])
  {
    view := view0;
    while !s.IsEmpty()
      invariant view0.Keys <= view.Keys && fresh(view.Keys - view0.Keys)
      invariant Mirrors(view) && Searching(g, view, s.storage)
      decreases Weight(g, view, s.storage)
    {
      view := Visit(g, s, view);
    }
  }

  /**
   * One pass of the loop of `iterative_strategy`: pops a node; scores it
   * if the game is over there; pushes it back under its new children if
   * it has none yet; otherwise scores it with the best negated child score.
   */
  method Visit<S(!new), M>(g: Rules<S, M>, s: Stack<Box<S, M>>, ghost view: View<S, M>)
    returns (ghost view': View<S, M>)
    requires Sound(g) && Mirrors(view) && Searching(g, view, s.storage) && s.storage != []
    modifies s, view.Keys
    ensures view.Keys <= view'.Keys && fresh(view'.Keys - view.Keys)
    ensures Mirrors(view') && Searching(g, view', s.storage)
    ensures Weight(g, view', s.storage) < Weight(g, view, old(s.storage))
  {
    ghost var rest := s.storage[..|s.storage| - 1];
    assert s.storage == rest + [s.storage[|s.storage| - 1]];
    var top := s.Remove();
    var cur := top.value;
    assert (rest + [cur])[|rest|] == cur;
    assert cur in view && NodeOk(g, view, cur);
    if g.moves(cur.state) == [] {
      view' := ScoreLeaf(g, cur, view, rest);
    } else if cur.children == [] {
      view' := Expand(g, s, cur, view);
      AfterExpanding(g, view, rest, cur, cur.children);
    } else {
      view' := ScoreFromChildren(g, cur, view, rest);
    }
  }

  /** The scoring of a node where the game is over, from the point of view of the player to move. */
  method ScoreLeaf<S(!new), M>(g: Rules<S, M>, cur: Box<S, M>, ghost view: View<S, M>, ghost rest: seq<Box<S, M>>)
    returns (ghost view': View<S, M>)
    requires Sound(g) && Mirrors(view) && Searching(g, view, rest + [cur]) && cur in view && g.valid(cur.state)
    requires g.moves(cur.state) == []
    modifies cur
    ensures cur.highestScore == Some(TerminalScore(g, cur.state))
    ensures view'.Keys == view.Keys && Mirrors(view') && Searching(g, view', rest)
    ensures Weight(g, view', rest) < Weight(g, view, rest + [cur])
  {
    var score := OverScore(g, cur.state);
    assert score == Value(g, cur.state);
    AfterScoring(g, view, rest, cur, score);
    view' := SetScore(cur, score, view);
  }

  /** The scoring of an expanded node: the best of its children's negated scores. */
  method ScoreFromChildren<S(!new), M>(g: Rules<S, M>, cur: Box<S, M>, ghost view: View<S, M>, ghost rest: seq<Box<S, M>>)
    returns (ghost view': View<S, M>)
    requires Sound(g) && Mirrors(view) && Searching(g, view, rest + [cur]) && cur in view && g.valid(cur.state)
    requires cur.children != []
    modifies cur
    ensures cur.highestScore == Some(Value(g, cur.state))
    ensures view'.Keys == view.Keys && Mirrors(view') && Searching(g, view', rest)
    ensures Weight(g, view', rest) < Weight(g, view, rest + [cur])
  {
    ChildrenScored(g, view, rest, cur);
    var score := MaxOf(NegatedScores(cur.children));
    AfterScoring(g, view, rest, cur, score);
    view' := SetScore(cur, score, view);
  }

  /** `cur.highest_score = ...`, recorded in the view. */
  method SetScore<S, M>(cur: Box<S, M>, score: int, ghost view: View<S, M>) returns (ghost view': View<S, M>)
    requires Mirrors(view) && cur in view
    modifies cur
    ensures cur.highestScore == Some(score) && cur.children == old(cur.children)
    ensures view' == view[cur := Info(view[cur].children, Some(score))] && Mirrors(view')
  {
    cur.highestScore := Some(score);
    view' := view[cur := Info(view[cur].children, Some(score))];
  }

  /**
   * Pushes a node with no children yet back on the stack, then its new
   * children above it, and records them in the view.
   */
  method Expand<S, M>(g: Rules<S, M>, s: Stack<Box<S, M>>, cur: Box<S, M>, ghost view: View<S, M>)
    returns (ghost view': View<S, M>)
    requires Mirrors(view) && cur in view && cur.children == []
    modifies s, cur
    ensures view' == Grow(view, cur, cur.children) && Mirrors(view')
    ensures s.storage == old(s.storage) + [cur] + cur.children
    ensures ChildStates(g, cur.state, cur.children) && Distinct(cur.children)
    ensures forall c :: c in cur.children ==> c !in view && fresh(c)
  {
    s.Add(cur);
    AddChild(cur, s, g);
    var kids := cur.children;
    assert kids[0..] == kids;
    assert unchanged(view.Keys - {cur});
    MirrorsGrow(view, cur, kids);
    view' := Grow(view, cur, kids);
  }

  /** The root holds its value, and each root child its move and the reply to it. */
  ghost predicate RootDone<S(!new), M>(g: Rules<S, M>, root: Box<S, M>)
    requires Sound(g) && g.valid(root.state)
    reads root, root.children
  {
    root.highestScore == Some(Value(g, root.state))
    && |root.children| == |g.moves(root.state)|
    && forall i :: 0 <= i < |root.children| ==>
      root.children[i].move == Some(g.moves(root.state)[i])
      && root.children[i].highestScore == Some(-Replies(g, root.state)[i])
  }

  /** The good moves of a fully scored root are the best bucket. */
  lemma RootGoodMoves<S(!new), M>(g: Rules<S, M>, root: Box<S, M>)
    requires Sound(g) && g.valid(root.state) && RootDone(g, root)
    ensures GoodMoves(root.children, -1 * root.highestScore.value) == Bucket(g, root.state, Value(g, root.state))
  {
    var s := root.state;
    GoodMovesPick(root.children, g.moves(s), Replies(g, s), Value(g, s));
  }

  /** The end of `iterative_strategy`: a move of a root child scored with the negated root score. */
  method ChooseGoodMove<S(!new), M>(g: Rules<S, M>, root: Box<S, M>) returns (r: Option<M>)
    requires Sound(g) && g.valid(root.state) && RootDone(g, root)
    ensures r.None? <==> g.moves(root.state) == []
    ensures r.Some? ==> r.value in Bucket(g, root.state, Value(g, root.state))
  {
    RootGoodMoves(g, root);
    var goodMoves := GoodMoves(root.children, -1 * root.highestScore.value);
    if g.moves(root.state) != [] {
      ValueSpec(g, root.state, g.moves(root.state)[0]);
    }
    if goodMoves == [] {
      return None;
    }
    var index :| 0 <= index < |goodMoves|;
    r := Some(goodMoves[index]);
  }

  // ---------------------------------------------------------------------
  // Why the search keeps its invariant
  // ---------------------------------------------------------------------

  /** The view after a node with no children yet receives kids as its children. */
  function Grow<S, M>(view: View<S, M>, cur: Box<S, M>, kids: seq<Box<S, M>>): (r: View<S, M>)
    requires cur in view
    ensures r.Keys == view.Keys + set c | c in kids
  {
    view[cur := Info(kids, view[cur].score)] + map c | c in kids :: Info([], None)
  }

  /** The last element of a sequence without repeats occurs nowhere before it. */
  lemma DistinctLast<T>(xs: seq<T>, x: T)
    requires Distinct(xs + [x])
    ensures Distinct(xs) && x !in xs
  {
    var st := xs + [x];
    assert st[|xs|] == x;
    forall i | 0 <= i < |xs|
      ensures xs[i] != x
    {
      assert st[i] == xs[i];
    }
    forall i, j | 0 <= i < j < |xs|
      ensures xs[i] != xs[j]
    {
      assert st[i] == xs[i] && st[j] == xs[j];
    }
  }

  /** The heap still mirrors the view once the node expanded and its fresh children are recorded in it. */
  lemma MirrorsGrow<S, M>(view: View<S, M>, cur: Box<S, M>, kids: seq<Box<S, M>>)
    requires cur in view && forall c :: c in kids ==> c !in view
    requires forall n :: n in view && n != cur ==> n.children == view[n].children && n.highestScore == view[n].score
    requires cur.children == kids && cur.highestScore == view[cur].score
    requires forall c :: c in kids ==> c.children == [] && c.highestScore == None
    ensures Mirrors(Grow(view, cur, kids))
  {
  }

  /**
   * Scoring the node just popped with its value keeps the invariant for
   * the rest of the stack, and lowers the work left.
   */
  lemma AfterScoring<S(!new), M>(g: Rules<S, M>, view: View<S, M>, rest: seq<Box<S, M>>, cur: Box<S, M>, v: int)
    requires Sound(g) && Searching(g, view, rest + [cur]) && cur in view && g.valid(cur.state)
    requires v == Value(g, cur.state) && (g.moves(cur.state) != [] ==> view[cur].children != [])
    ensures Searching(g, view[cur := Info(view[cur].children, Some(v))], rest)
    ensures Weight(g, view[cur := Info(view[cur].children, Some(v))], rest) < Weight(g, view, rest + [cur])
  {
    var view' := view[cur := Info(view[cur].children, Some(v))];
    TreeAfterScoring(g, view, cur, v);
    ScheduleAfterScoring(view, rest, cur, v);
    WeightSame(g, view, view', rest);
    WeightConcat(g, view, rest, [cur]);
  }

  lemma TreeAfterScoring<S(!new), M>(g: Rules<S, M>, view: View<S, M>, cur: Box<S, M>, v: int)
    requires Sound(g) && Tree(g, view) && cur in view && g.valid(cur.state)
    requires v == Value(g, cur.state) && (g.moves(cur.state) != [] ==> view[cur].children != [])
    ensures Tree(g, view[cur := Info(view[cur].children, Some(v))])
  {
    var view' := view[cur := Info(view[cur].children, Some(v))];
    forall n | n in view'
      ensures NodeOk(g, view', n)
    {
      assert NodeOk(g, view, n);
    }
  }

  lemma ScheduleAfterScoring<S, M>(view: View<S, M>, rest: seq<Box<S, M>>, cur: Box<S, M>, v: int)
    requires Stacked(rest + [cur], view) && Distinct(rest + [cur]) && Covered(rest + [cur], view)
    requires Ordered(rest + [cur], view) && cur in view
    ensures var view' := view[cur := Info(view[cur].children, Some(v))];
      Stacked(rest, view') && Distinct(rest) && Covered(rest, view') && Ordered(rest, view')
  {
    var view', st := view[cur := Info(view[cur].children, Some(v))], rest + [cur];
    DistinctLast(rest, cur);
    assert forall i :: 0 <= i < |rest| ==> st[i] == rest[i];
    CoveredAfterScoring(view, rest, cur, v);
    OrderedAfterScoring(view, rest, cur, v);
  }

  lemma CoveredAfterScoring<S, M>(view: View<S, M>, rest: seq<Box<S, M>>, cur: Box<S, M>, v: int)
    requires Covered(rest + [cur], view) && cur in view
    ensures Covered(rest, view[cur := Info(view[cur].children, Some(v))])
  {
    var view', st := view[cur := Info(view[cur].children, Some(v))], rest + [cur];
    forall n | n in view' && view'[n].score == None
      ensures n in rest
    {
      assert n in st;
    }
  }

  lemma OrderedAfterScoring<S, M>(view: View<S, M>, rest: seq<Box<S, M>>, cur: Box<S, M>, v: int)
    requires Stacked(rest + [cur], view) && Distinct(rest + [cur]) && Ordered(rest + [cur], view) && cur in view
    ensures Ordered(rest, view[cur := Info(view[cur].children, Some(v))])
  {
    var view', st := view[cur := Info(view[cur].children, Some(v))], rest + [cur];
    forall j, c | 0 <= j < |rest| && rest[j] in view' && c in view'[rest[j]].children && c in view' && view'[c].score == None
      ensures c in rest[j + 1..]
    {
      assert st[j] == rest[j];
      assert c != cur && c in st[j + 1..];
      var i :| 0 <= i < |st[j + 1..]| && st[j + 1..][i] == c;
      assert st[j + 1 + i] == c;
      assert rest[j + 1..][i] == c;
    }
  }

  /**
   * Pushing the popped node back with its new children on top keeps the
   * invariant, and lowers the work left.
   */
  lemma AfterExpanding<S(!new), M>(g: Rules<S, M>, view: View<S, M>, rest: seq<Box<S, M>>, cur: Box<S, M>,
                                   kids: seq<Box<S, M>>)
    requires Sound(g) && Searching(g, view, rest + [cur]) && cur in view && g.valid(cur.state)
    requires view[cur].children == [] && g.moves(cur.state) != []
    requires ChildStates(g, cur.state, kids) && Distinct(kids) && forall c :: c in kids ==> c !in view
    ensures Searching(g, Grow(view, cur, kids), rest + [cur] + kids)
    ensures Weight(g, Grow(view, cur, kids), rest + [cur] + kids) < Weight(g, view, rest + [cur])
  {
    var st := rest + [cur];
    DistinctLast(rest, cur);
    assert forall i :: 0 <= i < |rest| ==> st[i] == rest[i];
    TreeAfterExpanding(g, view, cur, kids);
    ScheduleAfterExpanding(g, view, rest, cur, kids);
    WeightAfterExpanding(g, view, rest, cur, kids);
  }

  lemma TreeAfterExpanding<S(!new), M>(g: Rules<S, M>, view: View<S, M>, cur: Box<S, M>, kids: seq<Box<S, M>>)
    requires Sound(g) && Tree(g, view) && cur in view && view[cur].children == [] && g.moves(cur.state) != []
    requires ChildStates(g, cur.state, kids) && forall c :: c in kids ==> c !in view
    ensures Tree(g, Grow(view, cur, kids))
  {
    var grown := Grow(view, cur, kids);
    assert NodeOk(g, view, cur);
    forall n | n in grown
      ensures NodeOk(g, grown, n)
    {
      if n in view && n != cur {
        assert NodeOk(g, view, n);
      } else if n !in view {
        var i :| 0 <= i < |kids| && kids[i] == n;
        assert g.moves(cur.state)[i] in g.moves(cur.state);
      }
    }
  }

  lemma ScheduleAfterExpanding<S(!new), M>(g: Rules<S, M>, view: View<S, M>, rest: seq<Box<S, M>>, cur: Box<S, M>,
                                           kids: seq<Box<S, M>>)
    requires Stacked(rest + [cur], view) && Distinct(rest + [cur]) && Covered(rest + [cur], view)
    requires Ordered(rest + [cur], view) && cur in view
    requires Distinct(kids) && forall c :: c in kids ==> c !in view
    ensures var grown, st := Grow(view, cur, kids), rest + [cur] + kids;
      Stacked(st, grown) && Distinct(st) && Covered(st, grown) && Ordered(st, grown)
  {
    StackedAfterExpanding(view, rest, cur, kids);
    CoveredAfterExpanding(view, rest, cur, kids);
    OrderedAfterExpanding(g, view, rest, cur, kids);
  }

  lemma StackedAfterExpanding<S, M>(view: View<S, M>, rest: seq<Box<S, M>>, cur: Box<S, M>, kids: seq<Box<S, M>>)
    requires Stacked(rest + [cur], view) && Distinct(rest + [cur]) && cur in view
    requires Distinct(kids) && forall c :: c in kids ==> c !in view
    ensures Stacked(rest + [cur] + kids, Grow(view, cur, kids)) && Distinct(rest + [cur] + kids)
  {
    var grown, st := Grow(view, cur, kids), rest + [cur] + kids;
    var old_st := rest + [cur];
    assert forall i :: 0 <= i < |old_st| ==> st[i] == old_st[i];
    assert forall i :: 0 <= i < |kids| ==> st[|old_st| + i] == kids[i];
    forall i, j | 0 <= i < j < |st|
      ensures st[i] != st[j]
    {
      if j < |old_st| {
        assert st[i] == old_st[i] && st[j] == old_st[j];
      } else if i >= |old_st| {
        assert st[i] == kids[i - |old_st|] && st[j] == kids[j - |old_st|];
      } else {
        assert st[i] == old_st[i] && old_st[i] in view && st[j] == kids[j - |old_st|];
      }
    }
  }

  lemma CoveredAfterExpanding<S, M>(view: View<S, M>, rest: seq<Box<S, M>>, cur: Box<S, M>, kids: seq<Box<S, M>>)
    requires Covered(rest + [cur], view) && cur in view
    ensures Covered(rest + [cur] + kids, Grow(view, cur, kids))
  {
    var grown, st := Grow(view, cur, kids), rest + [cur] + kids;
    forall n | n in grown && grown[n].score == None
      ensures n in st
    {
      if n in view && n !in kids {
        assert n in rest + [cur];
      }
    }
  }

  lemma OrderedAfterExpanding<S(!new), M>(g: Rules<S, M>, view: View<S, M>, rest: seq<Box<S, M>>, cur: Box<S, M>,
                                          kids: seq<Box<S, M>>)
    requires Stacked(rest + [cur], view) && Distinct(rest + [cur]) && Ordered(rest + [cur], view) && cur in view
    requires forall c :: c in kids ==> c !in view
    ensures Ordered(rest + [cur] + kids, Grow(view, cur, kids))
  {
    var grown, st := Grow(view, cur, kids), rest + [cur] + kids;
    forall j, c | 0 <= j < |st| && st[j] in grown && c in grown[st[j]].children && c in grown && grown[c].score == None
      ensures c in st[j + 1..]
    {
      OrderedExpandedAt(view, rest, cur, kids, j, c);
    }
  }

  /** What the grown view records: the expanded node holds the new children, which hold nothing yet. */
  lemma GrowAt<S, M>(view: View<S, M>, cur: Box<S, M>, kids: seq<Box<S, M>>, n: Box<S, M>)
    requires cur in view && forall c :: c in kids ==> c !in view
    ensures n in kids ==> Grow(view, cur, kids)[n] == Info([], None)
    ensures n in view && n != cur ==> Grow(view, cur, kids)[n] == view[n]
    ensures Grow(view, cur, kids)[cur] == Info(kids, view[cur].score)
  {
  }

  /** One parent and child of `OrderedAfterExpanding`. */
  lemma OrderedExpandedAt<S, M>(view: View<S, M>, rest: seq<Box<S, M>>, cur: Box<S, M>, kids: seq<Box<S, M>>,
                                j: int, c: Box<S, M>)
    requires Stacked(rest + [cur], view) && Distinct(rest + [cur]) && Ordered(rest + [cur], view) && cur in view
    requires forall c :: c in kids ==> c !in view
    requires 0 <= j < |rest| + 1 + |kids|
    requires var p, grown := (rest + [cur] + kids)[j], Grow(view, cur, kids);
      p in grown && c in grown[p].children && c in grown && grown[c].score == None
    ensures c in (rest + [cur] + kids)[j + 1..]
  {
    var grown, st := Grow(view, cur, kids), rest + [cur] + kids;
    var p := st[j];
    GrowAt(view, cur, kids, p);
    GrowAt(view, cur, kids, c);
    assert st[|rest|] == cur;
    assert forall i :: |rest| < i < |st| ==> st[i] == kids[i - |rest| - 1];
    if c in kids {
      var k :| 0 <= k < |kids| && kids[k] == c;
      assert st[|rest| + 1 + k] == c;
      if j > |rest| {
        assert false;
      }
    } else if j < |rest| {
      DistinctLast(rest, cur);
      assert p == rest[j] == (rest + [cur])[j] && p != cur;
      if c != cur {
        assert c in (rest + [cur])[j + 1..];
        var k :| j + 1 <= k < |rest + [cur]| && (rest + [cur])[k] == c;
        assert st[k] == c;
      }
    } else if j == |rest| {
      assert false;
    } else {
      assert false;
    }
  }

  lemma WeightAfterExpanding<S(!new), M>(g: Rules<S, M>, view: View<S, M>, rest: seq<Box<S, M>>, cur: Box<S, M>,
                                         kids: seq<Box<S, M>>)
    requires Sound(g) && cur in view && g.valid(cur.state) && view[cur].children == [] && g.moves(cur.state) != []
    requires ChildStates(g, cur.state, kids) && forall c :: c in kids ==> c !in view
    requires forall i :: 0 <= i < |rest| ==> rest[i] in view && rest[i] != cur
    ensures Weight(g, Grow(view, cur, kids), rest + [cur] + kids) < Weight(g, view, rest + [cur])
  {
    var grown := Grow(view, cur, kids);
    WeightConcat(g, view, rest, [cur]);
    WeightConcat(g, grown, rest, [cur]);
    WeightConcat(g, grown, rest + [cur], kids);
    WeightSame(g, view, grown, rest);
    forall i | 0 <= i < |kids|
      ensures Work(g, grown, kids[i]) == ChildPops(g, cur.state)[i]
    {
      assert g.moves(cur.state)[i] in g.moves(cur.state);
    }
    WeightOfWork(g, grown, kids, ChildPops(g, cur.state));
  }

  /** When the popped node has children, they are all scored, and their negated scores are its replies. */
  lemma ChildrenScored<S(!new), M>(g: Rules<S, M>, view: View<S, M>, rest: seq<Box<S, M>>, cur: Box<S, M>)
    requires Sound(g) && Mirrors(view) && Searching(g, view, rest + [cur]) && cur in view && g.valid(cur.state) && cur.children != []
    ensures g.moves(cur.state) != []
    ensures forall i :: 0 <= i < |cur.children| ==> cur.children[i].highestScore.Some?
    ensures NegatedScores(cur.children) == Replies(g, cur.state)
  {
    var st := rest + [cur];
    assert st[|rest|] == cur;
    assert NodeOk(g, view, cur);
    assert st[|rest| + 1..] == [];
    forall i | 0 <= i < |cur.children|
      ensures cur.children[i].highestScore.Some?
      ensures cur.children[i].highestScore.value == Value(g, cur.children[i].state)
    {
      var c := cur.children[i];
      assert c in view && NodeOk(g, view, c);
      assert c !in st[|rest| + 1..];
    }
  }

  /** Once every node is scored, the root holds its value and each root child the reply to its move. */
  lemma RootScored<S(!new), M>(g: Rules<S, M>, view: View<S, M>, root: Box<S, M>)
    requires Sound(g) && Mirrors(view) && Tree(g, view) && Covered([], view) && root in view
    ensures g.valid(root.state) && RootDone(g, root)
  {
    RootRecorded(g, view, root);
    RepliesAt(g, root.state);
    var kids := view[root].children;
    assert root.children == kids && root.highestScore == view[root].score;
    forall i | 0 <= i < |kids|
      ensures kids[i].highestScore == view[kids[i]].score
    {
      assert kids[i] in view;
    }
  }

  /** Once every recorded node is scored, the root's record holds its value and each child's the reply to its move. */
  lemma RootRecorded<S(!new), M>(g: Rules<S, M>, view: View<S, M>, root: Box<S, M>)
    requires Sound(g) && Tree(g, view) && Covered([], view) && root in view
    ensures g.valid(root.state) && view[root].score == Some(Value(g, root.state))
    ensures |view[root].children| == |g.moves(root.state)|
    ensures forall i :: 0 <= i < |view[root].children| ==>
      var c := view[root].children[i];
      c.move == Some(g.moves(root.state)[i]) && c in view
      && view[c].score == Some(Value(g, g.apply(root.state, g.moves(root.state)[i])))
  {
    assert NodeOk(g, view, root);
    forall i | 0 <= i < |view[root].children|
      ensures view[root].children[i] in view && NodeOk(g, view, view[root].children[i])
    {
    }
  }
}
