/**
 * Sequence helpers shared by the game modules: Python's `list.count`,
 * the row-major flattening of a list of rows, and Python's indexing with
 * negative positions counted from the end.
 */
module Seqs {

  /** Python's `s.count(x)`. */
  function Count<T(==)>(s: seq<T>, x: T): nat
  {
    if s == [] then 0 else Count(s[..|s| - 1], x) + (if s[|s| - 1] == x then 1 else 0)
  }

  lemma {:induction false} CountConcat<T>(a: seq<T>, b: seq<T>, x: T)
    ensures Count(a + b, x) == Count(a, x) + Count(b, x)
    decreases |b|
  {
    if b == [] {
      assert a + b == a;
    } else {
      assert (a + b)[..|a + b| - 1] == a + b[..|b| - 1];
      CountConcat(a, b[..|b| - 1], x);
    }
  }

  lemma {:induction false} CountBound<T>(s: seq<T>, x: T)
    ensures Count(s, x) <= |s|
    ensures Count(s, x) == 0 <==> x !in s
    decreases |s|
  {
    if s != [] {
      CountBound(s[..|s| - 1], x);
      assert s == s[..|s| - 1] + [s[|s| - 1]];
    }
  }

  /** The rows of `rows` laid end to end, in row-major order. */
  function Flatten<T>(rows: seq<seq<T>>): seq<T>
  {
    if rows == [] then [] else Flatten(rows[..|rows| - 1]) + rows[|rows| - 1]
  }

  lemma {:induction false} FlattenConcat<T>(a: seq<seq<T>>, b: seq<seq<T>>)
    ensures Flatten(a + b) == Flatten(a) + Flatten(b)
    decreases |b|
  {
    if b == [] {
      assert a + b == a;
    } else {
      assert (a + b)[..|a + b| - 1] == a + b[..|b| - 1];
      FlattenConcat(a, b[..|b| - 1]);
    }
  }

  lemma {:induction false} FlattenMember<T>(rows: seq<seq<T>>, x: T)
    ensures x in Flatten(rows) <==> exists k :: 0 <= k < |rows| && x in rows[k]
    decreases |rows|
  {
    if rows != [] {
      FlattenMember(rows[..|rows| - 1], x);
      if x in rows[|rows| - 1] {
        assert x in Flatten(rows);
      }
    }
  }

  /** The position that Python's index `i` denotes in a list of length `n`. */
  function PyIndex(n: int, i: int): int
  {
    if i >= 0 then i else n + i
  }

  /** Python's `s[i]`, for `-len(s) <= i < len(s)`. */
  function At<T>(s: seq<T>, i: int): T
    requires -|s| <= i < |s|
  {
    s[PyIndex(|s|, i)]
  }

  /** Python's `max(a, b)`. */
  function Max(a: int, b: int): int
  {
    if a >= b then a else b
  }
}
