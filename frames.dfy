/**
 * The DataFrame operations the job uses, as relational operators over a
 * sequence of rows. Row order carries no meaning in Spark; the contracts
 * speak of membership and multiplicity, which do not depend on it.
 */
module Frames {
  import opened Types

  /** SQL `=` on nullable values: null on either side is never equal to anything. */
  predicate SqlEquals<T(==)>(a: Option<T>, b: Option<T>) {
    a.Some? && b.Some? && a.value == b.value
  }

  /** `df.select(...)`: exactly one output row per input row. */
  function Select<A, B>(rows: seq<A>, f: A -> B): (r: seq<B>)
    ensures |r| == |rows|
    ensures forall i {:trigger r[i]} :: 0 <= i < |rows| ==> r[i] == f(rows[i])
  {
    if rows == [] then [] else [f(rows[0])] + Select(rows[1..], f)
  }

  /** `df.filter(cond)` / `df.where(cond)`: the rows satisfying `keep`, each as often as in the input. */
  function Where<A(!new)>(rows: seq<A>, keep: A -> bool): (r: seq<A>)
    ensures forall x :: x in r <==> x in rows && keep(x)
    ensures forall x :: multiset(r)[x] == if keep(x) then multiset(rows)[x] else 0
  {
    if rows == [] then []
    else
      assert rows == [rows[0]] + rows[1..];
      (if keep(rows[0]) then [rows[0]] else []) + Where(rows[1..], keep)
  }

  /**
   * `df.withColumn(c, udf(...))` once the frame is evaluated: every row
   * with its value of the UDF, in order; or, when the UDF raises on some
   * row, the error of the first such row, and no frame at all.
   */
  function WithColumn<A, B, E>(rows: seq<A>, udf: A -> Result<B, E>): (r: Result<seq<B>, E>)
    ensures r.Success? <==> forall i :: 0 <= i < |rows| ==> udf(rows[i]).Success?
    ensures r.Success? ==> |r.value| == |rows| && forall i :: 0 <= i < |rows| ==> udf(rows[i]) == Success(r.value[i])
    ensures r.Failure? ==> exists i :: 0 <= i < |rows| && udf(rows[i]) == Failure(r.error)
  {
    if rows == [] then Success([])
    else
      match udf(rows[0])
      case Failure(err) => Failure(err)
      case Success(v) =>
        var rest := WithColumn(rows[1..], udf);
        assert forall i :: 1 <= i < |rows| ==> rows[i] == rows[1..][i - 1];
        if rest.Failure? then Failure(rest.error) else Success([v] + rest.value)
  }

  /** A row the condition rejects, added to the input, adds nothing to the output. */
  lemma {:induction false} WhereAppendRejected<A(!new)>(rows: seq<A>, x: A, keep: A -> bool)
    requires !keep(x)
    ensures Where(rows + [x], keep) == Where(rows, keep)
  {
    if rows == [] {
      assert Where([x], keep) == [] + Where([x][1..], keep);
    } else {
      var r := rows + [x];
      assert r[0] == rows[0] && r[1..] == rows[1..] + [x];
      WhereAppendRejected(rows[1..], x, keep);
    }
  }

  /** No row occurs twice. */
  predicate Distinct<A(==)>(s: seq<A>) {
    forall i, j :: 0 <= i < j < |s| ==> s[i] != s[j]
  }

  /** `df.dropDuplicates()`: one copy of every distinct row (the first one met). */
  function DropDuplicates<A(==,!new)>(rows: seq<A>): (r: seq<A>)
    ensures Distinct(r)
    ensures forall x :: x in r <==> x in rows
  {
    if rows == [] then []
    else
      var rest := DropDuplicates(rows[..|rows| - 1]);
      var last := rows[|rows| - 1];
      assert forall x :: x in rows <==> x in rows[..|rows| - 1] || x == last by {
        assert rows == rows[..|rows| - 1] + [last];
      }
      if last in rest then rest else rest + [last]
  }

  /** The rows of one left row's join with `right`: one pair per matching right row. */
  function Probe<A(!new), B(!new)>(a: A, right: seq<B>, on: (A, B) -> bool): seq<(A, B)> {
    if right == [] then []
    else (if on(a, right[0]) then [(a, right[0])] else []) + Probe(a, right[1..], on)
  }

  /** `left.join(right, on)`, an inner join, probing `right` once per left row. */
  function InnerJoin<A(!new), B(!new)>(left: seq<A>, right: seq<B>, on: (A, B) -> bool): seq<(A, B)> {
    if left == [] then []
    else Probe(left[0], right, on) + InnerJoin(left[1..], right, on)
  }

  /** Filtering twice by the same condition is filtering once. */
  lemma {:induction false} WhereIdempotent<A(!new)>(rows: seq<A>, keep: A -> bool)
    ensures Where(Where(rows, keep), keep) == Where(rows, keep)
  {
    if rows != [] {
      var w, w1 := Where(rows, keep), Where(rows[1..], keep);
      WhereIdempotent(rows[1..], keep);
      if keep(rows[0]) {
        assert w == [rows[0]] + w1;
        assert w[0] == rows[0] && w[1..] == w1;
        assert Where(w, keep) == [w[0]] + Where(w[1..], keep);
      } else {
        assert w == w1;
      }
    }
  }

  /** A probe yields the pair (a, b) once per copy of a matching b, and no other pair. */
  lemma {:induction false} ProbeMultiplicity<A(!new), B(!new)>(a: A, right: seq<B>, on: (A, B) -> bool, x: A, b: B)
    ensures multiset(Probe(a, right, on))[(x, b)] ==
            if x == a && on(a, b) then multiset(right)[b] else 0
  {
    if right != [] {
      ProbeMultiplicity(a, right[1..], on, x, b);
      assert right == [right[0]] + right[1..];
    }
  }

  /**
   * The join's fan-out: a pair (a, b) with `on(a, b)` occurs exactly
   * (copies of a in left) * (copies of b in right) times, and a pair
   * without a match never does.
   */
  lemma {:induction false} JoinMultiplicity<A(!new), B(!new)>(left: seq<A>, right: seq<B>, on: (A, B) -> bool, a: A, b: B)
    ensures multiset(InnerJoin(left, right, on))[(a, b)] ==
            if on(a, b) then multiset(left)[a] * multiset(right)[b] else 0
  {
    if left != [] {
      var x, rest := left[0], left[1..];
      JoinMultiplicity(rest, right, on, a, b);
      ProbeMultiplicity(x, right, on, a, b);
      JoinCons(left, right, on, a, b);
      CountStep(multiset(InnerJoin(left, right, on))[(a, b)], multiset(Probe(x, right, on))[(a, b)],
                multiset(InnerJoin(rest, right, on))[(a, b)], multiset(left)[a], multiset(rest)[a],
                multiset(right)[b], on(a, b), x == a);
    }
  }

  /** The counts of one recursion step of the join: the head's probe, plus the join of the tail. */
  lemma JoinCons<A(!new), B(!new)>(left: seq<A>, right: seq<B>, on: (A, B) -> bool, a: A, b: B)
    requires left != []
    ensures multiset(InnerJoin(left, right, on))[(a, b)] ==
            multiset(Probe(left[0], right, on))[(a, b)] + multiset(InnerJoin(left[1..], right, on))[(a, b)]
    ensures multiset(left)[a] == (if left[0] == a then 1 else 0) + multiset(left[1..])[a]
  {
    assert left == [left[0]] + left[1..];
  }

  /** The arithmetic of one join step: one more copy of a adds one more copy of every match. */
  lemma CountStep(total: int, probe: int, rest: int, m: int, m1: int, k: int, hit: bool, same: bool)
    requires total == probe + rest
    requires rest == if hit then m1 * k else 0
    requires probe == if same && hit then k else 0
    requires m == (if same then 1 else 0) + m1
    ensures total == if hit then m * k else 0
  {
    if hit && same {
      assert m * k == m1 * k + k;
    }
  }

  /** Soundness and completeness of the join: (a, b) is a row exactly when a is a left row, b a right row, and they match. */
  lemma JoinMembership<A(!new), B(!new)>(left: seq<A>, right: seq<B>, on: (A, B) -> bool, a: A, b: B)
    ensures (a, b) in InnerJoin(left, right, on) <==> a in left && b in right && on(a, b)
  {
    JoinMultiplicity(left, right, on, a, b);
    var m, k := multiset(left)[a], multiset(right)[b];
    if on(a, b) && m > 0 && k > 0 {
      assert m * k > 0;
    }
  }

  /** A row is in a projection exactly when it is the image of some input row. */
  lemma SelectMembership<A, B>(rows: seq<A>, f: A -> B, y: B)
    ensures y in Select(rows, f) <==> exists x :: x in rows && f(x) == y
  {
    var r := Select(rows, f);
    if y in r {
      var i :| 0 <= i < |r| && r[i] == y;
      assert rows[i] in rows && f(rows[i]) == y;
    }
    if exists x :: x in rows && f(x) == y {
      var x :| x in rows && f(x) == y;
      var i :| 0 <= i < |rows| && rows[i] == x;
      assert r[i] == y;
    }
  }

  /** Projecting a union is the union of the projections. */
  lemma {:induction false} SelectAppend<A, B>(rows1: seq<A>, rows2: seq<A>, f: A -> B)
    ensures Select(rows1 + rows2, f) == Select(rows1, f) + Select(rows2, f)
  {
    if rows1 == [] {
      assert rows1 + rows2 == rows2;
    } else {
      SelectAppend(rows1[1..], rows2, f);
      assert (rows1 + rows2)[1..] == rows1[1..] + rows2;
    }
  }

  /** The rows of one left row's join: one pair per right row it matches, in the order of `right`. */
  lemma {:induction false} ProbeMatches<A(!new), B(!new)>(a: A, right: seq<B>, on: (A, B) -> bool, keep: B -> bool)
    requires forall b :: keep(b) == on(a, b)
    ensures var p, w := Probe(a, right, on), Where(right, keep);
      |p| == |w| && forall i {:trigger p[i]} :: 0 <= i < |p| ==> p[i] == (a, w[i])
  {
    if right != [] {
      var p, w := Probe(a, right, on), Where(right, keep);
      var p1, w1 := Probe(a, right[1..], on), Where(right[1..], keep);
      ProbeMatches(a, right[1..], on, keep);
      if on(a, right[0]) {
        assert p == [(a, right[0])] + p1;
        assert w == [right[0]] + w1 by {
          assert keep(right[0]);
        }
        PairsCons(a, right[0], p1, w1);
      } else {
        assert p == p1;
        assert w == w1 by {
          assert !keep(right[0]);
        }
      }
    }
  }

  /** Pairing a with each of w1, one row put in front of both. */
  lemma PairsCons<A, B>(a: A, b: B, p1: seq<(A, B)>, w1: seq<B>)
    requires |p1| == |w1| && forall i {:trigger p1[i]} :: 0 <= i < |p1| ==> p1[i] == (a, w1[i])
    ensures var p, w := [(a, b)] + p1, [b] + w1;
      |p| == |w| && forall i {:trigger p[i]} :: 0 <= i < |p| ==> p[i] == (a, w[i])
  {
    var p, w := [(a, b)] + p1, [b] + w1;
    forall i | 1 <= i < |p|
      ensures p[i] == (a, w[i])
    {
      assert p[i] == p1[i - 1] && w[i] == w1[i - 1];
    }
  }

  /** Joining a union of left sides is the union of the joins: each left row contributes on its own. */
  lemma {:induction false} JoinAppend<A(!new), B(!new)>(left1: seq<A>, left2: seq<A>, right: seq<B>, on: (A, B) -> bool)
    ensures InnerJoin(left1 + left2, right, on) == InnerJoin(left1, right, on) + InnerJoin(left2, right, on)
  {
    if left1 == [] {
      assert left1 + left2 == left2;
    } else {
      var l := left1 + left2;
      var p, j1, j2 := Probe(left1[0], right, on), InnerJoin(left1[1..], right, on), InnerJoin(left2, right, on);
      assert l[0] == left1[0] && l[1..] == left1[1..] + left2;
      JoinAppend(left1[1..], left2, right, on);
      assert InnerJoin(l, right, on) == p + (j1 + j2);
      ConcatAssociative(p, j1, j2);
    }
  }

  lemma ConcatAssociative<T>(a: seq<T>, b: seq<T>, c: seq<T>)
    ensures a + (b + c) == (a + b) + c
  {
  }

  /** A sequence that holds nothing is empty. */
  lemma EmptyWithoutMembers<A>(s: seq<A>)
    ensures (forall x :: x !in s) ==> s == []
  {
    if s != [] {
      assert s[0] in s;
    }
  }

  /** A sequence without repeats holds each of its rows exactly once. */
  lemma {:induction false} DistinctMultiplicity<A>(s: seq<A>, x: A)
    requires Distinct(s)
    ensures multiset(s)[x] == if x in s then 1 else 0
  {
    if s != [] {
      assert s == [s[0]] + s[1..];
      assert Distinct(s[1..]) by {
        forall i, j | 0 <= i < j < |s| - 1
          ensures s[1..][i] != s[1..][j]
        {
          assert s[i + 1] != s[j + 1];
        }
      }
      DistinctMultiplicity(s[1..], x);
      if x == s[0] {
        assert x !in s[1..] by {
          forall j | 0 <= j < |s| - 1
            ensures s[1..][j] != x
          {
            assert s[0] != s[j + 1];
          }
        }
      }
    }
  }

  /** Deduplication forgets the order and the multiplicity of its input: inputs with the same rows give the same bag of rows. */
  lemma DropDuplicatesOrderFree<A(!new)>(rows1: seq<A>, rows2: seq<A>)
    requires forall x :: x in rows1 <==> x in rows2
    ensures multiset(DropDuplicates(rows1)) == multiset(DropDuplicates(rows2))
  {
    var d1, d2 := DropDuplicates(rows1), DropDuplicates(rows2);
    forall x
      ensures multiset(d1)[x] == multiset(d2)[x]
    {
      DistinctMultiplicity(d1, x);
      DistinctMultiplicity(d2, x);
    }
  }

  /** The join depends only on the bags of its inputs, not on their order. */
  lemma JoinOrderFree<A(!new), B(!new)>(left1: seq<A>, left2: seq<A>, right1: seq<B>, right2: seq<B>, on: (A, B) -> bool)
    requires multiset(left1) == multiset(left2) && multiset(right1) == multiset(right2)
    ensures multiset(InnerJoin(left1, right1, on)) == multiset(InnerJoin(left2, right2, on))
  {
    forall p: (A, B)
      ensures multiset(InnerJoin(left1, right1, on))[p] == multiset(InnerJoin(left2, right2, on))[p]
    {
      JoinMultiplicity(left1, right1, on, p.0, p.1);
      JoinMultiplicity(left2, right2, on, p.0, p.1);
    }
  }
}
