/**
 * Resolution of a column name against the column names of a DataFrame, as
 * Spark does it when a `select`, a `join` condition or a partition key
 * names a column: a name resolves when exactly one column carries it; no
 * column is an AnalysisException, two columns an ambiguous reference.
 */
module Columns {
  import opened Types

  /** A named, typed column of a DataFrame. */
  datatype Column<N, T> = Column(name: N, ty: T)

  datatype ResolveError<N> = Missing(name: N) | Ambiguous(name: N)

  /** The first column at or after `from` named `name`, if any. */
  function IndexOf<N(==), T>(cols: seq<Column<N, T>>, name: N, from: nat): (r: Option<nat>)
    requires from <= |cols|
    ensures r.Some? ==> from <= r.value < |cols| && cols[r.value].name == name
    decreases |cols| - from
  {
    if from == |cols| then None
    else if cols[from].name == name then Some(from)
    else IndexOf(cols, name, from + 1)
  }

  /** The position of the one column named `name`. */
  function Resolve<N(==), T>(cols: seq<Column<N, T>>, name: N): Result<nat, ResolveError<N>> {
    match IndexOf(cols, name, 0)
    case None => Failure(Missing(name))
    case Some(i) =>
      match IndexOf(cols, name, i + 1)
      case Some(_) => Failure(Ambiguous(name))
      case None => Success(i)
  }

  /** IndexOf finds the first match at or after `from`, and None means there is none. */
  lemma {:induction false} IndexOfFirst<N, T>(cols: seq<Column<N, T>>, name: N, from: nat)
    requires from <= |cols|
    ensures var r := IndexOf(cols, name, from);
      && (r.Some? ==> forall j :: from <= j < r.value ==> cols[j].name != name)
      && (r.None? <==> forall j :: from <= j < |cols| ==> cols[j].name != name)
    decreases |cols| - from
  {
    if from < |cols| && cols[from].name != name {
      IndexOfFirst(cols, name, from + 1);
    }
  }

  /** A name that no column carries is missing, and only such a name. */
  lemma ResolveMissing<N, T>(cols: seq<Column<N, T>>, name: N)
    ensures Resolve(cols, name) == Failure(Missing(name)) <==> forall i :: 0 <= i < |cols| ==> cols[i].name != name
  {
    IndexOfFirst(cols, name, 0);
  }

  /** A name that two columns carry is ambiguous, and only such a name. */
  lemma ResolveAmbiguous<N, T>(cols: seq<Column<N, T>>, name: N)
    ensures Resolve(cols, name) == Failure(Ambiguous(name)) <==>
              exists i, j :: 0 <= i < j < |cols| && cols[i].name == name && cols[j].name == name
  {
    IndexOfFirst(cols, name, 0);
    var first := IndexOf(cols, name, 0);
    if first.Some? {
      var i := first.value;
      IndexOfFirst(cols, name, i + 1);
      var second := IndexOf(cols, name, i + 1);
      if second.Some? {
        assert cols[i].name == name && cols[second.value].name == name;
      } else {
        forall i', j | 0 <= i' < j < |cols| && cols[i'].name == name
          ensures cols[j].name != name
        {
          assert i <= i';
        }
      }
    }
  }

  /** A name resolves to position i exactly when the i-th column carries it and no other column does. */
  lemma ResolveFound<N, T>(cols: seq<Column<N, T>>, name: N, i: nat)
    ensures Resolve(cols, name) == Success(i) <==> i < |cols| && cols[i].name == name && Unique(cols, name, i)
  {
    IndexOfFirst(cols, name, 0);
    var first := IndexOf(cols, name, 0);
    if first.Some? {
      IndexOfFirst(cols, name, first.value + 1);
    }
  }

  /** No column other than the i-th is named `name`. */
  predicate Unique<N(==), T>(cols: seq<Column<N, T>>, name: N, i: nat) {
    forall j :: 0 <= j < |cols| && j != i ==> cols[j].name != name
  }
}
