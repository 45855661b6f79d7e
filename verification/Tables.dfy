/** Sequences as database tables: totals and selections. */
module Tables {

  function Sum<T>(rows: seq<T>, column: T -> int): int {
    if rows == [] then 0 else column(rows[0]) + Sum(rows[1..], column)
  }

  function Where<T>(rows: seq<T>, p: T -> bool): (r: seq<T>)
    ensures forall x :: x in r ==> x in rows && p(x)
    ensures forall x :: x in rows && p(x) ==> x in r
  {
    if rows == [] then [] else (if p(rows[0]) then [rows[0]] else []) + Where(rows[1..], p)
  }

  lemma {:induction false} SumSplit<T>(a: seq<T>, b: seq<T>, column: T -> int)
    ensures Sum(a + b, column) == Sum(a, column) + Sum(b, column)
  {
    if a == [] {
      assert a + b == b;
    } else {
      assert (a + b)[1..] == a[1..] + b;
      SumSplit(a[1..], b, column);
    }
  }

  lemma SumSnoc<T>(rows: seq<T>, x: T, column: T -> int)
    ensures Sum(rows + [x], column) == Sum(rows, column) + column(x)
  {
    SumSplit(rows, [x], column);
    assert Sum([x], column) == column(x) + Sum([], column);
  }

  lemma {:induction false} WhereSplit<T>(a: seq<T>, b: seq<T>, p: T -> bool)
    ensures Where(a + b, p) == Where(a, p) + Where(b, p)
  {
    if a == [] {
      assert a + b == b;
    } else {
      assert (a + b)[1..] == a[1..] + b;
      WhereSplit(a[1..], b, p);
    }
  }

  lemma WhereSnoc<T>(rows: seq<T>, x: T, p: T -> bool)
    ensures Where(rows + [x], p) == Where(rows, p) + (if p(x) then [x] else [])
  {
    WhereSplit(rows, [x], p);
    assert Where([x], p) == (if p(x) then [x] else []) + Where([], p);
  }

  /** Two tables row by row equal in a column have the same total. */
  lemma {:induction false} SameSums<S, T>(a: seq<S>, b: seq<T>, f: S -> int, g: T -> int)
    requires |a| == |b| && forall i :: 0 <= i < |a| ==> f(a[i]) == g(b[i])
    ensures Sum(a, f) == Sum(b, g)
  {
    if a != [] {
      SameSums(a[1..], b[1..], f, g);
    }
  }
}
