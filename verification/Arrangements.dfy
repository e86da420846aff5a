// get_permutations and the 24-point search of playground/sql/24point.sql.

module Arrangements {
  import opened Options

  // ---------- the recursion ----------

  function Without<T>(s: seq<T>, i: nat): seq<T>
    requires i < |s|
  {
    s[..i] + s[i + 1..]
  }

  function Prepend<T>(x: T, ps: seq<seq<T>>): seq<seq<T>> {
    if ps == [] then [] else [[x] + ps[0]] + Prepend(x, ps[1..])
  }

  // array_length of an empty array is NULL, so a positive r then reaches FOR i IN 1..NULL and
  // raises; a negative r always ends there.
  function GetPermutations<T>(elements: seq<T>, r: int): Option<seq<seq<T>>>
    decreases |elements|, |elements| + 1
  {
    if elements != [] && r > |elements| then Some([])
    else if r == 0 then Some([[]])
    else if elements == [] then None
    else Loop(elements, r, 0)
  }

  // The rows of FOR i IN i..n.
  function Loop<T>(elements: seq<T>, r: int, i: nat): Option<seq<seq<T>>>
    requires i <= |elements|
    decreases |elements|, |elements| - i
  {
    if i == |elements| then Some([])
    else
      match GetPermutations(Without(elements, i), r - 1)
      case None => None
      case Some(perms) =>
        match Loop(elements, r, i + 1)
        case None => None
        case Some(rest) => Some(Prepend(elements[i], perms) + rest)
  }

  // ---------- when it raises ----------

  lemma {:induction false} RaisesIff<T>(elements: seq<T>, r: int)
    ensures GetPermutations(elements, r).None? <==> r < 0 || (elements == [] && r > 0)
    decreases |elements|, |elements| + 1
  {
    if elements != [] && r != 0 && r <= |elements| {
      LoopRaisesIff(elements, r, 0);
    }
  }

  lemma {:induction false} LoopRaisesIff<T>(elements: seq<T>, r: int, i: nat)
    requires i <= |elements| && r != 0 && r <= |elements|
    ensures Loop(elements, r, i).None? <==> r < 0 && i < |elements|
    decreases |elements|, |elements| - i
  {
    if i < |elements| {
      RaisesIff(Without(elements, i), r - 1);
      LoopRaisesIff(elements, r, i + 1);
    }
  }

  // The rows, where the call does not raise.
  function Rows<T>(elements: seq<T>, r: nat): seq<seq<T>> {
    if r > |elements| then [] else
      RaisesIff(elements, r);
      GetPermutations(elements, r).value
  }

  function RowsFrom<T>(elements: seq<T>, r: nat, i: nat): seq<seq<T>>
    requires 0 < r <= |elements| && i <= |elements|
  {
    LoopRaisesIff(elements, r, i);
    Loop(elements, r, i).value
  }

  lemma RowsUnfold<T>(s: seq<T>, r: nat)
    ensures r > |s| ==> Rows(s, r) == []
    ensures r == 0 ==> Rows(s, r) == [[]]
    ensures 0 < r <= |s| ==> Rows(s, r) == RowsFrom(s, r, 0)
  {
  }

  lemma RowsFromUnfold<T>(s: seq<T>, r: nat, i: nat)
    requires 0 < r <= |s| && i <= |s|
    ensures i == |s| ==> RowsFrom(s, r, i) == []
    ensures i < |s| ==> RowsFrom(s, r, i) == Prepend(s[i], Rows(Without(s, i), r - 1)) + RowsFrom(s, r, i + 1)
  {
    if i < |s| {
      RaisesIff(Without(s, i), r - 1);
      LoopRaisesIff(s, r, i + 1);
    }
  }

  // ---------- distinct elements: exactly the arrangements, once each ----------

  ghost predicate Distinct<T>(s: seq<T>) {
    forall i, j :: 0 <= i < j < |s| ==> s[i] != s[j]
  }

  ghost predicate Arrangement<T>(s: seq<T>, r: nat, p: seq<T>) {
    |p| == r && Distinct(p) && forall x :: x in p ==> x in s
  }

  lemma {:induction false} PrependRows<T>(x: T, ps: seq<seq<T>>)
    ensures |Prepend(x, ps)| == |ps|
    ensures forall i :: 0 <= i < |ps| ==> Prepend(x, ps)[i] == [x] + ps[i]
  {
    if ps != [] {
      PrependRows(x, ps[1..]);
    }
  }

  lemma WithoutMembers<T>(s: seq<T>, i: nat)
    requires Distinct(s) && i < |s|
    ensures Distinct(Without(s, i)) && forall x :: x in Without(s, i) <==> x in s && x != s[i]
  {
    var w := Without(s, i);
    forall x | x in s && x != s[i]
      ensures x in w
    {
      var j :| 0 <= j < |s| && s[j] == x;
      assert w[if j < i then j else j - 1] == x;
    }
  }

  // n (n-1) ... (n-r+1)
  function Falling(n: nat, r: nat): nat {
    if r == 0 then 1 else if n == 0 then 0 else n * Falling(n - 1, r - 1)
  }

  function Factorial(n: nat): nat {
    if n == 0 then 1 else n * Factorial(n - 1)
  }

  lemma Associates(x: int, y: int, z: int)
    ensures (x * y) * z == x * (y * z)
  {
  }

  // n! / (n-r)!
  lemma {:induction false} FallingIsQuotient(n: nat, r: nat)
    requires r <= n
    ensures Falling(n, r) * Factorial(n - r) == Factorial(n)
  {
    if r > 0 {
      var a, b := Falling(n - 1, r - 1), Factorial(n - r);
      calc {
        Falling(n, r) * b;
      == { assert Falling(n, r) == n * a; }
        (n * a) * b;
      == { Associates(n, a, b); }
        n * (a * b);
      == { FallingIsQuotient(n - 1, r - 1); }
        n * Factorial(n - 1);
      == { assert n > 0; }
        Factorial(n);
      }
    }
  }

  lemma {:induction false} FallingIsPositive(n: nat, r: nat)
    ensures Falling(n, r) > 0 <==> r <= n
  {
    if r > 0 && n > 0 {
      FallingIsPositive(n - 1, r - 1);
    }
  }

  // Distinct members of s are at most |s| many.
  lemma {:induction false} ArrangementFits<T>(s: seq<T>, p: seq<T>)
    requires Distinct(p) && forall x :: x in p ==> x in s
    ensures |p| <= |s|
    decreases |p|
  {
    if p != [] {
      assert p[0] in p;
      var i :| 0 <= i < |s| && s[i] == p[0];
      var w := Without(s, i);
      forall x | x in p[1..]
        ensures x in w
      {
        assert x in p && x in s;
        var j :| 0 <= j < |s| && s[j] == x;
        assert w[if j < i then j else j - 1] == x;
      }
      ArrangementFits(w, p[1..]);
    }
  }

  lemma {:induction false} RowsAreArrangements<T>(s: seq<T>, r: nat)
    requires Distinct(s)
    ensures Distinct(Rows(s, r)) && |Rows(s, r)| == Falling(|s|, r)
    ensures forall p :: p in Rows(s, r) <==> Arrangement(s, r, p)
    decreases |s|, |s| + 1
  {
    RowsUnfold(s, r);
    if r > |s| {
      FallingIsPositive(|s|, r);
      forall p
        ensures !Arrangement(s, r, p)
      {
        if Arrangement(s, r, p) {
          ArrangementFits(s, p);
        }
      }
    } else if r > 0 {
      RowsFromAre(s, r, 0);
      TimesIsProduct(|s|, Falling(|s| - 1, r - 1));
      assert s[0..] == s;
      assert forall p :: FromOn(s, r, 0, p) <==> Arrangement(s, r, p);
    } else {
      forall p | Arrangement(s, 0, p)
        ensures p in Rows(s, 0)
      {
        assert p == [];
      }
    }
  }

  // The arrangements the loop still has to produce at i.
  ghost predicate FromOn<T>(s: seq<T>, r: nat, i: nat, p: seq<T>)
    requires i <= |s| && 0 < r
  {
    Arrangement(s, r, p) && p[0] in s[i..]
  }

  ghost predicate Heads<T>(s: seq<T>, r: nat, i: nat, p: seq<T>)
    requires i < |s| && 0 < r
  {
    Arrangement(s, r, p) && p[0] == s[i]
  }

  lemma FromOnSplits<T>(s: seq<T>, r: nat, i: nat, p: seq<T>)
    requires Distinct(s) && i < |s| && 0 < r
    ensures FromOn(s, r, i, p) <==> Heads(s, r, i, p) || FromOn(s, r, i + 1, p)
    ensures !(Heads(s, r, i, p) && FromOn(s, r, i + 1, p))
  {
    assert s[i..] == [s[i]] + s[i + 1..];
  }

  lemma {:induction false} RowsFromAre<T>(s: seq<T>, r: nat, i: nat)
    requires Distinct(s) && 0 < r <= |s| && i <= |s|
    ensures Distinct(RowsFrom(s, r, i)) && |RowsFrom(s, r, i)| == Times(|s| - i, Falling(|s| - 1, r - 1))
    ensures forall p :: p in RowsFrom(s, r, i) <==> FromOn(s, r, i, p)
    decreases |s|, |s| - i
  {
    RowsFromUnfold(s, r, i);
    if i < |s| {
      var w := Without(s, i);
      WithoutMembers(s, i);
      RowsAreArrangements(w, r - 1);
      RowsFromAre(s, r, i + 1);
      var first := Prepend(s[i], Rows(w, r - 1));
      PrependRows(s[i], Rows(w, r - 1));
      StartingWith(s, r, i, first);
      ListsJoin(s, r, i, first, RowsFrom(s, r, i + 1));
    }
  }

  // n summands f.
  function Times(n: nat, f: nat): nat {
    if n == 0 then 0 else f + Times(n - 1, f)
  }

  lemma {:induction false} TimesIsProduct(n: nat, f: nat)
    ensures Times(n, f) == n * f
  {
    if n > 0 {
      TimesIsProduct(n - 1, f);
    }
  }

  lemma ListsJoin<T>(s: seq<T>, r: nat, i: nat, first: seq<seq<T>>, rest: seq<seq<T>>)
    requires Distinct(s) && 0 < r && i < |s|
    requires Distinct(first) && forall p :: p in first <==> Heads(s, r, i, p)
    requires Distinct(rest) && forall p :: p in rest <==> FromOn(s, r, i + 1, p)
    ensures Distinct(first + rest) && forall p :: p in first + rest <==> FromOn(s, r, i, p)
  {
    forall p
      ensures p in first + rest <==> FromOn(s, r, i, p)
      ensures !(p in first && p in rest)
    {
      FromOnSplits(s, r, i, p);
    }
    DistinctConcat(first, rest);
  }

  lemma DistinctConcat<T>(a: seq<T>, b: seq<T>)
    requires Distinct(a) && Distinct(b) && forall x :: x in a ==> x !in b
    ensures Distinct(a + b)
  {
    forall i, j | 0 <= i < j < |a + b|
      ensures (a + b)[i] != (a + b)[j]
    {
      if i < |a| && j >= |a| {
        assert a[i] in a && b[j - |a|] in b;
      }
    }
  }

  // The rows whose first element is s[i].
  lemma StartingWith<T>(s: seq<T>, r: nat, i: nat, first: seq<seq<T>>)
    requires Distinct(s) && 0 < r <= |s| && i < |s|
    requires var rest := Rows(Without(s, i), r - 1);
             && Distinct(rest) && (forall p :: p in rest <==> Arrangement(Without(s, i), r - 1, p))
             && |first| == |rest| && forall j :: 0 <= j < |rest| ==> first[j] == [s[i]] + rest[j]
    ensures Distinct(first)
    ensures forall p :: p in first <==> Heads(s, r, i, p)
  {
    var rest := Rows(Without(s, i), r - 1);
    WithoutMembers(s, i);
    forall a, b | 0 <= a < b < |first|
      ensures first[a] != first[b]
    {
      assert first[a][1..] == rest[a] && first[b][1..] == rest[b];
    }
    forall p | p in first
      ensures Arrangement(s, r, p) && p[0] == s[i]
    {
      var j :| 0 <= j < |first| && first[j] == p;
      assert rest[j] in rest && Arrangement(Without(s, i), r - 1, rest[j]);
      forall k | 0 <= k < r - 1
        ensures p[k + 1] == rest[j][k] && rest[j][k] in s && rest[j][k] != s[i]
      {
        assert rest[j][k] in rest[j];
      }
    }
    forall p | Arrangement(s, r, p) && p[0] == s[i]
      ensures p in first
    {
      var q := p[1..];
      forall x | x in q
        ensures x in Without(s, i)
      {
        assert x in p;
      }
      assert Arrangement(Without(s, i), r - 1, q) && q in rest;
      var j :| 0 <= j < |rest| && rest[j] == q;
      assert first[j] == p;
    }
  }

  // ---------- any elements: what is read from r distinct positions ----------

  predicate Positions(s: seq<nat>, n: nat) {
    forall i :: 0 <= i < |s| ==> s[i] < n
  }

  function Read<T>(s: seq<T>, at: seq<nat>): (r: seq<T>)
    requires Positions(at, |s|)
    ensures |r| == |at| && forall i :: 0 <= i < |at| ==> r[i] == s[at[i]]
  {
    if at == [] then [] else [s[at[0]]] + Read(s, at[1..])
  }

  function Range(n: nat): (r: seq<nat>)
    ensures |r| == n && forall i :: 0 <= i < n ==> r[i] == i
  {
    seq(n, i => i)
  }

  // The k-th row is read at the k-th list of positions.
  ghost predicate ReadAt<T>(s: seq<T>, rows: seq<seq<T>>, ats: seq<seq<nat>>) {
    |rows| == |ats| && forall k :: 0 <= k < |ats| ==> Positions(ats[k], |s|) && rows[k] == Read(s, ats[k])
  }

  lemma {:induction false} RowsRead<T>(s: seq<T>, at: seq<nat>, r: nat)
    requires Positions(at, |s|)
    ensures ReadAt(s, Rows(Read(s, at), r), Rows(at, r))
    decreases |at|, |at| + 1
  {
    RowsUnfold(Read(s, at), r);
    RowsUnfold(at, r);
    if 0 < r <= |at| {
      RowsFromRead(s, at, r, 0);
    }
  }

  lemma {:induction false} RowsFromRead<T>(s: seq<T>, at: seq<nat>, r: nat, i: nat)
    requires Positions(at, |s|) && 0 < r <= |at| && i <= |at|
    ensures ReadAt(s, RowsFrom(Read(s, at), r, i), RowsFrom(at, r, i))
    decreases |at|, |at| - i
  {
    RowsFromUnfold(Read(s, at), r, i);
    RowsFromUnfold(at, r, i);
    if i < |at| {
      var w := Without(at, i);
      ReadWithout(s, at, i);
      RowsRead(s, w, r - 1);
      RowsFromRead(s, at, r, i + 1);
      PrependRead(s, at[i], Rows(Read(s, w), r - 1), Rows(w, r - 1));
      ReadAtConcat(s, Prepend(s[at[i]], Rows(Read(s, w), r - 1)), RowsFrom(Read(s, at), r, i + 1),
                   Prepend(at[i], Rows(w, r - 1)), RowsFrom(at, r, i + 1));
    }
  }

  lemma ReadWithout<T>(s: seq<T>, at: seq<nat>, i: nat)
    requires Positions(at, |s|) && i < |at|
    ensures Positions(Without(at, i), |s|) && Read(s, Without(at, i)) == Without(Read(s, at), i)
  {
  }

  lemma ReadAtConcat<T>(s: seq<T>, a: seq<seq<T>>, b: seq<seq<T>>, x: seq<seq<nat>>, y: seq<seq<nat>>)
    requires ReadAt(s, a, x) && ReadAt(s, b, y)
    ensures ReadAt(s, a + b, x + y)
  {
  }

  lemma {:induction false} PrependRead<T>(s: seq<T>, x: nat, rows: seq<seq<T>>, ats: seq<seq<nat>>)
    requires x < |s| && ReadAt(s, rows, ats)
    ensures ReadAt(s, Prepend(s[x], rows), Prepend(x, ats))
  {
    PrependRows(s[x], rows);
    PrependRows(x, ats);
    forall k | 0 <= k < |ats|
      ensures Positions(Prepend(x, ats)[k], |s|) && Prepend(s[x], rows)[k] == Read(s, Prepend(x, ats)[k])
    {
      assert Prepend(x, ats)[k] == [x] + ats[k];
    }
  }

  // Main result: for 0 <= r <= n the call yields, once each, what is read from the sequences of r
  // distinct positions; there are n!/(n-r)! of them, and no row repeats if no element does.
  lemma PermutationsAreExact<T>(s: seq<T>, r: nat)
    requires r <= |s|
    ensures GetPermutations(s, r) == Some(Rows(s, r))
    ensures |Rows(s, r)| * Factorial(|s| - r) == Factorial(|s|)
    ensures forall p :: p in Rows(s, r) <==>
              exists at :: Arrangement(Range(|s|), r, at) && Positions(at, |s|) && p == Read(s, at)
    ensures Distinct(s) ==> Distinct(Rows(s, r))
  {
    RaisesIff(s, r);
    RowsAreReads(s, r);
    FallingIsQuotient(|s|, r);
    forall p
      ensures p in Rows(s, r) <==>
              exists at :: Arrangement(Range(|s|), r, at) && Positions(at, |s|) && p == Read(s, at)
    {
      RowIffRead(s, r, p);
    }
    if Distinct(s) {
      RowsAreArrangements(s, r);
    }
  }

  lemma RowsAreReads<T>(s: seq<T>, r: nat)
    ensures ReadAt(s, Rows(s, r), Rows(Range(|s|), r))
    ensures |Rows(s, r)| == Falling(|s|, r)
    ensures forall at :: at in Rows(Range(|s|), r) <==> Arrangement(Range(|s|), r, at)
  {
    assert Read(s, Range(|s|)) == s;
    RowsRead(s, Range(|s|), r);
    RowsAreArrangements(Range(|s|), r);
  }

  lemma RowIffRead<T>(s: seq<T>, r: nat, p: seq<T>)
    ensures p in Rows(s, r) <==>
            exists at :: Arrangement(Range(|s|), r, at) && Positions(at, |s|) && p == Read(s, at)
  {
    RowsAreReads(s, r);
    var rows, ats := Rows(s, r), Rows(Range(|s|), r);
    if p in rows {
      var k :| 0 <= k < |rows| && rows[k] == p;
      assert ats[k] in ats && Arrangement(Range(|s|), r, ats[k]);
    }
    if at :| Arrangement(Range(|s|), r, at) && Positions(at, |s|) && p == Read(s, at) {
      var k :| 0 <= k < |ats| && ats[k] == at;
      assert rows[k] == p;
    }
  }

  // ---------- the search ----------

  const OPERATORS := ['+', '-', '*', '/']

  predicate IsOperator(c: char) {
    c == '+' || c == '-' || c == '*' || c == '/'
  }

  // The array unnested by the search holds the four operators and nothing else.
  lemma OperatorsAreFour(c: char)
    ensures c in OPERATORS <==> IsOperator(c)
  {
    assert OPERATORS[0] == '+' && OPERATORS[1] == '-' && OPERATORS[2] == '*' && OPERATORS[3] == '/';
  }

  datatype Expression = Expression(numbers: seq<int>, op1: char, op2: char, op3: char)

  // EXECUTE: true, false, or an error such as a division by zero, which the block skips.
  datatype Verdict = Is24 | IsNot24 | Raises

  // `subscripts`: whether a RECORD can be subscripted like the array in its only column. PostgreSQL
  // raises on permutation_row[1], outside the block that skips errors; the search was meant to read it.
  method Find24(elements: seq<int>, subscripts: bool, evaluate: Expression -> Verdict)
    returns (r: Option<Option<Expression>>)
    ensures r.None? <==> elements == [] || (!subscripts && |elements| >= 4)
    ensures r.Some? && r.value.Some? ==>
              var e := r.value.value;
              && evaluate(e) == Is24 && e.numbers in Rows(elements, 4)
              && IsOperator(e.op1) && IsOperator(e.op2) && IsOperator(e.op3)
    ensures r == Some(None) ==>
              forall p, a, b, c :: p in Rows(elements, 4) && IsOperator(a) && IsOperator(b) && IsOperator(c) ==>
                evaluate(Expression(p, a, b, c)) != Is24
  {
    RaisesIff(elements, 4);
    var rows := GetPermutations(elements, 4);
    if rows.None? {
      return None;
    }
    var perms := rows.value;
    RowsAreReads(elements, 4);
    FallingIsPositive(|elements|, 4);
    if perms != [] && !subscripts {
      return None;
    }
    for i := 0 to |perms|
      invariant forall j :: 0 <= j < i ==> Hopeless(perms[j], evaluate)
    {
      var e := FindFor(perms[i], evaluate);
      if e.Some? {
        return Some(e);
      }
    }
    return Some(None);
  }

  ghost predicate Hopeless(p: seq<int>, evaluate: Expression -> Verdict) {
    forall a, b, c :: IsOperator(a) && IsOperator(b) && IsOperator(c) ==> evaluate(Expression(p, a, b, c)) != Is24
  }

  // The inner loop over the operator choices.
  method FindFor(p: seq<int>, evaluate: Expression -> Verdict) returns (r: Option<Expression>)
    ensures r.Some? ==> evaluate(r.value) == Is24 && r.value.numbers == p
                        && IsOperator(r.value.op1) && IsOperator(r.value.op2) && IsOperator(r.value.op3)
    ensures r.None? ==> Hopeless(p, evaluate)
  {
    for i := 0 to |OPERATORS|
      invariant forall x, y, z :: 0 <= x < i && 0 <= y < 4 && 0 <= z < 4 ==> Missed(p, evaluate, x, y, z)
    {
      for j := 0 to |OPERATORS|
        invariant forall y, z :: 0 <= y < j && 0 <= z < 4 ==> Missed(p, evaluate, i, y, z)
      {
        for k := 0 to |OPERATORS|
          invariant forall z :: 0 <= z < k ==> Missed(p, evaluate, i, j, z)
        {
          var e := Expression(p, OPERATORS[i], OPERATORS[j], OPERATORS[k]);
          if evaluate(e) == Is24 {
            OperatorsAreFour(e.op1);
            OperatorsAreFour(e.op2);
            OperatorsAreFour(e.op3);
            return Some(e);
          }
        }
      }
    }
    AllMissed(p, evaluate);
    return None;
  }

  predicate Missed(p: seq<int>, evaluate: Expression -> Verdict, x: nat, y: nat, z: nat)
    requires x < 4 && y < 4 && z < 4
  {
    evaluate(Expression(p, OPERATORS[x], OPERATORS[y], OPERATORS[z])) != Is24
  }

  lemma AllMissed(p: seq<int>, evaluate: Expression -> Verdict)
    requires forall x, y, z :: 0 <= x < 4 && 0 <= y < 4 && 0 <= z < 4 ==> Missed(p, evaluate, x, y, z)
    ensures Hopeless(p, evaluate)
  {
    forall a, b, c | IsOperator(a) && IsOperator(b) && IsOperator(c)
      ensures evaluate(Expression(p, a, b, c)) != Is24
    {
      OperatorsAreFour(a);
      OperatorsAreFour(b);
      OperatorsAreFour(c);
      var x :| 0 <= x < 4 && OPERATORS[x] == a;
      var y :| 0 <= y < 4 && OPERATORS[y] == b;
      var z :| 0 <= z < 4 && OPERATORS[z] == c;
      assert Missed(p, evaluate, x, y, z);
    }
  }
}
