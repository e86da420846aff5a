// The Josephus game of xampp/www/Josephu.php on a circular singly linked list.

module Josephus {
  import opened Modulo

  // ---------- the game on sequences ----------

  function RotateOnce<T>(s: seq<T>): seq<T> {
    if s == [] then [] else s[1..] + [s[0]]
  }

  function Rotate<T>(s: seq<T>, steps: nat): seq<T> {
    if steps == 0 then s else RotateOnce(Rotate(s, steps - 1))
  }

  lemma {:induction false} RotateLength<T>(s: seq<T>, steps: nat)
    ensures |Rotate(s, steps)| == |s| && multiset(Rotate(s, steps)) == multiset(s)
  {
    if steps > 0 {
      RotateLength(s, steps - 1);
      var r := Rotate(s, steps - 1);
      assert r != [] ==> r == [r[0]] + r[1..];
    }
  }

  // How far a count of m moves: counting starts with the child itself, and never goes back.
  function Moves(m: int): nat {
    if m > 1 then m - 1 else 0
  }

  // The order in which the children leave; the last one stays.
  function Eliminate<T>(line: seq<T>, m: int): seq<T>
    decreases |line|
  {
    if |line| <= 1 then line
    else
      var r := Rotate(line, Moves(m));
      RotateLength(line, Moves(m));
      [r[0]] + Eliminate(r[1..], m)
  }

  function Last<T>(s: seq<T>): T
    requires s != []
  {
    s[|s| - 1]
  }

  // ---------- the circle in the heap ----------

  class Child {
    const no: int
    var next: Child?

    constructor (no: int)
      ensures this.no == no && next == null
    {
      this.no, this.next := no, null;
    }
  }

  ghost predicate Ring(ring: seq<Child>)
    reads ring
  {
    && ring != []
    && (forall i, j :: 0 <= i < j < |ring| ==> ring[i] != ring[j])
    && (forall i :: 0 <= i < |ring| - 1 ==> ring[i].next == ring[i + 1])
    && Last(ring).next == ring[0]
  }

  function Numbers(ring: seq<Child>): seq<int> {
    seq(|ring|, i requires 0 <= i < |ring| => ring[i].no)
  }

  lemma RingRotates(ring: seq<Child>)
    requires Ring(ring)
    ensures Ring(RotateOnce(ring)) && Numbers(RotateOnce(ring)) == RotateOnce(Numbers(ring))
  {
    var r := RotateOnce(ring);
    forall i | 0 <= i < |r| - 1
      ensures r[i].next == r[i + 1]
    {
      assert r[i] == ring[i + 1];
    }
  }

  function Circle(n: nat): (s: seq<int>)
    ensures |s| == n && forall i :: 0 <= i < n ==> s[i] == i + 1
  {
    seq(n, i => i + 1)
  }

  // Builds the circle 1..n.
  method AddChild(n: nat) returns (first: Child?, ghost ring: seq<Child>)
    ensures n == 0 <==> first == null
    ensures n > 0 ==> Ring(ring) && ring[0] == first
    ensures |ring| == n && fresh(ring)
    ensures Numbers(ring) == Circle(n)
  {
    first, ring := null, [];
    var cur: Child? := null;
    for i := 0 to n
      invariant |ring| == i && fresh(ring)
      invariant i == 0 ==> first == null
      invariant i > 0 ==> Ring(ring) && ring[0] == first && cur == Last(ring)
      invariant forall j :: 0 <= j < i ==> ring[j].no == j + 1
    {
      var child := new Child(i + 1);
      if i == 0 {
        first := child;
        first.next := child;
        cur := first;
        ring := [child];
      } else {
        cur.next := child;
        child.next := first;
        cur := cur.next;
        ring := ring + [child];
      }
    }
  }

  // The child in front of the first one.
  method FindTail(first: Child, ghost ring: seq<Child>) returns (tail: Child)
    requires Ring(ring) && ring[0] == first
    ensures tail == Last(ring)
  {
    tail := first;
    ghost var at := 0;
    while tail.next != first
      invariant 0 <= at < |ring| && tail == ring[at]
      invariant at < |ring| - 1 ==> tail.next == ring[at + 1]
      decreases |ring| - at
    {
      tail := tail.next;
      at := at + 1;
    }
  }

  // The first child leaves the circle.
  method Leave(tail: Child, first: Child, ghost live: seq<Child>) returns (next: Child)
    requires Ring(live) && |live| > 1 && first == live[0] && tail == Last(live)
    modifies tail
    ensures Ring(live[1..]) && next == live[1] && tail == Last(live[1..])
    ensures Numbers(live) == [first.no] + Numbers(live[1..])
  {
    assert live[0].next == live[0 + 1];
    next := first.next;
    tail.next := next;
  }

  // Prints the children as they leave and returns the one who stays.
  method CountChild(start: Child, m: int, k: int, ghost ring: seq<Child>)
    returns (out: seq<int>, survivor: int)
    requires Ring(ring) && ring[0] == start
    modifies ring
    ensures out + [survivor] == Eliminate(Rotate(Numbers(ring), Moves(k)), m)
  {
    var first := start;
    var tail := FindTail(first, ring);
    ghost var live := ring;
    tail, first, live := Advance(tail, first, Moves(k), live);
    out := [];
    assert out + Eliminate(Numbers(live), m) == Eliminate(Numbers(live), m);
    while tail != first
      invariant Ring(live) && first == live[0] && tail == Last(live)
      invariant forall c :: c in live ==> c in ring
      invariant out + Eliminate(Numbers(live), m) == Eliminate(Rotate(Numbers(ring), Moves(k)), m)
      decreases |live|
    {
      ghost var before, out0 := Numbers(live), out;
      tail, first, live := Advance(tail, first, Moves(m), live);
      ghost var leaving := first.no;
      assert tail in live;
      out := out + [first.no];
      first := Leave(tail, first, live);
      live := live[1..];
      EliminateStep(out0, before, leaving, Numbers(live), m);
    }
    survivor := tail.no;
  }

  // One child leaves.
  lemma EliminateStep(out: seq<int>, line: seq<int>, x: int, rest: seq<int>, m: int)
    requires |line| > 1 && Rotate(line, Moves(m)) == [x] + rest
    ensures out + Eliminate(line, m) == (out + [x]) + Eliminate(rest, m)
  {
    assert ([x] + rest)[1..] == rest;
  }

  // The counting loop: both pointers move on together.
  method Advance(tail0: Child, first0: Child, steps: nat, ghost ring: seq<Child>)
    returns (tail: Child, first: Child, ghost live: seq<Child>)
    requires Ring(ring) && first0 == ring[0] && tail0 == Last(ring)
    ensures Ring(live) && first == live[0] && tail == Last(live)
    ensures Numbers(live) == Rotate(Numbers(ring), steps)
    ensures |live| == |ring| && forall c :: c in live ==> c in ring
  {
    tail, first, live := tail0, first0, ring;
    for i := 0 to steps
      invariant Ring(live) && first == live[0] && tail == Last(live)
      invariant Numbers(live) == Rotate(Numbers(ring), i)
      invariant |live| == |ring| && forall c :: c in live ==> c in ring
    {
      RingRotates(live);
      tail := tail.next;
      first := first.next;
      live := RotateOnce(live);
    }
  }

  // ---------- who leaves, who stays ----------

  lemma {:induction false} EliminatePermutes<T>(line: seq<T>, m: int)
    ensures multiset(Eliminate(line, m)) == multiset(line)
    decreases |line|
  {
    if |line| > 1 {
      var r := Rotate(line, Moves(m));
      RotateLength(line, Moves(m));
      EliminatePermutes(r[1..], m);
      assert r == [r[0]] + r[1..];
    }
  }

  // The survivor's place in a line of n, counted from 0.
  function J(n: int, m: int): int
    requires n >= 1
    decreases n
  {
    if n == 1 then 0 else (J(n - 1, m) + m) % n
  }

  // Counting to less than one is counting to one.
  lemma {:induction false} SmallCountsAsOne<T>(line: seq<T>, m: int)
    requires m < 1
    ensures Moves(m) == Moves(1) && Eliminate(line, m) == Eliminate(line, 1)
    decreases |line|
  {
    if |line| > 1 {
      RotateLength(line, Moves(m));
      SmallCountsAsOne(Rotate(line, Moves(m))[1..], m);
    }
  }

  lemma RotateOnceAt<T>(s: seq<T>, j: nat)
    requires j < |s|
    ensures RotateOnce(s)[j] == s[(j + 1) % |s|]
  {
    if j + 1 == |s| {
      ModUnique(j + 1, 1, 0, |s|);
    } else {
      ModUnique(j + 1, 0, j + 1, |s|);
    }
  }

  lemma {:induction false} RotateAt<T>(s: seq<T>, steps: nat, j: nat)
    requires j < |s|
    ensures |Rotate(s, steps)| == |s| && Rotate(s, steps)[j] == s[(steps + j) % |s|]
  {
    RotateLength(s, steps);
    if steps > 0 {
      RotateLength(s, steps - 1);
      var n, i := |s|, (j + 1) % |s|;
      RotateAt(s, steps - 1, i);
      ModAdd(steps - 1, j + 1, n);
      RotateOnceAt(Rotate(s, steps - 1), j);
    }
  }

  lemma JStep(n: int, m: int)
    requires n > 1
    ensures 0 <= J(n, m) < n && J(n, m) == ((m - 1) + (J(n - 1, m) + 1)) % n
  {
  }

  lemma EliminateTail<T>(line: seq<T>, m: int)
    requires |line| > 1
    ensures |Rotate(line, Moves(m))| == |line|
    ensures var rest := Rotate(line, Moves(m))[1..];
            Eliminate(line, m) != [] && (Eliminate(rest, m) != [] ==> Last(Eliminate(line, m)) == Last(Eliminate(rest, m)))
  {
    var r := Rotate(line, Moves(m));
    RotateLength(line, Moves(m));
    if Eliminate(r[1..], m) != [] {
      LastOfCons(r[0], Eliminate(r[1..], m));
    }
  }

  lemma {:induction false} SurvivorAt<T>(line: seq<T>, m: int)
    requires line != [] && m >= 1
    ensures 0 <= J(|line|, m) < |line|
    ensures Eliminate(line, m) != [] && Last(Eliminate(line, m)) == line[J(|line|, m)]
    decreases |line|
  {
    if |line| > 1 {
      EliminateTail(line, m);
      var r := Rotate(line, m - 1);
      SurvivorAt(r[1..], m);
      var j := J(|line| - 1, m);
      JStep(|line|, m);
      RotateAt(line, m - 1, j + 1);
      assert r[1..][j] == r[j + 1];
    }
  }

  lemma LastOfCons<T>(x: T, rest: seq<T>)
    requires rest != []
    ensures Last([x] + rest) == Last(rest)
  {
  }

  lemma GamePermutes<T>(circle: seq<T>, m: int, k: int)
    ensures multiset(Eliminate(Rotate(circle, Moves(k)), m)) == multiset(circle)
  {
    RotateLength(circle, Moves(k));
    EliminatePermutes(Rotate(circle, Moves(k)), m);
  }

  lemma GameSurvivor<T>(circle: seq<T>, m: int, steps: nat)
    requires circle != [] && m >= 1
    ensures 0 <= J(|circle|, m) < |circle| && 0 <= (steps + J(|circle|, m)) % |circle| < |circle|
    ensures var order := Eliminate(Rotate(circle, steps), m);
            order != [] && Last(order) == circle[(steps + J(|circle|, m)) % |circle|]
  {
    RotateLength(circle, steps);
    SurvivorAt(Rotate(circle, steps), m);
    RotateAt(circle, steps, J(|circle|, m));
  }

  lemma EliminateHead<T>(line: seq<T>, m: int)
    requires |line| > 1
    ensures Eliminate(line, m) != [] && |Rotate(line, Moves(m))| == |line|
    ensures Eliminate(line, m)[0] == Rotate(line, Moves(m))[0]
  {
    RotateLength(line, Moves(m));
  }

  // The first to leave is counted out from the starter.
  lemma GameFirst<T>(circle: seq<T>, m: int, steps: nat)
    requires |circle| > 1 && m >= 1
    ensures 0 <= (steps + (m - 1)) % |circle| < |circle|
    ensures var order := Eliminate(Rotate(circle, steps), m);
            order != [] && order[0] == circle[(steps + (m - 1)) % |circle|]
  {
    RotateLength(circle, steps);
    EliminateHead(Rotate(circle, steps), m);
    RotateMore(circle, steps, m - 1);
    HeadAt(circle, steps + (m - 1));
  }

  lemma HeadAt<T>(s: seq<T>, steps: nat)
    requires s != []
    ensures |Rotate(s, steps)| == |s| && 0 <= steps % |s| < |s| && Rotate(s, steps)[0] == s[steps % |s|]
  {
    RotateAt(s, steps, 0);
  }

  lemma {:induction false} RotateMore<T>(s: seq<T>, a: nat, b: nat)
    ensures Rotate(Rotate(s, a), b) == Rotate(s, a + b)
  {
    if b > 0 {
      RotateMore(s, a, b - 1);
    }
  }

  // The order in which the circle 1..n is left when counting starts at the k-th child.
  function Order(n: nat, m: int, k: int): seq<int> {
    Eliminate(Rotate(Circle(n), Moves(k)), m)
  }

  function AtLeastOne(i: int): int {
    if i < 1 then 1 else i
  }

  lemma SmallOrder(n: nat, m: int, k: int)
    ensures Order(n, m, k) == Order(n, AtLeastOne(m), AtLeastOne(k))
  {
    if m < 1 {
      SmallCountsAsOne(Rotate(Circle(n), Moves(k)), m);
    }
  }

  lemma OrderEnds(n: nat, m: int, k: int)
    requires n >= 1 && m >= 1 && k >= 1
    ensures Order(n, m, k) != [] && Last(Order(n, m, k)) == 1 + ((k - 1) + J(n, m)) % n
  {
    GameSurvivor(Circle(n), m, k - 1);
  }

  lemma OrderStarts(n: nat, m: int, k: int)
    requires n > 1 && m >= 1 && k >= 1
    ensures Order(n, m, k) != [] && Order(n, m, k)[0] == 1 + ((k - 1) + (m - 1)) % n
  {
    GameFirst(Circle(n), m, k - 1);
  }

  // Main result, for the circle 1..n: everyone leaves once but the survivor, whose number has the
  // usual recurrence, and the first to leave is the m-th from the k-th child on.
  lemma GameResult(n: nat, m: int, k: int)
    requires n >= 1 && m >= 1 && k >= 1
    ensures multiset(Order(n, m, k)) == multiset(Circle(n)) && Order(n, m, k) != []
    ensures Last(Order(n, m, k)) == 1 + ((k - 1) + J(n, m)) % n
    ensures n > 1 ==> Order(n, m, k)[0] == 1 + ((k - 1) + (m - 1)) % n
  {
    GamePermutes(Circle(n), m, k);
    OrderEnds(n, m, k);
    if n > 1 {
      OrderStarts(n, m, k);
    }
  }

  // The whole page: build the circle, then count. Less than one counts as one.
  method Play(n: nat, m: int, k: int) returns (out: seq<int>, survivor: int)
    requires n >= 1
    ensures out + [survivor] == Order(n, m, k) && multiset(out + [survivor]) == multiset(Circle(n))
    ensures m >= 1 && k >= 1 ==> survivor == 1 + ((k - 1) + J(n, m)) % n
    ensures m >= 1 && k >= 1 && n > 1 ==> out != [] && out[0] == 1 + ((k - 1) + (m - 1)) % n
    ensures Order(n, m, k) == Order(n, AtLeastOne(m), AtLeastOne(k))
  {
    var first, ring := AddChild(n);
    out, survivor := CountChild(first, m, k, ring);
    SmallOrder(n, m, k);
    GamePermutes(Circle(n), m, k);
    EndsOf(out, survivor, Order(n, m, k));
    if m >= 1 && k >= 1 {
      OrderEnds(n, m, k);
      if n > 1 {
        EliminateHead(Rotate(Circle(n), Moves(k)), m);
        OrderStarts(n, m, k);
      }
    }
  }

  lemma EndsOf(out: seq<int>, survivor: int, order: seq<int>)
    requires out + [survivor] == order
    ensures Last(order) == survivor
    ensures |order| > 1 ==> out != [] && out[0] == order[0]
  {
  }
}
