// Where distributors are not dedicated, the order in which rows are returned decides what a lineage
// run visits: two networks that differ in nothing else, and whose runs disagree.

module LineageOrder {
  import opened Options
  import opened Lineage
  import opened LineageReport

  // The same answers, but for the order of the log shipping rows.
  ghost predicate SameButOrder(a: Network, b: Network) {
    b == a.(shipping := b.shipping) && forall s :: multiset(a.shipping(s)) == multiset(b.shipping(s))
  }

  // What a run from `root` has visited at its end.
  ghost function VisitedBy(net: Network, all: set<Server>, root: Server): set<Server>
    requires net.ClosedUnder(all) && root in all
  {
    Walk(net, all, State(map[], [], {}), root).visited.Keys
  }

  // One run visits t, the other does not.
  ghost predicate Disagree(a: Network, b: Network, all: set<Server>, root: Server, t: Server) {
    && SameButOrder(a, b) && a.ClosedUnder(all) && b.ClosedUnder(all) && root in all
    && t in VisitedBy(a, all, root) && t !in VisitedBy(b, all, root)
  }

  function ToB(): Row {
    Row("A", "db", "B", "db")
  }

  function ToD(): Row {
    Row("A", "db", "D", "db")
  }

  predicate AcceptAll(s: Server, c: Credential) {
    true
  }

  function NoRows(s: Server): seq<Row> {
    []
  }

  function DOfB(s: Server): Option<Server> {
    if s == "B" then Some("D") else None
  }

  // A ships to B and D, B's distributor is D, and D ships to T.
  function Diamond(fromA: seq<Row>): Network {
    Network(
      AcceptAll, [Credential("u", "p")],
      s => if s == "A" then fromA else if s == "D" then Rows("D", "T") else [],
      DOfB, NoRows)
  }

  const DIAMOND: set<Server> := {"A", "B", "D", "T"}

  lemma DiamondUp(fromA: seq<Row>, s: Server)
    ensures Diamond(fromA).Up(s)
  {
    assert Diamond(fromA).credentials[0] in Diamond(fromA).credentials;
  }

  lemma DiamondClosed(fromA: seq<Row>)
    requires forall r :: r in fromA ==> r in {ToB(), ToD()}
    ensures Diamond(fromA).ClosedUnder(DIAMOND)
  {
  }

  // Expanding B marks D as its distributor, or overwrites D's connection with an equal one.
  lemma WalkB(fromA: seq<Row>, st: State)
    requires (forall r :: r in fromA ==> r in {ToB(), ToD()}) && st.visited.Keys <= DIAMOND && "B" !in st.visited
    ensures Diamond(fromA).ClosedUnder(DIAMOND)
    ensures Walk(Diamond(fromA), DIAMOND, st, "B").visited == st.visited["B" := Conn("B")]["D" := Conn("D")]
  {
    var net := Diamond(fromA);
    DiamondClosed(fromA);
    DiamondUp(fromA, "B");
    DiamondUp(fromA, "D");
    var marked := Marked(st, "B");
    assert WalkRows(net, DIAMOND, marked, LogShipping, net.shipping("B")) == marked;
    var connected := marked.(visited := marked.visited["D" := Conn("D")]);
    assert WalkRows(net, DIAMOND, connected, Replication, net.replication("D")) == connected;
    assert Walk(net, DIAMOND, st, "B") == WalkReplication(net, DIAMOND, marked, "B") == connected;
  }

  // Expanding D leads to T.
  lemma WalkD(fromA: seq<Row>, st: State)
    requires (forall r :: r in fromA ==> r in {ToB(), ToD()}) && st.visited.Keys <= DIAMOND && "D" !in st.visited
    ensures Diamond(fromA).ClosedUnder(DIAMOND)
    ensures "T" in Walk(Diamond(fromA), DIAMOND, st, "D").visited
  {
    var net := Diamond(fromA);
    DiamondClosed(fromA);
    DiamondUp(fromA, "D");
    var row := Rows("D", "T")[0];
    assert WalkRows(net, DIAMOND, Marked(st, "D"), LogShipping, Rows("D", "T")) ==
           WalkRows(net, DIAMOND, WalkRow(net, DIAMOND, Marked(st, "D"), LogShipping, row), LogShipping, []) by {
      WalkRowsStep(net, DIAMOND, Marked(st, "D"), LogShipping, Rows("D", "T"), 0);
      assert Rows("D", "T")[0..] == Rows("D", "T") && Rows("D", "T")[1..] == [];
    }
  }

  lemma WalkTwoRows(net: Network, all: set<Server>, st: State, kind: Kind, first: Row, second: Row)
    requires net.ClosedUnder(all) && st.visited.Keys <= all && first.target in all && second.target in all
    ensures WalkRows(net, all, st, kind, [first, second]) ==
            WalkRow(net, all, WalkRow(net, all, st, kind, first), kind, second)
  {
    var rows := [first, second];
    assert rows[0..] == rows && rows[1..][0] == second && rows[2..] == [];
    WalkRowsStep(net, all, st, kind, rows, 0);
    WalkRowsStep(net, all, WalkRow(net, all, st, kind, first), kind, rows, 1);
  }

  lemma WalkUndistributed(net: Network, all: set<Server>, st: State, s: Server)
    requires net.ClosedUnder(all) && st.visited.Keys <= all && s in all && s !in st.visited
    requires net.Up(s) && net.distributor(s) == None
    ensures TargetsIn(net.shipping(s), all)
    ensures Walk(net, all, st, s) == WalkRows(net, all, Marked(st, s), LogShipping, net.shipping(s))
  {
    assert net.Next(s) <= all;
  }

  function MarkedA(): (st: State)
    ensures st.visited.Keys == {"A"}
  {
    Marked(State(map[], [], {}), "A")
  }

  // Root A, two rows, in either order.
  lemma WalkA(fromA: seq<Row>)
    requires |fromA| == 2 && forall r :: r in fromA ==> r in {ToB(), ToD()}
    ensures Diamond(fromA).ClosedUnder(DIAMOND) && fromA[0].target in DIAMOND && fromA[1].target in DIAMOND
    ensures var net := Diamond(fromA);
            Walk(net, DIAMOND, State(map[], [], {}), "A") ==
            WalkRow(net, DIAMOND, WalkRow(net, DIAMOND, MarkedA(), LogShipping, fromA[0]), LogShipping, fromA[1])
  {
    var net := Diamond(fromA);
    assert fromA[0] in fromA && fromA[1] in fromA;
    DiamondClosed(fromA);
    DiamondUp(fromA, "A");
    WalkUndistributed(net, DIAMOND, State(map[], [], {}), "A");
    WalkTwoRows(net, DIAMOND, MarkedA(), LogShipping, fromA[0], fromA[1]);
    assert fromA == [fromA[0], fromA[1]];
  }

  lemma DFirstVisits(fromA: seq<Row>)
    requires fromA == [ToD(), ToB()]
    ensures Diamond(fromA).ClosedUnder(DIAMOND) && "T" in VisitedBy(Diamond(fromA), DIAMOND, "A")
  {
    WalkA(fromA);
    WalkD(fromA, MarkedA().(graph := MarkedA().graph + {Link(LogShipping, ToD())}));
  }

  lemma AfterRowB(fromA: seq<Row>)
    requires forall r :: r in fromA ==> r in {ToB(), ToD()}
    ensures Diamond(fromA).ClosedUnder(DIAMOND)
    ensures WalkRow(Diamond(fromA), DIAMOND, MarkedA(), LogShipping, ToB()).visited.Keys == {"A", "B", "D"}
  {
    WalkB(fromA, MarkedA().(graph := MarkedA().graph + {Link(LogShipping, ToB())}));
  }

  lemma AlreadyVisited(net: Network, all: set<Server>, st: State, row: Row)
    requires net.ClosedUnder(all) && st.visited.Keys <= all && row.target in all && row.target in st.visited
    ensures WalkRow(net, all, st, LogShipping, row).visited == st.visited
  {
  }

  lemma AfterBothRows(fromA: seq<Row>)
    requires forall r :: r in fromA ==> r in {ToB(), ToD()}
    ensures var net := Diamond(fromA);
            && net.ClosedUnder(DIAMOND)
            && var once := WalkRow(net, DIAMOND, MarkedA(), LogShipping, ToB());
               WalkRow(net, DIAMOND, once, LogShipping, ToD()).visited.Keys == {"A", "B", "D"}
  {
    AfterRowB(fromA);
    AlreadyVisited(Diamond(fromA), DIAMOND, WalkRow(Diamond(fromA), DIAMOND, MarkedA(), LogShipping, ToB()), ToD());
  }

  lemma BFirstMisses(fromA: seq<Row>)
    requires fromA == [ToB(), ToD()]
    ensures Diamond(fromA).ClosedUnder(DIAMOND) && "T" !in VisitedBy(Diamond(fromA), DIAMOND, "A")
  {
    WalkA(fromA);
    AfterBothRows(fromA);
  }

  lemma DiamondOrders(x: seq<Row>, y: seq<Row>)
    requires multiset(x) == multiset(y)
    ensures SameButOrder(Diamond(x), Diamond(y))
  {
  }

  lemma DiamondDisagrees(dFirst: seq<Row>, bFirst: seq<Row>)
    requires dFirst == [ToD(), ToB()] && bFirst == [ToB(), ToD()]
    ensures exists a, b, all, root, t :: Disagree(a, b, all, root, t)
  {
    DFirstVisits(dFirst);
    BFirstMisses(bFirst);
    DiamondOrders(dFirst, bFirst);
    assert Disagree(Diamond(dFirst), Diamond(bFirst), DIAMOND, "A", "T");
  }

  // Two networks that differ in the order of the root's two rows only, and whose runs disagree: no
  // condition on who is linked to whom decides completeness.
  lemma RowOrderDecides()
    ensures exists a, b, all, root, t :: Disagree(a, b, all, root, t)
  {
    DiamondDisagrees([ToD(), ToB()], [ToB(), ToD()]);
  }
}
