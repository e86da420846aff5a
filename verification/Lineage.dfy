// The replication lineage traversal of mssql/replication/main.py: a recursion over a possibly
// cyclic graph of servers, sharing one `visited` dictionary and one connection pool.

module Lineage {
  import opened Options

  type Server = string

  datatype Credential = Credential(user: string, password: string)

  datatype Row = Row(source: Server, sourceDb: string, target: Server, targetDb: string)

  datatype Kind = LogShipping | Replication

  datatype Link = Link(kind: Kind, row: Row)

  // What the servers would answer. Any set of servers may refuse every credential.
  datatype Network = Network(
    accepts: (Server, Credential) -> bool,
    credentials: seq<Credential>,
    shipping: Server -> seq<Row>,
    distributor: Server -> Option<Server>,
    replication: Server -> seq<Row>)
  {
    predicate Up(s: Server) {
      exists c :: c in credentials && accepts(s, c)
    }

    // The servers that expanding s calls the traversal on.
    function Called(s: Server): set<Server> {
      (set r | r in shipping(s) :: r.target) +
      if distributor(s).Some? && Up(distributor(s).value)
      then set r | r in replication(distributor(s).value) :: r.target
      else {}
    }

    // The servers that expanding s must leave visited.
    function Next(s: Server): set<Server> {
      if !Up(s) then {}
      else if distributor(s).Some? && Up(distributor(s).value) then Called(s) + {distributor(s).value}
      else Called(s)
    }

    // The lineage that expanding s must leave in the graph.
    function LinksOf(s: Server): set<Link> {
      (set r | r in shipping(s) :: Link(LogShipping, r)) +
      if distributor(s).Some? && Up(distributor(s).value)
      then set r | r in replication(distributor(s).value) :: Link(Replication, r)
      else {}
    }

    ghost predicate Path(p: seq<Server>) {
      p != [] && forall i :: 0 <= i < |p| - 1 ==> p[i + 1] in Next(p[i])
    }

    ghost predicate Reaches(a: Server, b: Server) {
      exists p :: Path(p) && p[0] == a && p[|p| - 1] == b
    }

    ghost predicate ClosedUnder(all: set<Server>) {
      forall s {:trigger Next(s)} :: s in all && Up(s) ==> Next(s) <= all
    }
  }

  // A dictionary value: the connection, or the ConnectionError naming the server it was raised for.
  datatype Outcome = Conn(server: Server) | Failed(server: Server)

  datatype State = State(visited: map<Server, Outcome>, expanded: seq<Server>, graph: set<Link>)

  // ---------- the run as a function ----------

  predicate TargetsIn(rows: seq<Row>, all: set<Server>) {
    forall r :: r in rows ==> r.target in all
  }

  // The traversal of one server; `all` is any finite universe it stays in.
  ghost function Walk(net: Network, all: set<Server>, st: State, s: Server): (r: State)
    requires net.ClosedUnder(all) && s in all && st.visited.Keys <= all
    ensures st.visited.Keys <= r.visited.Keys <= all && s in r.visited
    decreases all - st.visited.Keys, 0, 0
  {
    if s in st.visited then st
    else if !net.Up(s) then st.(visited := st.visited[s := Failed(s)])
    else
      assert all - Marked(st, s).visited.Keys < all - st.visited.Keys by {
        assert s in all - st.visited.Keys;
      }
      assert net.Next(s) <= all;
      var shipped := WalkRows(net, all, Marked(st, s), LogShipping, net.shipping(s));
      WalkReplication(net, all, shipped, s)
  }

  function Marked(st: State, s: Server): State {
    st.(visited := st.visited[s := Conn(s)], expanded := st.expanded + [s])
  }

  // The rows in the order they are returned.
  ghost function WalkRows(net: Network, all: set<Server>, st: State, kind: Kind, rows: seq<Row>): (r: State)
    requires net.ClosedUnder(all) && st.visited.Keys <= all && TargetsIn(rows, all)
    ensures st.visited.Keys <= r.visited.Keys <= all
    decreases all - st.visited.Keys, 1, |rows|
  {
    if rows == [] then st
    else WalkRows(net, all, WalkRow(net, all, st, kind, rows[0]), kind, rows[1..])
  }

  ghost function WalkRow(net: Network, all: set<Server>, st: State, kind: Kind, row: Row): (r: State)
    requires net.ClosedUnder(all) && st.visited.Keys <= all && row.target in all
    ensures st.visited.Keys <= r.visited.Keys <= all
    decreases all - st.visited.Keys, 1, 0
  {
    Walk(net, all, st.(graph := st.graph + {Link(kind, row)}), row.target)
  }

  ghost function WalkReplication(net: Network, all: set<Server>, st: State, s: Server): (r: State)
    requires net.ClosedUnder(all) && st.visited.Keys <= all && s in all && net.Up(s)
    ensures st.visited.Keys <= r.visited.Keys <= all
    decreases all - st.visited.Keys, 2, 0
  {
    assert net.Next(s) <= all;
    match net.distributor(s)
    case None => st
    case Some(d) =>
      if !net.Up(d) then st.(visited := st.visited[s := Failed(d)])
      else WalkRows(net, all, st.(visited := st.visited[d := Conn(d)]), Replication, net.replication(d))
  }

  // ---------- the invariant of the whole recursion ----------

  ghost predicate NoDuplicates<T>(s: seq<T>) {
    forall i, j :: 0 <= i < j < |s| ==> s[i] != s[j]
  }

  ghost predicate CalledBefore(net: Network, expanded: seq<Server>, i: nat, s: Server)
    requires i <= |expanded|
  {
    exists j :: 0 <= j < i && s in net.Called(expanded[j])
  }

  // Each server is expanded at most once, and only the root or a server called on by an earlier one.
  ghost predicate Ordered(net: Network, root: Server, expanded: seq<Server>) {
    && NoDuplicates(expanded)
    && forall i {:trigger CalledBefore(net, expanded, i, expanded[i])} :: 0 <= i < |expanded| ==>
         expanded[i] == root || CalledBefore(net, expanded, i, expanded[i])
  }

  ghost predicate LedTo(net: Network, expanded: seq<Server>, v: Server) {
    exists s :: s in expanded && v in net.Next(s)
  }

  ghost predicate Owed(net: Network, expanded: seq<Server>, l: Link) {
    exists s :: s in expanded && l in net.LinksOf(s)
  }

  // Nothing is visited but the root and neighbours of expanded servers, and nothing else is recorded.
  ghost predicate Traced(net: Network, root: Server, st: State) {
    && (forall s :: s in st.expanded ==> s in st.visited && net.Up(s))
    && (forall v {:trigger LedTo(net, st.expanded, v)} :: v in st.visited ==> v == root || LedTo(net, st.expanded, v))
    && (forall l {:trigger Owed(net, st.expanded, l)} :: l in st.graph ==> Owed(net, st.expanded, l))
  }

  ghost predicate IsDistributor(net: Network, expanded: seq<Server>, v: Server) {
    exists s :: s in expanded && net.distributor(s) == Some(v)
  }

  // What the dictionary says of one server.
  ghost predicate Explained(net: Network, st: State, v: Server)
    requires v in st.visited
  {
    match st.visited[v]
    case Conn(w) => w == v && net.Up(v) && (v in st.expanded || IsDistributor(net, st.expanded, v))
    case Failed(w) =>
      !net.Up(w) && (w == v || (v in st.expanded && net.distributor(v) == Some(w)))
  }

  // A server whose frame has finished: its neighbours are visited and its lineage is recorded; if
  // its distributor was unreachable it is marked failed, unless a connection as somebody's
  // distributor overwrote the mark.
  ghost predicate Finished(net: Network, st: State, s: Server) {
    && net.Next(s) <= st.visited.Keys
    && net.LinksOf(s) <= st.graph
    && (net.distributor(s).Some? && !net.Up(net.distributor(s).value) && s in st.visited
        && !IsDistributor(net, st.expanded, s)
        ==> st.visited[s] == Failed(net.distributor(s).value))
  }

  ghost predicate Inv(net: Network, root: Server, st: State, open: set<Server>) {
    && Ordered(net, root, st.expanded)
    && Traced(net, root, st)
    && (forall v {:trigger Explained(net, st, v)} :: v in st.visited ==> Explained(net, st, v))
    && (forall s {:trigger Finished(net, st, s)} :: s in st.expanded && s !in open ==> Finished(net, st, s))
  }

  ghost predicate Grows(a: State, b: State) {
    && a.visited.Keys <= b.visited.Keys
    && (forall s :: s in a.expanded ==> s in b.expanded)
    && a.graph <= b.graph
  }

  // The row's target is visited and its lineage is in the graph.
  predicate Recorded(st: State, kind: Kind, r: Row) {
    r.target in st.visited && Link(kind, r) in st.graph
  }

  // One of the rows that expanding s has to follow.
  predicate Due(net: Network, kind: Kind, r: Row, s: Server) {
    r.target in net.Called(s) && Link(kind, r) in net.LinksOf(s)
  }

  predicate RecordedTo(st: State, kind: Kind, rows: seq<Row>, n: nat)
    requires n <= |rows|
  {
    forall j :: 0 <= j < n ==> Recorded(st, kind, rows[j])
  }

  predicate AllRecorded(st: State, kind: Kind, rows: seq<Row>) {
    RecordedTo(st, kind, rows, |rows|)
  }

  lemma RecordedOneMore(a: State, b: State, kind: Kind, rows: seq<Row>, n: nat)
    requires n < |rows| && RecordedTo(a, kind, rows, n) && Grows(a, b) && Recorded(b, kind, rows[n])
    ensures RecordedTo(b, kind, rows, n + 1)
  {
    forall j | 0 <= j < n
      ensures Recorded(b, kind, rows[j])
    {
      assert Recorded(a, kind, rows[j]);
    }
  }

  lemma WalkRowsStep(net: Network, all: set<Server>, st: State, kind: Kind, rows: seq<Row>, i: nat)
    requires net.ClosedUnder(all) && st.visited.Keys <= all && i < |rows| && TargetsIn(rows[i..], all)
    ensures rows[i].target in all && TargetsIn(rows[i + 1..], all)
    ensures WalkRows(net, all, st, kind, rows[i..]) ==
            WalkRows(net, all, WalkRow(net, all, st, kind, rows[i]), kind, rows[i + 1..])
  {
    assert rows[i..][0] == rows[i] && rows[i..][1..] == rows[i + 1..];
  }

  // ---------- the traversal ----------

  class Traversal {
    const net: Network
    const database: string
    var visited: map<Server, Outcome>
    var graph: set<Link>
    var pool: map<(Server, string), Outcome>
    var logins: seq<(Server, string)>
    ghost var expanded: seq<Server>

    constructor (net: Network, database: string)
      ensures this.net == net && this.database == database
      ensures St() == State(map[], [], {}) && PoolInv()
    {
      this.net, this.database := net, database;
      visited, graph, pool, logins, expanded := map[], {}, map[], [], [];
    }

    ghost function St(): State
      reads this
    {
      State(visited, expanded, graph)
    }

    // The pool holds working connections under their own key, and nobody was logged into twice.
    ghost predicate PoolInv()
      reads this
    {
      && (forall k :: k in pool <==> k in logins)
      && (forall k :: k in pool ==> pool[k] == Conn(k.0) && net.Up(k.0))
      && NoDuplicates(logins)
    }

    // connect_sql_server: a cached connection, or the first credential that works.
    method Connect(server: Server) returns (r: Outcome)
      requires PoolInv()
      modifies this`pool, this`logins
      ensures PoolInv()
      ensures r == if net.Up(server) then Conn(server) else Failed(server)
      ensures pool == if net.Up(server) then old(pool)[(server, database) := Conn(server)] else old(pool)
      ensures logins == old(logins) + if net.Up(server) && (server, database) !in old(pool) then [(server, database)] else []
    {
      var signature := (server, database);
      if signature in pool {
        return pool[signature];
      }
      for i := 0 to |net.credentials|
        invariant forall j :: 0 <= j < i ==> !net.accepts(server, net.credentials[j])
      {
        if net.accepts(server, net.credentials[i]) {
          r := Conn(server);
          assert net.credentials[i] in net.credentials;
          pool, logins := pool[signature := r], logins + [signature];
          return;
        }
      }
      r := Failed(server);
    }

    // traverse_lineage. `open` are the frames above this one; `all` is any finite universe.
    method Traverse(server: Server, ghost root: Server, ghost all: set<Server>, ghost open: set<Server>)
      requires PoolInv() && Inv(net, root, St(), open)
      requires net.ClosedUnder(all) && server in all && visited.Keys <= all
      requires server == root || CalledBefore(net, expanded, |expanded|, server)
      modifies this
      ensures PoolInv() && Inv(net, root, St(), open)
      ensures visited.Keys <= all && server in visited && Grows(old(St()), St())
      ensures St() == Walk(net, all, old(St()), server)
      decreases all - visited.Keys, 0
    {
      if server in visited {
        return;
      }
      ghost var before := St();
      var conn := Connect(server);
      visited := visited[server := conn];
      if conn.Failed? {
        FailedKeeps(net, root, before, St(), open, server);
        return;
      }
      expanded := expanded + [server];
      ExpandKeeps(net, root, before, St(), open, server);
      ghost var marked := St();
      assert net.Next(server) <= all;
      Expand(server, root, all, open);
      GrowsTransitive(before, marked, St());
    }

    // The rest of traverse_lineage, once the server is connected and marked.
    method Expand(server: Server, ghost root: Server, ghost all: set<Server>, ghost open: set<Server>)
      requires PoolInv() && Inv(net, root, St(), open + {server}) && server in expanded
      requires net.ClosedUnder(all) && server in all && net.Up(server) && visited.Keys <= all
      requires TargetsIn(net.shipping(server), all)
      modifies this
      ensures PoolInv() && Inv(net, root, St(), open)
      ensures visited.Keys <= all && Grows(old(St()), St())
      ensures St() == WalkReplication(net, all, WalkRows(net, all, old(St()), LogShipping, net.shipping(server)), server)
      decreases all - visited.Keys, 4
    {
      ghost var before := St();
      Follow(LogShipping, net.shipping(server), server, root, all, open + {server});
      ghost var shipped := St();
      Distribute(server, root, all, open);
      GrowsTransitive(before, shipped, St());
    }

    // The replication half: the distributor is connected and marked, but not expanded.
    method Distribute(server: Server, ghost root: Server, ghost all: set<Server>, ghost open: set<Server>)
      requires PoolInv() && Inv(net, root, St(), open + {server}) && server in expanded
      requires net.ClosedUnder(all) && server in all && net.Up(server) && visited.Keys <= all
      requires AllRecorded(St(), LogShipping, net.shipping(server))
      modifies this
      ensures PoolInv() && Inv(net, root, St(), open)
      ensures visited.Keys <= all && Grows(old(St()), St())
      ensures St() == WalkReplication(net, all, old(St()), server)
      decreases all - visited.Keys, 3
    {
      ghost var shipped := St();
      var distributor := net.distributor(server);
      if distributor.None? {
        CloseFrame(net, root, St(), open, server);
        return;
      }
      var conn := Connect(distributor.value);
      if conn.Failed? {
        visited := visited[server := conn];
        MarkFailedKeeps(net, root, shipped, St(), open, server);
        return;
      }
      visited := visited[distributor.value := conn];
      assert net.Next(server) <= all;
      MarkDistributorKeeps(net, root, shipped, St(), open + {server}, server);
      ghost var called := St();
      assert AllRecorded(called, LogShipping, net.shipping(server));
      Follow(Replication, net.replication(distributor.value), server, root, all, open + {server});
      GrowsTransitive(shipped, called, St());
      CloseFrame(net, root, St(), open, server);
    }

    // One of the two loops over the rows an expanded server yields.
    method Follow(kind: Kind, rows: seq<Row>, ghost server: Server,
                  ghost root: Server, ghost all: set<Server>, ghost open: set<Server>)
      requires PoolInv() && Inv(net, root, St(), open) && server in open && server in expanded
      requires net.ClosedUnder(all) && visited.Keys <= all && server in all
      requires TargetsIn(rows, all) && forall j :: 0 <= j < |rows| ==> Due(net, kind, rows[j], server)
      modifies this
      ensures PoolInv() && Inv(net, root, St(), open)
      ensures visited.Keys <= all && Grows(old(St()), St())
      ensures AllRecorded(St(), kind, rows)
      ensures St() == WalkRows(net, all, old(St()), kind, rows)
      decreases all - visited.Keys, 2
    {
      for i := 0 to |rows|
        invariant PoolInv() && Inv(net, root, St(), open) && visited.Keys <= all
        invariant Grows(old(St()), St()) && server in expanded
        invariant RecordedTo(St(), kind, rows, i)
        invariant TargetsIn(rows[i..], all)
        invariant WalkRows(net, all, St(), kind, rows[i..]) == WalkRows(net, all, old(St()), kind, rows)
      {
        ghost var before := St();
        WalkRowsStep(net, all, before, kind, rows, i);
        FollowRow(kind, rows[i], server, root, all, open);
        GrowsTransitive(old(St()), before, St());
        RecordedOneMore(before, St(), kind, rows, i);
      }
    }

    method FollowRow(kind: Kind, row: Row, ghost server: Server,
                     ghost root: Server, ghost all: set<Server>, ghost open: set<Server>)
      requires PoolInv() && Inv(net, root, St(), open) && server in open && server in expanded
      requires net.ClosedUnder(all) && visited.Keys <= all && server in all
      requires row.target in all && Due(net, kind, row, server)
      modifies this
      ensures PoolInv() && Inv(net, root, St(), open)
      ensures visited.Keys <= all && Grows(old(St()), St())
      ensures Recorded(St(), kind, row)
      ensures St() == WalkRow(net, all, old(St()), kind, row)
      decreases all - visited.Keys, 1
    {
      ghost var before := St();
      graph := graph + {Link(kind, row)};
      LinkKeeps(net, root, before, St(), open, server, Link(kind, row));
      assert row.target in net.Next(server);
      CalledByExpanded(net, expanded, server, row.target);
      ghost var linked := St();
      Traverse(row.target, root, all, open);
      GrowsTransitive(before, linked, St());
    }
  }

  lemma GrowsTransitive(a: State, b: State, c: State)
    requires Grows(a, b) && Grows(b, c)
    ensures Grows(a, c)
  {
  }

  // ---------- each update keeps the invariant ----------

  lemma CalledByExpanded(net: Network, expanded: seq<Server>, s: Server, t: Server)
    requires s in expanded && t in net.Called(s)
    ensures CalledBefore(net, expanded, |expanded|, t)
  {
    var j :| 0 <= j < |expanded| && expanded[j] == s;
  }

  // Being called on by an expanded server is being its neighbour.
  lemma CallerLeads(net: Network, expanded: seq<Server>, s: Server)
    requires CalledBefore(net, expanded, |expanded|, s) && forall t :: t in expanded ==> net.Up(t)
    ensures LedTo(net, expanded, s)
  {
    var j :| 0 <= j < |expanded| && s in net.Called(expanded[j]);
    assert expanded[j] in expanded;
  }

  lemma FailedKeeps(net: Network, root: Server, a: State, b: State, open: set<Server>, s: Server)
    requires Inv(net, root, a, open) && s !in a.visited && !net.Up(s)
    requires s == root || CalledBefore(net, a.expanded, |a.expanded|, s)
    requires b == a.(visited := a.visited[s := Failed(s)])
    ensures Inv(net, root, b, open)
  {
    if s != root {
      CallerLeads(net, a.expanded, s);
    }
    forall v | v in b.visited
      ensures Explained(net, b, v)
    {
      assert v != s ==> Explained(net, a, v);
    }
    forall t | t in b.expanded && t !in open
      ensures Finished(net, b, t)
    {
      assert Finished(net, a, t) && t != s;
    }
  }

  lemma ExpandKeeps(net: Network, root: Server, a: State, b: State, open: set<Server>, s: Server)
    requires Inv(net, root, a, open) && s !in a.visited && net.Up(s)
    requires s == root || CalledBefore(net, a.expanded, |a.expanded|, s)
    requires b == a.(visited := a.visited[s := Conn(s)], expanded := a.expanded + [s])
    ensures Inv(net, root, b, open + {s})
  {
    MoreExpanded(net, a.expanded, s);
    ExpandOrdered(net, root, a.expanded, s);
    if s != root {
      CallerLeads(net, a.expanded, s);
    }
    forall v | v in b.visited
      ensures Explained(net, b, v)
    {
      assert v != s ==> Explained(net, a, v);
    }
    forall t | t in b.expanded && t !in open + {s}
      ensures Finished(net, b, t)
    {
      assert Finished(net, a, t);
    }
  }

  // What holds of the expanded servers still holds with one more.
  lemma MoreExpanded(net: Network, expanded: seq<Server>, s: Server)
    ensures forall v :: LedTo(net, expanded, v) ==> LedTo(net, expanded + [s], v)
    ensures forall l :: Owed(net, expanded, l) ==> Owed(net, expanded + [s], l)
    ensures forall v :: IsDistributor(net, expanded, v) ==> IsDistributor(net, expanded + [s], v)
  {
    assert forall t :: t in expanded ==> t in expanded + [s];
  }

  lemma ExpandOrdered(net: Network, root: Server, expanded: seq<Server>, s: Server)
    requires Ordered(net, root, expanded) && s !in expanded
    requires s == root || CalledBefore(net, expanded, |expanded|, s)
    ensures Ordered(net, root, expanded + [s])
  {
    var more := expanded + [s];
    forall i | 0 <= i < |more| && more[i] != root
      ensures CalledBefore(net, more, i, more[i])
    {
      assert i < |expanded| ==> CalledBefore(net, expanded, i, expanded[i]);
      var j :| 0 <= j < i && more[i] in net.Called(expanded[j]);
      assert more[j] == expanded[j];
    }
  }

  lemma LinkKeeps(net: Network, root: Server, a: State, b: State, open: set<Server>, s: Server, l: Link)
    requires Inv(net, root, a, open) && s in a.expanded && l in net.LinksOf(s)
    requires b == a.(graph := a.graph + {l})
    ensures Inv(net, root, b, open)
  {
    assert Owed(net, a.expanded, l);
    forall v | v in b.visited
      ensures Explained(net, b, v)
    {
      assert Explained(net, a, v);
    }
    forall t | t in b.expanded && t !in open
      ensures Finished(net, b, t)
    {
      assert Finished(net, a, t);
    }
  }

  // Following all the rows of a server does everything it owes.
  lemma FrameDone(net: Network, st: State, s: Server)
    requires AllRecorded(st, LogShipping, net.shipping(s))
    requires net.distributor(s).Some? && net.Up(net.distributor(s).value) ==>
               && net.distributor(s).value in st.visited
               && AllRecorded(st, Replication, net.replication(net.distributor(s).value))
    ensures net.Next(s) <= st.visited.Keys && net.LinksOf(s) <= st.graph
  {
    forall r | r in net.shipping(s)
      ensures Recorded(st, LogShipping, r)
    {
    }
    if net.distributor(s).Some? && net.Up(net.distributor(s).value) {
      forall r | r in net.replication(net.distributor(s).value)
        ensures Recorded(st, Replication, r)
      {
      }
    }
  }

  // The frame of s ends with everything it owed done.
  lemma CloseFrame(net: Network, root: Server, st: State, open: set<Server>, s: Server)
    requires Inv(net, root, st, open + {s}) && s in st.visited
    requires AllRecorded(st, LogShipping, net.shipping(s))
    requires net.distributor(s).Some? ==>
               && net.Up(net.distributor(s).value) && net.distributor(s).value in st.visited
               && AllRecorded(st, Replication, net.replication(net.distributor(s).value))
    ensures Inv(net, root, st, open)
  {
    FrameDone(net, st, s);
    forall t | t in st.expanded && t !in open
      ensures Finished(net, st, t)
    {
      assert t != s ==> t !in open + {s};
    }
  }

  lemma MarkFailedKeeps(net: Network, root: Server, a: State, b: State, open: set<Server>, s: Server)
    requires Inv(net, root, a, open + {s}) && s in a.expanded
    requires net.distributor(s).Some? && !net.Up(net.distributor(s).value)
    requires b == a.(visited := a.visited[s := Failed(net.distributor(s).value)])
    requires AllRecorded(a, LogShipping, net.shipping(s))
    ensures Inv(net, root, b, open)
  {
    FrameDone(net, a, s);
    assert b.visited.Keys == a.visited.Keys;
    forall v | v in b.visited
      ensures Explained(net, b, v)
    {
      assert Explained(net, a, v);
    }
    forall t | t in b.expanded && t !in open
      ensures Finished(net, b, t)
    {
      assert t != s ==> t !in open + {s} && Finished(net, a, t);
    }
  }

  lemma MarkDistributorKeeps(net: Network, root: Server, a: State, b: State, open: set<Server>, s: Server)
    requires Inv(net, root, a, open) && s in a.expanded
    requires net.distributor(s).Some? && net.Up(net.distributor(s).value)
    requires b == a.(visited := a.visited[net.distributor(s).value := Conn(net.distributor(s).value)])
    ensures Inv(net, root, b, open)
  {
    var d := net.distributor(s).value;
    assert d in net.Next(s) && LedTo(net, a.expanded, d) && IsDistributor(net, a.expanded, d);
    forall v | v in b.visited
      ensures Explained(net, b, v)
    {
      assert v != d ==> Explained(net, a, v);
    }
    forall t | t in b.expanded && t !in open
      ensures Finished(net, b, t)
    {
      assert Finished(net, a, t);
    }
  }
}

module LineageReport {
  import opened Options
  import opened Lineage

  // What holds of the dictionary and the graph when a run from `root` is over.
  ghost predicate RunEnds(net: Network, root: Server, st: State) {
    Inv(net, root, st, {}) && root in st.visited
  }

  // main: traverse from an empty dictionary, then list the servers holding an error.
  method Report(net: Network, database: string, root: Server, ghost all: set<Server>)
    returns (t: Traversal, unreachable: set<Server>)
    requires net.ClosedUnder(all) && root in all
    ensures fresh(t) && t.net == net && RunEnds(net, root, t.St()) && t.PoolInv()
    ensures t.St() == Walk(net, all, State(map[], [], {}), root)
    ensures forall s :: s in unreachable <==> s in t.visited && t.visited[s].Failed?
  {
    t := new Traversal(net, database);
    t.Traverse(root, root, all, {});
    unreachable := set s | s in t.visited && t.visited[s].Failed?;
  }

  // ---------- soundness: nothing but reachable servers is visited ----------

  lemma ReachSelf(net: Network, a: Server)
    ensures net.Reaches(a, a)
  {
    assert net.Path([a]) && [a][0] == a;
  }

  lemma ReachOn(net: Network, a: Server, b: Server, c: Server)
    requires net.Reaches(a, b) && c in net.Next(b)
    ensures net.Reaches(a, c)
  {
    var p :| net.Path(p) && p[0] == a && p[|p| - 1] == b;
    var q := p + [c];
    assert net.Path(q) && q[0] == a && q[|q| - 1] == c;
  }

  lemma {:induction false} ExpandedReachable(net: Network, root: Server, st: State, i: nat)
    requires RunEnds(net, root, st) && i < |st.expanded|
    ensures net.Reaches(root, st.expanded[i])
  {
    if st.expanded[i] == root {
      ReachSelf(net, root);
    } else {
      assert CalledBefore(net, st.expanded, i, st.expanded[i]);
      var j :| 0 <= j < i && st.expanded[i] in net.Called(st.expanded[j]);
      ExpandedReachable(net, root, st, j);
      assert st.expanded[j] in st.expanded;
      ReachOn(net, root, st.expanded[j], st.expanded[i]);
    }
  }

  lemma VisitedReachable(net: Network, root: Server, st: State, v: Server)
    requires RunEnds(net, root, st) && v in st.visited
    ensures net.Reaches(root, v)
  {
    if v == root {
      ReachSelf(net, root);
    } else {
      assert LedTo(net, st.expanded, v);
      var s :| s in st.expanded && v in net.Next(s);
      var i :| 0 <= i < |st.expanded| && st.expanded[i] == s;
      ExpandedReachable(net, root, st, i);
      ReachOn(net, root, s, v);
    }
  }

  // ---------- completeness ----------

  ghost predicate VisitsAll(net: Network, root: Server, st: State) {
    forall v :: net.Reaches(root, v) ==> v in st.visited
  }

  lemma {:induction false} PathVisited(net: Network, st: State, p: seq<Server>)
    requires net.Path(p) && p[0] in st.visited
    requires forall s :: s in st.visited ==> net.Next(s) <= st.visited.Keys
    ensures p[|p| - 1] in st.visited
    decreases |p|
  {
    if |p| > 1 {
      assert p[1] in net.Next(p[0]);
      PathVisited(net, st, p[1..]);
    }
  }

  // The run misses a reachable server exactly when some distributor was only marked, never
  // expanded, and has a neighbour nobody else led to.
  lemma VisitsAllIff(net: Network, root: Server, st: State)
    requires RunEnds(net, root, st)
    ensures VisitsAll(net, root, st) <==>
            forall d :: d in st.visited && d !in st.expanded ==> net.Next(d) <= st.visited.Keys
  {
    if forall d :: d in st.visited && d !in st.expanded ==> net.Next(d) <= st.visited.Keys {
      forall s | s in st.visited
        ensures net.Next(s) <= st.visited.Keys
      {
        assert s in st.expanded ==> Finished(net, st, s);
      }
      forall v | net.Reaches(root, v)
        ensures v in st.visited
      {
        var p :| net.Path(p) && p[0] == root && p[|p| - 1] == v;
        PathVisited(net, st, p);
      }
    }
    if VisitsAll(net, root, st) {
      forall d, t | d in st.visited && t in net.Next(d)
        ensures t in st.visited
      {
        VisitedReachable(net, root, st, d);
        ReachOn(net, root, d, t);
      }
    }
  }

  // ---------- completeness, known before the run ----------

  ghost predicate Live(net: Network, root: Server, s: Server) {
    net.Reaches(root, s) && net.Up(s)
  }

  // The working distributor of another server: it may be marked before it is expanded.
  ghost predicate Foreign(net: Network, root: Server, d: Server) {
    net.Up(d) && exists u :: Live(net, root, u) && u != d && net.distributor(u) == Some(d)
  }

  ghost predicate SurePath(net: Network, root: Server, p: seq<Server>) {
    net.Path(p) && p[0] == root && forall i :: 0 < i < |p| - 1 ==> !Foreign(net, root, p[i])
  }

  // Some path leads there through no such distributor.
  ghost predicate Sure(net: Network, root: Server, t: Server) {
    exists p :: SurePath(net, root, p) && p[|p| - 1] == t
  }

  // Whatever lies behind another server's distributor can be reached around it.
  ghost predicate AroundDistributors(net: Network, root: Server) {
    forall d, t :: Foreign(net, root, d) && t in net.Next(d) ==> Sure(net, root, t)
  }

  // Distributors serve others only: no row leads to one.
  ghost predicate Dedicated(net: Network, root: Server) {
    forall d :: Foreign(net, root, d) ==> d != root && forall u :: Live(net, root, u) ==> d !in net.Called(u)
  }

  lemma FirstIsRoot(net: Network, root: Server, st: State)
    requires RunEnds(net, root, st) && st.expanded != []
    ensures st.expanded[0] == root
  {
    assert !CalledBefore(net, st.expanded, 0, st.expanded[0]);
  }

  // A connected server is expanded unless it is another server's distributor.
  lemma ExpandedUnlessForeign(net: Network, root: Server, st: State, v: Server)
    requires RunEnds(net, root, st) && v in st.visited && net.Up(v) && (v == root || !Foreign(net, root, v))
    ensures v in st.expanded
  {
    assert Explained(net, st, v);
    if v !in st.expanded {
      var s :| s in st.expanded && net.distributor(s) == Some(v);
      VisitedReachable(net, root, st, s);
      assert Live(net, root, s);
      FirstIsRoot(net, root, st);
    }
  }

  lemma {:induction false} SureVisited(net: Network, root: Server, st: State, p: seq<Server>, i: nat)
    requires RunEnds(net, root, st) && SurePath(net, root, p) && i < |p|
    ensures p[i] in st.visited
  {
    if i > 0 {
      SureVisited(net, root, st, p, i - 1);
      assert p[i - 1 + 1] in net.Next(p[i - 1]);
      ExpandedUnlessForeign(net, root, st, p[i - 1]);
      assert Finished(net, st, p[i - 1]);
    }
  }

  // Main result, known before the run and whatever the order of the rows: it is complete when what
  // lies behind another server's distributor can be reached around it.
  lemma VisitsAllWhen(net: Network, root: Server, st: State)
    requires RunEnds(net, root, st) && AroundDistributors(net, root)
    ensures VisitsAll(net, root, st)
    ensures forall v :: v in st.visited <==> net.Reaches(root, v)
  {
    forall d, t | d in st.visited && d !in st.expanded && t in net.Next(d)
      ensures t in st.visited
    {
      assert !(d == root || !Foreign(net, root, d)) by {
        if d == root || !Foreign(net, root, d) {
          ExpandedUnlessForeign(net, root, st, d);
        }
      }
      assert net.Up(d) && Foreign(net, root, d) && Sure(net, root, t);
      var p :| SurePath(net, root, p) && p[|p| - 1] == t;
      SureVisited(net, root, st, p, |p| - 1);
    }
    VisitsAllIff(net, root, st);
    forall v | v in st.visited
      ensures net.Reaches(root, v)
    {
      VisitedReachable(net, root, st, v);
    }
  }

  lemma {:induction false} ExpandedSure(net: Network, root: Server, st: State, i: nat) returns (p: seq<Server>)
    requires RunEnds(net, root, st) && i < |st.expanded|
    ensures net.Path(p) && p[0] == root && p[|p| - 1] == st.expanded[i]
    ensures forall k :: 0 <= k < |p| ==> p[k] in st.expanded
  {
    if st.expanded[i] == root {
      p := [root];
    } else {
      assert CalledBefore(net, st.expanded, i, st.expanded[i]);
      var j :| 0 <= j < i && st.expanded[i] in net.Called(st.expanded[j]);
      var q := ExpandedSure(net, root, st, j);
      assert st.expanded[j] in st.expanded;
      p := q + [st.expanded[i]];
    }
  }

  lemma ExpandedNotForeign(net: Network, root: Server, st: State, v: Server)
    requires RunEnds(net, root, st) && Dedicated(net, root) && v in st.expanded
    ensures !Foreign(net, root, v)
  {
    var i :| 0 <= i < |st.expanded| && st.expanded[i] == v;
    if v != root {
      assert CalledBefore(net, st.expanded, i, st.expanded[i]);
      var j :| 0 <= j < i && v in net.Called(st.expanded[j]);
      assert st.expanded[j] in st.expanded;
      VisitedReachable(net, root, st, st.expanded[j]);
      assert Live(net, root, st.expanded[j]);
    }
  }

  // A path of expanded servers goes through no distributor of another.
  lemma OneMoreSure(net: Network, root: Server, st: State, q: seq<Server>, t: Server)
    requires RunEnds(net, root, st) && Dedicated(net, root)
    requires net.Path(q) && q[0] == root && t in net.Next(q[|q| - 1])
    requires forall k :: 0 <= k < |q| ==> q[k] in st.expanded
    ensures Sure(net, root, t)
  {
    var p := q + [t];
    forall k | 0 < k < |p| - 1
      ensures !Foreign(net, root, p[k])
    {
      assert p[k] == q[k];
      ExpandedNotForeign(net, root, st, q[k]);
    }
    assert SurePath(net, root, p) && p[|p| - 1] == t;
  }

  // With dedicated distributors, exactly what can be reached around them is visited.
  lemma DedicatedVisits(net: Network, root: Server, st: State, t: Server)
    requires RunEnds(net, root, st) && Dedicated(net, root)
    ensures t in st.visited <==> Sure(net, root, t)
  {
    if p :| SurePath(net, root, p) && p[|p| - 1] == t {
      SureVisited(net, root, st, p, |p| - 1);
    }
    if t in st.visited {
      if t == root {
        assert SurePath(net, root, [root]) && [root][|[root]| - 1] == t;
      } else {
        assert LedTo(net, st.expanded, t);
        var s :| s in st.expanded && t in net.Next(s);
        var i :| 0 <= i < |st.expanded| && st.expanded[i] == s;
        var q := ExpandedSure(net, root, st, i);
        OneMoreSure(net, root, st, q, t);
      }
    }
  }

  // Main result for dedicated distributors: the condition known before the run is then exact.
  lemma DedicatedVisitsAllIff(net: Network, root: Server, st: State)
    requires RunEnds(net, root, st) && Dedicated(net, root)
    ensures VisitsAll(net, root, st) <==> AroundDistributors(net, root)
  {
    if AroundDistributors(net, root) {
      VisitsAllWhen(net, root, st);
    }
    if VisitsAll(net, root, st) {
      forall d, t | Foreign(net, root, d) && t in net.Next(d)
        ensures Sure(net, root, t)
      {
        var u :| Live(net, root, u) && u != d && net.distributor(u) == Some(d);
        ReachOn(net, root, u, d);
        ReachOn(net, root, d, t);
        DedicatedVisits(net, root, st, t);
      }
    }
  }

  // ---------- a reachable server that every run misses ----------

  function Rows(from: Server, to: Server): seq<Row> {
    [Row(from, "db", to, "db")]
  }

  function HiddenBehindDistributor(): Network {
    Network(
      (s, c) => true, [Credential("u", "p")],
      s => if s == "D" then Rows("D", "T") else [],
      s => if s == "A" then Some("D") else None,
      s => [])
  }

  // A's distributor D ships to T, but D is marked before anyone expands it: T is never visited.
  lemma MissesBehindDistributor()
    ensures exists net: Network, root, t ::
              net.Reaches(root, t) && forall st :: RunEnds(net, root, st) ==> t !in st.visited
  {
    var net := HiddenBehindDistributor();
    assert net.credentials[0] in net.credentials;
    assert net.shipping("D")[0] in net.shipping("D");
    ReachSelf(net, "A");
    ReachOn(net, "A", "A", "D");
    ReachOn(net, "A", "D", "T");
    forall st | RunEnds(net, "A", st)
      ensures "T" !in st.visited
    {
      HiddenStaysHidden(st);
    }
  }

  lemma HiddenStaysHidden(st: State)
    requires RunEnds(HiddenBehindDistributor(), "A", st)
    ensures "T" !in st.visited
  {
    var net := HiddenBehindDistributor();
    forall i | 0 <= i < |st.expanded|
      ensures st.expanded[i] == "A"
    {
      OnlyRoot(net, st, i);
    }
    assert !LedTo(net, st.expanded, "T");
  }

  lemma {:induction false} OnlyRoot(net: Network, st: State, i: nat)
    requires RunEnds(net, "A", st) && i < |st.expanded| && net.Called("A") == {}
    ensures st.expanded[i] == "A"
  {
    if st.expanded[i] != "A" {
      assert CalledBefore(net, st.expanded, i, st.expanded[i]);
      var j :| 0 <= j < i && st.expanded[i] in net.Called(st.expanded[j]);
      OnlyRoot(net, st, j);
      assert false;
    }
  }

  // ---------- what the report says ----------

  // An unreachable server is always reported, with its own error; a server that connected is reported
  // only if its own distributor refuses the connection, and then always unless it is itself somebody's
  // distributor, whose later connection may overwrite the error.
  lemma ReportedIff(net: Network, root: Server, st: State, v: Server)
    requires RunEnds(net, root, st) && v in st.visited
    ensures !net.Up(v) ==> st.visited[v] == Failed(v)
    ensures net.Up(v) && st.visited[v].Failed? ==> net.distributor(v).Some? && !net.Up(net.distributor(v).value)
    ensures net.Up(v) && !IsDistributor(net, st.expanded, v) ==>
              (st.visited[v].Failed? <==> net.distributor(v).Some? && !net.Up(net.distributor(v).value))
  {
    assert Explained(net, st, v);
    assert v in st.expanded ==> Finished(net, st, v);
  }

  // So the report is wrong about a server that connected while its distributor was down: the error
  // overwrites the connection, and the distributor itself is not reported at all.
  lemma ReportsAConnectedServer()
    ensures exists net: Network, root, d ::
              && net.Up(root) && !net.Up(d)
              && forall st :: RunEnds(net, root, st) ==> st.visited[root] == Failed(d) && d !in st.visited
  {
    var cred := Credential("u", "p");
    var net := Network((s, c) => s == "A", [cred], s => [], s => if s == "A" then Some("D") else None, s => []);
    assert cred in net.credentials;
    assert net.Up("A") && !net.Up("D");
    forall st | RunEnds(net, "A", st)
      ensures st.visited["A"] == Failed("D") && "D" !in st.visited
    {
      ReportedIff(net, "A", st, "A");
      assert Explained(net, st, "A");
      assert !IsDistributor(net, st.expanded, "A") && !LedTo(net, st.expanded, "D");
    }
  }

  // The graph holds exactly the lineage of the expanded servers.
  lemma GraphIsLineage(net: Network, root: Server, st: State, l: Link)
    requires RunEnds(net, root, st)
    ensures l in st.graph <==> exists s :: s in st.expanded && l in net.LinksOf(s)
  {
    assert l in st.graph ==> Owed(net, st.expanded, l);
    if s :| s in st.expanded && l in net.LinksOf(s) {
      assert Finished(net, st, s);
    }
  }
}
