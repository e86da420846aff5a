// The doubly linked ranking of xampp/www/doubleLink.php.

module DoubleLink {
  import opened HeroRanking

  class Hero {
    var pre: Hero?
    const no: int
    const name: string
    const nickname: string
    var next: Hero?

    constructor (no: int, name: string, nickname: string)
      ensures this.no == no && this.name == name && this.nickname == nickname
      ensures pre == null && next == null
    {
      this.no, this.name, this.nickname := no, name, nickname;
      this.pre, this.next := null, null;
    }

    function ToEntry(): Entry {
      Entry(no, name, nickname)
    }
  }

  // The head's own number is never looked at.
  function Entries(nodes: seq<Hero>): seq<Entry>
    requires nodes != []
  {
    seq(|nodes| - 1, i requires 0 <= i < |nodes| - 1 => nodes[i + 1].ToEntry())
  }

  // Distinct nodes behind the head, `pre` and `next` mutually inverse; only the last `next` is left open.
  ghost predicate Threaded(nodes: seq<Hero>)
    reads nodes
  {
    && nodes != []
    && (forall i, j :: 0 <= i < j < |nodes| ==> nodes[i] != nodes[j])
    && (forall i :: 0 <= i < |nodes| - 1 ==> nodes[i].next == nodes[i + 1])
    && (forall i :: 0 < i < |nodes| ==> nodes[i].pre == nodes[i - 1])
  }

  ghost predicate Linked(nodes: seq<Hero>)
    reads nodes
  {
    Threaded(nodes) && nodes[|nodes| - 1].next == null
  }

  // A hero appended at the end keeps whatever `next` it had before.
  predicate Appended(s: seq<Entry>, e: Entry) {
    forall i :: 0 <= i < |s| ==> s[i].no < e.no
  }

  method AddHero(head: Hero, hero: Hero, ghost nodes: seq<Hero>) returns (ghost after: seq<Hero>)
    requires Linked(nodes) && nodes[0] == head && hero !in nodes && Sorted(Entries(nodes))
    modifies nodes, hero
    ensures Threaded(after) && after[0] == head
    ensures Entries(after) == Insert(Entries(nodes), hero.ToEntry())
    ensures forall i :: 0 <= i < |after| ==> after[i] in nodes || after[i] == hero
    ensures Linked(after) <==> Appended(Entries(nodes), hero.ToEntry()) ==> old(hero.next) == null
  {
    var cur := head;
    var isExist := false;
    ghost var at := 0;
    ghost var s := Entries(nodes);
    while cur.next != null
      invariant 0 <= at < |nodes| && cur == nodes[at]
      invariant forall j :: 0 <= j < at ==> if isExist then s[j].no <= hero.no else s[j].no < hero.no
      invariant isExist ==> exists j :: 0 <= j < at && s[j].no == hero.no
      invariant Linked(nodes)
      decreases |nodes| - at
    {
      assert at < |nodes| - 1 && cur.next == nodes[at + 1] && s[at] == cur.next.ToEntry();
      if cur.next.no > hero.no {
        break;
      } else if cur.next.no == hero.no {
        isExist := true;
      }
      cur := cur.next;
      at := at + 1;
    }
    if !isExist {
      InsertAt(s, hero.ToEntry(), at);
      after := LinkAfter(cur, hero, nodes, at);
    } else {
      after := nodes;
      ghost var j :| 0 <= j < at && s[j].no == hero.no;
      InsertTaken(s, hero.ToEntry(), j);
    }
  }

  // Links a hero in behind `cur`; the last node's `next` stays open when there is nothing behind.
  method LinkAfter(cur: Hero, hero: Hero, ghost nodes: seq<Hero>, ghost at: nat) returns (ghost after: seq<Hero>)
    requires Linked(nodes) && at < |nodes| && cur == nodes[at] && hero !in nodes
    modifies nodes, hero
    ensures after == nodes[..at + 1] + [hero] + nodes[at + 1..] && Threaded(after)
    ensures after[|after| - 1].next == if at == |nodes| - 1 then old(hero.next) else null
    ensures var s := Entries(nodes);
            Entries(after) == s[..at] + [hero.ToEntry()] + s[at..]
  {
    assert at < |nodes| - 1 ==> cur.next == nodes[at + 1];
    if cur.next != null {
      hero.next := cur.next;
    }
    hero.pre := cur;
    if cur.next != null {
      cur.next.pre := hero;
    }
    cur.next := hero;
    after := nodes[..at + 1] + [hero] + nodes[at + 1..];
    assert forall i :: 0 <= i <= at ==> after[i] == nodes[i];
    assert forall i :: at + 1 < i < |after| ==> after[i] == nodes[i - 1];
    SplicedEntries(nodes, hero, at);
  }

  lemma SplicedEntries(nodes: seq<Hero>, hero: Hero, at: nat)
    requires at < |nodes|
    ensures var s := Entries(nodes);
            Entries(nodes[..at + 1] + [hero] + nodes[at + 1..]) == s[..at] + [hero.ToEntry()] + s[at..]
  {
  }

  method DelHero(head: Hero, herono: int, ghost nodes: seq<Hero>) returns (ghost after: seq<Hero>)
    requires Linked(nodes) && nodes[0] == head
    modifies nodes
    ensures Linked(after) && after[0] == head
    ensures Entries(after) == Remove(Entries(nodes), herono)
    ensures forall i :: 0 <= i < |after| ==> after[i] in nodes
  {
    var cur := head.next;
    var isFind := false;
    ghost var at := 0;
    ghost var s := Entries(nodes);
    while cur != null
      invariant 0 <= at < |nodes| && cur == nodes[at].next
      invariant forall j :: 0 <= j < at ==> s[j].no != herono
      invariant Linked(nodes) && !isFind
      decreases |nodes| - at
    {
      if cur.no == herono {
        isFind := true;
        break;
      }
      cur := cur.next;
      at := at + 1;
    }
    RemoveAt(s, herono, at);
    if isFind {
      after := Unlink(cur, nodes, at + 1);
    } else {
      after := nodes;
    }
  }

  method Unlink(cur: Hero, ghost nodes: seq<Hero>, ghost at: nat) returns (ghost after: seq<Hero>)
    requires Linked(nodes) && 0 < at < |nodes| && cur == nodes[at]
    modifies nodes
    ensures after == nodes[..at] + nodes[at + 1..] && Linked(after)
    ensures var s := Entries(nodes);
            Entries(after) == s[..at - 1] + s[at..]
  {
    assert cur.next == if at < |nodes| - 1 then nodes[at + 1] else null;
    assert cur.pre == nodes[at - 1];
    if cur.next != null {
      cur.next.pre := cur.pre;
    }
    cur.pre.next := cur.next;
    after := nodes[..at] + nodes[at + 1..];
    assert forall i :: 0 <= i < at ==> after[i] == nodes[i];
    assert forall i :: at <= i < |after| ==> after[i] == nodes[i + 1];
  }

  method ShowHero(head: Hero, ghost nodes: seq<Hero>) returns (out: seq<Entry>)
    requires Linked(nodes) && nodes[0] == head
    ensures out == Entries(nodes)
  {
    var cur := head;
    out := [];
    ghost var at := 0;
    while cur.next != null
      invariant 0 <= at < |nodes| && cur == nodes[at]
      invariant at < |nodes| - 1 ==> cur.next == nodes[at + 1]
      invariant out == Entries(nodes)[..at]
      decreases |nodes| - at
    {
      out := out + [cur.next.ToEntry()];
      cur := cur.next;
      at := at + 1;
    }
    assert at == |nodes| - 1;
  }

  // Any history of additions of fresh heroes and deletions, starting from the bare head.
  method Manage(ops: seq<Op>) returns (head: Hero, ghost nodes: seq<Hero>)
    requires forall op :: op in ops ==> !op.Put?
    ensures Linked(nodes) && nodes[0] == head && fresh(nodes)
    ensures Entries(nodes) == Replay(ops)
  {
    head := new Hero(0, "", "");
    nodes := [head];
    for i := 0 to |ops|
      invariant Linked(nodes) && nodes[0] == head && fresh(nodes)
      invariant Entries(nodes) == Replay(ops[..i])
    {
      assert ops[..i + 1][..i] == ops[..i] && ops[i] in ops;
      HistoryIsMap(ops[..i]);
      match ops[i]
      case Add(e) =>
        var hero := new Hero(e.no, e.name, e.nickname);
        nodes := AddHero(head, hero, nodes);
      case Del(no) =>
        nodes := DelHero(head, no, nodes);
    }
    assert ops[..|ops|] == ops;
  }
}
