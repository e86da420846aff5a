// The singly linked ranking of xampp/www/singleLink.php: it also has updates.

module SingleLink {
  import opened HeroRanking

  class Hero {
    const no: int
    var name: string
    var nickname: string
    var next: Hero?

    constructor (no: int, name: string, nickname: string)
      ensures this.no == no && this.name == name && this.nickname == nickname && next == null
    {
      this.no, this.name, this.nickname, this.next := no, name, nickname, null;
    }

    function ToEntry(): Entry
      reads this
    {
      Entry(no, name, nickname)
    }
  }

  ghost function Entries(nodes: seq<Hero>): seq<Entry>
    requires nodes != []
    reads nodes
  {
    seq(|nodes| - 1, i requires 0 <= i < |nodes| - 1 reads nodes => nodes[i + 1].ToEntry())
  }

  ghost predicate Linked(nodes: seq<Hero>)
    reads nodes
  {
    && nodes != []
    && (forall i, j :: 0 <= i < j < |nodes| ==> nodes[i] != nodes[j])
    && (forall i :: 0 <= i < |nodes| - 1 ==> nodes[i].next == nodes[i + 1])
    && nodes[|nodes| - 1].next == null
  }

  // Unlike the doubly linked version this one overwrites the hero's old `next` in every case.
  method AddHero(head: Hero, hero: Hero, ghost nodes: seq<Hero>) returns (ghost after: seq<Hero>)
    requires Linked(nodes) && nodes[0] == head && hero !in nodes && Sorted(Entries(nodes))
    modifies nodes, hero
    ensures Linked(after) && after[0] == head
    ensures Entries(after) == Insert(old(Entries(nodes)), old(hero.ToEntry()))
    ensures forall i :: 0 <= i < |after| ==> after[i] in nodes || after[i] == hero
  {
    var cur := head;
    var flag := false;
    ghost var at := 0;
    ghost var s := Entries(nodes);
    while cur.next != null
      invariant 0 <= at < |nodes| && cur == nodes[at]
      invariant forall j :: 0 <= j < at ==> if flag then s[j].no <= hero.no else s[j].no < hero.no
      invariant flag ==> exists j :: 0 <= j < at && s[j].no == hero.no
      decreases |nodes| - at
    {
      assert at < |nodes| - 1 && cur.next == nodes[at + 1] && s[at] == cur.next.ToEntry();
      if cur.next.no > hero.no {
        break;
      } else if cur.next.no == hero.no {
        flag := true;
      }
      cur := cur.next;
      at := at + 1;
    }
    if !flag {
      InsertAt(s, hero.ToEntry(), at);
      after := LinkAfter(cur, hero, nodes, at);
    } else {
      after := nodes;
      ghost var j :| 0 <= j < at && s[j].no == hero.no;
      InsertTaken(s, hero.ToEntry(), j);
    }
  }

  method LinkAfter(cur: Hero, hero: Hero, ghost nodes: seq<Hero>, ghost at: nat) returns (ghost after: seq<Hero>)
    requires Linked(nodes) && at < |nodes| && cur == nodes[at] && hero !in nodes
    modifies nodes, hero
    ensures after == nodes[..at + 1] + [hero] + nodes[at + 1..] && Linked(after)
    ensures var s := old(Entries(nodes));
            Entries(after) == s[..at] + [old(hero.ToEntry())] + s[at..]
  {
    assert cur.next == if at < |nodes| - 1 then nodes[at + 1] else null;
    ghost var s := Entries(nodes);
    hero.next := cur.next;
    cur.next := hero;
    after := nodes[..at + 1] + [hero] + nodes[at + 1..];
    assert forall i :: 0 <= i <= at ==> after[i] == nodes[i];
    assert forall i :: at + 1 < i < |after| ==> after[i] == nodes[i - 1];
    assert Entries(nodes) == s;
    SplicedEntries(nodes, hero, at);
  }

  lemma SplicedEntries(nodes: seq<Hero>, hero: Hero, at: nat)
    requires at < |nodes|
    ensures var s := Entries(nodes);
            Entries(nodes[..at + 1] + [hero] + nodes[at + 1..]) == s[..at] + [hero.ToEntry()] + s[at..]
  {
  }

  lemma CutEntries(nodes: seq<Hero>, at: nat)
    requires at < |nodes| - 1
    ensures var s := Entries(nodes);
            Entries(nodes[..at + 1] + nodes[at + 2..]) == s[..at] + s[at + 1..]
  {
  }

  method DelHero(head: Hero, herono: int, ghost nodes: seq<Hero>) returns (ghost after: seq<Hero>)
    requires Linked(nodes) && nodes[0] == head
    modifies nodes
    ensures Linked(after) && after[0] == head
    ensures Entries(after) == Remove(old(Entries(nodes)), herono)
    ensures forall i :: 0 <= i < |after| ==> after[i] in nodes
  {
    var cur := head;
    var flag := false;
    ghost var at := 0;
    ghost var s := Entries(nodes);
    while cur.next != null
      invariant 0 <= at < |nodes| && cur == nodes[at] && !flag
      invariant forall j :: 0 <= j < at ==> s[j].no != herono
      decreases |nodes| - at
    {
      assert at < |nodes| - 1 && cur.next == nodes[at + 1] && s[at] == cur.next.ToEntry();
      if cur.next.no == herono {
        flag := true;
        break;
      }
      cur := cur.next;
      at := at + 1;
    }
    RemoveAt(s, herono, at);
    if flag {
      after := UnlinkAfter(cur, nodes, at);
    } else {
      after := nodes;
    }
  }

  method UnlinkAfter(cur: Hero, ghost nodes: seq<Hero>, ghost at: nat) returns (ghost after: seq<Hero>)
    requires Linked(nodes) && at < |nodes| - 1 && cur == nodes[at]
    modifies nodes
    ensures after == nodes[..at + 1] + nodes[at + 2..] && Linked(after)
    ensures var s := old(Entries(nodes));
            Entries(after) == s[..at] + s[at + 1..]
  {
    assert nodes[at + 1].next == if at < |nodes| - 2 then nodes[at + 2] else null;
    ghost var s := Entries(nodes);
    cur.next := cur.next.next;
    after := nodes[..at + 1] + nodes[at + 2..];
    assert forall i :: 0 <= i <= at ==> after[i] == nodes[i];
    assert forall i :: at < i < |after| ==> after[i] == nodes[i + 1];
    assert Entries(nodes) == s;
    CutEntries(nodes, at);
  }

  // Only the names change; the number stays.
  method UpdateHero(head: Hero, hero: Hero, ghost nodes: seq<Hero>)
    requires Linked(nodes) && nodes[0] == head && hero !in nodes
    modifies nodes
    ensures Linked(nodes)
    ensures Entries(nodes) == Update(old(Entries(nodes)), hero.ToEntry())
  {
    var cur := head;
    ghost var at := 0;
    ghost var s := Entries(nodes);
    while cur.next != null
      invariant 0 <= at < |nodes| && cur == nodes[at]
      invariant forall j :: 0 <= j < at ==> s[j].no != hero.no
      decreases |nodes| - at
    {
      assert at < |nodes| - 1 && cur.next == nodes[at + 1] && s[at] == cur.next.ToEntry();
      if cur.next.no == hero.no {
        break;
      }
      cur := cur.next;
      at := at + 1;
    }
    UpdateAt(s, hero.ToEntry(), at);
    if cur.next != null {
      assert cur.next == nodes[at + 1];
      cur.next.name := hero.name;
      cur.next.nickname := hero.nickname;
      assert Entries(nodes) == s[at := hero.ToEntry()];
    }
  }

  method ShowHeros(head: Hero, ghost nodes: seq<Hero>) returns (out: seq<Entry>)
    requires Linked(nodes) && nodes[0] == head
    ensures out == Entries(nodes)
  {
    var cur := head;
    out := [];
    ghost var at := 0;
    while cur.next != null
      invariant 0 <= at < |nodes| && cur == nodes[at]
      invariant at < |nodes| - 1 ==> cur.next == nodes[at + 1]
      invariant out == Entries(nodes)[..at]
      decreases |nodes| - at
    {
      out := out + [cur.next.ToEntry()];
      cur := cur.next;
      at := at + 1;
    }
    assert at == |nodes| - 1;
  }

  // Any history of additions of fresh heroes, deletions and updates, starting from the bare head.
  method Manage(ops: seq<Op>) returns (head: Hero, ghost nodes: seq<Hero>)
    ensures Linked(nodes) && nodes[0] == head && fresh(nodes)
    ensures Entries(nodes) == Replay(ops)
  {
    head := new Hero(0, "", "");
    nodes := [head];
    for i := 0 to |ops|
      invariant Linked(nodes) && nodes[0] == head && fresh(nodes)
      invariant Entries(nodes) == Replay(ops[..i])
    {
      assert ops[..i + 1][..i] == ops[..i];
      HistoryIsMap(ops[..i]);
      match ops[i]
      case Add(e) =>
        var hero := new Hero(e.no, e.name, e.nickname);
        nodes := AddHero(head, hero, nodes);
      case Del(no) =>
        nodes := DelHero(head, no, nodes);
      case Put(e) =>
        var hero := new Hero(e.no, e.name, e.nickname);
        UpdateHero(head, hero, nodes);
    }
    assert ops[..|ops|] == ops;
  }
}
