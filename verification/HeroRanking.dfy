// The sorted hero rankings of xampp/www/doubleLink.php and xampp/www/singleLink.php as sequences:
// what the two linked lists implement.

module HeroRanking {
  datatype Entry = Entry(no: int, name: string, nickname: string)

  // Strictly increasing numbers.
  predicate Sorted(s: seq<Entry>) {
    forall i, j :: 0 <= i < j < |s| ==> s[i].no < s[j].no
  }

  // Added at its place, unless the number is taken.
  function Insert(s: seq<Entry>, e: Entry): seq<Entry> {
    if s == [] || s[0].no > e.no then [e] + s
    else if s[0].no == e.no then s
    else [s[0]] + Insert(s[1..], e)
  }

  function Remove(s: seq<Entry>, no: int): seq<Entry> {
    if s == [] then []
    else if s[0].no == no then s[1..]
    else [s[0]] + Remove(s[1..], no)
  }

  function Update(s: seq<Entry>, e: Entry): seq<Entry> {
    if s == [] then []
    else if s[0].no == e.no then [e] + s[1..]
    else [s[0]] + Update(s[1..], e)
  }

  // ---------- where the loops stop ----------

  lemma {:induction false} InsertAt(s: seq<Entry>, e: Entry, i: nat)
    requires i <= |s|
    requires forall j :: 0 <= j < i ==> s[j].no < e.no
    requires i < |s| ==> s[i].no > e.no
    ensures Insert(s, e) == s[..i] + [e] + s[i..]
  {
    if i > 0 {
      InsertAt(s[1..], e, i - 1);
      assert s == [s[0]] + s[1..];
    }
  }

  lemma {:induction false} InsertTaken(s: seq<Entry>, e: Entry, i: nat)
    requires i < |s| && s[i].no == e.no
    requires forall j :: 0 <= j < i ==> s[j].no < e.no
    ensures Insert(s, e) == s
  {
    if i > 0 {
      InsertTaken(s[1..], e, i - 1);
    }
  }

  lemma {:induction false} RemoveAt(s: seq<Entry>, no: int, i: nat)
    requires i <= |s| && forall j :: 0 <= j < i ==> s[j].no != no
    ensures i == |s| ==> Remove(s, no) == s
    ensures i < |s| && s[i].no == no ==> Remove(s, no) == s[..i] + s[i + 1..]
  {
    if i > 0 {
      RemoveAt(s[1..], no, i - 1);
    }
  }

  lemma {:induction false} UpdateAt(s: seq<Entry>, e: Entry, i: nat)
    requires i <= |s| && forall j :: 0 <= j < i ==> s[j].no != e.no
    ensures i == |s| ==> Update(s, e) == s
    ensures i < |s| && s[i].no == e.no ==> Update(s, e) == s[i := e]
  {
    if i > 0 {
      UpdateAt(s[1..], e, i - 1);
    }
  }

  // ---------- a ranking is a finite map, and the map determines it ----------

  function Abs(s: seq<Entry>): map<int, Entry> {
    if s == [] then map[] else Abs(s[1..])[s[0].no := s[0]]
  }

  lemma SortedTail(s: seq<Entry>)
    requires Sorted(s) && s != []
    ensures Sorted(s[1..]) && forall k :: k in Abs(s[1..]) ==> s[0].no < k
  {
    AbsEntries(s[1..]);
  }

  lemma {:induction false} AbsEntries(s: seq<Entry>)
    ensures forall k :: k in Abs(s) ==> Abs(s)[k].no == k && Abs(s)[k] in s
    ensures forall i :: 0 <= i < |s| ==> s[i].no in Abs(s)
  {
    if s != [] {
      AbsEntries(s[1..]);
      assert forall i :: 0 < i < |s| ==> s[i] == s[1..][i - 1];
    }
  }

  lemma SortedCons(e: Entry, s: seq<Entry>)
    requires Sorted(s) && (s != [] ==> e.no < s[0].no)
    ensures Sorted([e] + s)
  {
  }

  lemma AbsCons(e: Entry, s: seq<Entry>)
    ensures Abs([e] + s) == Abs(s)[e.no := e]
  {
    assert ([e] + s)[1..] == s;
  }

  // The head of the ranking after an insertion.
  lemma InsertHead(s: seq<Entry>, e: Entry)
    ensures var r := Insert(s, e);
            r != [] && (if s != [] && s[0].no <= e.no then r[0] == s[0] else r[0] == e)
  {
  }

  // Insert-if-absent.
  lemma {:induction false} InsertMap(s: seq<Entry>, e: Entry)
    requires Sorted(s)
    ensures Sorted(Insert(s, e))
    ensures Abs(Insert(s, e)) == if e.no in Abs(s) then Abs(s) else Abs(s)[e.no := e]
  {
    if s == [] {
      assert Insert(s, e) == [e] + s;
      AbsCons(e, s);
    } else {
      SortedTail(s);
      if s[0].no > e.no {
        SortedCons(e, s);
        AbsCons(e, s);
      } else if s[0].no < e.no {
        InsertMap(s[1..], e);
        InsertHead(s[1..], e);
        SortedCons(s[0], Insert(s[1..], e));
        AbsCons(s[0], Insert(s[1..], e));
      }
    }
  }

  lemma {:induction false} RemoveMap(s: seq<Entry>, no: int)
    requires Sorted(s)
    ensures var r := Remove(s, no);
            && Sorted(r) && Abs(r) == Abs(s) - {no}
            && (r != [] ==> s != [] && s[0].no <= r[0].no)
  {
    if s != [] {
      SortedTail(s);
      if s[0].no != no {
        RemoveMap(s[1..], no);
        var t := Remove(s[1..], no);
        SortedCons(s[0], t);
        assert ([s[0]] + t)[1..] == t;
      }
    }
  }

  lemma {:induction false} UpdateMap(s: seq<Entry>, e: Entry)
    requires Sorted(s)
    ensures var r := Update(s, e);
            && Sorted(r) && Abs(r) == (if e.no in Abs(s) then Abs(s)[e.no := e] else Abs(s))
            && |r| == |s| && (s != [] ==> r[0].no == s[0].no)
  {
    if s != [] {
      SortedTail(s);
      if s[0].no == e.no {
        assert ([e] + s[1..])[1..] == s[1..];
      } else {
        UpdateMap(s[1..], e);
        var t := Update(s[1..], e);
        SortedCons(s[0], t);
        assert ([s[0]] + t)[1..] == t;
      }
    }
  }

  // Two rankings with the same map are the same ranking.
  lemma {:induction false} MapDetermines(s: seq<Entry>, t: seq<Entry>)
    requires Sorted(s) && Sorted(t) && Abs(s) == Abs(t)
    ensures s == t
  {
    AbsEntries(s);
    AbsEntries(t);
    if s != [] && t != [] {
      HeadIsLeast(s);
      HeadIsLeast(t);
      assert s[0].no in Abs(t) && t[0].no in Abs(s);
      MapDetermines(s[1..], t[1..]);
    }
  }

  lemma HeadIsLeast(s: seq<Entry>)
    requires Sorted(s) && s != []
    ensures Sorted(s[1..]) && Abs(s[1..]) == Abs(s) - {s[0].no} && Abs(s)[s[0].no] == s[0]
    ensures forall k :: k in Abs(s) ==> s[0].no <= k
  {
    SortedTail(s);
  }

  // ---------- whole histories ----------

  datatype Op = Add(e: Entry) | Del(no: int) | Put(e: Entry)

  function Perform(s: seq<Entry>, op: Op): seq<Entry> {
    match op
    case Add(e) => Insert(s, e)
    case Del(no) => Remove(s, no)
    case Put(e) => Update(s, e)
  }

  function MapPerform(m: map<int, Entry>, op: Op): map<int, Entry> {
    match op
    case Add(e) => if e.no in m then m else m[e.no := e]
    case Del(no) => m - {no}
    case Put(e) => if e.no in m then m[e.no := e] else m
  }

  function Replay(ops: seq<Op>): seq<Entry> {
    if ops == [] then [] else Perform(Replay(ops[..|ops| - 1]), ops[|ops| - 1])
  }

  function MapReplay(ops: seq<Op>): map<int, Entry> {
    if ops == [] then map[] else MapPerform(MapReplay(ops[..|ops| - 1]), ops[|ops| - 1])
  }

  // Main result: after any history the ranking is strictly sorted and is the map that insert-if-absent,
  // remove and update-if-present make.
  lemma {:induction false} HistoryIsMap(ops: seq<Op>)
    ensures Sorted(Replay(ops)) && Abs(Replay(ops)) == MapReplay(ops)
  {
    if ops != [] {
      HistoryIsMap(ops[..|ops| - 1]);
      var s := Replay(ops[..|ops| - 1]);
      match ops[|ops| - 1]
      case Add(e) => InsertMap(s, e);
      case Del(no) => RemoveMap(s, no);
      case Put(e) => UpdateMap(s, e);
    }
  }

  // Adding a new number and deleting it again restores the ranking.
  lemma AddThenDelete(s: seq<Entry>, e: Entry)
    requires Sorted(s) && e.no !in Abs(s)
    ensures Remove(Insert(s, e), e.no) == s
  {
    InsertMap(s, e);
    RemoveMap(Insert(s, e), e.no);
    assert Abs(s)[e.no := e] - {e.no} == Abs(s);
    MapDetermines(Remove(Insert(s, e), e.no), s);
  }

  // Adding a number already taken changes nothing, so deleting it afterwards is not an undo: it
  // restores the ranking exactly when the number was new.
  lemma AddThenDeleteIff(s: seq<Entry>, e: Entry)
    requires Sorted(s)
    ensures Remove(Insert(s, e), e.no) == s <==> e.no !in Abs(s)
  {
    InsertMap(s, e);
    RemoveMap(Insert(s, e), e.no);
    if e.no !in Abs(s) {
      AddThenDelete(s, e);
    }
  }
}
