// Partition governance of gpdb/cron/archive_partition.py: drop empty partitions created too far
// ahead, create the missing ones, drop empty partitions from the head.
//
// Times are whole microseconds and one clock reading serves a whole run.

module Governance {
  const DAY := 86_400_000_000
  const MAX_AHEAD := 365 * DAY

  datatype Row = Row(key: int, payload: string)

  datatype Part = Part(start: int, end: int, rows: seq<Row>, cold: bool) {
    function Interval(): int {
      end - start
    }
  }

  // The range partitions in rank order, and the rows of the default partition.
  datatype State = State(parts: seq<Part>, extra: seq<Row>)

  function Last<T>(s: seq<T>): T
    requires s != []
  {
    s[|s| - 1]
  }

  // ---------- the checks ----------

  predicate NeedClean(p: Part, now: int) {
    p.end - now > 20 * p.Interval() || p.end - now > MAX_AHEAD
  }

  predicate NeedPrecreate(p: Part, now: int) {
    p.end - now < 20 * p.Interval() && p.end - now < MAX_AHEAD
  }

  predicate CanArchive(p: Part, now: int, days: int) {
    p.end < now - days * DAY
  }

  // How far ahead of the clock the list should end.
  function Horizon(interval: int): int {
    if 20 * interval < MAX_AHEAD then 20 * interval else MAX_AHEAD
  }

  // ---------- SPLIT DEFAULT PARTITION ----------

  function Within(rows: seq<Row>, start: int, end: int): seq<Row> {
    if rows == [] then []
    else (if start <= rows[0].key < end then [rows[0]] else []) + Within(rows[1..], start, end)
  }

  function Outside(rows: seq<Row>, start: int, end: int): seq<Row> {
    if rows == [] then []
    else (if start <= rows[0].key < end then [] else [rows[0]]) + Outside(rows[1..], start, end)
  }

  function Split(st: State, start: int, end: int): State {
    State(st.parts + [Part(start, end, Within(st.extra, start, end), false)], Outside(st.extra, start, end))
  }

  // ---------- one run as a function ----------

  function TrimTail(parts: seq<Part>, now: int): seq<Part> {
    if parts != [] && NeedClean(Last(parts), now) && Last(parts).rows == []
    then TrimTail(parts[..|parts| - 1], now)
    else parts
  }

  function TrimHead(parts: seq<Part>): seq<Part> {
    if parts != [] && parts[0].rows == [] then TrimHead(parts[1..]) else parts
  }

  // The range the new partition copies: right after `latest`, as long as `latest`.
  function Following(latest: Part): Part {
    Part(latest.end, latest.end + latest.Interval(), [], false)
  }

  function Ahead(latest: Part, now: int): int {
    Horizon(latest.Interval()) - (latest.end - now)
  }

  function Precreate(st: State, latest: Part, now: int): State
    requires latest.Interval() > 0
    decreases if Ahead(latest, now) > 0 then Ahead(latest, now) else 0
  {
    if NeedPrecreate(latest, now)
    then
      var next := Following(latest);
      Precreate(Split(st, next.start, next.end), next, now)
    else st
  }

  // The newest partition is the one listed before the first loop, even if that loop dropped it.
  function Governed(st: State, now: int): State
    requires st.parts != [] && Last(st.parts).Interval() > 0
  {
    var created := Precreate(st.(parts := TrimTail(st.parts, now)), Last(st.parts), now);
    created.(parts := TrimHead(created.parts))
  }

  function Reversed<T>(s: seq<T>): (r: seq<T>)
    ensures |r| == |s| && forall i :: 0 <= i < |s| ==> r[i] == s[|s| - 1 - i]
  {
    if s == [] then [] else [Last(s)] + Reversed(s[..|s| - 1])
  }

  // ---------- the table and the program ----------

  class Table {
    var parts: seq<Part>
    var extra: seq<Row>

    ghost function St(): State
      reads this
    {
      State(parts, extra)
    }

    // The listing excludes the default partition.
    method Subpartitions(descending: bool) returns (r: seq<Part>)
      ensures |r| == |parts|
      ensures forall i :: 0 <= i < |r| ==> r[i] == parts[if descending then |r| - 1 - i else i]
    {
      r := if descending then Reversed(parts) else parts;
    }

    // DROP PARTITION FOR (RANK(rank)): ranks count from 1 in range order.
    method DropRank(rank: int)
      requires 1 <= rank <= |parts|
      modifies this`parts
      ensures parts == old(parts)[..rank - 1] + old(parts)[rank..]
    {
      parts := parts[..rank - 1] + parts[rank..];
    }

    method SplitDefault(start: int, end: int)
      modifies this
      ensures St() == Split(old(St()), start, end)
    {
      parts := parts + [Part(start, end, Within(extra, start, end), false)];
      extra := Outside(extra, start, end);
    }

    method PrecreateSubpartition(p: Part) returns (next: Part)
      modifies this
      ensures next == Following(p)
      ensures St() == Split(old(St()), next.start, next.end)
    {
      next := Following(p);
      SplitDefault(next.start, next.end);
    }
  }

  lemma TrimTailStep(parts: seq<Part>, now: int)
    requires parts != [] && NeedClean(Last(parts), now) && Last(parts).rows == []
    ensures var n := |parts|;
            parts[..n - 1] + parts[n..] == parts[..n - 1] && TrimTail(parts, now) == TrimTail(parts[..n - 1], now)
  {
  }

  // The first loop. The rank passed to DROP is always that of the partition just tested.
  method CleanTail(t: Table, now: int)
    modifies t
    ensures t.St() == old(t.St()).(parts := TrimTail(old(t.parts), now))
  {
    var subpartitions := t.Subpartitions(true);
    var partRank := |subpartitions|;
    ghost var all := t.parts;
    var i := 0;
    while i < |subpartitions|
      invariant 0 <= i <= |all| && partRank == |all| - i
      invariant t.parts == all[..partRank] && t.extra == old(t.extra)
      invariant TrimTail(t.parts, now) == TrimTail(all, now)
    {
      var p := subpartitions[i];
      assert p == t.parts[partRank - 1] && partRank == |t.parts|;
      if !NeedClean(p, now) || p.rows != [] {
        break;
      }
      TrimTailStep(t.parts, now);
      t.DropRank(partRank);
      partRank := partRank - 1;
      i := i + 1;
    }
  }

  // The last loop: the partition just tested has rank 1.
  method CleanHead(t: Table)
    modifies t
    ensures t.St() == old(t.St()).(parts := TrimHead(old(t.parts)))
  {
    var subpartitions := t.Subpartitions(false);
    assert subpartitions == t.parts;
    var i := 0;
    while i < |subpartitions|
      invariant 0 <= i <= |subpartitions|
      invariant t.parts == subpartitions[i..] && t.extra == old(t.extra)
      invariant TrimHead(t.parts) == TrimHead(subpartitions)
    {
      var p := subpartitions[i];
      assert p == t.parts[0];
      if p.rows != [] {
        break;
      }
      t.DropRank(1);
      i := i + 1;
    }
  }

  // partition_governance for one table. An empty list raises IndexError: nothing is done.
  method Govern(t: Table, now: int) returns (ok: bool)
    requires t.parts != [] ==> Last(t.parts).Interval() > 0
    modifies t
    ensures ok <==> old(t.parts) != []
    ensures t.St() == if ok then Governed(old(t.St()), now) else old(t.St())
  {
    var subpartitions := t.Subpartitions(true);
    CleanTail(t, now);
    if subpartitions == [] {
      return false;
    }
    var latest := subpartitions[0];
    ghost var start := t.St();
    ghost var first := latest;
    while NeedPrecreate(latest, now)
      invariant latest.Interval() > 0
      invariant Precreate(t.St(), latest, now) == Precreate(start, first, now)
      decreases Ahead(latest, now)
    {
      latest := t.PrecreateSubpartition(latest);
    }
    CleanHead(t);
    return true;
  }

  // partition_governance: one table after the other, abandoned at the first without partitions.
  method GovernAll(tables: seq<Table>, now: int) returns (done: nat)
    requires forall i, j :: 0 <= i < j < |tables| ==> tables[i] != tables[j]
    requires forall t :: t in tables && t.parts != [] ==> Last(t.parts).Interval() > 0
    modifies tables
    ensures done <= |tables| && (done < |tables| ==> old(tables[done].parts) == [])
    ensures forall i :: 0 <= i < done ==>
              old(tables[i].parts) != [] && tables[i].St() == Governed(old(tables[i].St()), now)
    ensures forall i :: done <= i < |tables| ==> tables[i].St() == old(tables[i].St())
  {
    done := 0;
    while done < |tables|
      invariant done <= |tables|
      invariant forall i :: 0 <= i < done ==>
                  old(tables[i].parts) != [] && tables[i].St() == Governed(old(tables[i].St()), now)
      invariant forall i :: done <= i < |tables| ==> tables[i].St() == old(tables[i].St())
    {
      assert tables[done].St() == old(tables[done].St());
      var ok := Govern(tables[done], now);
      if !ok {
        return;
      }
      done := done + 1;
    }
  }

  // ---------- migration to the cold tablespace ----------

  function Frozen(p: Part): Part {
    p.(cold := true)
  }

  function FrozenPrefix(parts: seq<Part>, k: nat): seq<Part> {
    seq(|parts|, i requires 0 <= i < |parts| => if i < k then Frozen(parts[i]) else parts[i])
  }

  // The loop stops at the first partition that may not be archived.
  predicate StopsAt(parts: seq<Part>, now: int, days: int, k: nat) {
    && k <= |parts|
    && (forall i :: 0 <= i < k ==> CanArchive(parts[i], now, days))
    && (k < |parts| ==> !CanArchive(parts[k], now, days))
  }

  // partition_migrate for one table.
  method Migrate(t: Table, now: int, days: int) returns (migrated: nat)
    modifies t
    ensures StopsAt(old(t.parts), now, days, migrated)
    ensures t.St() == old(t.St()).(parts := FrozenPrefix(old(t.parts), migrated))
    ensures |t.parts| == |old(t.parts)| && forall i :: 0 <= i < |t.parts| ==>
              var p := old(t.parts)[i];
              t.parts[i] == if i < migrated then Part(p.start, p.end, p.rows, true) else p
  {
    var subpartitions := t.Subpartitions(false);
    assert subpartitions == t.parts;
    migrated := 0;
    while migrated < |subpartitions|
      invariant migrated <= |subpartitions| && t.extra == old(t.extra)
      invariant t.parts == FrozenPrefix(subpartitions, migrated)
      invariant forall i :: 0 <= i < migrated ==> CanArchive(subpartitions[i], now, days)
    {
      var p := subpartitions[migrated];
      if !CanArchive(p, now, days) {
        break;
      }
      if !p.cold {
        t.parts := t.parts[migrated := Frozen(p)];
      }
      migrated := migrated + 1;
    }
  }
}
