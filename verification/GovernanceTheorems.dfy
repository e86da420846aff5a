// What governance guarantees: structure, rows, horizon, and how repeated runs behave.

module GovernanceTheorems {
  import opened Governance

  // ---------- the invariants of a partitioned table ----------

  // Sorted, disjoint and gap-free, every interval positive.
  predicate Chain(parts: seq<Part>) {
    && (forall i :: 0 <= i < |parts| ==> parts[i].start < parts[i].end)
    && (forall i :: 0 <= i < |parts| - 1 ==> Meets(parts, i))
  }

  predicate Meets(parts: seq<Part>, i: nat)
    requires i < |parts| - 1
  {
    parts[i].end == parts[i + 1].start
  }

  predicate In(r: Row, p: Part) {
    p.start <= r.key < p.end
  }

  // Rows sit in the partition of their key; the default partition holds only the keys nobody covers.
  predicate Placed(st: State) {
    && (forall p, r :: p in st.parts && r in p.rows ==> In(r, p))
    && (forall p, r :: p in st.parts && r in st.extra ==> !In(r, p))
  }

  function RowsOf(parts: seq<Part>): multiset<Row> {
    if parts == [] then multiset{} else RowsOf(parts[..|parts| - 1]) + multiset(Last(parts).rows)
  }

  function AllRows(st: State): multiset<Row> {
    RowsOf(st.parts) + multiset(st.extra)
  }

  predicate Empty(parts: seq<Part>) {
    forall p :: p in parts ==> p.rows == []
  }

  lemma {:induction false} RowsOfAppend(a: seq<Part>, b: seq<Part>)
    ensures RowsOf(a + b) == RowsOf(a) + RowsOf(b)
  {
    if b == [] {
      assert a + b == a;
    } else {
      assert (a + b)[..|a + b| - 1] == a + b[..|b| - 1];
      RowsOfAppend(a, b[..|b| - 1]);
    }
  }

  lemma {:induction false} RowsOfEmpty(parts: seq<Part>)
    requires Empty(parts)
    ensures RowsOf(parts) == multiset{}
  {
    if parts != [] {
      RowsOfEmpty(parts[..|parts| - 1]);
      assert Last(parts) in parts;
    }
  }

  // In a chain a partition starts no earlier than any earlier one ends.
  lemma {:induction false} ChainSorted(parts: seq<Part>, i: nat, j: nat)
    requires Chain(parts) && i < j < |parts|
    ensures parts[i].end <= parts[j].start
    decreases j
  {
    assert Meets(parts, j - 1);
    if i + 1 < j {
      ChainSorted(parts, i, j - 1);
    }
  }

  // ---------- what the two drop loops remove ----------

  lemma SliceSnoc<T>(init: seq<T>, last: T, k: nat)
    requires k <= |init|
    ensures (init + [last])[..k] == init[..k] && (init + [last])[k..] == init[k..] + [last]
  {
  }

  lemma {:induction false} TrimTailDrops(parts: seq<Part>, now: int)
    ensures var k := |TrimTail(parts, now)|;
            && k <= |parts| && TrimTail(parts, now) == parts[..k]
            && (forall p :: p in parts[k..] ==> p.rows == [] && NeedClean(p, now))
            && (k > 0 ==> !NeedClean(parts[k - 1], now) || parts[k - 1].rows != [])
  {
    if parts != [] && NeedClean(Last(parts), now) && Last(parts).rows == [] {
      var init := parts[..|parts| - 1];
      TrimTailDrops(init, now);
      SliceSnoc(init, Last(parts), |TrimTail(init, now)|);
      assert parts == init + [Last(parts)];
    }
  }

  lemma {:induction false} TrimHeadDrops(parts: seq<Part>)
    ensures var k := |parts| - |TrimHead(parts)|;
            && 0 <= k && TrimHead(parts) == parts[k..] && Empty(parts[..k])
            && (k < |parts| ==> parts[k].rows != [])
  {
    if parts != [] && parts[0].rows == [] {
      TrimHeadDrops(parts[1..]);
      var k := |parts| - |TrimHead(parts)|;
      assert parts[..k] == [parts[0]] + parts[1..][..k - 1];
    }
  }

  // `subpartitions[0]` may be stale, but then it was too far ahead and nothing is created from it.
  lemma StaleIsHarmless(st: State, now: int)
    requires st.parts != [] && Last(st.parts).Interval() > 0
    ensures Precreate(st.(parts := TrimTail(st.parts, now)), Last(st.parts), now) ==
            if TrimTail(st.parts, now) == st.parts then Precreate(st, Last(st.parts), now)
            else st.(parts := TrimTail(st.parts, now))
  {
    TrimTailDrops(st.parts, now);
    var k := |TrimTail(st.parts, now)|;
    if k < |st.parts| {
      assert Last(st.parts) == st.parts[k..][|st.parts| - k - 1];
      assert NeedClean(Last(st.parts), now);
    }
  }

  // ---------- what pre-creation adds ----------

  lemma {:induction false} SplitRows(rows: seq<Row>, start: int, end: int)
    ensures multiset(Within(rows, start, end)) + multiset(Outside(rows, start, end)) == multiset(rows)
    ensures forall r :: r in Within(rows, start, end) <==> r in rows && start <= r.key < end
    ensures forall r :: r in Outside(rows, start, end) <==> r in rows && !(start <= r.key < end)
  {
    if rows != [] {
      SplitRows(rows[1..], start, end);
      assert rows == [rows[0]] + rows[1..];
    }
  }

  // Pre-creation continues from the last partition of the list.
  predicate Continues(st: State, latest: Part) {
    st.parts != [] && latest.end == Last(st.parts).end && latest.Interval() > 0
  }

  lemma SplitKeeps(st: State, latest: Part)
    requires Continues(st, latest) && Chain(st.parts)
    ensures var next := Following(latest);
            var r := Split(st, next.start, next.end);
            && Continues(r, next) && next.Interval() == latest.Interval()
            && Chain(r.parts) && AllRows(r) == AllRows(st) && (Placed(st) ==> Placed(r))
  {
    var next := Following(latest);
    SplitRows(st.extra, next.start, next.end);
    AppendChain(st.parts, Split(st, next.start, next.end).parts[|st.parts|]);
    assert Split(st, next.start, next.end).parts[..|st.parts|] == st.parts;
    if Placed(st) {
      SplitPlaced(st, next.start, next.end);
    }
  }

  lemma AppendChain(parts: seq<Part>, p: Part)
    requires parts != [] && Chain(parts) && p.start < p.end && Last(parts).end == p.start
    ensures Chain(parts + [p])
  {
    forall i | 0 <= i < |parts|
      ensures Meets(parts + [p], i)
    {
      assert i < |parts| - 1 ==> Meets(parts, i);
    }
  }

  lemma SplitPlaced(st: State, start: int, end: int)
    requires Placed(st)
    ensures Placed(Split(st, start, end))
  {
    SplitRows(st.extra, start, end);
    var r := Split(st, start, end);
    forall p, x | p in r.parts && x in p.rows
      ensures In(x, p)
    {
      assert p in st.parts || p == Last(r.parts);
    }
    forall p, x | p in r.parts && x in r.extra
      ensures !In(x, p)
    {
      assert p in st.parts || p == Last(r.parts);
    }
  }

  // How many intervals cover a distance.
  function Ceil(distance: int, interval: int): (n: nat)
    requires interval > 0
    decreases if distance > 0 then distance else 0
  {
    if distance <= 0 then 0 else 1 + Ceil(distance - interval, interval)
  }

  lemma {:induction false} CeilIsLeast(distance: int, interval: int)
    requires interval > 0
    ensures var n := Ceil(distance, interval);
            n * interval >= distance && (n > 0 ==> (n - 1) * interval < distance)
    decreases if distance > 0 then distance else 0
  {
    if distance > 0 {
      CeilIsLeast(distance - interval, interval);
      var n := Ceil(distance - interval, interval);
      assert (n + 1) * interval == n * interval + interval;
      assert n > 0 ==> n * interval == (n - 1) * interval + interval;
    }
  }

  // The loop adds exactly ceil((H - (end - now)) / interval) equal partitions, right after the old ones.
  lemma {:induction false} PrecreateAdds(st: State, latest: Part, now: int)
    requires Continues(st, latest)
    ensures var r := Precreate(st, latest, now);
            && |r.parts| == |st.parts| + Ceil(Ahead(latest, now), latest.Interval())
            && st.parts <= r.parts
            && (forall i :: |st.parts| <= i < |r.parts| ==>
                  r.parts[i].Interval() == latest.Interval() && !r.parts[i].cold)
    decreases if Ahead(latest, now) > 0 then Ahead(latest, now) else 0
  {
    if NeedPrecreate(latest, now) {
      var next := Following(latest);
      PrecreateAdds(Split(st, next.start, next.end), next, now);
    }
  }

  lemma {:induction false} PrecreateKeeps(st: State, latest: Part, now: int)
    requires Continues(st, latest) && Chain(st.parts)
    ensures var r := Precreate(st, latest, now);
            && Chain(r.parts) && AllRows(r) == AllRows(st) && (Placed(st) ==> Placed(r))
    decreases if Ahead(latest, now) > 0 then Ahead(latest, now) else 0
  {
    if NeedPrecreate(latest, now) {
      var next := Following(latest);
      SplitKeeps(st, latest);
      PrecreateKeeps(Split(st, next.start, next.end), next, now);
    }
  }

  // It stops at the first end that reaches the horizon.
  lemma {:induction false} PrecreateStops(st: State, latest: Part, now: int)
    requires Continues(st, latest)
    ensures var r := Precreate(st, latest, now);
            && r.parts != []
            && (if Ahead(latest, now) <= 0 then r == st
                else 0 <= Last(r.parts).end - now - Horizon(latest.Interval()) < latest.Interval())
    decreases if Ahead(latest, now) > 0 then Ahead(latest, now) else 0
  {
    if NeedPrecreate(latest, now) {
      var next := Following(latest);
      PrecreateStops(Split(st, next.start, next.end), next, now);
    }
  }

  // ---------- main results ----------

  // Nothing is lost: the structure, the rows and every partition that holds rows survive.
  ghost predicate Keeps(a: State, b: State) {
    && (Chain(a.parts) ==> Chain(b.parts))
    && AllRows(b) == AllRows(a)
    && (Placed(a) ==> Placed(b))
    && (forall p :: p in a.parts && p.rows != [] ==> p in b.parts)
  }

  lemma SliceRows(parts: seq<Part>, i: nat, j: nat)
    requires i <= j <= |parts| && Empty(parts[..i]) && Empty(parts[j..])
    ensures RowsOf(parts[i..j]) == RowsOf(parts)
  {
    SliceTwice(parts, i, j);
    RowsOfHead(parts, i);
    RowsOfCut(parts[i..], j - i);
  }

  lemma SliceTwice<T>(s: seq<T>, i: nat, j: nat)
    requires i <= j <= |s|
    ensures s[i..][..j - i] == s[i..j] && s[i..][j - i..] == s[j..]
  {
  }

  lemma RowsOfHead(parts: seq<Part>, k: nat)
    requires k <= |parts| && Empty(parts[..k])
    ensures RowsOf(parts[k..]) == RowsOf(parts)
  {
    assert parts == parts[..k] + parts[k..];
    RowsOfAppend(parts[..k], parts[k..]);
    RowsOfEmpty(parts[..k]);
  }

  lemma RowsOfCut(parts: seq<Part>, k: nat)
    requires k <= |parts| && Empty(parts[k..])
    ensures RowsOf(parts[..k]) == RowsOf(parts)
  {
    assert parts == parts[..k] + parts[k..];
    RowsOfAppend(parts[..k], parts[k..]);
    RowsOfEmpty(parts[k..]);
  }

  lemma SliceKeeps(st: State, i: nat, j: nat)
    requires i <= j <= |st.parts| && Empty(st.parts[..i]) && Empty(st.parts[j..])
    ensures Keeps(st, st.(parts := st.parts[i..j]))
  {
    var parts, kept := st.parts, st.parts[i..j];
    SliceRows(parts, i, j);
    assert forall p :: p in kept ==> p in parts;
    forall p | p in parts && p.rows != []
      ensures p in kept
    {
      var k :| 0 <= k < |parts| && parts[k] == p;
      WhichSlice(parts, i, j, k);
    }
    SliceChain(parts, i, j);
  }

  lemma WhichSlice<T>(s: seq<T>, i: nat, j: nat, k: nat)
    requires i <= j <= |s| && k < |s|
    ensures s[k] in (if k < i then s[..i] else if k < j then s[i..j] else s[j..])
  {
    assert k < i ==> s[..i][k] == s[k];
    assert i <= k < j ==> s[i..j][k - i] == s[k];
    assert j <= k ==> s[j..][k - j] == s[k];
  }

  lemma SliceChain(parts: seq<Part>, i: nat, j: nat)
    requires i <= j <= |parts|
    ensures Chain(parts) ==> Chain(parts[i..j])
  {
    if Chain(parts) {
      forall a | 0 <= a < j - i - 1
        ensures Meets(parts[i..j], a)
      {
        assert Meets(parts, i + a);
      }
    }
  }

  lemma TailKeeps(st: State, now: int)
    ensures Keeps(st, st.(parts := TrimTail(st.parts, now)))
  {
    TrimTailDrops(st.parts, now);
    var k := |TrimTail(st.parts, now)|;
    assert st.parts[0..k] == st.parts[..k];
    SliceKeeps(st, 0, k);
  }

  lemma HeadKeeps(st: State)
    ensures Keeps(st, st.(parts := TrimHead(st.parts)))
  {
    TrimHeadDrops(st.parts);
    var k := |st.parts| - |TrimHead(st.parts)|;
    assert st.parts[k..|st.parts|] == st.parts[k..];
    SliceKeeps(st, k, |st.parts|);
  }

  // After any run: still sorted, disjoint and gap-free; no row lost or misplaced; a partition that
  // held rows is still there; and the first partition holds rows.
  lemma GovernKeeps(st: State, now: int)
    requires st.parts != [] && Chain(st.parts)
    ensures var g := Governed(st, now);
            && Keeps(st, g) && Chain(g.parts)
            && (g.parts == [] || g.parts[0].rows != [])
  {
    var trimmed := st.(parts := TrimTail(st.parts, now));
    var latest := Last(st.parts);
    var created := Precreate(trimmed, latest, now);
    TailKeeps(st, now);
    StaleIsHarmless(st, now);
    if trimmed == st {
      PrecreateKeeps(st, latest, now);
      PrecreateAdds(st, latest, now);
    }
    HeadKeeps(created);
    TrimHeadDrops(created.parts);
  }

  // ---------- how far ahead a run leaves the table ----------

  predicate Uniform(parts: seq<Part>, interval: int) {
    forall p :: p in parts ==> p.Interval() == interval
  }

  // The two checks exclude each other: they ask on which side of the horizon the end lies.
  lemma ChecksMean(p: Part, now: int)
    ensures NeedClean(p, now) <==> Ahead(p, now) < 0
    ensures NeedPrecreate(p, now) <==> Ahead(p, now) > 0
  {
  }

  ghost predicate Held(parts: seq<Part>) {
    exists i :: 0 <= i < |parts| && parts[i].rows != []
  }

  // No partition with rows lies a whole interval or more past the horizon.
  ghost predicate HeldNearHorizon(parts: seq<Part>, now: int, interval: int) {
    forall i :: 0 <= i < |parts| && parts[i].rows != [] ==> Ahead(parts[i], now) > -interval
  }

  // The list ends strictly within one interval of the horizon.
  predicate EndsNearHorizon(parts: seq<Part>, now: int, interval: int) {
    parts != [] && -interval < Ahead(Last(parts), now) < interval
  }

  lemma AheadFalls(parts: seq<Part>, now: int, interval: int, i: nat, j: nat)
    requires Chain(parts) && Uniform(parts, interval) && i <= j < |parts|
    ensures Ahead(parts[i], now) >= Ahead(parts[j], now)
  {
    assert parts[i] in parts && parts[j] in parts;
    if i < j {
      ChainSorted(parts, i, j);
    }
  }

  // The tail loop stops at a partition that is not a whole interval past the horizon exactly when no
  // partition with rows is, and less than an interval before the horizon if it dropped anything.
  lemma TailReachesHorizon(parts: seq<Part>, now: int, interval: int)
    requires Chain(parts) && Uniform(parts, interval) && interval > 0 && Held(parts)
    ensures var k := |TrimTail(parts, now)|;
            && 0 < k <= |parts|
            && (k < |parts| ==> Ahead(parts[k - 1], now) < interval)
            && (Ahead(parts[k - 1], now) > -interval <==> HeldNearHorizon(parts, now, interval))
  {
    TrimTailDrops(parts, now);
    var k := |TrimTail(parts, now)|;
    forall i | 0 <= i < |parts| && parts[i].rows != []
      ensures i < k && Ahead(parts[i], now) >= Ahead(parts[k - 1], now)
    {
      WhichSlice(parts, 0, k, i);
      AheadFalls(parts, now, interval, i, k - 1);
    }
    ChecksMean(parts[k - 1], now);
    if k < |parts| {
      DroppedPastHorizon(parts, now, interval, k);
    }
  }

  lemma DroppedPastHorizon(parts: seq<Part>, now: int, interval: int, k: nat)
    requires Chain(parts) && Uniform(parts, interval) && 0 < k < |parts|
    requires forall p :: p in parts[k..] ==> NeedClean(p, now)
    ensures Ahead(parts[k - 1], now) < interval
  {
    assert parts[k..][0] == parts[k] && parts[k] in parts[k..];
    ChecksMean(parts[k], now);
    assert Meets(parts, k - 1);
    assert parts[k - 1] in parts && parts[k] in parts;
  }

  // Where the list ends once the missing partitions are created.
  lemma CreatedReachesHorizon(st: State, now: int, interval: int)
    requires st.parts != [] && Chain(st.parts) && interval > 0 && Uniform(st.parts, interval) && Held(st.parts)
    ensures Last(st.parts).Interval() == interval
    ensures var c := Precreate(st.(parts := TrimTail(st.parts, now)), Last(st.parts), now);
            && Uniform(c.parts, interval)
            && (EndsNearHorizon(c.parts, now, interval) <==> HeldNearHorizon(st.parts, now, interval))
  {
    assert Last(st.parts) in st.parts;
    StaleIsHarmless(st, now);
    TailReachesHorizon(st.parts, now, interval);
    TrimTailWithin(st.parts, now);
    if TrimTail(st.parts, now) == st.parts {
      UntrimmedReachesHorizon(st, now, interval);
    }
  }

  lemma {:induction false} TrimTailWithin(parts: seq<Part>, now: int)
    ensures var t := TrimTail(parts, now);
            |t| <= |parts| && t == parts[..|t|] && forall p :: p in t ==> p in parts
  {
    if parts != [] && NeedClean(Last(parts), now) && Last(parts).rows == [] {
      TrimTailWithin(parts[..|parts| - 1], now);
    }
  }

  lemma UntrimmedReachesHorizon(st: State, now: int, interval: int)
    requires st.parts != [] && interval > 0 && Uniform(st.parts, interval) && Last(st.parts).Interval() == interval
    ensures var c := Precreate(st, Last(st.parts), now);
            && Uniform(c.parts, interval)
            && (EndsNearHorizon(c.parts, now, interval) <==> Ahead(Last(st.parts), now) > -interval)
  {
    var latest := Last(st.parts);
    PrecreateAdds(st, latest, now);
    PrecreateStops(st, latest, now);
    AddedUniform(st.parts, Precreate(st, latest, now).parts, interval);
  }

  lemma AddedUniform(parts: seq<Part>, more: seq<Part>, interval: int)
    requires Uniform(parts, interval) && parts <= more
    requires forall i :: |parts| <= i < |more| ==> more[i].Interval() == interval
    ensures Uniform(more, interval) && (more != [] ==> Last(more).Interval() == interval)
  {
    forall i | 0 <= i < |more|
      ensures more[i].Interval() == interval
    {
      assert i < |parts| ==> more[i] == parts[i] && parts[i] in parts;
    }
  }

  // Main result, wherever the list ended before: as long as some partition holds rows, a run leaves
  // it ending strictly within one interval of the horizon exactly when no partition with rows lies a
  // whole interval past it.
  lemma GovernReachesHorizonIff(st: State, now: int, interval: int)
    requires st.parts != [] && Chain(st.parts) && interval > 0 && Uniform(st.parts, interval) && Held(st.parts)
    ensures var g := Governed(st, now);
            && g.parts != [] && Uniform(g.parts, interval)
            && (EndsNearHorizon(g.parts, now, interval) <==> HeldNearHorizon(st.parts, now, interval))
  {
    CreatedReachesHorizon(st, now, interval);
    TrimHeadEnds(Precreate(st.(parts := TrimTail(st.parts, now)), Last(st.parts), now).parts);
    assert Governed(st, now).parts != [] by {
      GovernKeeps(st, now);
      var i :| 0 <= i < |st.parts| && st.parts[i].rows != [];
      assert st.parts[i] in Governed(st, now).parts;
    }
  }

  lemma {:induction false} TrimHeadEnds(parts: seq<Part>)
    ensures var t := TrimHead(parts);
            (t != [] ==> Last(t) == Last(parts)) && forall p :: p in t ==> p in parts
  {
    if parts != [] && parts[0].rows == [] {
      TrimHeadEnds(parts[1..]);
    }
  }

  // So at most twenty partitions then lie wholly in the future.
  lemma AtMostTwentyAhead(st: State, now: int, interval: int, i: nat)
    requires st.parts != [] && Chain(st.parts) && interval > 0 && Uniform(st.parts, interval)
    requires Held(st.parts) && HeldNearHorizon(st.parts, now, interval)
    requires i < |Governed(st, now).parts| && Governed(st, now).parts[i].start >= now
    ensures |Governed(st, now).parts| - i <= 20
  {
    GovernReachesHorizonIff(st, now, interval);
    GovernKeeps(st, now);
    NearHorizonHoldsTwenty(Governed(st, now).parts, now, interval, i);
  }

  // ... and the list ends less than 365 days and one interval after now, and less than 21 intervals.
  lemma AtMostAYearAhead(st: State, now: int, interval: int)
    requires st.parts != [] && Chain(st.parts) && interval > 0 && Uniform(st.parts, interval)
    requires Held(st.parts) && HeldNearHorizon(st.parts, now, interval)
    ensures var g := Governed(st, now);
            && g.parts != []
            && Last(g.parts).end - now < 365 * 86_400_000_000 + interval
            && Last(g.parts).end - now < 21 * interval
  {
    GovernReachesHorizonIff(st, now, interval);
    var g := Governed(st, now);
    assert Last(g.parts) in g.parts;
  }

  // Nor does it end sooner than that, by an interval, in whichever of the two comes first.
  lemma AlmostTwentyAhead(st: State, now: int, interval: int)
    requires st.parts != [] && Chain(st.parts) && interval > 0 && Uniform(st.parts, interval)
    requires Held(st.parts) && HeldNearHorizon(st.parts, now, interval)
    ensures var g := Governed(st, now);
            && g.parts != []
            && (Last(g.parts).end - now > 365 * 86_400_000_000 - interval || Last(g.parts).end - now > 19 * interval)
  {
    GovernReachesHorizonIff(st, now, interval);
    var g := Governed(st, now);
    assert Last(g.parts) in g.parts;
  }

  lemma NearHorizonHoldsTwenty(parts: seq<Part>, now: int, interval: int, i: nat)
    requires Chain(parts) && interval > 0 && Uniform(parts, interval)
    requires i < |parts| && parts[i].start >= now && EndsNearHorizon(parts, now, interval)
    ensures |parts| - i <= 20
  {
    EndsLater(parts, interval, i);
    assert Last(parts) in parts;
    FewerThan(|parts| - i, 21, interval);
  }

  lemma FewerThan(n: int, m: int, interval: int)
    requires n * interval < m * interval && interval > 0
    ensures n < m
  {
    assert n >= m ==> (n - m) * interval >= 0;
  }

  lemma {:induction false} EndsLater(parts: seq<Part>, interval: int, i: nat)
    requires Chain(parts) && Uniform(parts, interval) && i < |parts|
    ensures Last(parts).end == parts[i].start + (|parts| - i) * interval
    decreases |parts| - i
  {
    assert parts[i] in parts;
    if i + 1 < |parts| {
      assert Meets(parts, i);
      EndsLater(parts, interval, i + 1);
      assert (|parts| - i) * interval == (|parts| - i - 1) * interval + interval;
    }
  }

  // ---------- repeated runs ----------

  // Running twice at one clock reading changes nothing exactly when the first partition holds rows
  // and the last one ends on the horizon, or beyond it holding rows.
  lemma GovernFixpointIff(st: State, now: int)
    requires st.parts != [] && Chain(st.parts)
    ensures Governed(st, now) == st <==>
            && st.parts[0].rows != []
            && (Ahead(Last(st.parts), now) == 0 || (Ahead(Last(st.parts), now) < 0 && Last(st.parts).rows != []))
  {
    var latest := Last(st.parts);
    StaleIsHarmless(st, now);
    if Ahead(latest, now) > 0 {
      CreatingChanges(st, now);
    } else {
      assert Precreate(st, latest, now) == st;
      TrimsNothingIff(st.parts, now);
      TrimHeadDrops(TrimTail(st.parts, now));
    }
  }

  lemma TailKeptIff(parts: seq<Part>, now: int)
    requires parts != []
    ensures |TrimTail(parts, now)| <= |parts|
    ensures |TrimTail(parts, now)| == |parts| <==> !(NeedClean(Last(parts), now) && Last(parts).rows == [])
  {
    TrimTailWithin(parts, now);
    TrimTailWithin(parts[..|parts| - 1], now);
  }

  lemma {:induction false} HeadKeptIff(parts: seq<Part>)
    ensures |TrimHead(parts)| <= |parts|
    ensures |TrimHead(parts)| == |parts| <==> parts == [] || parts[0].rows != []
  {
    if parts != [] && parts[0].rows == [] {
      HeadKeptIff(parts[1..]);
    }
  }

  // Nothing is trimmed exactly when the first partition holds rows and the last is not an empty one
  // past the horizon.
  lemma TrimsNothingIff(parts: seq<Part>, now: int)
    requires parts != []
    ensures TrimHead(TrimTail(parts, now)) == parts <==>
            parts[0].rows != [] && (Ahead(Last(parts), now) >= 0 || Last(parts).rows != [])
  {
    TailKeptIff(parts, now);
    HeadKeptIff(TrimTail(parts, now));
    ChecksMean(Last(parts), now);
    if |TrimTail(parts, now)| == |parts| {
      assert TrimTail(parts, now) == parts;
    }
  }

  // A run that has partitions to create ends with more than it found, or with another first one.
  lemma CreatingChanges(st: State, now: int)
    requires st.parts != [] && Chain(st.parts) && Ahead(Last(st.parts), now) > 0
    ensures Governed(st, now) != st
  {
    var latest := Last(st.parts);
    var created := Precreate(st, latest, now);
    ChecksMean(latest, now);
    assert TrimTail(st.parts, now) == st.parts;
    PrecreateAdds(st, latest, now);
    PrecreateStops(st, latest, now);
    TrimHeadEnds(created.parts);
    assert Last(created.parts).end != latest.end;
  }

  // A run that overshoots the horizon by part of an interval is undone by the next run at the same
  // clock, and redone by the one after: such a table never settles.
  lemma GovernOscillates(st: State, now: int)
    requires |st.parts| >= 2 && Chain(st.parts) && Placed(st) && st.parts[0].rows != []
    requires var p := Last(st.parts);
             && p.rows == [] && !p.cold && -p.Interval() < Ahead(p, now) < 0
             && st.parts[|st.parts| - 2].Interval() == p.Interval()
    ensures var less := st.(parts := st.parts[..|st.parts| - 1]);
            Governed(st, now) == less && Governed(less, now) == st
  {
    var p, init := Last(st.parts), st.parts[..|st.parts| - 1];
    var less := st.(parts := init);
    assert Meets(st.parts, |init| - 1);
    assert Ahead(Last(init), now) == Ahead(p, now) + p.Interval();
    StaleIsHarmless(st, now);
    assert TrimTail(st.parts, now) == TrimTail(init, now) == init;
    StaleIsHarmless(less, now);
    forall r | r in st.extra
      ensures !(p.start <= r.key < p.end)
    {
      assert p in st.parts && !In(r, p);
    }
    NothingWithin(st.extra, p.start, p.end);
    assert Following(Last(init)) == p;
    assert Split(less, p.start, p.end) == st;
  }

  lemma {:induction false} NothingWithin(rows: seq<Row>, start: int, end: int)
    requires forall r :: r in rows ==> !(start <= r.key < end)
    ensures Within(rows, start, end) == [] && Outside(rows, start, end) == rows
  {
    if rows != [] {
      assert rows[0] in rows;
      NothingWithin(rows[1..], start, end);
    }
  }

  // The range the missing partitions will cover.
  predicate ToCreate(x: Row, latest: Part, now: int)
    requires latest.Interval() > 0
  {
    latest.end <= x.key < latest.end + Ceil(Ahead(latest, now), latest.Interval()) * latest.Interval()
  }

  // The created partitions are empty exactly when the default partition has no row for them.
  lemma {:induction false} CreatedEmptyIff(st: State, latest: Part, now: int)
    requires Continues(st, latest)
    ensures Empty(Precreate(st, latest, now).parts) <==>
            Empty(st.parts) && forall x :: x in st.extra ==> !ToCreate(x, latest, now)
    decreases if Ahead(latest, now) > 0 then Ahead(latest, now) else 0
  {
    if NeedPrecreate(latest, now) {
      var next := Following(latest);
      var split := Split(st, next.start, next.end);
      SplitRows(st.extra, next.start, next.end);
      CreatedEmptyIff(split, next, now);
      forall x
        ensures ToCreate(x, latest, now) <==> In(x, next) || ToCreate(x, next, now)
      {
        OneMoreToCreate(x, latest, now);
      }
      SplitEmptyIff(st, next);
    } else {
      assert Ceil(Ahead(latest, now), latest.Interval()) == 0;
    }
  }

  lemma OneMoreToCreate(x: Row, latest: Part, now: int)
    requires latest.Interval() > 0 && NeedPrecreate(latest, now)
    ensures ToCreate(x, latest, now) <==> In(x, Following(latest)) || ToCreate(x, Following(latest), now)
  {
    var next, d := Following(latest), latest.Interval();
    var n := Ceil(Ahead(next, now), d);
    assert Ceil(Ahead(latest, now), d) == n + 1;
    assert (n + 1) * d == n * d + d && n * d >= 0;
  }

  lemma SplitEmptyIff(st: State, next: Part)
    ensures Empty(Split(st, next.start, next.end).parts) <==>
            Empty(st.parts) && forall x :: x in st.extra ==> !In(x, next)
  {
    SplitRows(st.extra, next.start, next.end);
    var within := Within(st.extra, next.start, next.end);
    assert within != [] ==> within[0] in within;
    var p := Part(next.start, next.end, within, false);
    assert Split(st, next.start, next.end).parts == st.parts + [p] && p in st.parts + [p];
  }

  // Main result: a run leaves a table without partitions, so that every later run is refused, exactly
  // when all its partitions are empty and no default row falls into the partitions to be created.
  lemma GovernLosesAllIff(st: State, now: int)
    requires st.parts != [] && Chain(st.parts)
    ensures Governed(st, now).parts == [] <==>
            Empty(st.parts) && forall x :: x in st.extra ==> !ToCreate(x, Last(st.parts), now)
  {
    var trimmed, latest := st.(parts := TrimTail(st.parts, now)), Last(st.parts);
    var created := Precreate(trimmed, latest, now);
    StaleIsHarmless(st, now);
    TrimHeadDrops(created.parts);
    assert created.parts[..|created.parts|] == created.parts;
    assert Governed(st, now).parts == [] <==> Empty(created.parts);
    if trimmed == st {
      CreatedEmptyIff(st, latest, now);
    } else {
      TrimmedEmptyIff(st.parts, now);
      assert Ceil(Ahead(latest, now), latest.Interval()) == 0;
    }
  }

  lemma TrimmedEmptyIff(parts: seq<Part>, now: int)
    ensures Empty(TrimTail(parts, now)) <==> Empty(parts)
    ensures TrimTail(parts, now) != parts ==> Ahead(Last(parts), now) < 0
  {
    TrimTailDrops(parts, now);
    var k := |TrimTail(parts, now)|;
    assert parts == parts[..k] + parts[k..];
  }

  // ---------- migration ----------

  // On a sorted list, stopping at the first partition that may stay equals testing every partition.
  lemma StoppingIsFiltering(parts: seq<Part>, now: int, days: int, k: nat)
    requires Chain(parts) && StopsAt(parts, now, days, k)
    ensures |FrozenPrefix(parts, k)| == |parts|
    ensures forall i :: 0 <= i < |parts| ==>
              var p := parts[i];
              FrozenPrefix(parts, k)[i] ==
              Part(p.start, p.end, p.rows, p.cold || p.end < now - days * 86_400_000_000)
  {
    forall i | k <= i < |parts|
      ensures !CanArchive(parts[i], now, days)
    {
      if k < i {
        ChainSorted(parts, k, i);
      }
    }
  }
}
