// Requests handled concurrently: every atomic counter increment and every locked store call of
// prometheus/proxy-webhook/main.go is one step, in any interleaving.

module AlertInterleaving {
  import opened Options
  import opened AlertProxy
  import opened Modulo

  // ---------- the store calls in lock order ----------

  datatype Call = Set(fp: Fingerprint, t: Time) | Del(fp: Fingerprint)

  function Effect(m: Starts, c: Call): Starts {
    match c
    case Set(fp, t) => AfterSet(m, fp, t)
    case Del(fp) => m - {fp}
  }

  function Replay(log: seq<Call>): Starts {
    if log == [] then map[] else Effect(Replay(log[..|log| - 1]), log[|log| - 1])
  }

  // Call i opens an incident: every earlier SetIfAbsent of its key is followed by a Delete before i.
  ghost predicate Opens(log: seq<Call>, i: int) {
    && 0 <= i < |log| && log[i].Set?
    && forall j :: 0 <= j < i && log[j].Set? && log[j].fp == log[i].fp ==>
         exists k :: j < k < i && log[k] == Del(log[i].fp)
  }

  ghost predicate OpenAt(log: seq<Call>, i: int, fp: Fingerprint) {
    Opens(log, i) && log[i].fp == fp && forall k :: i < k < |log| ==> log[k] != Del(fp)
  }

  // The last call on the key is a SetIfAbsent.
  ghost predicate LastIsSet(log: seq<Call>, fp: Fingerprint) {
    exists i :: 0 <= i < |log| && log[i].Set? && log[i].fp == fp && forall k :: i < k < |log| ==> log[k] != Del(fp)
  }

  lemma {:induction false} OpenerExtends(log: seq<Call>, c: Call, i: int, fp: Fingerprint)
    requires OpenAt(log, i, fp) && c != Del(fp)
    ensures OpenAt(log + [c], i, fp)
  {
    var more := log + [c];
    forall j | 0 <= j < i && more[j].Set? && more[j].fp == more[i].fp
      ensures exists k :: j < k < i && more[k] == Del(more[i].fp)
    {
      var k :| j < k < i && log[k] == Del(log[i].fp);
      assert more[k] == log[k];
    }
  }

  // Main result on the log: a key is stored exactly when its last call is a SetIfAbsent, with the
  // time of the first one since the last Delete.
  lemma {:induction false} StoreIsOpenIncidents(log: seq<Call>, fp: Fingerprint)
    ensures fp in Replay(log) <==> LastIsSet(log, fp)
    ensures fp in Replay(log) ==> exists i :: OpenAt(log, i, fp) && log[i].t == Replay(log)[fp]
  {
    if log != [] {
      var init, c := log[..|log| - 1], log[|log| - 1];
      assert log == init + [c];
      StoreIsOpenIncidents(init, fp);
      LastSnoc(init, c, fp);
      if fp in Replay(log) {
        if fp in Replay(init) {
          var i :| OpenAt(init, i, fp) && init[i].t == Replay(init)[fp];
          OpenerExtends(init, c, i, fp);
        } else {
          FirstOpens(init, c);
        }
      }
    }
  }

  lemma LastSnoc(init: seq<Call>, c: Call, fp: Fingerprint)
    ensures LastIsSet(init + [c], fp) <==> (c.Set? && c.fp == fp) || (LastIsSet(init, fp) && c != Del(fp))
  {
    var log := init + [c];
    assert log[|init|] == c;
    if LastIsSet(init, fp) && c != Del(fp) {
      var i :| 0 <= i < |init| && init[i].Set? && init[i].fp == fp && forall k :: i < k < |init| ==> init[k] != Del(fp);
      assert log[i] == init[i];
    }
    if LastIsSet(log, fp) {
      var i :| 0 <= i < |log| && log[i].Set? && log[i].fp == fp && forall k :: i < k < |log| ==> log[k] != Del(fp);
      if i < |init| {
        assert init[i] == log[i] && forall k :: i < k < |init| ==> init[k] == log[k];
      }
    }
  }

  // When the key is not stored, each earlier SetIfAbsent of it has been deleted again.
  lemma FirstOpens(init: seq<Call>, c: Call)
    requires c.Set? && !LastIsSet(init, c.fp)
    ensures OpenAt(init + [c], |init|, c.fp)
  {
    var log := init + [c];
    forall j | 0 <= j < |init| && log[j].Set? && log[j].fp == c.fp
      ensures exists k :: j < k < |init| && log[k] == Del(c.fp)
    {
      assert init[j] == log[j];
      var k :| j < k < |init| && init[k] == Del(c.fp);
      assert log[k] == init[k];
    }
  }

  // ---------- handlers in any interleaving ----------

  const TWO63 := 0x8000_0000_0000_0000
  const TWO64 := 0x1_0000_0000_0000_0000

  // int(i) % len(targets): the conversion wraps and Go's remainder keeps the sign, so an index may
  // be negative, which panics.
  function Index(i: nat, n: nat): Option<nat>
    requires n > 0
  {
    var v := i % TWO64;
    if v < TWO63 then Some(v % n)
    else if (TWO64 - v) % n == 0 then Some(0)
    else None
  }

  // `outs`: for each alert rewritten so far, the place of its SetIfAbsent in the log and what it returned.
  datatype Handler = Handler(alerts: seq<Alert>, turn: Option<nat>, done: nat, deleting: bool, outs: seq<(nat, Time)>)

  datatype System = System(counter: nat, turns: seq<nat>, store: Starts, log: seq<Call>, handlers: map<nat, Handler>)

  ghost predicate Init(s: System, counter: nat) {
    && s.counter == counter && s.turns == [] && s.store == map[] && s.log == []
    && forall h :: h in s.handlers ==>
         var x := s.handlers[h]; x.turn.None? && x.done == 0 && !x.deleting && x.outs == []
  }

  // atomic.AddUint64
  predicate DrawStep(s: System, t: System, h: nat) {
    && h in s.handlers && s.handlers[h].turn.None?
    && t == s.(counter := s.counter + 1, turns := s.turns + [s.counter + 1],
               handlers := s.handlers[h := s.handlers[h].(turn := Some(s.counter + 1))])
  }

  // A handler whose turn has no target panics before it reads its alerts.
  predicate SetStep(s: System, t: System, h: nat, n: nat, hash: Hash)
    requires n > 0
  {
    && h in s.handlers
    && var x := s.handlers[h];
    && x.turn.Some? && Index(x.turn.value, n).Some? && !x.deleting && x.done < |x.alerts|
    && var a := x.alerts[x.done];
       var fp := Key(a, hash);
       var store := AfterSet(s.store, fp, a.startsAt);
       t == s.(store := store, log := s.log + [Set(fp, a.startsAt)],
               handlers := s.handlers[h := x.(outs := x.outs + [(|s.log|, store[fp])], deleting := a.resolved,
                                              done := if a.resolved then x.done else x.done + 1)])
  }

  predicate DeleteStep(s: System, t: System, h: nat, hash: Hash) {
    && h in s.handlers
    && var x := s.handlers[h];
    && x.deleting && x.done < |x.alerts|
    && var fp := Key(x.alerts[x.done], hash);
       t == s.(store := s.store - {fp}, log := s.log + [Del(fp)],
               handlers := s.handlers[h := x.(deleting := false, done := x.done + 1)])
  }

  // One step of some handler, with n targets.
  ghost predicate Next(s: System, t: System, n: nat, hash: Hash)
    requires n > 0
  {
    exists h :: DrawStep(s, t, h) || SetStep(s, t, h, n, hash) || DeleteStep(s, t, h, hash)
  }

  ghost predicate Run(trace: seq<System>, counter: nat, n: nat, hash: Hash)
    requires n > 0
  {
    && trace != [] && Init(trace[0], counter)
    && forall i :: 0 <= i < |trace| - 1 ==> Next(trace[i], trace[i + 1], n, hash)
  }

  // One output of a handler: the value its SetIfAbsent found or stored, at its place in the log.
  ghost predicate OutputRight(log: seq<Call>, a: Alert, out: (nat, Time), hash: Hash) {
    && out.0 < |log| && log[out.0] == Set(Key(a, hash), a.startsAt)
    && Key(a, hash) in Replay(log[..out.0 + 1]) && Replay(log[..out.0 + 1])[Key(a, hash)] == out.1
  }

  ghost predicate HandlerRight(log: seq<Call>, x: Handler, n: nat, hash: Hash)
    requires n > 0
  {
    && (x.outs != [] ==> x.turn.Some? && Index(x.turn.value, n).Some?)
    && x.done <= |x.alerts| && |x.outs| == x.done + (if x.deleting then 1 else 0)
    && (x.deleting ==> x.done < |x.alerts|)
    && forall k :: 0 <= k < |x.outs| ==> OutputRight(log, x.alerts[k], x.outs[k], hash)
  }

  ghost predicate Inv(s: System, counter: nat, n: nat, hash: Hash)
    requires n > 0
  {
    && s.counter == counter + |s.turns|
    && (forall i :: 0 <= i < |s.turns| ==> s.turns[i] == counter + 1 + i)
    && s.store == Replay(s.log)
    && forall h :: h in s.handlers ==> HandlerRight(s.log, s.handlers[h], n, hash)
  }

  lemma HandlerKept(log: seq<Call>, c: Call, x: Handler, n: nat, hash: Hash)
    requires n > 0 && HandlerRight(log, x, n, hash)
    ensures HandlerRight(log + [c], x, n, hash)
  {
    forall k | 0 <= k < |x.outs|
      ensures OutputRight(log + [c], x.alerts[k], x.outs[k], hash)
    {
      assert OutputRight(log, x.alerts[k], x.outs[k], hash);
      assert (log + [c])[..x.outs[k].0 + 1] == log[..x.outs[k].0 + 1];
    }
  }

  lemma SetKeeps(s: System, t: System, h: nat, counter: nat, n: nat, hash: Hash)
    requires n > 0 && Inv(s, counter, n, hash) && SetStep(s, t, h, n, hash)
    ensures Inv(t, counter, n, hash)
  {
    var x := s.handlers[h];
    var a := x.alerts[x.done];
    var c := Set(Key(a, hash), a.startsAt);
    assert t.log[..|s.log|] == s.log && t.log[..|s.log| + 1] == t.log;
    forall g | g in t.handlers
      ensures HandlerRight(t.log, t.handlers[g], n, hash)
    {
      HandlerKept(s.log, c, s.handlers[g], n, hash);
      if g == h {
        assert OutputRight(t.log, a, t.handlers[g].outs[|x.outs|], hash);
      }
    }
  }

  lemma DeleteKeeps(s: System, t: System, h: nat, counter: nat, n: nat, hash: Hash)
    requires n > 0 && Inv(s, counter, n, hash) && DeleteStep(s, t, h, hash)
    ensures Inv(t, counter, n, hash)
  {
    var c := Del(Key(s.handlers[h].alerts[s.handlers[h].done], hash));
    assert t.log[..|s.log|] == s.log;
    forall g | g in t.handlers
      ensures HandlerRight(t.log, t.handlers[g], n, hash)
    {
      HandlerKept(s.log, c, s.handlers[g], n, hash);
    }
  }

  lemma {:induction false} RunKeeps(trace: seq<System>, counter: nat, n: nat, hash: Hash, i: nat)
    requires n > 0 && Run(trace, counter, n, hash) && i < |trace|
    ensures Inv(trace[i], counter, n, hash)
  {
    if i > 0 {
      RunKeeps(trace, counter, n, hash, i - 1);
      var s, t := trace[i - 1], trace[i];
      assert Next(trace[i - 1], trace[i - 1 + 1], n, hash);
      var h :| DrawStep(s, t, h) || SetStep(s, t, h, n, hash) || DeleteStep(s, t, h, hash);
      if SetStep(s, t, h, n, hash) {
        SetKeeps(s, t, h, counter, n, hash);
      } else if DeleteStep(s, t, h, hash) {
        DeleteKeeps(s, t, h, counter, n, hash);
      }
    }
  }

  // Main result for concurrent requests: whatever the interleaving, the StartsAt written into an
  // alert is that of the first SetIfAbsent on its key since the last Delete, in lock order.
  lemma OutputsAreIncidentStarts(trace: seq<System>, counter: nat, n: nat, hash: Hash, i: nat, h: nat, k: nat)
    requires n > 0 && Run(trace, counter, n, hash) && i < |trace| && h in trace[i].handlers
    requires k < |trace[i].handlers[h].outs|
    ensures var s := trace[i];
            var x := s.handlers[h];
            && k < |x.alerts| && x.outs[k].0 < |s.log|
            && exists o :: OpenAt(s.log[..x.outs[k].0 + 1], o, Key(x.alerts[k], hash)) && s.log[o] == Set(Key(x.alerts[k], hash), x.outs[k].1)
  {
    RunKeeps(trace, counter, n, hash, i);
    var s := trace[i];
    var x := s.handlers[h];
    assert HandlerRight(s.log, x, n, hash);
    OutputIsStart(s.log, x.alerts[k], x.outs[k], hash);
  }

  lemma OutputIsStart(log: seq<Call>, a: Alert, out: (nat, Time), hash: Hash)
    requires OutputRight(log, a, out, hash)
    ensures exists o :: OpenAt(log[..out.0 + 1], o, Key(a, hash)) && log[o] == Set(Key(a, hash), out.1)
  {
    var seen := log[..out.0 + 1];
    StoreIsOpenIncidents(seen, Key(a, hash));
    var o :| OpenAt(seen, o, Key(a, hash)) && seen[o].t == out.1;
    assert log[o] == seen[o];
  }

  // What one call left for a key stays until a Delete of it.
  lemma {:induction false} ReplayKept(log: seq<Call>, fp: Fingerprint, a: nat, b: nat)
    requires a <= b <= |log| && fp in Replay(log[..a]) && forall k :: a <= k < b ==> log[k] != Del(fp)
    ensures fp in Replay(log[..b]) && Replay(log[..b])[fp] == Replay(log[..a])[fp]
    decreases b
  {
    if a < b {
      ReplayKept(log, fp, a, b - 1);
      assert log[..b][..b - 1] == log[..b - 1] && log[..b][b - 1] == log[b - 1];
    }
  }

  // Output k of handler h.
  predicate Outputs(s: System, h: nat, k: nat) {
    h in s.handlers && k < |s.handlers[h].outs| && k < |s.handlers[h].alerts|
  }

  // No call between two outputs deletes the key of the first.
  predicate Undeleted(s: System, g: nat, j: nat, h: nat, k: nat, hash: Hash)
    requires Outputs(s, g, j) && Outputs(s, h, k)
  {
    var x, y := s.handlers[g], s.handlers[h];
    && x.outs[j].0 <= y.outs[k].0
    && forall c :: x.outs[j].0 < c <= y.outs[k].0 && c < |s.log| ==> s.log[c] != Del(Key(x.alerts[j], hash))
  }

  // So also under concurrency one incident has one start: two alerts of one key, whoever handles
  // them, carry the same time unless the key was deleted between their places in the log.
  lemma OneStartUnlessDeleted(trace: seq<System>, counter: nat, n: nat, hash: Hash, i: nat,
                              g: nat, j: nat, h: nat, k: nat)
    requires n > 0 && Run(trace, counter, n, hash) && i < |trace|
    requires Outputs(trace[i], g, j) && Outputs(trace[i], h, k) && Undeleted(trace[i], g, j, h, k, hash)
    requires Key(trace[i].handlers[g].alerts[j], hash) == Key(trace[i].handlers[h].alerts[k], hash)
    ensures trace[i].handlers[g].outs[j].1 == trace[i].handlers[h].outs[k].1
  {
    RunKeeps(trace, counter, n, hash, i);
    var s := trace[i];
    var x, y := s.handlers[g], s.handlers[h];
    assert HandlerRight(s.log, x, n, hash) && HandlerRight(s.log, y, n, hash);
    assert OutputRight(s.log, x.alerts[j], x.outs[j], hash) && OutputRight(s.log, y.alerts[k], y.outs[k], hash);
    ReplayKept(s.log, Key(x.alerts[j], hash), x.outs[j].0 + 1, y.outs[k].0 + 1);
  }

  // The same for alerts with equal labels up to severity.
  lemma OneIncidentOneStart(trace: seq<System>, counter: nat, n: nat, hash: Hash, i: nat,
                            g: nat, j: nat, h: nat, k: nat)
    requires n > 0 && Run(trace, counter, n, hash) && i < |trace|
    requires Outputs(trace[i], g, j) && Outputs(trace[i], h, k) && Undeleted(trace[i], g, j, h, k, hash)
    requires SameIncident(trace[i].handlers[g].alerts[j], trace[i].handlers[h].alerts[k])
    ensures trace[i].handlers[g].outs[j].1 == trace[i].handlers[h].outs[k].1
  {
    KeyIsIncident(trace[i].handlers[g].alerts[j], trace[i].handlers[h].alerts[k], hash);
    OneStartUnlessDeleted(trace, counter, n, hash, i, g, j, h, k);
  }

  // A handler whose turn has no target writes nothing.
  lemma PanickedWritesNothing(trace: seq<System>, counter: nat, n: nat, hash: Hash, i: nat, h: nat)
    requires n > 0 && Run(trace, counter, n, hash) && i < |trace| && h in trace[i].handlers
    requires trace[i].handlers[h].turn.Some? && Index(trace[i].handlers[h].turn.value, n).None?
    ensures trace[i].handlers[h].outs == []
  {
    RunKeeps(trace, counter, n, hash, i);
    assert HandlerRight(trace[i].log, trace[i].handlers[h], n, hash);
  }

  // ---------- round robin ----------

  // How many of the turns first+1 .. first+w go to target t.
  function Share(first: nat, w: nat, t: nat, n: nat): nat
    requires n > 0
  {
    if w == 0 then 0 else Share(first, w - 1, t, n) + if Index(first + w, n) == Some(t) then 1 else 0
  }

  lemma IndexBelow(i: nat, n: nat)
    requires n > 0 && i < TWO63
    ensures Index(i, n) == Some(i % n)
  {
    ModUnique(i, 0, i, TWO64);
  }

  // Below 2^63 there is no panic, and within one round target t is hit exactly at turn d + 1.
  lemma {:induction false} ShareInRound(first: nat, w: nat, t: nat, n: nat, d: nat)
    requires 0 < n && t < n && w <= n && first + w < TWO63 && d == (t - first - 1) % n
    ensures Share(first, w, t, n) == if d < w then 1 else 0
  {
    if w > 0 {
      ShareInRound(first, w - 1, t, n, d);
      assert Index(first + w, n) == Some(t) <==> d == w - 1 by {
        IndexBelow(first + w, n);
        SameResidue(first + w, t, w - 1, n);
      }
    }
  }

  lemma SameResidue(v: nat, t: nat, d: nat, n: nat)
    requires 0 < n && t < n && d < n && v >= d + 1
    ensures v % n == t <==> (t - (v - d)) % n == d
  {
    var q := v / n;
    assert v == q * n + v % n;
    var x := t - (v - d);
    if v % n == t {
      assert x == -q * n + d;
      ModUnique(x, -q, d, n);
    }
    if x % n == d {
      assert x == (x / n) * n + d;
      assert v == (-(x / n)) * n + t;
      ModUnique(v, -(x / n), t, n);
    }
  }

  lemma {:induction false} ShareSplits(first: nat, a: nat, b: nat, t: nat, n: nat)
    requires n > 0
    ensures Share(first, a + b, t, n) == Share(first, a, t, n) + Share(first + a, b, t, n)
  {
    if b > 0 {
      ShareSplits(first, a, b - 1, t, n);
    }
  }

  // Main result: in any window of consecutive turns below 2^63, two targets differ by at most one.
  lemma {:induction false} FairShare(first: nat, w: nat, t: nat, u: nat, n: nat)
    requires 0 < n && t < n && u < n && first + w < TWO63
    ensures -1 <= Share(first, w, t, n) - Share(first, w, u, n) <= 1
    ensures w == n ==> Share(first, w, t, n) == 1
    decreases w
  {
    if w <= n {
      ShareInRound(first, w, t, n, (t - first - 1) % n);
      ShareInRound(first, w, u, n, (u - first - 1) % n);
    } else {
      FairShare(first + n, w - n, t, u, n);
      ShareInRound(first, n, t, n, (t - first - 1) % n);
      ShareInRound(first, n, u, n, (u - first - 1) % n);
      ShareSplits(first, n, w - n, t, n);
      ShareSplits(first, n, w - n, u, n);
    }
  }

  function Hits(turns: seq<nat>, t: nat, n: nat): nat
    requires n > 0
  {
    if turns == [] then 0
    else Hits(turns[..|turns| - 1], t, n) + if Index(turns[|turns| - 1], n) == Some(t) then 1 else 0
  }

  lemma {:induction false} HitsAreShare(turns: seq<nat>, first: nat, t: nat, n: nat)
    requires n > 0 && forall i :: 0 <= i < |turns| ==> turns[i] == first + 1 + i
    ensures Hits(turns, t, n) == Share(first, |turns|, t, n)
  {
    if turns != [] {
      HitsAreShare(turns[..|turns| - 1], first, t, n);
    }
  }

  // Main result for the counter: whatever the interleaving, in any window of requests two targets
  // differ by at most one, and a window of n requests hits each of the n targets once.
  lemma RoundRobinIsFair(trace: seq<System>, counter: nat, n: nat, hash: Hash, i: nat, a: nat, b: nat, t: nat, u: nat)
    requires n > 0 && Run(trace, counter, n, hash) && i < |trace| && a <= b <= |trace[i].turns|
    requires t < n && u < n && trace[i].counter < TWO63
    ensures var window := trace[i].turns[a..b];
            && -1 <= Hits(window, t, n) - Hits(window, u, n) <= 1
            && (b - a == n ==> Hits(window, t, n) == 1)
  {
    RunKeeps(trace, counter, n, hash, i);
    var window := trace[i].turns[a..b];
    HitsAreShare(window, counter + a, t, n);
    HitsAreShare(window, counter + a, u, n);
    FairShare(counter + a, b - a, t, u, n);
  }

  // Over the whole range of the counter a single target is the only safe number of targets.
  lemma NeverPanicsIff(n: nat)
    requires n > 0
    ensures (forall i: nat :: i < TWO64 ==> Index(i, n).Some?) <==> n == 1
  {
    if n > 1 {
      ModUnique(1, 0, 1, n);
      assert Index(TWO64 - 1, n).None?;
    } else {
      forall i: nat | i < TWO64
        ensures Index(i, n).Some?
      {
        ModUnique(TWO64 - i, TWO64 - i, 0, 1);
      }
    }
  }
}
