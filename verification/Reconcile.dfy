// The two set reconciliations of kafka/cdc/src/main.py: CDC tables of a SQL Server, and Kafka topics.

module Reconcile {
  import opened CredentialText

  // table.split(".")[-1]
  function Bare(table: string): string {
    table[FindLast(table, '.') + 1..]
  }

  function Dbo(name: string): string {
    "dbo." + name
  }

  predicate Plain(name: string) {
    '.' !in name
  }

  lemma BareIsPlain(table: string)
    ensures Plain(Bare(table))
  {
    var d := FindLast(table, '.');
    forall i | d + 1 <= i < |table|
      ensures table[i] != '.'
    {
    }
  }

  lemma BareOfDbo(name: string)
    requires Plain(name)
    ensures Bare(Dbo(name)) == name
  {
    SplitAtLast("dbo", '.', name);
    assert Dbo(name) == "dbo" + ['.'] + name;
  }

  // ---------- CDC: compare, then enable and disable ----------

  function Tracked(names: set<string>): set<string> {
    set n | n in names :: Dbo(n)
  }

  function NeedEnable(names: set<string>, synced: set<string>): set<string> {
    synced - Tracked(names)
  }

  function NeedDisable(names: set<string>, synced: set<string>): set<string> {
    Tracked(names) - synced
  }

  function BareNames(tables: set<string>): set<string> {
    set t | t in tables :: Bare(t)
  }

  // The tables whose statement succeeds.
  function Succeeding(tables: set<string>, fails: string -> bool): set<string> {
    set t | t in tables && !fails(t)
  }

  // The tracked tables, by bare name, after the statements of some tables; a failing one is skipped.
  function Enabled(names: set<string>, tables: set<string>, dryRun: bool, fails: string -> bool): set<string> {
    if dryRun then names else names + BareNames(Succeeding(tables, fails))
  }

  function Disabled(names: set<string>, tables: set<string>, dryRun: bool, fails: string -> bool): set<string> {
    if dryRun then names else names - BareNames(Succeeding(tables, fails))
  }

  lemma OneMoreTable(names: set<string>, done: set<string>, t: string, dryRun: bool, fails: string -> bool)
    ensures var before, after := Enabled(names, done, dryRun, fails), Enabled(names, done + {t}, dryRun, fails);
            after == if dryRun || fails(t) then before else before + {Bare(t)}
    ensures var before, after := Disabled(names, done, dryRun, fails), Disabled(names, done + {t}, dryRun, fails);
            after == if dryRun || fails(t) then before else before - {Bare(t)}
  {
    var more := if fails(t) then {} else {t};
    assert Succeeding(done + {t}, fails) == Succeeding(done, fails) + more;
    BareNamesUnion(Succeeding(done, fails), more);
  }

  lemma MoveOne(done: set<string>, todo: set<string>, t: string)
    requires t in todo
    ensures (done + {t}) + (todo - {t}) == done + todo
  {
  }

  // apply_sqlserver_cdc_changes: every statement names schema dbo, whatever the schema of the table.
  class Server {
    var names: set<string>

    constructor (names: set<string>)
      ensures this.names == names
    {
      this.names := names;
    }

    method Apply(enable: set<string>, disable: set<string>, dryRun: bool, fails: string -> bool)
      modifies this
      ensures names == if dryRun then old(names)
                       else (old(names) + BareNames(Succeeding(enable, fails))) - BareNames(Succeeding(disable, fails))
    {
      Enable(enable, dryRun, fails);
      Disable(disable, dryRun, fails);
    }

    method Enable(tables: set<string>, dryRun: bool, fails: string -> bool)
      modifies this
      ensures names == Enabled(old(names), tables, dryRun, fails)
    {
      var todo := tables;
      ghost var done: set<string> := {};
      while todo != {}
        invariant done + todo == tables && names == Enabled(old(names), done, dryRun, fails)
        decreases todo
      {
        var t :| t in todo;
        if !dryRun && !fails(t) {
          names := names + {Bare(t)};
        }
        OneMoreTable(old(names), done, t, dryRun, fails);
        MoveOne(done, todo, t);
        todo, done := todo - {t}, done + {t};
      }
      assert done == tables;
    }

    method Disable(tables: set<string>, dryRun: bool, fails: string -> bool)
      modifies this
      ensures names == Disabled(old(names), tables, dryRun, fails)
    {
      var todo := tables;
      ghost var done: set<string> := {};
      while todo != {}
        invariant done + todo == tables && names == Disabled(old(names), done, dryRun, fails)
        decreases todo
      {
        var t :| t in todo;
        if !dryRun && !fails(t) {
          names := names - {Bare(t)};
        }
        OneMoreTable(old(names), done, t, dryRun, fails);
        MoveOne(done, todo, t);
        todo, done := todo - {t}, done + {t};
      }
      assert done == tables;
    }
  }

  lemma BareNamesUnion(a: set<string>, b: set<string>)
    ensures BareNames(a + b) == BareNames(a) + BareNames(b)
    ensures forall t :: b == {t} ==> BareNames(b) == {Bare(t)}
  {
  }

  // The tracked tables after a round in which the statements of some tables fail.
  function AfterRound(names: set<string>, synced: set<string>, fails: string -> bool): set<string> {
    (names + BareNames(Succeeding(NeedEnable(names, synced), fails))) -
    BareNames(Succeeding(NeedDisable(names, synced), fails))
  }

  method Round(s: Server, synced: set<string>, fails: string -> bool)
    modifies s
    ensures s.names == AfterRound(old(s.names), synced, fails)
  {
    s.Apply(NeedEnable(s.names, synced), NeedDisable(s.names, synced), false, fails);
  }

  // Whether a statement fails matters to the tables with that bare name only.
  lemma FailureIsLocal(names: set<string>, synced: set<string>, f: string -> bool, g: string -> bool, n: string)
    requires forall t :: Bare(t) == n ==> f(t) == g(t)
    ensures n in AfterRound(names, synced, f) <==> n in AfterRound(names, synced, g)
  {
    SameFailures(NeedEnable(names, synced), f, g, n);
    SameFailures(NeedDisable(names, synced), f, g, n);
  }

  lemma SameFailures(tables: set<string>, f: string -> bool, g: string -> bool, n: string)
    requires forall t :: Bare(t) == n ==> f(t) == g(t)
    ensures n in BareNames(Succeeding(tables, f)) <==> n in BareNames(Succeeding(tables, g))
  {
    if t :| t in Succeeding(tables, f) && Bare(t) == n {
      assert t in Succeeding(tables, g);
    }
    if t :| t in Succeeding(tables, g) && Bare(t) == n {
      assert t in Succeeding(tables, f);
    }
  }

  // Every table to enable is a plain name of schema dbo, and every one to disable is plain.
  predicate Manageable(names: set<string>, synced: set<string>) {
    && (forall t {:trigger Bare(t)} :: t in NeedEnable(names, synced) ==> t == Dbo(Bare(t)))
    && (forall n {:trigger Plain(n)} :: n in names && Dbo(n) !in synced ==> Plain(n))
  }

  lemma DboInjective(m: string, n: string)
    requires Dbo(m) == Dbo(n)
    ensures m == n
  {
    assert m == Dbo(m)[4..] && n == Dbo(n)[4..];
  }

  lemma TrackedIff(names: set<string>, n: string)
    ensures Dbo(n) in Tracked(names) <==> n in names
  {
    if m :| m in names && Dbo(m) == Dbo(n) {
      DboInjective(m, n);
    }
  }

  lemma EnabledNames(names: set<string>, synced: set<string>, fails: string -> bool, n: string)
    requires Manageable(names, synced)
    ensures n in BareNames(Succeeding(NeedEnable(names, synced), fails)) <==>
            n !in names && Dbo(n) in synced && !fails(Dbo(n))
  {
    TrackedIff(names, n);
    if t :| t in Succeeding(NeedEnable(names, synced), fails) && Bare(t) == n {
      assert t == Dbo(n);
    }
    if n !in names && Dbo(n) in synced && !fails(Dbo(n)) {
      assert Dbo(n) in NeedEnable(names, synced);
      BareIsPlain(Dbo(n));
      DboInjective(n, Bare(Dbo(n)));
      assert Dbo(n) in Succeeding(NeedEnable(names, synced), fails);
    }
  }

  // A table whose statement fails stays as it was, and every other is tracked exactly when it is synced.
  lemma RoundTracks(names: set<string>, synced: set<string>, fails: string -> bool, n: string)
    requires Manageable(names, synced)
    ensures n in AfterRound(names, synced, fails) <==> if fails(Dbo(n)) then n in names else Dbo(n) in synced
  {
    EnabledNames(names, synced, fails, n);
    var disabled := Succeeding(NeedDisable(names, synced), fails);
    if t :| t in disabled && Bare(t) == n {
      var m :| m in names && Dbo(m) == t;
      BareOfDbo(m);
    }
    if n in names && Dbo(n) !in synced && !fails(Dbo(n)) {
      BareOfDbo(n);
      assert Dbo(n) in disabled;
    }
  }

  // Main result: an undisturbed round makes the tracked tables the synced ones exactly when all it
  // has to enable are plain names of schema dbo and all it has to disable are plain.
  lemma RoundConvergesIff(names: set<string>, synced: set<string>, fails: string -> bool)
    requires forall t :: t in synced || t in Tracked(names) ==> !fails(t)
    ensures Tracked(AfterRound(names, synced, fails)) == synced <==> Manageable(names, synced)
  {
    if Manageable(names, synced) {
      RoundConverges(names, synced, fails);
    }
    if Tracked(AfterRound(names, synced, fails)) == synced {
      OnlyIfManageable(names, synced, fails);
    }
  }

  lemma RoundConverges(names: set<string>, synced: set<string>, fails: string -> bool)
    requires forall t :: t in synced || t in Tracked(names) ==> !fails(t)
    requires Manageable(names, synced)
    ensures Tracked(AfterRound(names, synced, fails)) == synced
  {
    var after := AfterRound(names, synced, fails);
    forall t | t in synced
      ensures t in Tracked(after)
    {
      if t in Tracked(names) {
        var n :| n in names && Dbo(n) == t;
        RoundTracks(names, synced, fails, n);
      } else {
        RoundTracks(names, synced, fails, Bare(t));
      }
    }
    forall n | n in after
      ensures Dbo(n) in synced
    {
      RoundTracks(names, synced, fails, n);
    }
  }

  lemma OnlyIfManageable(names: set<string>, synced: set<string>, fails: string -> bool)
    requires Tracked(AfterRound(names, synced, fails)) == synced
    ensures Manageable(names, synced)
  {
    var after := AfterRound(names, synced, fails);
    forall t | t in NeedEnable(names, synced)
      ensures t == Dbo(Bare(t))
    {
      var n :| n in after && Dbo(n) == t;
      TrackedIff(names, n);
      var u :| u in NeedEnable(names, synced) && Bare(u) == n;
      BareIsPlain(u);
      BareOfDbo(n);
    }
    forall n | n in names && Dbo(n) !in synced
      ensures Plain(n)
    {
      TrackedIff(after, n);
      var u :| u in NeedDisable(names, synced) && Bare(u) == n;
      BareIsPlain(u);
    }
  }

  // A synced table of another schema never settles: one round tracks its namesake in dbo, the next
  // round stops tracking it again.
  lemma ForeignSchemaOscillates(x: string, fails: string -> bool)
    requires Plain(x) && forall t :: !fails(t)
    ensures var synced := {"s." + x};
            AfterRound({}, synced, fails) == {x} && AfterRound({x}, synced, fails) == {}
  {
    var t := "s." + x;
    SplitAtLast("s", '.', x);
    assert t == "s" + ['.'] + x && Bare(t) == x;
    assert t[0] != Dbo(x)[0];
    BareOfDbo(x);
    assert NeedEnable({}, {t}) == {t} && NeedDisable({}, {t}) == {};
    assert Tracked({x}) == {Dbo(x)};
    assert NeedEnable({x}, {t}) == {t} && NeedDisable({x}, {t}) == {Dbo(x)};
    assert Succeeding({t}, fails) == {t} && Succeeding({Dbo(x)}, fails) == {Dbo(x)};
    assert BareNames({t}) == {x} && BareNames({Dbo(x)}) == {x};
  }

  // ---------- topics ----------

  function Prefixes(expected: set<string>): set<string> {
    set t | t in expected && '.' in t :: t[..FindLast(t, '.')] + "."
  }

  // A topic is matched by the prefix of some expected topic, or by an expected name without a dot.
  function Matching(all: set<string>, expected: set<string>): set<string> {
    set t | t in all && ((exists p :: p in Prefixes(expected) && p <= t) || (t in expected && '.' !in t))
  }

  // The two names agree up to and including the last dot of the first.
  predicate SharesPrefix(e: string, t: string) {
    exists i :: 0 <= i < |e| && e[i] == '.' && '.' !in e[i + 1..] && e[..i + 1] <= t
  }

  lemma PrefixIff(expected: set<string>, t: string)
    ensures (exists p :: p in Prefixes(expected) && p <= t) <==> exists e :: e in expected && SharesPrefix(e, t)
  {
    if p :| p in Prefixes(expected) && p <= t {
      var e :| e in expected && '.' in e && p == e[..FindLast(e, '.')] + ".";
      PrefixShared(e, t);
    }
    if e :| e in expected && SharesPrefix(e, t) {
      PrefixShared(e, t);
      assert e[..FindLast(e, '.')] + "." in Prefixes(expected);
    }
  }

  lemma PrefixShared(e: string, t: string)
    ensures SharesPrefix(e, t) <==> '.' in e && e[..FindLast(e, '.')] + "." <= t
  {
    if '.' in e {
      var i := FindLast(e, '.');
      assert e[..i + 1] == e[..i] + "." && '.' !in e[i + 1..];
    }
    if i :| 0 <= i < |e| && e[i] == '.' && '.' !in e[i + 1..] && e[..i + 1] <= t {
      LastDot(e, i);
    }
  }

  lemma LastDot(e: string, i: nat)
    requires i < |e| && e[i] == '.' && '.' !in e[i + 1..]
    ensures FindLast(e, '.') == i
  {
    SplitAtLast(e[..i], '.', e[i + 1..]);
    assert e == e[..i] + ['.'] + e[i + 1..];
  }

  // Main result: the missing topics are exactly the expected ones that do not exist, and a topic is
  // deprecated exactly when it exists, is not expected and shares the dotted prefix of an expected one.
  lemma TopicsReconciled(all: set<string>, expected: set<string>)
    ensures expected - Matching(all, expected) == expected - all
    ensures forall t :: t in Matching(all, expected) - expected <==>
              t in all && t !in expected && exists e :: e in expected && SharesPrefix(e, t)
  {
    forall t
      ensures t in Matching(all, expected) - expected <==>
              t in all && t !in expected && exists e :: e in expected && SharesPrefix(e, t)
    {
      PrefixIff(expected, t);
    }
    forall t | t in expected && t in all
      ensures t in Matching(all, expected)
    {
      if '.' in t {
        var d := FindLast(t, '.');
        var p := t[..d] + ".";
        assert d >= 0 && t[..d + 1] == p;
        assert p in Prefixes(expected) && p <= t;
      }
    }
  }
}
