// The alert proxy of prometheus/proxy-webhook/main.go: one start time per incident, and round-robin
// forwarding.

module AlertProxy {
  type Fingerprint = int
  type Time = int
  type Labels = map<string, string>

  datatype Alert = Alert(labels: Labels, startsAt: Time, resolved: bool, fingerprint: Fingerprint)

  // The hash is any function of the labels without the severity.
  type Hash = Labels -> Fingerprint

  function Key(a: Alert, hash: Hash): Fingerprint {
    hash(a.labels - {"severity"})
  }

  // The same labels and values at every name but severity.
  predicate SameIncident(a: Alert, b: Alert) {
    forall n :: n in a.labels.Keys + b.labels.Keys && n != "severity" ==>
      n in a.labels && n in b.labels && a.labels[n] == b.labels[n]
  }

  ghost predicate Injective(hash: Hash) {
    forall x: Labels, y: Labels :: hash(x) == hash(y) ==> x == y
  }

  // Alerts that differ in severity only have one key, and with an injective hash no others have.
  lemma KeyIsIncident(a: Alert, b: Alert, hash: Hash)
    ensures SameIncident(a, b) ==> Key(a, hash) == Key(b, hash)
    ensures Injective(hash) && Key(a, hash) == Key(b, hash) ==> SameIncident(a, b)
  {
    var x, y := a.labels - {"severity"}, b.labels - {"severity"};
    if SameIncident(a, b) {
      assert forall n :: n in x <==> n in y;
      assert x == y;
    }
    if x == y {
      forall n | n in a.labels.Keys + b.labels.Keys && n != "severity"
        ensures n in a.labels && n in b.labels && a.labels[n] == b.labels[n]
      {
        assert n in x && n in y && x[n] == y[n];
      }
    }
  }

  // ---------- the store ----------

  type Starts = map<Fingerprint, Time>

  class FingerprintStore {
    var store: Starts

    constructor ()
      ensures store == map[]
    {
      store := map[];
    }

    method SetIfAbsent(fp: Fingerprint, t: Time) returns (r: Time)
      modifies this
      ensures store == AfterSet(old(store), fp, t) && fp in store && r == store[fp]
    {
      if fp in store {
        return store[fp];
      }
      store := store[fp := t];
      return t;
    }

    method Delete(fp: Fingerprint)
      modifies this
      ensures store == old(store) - {fp}
    {
      store := store - {fp};
    }
  }

  function AfterSet(m: Starts, fp: Fingerprint, t: Time): Starts {
    if fp in m then m else m[fp := t]
  }

  // ---------- the alert loop of one request ----------

  function Stored(m: Starts, a: Alert, hash: Hash): Starts {
    var s := AfterSet(m, Key(a, hash), a.startsAt);
    if a.resolved then s - {Key(a, hash)} else s
  }

  function Rewritten(m: Starts, a: Alert, hash: Hash): Alert {
    a.(startsAt := AfterSet(m, Key(a, hash), a.startsAt)[Key(a, hash)], fingerprint := Key(a, hash))
  }

  function StoreAfter(m: Starts, alerts: seq<Alert>, hash: Hash): Starts {
    if alerts == [] then m
    else Stored(StoreAfter(m, alerts[..|alerts| - 1], hash), alerts[|alerts| - 1], hash)
  }

  function RewrittenAll(m: Starts, alerts: seq<Alert>, hash: Hash): (r: seq<Alert>)
    ensures |r| == |alerts|
  {
    if alerts == [] then []
    else
      var init, last := alerts[..|alerts| - 1], alerts[|alerts| - 1];
      RewrittenAll(m, init, hash) + [Rewritten(StoreAfter(m, init, hash), last, hash)]
  }

  lemma RewriteSnoc(m: Starts, alerts: seq<Alert>, i: nat, hash: Hash)
    requires i < |alerts|
    ensures StoreAfter(m, alerts[..i + 1], hash) == Stored(StoreAfter(m, alerts[..i], hash), alerts[i], hash)
    ensures RewrittenAll(m, alerts[..i + 1], hash) ==
            RewrittenAll(m, alerts[..i], hash) + [Rewritten(StoreAfter(m, alerts[..i], hash), alerts[i], hash)]
  {
    assert alerts[..i + 1][..i] == alerts[..i];
  }

  method RewriteAlerts(alerts: array<Alert>, store: FingerprintStore, hash: Hash)
    modifies alerts, store
    ensures alerts[..] == RewrittenAll(old(store.store), old(alerts[..]), hash)
    ensures store.store == StoreAfter(old(store.store), old(alerts[..]), hash)
  {
    ghost var was, m := alerts[..], store.store;
    for i := 0 to alerts.Length
      invariant alerts[..i] == RewrittenAll(m, was[..i], hash)
      invariant forall j :: i <= j < alerts.Length ==> alerts[j] == was[j]
      invariant store.store == StoreAfter(m, was[..i], hash)
    {
      var a := alerts[i];
      assert a == was[i];
      RewriteSnoc(m, was, i, hash);
      var fp := Key(a, hash);
      var t := store.SetIfAbsent(fp, a.startsAt);
      alerts[i] := a.(startsAt := t, fingerprint := fp);
      if a.resolved {
        store.Delete(fp);
      }
      assert alerts[..i + 1] == alerts[..i] + [alerts[i]];
    }
    assert was[..alerts.Length] == was && alerts[..alerts.Length] == alerts[..];
  }

  // Handling two requests one after the other is handling their alerts as one list.
  lemma {:induction false} RequestsCompose(m: Starts, a: seq<Alert>, b: seq<Alert>, hash: Hash)
    ensures StoreAfter(m, a + b, hash) == StoreAfter(StoreAfter(m, a, hash), b, hash)
    ensures RewrittenAll(m, a + b, hash) ==
            RewrittenAll(m, a, hash) + RewrittenAll(StoreAfter(m, a, hash), b, hash)
  {
    if b == [] {
      assert a + b == a;
    } else {
      assert (a + b)[..|a + b| - 1] == a + b[..|b| - 1];
      RequestsCompose(m, a, b[..|b| - 1], hash);
    }
  }

  // ---------- one incident, one start time ----------

  lemma {:induction false} RewrittenAt(m: Starts, alerts: seq<Alert>, i: nat, hash: Hash)
    requires i < |alerts|
    ensures RewrittenAll(m, alerts, hash)[i] == Rewritten(StoreAfter(m, alerts[..i], hash), alerts[i], hash)
    decreases |alerts|
  {
    if i < |alerts| - 1 {
      RewrittenAt(m, alerts[..|alerts| - 1], i, hash);
      assert alerts[..|alerts| - 1][..i] == alerts[..i];
    }
  }

  // No alert of this key is resolved from i up to, not including, j.
  ghost predicate Unresolved(alerts: seq<Alert>, key: Fingerprint, i: nat, j: nat, hash: Hash)
    requires j <= |alerts|
  {
    forall k :: i <= k < j && Key(alerts[k], hash) == key ==> !alerts[k].resolved
  }

  // The store keeps the start of a running incident.
  lemma {:induction false} StartKept(m: Starts, alerts: seq<Alert>, i: nat, j: nat, hash: Hash)
    requires i < j <= |alerts| && Unresolved(alerts, Key(alerts[i], hash), i, j, hash)
    ensures var key, s := Key(alerts[i], hash), StoreAfter(m, alerts[..j], hash);
            key in s && s[key] == RewrittenAll(m, alerts, hash)[i].startsAt
    decreases j
  {
    var key := Key(alerts[i], hash);
    assert alerts[..j][..j - 1] == alerts[..j - 1] && alerts[..j][j - 1] == alerts[j - 1];
    RewrittenAt(m, alerts, i, hash);
    if i < j - 1 {
      StartKept(m, alerts, i, j - 1, hash);
    }
  }

  lemma OneStartPerKey(m: Starts, alerts: seq<Alert>, i: nat, j: nat, hash: Hash)
    requires i < j < |alerts| && Key(alerts[i], hash) == Key(alerts[j], hash)
    requires Unresolved(alerts, Key(alerts[i], hash), i, j, hash)
    ensures RewrittenAll(m, alerts, hash)[i].startsAt == RewrittenAll(m, alerts, hash)[j].startsAt
  {
    StartKept(m, alerts, i, j, hash);
    RewrittenAt(m, alerts, j, hash);
  }

  // Main result for requests handled one at a time: alerts with equal labels up to severity carry one
  // start time and one fingerprint until one of their key is resolved; nothing else of an alert changes.
  lemma OneStartPerIncident(m: Starts, alerts: seq<Alert>, i: nat, j: nat, hash: Hash)
    requires i < j < |alerts| && SameIncident(alerts[i], alerts[j])
    requires Unresolved(alerts, Key(alerts[i], hash), i, j, hash)
    ensures var r := RewrittenAll(m, alerts, hash);
            && r[i].startsAt == r[j].startsAt && r[i].fingerprint == r[j].fingerprint
            && r[j].labels == alerts[j].labels && r[j].resolved == alerts[j].resolved
  {
    KeyIsIncident(alerts[i], alerts[j], hash);
    OneStartPerKey(m, alerts, i, j, hash);
    RewrittenAt(m, alerts, i, hash);
    RewrittenAt(m, alerts, j, hash);
  }

  // With an injective hash two alerts get one fingerprint exactly when they are of one incident.
  lemma FingerprintIsIncident(m: Starts, alerts: seq<Alert>, i: nat, j: nat, hash: Hash)
    requires i < |alerts| && j < |alerts| && Injective(hash)
    ensures var r := RewrittenAll(m, alerts, hash);
            r[i].fingerprint == r[j].fingerprint <==> SameIncident(alerts[i], alerts[j])
  {
    KeyIsIncident(alerts[i], alerts[j], hash);
    RewrittenAt(m, alerts, i, hash);
    RewrittenAt(m, alerts, j, hash);
  }

  ghost predicate Absent(alerts: seq<Alert>, key: Fingerprint, i: nat, j: nat, hash: Hash)
    requires j <= |alerts|
  {
    forall k :: i <= k < j ==> Key(alerts[k], hash) != key
  }

  lemma {:induction false} GoneAfterResolved(m: Starts, alerts: seq<Alert>, i: nat, j: nat, hash: Hash)
    requires i < j <= |alerts| && alerts[i].resolved
    requires Absent(alerts, Key(alerts[i], hash), i + 1, j, hash)
    ensures Key(alerts[i], hash) !in StoreAfter(m, alerts[..j], hash)
    decreases j
  {
    assert alerts[..j][..j - 1] == alerts[..j - 1] && alerts[..j][j - 1] == alerts[j - 1];
    if i < j - 1 {
      GoneAfterResolved(m, alerts, i, j - 1, hash);
    }
  }

  // ... and the first alert after the resolved one opens a new incident with its own start time.
  lemma ResolvedEndsIncident(m: Starts, alerts: seq<Alert>, i: nat, j: nat, hash: Hash)
    requires i < j < |alerts| && Key(alerts[i], hash) == Key(alerts[j], hash) && alerts[i].resolved
    requires Absent(alerts, Key(alerts[i], hash), i + 1, j, hash)
    ensures RewrittenAll(m, alerts, hash)[j].startsAt == alerts[j].startsAt
  {
    GoneAfterResolved(m, alerts, i, j, hash);
    RewrittenAt(m, alerts, j, hash);
  }
}
