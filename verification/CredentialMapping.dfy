// The aliased dictionaries of kafka/cdc/src/sanitization.py, and masking followed by resolving.

module CredentialMapping {
  import opened Options
  import opened CredentialText

  // ---------- the mapping as values: names own entries, several names may own one ----------

  datatype Mapping = Mapping(owner: map<string, nat>, entries: seq<map<string, string>>)

  predicate Owned(m: Mapping) {
    forall k :: k in m.owner ==> m.owner[k] < |m.entries|
  }

  function Lookup(m: Mapping, name: string): map<string, string>
    requires Owned(m) && name in m.owner
  {
    m.entries[m.owner[name]]
  }

  // The entry of a prefix is created on its first record, unless a hostname already has that name.
  function Opened(m: Mapping, prefix: string): (r: Mapping)
    requires Owned(m)
    ensures Owned(r) && prefix in r.owner
  {
    if prefix in m.owner then m
    else Mapping(m.owner[prefix := |m.entries|], m.entries + [map[]])
  }

  function Stored(m: Mapping, rec: Record): (r: Mapping)
    requires Owned(m)
    ensures Owned(r) && rec.prefix in r.owner
  {
    var o := Opened(m, rec.prefix);
    var id := o.owner[rec.prefix];
    o.(entries := o.entries[id := o.entries[id][rec.field := rec.key]])
  }

  function Add(m: Mapping, rec: Record): (r: Mapping)
    requires Owned(m)
    ensures Owned(r)
  {
    if rec.field !in FIELDS then m
    else
      var s := Stored(m, rec);
      if rec.field == "HOSTNAME" then s.(owner := s.owner[rec.value := s.owner[rec.prefix]]) else s
  }

  function AddAll(recs: seq<Record>): (m: Mapping)
    ensures Owned(m)
  {
    if recs == [] then Mapping(map[], []) else Add(AddAll(recs[..|recs| - 1]), recs[|recs| - 1])
  }

  // The records of a file, or None if some line raises ValueError.
  function ReadLines(lines: seq<string>): Option<seq<Record>> {
    if lines == [] then Some([])
    else
      match ReadLine(lines[|lines| - 1])
      case Malformed => None
      case Skipped => ReadLines(lines[..|lines| - 1])
      case Read(rec) =>
        match ReadLines(lines[..|lines| - 1])
        case None => None
        case Some(recs) => Some(recs + [rec])
  }

  // ---------- parse_credentials on the heap ----------

  class Entry {
    var keys: map<string, string>

    constructor ()
      ensures keys == map[]
    {
      keys := map[];
    }
  }

  // `mapping` is `m`, entry number i being the object objs[i].
  ghost predicate Shows(mapping: map<string, Entry>, objs: seq<Entry>, m: Mapping)
    reads objs
  {
    && Owned(m) && |objs| == |m.entries|
    && (forall i, j :: 0 <= i < j < |objs| ==> objs[i] != objs[j])
    && (forall i :: 0 <= i < |objs| ==> objs[i].keys == m.entries[i])
    && mapping.Keys == m.owner.Keys
    && (forall k :: k in mapping ==> mapping[k] == objs[m.owner[k]])
  }

  method ParseCredentials(lines: seq<string>) returns (r: Option<map<string, Entry>>, ghost objs: seq<Entry>)
    ensures r.None? <==> ReadLines(lines) == None
    ensures r.Some? ==> fresh(objs) && Shows(r.value, objs, AddAll(ReadLines(lines).value))
  {
    var mapping: map<string, Entry> := map[];
    objs := [];
    ghost var recs: seq<Record> := [];
    for i := 0 to |lines|
      invariant ReadLines(lines[..i]) == Some(recs)
      invariant fresh(objs) && Shows(mapping, objs, AddAll(recs))
    {
      ReadLinesSnoc(lines, i);
      match ReadLine(lines[i])
      case Skipped =>
      case Malformed =>
        MalformedStays(lines, i);
        return None, objs;
      case Read(rec) =>
        AddAllSnoc(recs, rec);
        mapping, objs := AddRecord(mapping, rec, objs, AddAll(recs));
        recs := recs + [rec];
    }
    assert lines[..|lines|] == lines;
    return Some(mapping), objs;
  }

  lemma ReadLinesSnoc(lines: seq<string>, i: nat)
    requires i < |lines| && ReadLines(lines[..i]).Some?
    ensures ReadLines(lines[..i + 1]) ==
            match ReadLine(lines[i])
            case Malformed => None
            case Skipped => ReadLines(lines[..i])
            case Read(rec) => Some(ReadLines(lines[..i]).value + [rec])
  {
    assert lines[..i + 1][..i] == lines[..i];
  }

  lemma AddAllSnoc(recs: seq<Record>, rec: Record)
    ensures AddAll(recs + [rec]) == Add(AddAll(recs), rec)
  {
    assert (recs + [rec])[..|recs|] == recs;
  }

  lemma {:induction false} MalformedStays(lines: seq<string>, i: nat)
    requires i < |lines| && ReadLine(lines[i]) == Malformed
    ensures ReadLines(lines) == None
    decreases |lines|
  {
    if i < |lines| - 1 {
      MalformedStays(lines[..|lines| - 1], i);
    }
  }

  // The body of the loop for one record.
  method AddRecord(mapping: map<string, Entry>, rec: Record, ghost objs: seq<Entry>, ghost m: Mapping)
    returns (after: map<string, Entry>, ghost more: seq<Entry>)
    requires Shows(mapping, objs, m)
    modifies objs
    ensures Shows(after, more, Add(m, rec))
    ensures forall i :: 0 <= i < |more| ==> fresh(more[i]) || more[i] in objs
  {
    after, more := mapping, objs;
    if rec.field in FIELDS {
      after, more := OpenEntry(mapping, rec.prefix, objs, m);
      StoreKey(after, rec, more, Opened(m, rec.prefix));
      if rec.field == "HOSTNAME" {
        after := after[rec.value := after[rec.prefix]];
      }
    }
  }

  method StoreKey(mapping: map<string, Entry>, rec: Record, ghost objs: seq<Entry>, ghost m: Mapping)
    requires Shows(mapping, objs, m) && rec.prefix in m.owner
    modifies objs
    ensures var id := m.owner[rec.prefix];
            Shows(mapping, objs, m.(entries := m.entries[id := m.entries[id][rec.field := rec.key]]))
  {
    var entry := mapping[rec.prefix];
    entry.keys := entry.keys[rec.field := rec.key];
  }

  method OpenEntry(mapping: map<string, Entry>, prefix: string, ghost objs: seq<Entry>, ghost m: Mapping)
    returns (after: map<string, Entry>, ghost more: seq<Entry>)
    requires Shows(mapping, objs, m)
    ensures Shows(after, more, Opened(m, prefix)) && prefix in after
    ensures forall i :: 0 <= i < |more| ==> fresh(more[i]) || more[i] in objs
  {
    after, more := mapping, objs;
    if prefix !in after {
      var e := new Entry();
      after := after[prefix := e];
      more := more + [e];
    }
  }

  // ---------- replace_config ----------

  class Config {
    var fields: map<string, string>

    constructor (fields: map<string, string>)
      ensures this.fields == fields
    {
      this.fields := fields;
    }
  }

  const HOST := "database.hostname"
  const PORT := "database.port"
  const USER := "database.user"
  const PASS := "database.password"

  predicate IsMasked(value: string) {
    OPEN + PATH <= value
  }

  // KeyError: the entry lacks a key, after the settings before it have been overwritten.
  datatype Outcome = Unchanged | Updated | KeyError

  ghost function KeysOf(mapping: map<string, Entry>): map<string, map<string, string>>
    reads mapping.Values
  {
    map name | name in mapping :: mapping[name].keys
  }

  method ReplaceConfig(config: Config, mapping: map<string, Entry>) returns (r: Outcome)
    modifies config
    ensures (config.fields, r) == Replaced(old(config.fields), KeysOf(mapping))
  {
    if HOST in config.fields && IsMasked(config.fields[HOST]) {
      return Unchanged;
    }
    if HOST in config.fields && config.fields[HOST] in mapping {
      var entry := mapping[config.fields[HOST]];
      if "HOSTNAME" !in entry.keys {
        return KeyError;
      }
      config.fields := config.fields[HOST := Placeholder(entry.keys["HOSTNAME"])];
      if "PORT" !in entry.keys {
        return KeyError;
      }
      config.fields := config.fields[PORT := Placeholder(entry.keys["PORT"])];
      if "USER" !in entry.keys {
        return KeyError;
      }
      config.fields := config.fields[USER := Placeholder(entry.keys["USER"])];
      if "PASSWORD" !in entry.keys {
        return KeyError;
      }
      config.fields := config.fields[PASS := Placeholder(entry.keys["PASSWORD"])];
      return Updated;
    }
    return Unchanged;
  }

  function Masked(fields: map<string, string>, keys: map<string, string>): (map<string, string>, Outcome) {
    if "HOSTNAME" !in keys then (fields, KeyError)
    else
      var f1 := fields[HOST := Placeholder(keys["HOSTNAME"])];
      if "PORT" !in keys then (f1, KeyError)
      else
        var f2 := f1[PORT := Placeholder(keys["PORT"])];
        if "USER" !in keys then (f2, KeyError)
        else
          var f3 := f2[USER := Placeholder(keys["USER"])];
          if "PASSWORD" !in keys then (f3, KeyError)
          else (f3[PASS := Placeholder(keys["PASSWORD"])], Updated)
  }

  // The settings after replace_config, given the keys each name stands for.
  function Replaced(fields: map<string, string>, keys: map<string, map<string, string>>): (map<string, string>, Outcome) {
    if HOST in fields && !IsMasked(fields[HOST]) && fields[HOST] in keys
    then Masked(fields, keys[fields[HOST]])
    else (fields, Unchanged)
  }

  lemma MaskedHost(fields: map<string, string>, keys: map<string, string>)
    requires "HOSTNAME" in keys
    ensures var masked := Masked(fields, keys).0;
            HOST in masked && masked[HOST] == Placeholder(keys["HOSTNAME"]) && IsMasked(masked[HOST])
  {
    assert HOST[9] != PORT[9] && HOST[9] != USER[9] && HOST[9] != PASS[9];
    assert Placeholder(keys["HOSTNAME"])[..|OPEN + PATH|] == OPEN + PATH;
  }

  // A hostname that does not begin like a placeholder is never taken for a mask.
  lemma PlainHostUnmasked(host: string)
    requires host == "" || host[0] != '$'
    ensures !IsMasked(host)
  {
    assert (OPEN + PATH)[0] == '$';
  }

  // Masking again changes nothing, whatever the configuration and even after a KeyError.
  lemma ReplacedTwice(fields: map<string, string>, keys: map<string, map<string, string>>)
    ensures var (once, outcome) := Replaced(fields, keys);
            Replaced(once, keys) == (once, if outcome == KeyError && once == fields then KeyError else Unchanged)
  {
    if HOST in fields && !IsMasked(fields[HOST]) && fields[HOST] in keys && "HOSTNAME" in keys[fields[HOST]] {
      MaskedHost(fields, keys[fields[HOST]]);
    }
  }

  // ---------- resolve_placeholders ----------

  const DEFAULT_FILE := "connect-credentials.properties"

  datatype Files = Files(exist: string -> bool, load: string -> map<string, string>) {
    function Choose(path: string): string {
      if path != "" && !exist(path) then DEFAULT_FILE else path
    }
  }

  function Resolve(value: string, files: Files): string {
    match Extract(value)
    case None => value
    case Some((path, key)) =>
      if path == "" || key == "" then value
      else
        var properties := files.load(files.Choose(path));
        if key in properties then properties[key] else "<MISSING: " + key + ">"
  }

  // A value without a placeholder stays as it is.
  lemma ResolvePlain(value: string, files: Files)
    requires forall p, k :: !Matches(value, p, k)
    ensures Resolve(value, files) == value
  {
    ExtractIff(value, "", "");
  }

  // So does one whose path or key is empty.
  lemma ResolveEmpty(value: string, path: string, key: string, files: Files)
    ensures LazyMatch(value, path, key) && (path == "" || key == "") ==> Resolve(value, files) == value
  {
    ExtractIff(value, path, key);
  }

  // The value of the key in the file named, or in the default file if that one does not exist; a
  // marker exactly when the file chosen lacks the key.
  lemma ResolveChosen(value: string, path: string, key: string, files: Files)
    ensures LazyMatch(value, path, key) && path != "" && key != "" ==>
              var chosen := files.load(if files.exist(path) then path else "connect-credentials.properties");
              Resolve(value, files) == if key in chosen then chosen[key] else "<MISSING: " + key + ">"
  {
    ExtractIff(value, path, key);
  }

  predicate DistinctKeys(recs: seq<Record>) {
    forall i, j :: 0 <= i < j < |recs| ==> recs[i].key != recs[j].key
  }

  function ValuesOf(recs: seq<Record>): map<string, string> {
    if recs == [] then map[]
    else ValuesOf(recs[..|recs| - 1])[recs[|recs| - 1].key := recs[|recs| - 1].value]
  }

  // load_properties on the same lines: a repeated key makes the strict parser fail, giving {}.
  function Properties(recs: seq<Record>): map<string, string> {
    if DistinctKeys(recs) then ValuesOf(recs) else map[]
  }

  // ---------- what the mapping holds at the end, whatever the order of the lines ----------

  // A hostname may equal a prefix only if it is its own.
  predicate Disjoint(recs: seq<Record>) {
    forall i, j :: 0 <= i < |recs| && 0 <= j < |recs| ==> Apart(recs[i], recs[j])
  }

  predicate Apart(host: Record, other: Record) {
    host.field == "HOSTNAME" && other.field in FIELDS && host.value == other.prefix ==> host.prefix == other.prefix
  }

  // The keys recorded for one prefix.
  function FieldsOf(prefix: string, recs: seq<Record>): map<string, string> {
    if recs == [] then map[]
    else
      var rec := recs[|recs| - 1];
      var before := FieldsOf(prefix, recs[..|recs| - 1]);
      if rec.prefix == prefix && rec.field in FIELDS then before[rec.field := rec.key] else before
  }

  // The prefix a hostname belongs to: that of the last line naming it.
  function HostOf(host: string, recs: seq<Record>): Option<string> {
    if recs == [] then None
    else
      var rec := recs[|recs| - 1];
      if rec.field == "HOSTNAME" && rec.value == host then Some(rec.prefix)
      else HostOf(host, recs[..|recs| - 1])
  }

  predicate Seen(prefix: string, recs: seq<Record>) {
    exists i :: 0 <= i < |recs| && recs[i].prefix == prefix && recs[i].field in FIELDS
  }

  ghost predicate Holds(m: Mapping, recs: seq<Record>) {
    && Owned(m)
    && (forall p :: Seen(p, recs) ==> p in m.owner && Lookup(m, p) == FieldsOf(p, recs))
    && (forall p, q :: Seen(p, recs) && Seen(q, recs) && p != q ==> m.owner[p] != m.owner[q])
    && (forall h :: HostOf(h, recs).Some? ==>
          && Seen(HostOf(h, recs).value, recs)
          && h in m.owner && m.owner[h] == m.owner[HostOf(h, recs).value])
    && (forall k :: k in m.owner ==> Seen(k, recs) || HostOf(k, recs).Some?)
  }

  lemma {:induction false} AddAllHolds(recs: seq<Record>)
    requires Disjoint(recs)
    ensures Holds(AddAll(recs), recs)
  {
    if recs != [] {
      var init, rec := recs[..|recs| - 1], recs[|recs| - 1];
      AddAllHolds(init);
      AddHolds(AddAll(init), init, rec, recs);
    }
  }

  lemma {:induction false} HostOfSeen(host: string, recs: seq<Record>)
    requires HostOf(host, recs).Some?
    ensures exists i :: 0 <= i < |recs| && recs[i].field == "HOSTNAME" && recs[i].value == host
                        && recs[i].prefix == HostOf(host, recs).value
  {
    var rec := recs[|recs| - 1];
    if rec.field == "HOSTNAME" && rec.value == host {
    } else {
      HostOfSeen(host, recs[..|recs| - 1]);
    }
  }

  lemma {:induction false} UnseenHasNoFields(p: string, recs: seq<Record>)
    requires !Seen(p, recs)
    ensures FieldsOf(p, recs) == map[]
  {
    if recs != [] {
      var init := recs[..|recs| - 1];
      assert Seen(p, init) ==> Seen(p, recs) by {
        SeenSnoc(p, init, recs[|recs| - 1]);
        assert recs == init + [recs[|recs| - 1]];
      }
      UnseenHasNoFields(p, init);
    }
  }

  lemma SeenSnoc(p: string, init: seq<Record>, rec: Record)
    ensures Seen(p, init + [rec]) <==> Seen(p, init) || (rec.prefix == p && rec.field in FIELDS)
  {
    var recs := init + [rec];
    if Seen(p, init) {
      var i :| 0 <= i < |init| && init[i].prefix == p && init[i].field in FIELDS;
      assert recs[i] == init[i];
    }
    assert recs[|init|] == rec;
  }

  // A name already owned can only be a prefix seen before: a foreign hostname is ruled out.
  lemma OwnedPrefixWasSeen(m: Mapping, init: seq<Record>, rec: Record, recs: seq<Record>)
    requires Holds(m, init) && recs == init + [rec] && Disjoint(recs)
    requires rec.field in FIELDS && rec.prefix in m.owner
    ensures Seen(rec.prefix, init)
  {
    if HostOf(rec.prefix, init).Some? {
      HostOfSeen(rec.prefix, init);
      var i :| 0 <= i < |init| && init[i].field == "HOSTNAME" && init[i].value == rec.prefix
        && init[i].prefix == HostOf(rec.prefix, init).value;
      assert recs[i] == init[i] && recs[|init|] == rec;
      assert Apart(recs[i], recs[|init|]);
    }
  }

  // Storing the record, before a hostname is aliased.
  lemma StoredHolds(m: Mapping, init: seq<Record>, rec: Record, recs: seq<Record>)
    requires Holds(m, init) && recs == init + [rec] && Disjoint(recs) && rec.field in FIELDS
    ensures var s := Stored(m, rec);
            && s.owner.Keys == m.owner.Keys + {rec.prefix}
            && (forall k :: k in m.owner ==> s.owner[k] == m.owner[k])
            && (forall p :: Seen(p, recs) ==> p in s.owner && Lookup(s, p) == FieldsOf(p, recs))
            && (forall p, q :: Seen(p, recs) && Seen(q, recs) && p != q ==> s.owner[p] != s.owner[q])
  {
    var s := Stored(m, rec);
    assert recs[..|recs| - 1] == init;
    if rec.prefix in m.owner {
      OwnedPrefixWasSeen(m, init, rec, recs);
    } else {
      UnseenHasNoFields(rec.prefix, init);
    }
    forall p | Seen(p, recs)
      ensures p in s.owner && Lookup(s, p) == FieldsOf(p, recs)
      ensures p == rec.prefix || Seen(p, init)
    {
      SeenSnoc(p, init, rec);
    }
  }

  lemma AddHolds(m: Mapping, init: seq<Record>, rec: Record, recs: seq<Record>)
    requires Holds(m, init) && recs == init + [rec] && Disjoint(recs)
    ensures Holds(Add(m, rec), recs)
  {
    if rec.field == "HOSTNAME" {
      AliasHolds(m, init, rec, recs);
    } else if rec.field in FIELDS {
      FieldHolds(m, init, rec, recs);
    } else {
      OtherHolds(m, init, rec, recs);
    }
  }

  lemma FieldHolds(m: Mapping, init: seq<Record>, rec: Record, recs: seq<Record>)
    requires Holds(m, init) && recs == init + [rec] && Disjoint(recs)
    requires rec.field in FIELDS && rec.field != "HOSTNAME"
    ensures Holds(Add(m, rec), recs)
  {
    SameHosts(init, rec);
    SeenAll(init, rec);
    StoredHolds(m, init, rec, recs);
  }

  lemma OtherHolds(m: Mapping, init: seq<Record>, rec: Record, recs: seq<Record>)
    requires Holds(m, init) && recs == init + [rec] && rec.field !in FIELDS
    ensures Holds(Add(m, rec), recs)
  {
    SameHosts(init, rec);
    SeenAll(init, rec);
    assert recs[..|recs| - 1] == init;
  }

  lemma SameHosts(init: seq<Record>, rec: Record)
    requires rec.field != "HOSTNAME"
    ensures forall h :: HostOf(h, init + [rec]) == HostOf(h, init)
  {
    assert (init + [rec])[..|init|] == init;
  }

  lemma SeenAll(init: seq<Record>, rec: Record)
    ensures forall p :: Seen(p, init + [rec]) <==> Seen(p, init) || (rec.prefix == p && rec.field in FIELDS)
  {
    forall p
      ensures Seen(p, init + [rec]) <==> Seen(p, init) || (rec.prefix == p && rec.field in FIELDS)
    {
      SeenSnoc(p, init, rec);
    }
  }

  // A hostname that is a prefix seen before is the record's own prefix, so aliasing moves no prefix.
  lemma AliasMovesNoPrefix(m: Mapping, init: seq<Record>, rec: Record, recs: seq<Record>, p: string)
    requires Holds(m, init) && recs == init + [rec] && Disjoint(recs) && rec.field == "HOSTNAME"
    requires Seen(p, recs) && p in Stored(m, rec).owner
    ensures Add(m, rec).owner[p] == Stored(m, rec).owner[p]
  {
    if p == rec.value {
      var i :| 0 <= i < |recs| && recs[i].prefix == p && recs[i].field in FIELDS;
      assert recs[|init|] == rec && Apart(recs[|init|], recs[i]);
    }
  }

  lemma AliasHolds(m: Mapping, init: seq<Record>, rec: Record, recs: seq<Record>)
    requires Holds(m, init) && recs == init + [rec] && Disjoint(recs) && rec.field == "HOSTNAME"
    ensures Holds(Add(m, rec), recs)
  {
    StoredHolds(m, init, rec, recs);
    var s, a := Stored(m, rec), Add(m, rec);
    assert recs[..|recs| - 1] == init && recs[|recs| - 1] == rec;
    forall p | Seen(p, recs)
      ensures a.owner[p] == s.owner[p]
    {
      AliasMovesNoPrefix(m, init, rec, recs, p);
    }
    SeenSnoc(rec.prefix, init, rec);
    forall h | HostOf(h, recs).Some?
      ensures Seen(HostOf(h, recs).value, recs) && h in a.owner && a.owner[h] == a.owner[HostOf(h, recs).value]
    {
      if h != rec.value {
        SeenSnoc(HostOf(h, init).value, init, rec);
      }
    }
    forall k | k in a.owner
      ensures Seen(k, recs) || HostOf(k, recs).Some?
    {
      SeenSnoc(k, init, rec);
    }
  }

  // ---------- masking then resolving ----------

  predicate FromText(rec: Record) {
    rec.key == rec.prefix + "_" + rec.field
  }

  lemma ReadLineFromText(raw: string)
    ensures ReadLine(raw).Read? ==> FromText(ReadLine(raw).rec)
  {
    if ReadLine(raw).Read? {
      var key := ReadLine(raw).rec.key;
      var us := FindLast(key, '_');
      assert key == key[..us] + "_" + key[us + 1..];
    }
  }

  lemma {:induction false} ReadLinesFromText(lines: seq<string>)
    requires ReadLines(lines).Some?
    ensures forall rec :: rec in ReadLines(lines).value ==> FromText(rec)
  {
    if lines != [] {
      ReadLineFromText(lines[|lines| - 1]);
      ReadLinesFromText(lines[..|lines| - 1]);
    }
  }

  // Keys are unique and can be written inside a placeholder.
  predicate Printable(recs: seq<Record>) {
    DistinctKeys(recs) && forall rec :: rec in recs ==> FromText(rec) && '}' !in rec.key && '\n' !in rec.key
  }

  // What a credentials file promises besides: hostnames apart from foreign prefixes, and all four
  // settings for every host.
  ghost predicate WellFormed(recs: seq<Record>) {
    && Printable(recs) && Disjoint(recs)
    && (forall rec :: rec in recs && rec.field == "HOSTNAME" ==> FieldsOf(rec.prefix, recs).Keys == FIELDS)
  }

  lemma {:induction false} ValueOfKey(recs: seq<Record>, i: nat)
    requires DistinctKeys(recs) && i < |recs|
    ensures recs[i].key in ValuesOf(recs) && ValuesOf(recs)[recs[i].key] == recs[i].value
  {
    if i < |recs| - 1 {
      ValueOfKey(recs[..|recs| - 1], i);
    }
  }

  lemma {:induction false} FieldRecorded(p: string, recs: seq<Record>, i: nat)
    requires i < |recs| && recs[i].prefix == p && recs[i].field in FIELDS
    requires forall rec :: rec in recs ==> FromText(rec)
    ensures recs[i].field in FieldsOf(p, recs) && FieldsOf(p, recs)[recs[i].field] == recs[i].key
  {
    var last := recs[|recs| - 1];
    assert last in recs && recs[i] in recs;
    if i < |recs| - 1 {
      FieldRecorded(p, recs[..|recs| - 1], i);
    }
  }

  function SettingOf(field: string): string
    requires field in FIELDS
  {
    if field == "HOSTNAME" then HOST
    else if field == "PORT" then PORT
    else if field == "USER" then USER
    else PASS
  }

  // A placeholder for a recorded key resolves to the value on its line.
  lemma KeyResolves(recs: seq<Record>, i: nat, files: Files)
    requires Printable(recs) && i < |recs|
    requires files.load(files.Choose(PATH)) == Properties(recs)
    ensures Resolve(Placeholder(recs[i].key), files) == recs[i].value
  {
    PathIsPlain();
    assert recs[i] in recs;
    PlaceholderRoundTrip(PATH, recs[i].key);
    ValueOfKey(recs, i);
    assert recs[i].key[|recs[i].prefix|] == '_';
  }

  // ---------- the hostname: exactly when it comes back ----------

  // Line j is the last one naming the host.
  predicate LastNaming(recs: seq<Record>, j: nat, host: string) {
    && j < |recs| && Names(recs[j], host)
    && forall k :: j < k < |recs| ==> !Names(recs[k], host)
  }

  predicate Names(rec: Record, host: string) {
    rec.field == "HOSTNAME" && rec.value == host
  }

  // A later line gives a hostname to the host as if it were a prefix.
  predicate ClaimedAfter(recs: seq<Record>, j: nat, host: string) {
    exists k :: j < k < |recs| && HostLine(recs[k], host)
  }

  predicate HostLine(rec: Record, prefix: string) {
    rec.field == "HOSTNAME" && rec.prefix == prefix
  }

  predicate HasHostLine(prefix: string, recs: seq<Record>) {
    exists i :: 0 <= i < |recs| && HostLine(recs[i], prefix)
  }

  lemma HostLineSnoc(prefix: string, init: seq<Record>, rec: Record)
    ensures HasHostLine(prefix, init + [rec]) <==> HasHostLine(prefix, init) || HostLine(rec, prefix)
  {
    var recs := init + [rec];
    if HasHostLine(prefix, init) {
      var i :| 0 <= i < |init| && HostLine(init[i], prefix);
      assert recs[i] == init[i];
    }
    assert recs[|init|] == rec;
  }

  // Keys are unique, so a prefix has one HOSTNAME line.
  lemma OneHostLine(init: seq<Record>, rec: Record)
    requires DistinctKeys(init + [rec]) && (forall x :: x in init + [rec] ==> FromText(x)) && rec.field == "HOSTNAME"
    ensures !HasHostLine(rec.prefix, init)
  {
    var recs := init + [rec];
    forall i | 0 <= i < |init|
      ensures !HostLine(init[i], rec.prefix)
    {
      assert recs[i] == init[i] && recs[|init|] == rec && recs[i].key != recs[|init|].key;
      assert FromText(recs[i]) && FromText(recs[|init|]);
    }
  }

  // The record writes into the entry of this name.
  predicate Writes(m: Mapping, rec: Record, name: string)
    requires Owned(m) && name in m.owner
  {
    rec.field in FIELDS && rec.prefix in m.owner && m.owner[rec.prefix] == m.owner[name]
  }

  // What one record does to the names it does not rebind.
  lemma AddEffect(m: Mapping, rec: Record, name: string)
    requires Owned(m) && name in m.owner && !Names(rec, name)
    ensures var a := Add(m, rec);
            && name in a.owner && a.owner[name] == m.owner[name]
            && Lookup(a, name) == if Writes(m, rec, name) then Lookup(m, name)[rec.field := rec.key] else Lookup(m, name)
  {
  }

  // A name that joins an old entry is the hostname of a record whose prefix has that entry.
  lemma Joins(m: Mapping, rec: Record, name: string, host: string)
    requires Owned(m) && host in m.owner && !Names(rec, host)
    requires name in Add(m, rec).owner && Add(m, rec).owner[name] == m.owner[host]
    ensures (name in m.owner && m.owner[name] == m.owner[host]) || (Names(rec, name) && Writes(m, rec, host))
  {
  }

  // Of two names of one entry at least one has had its HOSTNAME line.
  ghost predicate OneWaiting(m: Mapping, recs: seq<Record>) {
    && Owned(m)
    && forall p, q :: p in m.owner && q in m.owner && p != q && m.owner[p] == m.owner[q] ==>
         HasHostLine(p, recs) || HasHostLine(q, recs)
  }

  lemma {:induction false} OneWaitingHolds(recs: seq<Record>)
    requires DistinctKeys(recs) && forall x :: x in recs ==> FromText(x)
    ensures OneWaiting(AddAll(recs), recs)
  {
    if recs != [] {
      var init, rec := recs[..|recs| - 1], recs[|recs| - 1];
      assert recs == init + [rec];
      OneWaitingHolds(init);
      OneWaitingKept(AddAll(init), init, rec);
    }
  }

  lemma OneWaitingKept(m: Mapping, init: seq<Record>, rec: Record)
    requires OneWaiting(m, init)
    requires DistinctKeys(init + [rec]) && forall x :: x in init + [rec] ==> FromText(x)
    ensures OneWaiting(Add(m, rec), init + [rec])
  {
    var a, recs := Add(m, rec), init + [rec];
    forall p, q | p in a.owner && q in a.owner && p != q && a.owner[p] == a.owner[q]
      ensures HasHostLine(p, recs) || HasHostLine(q, recs)
    {
      HostLineSnoc(p, init, rec);
      HostLineSnoc(q, init, rec);
      if Names(rec, q) {
        NewNameWaits(m, init, rec, q, p);
      } else if Names(rec, p) {
        NewNameWaits(m, init, rec, p, q);
      }
    }
  }

  // The new name joins names that have all had their HOSTNAME line, this one included.
  lemma NewNameWaits(m: Mapping, init: seq<Record>, rec: Record, joined: string, other: string)
    requires OneWaiting(m, init) && Names(rec, joined) && other != joined
    requires DistinctKeys(init + [rec]) && forall x :: x in init + [rec] ==> FromText(x)
    requires other in Add(m, rec).owner && Add(m, rec).owner[other] == Add(m, rec).owner[joined]
    ensures HasHostLine(other, init + [rec])
  {
    HostLineSnoc(other, init, rec);
    OneHostLine(init, rec);
    if other != rec.prefix {
      assert rec.prefix in m.owner && other in m.owner && m.owner[other] == m.owner[rec.prefix];
    }
  }

  // The entry of the host still holds the key of line j, and every other name of it has had its line.
  ghost predicate Standing(m: Mapping, recs: seq<Record>, j: nat, host: string)
    requires j < |recs|
  {
    && Owned(m) && host in m.owner
    && "HOSTNAME" in Lookup(m, host) && Lookup(m, host)["HOSTNAME"] == recs[j].key
    && forall x :: x in m.owner && x != host && m.owner[x] == m.owner[host] ==> HasHostLine(x, recs)
  }

  // The entry holds the key of a later HOSTNAME line.
  ghost predicate Overwritten(m: Mapping, recs: seq<Record>, j: nat, host: string) {
    && Owned(m) && host in m.owner && "HOSTNAME" in Lookup(m, host)
    && exists i :: j < i < |recs| && recs[i].field == "HOSTNAME" && Lookup(m, host)["HOSTNAME"] == recs[i].key
  }

  lemma {:induction false} HostState(recs: seq<Record>, j: nat, host: string)
    requires DistinctKeys(recs) && (forall x :: x in recs ==> FromText(x)) && LastNaming(recs, j, host)
    ensures if ClaimedAfter(recs, j, host) then Overwritten(AddAll(recs), recs, j, host)
            else Standing(AddAll(recs), recs, j, host)
    decreases |recs|
  {
    var init, rec := recs[..|recs| - 1], recs[|recs| - 1];
    assert recs == init + [rec];
    if j == |init| {
      OneWaitingHolds(init);
      NamedStands(AddAll(init), init, rec, host);
    } else {
      HostState(init, j, host);
      ClaimedSnoc(init, rec, j, host);
      if ClaimedAfter(init, j, host) {
        OverwrittenStays(AddAll(init), init, rec, j, host);
      } else if HostLine(rec, host) {
        ClaimOverwrites(AddAll(init), init, rec, j, host);
      } else {
        StandingStays(AddAll(init), init, rec, j, host);
      }
    }
  }

  lemma ClaimedSnoc(init: seq<Record>, rec: Record, j: nat, host: string)
    requires j < |init|
    ensures ClaimedAfter(init + [rec], j, host) <==> ClaimedAfter(init, j, host) || HostLine(rec, host)
  {
    var recs := init + [rec];
    if k :| j < k < |init| && HostLine(init[k], host) {
      assert recs[k] == init[k];
    }
    assert recs[|init|] == rec;
  }

  lemma NamedStands(m: Mapping, init: seq<Record>, rec: Record, host: string)
    requires OneWaiting(m, init) && Names(rec, host)
    requires DistinctKeys(init + [rec]) && forall x :: x in init + [rec] ==> FromText(x)
    ensures Standing(Add(m, rec), init + [rec], |init|, host)
  {
    var a := Add(m, rec);
    forall x | x in a.owner && x != host && a.owner[x] == a.owner[host]
      ensures HasHostLine(x, init + [rec])
    {
      NewNameWaits(m, init, rec, host, x);
    }
  }

  lemma OverwrittenStays(m: Mapping, init: seq<Record>, rec: Record, j: nat, host: string)
    requires Overwritten(m, init, j, host) && !Names(rec, host)
    ensures Overwritten(Add(m, rec), init + [rec], j, host)
  {
    var recs := init + [rec];
    AddEffect(m, rec, host);
    var i :| j < i < |init| && init[i].field == "HOSTNAME" && Lookup(m, host)["HOSTNAME"] == init[i].key;
    assert recs[i] == init[i] && recs[|init|] == rec;
  }

  lemma ClaimOverwrites(m: Mapping, init: seq<Record>, rec: Record, j: nat, host: string)
    requires j < |init| && Standing(m, init, j, host) && !Names(rec, host) && HostLine(rec, host)
    ensures Overwritten(Add(m, rec), init + [rec], j, host)
  {
    AddEffect(m, rec, host);
    assert (init + [rec])[|init|] == rec;
  }

  // Another name of the entry has had its only HOSTNAME line, so this record does not write the key.
  lemma StandingStays(m: Mapping, init: seq<Record>, rec: Record, j: nat, host: string)
    requires j < |init| && Standing(m, init, j, host) && !Names(rec, host) && !HostLine(rec, host)
    requires DistinctKeys(init + [rec]) && forall x :: x in init + [rec] ==> FromText(x)
    ensures Standing(Add(m, rec), init + [rec], j, host)
  {
    var a := Add(m, rec);
    AddEffect(m, rec, host);
    if rec.field == "HOSTNAME" {
      OneHostLine(init, rec);
      assert !Writes(m, rec, host);
    }
    forall x | x in a.owner && x != host && a.owner[x] == a.owner[host]
      ensures HasHostLine(x, init + [rec])
    {
      HostLineSnoc(x, init, rec);
      Joins(m, rec, x, host);
    }
  }

  // Main result for the hostname, whatever the order of the lines and however names collide: a named
  // host is masked, and its mask resolves to it again exactly when no line after the last one naming
  // it gives a hostname to a prefix of that name.
  lemma HostResolvesIff(recs: seq<Record>, j: nat, fields: map<string, string>, files: Files)
    requires Printable(recs) && HOST in fields && LastNaming(recs, j, fields[HOST])
    requires files.load(files.Choose(PATH)) == Properties(recs)
    ensures fields[HOST] in AddAll(recs).owner
    ensures var masked := Masked(fields, Lookup(AddAll(recs), fields[HOST])).0;
            && HOST in masked && IsMasked(masked[HOST])
            && (Resolve(masked[HOST], files) == fields[HOST] <==> !ClaimedAfter(recs, j, fields[HOST]))
  {
    var h, m := fields[HOST], AddAll(recs);
    HostState(recs, j, h);
    MaskedHost(fields, Lookup(m, h));
    var i := if ClaimedAfter(recs, j, h) then ClaimingLine(recs, j, h) else j;
    KeyResolves(recs, i, files);
  }

  // The line whose key overwrote the host's.
  ghost function ClaimingLine(recs: seq<Record>, j: nat, host: string): (i: nat)
    requires Overwritten(AddAll(recs), recs, j, host)
    ensures j < i < |recs| && recs[i].field == "HOSTNAME"
    ensures Lookup(AddAll(recs), host)["HOSTNAME"] == recs[i].key
  {
    var m := AddAll(recs);
    var i :| j < i < |recs| && recs[i].field == "HOSTNAME" && Lookup(m, host)["HOSTNAME"] == recs[i].key;
    i
  }

  // ---------- all four settings ----------

  // Main result, for any order of the lines: a known hostname is masked, every mask of its connector
  // resolves to the value on its own line, and the hostname comes back.
  lemma MaskResolves(recs: seq<Record>, fields: map<string, string>, files: Files)
    requires WellFormed(recs) && HOST in fields && HostOf(fields[HOST], recs).Some?
    requires files.load(files.Choose(PATH)) == Properties(recs)
    ensures var h, m := fields[HOST], AddAll(recs);
            && h in m.owner
            && var (masked, outcome) := Masked(fields, Lookup(m, h));
            && outcome == Updated && masked.Keys == fields.Keys + {HOST, PORT, USER, PASS}
            && IsMasked(masked[HOST]) && Resolve(masked[HOST], files) == h
            && (forall i :: 0 <= i < |recs| && recs[i].prefix == HostOf(h, recs).value && recs[i].field in FIELDS ==>
                  SettingOf(recs[i].field) in masked && Resolve(masked[SettingOf(recs[i].field)], files) == recs[i].value)
            && (forall k :: k in fields && k !in {HOST, PORT, USER, PASS} ==> masked[k] == fields[k])
  {
    var h := fields[HOST];
    var p := HostOf(h, recs).value;
    KnownHost(recs, h);
    MaskedShape(fields, FieldsOf(p, recs));
    var masked := Masked(fields, FieldsOf(p, recs)).0;
    forall j | 0 <= j < |recs| && recs[j].prefix == p && recs[j].field in FIELDS
      ensures SettingOf(recs[j].field) in masked && Resolve(masked[SettingOf(recs[j].field)], files) == recs[j].value
    {
      SettingResolves(recs, fields, files, p, j);
    }
    HostOfSeen(h, recs);
  }

  lemma SettingResolves(recs: seq<Record>, fields: map<string, string>, files: Files, p: string, j: nat)
    requires WellFormed(recs) && FieldsOf(p, recs).Keys == FIELDS
    requires files.load(files.Choose(PATH)) == Properties(recs)
    requires j < |recs| && recs[j].prefix == p && recs[j].field in FIELDS
    ensures var masked := Masked(fields, FieldsOf(p, recs)).0;
            && SettingOf(recs[j].field) in masked
            && Resolve(masked[SettingOf(recs[j].field)], files) == recs[j].value
  {
    MaskedShape(fields, FieldsOf(p, recs));
    FieldRecorded(p, recs, j);
    KeyResolves(recs, j, files);
  }

  // A known hostname shares the entry of its prefix.
  lemma KnownHost(recs: seq<Record>, h: string)
    requires WellFormed(recs) && HostOf(h, recs).Some?
    ensures var m, p := AddAll(recs), HostOf(h, recs).value;
            h in m.owner && Lookup(m, h) == FieldsOf(p, recs) && FieldsOf(p, recs).Keys == FIELDS
  {
    AddAllHolds(recs);
    HostOfSeen(h, recs);
    var i :| 0 <= i < |recs| && recs[i].field == "HOSTNAME" && recs[i].value == h
      && recs[i].prefix == HostOf(h, recs).value;
    assert recs[i] in recs;
  }

  lemma MaskedShape(fields: map<string, string>, keys: map<string, string>)
    requires keys.Keys == FIELDS
    ensures var (masked, outcome) := Masked(fields, keys);
            && outcome == Updated && masked.Keys == fields.Keys + {HOST, PORT, USER, PASS}
            && IsMasked(masked[HOST])
            && (forall f :: f in FIELDS ==> SettingOf(f) in masked && masked[SettingOf(f)] == Placeholder(keys[f]))
            && (forall k :: k in fields && k !in {HOST, PORT, USER, PASS} ==> masked[k] == fields[k])
  {
    assert "HOSTNAME" in FIELDS && "PORT" in FIELDS && "USER" in FIELDS && "PASSWORD" in FIELDS;
    assert HOST[9] != PORT[9] && HOST[9] != USER[9] && HOST[9] != PASS[9];
    assert PORT[9] != USER[9] && USER[9] != PASS[9] && PORT[10] != PASS[10];
    assert Placeholder(keys["HOSTNAME"])[..|OPEN + PATH|] == OPEN + PATH;
  }

  // A second masking leaves every configuration as the first did.
  method MaskTwice(fields: map<string, string>, mapping: map<string, Entry>)
    returns (once: map<string, string>, twice: map<string, string>)
    ensures once == Replaced(fields, KeysOf(mapping)).0 && twice == once
  {
    var config := new Config(fields);
    var first := ReplaceConfig(config, mapping);
    once := config.fields;
    var second := ReplaceConfig(config, mapping);
    twice := config.fields;
    ReplacedTwice(fields, KeysOf(mapping));
  }

  lemma ShownKeys(mapping: map<string, Entry>, objs: seq<Entry>, m: Mapping, name: string)
    requires Shows(mapping, objs, m) && name in m.owner
    ensures name in KeysOf(mapping) && KeysOf(mapping)[name] == Lookup(m, name)
  {
  }

  // The whole chain: parse the file, mask a connector, mask it again, resolve what it then says.
  method MaskTwiceThenResolve(lines: seq<string>, ghost recs: seq<Record>, ghost j: nat,
                              fields: map<string, string>, files: Files)
    returns (once: map<string, string>, twice: map<string, string>, resolved: string)
    requires ReadLines(lines) == Some(recs) && Printable(recs)
    requires HOST in fields && !IsMasked(fields[HOST]) && LastNaming(recs, j, fields[HOST])
    ensures HOST in once && IsMasked(once[HOST]) && twice == once
    ensures files.load(files.Choose(PATH)) == Properties(recs) ==>
              (resolved == fields[HOST] <==> !ClaimedAfter(recs, j, fields[HOST]))
  {
    var mapping, objs := ParseCredentials(lines);
    HostState(recs, j, fields[HOST]);
    MaskedHost(fields, Lookup(AddAll(recs), fields[HOST]));
    ShownKeys(mapping.value, objs, AddAll(recs), fields[HOST]);
    once, twice := MaskTwice(fields, mapping.value);
    resolved := Resolve(twice[HOST], files);
    if files.load(files.Choose(PATH)) == Properties(recs) {
      HostResolvesIff(recs, j, fields, files);
    }
  }

  function HostRecord(prefix: string, value: string): Record {
    Record(prefix, "HOSTNAME", prefix + "_" + "HOSTNAME", value)
  }

  lemma SuffixCancels(a: string, b: string, suffix: string)
    ensures a + suffix == b + suffix ==> a == b
  {
    assert (a + suffix)[..|a|] == a && (b + suffix)[..|b|] == b;
    assert a + suffix == b + suffix ==> |a| == |b|;
  }

  lemma HostRecordsPrintable(a: string, x: string, b: string, y: string)
    requires a != b && '}' !in a + b && '\n' !in a + b
    ensures Printable([HostRecord(a, x), HostRecord(b, y)])
  {
    var recs := [HostRecord(a, x), HostRecord(b, y)];
    SuffixCancels(a, b, "_" + "HOSTNAME");
    assert recs[0].key == a + ("_" + "HOSTNAME") && recs[1].key == b + ("_" + "HOSTNAME");
    assert '}' !in "_" + "HOSTNAME" && '\n' !in "_" + "HOSTNAME";
    forall rec | rec in recs
      ensures '}' !in rec.key && '\n' !in rec.key
    {
      assert rec.key == rec.prefix + ("_" + "HOSTNAME");
    }
  }

  // When a's host is called b and b is a prefix too, the order of the two lines decides whether the
  // mask of host b comes back as b or as the host of prefix b.
  lemma ForeignPrefixBreaks(a: string, b: string, y: string, fields: map<string, string>, files: Files)
    requires a != b && b != y && '}' !in a + b && '\n' !in a + b && HOST in fields && fields[HOST] == b
    ensures var recs := [HostRecord(a, b), HostRecord(b, y)];
            files.load(files.Choose(PATH)) == Properties(recs) ==>
              && b in AddAll(recs).owner
              && var masked := Masked(fields, Lookup(AddAll(recs), b)).0;
                 HOST in masked && Resolve(masked[HOST], files) == y
    ensures var recs := [HostRecord(b, y), HostRecord(a, b)];
            files.load(files.Choose(PATH)) == Properties(recs) ==>
              && b in AddAll(recs).owner
              && var masked := Masked(fields, Lookup(AddAll(recs), b)).0;
                 HOST in masked && Resolve(masked[HOST], files) == b
  {
    HostRecordsPrintable(a, b, b, y);
    HostRecordsPrintable(b, y, a, b);
    ClaimBreaks(a, b, y, fields, files);
    var recs := [HostRecord(b, y), HostRecord(a, b)];
    if files.load(files.Choose(PATH)) == Properties(recs) {
      assert LastNaming(recs, 1, b);
      HostResolvesIff(recs, 1, fields, files);
    }
  }

  lemma ClaimBreaks(a: string, b: string, y: string, fields: map<string, string>, files: Files)
    requires b != y && Printable([HostRecord(a, b), HostRecord(b, y)]) && HOST in fields && fields[HOST] == b
    ensures var recs := [HostRecord(a, b), HostRecord(b, y)];
            files.load(files.Choose(PATH)) == Properties(recs) ==>
              && b in AddAll(recs).owner
              && var masked := Masked(fields, Lookup(AddAll(recs), b)).0;
                 HOST in masked && Resolve(masked[HOST], files) == y
  {
    var recs := [HostRecord(a, b), HostRecord(b, y)];
    if files.load(files.Choose(PATH)) == Properties(recs) {
      assert LastNaming(recs, 0, b) && HostLine(recs[1], b);
      HostState(recs, 0, b);
      MaskedHost(fields, Lookup(AddAll(recs), b));
      KeyResolves(recs, ClaimingLine(recs, 0, b), files);
    }
  }
}
