// Counting rows per hour over a cached download of parquet files (parquet/diff-parquet/main.py).

module DiffParquet {
  import opened Options

  type Hour = string
  type Stamp = int

  // A column value is null or a stamp; a stamp that cannot be parsed raises.
  type Column = seq<Option<Stamp>>

  datatype File = WithTsms(groups: seq<Column>) | Plain(rows: nat) | Corrupt

  // ---------- counters ----------

  type Counter = map<Hour, nat>

  function Get(m: Counter, h: Hour): nat {
    if h in m then m[h] else 0
  }

  // The counter m holds the counts of the multiset.
  ghost predicate Counts(m: Counter, hours: multiset<Hour>) {
    forall h :: Get(m, h) == hours[h]
  }

  function Valid(column: Column): nat {
    if column == [] then 0 else Valid(column[..|column| - 1]) + if column[|column| - 1].Some? then 1 else 0
  }

  predicate Parses(column: Column, hourOf: Stamp -> Option<Hour>) {
    forall i :: 0 <= i < |column| && column[i].Some? ==> hourOf(column[i].value).Some?
  }

  // The hours of the non-null values, in order.
  function Hours(column: Column, hourOf: Stamp -> Option<Hour>): seq<Hour>
    requires Parses(column, hourOf)
  {
    if column == [] then []
    else
      var n := |column| - 1;
      Hours(column[..n], hourOf) + if column[n].Some? then [hourOf(column[n].value).value] else []
  }

  method BatchProcess(column: Column, hourOf: Stamp -> Option<Hour>) returns (r: Option<Counter>)
    ensures r.Some? <==> Parses(column, hourOf)
    ensures r.Some? ==> Counts(r.value, multiset(Hours(column, hourOf)))
  {
    var counter: Counter := map[];
    for i := 0 to |column|
      invariant Parses(column[..i], hourOf)
      invariant Counts(counter, multiset(Hours(column[..i], hourOf)))
    {
      assert column[..i + 1][..i] == column[..i];
      if column[i].Some? {
        var hour := hourOf(column[i].value);
        if hour.None? {
          return None;
        }
        counter := counter[hour.value := Get(counter, hour.value) + 1];
      }
    }
    assert column[..|column|] == column;
    return Some(counter);
  }

  function SumAll(ms: seq<multiset<Hour>>): multiset<Hour> {
    if ms == [] then multiset{} else SumAll(ms[..|ms| - 1]) + ms[|ms| - 1]
  }

  // merged[k] += v for every item.
  method AddCounter(merged: Counter, counter: Counter, ghost a: multiset<Hour>, ghost b: multiset<Hour>)
    returns (r: Counter)
    requires Counts(merged, a) && Counts(counter, b)
    ensures Counts(r, a + b)
  {
    r := merged;
    var todo := counter.Keys;
    while todo != {}
      invariant todo <= counter.Keys
      invariant forall h :: Get(r, h) == a[h] + if h in todo then 0 else b[h]
      decreases todo
    {
      var k :| k in todo;
      r := r[k := Get(r, k) + counter[k]];
      todo := todo - {k};
    }
  }

  method MergeCounters(counters: seq<Counter>, ghost ms: seq<multiset<Hour>>) returns (merged: Counter)
    requires |ms| == |counters| && forall i :: 0 <= i < |ms| ==> Counts(counters[i], ms[i])
    ensures Counts(merged, SumAll(ms))
  {
    merged := map[];
    for i := 0 to |counters|
      invariant Counts(merged, SumAll(ms[..i]))
    {
      assert ms[..i + 1][..i] == ms[..i];
      merged := AddCounter(merged, counters[i], SumAll(ms[..i]), ms[i]);
    }
    assert ms[..|ms|] == ms;
  }

  function Concat(groups: seq<Column>): Column {
    if groups == [] then [] else Concat(groups[..|groups| - 1]) + groups[|groups| - 1]
  }

  lemma {:induction false} HoursAppend(a: Column, b: Column, hourOf: Stamp -> Option<Hour>)
    ensures Parses(a + b, hourOf) <==> Parses(a, hourOf) && Parses(b, hourOf)
    ensures Parses(a + b, hourOf) ==> Hours(a + b, hourOf) == Hours(a, hourOf) + Hours(b, hourOf)
  {
    assert forall i :: 0 <= i < |a| ==> (a + b)[i] == a[i];
    assert forall i :: 0 <= i < |b| ==> (a + b)[|a| + i] == b[i];
    if b == [] {
      assert a + b == a;
    } else if Parses(a + b, hourOf) {
      assert (a + b)[..|a + b| - 1] == a + b[..|b| - 1];
      HoursAppend(a, b[..|b| - 1], hourOf);
    }
  }

  // Every null is skipped and every other value counted once.
  lemma {:induction false} HoursCountValid(column: Column, hourOf: Stamp -> Option<Hour>)
    requires Parses(column, hourOf)
    ensures |multiset(Hours(column, hourOf))| == Valid(column)
  {
    if column != [] {
      HoursCountValid(column[..|column| - 1], hourOf);
    }
  }

  predicate FallsIn(value: Option<Stamp>, hourOf: Stamp -> Option<Hour>, h: Hour) {
    value.Some? && hourOf(value.value) == Some(h)
  }

  // The rows of one hour.
  function InHour(column: Column, hourOf: Stamp -> Option<Hour>, h: Hour): set<int> {
    set i | 0 <= i < |column| && FallsIn(column[i], hourOf, h)
  }

  lemma InHourStep(column: Column, hourOf: Stamp -> Option<Hour>, h: Hour)
    requires column != []
    ensures var n := |column| - 1;
            |InHour(column, hourOf, h)| == |InHour(column[..n], hourOf, h)| + if FallsIn(column[n], hourOf, h) then 1 else 0
  {
    var n := |column| - 1;
    var before := InHour(column[..n], hourOf, h);
    assert n !in before;
    assert InHour(column, hourOf, h) == before + if FallsIn(column[n], hourOf, h) then {n} else {};
  }

  // Each hour counts the rows whose stamp falls into it.
  lemma {:induction false} HoursAt(column: Column, hourOf: Stamp -> Option<Hour>, h: Hour)
    requires Parses(column, hourOf)
    ensures multiset(Hours(column, hourOf))[h] == |InHour(column, hourOf, h)|
  {
    if column != [] {
      HoursAt(column[..|column| - 1], hourOf, h);
      InHourStep(column, hourOf, h);
    } else {
      assert InHour(column, hourOf, h) == {};
    }
  }

  lemma SumSnoc(ms: seq<multiset<Hour>>, m: multiset<Hour>)
    ensures SumAll(ms + [m]) == SumAll(ms) + m
  {
    assert (ms + [m])[..|ms|] == ms;
  }

  lemma GroupsSnoc(groups: seq<Column>, i: nat, hourOf: Stamp -> Option<Hour>)
    requires i < |groups|
    ensures Concat(groups[..i + 1]) == Concat(groups[..i]) + groups[i]
    ensures Parses(Concat(groups[..i + 1]), hourOf) <==> Parses(Concat(groups[..i]), hourOf) && Parses(groups[i], hourOf)
    ensures Parses(Concat(groups[..i + 1]), hourOf) ==>
              Hours(Concat(groups[..i + 1]), hourOf) == Hours(Concat(groups[..i]), hourOf) + Hours(groups[i], hourOf)
  {
    assert groups[..i + 1][..i] == groups[..i];
    HoursAppend(Concat(groups[..i]), groups[i], hourOf);
  }

  // Main result of the map-reduce: counting row group by row group and merging counts the whole
  // column, however it is split; one bad stamp anywhere empties the result.
  method ExtractByTsms(groups: seq<Column>, hourOf: Stamp -> Option<Hour>) returns (r: Counter)
    ensures Parses(Concat(groups), hourOf) ==> Counts(r, multiset(Hours(Concat(groups), hourOf)))
    ensures !Parses(Concat(groups), hourOf) ==> r == map[]
  {
    var counters: seq<Counter> := [];
    ghost var ms: seq<multiset<Hour>> := [];
    for i := 0 to |groups|
      invariant Parses(Concat(groups[..i]), hourOf)
      invariant |counters| == |ms| == i
      invariant forall j :: 0 <= j < i ==> Counts(counters[j], ms[j])
      invariant SumAll(ms) == multiset(Hours(Concat(groups[..i]), hourOf))
    {
      var c := BatchProcess(groups[i], hourOf);
      GroupsSnoc(groups, i, hourOf);
      if c.None? {
        BadGroup(groups, i + 1, hourOf);
        return map[];
      }
      counters := counters + [c.value];
      SumSnoc(ms, multiset(Hours(groups[i], hourOf)));
      ms := ms + [multiset(Hours(groups[i], hourOf))];
    }
    assert groups[..|groups|] == groups;
    r := MergeCounters(counters, ms);
  }

  lemma {:induction false} BadGroup(groups: seq<Column>, i: nat, hourOf: Stamp -> Option<Hour>)
    requires i <= |groups| && !Parses(Concat(groups[..i]), hourOf)
    ensures !Parses(Concat(groups), hourOf)
    decreases |groups|
  {
    if i < |groups| {
      var init := groups[..|groups| - 1];
      assert init[..i] == groups[..i];
      BadGroup(init, i, hourOf);
      HoursAppend(Concat(init), groups[|groups| - 1], hourOf);
    } else {
      assert groups[..i] == groups;
    }
  }

  // ---------- the download cache ----------

  datatype Object = Object(name: string, etag: string)

  // What fget_object does: it delivers a file, or raises and leaves the old one in place.
  datatype Fetch = Fetched(file: File) | S3Error

  datatype Cache = Cache(etags: map<string, string>, files: map<string, File>)

  // An etag names one version of an object.
  type Versions = Object -> File

  predicate Cached(c: Cache, o: Object) {
    o.name in c.etags && c.etags[o.name] == o.etag && o.name in c.files
  }

  // The file the loop goes on to count for this object, if any.
  function Counted(c: Cache, o: Object, f: Fetch): Option<File> {
    if Cached(c, o) then Some(c.files[o.name])
    else match f case Fetched(file) => Some(file) case S3Error => None
  }

  function Updated(c: Cache, o: Object, f: Fetch): Cache {
    if Cached(c, o) || f.S3Error? then c
    else Cache(c.etags[o.name := o.etag], c.files[o.name := f.file])
  }

  function After(c: Cache, listing: seq<Object>, fetches: seq<Fetch>): Cache
    requires |fetches| == |listing|
  {
    if listing == [] then c
    else
      var n := |listing| - 1;
      Updated(After(c, listing[..n], fetches[..n]), listing[n], fetches[n])
  }

  lemma AfterSnoc(c: Cache, listing: seq<Object>, fetches: seq<Fetch>, i: nat)
    requires |fetches| == |listing| && i < |listing|
    ensures After(c, listing[..i + 1], fetches[..i + 1]) ==
            Updated(After(c, listing[..i], fetches[..i]), listing[i], fetches[i])
  {
    assert listing[..i + 1][..i] == listing[..i] && fetches[..i + 1][..i] == fetches[..i];
  }

  // Where the recorded etag and the local file both exist, the file is that version.
  ghost predicate Coherent(c: Cache, versions: Versions) {
    forall n :: n in c.etags && n in c.files ==> c.files[n] == versions(Object(n, c.etags[n]))
  }

  predicate DistinctNames(listing: seq<Object>) {
    forall i, j :: 0 <= i < j < |listing| ==> listing[i].name != listing[j].name
  }

  // A delivered file is the listed version, unless the object was replaced after the listing.
  predicate Timely(o: Object, f: Fetch, versions: Versions) {
    f.Fetched? ==> f.file == versions(o)
  }

  lemma {:induction false} Untouched(c: Cache, listing: seq<Object>, fetches: seq<Fetch>, name: string)
    requires |fetches| == |listing| && forall i :: 0 <= i < |listing| ==> listing[i].name != name
    ensures var d := After(c, listing, fetches);
            && (name in d.etags <==> name in c.etags) && (name in c.etags ==> d.etags[name] == c.etags[name])
            && (name in d.files <==> name in c.files) && (name in c.files ==> d.files[name] == c.files[name])
  {
    if listing != [] {
      var n := |listing| - 1;
      Untouched(c, listing[..n], fetches[..n], name);
    }
  }

  // Main result of the cache: from a coherent cache, a run leaves it coherent exactly when every
  // fetch it makes and that succeeds delivers the listed version; failed fetches do no harm.
  lemma {:induction false} RunCoherentIff(c: Cache, listing: seq<Object>, fetches: seq<Fetch>, versions: Versions)
    requires |fetches| == |listing| && DistinctNames(listing) && Coherent(c, versions)
    ensures Coherent(After(c, listing, fetches), versions) <==>
            forall i :: 0 <= i < |listing| && !Cached(c, listing[i]) ==> Timely(listing[i], fetches[i], versions)
  {
    if listing != [] {
      var n := |listing| - 1;
      var o, f := listing[n], fetches[n];
      var before, after := After(c, listing[..n], fetches[..n]), After(c, listing, fetches);
      RunCoherentIff(c, listing[..n], fetches[..n], versions);
      Untouched(c, listing[..n], fetches[..n], o.name);
      assert Cached(before, o) <==> Cached(c, o);
      if !Cached(c, o) && f.Fetched? {
        assert after.etags[o.name] == o.etag && after.files[o.name] == f.file;
        assert Object(o.name, after.etags[o.name]) == o;
        if Coherent(after, versions) {
          assert f.file == versions(o);
          forall m | m in before.etags && m in before.files
            ensures before.files[m] == versions(Object(m, before.etags[m]))
          {
            if m == o.name {
              assert c.files[m] == versions(Object(m, c.etags[m]));
            } else {
              assert after.files[m] == versions(Object(m, after.etags[m]));
            }
          }
        }
      }
    }
  }

  // The etags are saved only when the run ends. After a run cut short the old etags meet the new
  // files, which is coherent exactly when each replaced file's old and new versions are the same.
  lemma {:induction false} CutShortCoherentIff(c: Cache, listing: seq<Object>, fetches: seq<Fetch>, versions: Versions)
    requires |fetches| == |listing| && DistinctNames(listing) && Coherent(c, versions)
    requires forall i :: 0 <= i < |listing| && !Cached(c, listing[i]) ==> Timely(listing[i], fetches[i], versions)
    ensures Coherent(Cache(c.etags, After(c, listing, fetches).files), versions) <==>
            forall i :: 0 <= i < |listing| && !Cached(c, listing[i]) && fetches[i].Fetched? && listing[i].name in c.etags ==>
              versions(Object(listing[i].name, c.etags[listing[i].name])) == versions(listing[i])
  {
    if listing != [] {
      var n := |listing| - 1;
      var o, f := listing[n], fetches[n];
      var before, after := After(c, listing[..n], fetches[..n]).files, After(c, listing, fetches).files;
      CutShortCoherentIff(c, listing[..n], fetches[..n], versions);
      Untouched(c, listing[..n], fetches[..n], o.name);
      if Coherent(Cache(c.etags, after), versions) {
        forall m | m in c.etags && m in before
          ensures before[m] == versions(Object(m, c.etags[m]))
        {
          assert m == o.name ==> c.files[m] == versions(Object(m, c.etags[m]));
          assert m != o.name ==> after[m] == versions(Object(m, c.etags[m]));
        }
      }
    }
  }

  // When the fetches deliver the listed versions, every file that is counted is the listed version.
  lemma CountedIsListed(c: Cache, listing: seq<Object>, fetches: seq<Fetch>, versions: Versions, i: nat)
    requires |fetches| == |listing| && DistinctNames(listing) && Coherent(c, versions) && i < |listing|
    requires forall j :: 0 <= j < |listing| && !Cached(c, listing[j]) ==> Timely(listing[j], fetches[j], versions)
    ensures var r := Counted(After(c, listing[..i], fetches[..i]), listing[i], fetches[i]);
            r.Some? ==> r.value == versions(listing[i])
  {
    Untouched(c, listing[..i], fetches[..i], listing[i].name);
  }

  // ---------- the main loop ----------

  // The counts of a file: by stamps, by its number of rows under the hour in its name, or none.
  function FileHours(file: File, hourOf: Stamp -> Option<Hour>, nameHour: Option<Hour>): multiset<Hour> {
    match file
    case WithTsms(groups) =>
      if Parses(Concat(groups), hourOf) then multiset(Hours(Concat(groups), hourOf)) else multiset{}
    case Plain(rows) => if nameHour.Some? then multiset{}[nameHour.value := rows] else multiset{}
    case Corrupt => multiset{}
  }

  method Process(file: File, hourOf: Stamp -> Option<Hour>, nameHour: Option<Hour>) returns (r: Counter)
    ensures Counts(r, FileHours(file, hourOf, nameHour))
    ensures file.Plain? ==> forall h :: Get(r, h) == if nameHour == Some(h) then file.rows else 0
    ensures file.Corrupt? ==> forall h :: Get(r, h) == 0
  {
    match file
    case WithTsms(groups) => r := ExtractByTsms(groups, hourOf);
    case Plain(rows) => r := if nameHour.Some? then map[nameHour.value := rows] else map[];
    case Corrupt => r := map[];
  }

  function CountedHours(file: Option<File>, hourOf: Stamp -> Option<Hour>, nameHour: Option<Hour>): multiset<Hour> {
    if file.Some? then FileHours(file.value, hourOf, nameHour) else multiset{}
  }

  // What a run should add up: the LISTED version of every object that is cached or can be fetched.
  function Expected(c: Cache, listing: seq<Object>, fetches: seq<Fetch>, hourOf: Stamp -> Option<Hour>,
                    nameHour: string -> Option<Hour>, versions: Versions, n: nat): multiset<Hour>
    requires |fetches| == |listing| && n <= |listing|
  {
    if n == 0 then multiset{}
    else
      var o := listing[n - 1];
      Expected(c, listing, fetches, hourOf, nameHour, versions, n - 1) +
      if !Cached(c, o) && fetches[n - 1].S3Error? then multiset{}
      else FileHours(versions(o), hourOf, nameHour(o.name))
  }

  class Downloader {
    var etags: map<string, string>
    var files: map<string, File>

    constructor (etags: map<string, string>, files: map<string, File>)
      ensures this.etags == etags && this.files == files
    {
      this.etags, this.files := etags, files;
    }

    // One object of the listing, already known to be in the time range.
    method Take(o: Object, f: Fetch) returns (file: Option<File>)
      modifies this
      ensures Cache(etags, files) == Updated(Cache(old(etags), old(files)), o, f)
      ensures file == Counted(Cache(old(etags), old(files)), o, f)
      ensures if o.name in old(etags) && old(etags)[o.name] == o.etag && o.name in old(files)
              then file == Some(old(files)[o.name]) && etags == old(etags) && files == old(files)
              else match f
                case S3Error => file == None && etags == old(etags) && files == old(files)
                case Fetched(x) =>
                  file == Some(x) && etags == old(etags)[o.name := o.etag] && files == old(files)[o.name := x]
    {
      if o.name in etags && etags[o.name] == o.etag && o.name in files {
        return Some(files[o.name]);
      }
      match f
      case S3Error => return None;
      case Fetched(content) =>
        files := files[o.name := content];
        etags := etags[o.name := o.etag];
        return Some(content);
    }

    // The body of the loop for one object.
    method TakeAndCount(o: Object, f: Fetch, hourOf: Stamp -> Option<Hour>, nameHour: Option<Hour>,
                        total: Counter, ghost before: multiset<Hour>) returns (r: Counter)
      requires Counts(total, before)
      modifies this
      ensures Cache(etags, files) == Updated(Cache(old(etags), old(files)), o, f)
      ensures Counts(r, before + CountedHours(Counted(Cache(old(etags), old(files)), o, f), hourOf, nameHour))
    {
      var file := Take(o, f);
      r := total;
      if file.Some? {
        var stats := Process(file.value, hourOf, nameHour);
        r := AddCounter(total, stats, before, FileHours(file.value, hourOf, nameHour));
      }
    }

    // The main loop: total_stats adds up the listed versions, and the cache stays coherent.
    method Run(listing: seq<Object>, fetches: seq<Fetch>, hourOf: Stamp -> Option<Hour>,
               nameHour: string -> Option<Hour>, ghost versions: Versions) returns (total: Counter)
      requires |fetches| == |listing| && DistinctNames(listing)
      requires Coherent(Cache(etags, files), versions)
      requires forall i :: 0 <= i < |listing| && !Cached(Cache(etags, files), listing[i]) ==>
                 Timely(listing[i], fetches[i], versions)
      modifies this
      ensures Coherent(Cache(etags, files), versions)
      ensures Counts(total, Expected(Cache(old(etags), old(files)), listing, fetches, hourOf, nameHour, versions, |listing|))
    {
      ghost var c := Cache(etags, files);
      total := map[];
      for i := 0 to |listing|
        invariant Cache(etags, files) == After(c, listing[..i], fetches[..i])
        invariant Counts(total, Expected(c, listing, fetches, hourOf, nameHour, versions, i))
      {
        CountedIsListed(c, listing, fetches, versions, i);
        Untouched(c, listing[..i], fetches[..i], listing[i].name);
        AfterSnoc(c, listing, fetches, i);
        total := TakeAndCount(listing[i], fetches[i], hourOf, nameHour(listing[i].name), total,
                              Expected(c, listing, fetches, hourOf, nameHour, versions, i));
      }
      assert listing[..|listing|] == listing && fetches[..|listing|] == fetches;
      RunCoherentIff(c, listing, fetches, versions);
    }
  }
}
