// Masking connector configurations (kafka/cdc/src/sanitization.py) and resolving the masks again
// (kafka/cdc/src/main.py).

module CredentialText {
  import opened Options
  import opened PythonText

  // ---------- searching strings ----------

  // The first index of c at or after `from`, or the length.
  function Find(s: string, c: char, from: nat): (i: nat)
    requires from <= |s|
    ensures from <= i <= |s| && (i < |s| ==> s[i] == c) && forall j :: from <= j < i ==> s[j] != c
    decreases |s| - from
  {
    if from == |s| || s[from] == c then from else Find(s, c, from + 1)
  }

  // The last index of c, or -1.
  function FindLast(s: string, c: char): (i: int)
    ensures -1 <= i < |s| && (i >= 0 ==> s[i] == c) && forall j :: i < j < |s| ==> s[j] != c
  {
    if s == "" then -1
    else if s[|s| - 1] == c then |s| - 1
    else FindLast(s[..|s| - 1], c)
  }

  // ---------- one line of connect-credentials.properties ----------

  const FIELDS := {"HOSTNAME", "PORT", "USER", "PASSWORD"}

  datatype Record = Record(prefix: string, field: string, key: string, value: string)

  // A line is ignored, raises ValueError, or yields a record.
  datatype Line = Skipped | Malformed | Read(rec: Record)

  function ReadLine(raw: string): Line {
    var line := Strip(raw);
    if line == "" || line[0] == '#' then Skipped
    else
      var eq := Find(line, '=', 0);
      if eq == |line| then Malformed
      else
        var key, value := Strip(line[..eq]), Strip(line[eq + 1..]);
        var us := FindLast(key, '_');
        if us == -1 then Malformed
        else Read(Record(key[..us], key[us + 1..], key, value))
  }

  // A line is passed over exactly when it is blank or its first visible character is #.
  lemma SkippedIff(raw: string)
    ensures ReadLine(raw).Skipped? <==>
            Blank(raw) || exists i :: 0 <= i < |raw| && raw[i] == '#' && forall k :: 0 <= k < i ==> IsSpace(raw[k])
  {
    var i, j := StripMeans(raw);
    if i < j {
      assert Strip(raw)[0] == raw[i] && !IsSpace(raw[i]);
    }
  }

  // Any other line raises exactly when it has no = or no underscore in front of the first one.
  lemma MalformedIff(raw: string)
    requires !ReadLine(raw).Skipped?
    ensures ReadLine(raw).Malformed? <==>
            '=' !in Strip(raw) || forall i :: 0 <= i < |Strip(raw)| && Strip(raw)[i] == '_' ==> '=' in Strip(raw)[..i]
  {
    var line := Strip(raw);
    var eq := Find(line, '=', 0);
    if eq < |line| {
      UnderscoreStays(line[..eq]);
      var us := FindLast(Strip(line[..eq]), '_');
      forall i | 0 <= i < |line| && line[i] == '_'
        ensures '=' in line[..i] <==> i > eq
      {
        assert i > eq ==> line[..i][eq] == '=';
      }
      if '_' in line[..eq] {
        var i :| 0 <= i < eq && line[..eq][i] == '_';
        assert line[i] == '_';
      }
    }
  }

  lemma UnderscoreStays(s: string)
    ensures '_' in Strip(s) <==> '_' in s
  {
    var i, j := StripMeans(s);
    if k :| 0 <= k < |s| && s[k] == '_' {
      assert i <= k < j && Strip(s)[k - i] == '_';
    }
  }

  lemma SplitAtFirst(before: string, c: char, after: string)
    requires c !in before
    ensures var s := before + [c] + after;
            Find(s, c, 0) == |before| && s[..|before|] == before && s[|before| + 1..] == after
  {
    var s := before + [c] + after;
    assert s[|before|] == c;
    assert forall j :: 0 <= j < |before| ==> s[j] == before[j];
  }

  lemma SplitAtLast(before: string, c: char, after: string)
    requires c !in after
    ensures var s := before + [c] + after;
            FindLast(s, c) == |before| && s[..|before|] == before && s[|before| + 1..] == after
  {
    var s := before + [c] + after;
    assert s[|before|] == c;
    assert forall j :: |before| < j < |s| ==> s[j] == after[j - |before| - 1];
  }

  lemma WrittenLineTrimmed(key: string, value: string)
    requires Trimmed(key) && Trimmed(value) && key != ""
    ensures var line := key + "=" + value;
            Strip(line) == line && line[0] == key[0] && Strip(key) == key && Strip(value) == value
  {
    var line := key + "=" + value;
    assert line[|line| - 1] == if value == "" then '=' else value[|value| - 1];
    StripTrimmed(line);
    StripTrimmed(key);
    StripTrimmed(value);
  }

  // A line written as PREFIX_FIELD=VALUE is read back as that record.
  lemma WrittenLineReads(prefix: string, field: string, value: string)
    requires '=' !in prefix && '=' !in field && '_' !in field
    requires Trimmed(prefix + "_" + field) && Trimmed(value) && (prefix == "" || prefix[0] != '#')
    ensures var key := prefix + "_" + field;
            ReadLine(key + "=" + value) == Read(Record(prefix, field, key, value))
  {
    var key := prefix + "_" + field;
    assert key[0] == if prefix == "" then '_' else prefix[0];
    WrittenLineTrimmed(key, value);
    SplitAtFirst(key, '=', value);
    SplitAtLast(prefix, '_', field);
  }

  // ---------- placeholders ----------

  const OPEN := "${file:"
  const PATH := "/etc/kafka-connect/" + "secrets/connect-" + "credentials.properties"

  function Placeholder(key: string): string {
    OPEN + PATH + ":" + key + "}"
  }

  // The value starts with ${file:, a path, a colon, a key and a brace, none of them across lines.
  predicate Matches(value: string, path: string, key: string) {
    OPEN + path + ":" + key + "}" <= value && '\n' !in path && '\n' !in key
  }

  // extract_file_and_key: both groups are lazy.
  function Extract(value: string): Option<(string, string)> {
    if !(OPEN <= value) then None
    else
      var colon := Find(value, ':', |OPEN|);
      if colon == |value| then None
      else
        var brace := Find(value, '}', colon + 1);
        if brace == |value| || '\n' in value[|OPEN|..brace] then None
        else Some((value[|OPEN|..colon], value[colon + 1..brace]))
  }

  // Lazy matching: the shortest path, then the shortest key.
  lemma ExtractIsLazyMatch(value: string)
    ensures Extract(value) == None ==> forall p, k :: !Matches(value, p, k)
    ensures Extract(value).Some? ==>
              var (path, key) := Extract(value).value;
              && Matches(value, path, key)
              && forall p, k :: Matches(value, p, k) ==> |path| <= |p| && (p == path ==> |key| <= |k|)
  {
    forall p, k | Matches(value, p, k)
      ensures MatchedBy(value, p, k)
    {
      MatchFound(value, p, k);
    }
    if Extract(value).Some? {
      var colon := Find(value, ':', |OPEN|);
      var brace := Find(value, '}', colon + 1);
      var path, key := value[|OPEN|..colon], value[colon + 1..brace];
      assert value[..brace + 1] == OPEN + path + ":" + key + "}";
      assert forall c :: c in path || c in key ==> c in value[|OPEN|..brace];
    }
  }

  // What any match forces on the two searches.
  predicate MatchedBy(value: string, p: string, k: string) {
    && Extract(value).Some?
    && |Extract(value).value.0| <= |p|
    && (p == Extract(value).value.0 ==> |Extract(value).value.1| <= |k|)
  }

  lemma MatchFound(value: string, p: string, k: string)
    requires Matches(value, p, k)
    ensures MatchedBy(value, p, k)
  {
    var m := OPEN + p + ":" + k + "}";
    var c, b := |OPEN| + |p|, |OPEN| + |p| + 1 + |k|;
    assert value[c] == m[c] == ':' && value[b] == m[b] == '}';
    var colon := Find(value, ':', |OPEN|);
    assert colon <= c;
    var brace := Find(value, '}', colon + 1);
    assert brace <= b;
    forall i | |OPEN| <= i < brace
      ensures value[i] != '\n'
    {
      assert value[i] == m[i];
      assert i < c ==> m[i] == p[i - |OPEN|] && p[i - |OPEN|] in p;
      assert c < i ==> m[i] == k[i - c - 1] && k[i - c - 1] in k;
    }
    assert '\n' !in value[|OPEN|..brace];
  }

  // The match with the shortest path and, for that path, the shortest key.
  ghost predicate LazyMatch(value: string, path: string, key: string) {
    && Matches(value, path, key)
    && forall p, k :: Matches(value, p, k) ==> |path| <= |p| && (p == path ==> |key| <= |k|)
  }

  // A placeholder is found exactly when one matches, and then it is the lazy match.
  lemma ExtractIff(value: string, path: string, key: string)
    ensures Extract(value) == Some((path, key)) <==> LazyMatch(value, path, key)
    ensures Extract(value) == None <==> forall p, k :: !Matches(value, p, k)
  {
    ExtractIsLazyMatch(value);
    if LazyMatch(value, path, key) {
      LazyMatchUnique(value, path, key, Extract(value).value.0, Extract(value).value.1);
    }
  }

  lemma LazyMatchUnique(value: string, path: string, key: string, p: string, k: string)
    ensures LazyMatch(value, path, key) && LazyMatch(value, p, k) ==> path == p && key == k
  {
    if LazyMatch(value, path, key) && LazyMatch(value, p, k) {
      SamePath(value, path, key, p, k);
      SameKey(value, path, key, k);
    }
  }

  lemma SamePath(value: string, path: string, key: string, p: string, k: string)
    requires Matches(value, path, key) && Matches(value, p, k) && |path| == |p|
    ensures path == p
  {
    var m, n := OPEN + path + ":" + key + "}", OPEN + p + ":" + k + "}";
    assert path == m[|OPEN|..|OPEN| + |path|] == value[|OPEN|..|OPEN| + |path|];
    assert p == n[|OPEN|..|OPEN| + |p|] == value[|OPEN|..|OPEN| + |p|];
  }

  lemma SameKey(value: string, path: string, key: string, k: string)
    requires Matches(value, path, key) && Matches(value, path, k) && |key| == |k|
    ensures key == k
  {
    var i := |OPEN| + |path| + 1;
    var m, n := OPEN + path + ":" + key + "}", OPEN + path + ":" + k + "}";
    assert key == m[i..i + |key|] == value[i..i + |key|];
    assert k == n[i..i + |k|] == value[i..i + |k|];
  }

  lemma PathIsPlain()
    ensures ':' !in PATH && '\n' !in PATH
  {
    assert ':' !in "/etc/kafka-connect/" && ':' !in "secrets/connect-" && ':' !in "credentials.properties";
    assert '\n' !in "/etc/kafka-connect/" && '\n' !in "secrets/connect-" && '\n' !in "credentials.properties";
  }

  lemma FindHere(s: string, c: char, from: nat, i: nat)
    requires from <= i < |s| && s[i] == c && c !in s[from..i]
    ensures Find(s, c, from) == i
  {
    forall j | from <= j < i
      ensures s[j] != c
    {
      assert s[from..i][j - from] == s[j];
    }
  }

  // Printing then extracting gives back path and key exactly when the key has no brace or newline.
  lemma PlaceholderRoundTrip(path: string, key: string)
    requires ':' !in path && '\n' !in path
    ensures Extract(OPEN + path + ":" + key + "}") == Some((path, key)) <==> '}' !in key && '\n' !in key
  {
    var value := OPEN + path + ":" + key + "}";
    var c := |OPEN| + |path|;
    assert value[|OPEN|..c] == path && value[c] == ':';
    FindHere(value, ':', |OPEN|, c);
    var b := c + 1 + |key|;
    assert value[c + 1..b] == key && value[b] == '}';
    if '}' !in key {
      FindHere(value, '}', c + 1, b);
      assert value[|OPEN|..b] == path + ":" + key;
    }
    if Extract(value).Some? {
      var brace := Find(value, '}', c + 1);
      assert key == value[c + 1..b];
      assert '}' !in value[c + 1..brace];
      assert forall x :: x in value[c + 1..brace] ==> x in value[|OPEN|..brace];
    }
  }
}
