// Python's str.strip.

module PythonText {
  predicate IsSpace(c: char) {
    || '\t' <= c <= '\r' || '\U{1c}' <= c <= ' '
    || c == '\U{85}' || c == '\U{a0}' || c == '\U{1680}' || c == '\U{2028}' || c == '\U{2029}'
    || c == '\U{202f}' || c == '\U{205f}' || c == '\U{3000}'
    || '\U{2000}' <= c <= '\U{200a}'
  }

  function StripLeft(s: string): string {
    if s != "" && IsSpace(s[0]) then StripLeft(s[1..]) else s
  }

  function StripRight(s: string): string {
    if s != "" && IsSpace(s[|s| - 1]) then StripRight(s[..|s| - 1]) else s
  }

  function Strip(s: string): string {
    StripRight(StripLeft(s))
  }

  predicate Trimmed(s: string) {
    s == "" || (!IsSpace(s[0]) && !IsSpace(s[|s| - 1]))
  }

  lemma {:induction false} StripTrimmed(s: string)
    requires Trimmed(s)
    ensures Strip(s) == s
  {
  }

  predicate Blank(s: string) {
    forall i :: 0 <= i < |s| ==> IsSpace(s[i])
  }

  lemma {:induction false} StripLeftCuts(s: string) returns (i: nat)
    ensures i <= |s| && StripLeft(s) == s[i..] && forall k :: 0 <= k < i ==> IsSpace(s[k])
    ensures i < |s| ==> !IsSpace(s[i])
  {
    if s != "" && IsSpace(s[0]) {
      var j := StripLeftCuts(s[1..]);
      i := j + 1;
      assert forall k :: 0 < k < i ==> s[k] == s[1..][k - 1];
    } else {
      i := 0;
    }
  }

  lemma {:induction false} StripRightCuts(s: string) returns (j: nat)
    ensures j <= |s| && StripRight(s) == s[..j] && forall k :: j <= k < |s| ==> IsSpace(s[k])
    ensures j > 0 ==> !IsSpace(s[j - 1])
  {
    if s != "" && IsSpace(s[|s| - 1]) {
      var init, last := s[..|s| - 1], s[|s| - 1];
      j := StripRightCuts(init);
      assert s == init + [last];
    } else {
      j := |s|;
    }
  }

  lemma StripRightNone(s: string)
    requires s != "" && !IsSpace(s[|s| - 1])
    ensures StripRight(s) == s
  {
  }

  lemma SliceTwice(s: string, i: nat, k: nat)
    requires i <= i + k <= |s|
    ensures s[i..][..k] == s[i..i + k]
    ensures forall l :: i <= l < |s| ==> s[l] == s[i..][l - i]
  {
  }

  lemma TrimmedSlice(s: string, i: nat, j: nat)
    requires i <= j <= |s| && (i < j ==> !IsSpace(s[i]) && !IsSpace(s[j - 1]))
    ensures Trimmed(s[i..j])
  {
  }

  // Whitespace goes at both ends and nothing else does.
  lemma StripMeans(s: string) returns (i: nat, j: nat)
    ensures i <= j <= |s| && Strip(s) == s[i..j] && Trimmed(Strip(s))
    ensures forall k :: 0 <= k < i || j <= k < |s| ==> IsSpace(s[k])
  {
    i := StripLeftCuts(s);
    var left := StripLeft(s);
    var k := StripRightCuts(left);
    j := i + k;
    SliceTwice(s, i, k);
    TrimmedSlice(s, i, j);
  }

  // A text that ends visibly loses its leading whitespace only.
  lemma StripVisibleEnd(s: string)
    requires s != "" && !IsSpace(s[|s| - 1])
    ensures Strip(s) == StripLeft(s) != "" && Trimmed(Strip(s))
  {
    var i := StripLeftCuts(s);
    assert s[i..][|s| - i - 1] == s[|s| - 1];
    StripRightNone(StripLeft(s));
  }

  lemma StripOneBlank(s: string)
    requires Trimmed(s) && s != ""
    ensures Strip(" " + s) == s
  {
    StripTrimmed(s);
    assert (" " + s)[1..] == s;
  }

  lemma TrimmedAppend(s: string, t: string)
    requires Trimmed(s) && s != "" && Trimmed(t)
    ensures Trimmed(s + t)
  {
  }

  // A text that holds anything but whitespace survives.
  lemma {:induction false} StripKeeps(s: string, i: nat)
    requires i < |s| && !IsSpace(s[i])
    ensures Strip(s) != ""
    decreases |s|
  {
    if IsSpace(s[0]) {
      StripKeeps(s[1..], i - 1);
    } else {
      StripRightKeeps(s);
    }
  }

  lemma {:induction false} StripRightKeeps(s: string)
    requires s != "" && !IsSpace(s[0])
    ensures StripRight(s) != ""
  {
    if IsSpace(s[|s| - 1]) {
      StripRightKeeps(s[..|s| - 1]);
    }
  }
}
