// NUL-terminated strings in character buffers.
module CString {

  const NUL := '\0'
  const NULL := -1

  // The string that begins at index i of a buffer.
  function StringAt(buf: seq<char>, i: int): string
    decreases |buf| - i
  {
    if !(0 <= i < |buf|) || buf[i] == NUL then [] else [buf[i]] + StringAt(buf, i + 1)
  }

  // The text stands at index i, with a NUL behind it.
  ghost predicate HasString(buf: seq<char>, i: nat, text: string) {
    && i + |text| < |buf| && buf[i + |text|] == NUL
    && forall j :: 0 <= j < |text| ==> buf[i + j] == text[j] != NUL
  }

  lemma {:induction false} StringIs(buf: seq<char>, i: nat, text: string)
    requires HasString(buf, i, text)
    ensures StringAt(buf, i) == text
    decreases |text|
  {
    if text != [] {
      StringIs(buf, i + 1, text[1..]);
      assert text == [text[0]] + text[1..];
    }
  }

  lemma Suffix(buf: seq<char>, i: nat, text: string, k: nat)
    requires HasString(buf, i, text) && k <= |text|
    ensures HasString(buf, i + k, text[k..])
  {
  }

  // Overwriting character k of a string cuts it in two.
  lemma CutString(buf: seq<char>, i: nat, text: string, k: nat)
    requires HasString(buf, i, text) && k < |text|
    ensures HasString(buf[i + k := NUL], i, text[..k])
    ensures HasString(buf[i + k := NUL], i + k + 1, text[k + 1..])
  {
  }

  // strcpy from a buffer
  method Copy(buf: array<char>, i: nat, ghost text: string) returns (s: string)
    requires HasString(buf[..], i, text)
    ensures s == text
  {
    s := [];
    while buf[i + |s|] != NUL
      invariant |s| <= |text| && s == text[..|s|]
      invariant |s| < |text| ==> buf[i + |s|] == text[|s|] != NUL
      decreases |text| - |s|
    {
      s := s + [buf[i + |s|]];
    }
  }

  // strcpy into a buffer
  method Store(buf: array<char>, i: nat, s: string)
    requires i + |s| < buf.Length && NUL !in s
    modifies buf
    ensures HasString(buf[..], i, s)
    ensures buf[..i] == old(buf[..i])
  {
    forall j | 0 <= j < |s| {
      buf[i + j] := s[j];
    }
    buf[i + |s|] := NUL;
  }

  // ---- strstr ----

  predicate MatchesAt(text: string, k: nat, pat: string) {
    k + |pat| <= |text| && forall j :: 0 <= j < |pat| ==> text[k + j] == pat[j]
  }

  // The first place at or after k where pat stands in the text, or the length of the text.
  function FindFrom(text: string, k: nat, pat: string): (d: nat)
    requires k <= |text| && pat != []
    ensures k <= d <= |text| && (d < |text| ==> MatchesAt(text, d, pat))
    ensures forall j :: k <= j < d ==> !MatchesAt(text, j, pat)
    decreases |text| - k
  {
    if k == |text| || MatchesAt(text, k, pat) then k else FindFrom(text, k + 1, pat)
  }

  lemma {:induction false} FindInSuffix(text: string, k: nat, d: nat, pat: string)
    requires k + d <= |text| && pat != []
    ensures FindFrom(text, k + d, pat) == k + FindFrom(text[k..], d, pat)
    decreases |text| - k - d
  {
    assert k + d < |text| ==> (MatchesAt(text[k..], d, pat) <==> MatchesAt(text, k + d, pat));
    if k + d < |text| {
      FindInSuffix(text, k, d + 1, pat);
    }
  }

  // Whether pat stands at index i of a buffer, before the end of the string there.
  method Compare(buf: array<char>, i: nat, ghost text: string, ghost k: nat, pat: string) returns (yes: bool)
    requires k <= |text| && i >= k && HasString(buf[..], i - k, text) && NUL !in pat
    ensures yes <==> MatchesAt(text, k, pat)
  {
    var j := 0;
    while j < |pat|
      invariant 0 <= j <= |pat| && k + j <= |text| && forall m :: 0 <= m < j ==> text[k + m] == pat[m]
    {
      assert pat[j] in pat;
      if buf[i + j] != pat[j] {
        return false;
      }
      j := j + 1;
    }
    return true;
  }

  method Strstr(buf: array<char>, i: nat, ghost text: string, pat: string) returns (c: int)
    requires HasString(buf[..], i, text) && pat != [] && NUL !in pat
    ensures c == if FindFrom(text, 0, pat) == |text| then NULL else i + FindFrom(text, 0, pat)
  {
    c := i;
    while buf[c] != NUL
      invariant c - i < |text| ==> buf[c] == text[c - i] != NUL
      invariant i <= c <= i + |text| && FindFrom(text, 0, pat) == FindFrom(text, c - i, pat)
      decreases i + |text| - c
    {
      var found := Compare(buf, c, text, c - i, pat);
      if found {
        return;
      }
      c := c + 1;
    }
    c := NULL;
  }
}
