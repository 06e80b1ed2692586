/** The functions of Go's strings package that image references are made and parsed with. */
module Strings {
  /** unicode.IsSpace */
  predicate IsSpace(c: char) {
    || '\t' <= c <= '\r' || c == ' ' || c == '\U{85}' || c == '\U{a0}' || c == '\U{1680}'
    || '\U{2000}' <= c <= '\U{200a}' || c == '\U{2028}' || c == '\U{2029}'
    || c == '\U{202f}' || c == '\U{205f}' || c == '\U{3000}'
  }

  function SpacesAt(s: string, i: nat): (n: nat)
    requires i <= |s|
    ensures i <= n <= |s| && (n < |s| ==> !IsSpace(s[n]))
    ensures forall k :: i <= k < n ==> IsSpace(s[k])
    decreases |s| - i
  {
    if i < |s| && IsSpace(s[i]) then SpacesAt(s, i + 1) else i
  }

  function SpacesBefore(s: string, i: nat): (n: nat)
    requires i <= |s|
    ensures n <= i && (n > 0 ==> !IsSpace(s[n - 1]))
    ensures forall k :: n <= k < i ==> IsSpace(s[k])
  {
    if i > 0 && IsSpace(s[i - 1]) then SpacesBefore(s, i - 1) else i
  }

  function TrimSpace(s: string): (r: string)
    ensures Trimmed(r) && (Trimmed(s) ==> r == s)
  {
    var i, j := SpacesAt(s, 0), SpacesBefore(s, |s|);
    if i <= j then s[i..j] else ""
  }

  /** Only spaces are cut off. */
  lemma TrimSpaceCuts(s: string) returns (i: nat, j: nat)
    ensures i <= j <= |s| && TrimSpace(s) == s[i..j]
    ensures forall k :: 0 <= k < i || j <= k < |s| ==> IsSpace(s[k])
  {
    i, j := SpacesAt(s, 0), SpacesBefore(s, |s|);
    if i > j { j := i; }
  }

  predicate Trimmed(s: string) {
    s == "" || (!IsSpace(s[0]) && !IsSpace(s[|s| - 1]))
  }

  function SlashesBefore(s: string, i: nat): (n: nat)
    requires i <= |s|
    ensures n <= i && (n > 0 ==> s[n - 1] != '/')
    ensures forall k :: n <= k < i ==> s[k] == '/'
  {
    if i > 0 && s[i - 1] == '/' then SlashesBefore(s, i - 1) else i
  }

  /** strings.TrimRight(s, "/") */
  function TrimSlashes(s: string): (r: string)
    ensures r <= s && (r != "" ==> r[|r| - 1] != '/')
    ensures forall k :: |r| <= k < |s| ==> s[k] == '/'
  {
    s[..SlashesBefore(s, |s|)]
  }

  function IndexFrom(s: string, c: char, i: nat): (k: int)
    requires i <= |s|
    ensures k == -1 || (i <= k < |s| && s[k] == c)
    ensures forall j :: i <= j < |s| && (k < 0 || j < k) ==> s[j] != c
    decreases |s| - i
  {
    if i == |s| then -1 else if s[i] == c then i else IndexFrom(s, c, i + 1)
  }

  function LastIndexBefore(s: string, c: char, i: nat): (k: int)
    requires i <= |s|
    ensures -1 <= k < i && (k >= 0 ==> s[k] == c)
    ensures forall j :: k < j < i ==> s[j] != c
  {
    if i == 0 then -1 else if s[i - 1] == c then i - 1 else LastIndexBefore(s, c, i - 1)
  }

  /** The first position of `c`, or -1. */
  function Index(s: string, c: char): (i: int)
    ensures -1 <= i < |s| && (i >= 0 ==> s[i] == c)
    ensures forall k :: 0 <= k < |s| && (i < 0 || k < i) ==> s[k] != c
  {
    IndexFrom(s, c, 0)
  }

  /** The last position of `c`, or -1. */
  function LastIndex(s: string, c: char): (i: int)
    ensures -1 <= i < |s| && (i >= 0 ==> s[i] == c)
    ensures forall k :: i < k < |s| ==> s[k] != c
  {
    LastIndexBefore(s, c, |s|)
  }

  /** strings.Split at a one-character separator */
  function Split(s: string, c: char): (parts: seq<string>)
    ensures parts != []
  {
    var i := Index(s, c);
    if i < 0 then [s] else [s[..i]] + Split(s[i + 1..], c)
  }

  function Join(parts: seq<string>, c: char): string {
    if parts == [] then ""
    else if |parts| == 1 then parts[0]
    else parts[0] + [c] + Join(parts[1..], c)
  }

  lemma {:induction false} JoinOfSplit(s: string, c: char)
    ensures Join(Split(s, c), c) == s
  {
    var i := Index(s, c);
    if i >= 0 {
      JoinOfSplit(s[i + 1..], c);
      assert s == s[..i] + [c] + s[i + 1..];
    }
  }
}
