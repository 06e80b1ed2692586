/** Container image references: their normal form, and the printer and parser of the references to built images. */
module ImageRefs {
  import opened Strings

  /** The first component of a reference that has several counts as a registry host. */
  predicate IsHost(part: string) {
    '.' in part || ':' in part || part == "localhost"
  }

  predicate HasHost(name: string) {
    Index(name, '/') >= 0 && IsHost(name[..Index(name, '/')])
  }

  /** A name with its registry and namespace spelled out. */
  function Qualified(name: string): string {
    if HasHost(name) then name
    else if Index(name, '/') < 0 then "docker.io/library/" + name
    else "docker.io/" + name
  }

  predicate HasTag(name: string) {
    LastIndex(name, ':') > LastIndex(name, '/')
  }

  function WithoutTag(name: string): string {
    if HasTag(name) then name[..LastIndex(name, ':')] else name
  }

  function Tag(name: string): string {
    if HasTag(name) then name[LastIndex(name, ':') + 1..] else ""
  }

  function Name(ref: string): string {
    if Index(ref, '@') >= 0 then ref[..Index(ref, '@')] else ref
  }

  function Digest(ref: string): string {
    if Index(ref, '@') >= 0 then ref[Index(ref, '@')..] else ""
  }

  function Canonical(imageRef: string): string {
    var ref := TrimSpace(imageRef);
    if ref == "" then ""
    else Qualified(WithoutTag(Name(ref))) + Suffix(Digest(ref), Tag(Name(ref)))
  }

  function Suffix(digest: string, tag: string): string {
    if digest != "" then digest else ":" + if tag == "" then "latest" else tag
  }

  /** The reference is taken apart from the right: digest, tag, then the components. */
  method CanonicalContainerImageRef(imageRef: string) returns (canonical: string)
    ensures canonical == Canonical(imageRef)
  {
    var ref := TrimSpace(imageRef);
    if ref == "" {
      return "";
    }
    var digest := "";
    var at := Index(ref, '@');
    if at >= 0 {
      digest := ref[at..];
      ref := ref[..at];
    }
    assert ref == Name(TrimSpace(imageRef)) && digest == Digest(TrimSpace(imageRef));
    var name, tag := SplitTag(ref);
    canonical := QualifyParts(name);
    assert Canonical(imageRef) == canonical + Suffix(digest, tag);
    if digest != "" {
      canonical := canonical + digest;
    } else {
      if tag == "" {
        tag := "latest";
      }
      canonical := canonical + (":" + tag);
    }
  }

  /** A colon in the last component starts a tag. */
  method SplitTag(ref: string) returns (name: string, tag: string)
    ensures name == WithoutTag(ref) && tag == Tag(ref)
  {
    name, tag := ref, "";
    var lastSlash := LastIndex(ref, '/');
    var lastColon := LastIndex(ref, ':');
    if lastColon > lastSlash {
      tag := ref[lastColon + 1..];
      name := ref[..lastColon];
    }
  }

  lemma JoinsToQualified(name: string, host: string, pathParts: seq<string>)
    requires var parts := Split(name, '/');
      if |parts| > 1 && IsHost(parts[0]) then host == parts[0] && pathParts == parts[1..]
      else host == "docker.io" && pathParts == if |parts| == 1 then ["library"] + [parts[0]] else parts
    ensures host + "/" + Join(pathParts, '/') == Qualified(name)
  {
    JoinOfSplit(name, '/');
  }

  method QualifyParts(name: string) returns (canonical: string)
    ensures canonical == Qualified(name)
  {
    var parts := Split(name, '/');
    var host := "docker.io";
    var pathParts := parts;
    var explicitHost := false;
    if |parts| > 1 {
      var firstPart := parts[0];
      if IsHost(firstPart) {
        host, pathParts, explicitHost := firstPart, parts[1..], true;
      }
    }
    if !explicitHost && |pathParts| == 1 {
      pathParts := ["library"] + [pathParts[0]];
    }
    JoinsToQualified(name, host, pathParts);
    return host + "/" + Join(pathParts, '/');
  }

  lemma LastIndexOf(before: string, c: char, after: string)
    requires c !in after
    ensures LastIndex(before + [c] + after, c) == |before|
  {
    var s, n := before + [c] + after, |before|;
    assert s[n] == c && s[n + 1..] == after;
    forall k | n < k < |s| ensures s[k] != c {
      assert s[k] == s[n + 1..][k - n - 1];
    }
  }

  lemma IndexIsUnique(s: string, c: char, i: nat)
    requires i < |s| && s[i] == c && forall k :: 0 <= k < i ==> s[k] != c
    ensures Index(s, c) == i
  {
  }

  /** The host of a qualified name is spelled out, also when a suffix is cut off behind it. */
  lemma QualifiedHasHost(name: string, n: nat)
    requires n <= |Qualified(name)| && Index(Qualified(name), '/') < n
    ensures HasHost(Qualified(name)[..n])
  {
    var q := Qualified(name);
    if HasHost(name) {
      IndexIsUnique(q[..n], '/', Index(name, '/'));
      assert q[..n][..Index(name, '/')] == name[..Index(name, '/')];
    } else {
      assert q[..9] == "docker.io" && q[9] == '/';
      IndexIsUnique(q, '/', 9);
      IndexIsUnique(q[..n], '/', 9);
      assert q[..n][..9] == "docker.io" && "docker.io"[6] == '.';
    }
  }

  lemma QualifiedIsQualified(name: string)
    ensures HasHost(Qualified(name)) && Qualified(Qualified(name)) == Qualified(name)
  {
    QualifiedHasHost(name, |Qualified(name)|);
    assert Qualified(name)[..|Qualified(name)|] == Qualified(name);
  }

  /** Putting components in front does not touch the last one. */
  lemma TagOfLast(front: string, name: string)
    requires front != "" && front[|front| - 1] == '/'
    ensures HasTag(front + name) <==> HasTag(name)
  {
    var s, d := front + name, |front|;
    var i, j := LastIndex(s, '/'), LastIndex(s, ':');
    var m, n := LastIndex(name, '/'), LastIndex(name, ':');
    assert s[d - 1] == '/' && i >= d - 1;
    assert m >= 0 ==> s[d + m] == '/';
    assert n >= 0 ==> s[d + n] == ':';
    assert i >= d ==> name[i - d] == '/';
    assert j >= d ==> name[j - d] == ':';
  }

  lemma QualifiedHasTagIff(name: string)
    ensures HasTag(Qualified(name)) <==> HasTag(name)
  {
    TagOfLast("docker.io/library/", name);
    TagOfLast("docker.io/", name);
  }

  /** A tag without separators is taken off again. */
  lemma TagTakenOff(name: string, tag: string)
    requires ':' !in tag && '/' !in tag
    ensures HasTag(name + (":" + tag)) && WithoutTag(name + (":" + tag)) == name && Tag(name + (":" + tag)) == tag
  {
    LastIndexOf(name, ':', tag);
    var s := name + [':'] + tag;
    assert s == name + (":" + tag);
    forall k | |name| < k < |s| ensures s[k] != '/' {
      assert s[k] == tag[k - |name| - 1];
    }
    assert s[|name| + 1..] == tag && s[..|name|] == name;
  }

  lemma TagHasNoSeparator(name: string)
    ensures ':' !in Tag(name) && '/' !in Tag(name)
  {
    if HasTag(name) {
      var j := LastIndex(name, ':');
      assert forall k :: 0 <= k < |Tag(name)| ==> Tag(name)[k] == name[j + 1 + k];
    }
  }

  lemma DigestTakenOff(name: string, digest: string)
    requires '@' !in name && digest != "" && digest[0] == '@'
    ensures Name(name + digest) == name && Digest(name + digest) == digest
  {
    var s := name + digest;
    assert forall k :: 0 <= k < |name| ==> s[k] == name[k] && name[k] in name;
    IndexIsUnique(s, '@', |name|);
  }

  lemma NoDigest(ref: string)
    requires '@' !in ref
    ensures Name(ref) == ref && Digest(ref) == ""
  {
  }

  function LastComponent(name: string): string {
    name[LastIndex(name, '/') + 1..]
  }

  predicate TwoColons(part: string) {
    exists i, j :: 0 <= i < j < |part| && part[i] == ':' && part[j] == ':'
  }

  lemma InSuffixIff(s: string, c: char, d: nat)
    requires d <= |s|
    ensures c in s[d..] <==> LastIndex(s, c) >= d
  {
    var j := LastIndex(s, c);
    if j >= d {
      assert s[d..][j - d] == c;
    }
    assert forall k :: 0 <= k < |s| - d ==> s[d..][k] == s[d + k];
  }

  lemma HasTagIff(name: string)
    ensures HasTag(name) <==> ':' in LastComponent(name)
  {
    InSuffixIff(name, ':', LastIndex(name, '/') + 1);
  }

  lemma LastIndexOfPrefix(s: string, c: char, n: nat)
    requires LastIndex(s, c) < n <= |s|
    ensures LastIndex(s[..n], c) == LastIndex(s, c)
  {
    var i, j := LastIndex(s, c), LastIndex(s[..n], c);
    assert i >= 0 ==> s[..n][i] == c;
    assert j >= 0 ==> s[j] == c;
  }

  lemma PrefixThenSuffix(s: string, d: nat, j: nat)
    requires d <= j <= |s|
    ensures s[..j][d..] == s[d..][..j - d]
  {
  }

  lemma LastComponentWithoutTag(name: string)
    requires HasTag(name)
    ensures var d, j := LastIndex(name, '/') + 1, LastIndex(name, ':');
      LastComponent(WithoutTag(name)) == LastComponent(name)[..j - d]
  {
    var d, j := LastIndex(name, '/') + 1, LastIndex(name, ':');
    LastIndexOfPrefix(name, '/', j);
    PrefixThenSuffix(name, d, j);
  }

  lemma ColonBeforeLastIff(part: string, j: nat)
    requires j < |part| && part[j] == ':' && forall k :: j < k < |part| ==> part[k] != ':'
    ensures ':' in part[..j] <==> TwoColons(part)
  {
    if i :| 0 <= i < j && part[i] == ':' {
      assert part[..j][i] == ':';
    }
    assert forall i :: 0 <= i < j ==> part[..j][i] == part[i];
  }

  lemma LastOfSuffix(s: string, c: char, d: nat)
    requires d <= LastIndex(s, c)
    ensures s[d..][LastIndex(s, c) - d] == c
    ensures forall k :: LastIndex(s, c) - d < k < |s| - d ==> s[d..][k] != c
  {
    var t, j := s[d..], LastIndex(s, c) - d;
    forall k | j < k < |s| - d ensures t[k] != c {
      assert t[k] == s[d + k];
    }
  }

  lemma CutAtLastColon(name: string) returns (j: nat)
    requires HasTag(name)
    ensures var part := LastComponent(name);
      && j < |part| && part[j] == ':' && (forall k :: j < k < |part| ==> part[k] != ':')
      && LastComponent(WithoutTag(name)) == part[..j]
  {
    var d := LastIndex(name, '/') + 1;
    j := LastIndex(name, ':') - d;
    LastComponentWithoutTag(name);
    LastOfSuffix(name, ':', d);
  }

  lemma NoColonNoTwo(part: string)
    requires ':' !in part
    ensures !TwoColons(part)
  {
  }

  lemma TagLeftOfTagged(name: string)
    requires HasTag(name)
    ensures ':' in LastComponent(WithoutTag(name)) <==> TwoColons(LastComponent(name))
  {
    var j := CutAtLastColon(name);
    ColonBeforeLastIff(LastComponent(name), j);
  }

  /** After a tag has been taken off, another one is left exactly if there are two colons. */
  lemma TagLeftIff(name: string)
    ensures HasTag(WithoutTag(name)) <==> TwoColons(LastComponent(name))
  {
    if HasTag(name) {
      TagLeftOfTagged(name);
      HasTagIff(WithoutTag(name));
    } else {
      HasTagIff(name);
      NoColonNoTwo(LastComponent(name));
    }
  }

  lemma QualifiedStarts(ref: string)
    requires Trimmed(ref) && ref != ""
    ensures Qualified(WithoutTag(Name(ref))) != "" && !IsSpace(Qualified(WithoutTag(Name(ref)))[0])
  {
    var base := WithoutTag(Name(ref));
    if HasHost(base) {
      assert base[0] == ref[0];
    } else {
      assert Qualified(base)[0] == 'd';
    }
  }

  lemma SuffixEnds(ref: string)
    requires Trimmed(ref) && ref != ""
    ensures var suffix := Suffix(Digest(ref), Tag(Name(ref))); suffix != "" && !IsSpace(suffix[|suffix| - 1])
  {
    var digest, tag := Digest(ref), Tag(Name(ref));
    if digest != "" {
      assert digest[|digest| - 1] == ref[|ref| - 1];
    } else if tag != "" {
      assert tag[|tag| - 1] == ref[|ref| - 1];
    }
  }

  /** A canonical reference has no space to trim. */
  lemma CanonicalIsTrimmed(imageRef: string)
    ensures TrimSpace(Canonical(imageRef)) == Canonical(imageRef)
  {
    var ref, c := TrimSpace(imageRef), Canonical(imageRef);
    if ref != "" {
      QualifiedStarts(ref);
      SuffixEnds(ref);
    }
  }

  lemma NotInSlice(s: string, c: char, i: nat, j: nat)
    requires i <= j <= |s| && c !in s
    ensures c !in s[i..j]
  {
    assert forall k :: 0 <= k < j - i ==> s[i..j][k] == s[i + k];
  }

  lemma NoAtInName(ref: string)
    ensures '@' !in Name(ref)
  {
  }

  lemma NoAtIn(ref: string)
    ensures '@' !in Qualified(WithoutTag(Name(ref))) && '@' !in Suffix("", Tag(Name(ref)))
  {
    var name := Name(ref);
    NoAtInName(ref);
    if HasTag(name) {
      NotInSlice(name, '@', 0, LastIndex(name, ':'));
      NotInSlice(name, '@', LastIndex(name, ':') + 1, |name|);
    }
    assert '@' !in "docker.io/library/" && '@' !in "docker.io/" && '@' !in ":" && '@' !in "latest";
  }

  lemma CanonicalOfTagged(name: string, tag: string)
    requires '@' !in name && '@' !in tag && ':' !in tag && '/' !in tag && tag != ""
    requires Qualified(name) == name && TrimSpace(name + (":" + tag)) == name + (":" + tag)
    ensures Canonical(name + (":" + tag)) == name + (":" + tag)
  {
    var ref := name + (":" + tag);
    assert forall c :: c in ref ==> c in name || c == ':' || c in tag;
    NoDigest(ref);
    TagTakenOff(name, tag);
    assert Canonical(ref) == Qualified(name) + Suffix("", tag);
  }

  lemma TagOrLatest(name: string)
    ensures var suffix := Suffix("", Tag(name));
      suffix[0] == ':' && suffix[1..] != "" && ':' !in suffix[1..] && '/' !in suffix[1..]
  {
    TagHasNoSeparator(name);
    assert (":" + Tag(name))[1..] == Tag(name) && (":" + "latest")[1..] == "latest";
  }

  /** Without a digest, canonicalising twice is canonicalising once. */
  lemma TaggedIsNormalForm(imageRef: string)
    requires Digest(TrimSpace(imageRef)) == ""
    ensures Canonical(Canonical(imageRef)) == Canonical(imageRef)
  {
    var ref := TrimSpace(imageRef);
    if ref != "" {
      var q, suffix := Qualified(WithoutTag(Name(ref))), Suffix("", Tag(Name(ref)));
      var tag := suffix[1..];
      CanonicalIsTrimmed(imageRef);
      NoAtIn(ref);
      TagOrLatest(Name(ref));
      assert suffix == ":" + tag && Canonical(imageRef) == q + suffix;
      QualifiedIsQualified(WithoutTag(Name(ref)));
      CanonicalOfTagged(q, tag);
    }
  }

  lemma AnotherTagLost(name: string)
    ensures HasTag(Qualified(name)) ==> |Qualified(WithoutTag(Qualified(name)))| < |Qualified(name)|
    ensures !HasTag(Qualified(name)) ==> Qualified(WithoutTag(Qualified(name))) == Qualified(name)
  {
    var q := Qualified(name);
    if HasTag(q) {
      QualifiedHasHost(name, LastIndex(q, ':'));
    } else {
      QualifiedIsQualified(name);
    }
  }

  lemma CanonicalOfDigested(name: string, digest: string)
    requires '@' !in name && digest != "" && digest[0] == '@' && TrimSpace(name + digest) == name + digest
    ensures Canonical(name + digest) == Qualified(WithoutTag(name)) + digest
  {
    DigestTakenOff(name, digest);
  }

  /** With a digest, it is exactly when the last component before the digest has at most one colon. */
  lemma DigestedIsNormalFormIff(imageRef: string)
    requires Digest(TrimSpace(imageRef)) != ""
    ensures Canonical(Canonical(imageRef)) == Canonical(imageRef) <==>
      !TwoColons(LastComponent(Name(TrimSpace(imageRef))))
  {
    var ref := TrimSpace(imageRef);
    var base, digest := WithoutTag(Name(ref)), Digest(ref);
    var q := Qualified(base);
    CanonicalIsTrimmed(imageRef);
    NoAtIn(ref);
    assert Canonical(imageRef) == q + digest;
    CanonicalOfDigested(q, digest);
    AnotherTagLost(base);
    QualifiedHasTagIff(base);
    TagLeftIff(Name(ref));
  }

  /** "docker.io/library/a:b@d" loses another part of its name each time. */
  lemma NotAlwaysNormalForm()
    ensures Canonical(Canonical("a:b:c@d")) != Canonical("a:b:c@d")
  {
    IndexIsUnique("a:b:c@d", '@', 5);
    assert "a:b:c@d"[..5] == "a:b:c" && "a:b:c@d"[5..] == "@d";
    var last := LastComponent("a:b:c");
    assert last == "a:b:c";
    assert last[1] == ':' && last[3] == ':';
    DigestedIsNormalFormIff("a:b:c@d");
  }

  // ---- What the parts of a reference become ----

  lemma FirstComponent(first: string, rest: string)
    requires '/' !in first
    ensures var name := first + ("/" + rest); Index(name, '/') == |first| && name[..|first|] == first
  {
    var name := first + ("/" + rest);
    forall k | 0 <= k < |first| ensures name[k] != '/' {
      assert name[k] == first[k];
    }
    IndexIsUnique(name, '/', |first|);
  }

  /** A name of one component is an image of the library; otherwise its first component may be a host. */
  lemma QualifiedNames(first: string, rest: string)
    requires '/' !in first
    ensures Qualified(first) == "docker.io/library/" + first
    ensures Qualified(first + ("/" + rest)) ==
      (if '.' in first || ':' in first || first == "localhost" then "" else "docker.io/") + (first + ("/" + rest))
  {
    FirstComponent(first, rest);
    assert Index(first, '/') < 0;
    assert "" + (first + ("/" + rest)) == first + ("/" + rest);
  }

  /** The tag that the reference has, or "latest". */
  function TagOrDefault(tag: string): string {
    if tag == "" then ":latest" else ":" + tag
  }

  lemma CanonicalWithTag(imageRef: string, name: string, tag: string)
    requires '@' !in name && '@' !in tag && ':' !in tag && '/' !in tag && tag != ""
    requires TrimSpace(imageRef) == name + (":" + tag)
    ensures Canonical(imageRef) == Qualified(name) + (":" + tag)
  {
    var ref := name + (":" + tag);
    assert forall c :: c in ref ==> c in name || c == ':' || c in tag;
    NoDigest(ref);
    TagTakenOff(name, tag);
  }

  lemma CanonicalWithoutTag(imageRef: string, name: string)
    requires name != "" && '@' !in name && !HasTag(name) && TrimSpace(imageRef) == name
    ensures Canonical(imageRef) == Qualified(name) + ":latest"
  {
    NoDigest(name);
    assert ":" + "latest" == ":latest";
  }

  lemma CanonicalOfParts(imageRef: string, name: string, tag: string)
    requires name != "" && '@' !in name && !HasTag(name) && '@' !in tag && ':' !in tag && '/' !in tag
    requires TrimSpace(imageRef) == if tag == "" then name else name + (":" + tag)
    ensures Canonical(imageRef) == Qualified(name) + TagOrDefault(tag)
  {
    if tag == "" { CanonicalWithoutTag(imageRef, name); } else { CanonicalWithTag(imageRef, name, tag); }
  }

  lemma NoTagInside(front: string, last: string)
    requires '/' !in last && ':' !in last && (front == "" || front[|front| - 1] == '/')
    ensures !HasTag(front + last)
  {
    assert !HasTag(last);
    if front == "" { assert front + last == last; } else { TagOfLast(front, last); }
  }

  /** "a" becomes "docker.io/library/a:latest", and "a:b" becomes "docker.io/library/a:b". */
  lemma LibraryImage(imageRef: string, name: string, tag: string)
    requires name != "" && '/' !in name && ':' !in name && '@' !in name
    requires '/' !in tag && ':' !in tag && '@' !in tag
    requires TrimSpace(imageRef) == if tag == "" then name else name + (":" + tag)
    ensures Canonical(imageRef) == "docker.io/library/" + name + TagOrDefault(tag)
  {
    NoTagInside("", name);
    assert "" + name == name;
    CanonicalOfParts(imageRef, name, tag);
    QualifiedNames(name, "");
  }

  /**
   * "o/a" becomes "docker.io/o/a:latest"; but a first component with a dot or a colon, or "localhost", is a host, and
   * "h/a:b" stays as it is. In between there may be more components, each with its slash.
   */
  lemma NamespaceOrHost(imageRef: string, first: string, between: string, last: string, tag: string)
    requires '/' !in first && '@' !in first && '@' !in between && (between == "" || between[|between| - 1] == '/')
    requires '/' !in last && ':' !in last && '@' !in last && '/' !in tag && ':' !in tag && '@' !in tag
    requires var name := first + ("/" + (between + last));
      TrimSpace(imageRef) == if tag == "" then name else name + (":" + tag)
    ensures Canonical(imageRef) ==
      (if '.' in first || ':' in first || first == "localhost" then "" else "docker.io/") +
      (first + ("/" + (between + last))) + TagOrDefault(tag)
  {
    var name, front := first + ("/" + (between + last)), first + ("/" + between);
    assert name == front + last;
    assert front[|front| - 1] == '/';
    assert forall c :: c in name ==> c in first || c == '/' || c in between || c in last;
    NoTagInside(front, last);
    CanonicalOfParts(imageRef, name, tag);
    QualifiedNames(first, between + last);
  }
}
