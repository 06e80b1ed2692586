/** The references of built images: printed when a job is built, parsed when its image is cleaned up. */
module BuiltImages {
  import opened Strings

  predicate IsLowerOrDigit(c: char) {
    'a' <= c <= 'z' || '0' <= c <= '9'
  }

  /** The pattern of project names: up to 63 characters, dashes inside only. */
  predicate IsValidProjectName(name: string) {
    && 1 <= |name| <= 63
    && (forall k :: 0 <= k < |name| ==> IsLowerOrDigit(name[k]) || name[k] == '-')
    && name[0] != '-' && name[|name| - 1] != '-'
  }

  /** newID: 16 random bytes in hexadecimal. */
  predicate IsId(id: string) {
    |id| == 32 && forall k :: 0 <= k < |id| ==> '0' <= id[k] <= '9' || 'a' <= id[k] <= 'f'
  }

  function Repository(projectName: string): string {
    "ovek-" + projectName
  }

  function JobImageName(projectName: string, id: string): string {
    Repository(projectName) + (":" + id)
  }

  function JobImageRef(projectName: string, id: string, registryHost: string): string {
    var host := TrimSpace(registryHost);
    if host == "" then JobImageName(projectName, id) else TrimSlashes(host) + ("/" + JobImageName(projectName, id))
  }

  datatype TaggedImageRef = TaggedImageRef(host: string, repository: string, tag: string)
  datatype Result = Ok(ref: TaggedImageRef) | Empty | NoHostOrRepository | NoTag | Invalid

  function ParseTaggedImageRef(imageRef: string): Result {
    var ref := TrimSpace(imageRef);
    if ref == "" then Empty
    else
      var firstSlash := Index(ref, '/');
      if firstSlash <= 0 || firstSlash == |ref| - 1 then NoHostOrRepository
      else ParseRemainder(ref[..firstSlash], ref[firstSlash + 1..])
  }

  function ParseRemainder(host: string, remainder: string): Result {
    var lastSlash := LastIndex(remainder, '/');
    var tagSeparator := LastIndex(remainder, ':');
    if tagSeparator <= lastSlash || tagSeparator == |remainder| - 1 then NoTag
    else
      var repository, tag := remainder[..tagSeparator], remainder[tagSeparator + 1..];
      if repository == "" || tag == "" then Invalid else Ok(TaggedImageRef(host, repository, tag))
  }

  lemma LastColon(repository: string, tag: string)
    requires '/' !in tag && ':' !in tag
    ensures var remainder := repository + (":" + tag);
      && LastIndex(remainder, ':') == |repository| && LastIndex(remainder, '/') < |repository|
      && remainder[..|repository|] == repository && remainder[|repository| + 1..] == tag
  {
    var remainder := repository + (":" + tag);
    assert remainder[|repository|] == ':';
    forall k | |repository| < k < |remainder| ensures remainder[k] != ':' && remainder[k] != '/' {
      assert remainder[k] == tag[k - |repository| - 1];
    }
  }

  lemma OnlySlash(host: string, remainder: string)
    requires '/' !in host
    ensures var ref := host + ("/" + remainder);
      Index(ref, '/') == |host| && ref[..|host|] == host && ref[|host| + 1..] == remainder
  {
    var ref := host + ("/" + remainder);
    assert ref[|host|] == '/';
    assert forall k :: 0 <= k < |host| ==> ref[k] == host[k];
  }

  lemma CutAt(s: string, i: nat)
    requires i < |s|
    ensures s == s[..i] + ([s[i]] + s[i + 1..])
  {
  }

  lemma RemainderOf(host: string, repository: string, tag: string)
    requires repository != "" && tag != "" && '/' !in tag && ':' !in tag
    ensures ParseRemainder(host, repository + (":" + tag)) == Ok(TaggedImageRef(host, repository, tag))
  {
    LastColon(repository, tag);
  }

  lemma ParsedRemainder(host: string, remainder: string, parsed: TaggedImageRef)
    requires ParseRemainder(host, remainder) == Ok(parsed)
    ensures remainder == parsed.repository + (":" + parsed.tag) && parsed.host == host
    ensures parsed.repository != "" && parsed.tag != "" && '/' !in parsed.tag && ':' !in parsed.tag
  {
    var i := LastIndex(remainder, ':');
    CutAt(remainder, i);
    assert forall k :: 0 <= k < |parsed.tag| ==> parsed.tag[k] == remainder[i + 1 + k];
  }

  /** The reference is parsed behind its first slash. */
  lemma RefSplits(imageRef: string, host: string, remainder: string)
    requires TrimSpace(imageRef) == host + ("/" + remainder) && host != "" && '/' !in host && remainder != ""
    ensures ParseTaggedImageRef(imageRef) == ParseRemainder(host, remainder)
  {
    OnlySlash(host, remainder);
  }

  lemma CutAtFirst(s: string, c: char)
    requires Index(s, c) >= 0
    ensures c !in s[..Index(s, c)] && s == s[..Index(s, c)] + ([c] + s[Index(s, c) + 1..])
  {
    CutAt(s, Index(s, c));
    assert forall k :: 0 <= k < Index(s, c) ==> s[..Index(s, c)][k] == s[k];
  }

  lemma ParsedHasSlash(imageRef: string)
    requires ParseTaggedImageRef(imageRef).Ok?
    ensures var ref := TrimSpace(imageRef); var i := Index(ref, '/');
      i > 0 && ParseTaggedImageRef(imageRef) == ParseRemainder(ref[..i], ref[i + 1..])
  {
  }

  /** The parser accepts exactly "host/repository:tag", and takes it apart at the first slash and the last colon. */
  lemma ParsesIff(imageRef: string, parsed: TaggedImageRef)
    ensures ParseTaggedImageRef(imageRef) == Ok(parsed) <==>
      && TrimSpace(imageRef) == parsed.host + ("/" + (parsed.repository + (":" + parsed.tag)))
      && parsed.host != "" && '/' !in parsed.host && parsed.repository != ""
      && parsed.tag != "" && '/' !in parsed.tag && ':' !in parsed.tag
  {
    if ParseTaggedImageRef(imageRef) == Ok(parsed) {
      var ref := TrimSpace(imageRef);
      ParsedHasSlash(imageRef);
      CutAtFirst(ref, '/');
      ParsedRemainder(ref[..Index(ref, '/')], ref[Index(ref, '/') + 1..], parsed);
    } else if parsed.repository != "" && parsed.tag != "" && '/' !in parsed.tag && ':' !in parsed.tag {
      RemainderOf(parsed.host, parsed.repository, parsed.tag);
      if parsed.host != "" && '/' !in parsed.host
         && TrimSpace(imageRef) == parsed.host + ("/" + (parsed.repository + (":" + parsed.tag))) {
        RefSplits(imageRef, parsed.host, parsed.repository + (":" + parsed.tag));
        assert false;
      }
    }
  }

  lemma ImageNameShape(projectName: string, id: string, k: nat)
    requires IsValidProjectName(projectName) && IsId(id) && k < |JobImageName(projectName, id)|
    ensures var c := JobImageName(projectName, id)[k];
      !IsSpace(c) && c != '/' && (c == ':' <==> k == 5 + |projectName|)
  {
    var name := JobImageName(projectName, id);
    if k < 5 {
      assert name[k] == "ovek-"[k];
    } else if k < 5 + |projectName| {
      assert name[k] == projectName[k - 5];
    } else if k > 5 + |projectName| {
      assert name[k] == id[k - 6 - |projectName|];
    }
  }

  lemma SeparatorsOfRemainder(front: string, projectName: string, id: string)
    requires IsValidProjectName(projectName) && IsId(id)
    ensures var remainder := front + JobImageName(projectName, id);
      LastIndex(remainder, ':') == |front| + 5 + |projectName| && LastIndex(remainder, '/') < |front|
  {
    var name := JobImageName(projectName, id);
    var remainder := front + name;
    forall j | |front| <= j < |remainder|
      ensures remainder[j] != '/' && (remainder[j] == ':' <==> j == |front| + 5 + |projectName|)
    {
      ImageNameShape(projectName, id, j - |front|);
      assert remainder[j] == name[j - |front|];
    }
    var colon := |front| + 5 + |projectName|;
    assert remainder[colon] == ':';
    assert LastIndex(remainder, ':') == colon;
  }

  lemma SlicesOfRemainder(front: string, projectName: string, id: string)
    ensures var remainder, colon := front + JobImageName(projectName, id), |front| + 5 + |projectName|;
      && remainder[..colon] == front + Repository(projectName)
      && remainder[colon + 1..] == id
  {
    var remainder := front + (Repository(projectName) + (":" + id));
    assert remainder == (front + Repository(projectName)) + (":" + id);
    assert (":" + id)[1..] == id;
  }

  /** Behind any host, or part of one, the image name is parsed as the project's repository and the job's tag. */
  lemma RemainderParses(front: string, projectName: string, id: string, host: string)
    requires IsValidProjectName(projectName) && IsId(id)
    ensures ParseRemainder(host, front + JobImageName(projectName, id)) ==
      Ok(TaggedImageRef(host, front + Repository(projectName), id))
  {
    SeparatorsOfRemainder(front, projectName, id);
    SlicesOfRemainder(front, projectName, id);
  }

  lemma RefIsTrimmed(host: string, projectName: string, id: string)
    requires IsValidProjectName(projectName) && IsId(id) && (host == "" || !IsSpace(host[0]))
    ensures var ref := host + ("/" + JobImageName(projectName, id)); TrimSpace(ref) == ref
  {
    var name := JobImageName(projectName, id);
    var ref := host + ("/" + name);
    ImageNameShape(projectName, id, |name| - 1);
    assert ref[|ref| - 1] == name[|name| - 1];
    assert ref[0] == if host == "" then '/' else host[0];
  }

  /** The host up to its first slash, and what is in front of the image name behind that. */
  function HostPart(host: string): string {
    if Index(host, '/') < 0 then host else host[..Index(host, '/')]
  }

  function FrontPart(host: string): string {
    if Index(host, '/') < 0 then "" else host[Index(host, '/') + 1..] + "/"
  }

  lemma ParseSplits(ref: string, host: string, remainder: string)
    requires TrimSpace(ref) == ref && host != ""
    requires Index(ref, '/') == |host| < |ref| - 1 && ref[..|host|] == host && ref[|host| + 1..] == remainder
    ensures ParseTaggedImageRef(ref) == ParseRemainder(host, remainder)
  {
  }

  lemma FirstSlash(host: string, name: string)
    requires name != ""
    ensures var ref := host + ("/" + name);
      && Index(ref, '/') == |HostPart(host)| < |ref| - 1
      && ref[..|HostPart(host)|] == HostPart(host) && ref[|HostPart(host)| + 1..] == FrontPart(host) + name
  {
    var ref := host + ("/" + name);
    assert forall k :: 0 <= k < |host| ==> ref[k] == host[k];
    assert ref[|host|] == '/';
    if Index(host, '/') < 0 {
      assert ref[|host| + 1..] == name == "" + name;
    } else {
      var i := Index(host, '/');
      assert ref[i + 1..] == (host[i + 1..] + "/") + name;
    }
  }

  /** What the parser makes of any host: only its first part counts as the host, the rest goes to the repository. */
  lemma SlashesEndTheHost(host: string, projectName: string, id: string)
    requires IsValidProjectName(projectName) && IsId(id)
    requires host != "" && !IsSpace(host[0]) && host[0] != '/'
    ensures ParseTaggedImageRef(host + ("/" + JobImageName(projectName, id))) ==
      Ok(TaggedImageRef(HostPart(host), FrontPart(host) + Repository(projectName), id))
  {
    var name := JobImageName(projectName, id);
    RefIsTrimmed(host, projectName, id);
    FirstSlash(host, name);
    ParseSplits(host + ("/" + name), HostPart(host), FrontPart(host) + name);
    RemainderParses(FrontPart(host), projectName, id, HostPart(host));
  }

  lemma StartsWithSlash(host: string, projectName: string, id: string)
    requires IsValidProjectName(projectName) && IsId(id) && host != "" && host[0] == '/'
    ensures ParseTaggedImageRef(host + ("/" + JobImageName(projectName, id))) == NoHostOrRepository
    ensures Index(host, '/') == 0
  {
    RefIsTrimmed(host, projectName, id);
    var ref := host + ("/" + JobImageName(projectName, id));
    assert ref[0] == '/' && Index(ref, '/') == 0;
  }

  /** Without a registry the reference is the image's bare name, in which the parser finds no host. */
  lemma NoRegistryNoHost(projectName: string, id: string, registryHost: string)
    requires IsValidProjectName(projectName) && IsId(id) && TrimSpace(registryHost) == ""
    ensures JobImageRef(projectName, id, registryHost) == "ovek-" + projectName + ":" + id
    ensures ParseTaggedImageRef(JobImageRef(projectName, id, registryHost)) == NoHostOrRepository
  {
    var name := JobImageName(projectName, id);
    forall k | 0 <= k < |name| ensures name[k] != '/' && !IsSpace(name[k]) {
      ImageNameShape(projectName, id, k);
    }
    assert TrimSpace(name) == name && Index(name, '/') == -1;
  }

  /**
   * The parser gives back registry, repository and tag of a job's image exactly when the registry host, trimmed, has a
   * single part.
   */
  lemma BuiltImageParsesIff(projectName: string, id: string, registryHost: string)
    requires IsValidProjectName(projectName) && IsId(id)
    ensures var host := TrimSlashes(TrimSpace(registryHost));
      ParseTaggedImageRef(JobImageRef(projectName, id, registryHost)) ==
      Ok(TaggedImageRef(host, Repository(projectName), id))
      <==> host != "" && Index(host, '/') < 0
  {
    var trimmed := TrimSpace(registryHost);
    var host := TrimSlashes(trimmed);
    var name := JobImageName(projectName, id);
    if trimmed == "" {
      NoRegistryNoHost(projectName, id, registryHost);
    } else if host == "" {
      RefIsTrimmed("", projectName, id);
      assert ("" + ("/" + name))[0] == '/';
      assert Index("" + ("/" + name), '/') == 0;
    } else if host[0] == '/' {
      StartsWithSlash(host, projectName, id);
    } else {
      SlashesEndTheHost(host, projectName, id);
      assert "" + Repository(projectName) == Repository(projectName);
    }
  }
}
