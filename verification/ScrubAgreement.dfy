/** When the two scrubbers agree: Scrub replaces one secret after the other, the streaming writer all at once. */
module ScrubAgreement {
  import opened ByteStrings
  import opened Redaction
  import opened Scrubber

  /** strings.ReplaceAll with the marker, for a nonempty `s`: leftmost occurrences that do not overlap. */
  function ReplaceAll(text: Bytes, s: Bytes): Bytes
    requires s != []
  {
    if text == [] then []
    else if s <= text then MARKER + ReplaceAll(text[|s|..], s)
    else [text[0]] + ReplaceAll(text[1..], s)
  }

  predicate NoneEmpty(values: seq<Bytes>) {
    forall i :: 0 <= i < |values| ==> values[i] != []
  }

  /** What Scrub computes with its values in this order. */
  function ScrubFold(values: seq<Bytes>, text: Bytes): Bytes
    requires NoneEmpty(values)
  {
    if values == [] then text else ReplaceAll(ScrubFold(values[..|values| - 1], text), values[|values| - 1])
  }

  method Scrub(scrubber: SecretScrubber, text: Bytes) returns (value: Bytes)
    requires NoneEmpty(scrubber.values)
    ensures value == ScrubFold(scrubber.values, text)
  {
    value := text;
    for i := 0 to |scrubber.values|
      invariant value == ScrubFold(scrubber.values[..i], text)
    {
      value := ReplaceAll(value, scrubber.values[i]);
      assert scrubber.values[..i + 1][..i] == scrubber.values[..i];
    }
    assert scrubber.values[..|scrubber.values|] == scrubber.values;
  }

  /** Some placing of `s` and `m` makes them share a position and agree on all positions they share. */
  ghost predicate Meets(s: Bytes, m: Bytes) {
    || (exists k :: 0 <= k < |s| && (s[k..] <= m || m <= s[k..]))
    || (exists k :: 0 <= k < |m| && (m[k..] <= s || s <= m[k..]))
  }

  /**
   * Wherever `s` runs into a secret of `earlier` that starts inside it, one of `earlier` starts where `s` does,
   * so that `s` was not to be redacted there in the first place.
   */
  ghost predicate CutsCovered(earlier: set<Bytes>, s: Bytes) {
    forall t, k :: t in earlier && 0 < k < |s| && s[k..] <= t ==> exists u :: u in earlier && u <= s[..k] + t
  }

  /** From some place of the marker on, `s` and what is left of the marker agree as far as both go. */
  ghost predicate StartsInMarker(s: Bytes) {
    exists k :: 0 <= k < |MARKER| && (MARKER[k..] <= s || s <= MARKER[k..])
  }

  /** In a text of `front` and `t`, the first secret of `earlier` is the `t` behind `front`. */
  ghost predicate Undisturbed(earlier: set<Bytes>, front: Bytes, t: Bytes) {
    forall i, u :: 0 <= i < |front| && u in earlier ==> !(u <= (front + t)[i..])
  }

  /** Redacting some `t` behind a beginning of `s` puts the marker where `s` goes on like it. */
  ghost predicate RunsIntoMarker(earlier: set<Bytes>, s: Bytes) {
    exists t, j ::
      t in earlier && 0 < j < |s| && (s[j..] <= MARKER || MARKER <= s[j..]) && Undisturbed(earlier, s[..j], t)
  }

  /** No marker of an earlier pass can make a later pass for `s` find one that was not in the text. */
  ghost predicate SafeAfter(earlier: set<Bytes>, s: Bytes) {
    s == MARKER || (!StartsInMarker(s) && !RunsIntoMarker(earlier, s))
  }

  lemma MissingMarkerIsSafe(earlier: set<Bytes>, s: Bytes)
    requires !Meets(s, MARKER)
    ensures SafeAfter(earlier, s)
  {
  }

  ghost predicate AllCutsCovered(values: seq<Bytes>) {
    forall j :: 0 <= j < |values| ==> CutsCovered(Elements(values[..j]), values[j])
  }

  /** One secret: one pass and the sweep over all secrets are the same, even when it overlaps itself or the marker. */
  lemma {:induction false} ReplaceAllRedactsOne(text: Bytes, s: Bytes)
    requires s != []
    ensures ReplaceAll(text, s) == Redact({s}, text)
  {
    if text != [] {
      RedactUnfolds({s}, text);
      if s <= text {
        assert MatchLength({s}, text) == |s|;
        ReplaceAllRedactsOne(text[|s|..], s);
      } else {
        ReplaceAllRedactsOne(text[1..], s);
      }
    }
  }

  lemma PrefixesCompare(w: Bytes, m: Bytes, rest: Bytes)
    requires w <= m + rest
    ensures w <= m || m <= w
  {
    if |w| <= |m| {
      assert w == (m + rest)[..|w|] == m[..|w|];
    } else {
      assert m == (m + rest)[..|m|] == w[..|m|];
    }
  }

  lemma ReplaceAllSkips(b: Byte, rest: Bytes, s: Bytes)
    requires s != [] && !(s <= [b] + rest)
    ensures ReplaceAll([b] + rest, s) == [b] + ReplaceAll(rest, s)
  {
    assert ([b] + rest)[1..] == rest;
  }

  lemma ReplaceAllHits(rest: Bytes, s: Bytes)
    requires s != []
    ensures ReplaceAll(s + rest, s) == MARKER + ReplaceAll(rest, s)
  {
    assert (s + rest)[|s|..] == rest;
  }

  /** The marker has no proper suffix that is also its prefix: it has only one opening bracket. */
  lemma MarkerHasNoBorder(k: nat)
    requires 0 < k < |MARKER|
    ensures !(MARKER[k..] <= MARKER) && !(MARKER <= MARKER[k..])
  {
    assert MARKER[k..][0] == MARKER[k] != MARKER[0];
  }

  lemma {:induction false} RestSurvives(m: Bytes, k: nat, rest: Bytes, s: Bytes)
    requires k <= |m| && s != [] && forall i :: 0 <= i < |m| ==> !(m[i..] <= s || s <= m[i..])
    ensures ReplaceAll(m[k..] + rest, s) == m[k..] + ReplaceAll(rest, s)
    decreases |m| - k
  {
    if k == |m| {
      assert m[k..] + rest == rest;
    } else {
      var more := m[k + 1..] + rest;
      assert m[k..] == [m[k]] + m[k + 1..];
      assert m[k..] + rest == [m[k]] + more;
      if s <= m[k..] + rest { PrefixesCompare(s, m[k..], rest); }
      ReplaceAllSkips(m[k], more, s);
      RestSurvives(m, k + 1, rest, s);
    }
  }

  /** A later pass leaves the markers of earlier passes alone, or replaces them by themselves. */
  lemma MarkerSurvives(rest: Bytes, s: Bytes)
    requires s == MARKER || (s != [] && !StartsInMarker(s))
    ensures ReplaceAll(MARKER + rest, s) == MARKER + ReplaceAll(rest, s)
  {
    if s == MARKER {
      ReplaceAllHits(rest, s);
    } else {
      RestSurvives(MARKER, 0, rest, s);
      assert MARKER[0..] == MARKER;
    }
  }

  /** No secret starts at the first `n` places. */
  ghost predicate NoHitBefore(secrets: set<Bytes>, text: Bytes, n: nat)
    requires n <= |text|
  {
    forall i :: 0 <= i < n ==> MatchLength(secrets, text[i..]) == 0
  }

  lemma PrefixOfLonger(secrets: set<Bytes>, u: Bytes, text: Bytes, i: nat, n: nat)
    requires i <= n <= |text| && u <= text[..n][i..] && u in secrets && u != []
    ensures MatchLength(secrets, text[i..]) > 0
  {
    assert text[i..][..|u|] == text[..n][i..][..|u|];
    assert u <= text[i..];
  }

  /** Behind a beginning of a safe `s`, the marker for the first secret is not taken for the rest of `s`. */
  lemma SafeStopsAtMarker(secrets: set<Bytes>, s: Bytes, text: Bytes, k: nat)
    requires SafeAfter(secrets, s) && [] !in secrets && 0 < k < |s| && k <= |text| && text[..k] == s[..k]
    requires NoHitBefore(secrets, text, k) && MatchLength(secrets, text[k..]) > 0
    ensures !(s[k..] <= MARKER || MARKER <= s[k..])
  {
    if s == MARKER {
      MarkerHasNoBorder(k);
    } else {
      var n := MatchLength(secrets, text[k..]);
      var t := text[k..][..n];
      assert s[..k] + t == text[..k + n];
      forall i, u | 0 <= i < k && u in secrets ensures !(u <= (s[..k] + t)[i..]) {
        if u <= (s[..k] + t)[i..] { PrefixOfLonger(secrets, u, text, i, k + n); }
      }
      assert Undisturbed(secrets, s[..k], t);
    }
  }

  lemma CopiesByte(secrets: set<Bytes>, text: Bytes, k: nat)
    requires k < |text| && MatchLength(secrets, text[k..]) == 0
    ensures Redact(secrets, text[k..]) == [text[k]] + Redact(secrets, text[k + 1..])
  {
    RedactUnfolds(secrets, text[k..]);
    assert text[k..][1..] == text[k + 1..];
  }

  lemma NoMarkerFound(secrets: set<Bytes>, text: Bytes, s: Bytes, k: nat)
    requires SafeAfter(secrets, s) && [] !in secrets && k < |s| && k <= |text| && text[..k] == s[..k]
    requires NoHitBefore(secrets, text, k) && s[k..] <= Redact(secrets, text[k..])
    requires k == 0 ==> MatchLength(secrets, text[k..]) == 0
    ensures k < |text| && MatchLength(secrets, text[k..]) == 0
  {
    assert text[k..] != [];
    if MatchLength(secrets, text[k..]) > 0 {
      RedactUnfolds(secrets, text[k..]);
      PrefixesCompare(s[k..], MARKER, Redact(secrets, text[k..][FirstStep(secrets, text[k..])..]));
      SafeStopsAtMarker(secrets, s, text, k);
    }
  }

  lemma OneMoreInCommon(text: Bytes, s: Bytes, k: nat, rest: Bytes)
    requires k < |s| && k < |text| && text[..k] == s[..k] && s[k..] <= [text[k]] + rest
    ensures text[..k + 1] == s[..k + 1] && s[k + 1..] <= rest
  {
    assert s[k + 1..] == s[k..][1..] <= ([text[k]] + rest)[1..] == rest;
    assert text[..k + 1] == text[..k] + [text[k]] && s[..k + 1] == s[..k] + [s[k]];
  }

  lemma OneByteFound(secrets: set<Bytes>, text: Bytes, s: Bytes, k: nat)
    requires k < |s| && k < |text| && text[..k] == s[..k] && MatchLength(secrets, text[k..]) == 0
    requires s[k..] <= Redact(secrets, text[k..])
    ensures text[..k + 1] == s[..k + 1] && s[k + 1..] <= Redact(secrets, text[k + 1..])
  {
    CopiesByte(secrets, text, k);
    OneMoreInCommon(text, s, k, Redact(secrets, text[k + 1..]));
  }

  /** The first `k` bytes of `s` are in the text, and a later pass finds the rest of it behind them. */
  ghost predicate FoundFrom(secrets: set<Bytes>, text: Bytes, s: Bytes, k: nat) {
    && k <= |s| && k <= |text| && text[..k] == s[..k]
    && NoHitBefore(secrets, text, k) && s[k..] <= Redact(secrets, text[k..])
    && (k == 0 ==> MatchLength(secrets, text[k..]) == 0)
  }

  lemma NoHitYet(secrets: set<Bytes>, text: Bytes, k: nat)
    requires k < |text| && NoHitBefore(secrets, text, k) && MatchLength(secrets, text[k..]) == 0
    ensures NoHitBefore(secrets, text, k + 1)
  {
  }

  lemma FoundByte(secrets: set<Bytes>, text: Bytes, s: Bytes, k: nat)
    requires SafeAfter(secrets, s) && [] !in secrets && FoundFrom(secrets, text, s, k) && k < |s|
    ensures FoundFrom(secrets, text, s, k + 1)
  {
    NoMarkerFound(secrets, text, s, k);
    OneByteFound(secrets, text, s, k);
    NoHitYet(secrets, text, k);
  }

  /** What a later pass finds outside the markers was in the text. */
  lemma {:induction false} FoundInText(secrets: set<Bytes>, text: Bytes, s: Bytes, k: nat)
    requires SafeAfter(secrets, s) && [] !in secrets && FoundFrom(secrets, text, s, k)
    ensures s <= text
    decreases |s| - k
  {
    if k < |s| {
      FoundByte(secrets, text, s, k);
      FoundInText(secrets, text, s, k + 1);
    } else {
      assert s == s[..k] == text[..k];
    }
  }

  lemma CutInside(text: Bytes, s: Bytes, k: nat, n: nat)
    requires s <= text && k <= |s| <= k + n <= |text|
    ensures s[k..] <= text[k..][..n] && s[..k] + text[k..][..n] == text[..k + n]
  {
    assert s == text[..|s|];
    assert s[k..] == text[k..][..n][..|s| - k];
  }

  /** If an earlier secret starts inside an occurrence of the shorter `s`, one also starts with it. */
  lemma OneStartsWithIt(secrets: set<Bytes>, text: Bytes, s: Bytes, k: nat)
    requires (forall t :: t in secrets ==> |t| >= |s|) && CutsCovered(secrets, s) && [] !in secrets
    requires s <= text && 0 < k < |s| && MatchLength(secrets, text[k..]) > 0
    ensures MatchLength(secrets, text) > 0
  {
    var n := MatchLength(secrets, text[k..]);
    var t := text[k..][..n];
    CutInside(text, s, k, n);
    var u :| u in secrets && u <= s[..k] + t;
    assert text[..k + n] <= text;
  }

  lemma NoneStartsInside(secrets: set<Bytes>, text: Bytes, s: Bytes, k: nat)
    requires (forall t :: t in secrets ==> |t| >= |s|) && CutsCovered(secrets, s) && [] !in secrets
    requires s <= text && k < |s| && MatchLength(secrets, text) == 0
    ensures MatchLength(secrets, text[k..]) == 0
  {
    if k == 0 {
      assert text[k..] == text;
    } else if MatchLength(secrets, text[k..]) > 0 {
      OneStartsWithIt(secrets, text, s, k);
    }
  }

  lemma PrependByte(text: Bytes, k: nat, n: nat, rest: Bytes)
    requires k < n <= |text|
    ensures [text[k]] + (text[k + 1..n] + rest) == text[k..n] + rest
  {
    assert text[k..n] == [text[k]] + text[k + 1..n];
  }

  /** Bytes at which nothing matches are copied. */
  lemma {:induction false} CopiesSpan(secrets: set<Bytes>, text: Bytes, k: nat, n: nat)
    requires k <= n <= |text|
    requires forall i :: k <= i < n ==> MatchLength(secrets, text[i..]) == 0
    ensures Redact(secrets, text[k..]) == text[k..n] + Redact(secrets, text[n..])
    decreases n - k
  {
    if k < n {
      CopiesByte(secrets, text, k);
      CopiesSpan(secrets, text, k + 1, n);
      PrependByte(text, k, n, Redact(secrets, text[n..]));
    } else {
      assert text[k..n] == [];
    }
  }

  /** Adding a secret that is no longer than the others does not change what matches at a place where they match. */
  lemma MatchOfMore(secrets: set<Bytes>, text: Bytes, s: Bytes)
    requires s != [] && (forall t :: t in secrets ==> |t| >= |s|)
    ensures MatchLength(secrets + {s}, text) ==
      if MatchLength(secrets, text) > 0 then MatchLength(secrets, text) else if s <= text then |s| else 0
  {
    var n, m := MatchLength(secrets, text), MatchLength(secrets + {s}, text);
    if m > 0 {
      assert text[..m] in secrets + {s};
      assert text[..m] <= text;
    }
    if n > 0 {
      assert text[..n] in secrets + {s} && text[..n] <= text;
    }
  }

  lemma RedactStartsWithMarker(secrets: set<Bytes>, text: Bytes, s: Bytes)
    requires s != [] && (forall t :: t in secrets ==> |t| >= |s|)
    requires s <= text && MatchLength(secrets, text) == 0
    ensures Redact(secrets + {s}, text) == MARKER + Redact(secrets + {s}, text[|s|..])
  {
    MatchOfMore(secrets, text, s);
    RedactUnfolds(secrets + {s}, text);
  }

  /** Where an earlier secret matches, the later pass leaves the marker alone. */
  lemma PassAtMarker(secrets: set<Bytes>, s: Bytes, text: Bytes)
    requires s != [] && SafeAfter(secrets, s) && (forall t :: t in secrets ==> |t| >= |s|)
    requires MatchLength(secrets, text) > 0
    ensures var rest := text[MatchLength(secrets, text)..];
      && ReplaceAll(Redact(secrets, text), s) == MARKER + ReplaceAll(Redact(secrets, rest), s)
      && Redact(secrets + {s}, text) == MARKER + Redact(secrets + {s}, rest)
  {
    RedactUnfolds(secrets, text);
    RedactUnfolds(secrets + {s}, text);
    MatchOfMore(secrets, text, s);
    MarkerSurvives(Redact(secrets, text[MatchLength(secrets, text)..]), s);
  }

  /** Where `s` is due, the earlier passes have copied it. */
  lemma PassAtSecret(secrets: set<Bytes>, s: Bytes, text: Bytes)
    requires s != [] && [] !in secrets && CutsCovered(secrets, s) && (forall t :: t in secrets ==> |t| >= |s|)
    requires MatchLength(secrets, text) == 0 && s <= text
    ensures ReplaceAll(Redact(secrets, text), s) == MARKER + ReplaceAll(Redact(secrets, text[|s|..]), s)
    ensures Redact(secrets + {s}, text) == MARKER + Redact(secrets + {s}, text[|s|..])
  {
    RedactStartsWithMarker(secrets, text, s);
    forall k | 0 <= k < |s| { NoneStartsInside(secrets, text, s, k); }
    CopiesSpan(secrets, text, 0, |s|);
    assert text[0..] == text && text[0..|s|] == s;
    ReplaceAllHits(Redact(secrets, text[|s|..]), s);
  }

  /** Anywhere else, both copy a byte. */
  lemma PassAtByte(secrets: set<Bytes>, s: Bytes, text: Bytes)
    requires s != [] && [] !in secrets && SafeAfter(secrets, s) && (forall t :: t in secrets ==> |t| >= |s|)
    requires text != [] && MatchLength(secrets, text) == 0 && !(s <= text)
    ensures ReplaceAll(Redact(secrets, text), s) == [text[0]] + ReplaceAll(Redact(secrets, text[1..]), s)
    ensures Redact(secrets + {s}, text) == [text[0]] + Redact(secrets + {s}, text[1..])
  {
    assert text[0..] == text && s[0..] == s && text[..0] == s[..0];
    if s <= Redact(secrets, text) {
      FoundInText(secrets, text, s, 0);
    }
    RedactUnfolds(secrets, text);
    ReplaceAllSkips(text[0], Redact(secrets, text[1..]), s);
    MatchOfMore(secrets, text, s);
    RedactUnfolds(secrets + {s}, text);
  }

  /** One more pass of ReplaceAll is one more secret in the one-shot redaction. */
  lemma {:induction false} PassAddsSecret(secrets: set<Bytes>, s: Bytes, text: Bytes)
    requires s != [] && [] !in secrets && (forall t :: t in secrets ==> |t| >= |s|)
    requires CutsCovered(secrets, s) && SafeAfter(secrets, s)
    ensures ReplaceAll(Redact(secrets, text), s) == Redact(secrets + {s}, text)
    decreases |text|
  {
    if text != [] {
      if MatchLength(secrets, text) > 0 {
        PassAtMarker(secrets, s, text);
        PassAddsSecret(secrets, s, text[MatchLength(secrets, text)..]);
      } else if s <= text {
        PassAtSecret(secrets, s, text);
        PassAddsSecret(secrets, s, text[|s|..]);
      } else {
        PassAtByte(secrets, s, text);
        PassAddsSecret(secrets, s, text[1..]);
      }
    }
  }

  ghost predicate Agrees(values: seq<Bytes>)
    requires NoneEmpty(values)
  {
    forall text :: ScrubFold(values, text) == Redact(Elements(values), text)
  }

  /** The first secret is free: only a secret replaced after another can damage a marker. */
  ghost predicate LaterAreSafe(values: seq<Bytes>) {
    forall j :: 0 < j < |values| ==> SafeAfter(Elements(values[..j]), values[j])
  }

  lemma ElementsOfNext(values: seq<Bytes>, j: nat)
    requires j < |values|
    ensures values[..j + 1][..j] == values[..j]
    ensures Elements(values[..j + 1]) == Elements(values[..j]) + {values[j]}
  {
    assert values[..j + 1] == values[..j] + [values[j]];
  }

  lemma NextPass(values: seq<Bytes>, j: nat, text: Bytes)
    requires NoneEmpty(values) && j < |values|
    ensures ScrubFold(values[..j + 1], text) == ReplaceAll(ScrubFold(values[..j], text), values[j])
  {
    assert values[..j + 1][..j] == values[..j];
  }

  /** Pass number `i` adds its secret, the first one whatever it is. */
  lemma PassAgrees(values: seq<Bytes>, i: nat, text: Bytes)
    requires NoneEmpty(values) && LongestFirst(values) && LaterAreSafe(values)
    requires i < |values| && CutsCovered(Elements(values[..i]), values[i])
    ensures var earlier := Elements(values[..i]);
      ReplaceAll(Redact(earlier, text), values[i]) == Redact(earlier + {values[i]}, text)
  {
    if i == 0 {
      assert Elements(values[..0]) == {} && {} + {values[0]} == {values[0]};
      NothingToRedact(text);
      ReplaceAllRedactsOne(text, values[0]);
    } else {
      PassAddsSecret(Elements(values[..i]), values[i], text);
    }
  }

  /** If every cut is covered, the two scrubbers agree on every text. */
  lemma {:induction false} ScrubAgrees(values: seq<Bytes>, j: nat, text: Bytes)
    requires NoneEmpty(values) && LongestFirst(values) && LaterAreSafe(values)
    requires j <= |values| && forall i :: 0 <= i < j ==> CutsCovered(Elements(values[..i]), values[i])
    ensures ScrubFold(values[..j], text) == Redact(Elements(values[..j]), text)
  {
    if j == 0 {
      NothingToRedact(text);
      assert Elements(values[..0]) == {};
    } else {
      var i := j - 1;
      ScrubAgrees(values, i, text);
      ElementsOfNext(values, i);
      NextPass(values, i, text);
      PassAgrees(values, i, text);
    }
  }

  /** The first place after the start, up to `k`, at which a secret starts. */
  lemma {:induction false} FirstHit(secrets: set<Bytes>, text: Bytes, k: nat) returns (hit: nat)
    requires 0 < k < |text| && MatchLength(secrets, text[k..]) > 0
    ensures 0 < hit <= k && MatchLength(secrets, text[hit..]) > 0
    ensures forall i :: 0 < i < hit ==> MatchLength(secrets, text[i..]) == 0
  {
    if i :| 0 < i < k && MatchLength(secrets, text[i..]) > 0 {
      hit := FirstHit(secrets, text, i);
    } else {
      hit := k;
    }
  }

  lemma SharedWithMarker(s: Bytes, front: Bytes, rest: Bytes)
    requires |front| < |s| && s <= front + (MARKER + rest)
    ensures s[..|front|] == front && (s[|front|..] <= MARKER || MARKER <= s[|front|..])
  {
    var k, held := |front|, front + (MARKER + rest);
    assert s[..k] == held[..k] == front;
    assert s[k..] <= held[k..] == MARKER + rest;
    PrefixesCompare(s[k..], MARKER, rest);
  }

  /** Nothing starts before place `n`, and a secret starts there. */
  ghost predicate FirstHitAt(secrets: set<Bytes>, text: Bytes, n: nat) {
    n <= |text| && NoHitBefore(secrets, text, n) && MatchLength(secrets, text[n..]) > 0
  }

  lemma HitFrom(secrets: set<Bytes>, text: Bytes, j: nat, hit: nat)
    requires j <= hit && FirstHitAt(secrets, text, hit)
    ensures FirstHitAt(secrets, text[j..], hit - j)
  {
    assert text[j..][hit - j..] == text[hit..];
    forall i | 0 <= i < hit - j ensures MatchLength(secrets, text[j..][i..]) == 0 {
      assert text[j..][i..] == text[j + i..];
    }
  }

  lemma NotFoundBehind(secrets: set<Bytes>, s: Bytes, text: Bytes, front: Bytes, rest: Bytes)
    requires SafeAfter(secrets, s) && [] !in secrets && 0 < |front| < |s|
    requires FirstHitAt(secrets, text, |front|) && text[..|front|] == front
    ensures !(s <= front + (MARKER + rest))
  {
    if s <= front + (MARKER + rest) {
      SharedWithMarker(s, front, rest);
      SafeStopsAtMarker(secrets, s, text, |front|);
    }
  }

  lemma InCommonFrom(s: Bytes, text: Bytes, j: nat, hit: nat)
    requires j <= hit <= |s| && hit <= |text| && text[..hit] == s[..hit]
    ensures text[j..][..hit - j] == s[j..hit]
  {
    assert s[j..hit] == s[..hit][j..] == text[..hit][j..];
  }

  lemma NotFoundAcross(secrets: set<Bytes>, s: Bytes, text: Bytes, j: nat, hit: nat, rest: Bytes)
    requires SafeAfter(secrets, s) && [] !in secrets && j < hit < |s|
    requires FirstHitAt(secrets, text, hit) && text[..hit] == s[..hit]
    ensures !(s <= s[j..hit] + (MARKER + rest))
  {
    InCommonFrom(s, text, j, hit);
    HitFrom(secrets, text, j, hit);
    NotFoundBehind(secrets, s, text[j..], s[j..hit], rest);
  }

  /** A pass for a safe `s` cannot find it across the start of the first marker. */
  lemma {:induction false} NotAcrossMarker(secrets: set<Bytes>, s: Bytes, text: Bytes, j: nat, hit: nat, rest: Bytes)
    requires SafeAfter(secrets, s) && [] !in secrets && j <= hit < |s|
    requires FirstHitAt(secrets, text, hit) && text[..hit] == s[..hit]
    ensures ReplaceAll(s[j..hit] + (MARKER + rest), s) == s[j..hit] + ReplaceAll(MARKER + rest, s)
    decreases hit - j
  {
    if j == hit {
      assert s[j..hit] + (MARKER + rest) == MARKER + rest;
      assert s[j..hit] + ReplaceAll(MARKER + rest, s) == ReplaceAll(MARKER + rest, s);
    } else {
      NotFoundAcross(secrets, s, text, j, hit, rest);
      PrependByte(s, j, hit, MARKER + rest);
      ReplaceAllSkips(s[j], s[j + 1..hit] + (MARKER + rest), s);
      NotAcrossMarker(secrets, s, text, j + 1, hit, rest);
      PrependByte(s, j, hit, ReplaceAll(MARKER + rest, s));
    }
  }

  /** The marker starts with its only opening bracket, so two outputs of these shapes differ. */
  lemma ShapesDiffer(s: Bytes, k: nat, x: Bytes, y: Bytes)
    requires 0 < k < |s| && (s == MARKER || !StartsInMarker(s))
    ensures s[..k] + (MARKER + x) != MARKER + y
  {
    var left, right := s[..k] + (MARKER + x), MARKER + y;
    if k < |MARKER| {
      assert left[k] == MARKER[0] && right[k] == MARKER[k] != MARKER[0];
    } else {
      assert MARKER[0..] == MARKER;
      assert left[..|MARKER|] == s[..|MARKER|] != MARKER == right[..|MARKER|];
    }
  }

  /** Redaction copies a text up to the first place where a secret starts. */
  lemma CopiesUpToHit(secrets: set<Bytes>, text: Bytes, k: nat) returns (hit: nat, rest: Bytes)
    requires MatchLength(secrets, text) == 0 && 0 < k < |text| && MatchLength(secrets, text[k..]) > 0
    ensures 0 < hit <= k && Redact(secrets, text) == text[..hit] + (MARKER + rest)
    ensures FirstHitAt(secrets, text, hit)
  {
    hit := FirstHit(secrets, text, k);
    rest := Redact(secrets, text[hit..][MatchLength(secrets, text[hit..])..]);
    RedactUnfolds(secrets, text[hit..]);
    assert text[0..] == text && text[0..hit] == text[..hit];
    CopiesSpan(secrets, text, 0, hit);
  }

  /** Where a text starts with a safe `s` but an earlier secret interferes, the pass for `s` comes too late. */
  lemma PassComesTooLate(secrets: set<Bytes>, s: Bytes, text: Bytes, k: nat) returns (hit: nat, x: Bytes)
    requires [] !in secrets && SafeAfter(secrets, s) && s <= text && MatchLength(secrets, text) == 0
    requires 0 < k < |s| && MatchLength(secrets, text[k..]) > 0
    ensures 0 < hit <= k && ReplaceAll(Redact(secrets, text), s) == s[..hit] + (MARKER + x)
  {
    var rest;
    hit, rest := CopiesUpToHit(secrets, text, k);
    assert text[..hit] == s[..hit] == s[0..hit];
    NotAcrossMarker(secrets, s, text, 0, hit, rest);
    MarkerSurvives(rest, s);
    x := ReplaceAll(rest, s);
  }

  lemma RunsTogether(s: Bytes, t: Bytes, k: nat)
    requires k <= |s| && s[k..] <= t
    ensures s <= s[..k] + t
  {
    assert s == s[..k] + s[k..];
    assert (s[..k] + t)[..|s|] == s;
  }

  /** A cut that is not covered shows: on the two secrets run together the outputs differ. */
  lemma UncoveredCutShows(secrets: set<Bytes>, s: Bytes, t: Bytes, k: nat)
    requires [] !in secrets && SafeAfter(secrets, s) && (forall u :: u in secrets ==> |u| >= |s|)
    requires t in secrets && 0 < k < |s| && s[k..] <= t
    requires forall u :: u in secrets ==> !(u <= s[..k] + t)
    ensures ReplaceAll(Redact(secrets, s[..k] + t), s) != Redact(secrets + {s}, s[..k] + t)
  {
    var text := s[..k] + t;
    assert text[k..] == t && t <= text[k..];
    RunsTogether(s, t, k);
    var hit, x := PassComesTooLate(secrets, s, text, k);
    RedactStartsWithMarker(secrets, text, s);
    ShapesDiffer(s, hit, x, Redact(secrets + {s}, text[|s|..]));
  }

  /** With one secret the two always agree, even when it overlaps itself or the marker. */
  lemma OneSecretAgrees(s: Bytes)
    requires s != []
    ensures Agrees([s])
  {
    assert [s][..1] == [s];
    forall text { ScrubAgrees([s], 1, text); }
  }

  /**
   * Secrets that overlap neither one another nor the marker: Scrub and the writer agree, in whatever order they were
   * sorted.
   */
  lemma OverlapFreeAgreement(scrubber: SecretScrubber, secrets: set<Bytes>)
    requires ScrubberFor(scrubber, secrets)
    requires forall s, t :: s in secrets && t in secrets && s != t ==> !Meets(s, t)
    requires forall s :: s in secrets ==> !Meets(s, MARKER)
    ensures NoneEmpty(scrubber.values) && forall text :: ScrubFold(scrubber.values, text) == Redact(secrets, text)
  {
    var values := scrubber.values;
    assert forall i :: 0 <= i < |values| ==> values[i] in Elements(values);
    forall j | 0 <= j < |values| ensures CutsCovered(Elements(values[..j]), values[j]) {
      forall t, k | t in Elements(values[..j]) && 0 < k < |values[j]| ensures !(values[j][k..] <= t) {
        var i :| 0 <= i < j && values[i] == t;
        assert values[i] != values[j] && !Meets(values[j], t);
      }
    }
    forall j | 0 < j < |values| ensures SafeAfter(Elements(values[..j]), values[j]) {
      MissingMarkerIsSafe(Elements(values[..j]), values[j]);
    }
    assert values[..|values|] == values;
    forall text { ScrubAgrees(values, |values|, text); }
  }
}
