/** Any number of secrets: exactly when Scrub agrees with the streaming writer, however long the list has become. */
module ScrubLists {
  import opened ByteStrings
  import opened Redaction
  import opened Scrubber
  import opened ScrubAgreement
  import opened ScrubPairs
  import opened ScrubOrder

  lemma {:induction false} LongestOf(secrets: set<Bytes>) returns (t: Bytes)
    requires secrets != {}
    ensures t in secrets && forall u :: u in secrets ==> |u| <= |t|
    decreases secrets
  {
    t :| t in secrets;
    if secrets != {t} {
      var u := LongestOf(secrets - {t});
      if |u| > |t| { t := u; }
    }
  }

  /** A longest secret, and what is too short for all of them behind it. */
  lemma LongestAndTail(secrets: set<Bytes>, t: Bytes, tail: Bytes)
    requires t in secrets && forall u :: u in secrets ==> |tail| < |u| <= |t|
    ensures Redact(secrets, t + tail) == MARKER + tail
  {
    var text := t + tail;
    assert t <= text && text[|t|..] == tail;
    RedactUnfolds(secrets, text);
    TooShortToRedact(secrets, tail);
  }

  lemma StartAfterShows(secrets: set<Bytes>, s: Bytes) returns (text: Bytes)
    requires secrets != {} && (forall t :: t in secrets ==> |t| >= |s| > 0) && s != MARKER && StartsInMarker(s)
    ensures ReplaceAll(Redact(secrets, text), s) != Redact(secrets + {s}, text)
  {
    var k :| 0 <= k < |MARKER| && (MARKER[k..] <= s || s <= MARKER[k..]);
    var t := LongestOf(secrets);
    text := t + TailOf(s, k);
    LongestAndTail(secrets, t, TailOf(s, k));
    LongestAndTail(secrets + {s}, t, TailOf(s, k));
    FoundInOutput(MARKER, s, k, TailOf(s, k));
    PassShows(MARKER + TailOf(s, k), s, k);
  }

  /** `s` runs into the marker that redacting `t`, undisturbed, leaves behind the first `j` bytes of `s`. */
  ghost predicate RunsInAfter(secrets: set<Bytes>, t: Bytes, s: Bytes, j: nat) {
    && t in secrets && (forall u :: u in secrets ==> |u| >= |s|) && 0 < j < |s| && s[j..] <= MARKER
    && s != MARKER && t != MARKER && !StartsInMarker(s) && Undisturbed(secrets, s[..j], t)
  }

  lemma NothingStarts(secrets: set<Bytes>, text: Bytes)
    requires forall u :: u in secrets ==> !(u <= text)
    ensures MatchLength(secrets, text) == 0
  {
    var n := MatchLength(secrets, text);
    assert text[..n] <= text;
  }

  lemma NoHitInFront(secrets: set<Bytes>, front: Bytes, t: Bytes)
    requires t != [] && Undisturbed(secrets, front, t)
    ensures NoHitBefore(secrets, front + t, |front|)
  {
    forall i | 0 <= i < |front| ensures MatchLength(secrets, (front + t)[i..]) == 0 {
      NothingStarts(secrets, (front + t)[i..]);
    }
  }

  lemma WholeMatch(secrets: set<Bytes>, t: Bytes)
    requires t in secrets && t != []
    ensures Redact(secrets, t) == MARKER
  {
    RedactUnfolds(secrets, t);
    assert t <= t && t[|t|..] == [] && MARKER + [] == MARKER;
  }

  lemma FrontAndOneMarker(secrets: set<Bytes>, front: Bytes, t: Bytes)
    requires t in secrets && t != [] && Undisturbed(secrets, front, t)
    ensures Redact(secrets, front + t) == front + MARKER
  {
    var text := front + t;
    NoHitInFront(secrets, front, t);
    CopiesSpan(secrets, text, 0, |front|);
    assert text[0..] == text && text[0..|front|] == front && text[|front|..] == t;
    WholeMatch(secrets, t);
  }

  /** What redaction leaves of the end of a secret that begins like the marker is not the end of the marker. */
  lemma EndIsNotLeft(secrets: set<Bytes>, t: Bytes, l: nat)
    requires 0 < l <= |MARKER| && l <= |t| && t[..l] == MARKER[..l] && t != MARKER
    ensures Redact(secrets, t[l..]) != MARKER[l..]
  {
    SameHalves(MARKER, t, l);
    if Redact(secrets, t[l..]) == MARKER[l..] {
      ShortOutputIsText(secrets, t[l..]);
    }
  }

  lemma SameStart(start: Bytes, t: Bytes, m: Bytes)
    requires start <= t && start <= m
    ensures t[..|start|] == m[..|start|]
  {
  }

  lemma DueOutput(secrets: set<Bytes>, t: Bytes, s: Bytes, j: nat)
    requires (forall u :: u in secrets ==> |u| >= |s|) && s != [] && j <= |s| && s[j..] <= t
    requires MatchLength(secrets, s[..j] + t) == 0
    ensures Redact(secrets + {s}, s[..j] + t) == MARKER + Redact(secrets + {s}, t[|s| - j..])
  {
    RunsTogether(s, t, j);
    RedactStartsWithMarker(secrets, s[..j] + t, s);
    Behind(s, j, t);
  }

  /** When `s` is due at the start, what follows it in the text shows that the pass comes too late. */
  lemma DueShows(secrets: set<Bytes>, t: Bytes, s: Bytes, j: nat)
    requires RunsInAfter(secrets, t, s, j) && s[j..] <= t && MatchLength(secrets, s[..j] + t) == 0
    ensures Redact(secrets + {s}, s[..j] + t) != MARKER + MARKER[|s| - j..]
  {
    DueOutput(secrets, t, s, j);
    SameStart(s[j..], t, MARKER);
    EndIsNotLeft(secrets + {s}, t, |s| - j);
    SameBehindMarker(Redact(secrets + {s}, t[|s| - j..]), MARKER[|s| - j..]);
  }

  lemma NotDueShows(secrets: set<Bytes>, t: Bytes, s: Bytes, j: nat)
    requires RunsInAfter(secrets, t, s, j) && MatchLength(secrets + {s}, s[..j] + t) == 0
    ensures Redact(secrets + {s}, s[..j] + t) != MARKER + MARKER[|s| - j..]
  {
    HitBehindFront(secrets + {s}, s[..j], t, []);
    assert t + [] == t;
    var hit, rest := CopiesUpToHit(secrets + {s}, s[..j] + t, j);
    FrontOf(s, j, hit, t);
    ShapesDiffer(s, hit, rest, MARKER[|s| - j..]);
  }

  lemma RunInAfterShows(secrets: set<Bytes>, t: Bytes, s: Bytes, j: nat)
    requires RunsInAfter(secrets, t, s, j)
    ensures ReplaceAll(Redact(secrets, s[..j] + t), s) != Redact(secrets + {s}, s[..j] + t)
  {
    var text := s[..j] + t;
    FrontAndOneMarker(secrets, s[..j], t);
    PassAcrossMarker(s, j);
    NoHitInFront(secrets, s[..j], t);
    assert text[0..] == text;
    MatchOfMore(secrets, text, s);
    if s <= text {
      DueIsFound(s, j, t);
      DueShows(secrets, t, s, j);
    } else {
      NotDueShows(secrets, t, s, j);
    }
  }

  /** Whether a pass for `s` is safe after those for `secrets` can be told by texts alone. */
  ghost predicate Telling(secrets: set<Bytes>, s: Bytes) {
    SafeAfter(secrets, s) || (MARKER !in secrets && !IsIn(MARKER, s))
  }

  lemma RunInAfterPlace(secrets: set<Bytes>, s: Bytes) returns (t: Bytes, j: nat)
    requires (forall u :: u in secrets ==> |u| >= |s| > 0) && s != MARKER && !StartsInMarker(s)
    requires RunsIntoMarker(secrets, s) && MARKER !in secrets && !IsIn(MARKER, s)
    ensures RunsInAfter(secrets, t, s, j)
  {
    var u, place :| u in secrets && 0 < place < |s| && (s[place..] <= MARKER || MARKER <= s[place..])
      && Undisturbed(secrets, s[..place], u);
    t, j := u, place;
  }

  lemma CutShowsAfter(secrets: set<Bytes>, s: Bytes) returns (text: Bytes)
    requires (forall t :: t in secrets ==> |t| >= |s| > 0) && SafeAfter(secrets, s) && !CutsCovered(secrets, s)
    ensures ReplaceAll(Redact(secrets, text), s) != Redact(secrets + {s}, text)
  {
    var t, k :| t in secrets && 0 < k < |s| && s[k..] <= t && !exists u :: u in secrets && u <= s[..k] + t;
    text := s[..k] + t;
    UncoveredCutShows(secrets, s, t, k);
  }

  /** A pass that is not safe, or cuts a secret where that is not covered, shows on some text. */
  lemma BadPassShows(secrets: set<Bytes>, s: Bytes) returns (text: Bytes)
    requires secrets != {} && (forall t :: t in secrets ==> |t| >= |s| > 0) && Telling(secrets, s)
    requires !SafeAfter(secrets, s) || !CutsCovered(secrets, s)
    ensures ReplaceAll(Redact(secrets, text), s) != Redact(secrets + {s}, text)
  {
    if SafeAfter(secrets, s) {
      text := CutShowsAfter(secrets, s);
    } else if StartsInMarker(s) {
      text := StartAfterShows(secrets, s);
    } else {
      var t, j := RunInAfterPlace(secrets, s);
      RunInAfterShows(secrets, t, s, j);
      text := s[..j] + t;
    }
  }

  ghost predicate AllTelling(values: seq<Bytes>) {
    forall j :: 0 < j < |values| ==> Telling(Elements(values[..j]), values[j])
  }

  ghost predicate AgreesThroughout(values: seq<Bytes>)
    requires NoneEmpty(values)
  {
    forall j :: 0 <= j <= |values| ==> Agrees(values[..j])
  }

  lemma EarlierAreLonger(values: seq<Bytes>, j: nat)
    requires NoneEmpty(values) && LongestFirst(values) && j < |values|
    ensures forall t :: t in Elements(values[..j]) ==> |t| >= |values[j]| > 0
  {
  }

  /** Two prefixes of the list cannot both agree around a pass that shows. */
  lemma BadPassDisagrees(values: seq<Bytes>, j: nat)
    requires NoneEmpty(values) && LongestFirst(values) && 0 < j < |values| && AllTelling(values)
    requires !SafeAfter(Elements(values[..j]), values[j]) || !CutsCovered(Elements(values[..j]), values[j])
    ensures !Agrees(values[..j]) || !Agrees(values[..j + 1])
  {
    EarlierAreLonger(values, j);
    assert values[0] in Elements(values[..j]);
    var text := BadPassShows(Elements(values[..j]), values[j]);
    NextPass(values, j, text);
    ElementsOfNext(values, j);
  }

  lemma GoodPassesAgree(values: seq<Bytes>)
    requires NoneEmpty(values) && LongestFirst(values) && LaterAreSafe(values) && AllCutsCovered(values)
    ensures AgreesThroughout(values)
  {
    forall j, text | 0 <= j <= |values| ensures ScrubFold(values[..j], text) == Redact(Elements(values[..j]), text) {
      ScrubAgrees(values, j, text);
    }
  }

  lemma SomeBadPass(values: seq<Bytes>) returns (j: nat)
    requires !AllCutsCovered(values) || !LaterAreSafe(values)
    ensures 0 < j < |values|
    ensures !SafeAfter(Elements(values[..j]), values[j]) || !CutsCovered(Elements(values[..j]), values[j])
  {
    if !AllCutsCovered(values) {
      j :| 0 <= j < |values| && !CutsCovered(Elements(values[..j]), values[j]);
      assert j == 0 ==> values[..j] == [];
    } else {
      j :| 0 < j < |values| && !SafeAfter(Elements(values[..j]), values[j]);
    }
  }

  /**
   * The exact condition, for any number of secrets: Scrub agrees with the streaming writer on every text, and has
   * done so for every beginning of the list, if and only if every cut of a secret by an earlier one is covered and no
   * later secret can be confused with a marker that the earlier ones leave. (Left open are secrets that contain the
   * whole marker, or come after the marker itself, and that can be confused with a marker.)
   */
  lemma AgreementIff(values: seq<Bytes>)
    requires NoneEmpty(values) && LongestFirst(values) && AllTelling(values)
    ensures AgreesThroughout(values) <==> AllCutsCovered(values) && LaterAreSafe(values)
  {
    if AllCutsCovered(values) && LaterAreSafe(values) {
      GoodPassesAgree(values);
    } else {
      var j := SomeBadPass(values);
      BadPassDisagrees(values, j);
    }
  }
}
