/** Two secrets: exactly when Scrub agrees with the streaming writer. */
module ScrubPairs {
  import opened ByteStrings
  import opened Redaction
  import opened Scrubber
  import opened ScrubAgreement

  // ---- How a pass changes a text ----

  /** A pass for a short secret makes no text shorter, one for a long secret makes none longer. */
  lemma {:induction false} LengthAfterPass(text: Bytes, s: Bytes)
    requires s != []
    ensures |s| <= |MARKER| ==> |ReplaceAll(text, s)| >= |text|
    ensures |s| >= |MARKER| ==> |ReplaceAll(text, s)| <= |text|
  {
    if text != [] {
      LengthAfterPass(if s <= text then text[|s|..] else text[1..], s);
    }
  }

  lemma PassAtStartShows(text: Bytes, s: Bytes)
    requires s != [] && s != MARKER && s <= text
    ensures ReplaceAll(text, s) != text
  {
    var rest := text[|s|..];
    LengthAfterPass(rest, s);
    assert text == s + rest && text[..|s|] == s;
    assert (MARKER + ReplaceAll(rest, s))[..|MARKER|] == MARKER;
  }

  lemma SameBehindByte(b: Byte, x: Bytes, y: Bytes)
    ensures [b] + x == [b] + y ==> x == y
  {
    assert ([b] + x)[1..] == x && ([b] + y)[1..] == y;
  }

  /** A pass for anything but the marker changes every text in which it finds something. */
  lemma {:induction false} PassShows(text: Bytes, s: Bytes, k: nat)
    requires s != [] && s != MARKER && k <= |text| && s <= text[k..]
    ensures ReplaceAll(text, s) != text
    decreases |text|
  {
    if s <= text {
      PassAtStartShows(text, s);
    } else {
      assert text[0..] == text;
      assert text[1..][k - 1..] == text[k..];
      PassShows(text[1..], s, k - 1);
      SameBehindByte(text[0], text[1..], ReplaceAll(text[1..], s));
    }
  }

  /** A text that is shorter than every secret is left as it is. */
  lemma {:induction false} TooShortToRedact(secrets: set<Bytes>, text: Bytes)
    requires forall s :: s in secrets ==> |s| > |text|
    ensures Redact(secrets, text) == text
  {
    if text != [] {
      RedactUnfolds(secrets, text);
      TooShortToRedact(secrets, text[1..]);
    }
  }

  /** An output that is shorter than a marker shows the text itself. */
  lemma {:induction false} ShortOutputIsText(secrets: set<Bytes>, text: Bytes)
    requires |Redact(secrets, text)| < |MARKER|
    ensures Redact(secrets, text) == text
  {
    if text != [] {
      RedactUnfolds(secrets, text);
      if MatchLength(secrets, text) == 0 {
        ShortOutputIsText(secrets, text[1..]);
      }
    }
  }

  // ---- Two secrets, the longer one first ----

  /** The longer secret, and what is too short for both behind it. */
  lemma MarkerAndTail(t: Bytes, s: Bytes, tail: Bytes)
    requires |t| >= |s| > |tail|
    ensures Redact({t}, t + tail) == MARKER + tail && Redact({t} + {s}, t + tail) == MARKER + tail
  {
    var text := t + tail;
    assert t <= text && text[|t|..] == tail;
    MatchOfMore({t}, text, s);
    RedactUnfolds({t}, text);
    RedactUnfolds({t} + {s}, text);
    TooShortToRedact({t}, tail);
    TooShortToRedact({t} + {s}, tail);
  }

  /** What `s` has beyond the end of a marker in which it starts at place `k`. */
  function TailOf(s: Bytes, k: nat): Bytes
    requires k <= |MARKER|
  {
    if |s| > |MARKER| - k then s[|MARKER| - k..] else []
  }

  lemma FoundInOutput(m: Bytes, s: Bytes, k: nat, tail: Bytes)
    requires k <= |m| && (m[k..] <= s || s <= m[k..])
    requires tail == if |s| > |m| - k then s[|m| - k..] else []
    ensures s <= (m + tail)[k..]
  {
    var l := |m| - k;
    assert (m + tail)[k..] == m[k..] + tail;
    if |s| > l {
      assert s == s[..l] + s[l..] && s[..l] == m[k..];
    }
  }

  /** A shorter secret that starts in the marker is found where the longer one was. */
  lemma StartInMarkerShows(t: Bytes, s: Bytes) returns (text: Bytes)
    requires |t| >= |s| > 0 && s != MARKER && StartsInMarker(s)
    ensures ReplaceAll(Redact({t}, text), s) != Redact({t} + {s}, text)
  {
    var k :| 0 <= k < |MARKER| && (MARKER[k..] <= s || s <= MARKER[k..]);
    text := t + TailOf(s, k);
    MarkerAndTail(t, s, TailOf(s, k));
    FoundInOutput(MARKER, s, k, TailOf(s, k));
    PassShows(MARKER + TailOf(s, k), s, k);
  }

  lemma SliceOfFront(front: Bytes, t: Bytes, tail: Bytes, i: nat)
    requires i <= |front| && t <= (front + (t + tail))[i..]
    ensures t <= (front + t)[i..]
  {
    assert (front + (t + tail))[i..][..|t|] == (front + t)[i..][..|t|];
  }

  lemma UndisturbedStays(front: Bytes, t: Bytes, tail: Bytes)
    requires t != [] && Undisturbed({t}, front, t)
    ensures NoHitBefore({t}, front + (t + tail), |front|)
  {
    var text := front + (t + tail);
    forall i | 0 <= i < |front| ensures MatchLength({t}, text[i..]) == 0 {
      if t <= text[i..] { SliceOfFront(front, t, tail, i); }
    }
  }

  /** A beginning of `s`, then `t`, then what is too short for both: nothing but `t` is redacted for `t`. */
  lemma FrontMarkerTail(t: Bytes, s: Bytes, front: Bytes, tail: Bytes)
    requires |t| >= |s| > |tail| && Undisturbed({t}, front, t)
    ensures Redact({t}, front + (t + tail)) == front + (MARKER + tail)
  {
    var text := front + (t + tail);
    UndisturbedStays(front, t, tail);
    CopiesSpan({t}, text, 0, |front|);
    assert text[0..] == text && text[0..|front|] == front && text[|front|..] == t + tail;
    MarkerAndTail(t, s, tail);
  }

  /** How much of `s` lies in the marker, when `s` runs into it at place `j`. */
  function Shared(s: Bytes, j: nat): nat
    requires j <= |s|
  {
    if |s| - j <= |MARKER| then |s| - j else |MARKER|
  }

  lemma SplitAcross(m: Bytes, s: Bytes, j: nat, tail: Bytes, l: nat)
    requires j <= |s| && l == (if |s| - j <= |m| then |s| - j else |m|)
    requires s[j..] <= m || m <= s[j..]
    requires tail == if |s| - j > |m| then s[j..][|m|..] else []
    ensures s[..j] + (m + tail) == s + m[l..]
  {
    assert s == s[..j] + s[j..];
    if |s| - j > |m| {
      assert s[j..] == m + tail;
    } else {
      assert m == s[j..] + m[l..];
    }
  }

  /** The pass for `s` finds it across the start of the marker, and leaves what the marker has beyond it. */
  lemma PassAcross(s: Bytes, j: nat)
    requires 0 < j < |s| && s != MARKER && !StartsInMarker(s)
    requires s[j..] <= MARKER || MARKER <= s[j..]
    ensures ReplaceAll(s[..j] + (MARKER + TailOf(s[j..], 0)), s) == MARKER + MARKER[Shared(s, j)..]
  {
    var rest := MARKER[Shared(s, j)..];
    SplitAcross(MARKER, s, j, TailOf(s[j..], 0), Shared(s, j));
    ReplaceAllHits(rest, s);
    RestSurvives(MARKER, Shared(s, j), [], s);
    assert rest + [] == rest;
  }

  lemma NonemptyStays(secrets: set<Bytes>, text: Bytes)
    requires text != []
    ensures Redact(secrets, text) != []
  {
    RedactUnfolds(secrets, text);
  }

  /** Unless `t` is the marker itself, what follows `s` in the text shows that the pass came too late. */
  lemma RestShows(t: Bytes, s: Bytes, j: nat)
    requires |t| >= |s| && 0 < j < |s| && t != MARKER
    requires s[j..] <= MARKER || MARKER <= s[j..]
    requires s[j..] <= t + TailOf(s[j..], 0)
    ensures Redact({t} + {s}, (t + TailOf(s[j..], 0))[|s| - j..]) != MARKER[Shared(s, j)..]
  {
    var tail, l := TailOf(s[j..], 0), |s| - j;
    var rest := (t + tail)[l..];
    if l >= |MARKER| {
      assert rest != [];
      NonemptyStays({t} + {s}, rest);
    } else {
      assert t + tail == t && t == t[..l] + rest && MARKER == MARKER[..l] + MARKER[l..] && t[..l] == MARKER[..l];
      if Redact({t} + {s}, rest) == MARKER[l..] {
        ShortOutputIsText({t} + {s}, rest);
      }
    }
  }

  lemma Behind(s: Bytes, j: nat, rest: Bytes)
    requires j <= |s| <= j + |rest|
    ensures (s[..j] + rest)[|s|..] == rest[|s| - j..]
  {
  }

  /** When `s` is due at the start, the one-shot redaction goes on behind it. */
  lemma DueAtStart(t: Bytes, s: Bytes, j: nat, tail: Bytes)
    requires |t| >= |s| && 0 < j < |s| && s[j..] <= t + tail && MatchLength({t}, s[..j] + (t + tail)) == 0
    ensures Redact({t} + {s}, s[..j] + (t + tail)) == MARKER + Redact({t} + {s}, (t + tail)[|s| - j..])
  {
    RunsTogether(s, t + tail, j);
    RedactStartsWithMarker({t}, s[..j] + (t + tail), s);
    Behind(s, j, t + tail);
  }

  lemma HitBehindFront(secrets: set<Bytes>, front: Bytes, t: Bytes, tail: Bytes)
    requires t in secrets && t != []
    ensures MatchLength(secrets, (front + (t + tail))[|front|..]) > 0
  {
    assert (front + (t + tail))[|front|..] == t + tail && t <= t + tail;
  }

  lemma FrontOf(s: Bytes, j: nat, hit: nat, rest: Bytes)
    requires hit <= j <= |s|
    ensures (s[..j] + rest)[..hit] == s[..hit]
  {
  }

  /** When `s` is not due at the start, the one-shot redaction shows at least a byte before its first marker. */
  lemma NotDueAtStart(t: Bytes, s: Bytes, j: nat, tail: Bytes) returns (hit: nat, rest: Bytes)
    requires t != [] && 0 < j < |s| && MatchLength({t} + {s}, s[..j] + (t + tail)) == 0
    ensures 0 < hit < |s| && Redact({t} + {s}, s[..j] + (t + tail)) == s[..hit] + (MARKER + rest)
  {
    HitBehindFront({t} + {s}, s[..j], t, tail);
    hit, rest := CopiesUpToHit({t} + {s}, s[..j] + (t + tail), j);
    FrontOf(s, j, hit, t + tail);
  }

  lemma NoHitAtStart(t: Bytes, front: Bytes, tail: Bytes)
    requires t != [] && front != [] && Undisturbed({t}, front, t)
    ensures MatchLength({t}, front + (t + tail)) == 0
  {
    UndisturbedStays(front, t, tail);
    assert (front + (t + tail))[0..] == front + (t + tail);
  }

  lemma DueIsFound(s: Bytes, j: nat, rest: Bytes)
    requires j <= |s| && s <= s[..j] + rest
    ensures s[j..] <= rest
  {
    assert (s[..j] + rest)[j..] == rest && (s[..j] + rest)[..|s|] == s;
  }

  lemma SameBehindMarker(x: Bytes, y: Bytes)
    ensures MARKER + x == MARKER + y ==> x == y
  {
    assert (MARKER + x)[|MARKER|..] == x && (MARKER + y)[|MARKER|..] == y;
  }

  lemma OneSweepDiffers(t: Bytes, s: Bytes, j: nat)
    requires |t| >= |s| && 0 < j < |s| && t != MARKER && !StartsInMarker(s)
    requires (s[j..] <= MARKER || MARKER <= s[j..]) && Undisturbed({t}, s[..j], t)
    ensures Redact({t} + {s}, s[..j] + (t + TailOf(s[j..], 0))) != MARKER + MARKER[Shared(s, j)..]
  {
    var tail := TailOf(s[j..], 0);
    var text := s[..j] + (t + tail);
    NoHitAtStart(t, s[..j], tail);
    if s <= text {
      DueIsFound(s, j, t + tail);
      DueAtStart(t, s, j, tail);
      RestShows(t, s, j);
      SameBehindMarker(MARKER[Shared(s, j)..], Redact({t} + {s}, (t + tail)[|s| - j..]));
    } else {
      MatchOfMore({t}, text, s);
      var hit, rest := NotDueAtStart(t, s, j, tail);
      ShapesDiffer(s, hit, rest, MARKER[Shared(s, j)..]);
    }
  }

  /** A shorter secret that runs into the marker of the longer one is redacted too late, or where it should not be. */
  lemma RunIntoMarkerShows(t: Bytes, s: Bytes) returns (text: Bytes)
    requires |t| >= |s| > 0 && t != MARKER && s != MARKER && !StartsInMarker(s) && RunsIntoMarker({t}, s)
    ensures ReplaceAll(Redact({t}, text), s) != Redact({t} + {s}, text)
  {
    var u, j :| u in {t} && 0 < j < |s| && (s[j..] <= MARKER || MARKER <= s[j..]) && Undisturbed({t}, s[..j], u);
    text := s[..j] + (t + TailOf(s[j..], 0));
    FrontMarkerTail(t, s, s[..j], TailOf(s[j..], 0));
    PassAcross(s, j);
    OneSweepDiffers(t, s, j);
  }

  // ---- The marker as a secret ----

  lemma {:induction false} MarkerForMarker(text: Bytes)
    ensures Redact({MARKER}, text) == text
  {
    if text != [] {
      RedactUnfolds({MARKER}, text);
      MarkerForMarker(text[FirstStep({MARKER}, text)..]);
      TakeDrop(text, FirstStep({MARKER}, text));
    }
  }

  /** Where the marker stands in the text, both leave it alone. */
  lemma MarkerStays(rest: Bytes, s: Bytes)
    requires 0 < |s| <= |MARKER| && !StartsInMarker(s)
    ensures ReplaceAll(MARKER + rest, s) == MARKER + ReplaceAll(rest, s)
    ensures Redact({MARKER} + {s}, MARKER + rest) == MARKER + Redact({MARKER} + {s}, rest)
  {
    MarkerSurvives(rest, s);
    MatchOfMore({MARKER}, MARKER + rest, s);
    RedactUnfolds({MARKER} + {s}, MARKER + rest);
    assert (MARKER + rest)[|MARKER|..] == rest;
  }

  lemma RedactStartsWithByte(secrets: set<Bytes>, text: Bytes, s: Bytes)
    requires s != [] && (forall t :: t in secrets ==> |t| >= |s|)
    requires text != [] && MatchLength(secrets, text) == 0 && !(s <= text)
    ensures Redact(secrets + {s}, text) == [text[0]] + Redact(secrets + {s}, text[1..])
  {
    MatchOfMore(secrets, text, s);
    RedactUnfolds(secrets + {s}, text);
  }

  /** After the marker, which stands for itself, a secret that does not start in it is redacted as if it were alone. */
  lemma {:induction false} AfterMarker(text: Bytes, s: Bytes)
    requires 0 < |s| <= |MARKER| && !StartsInMarker(s)
    ensures ReplaceAll(text, s) == Redact({MARKER} + {s}, text)
    decreases |text|
  {
    if text != [] {
      if MatchLength({MARKER}, text) > 0 {
        var rest := text[|MARKER|..];
        assert text == MARKER + rest;
        MarkerStays(rest, s);
        AfterMarker(rest, s);
      } else if s <= text {
        RedactStartsWithMarker({MARKER}, text, s);
        AfterMarker(text[|s|..], s);
      } else {
        RedactStartsWithByte({MARKER}, text, s);
        AfterMarker(text[1..], s);
      }
    }
  }

  // ---- The exact conditions ----

  lemma FoldOfTwo(t: Bytes, s: Bytes, text: Bytes)
    requires t != [] && s != []
    ensures ScrubFold([t, s], text) == ReplaceAll(Redact({t}, text), s)
    ensures Elements([t, s]) == {t} + {s}
  {
    NextPass([t, s], 0, text);
    NextPass([t, s], 1, text);
    assert [t, s][..2] == [t, s] && [t, s][..0] == [];
    ReplaceAllRedactsOne(text, t);
  }

  ghost predicate SafePair(t: Bytes, s: Bytes) {
    if t == MARKER then !StartsInMarker(s)
    else SafeAfter({t}, s) && forall k :: 0 < k < |s| && s[k..] <= t ==> t <= s[..k] + t
  }

  lemma SafePairAgrees(t: Bytes, s: Bytes, text: Bytes)
    requires |t| >= |s| > 0 && s != t && SafePair(t, s)
    ensures ReplaceAll(Redact({t}, text), s) == Redact({t} + {s}, text)
  {
    if t == MARKER {
      MarkerForMarker(text);
      AfterMarker(text, s);
    } else {
      PassAddsSecret({t}, s, text);
    }
  }

  lemma UnsafePairShows(t: Bytes, s: Bytes) returns (text: Bytes)
    requires |t| >= |s| > 0 && s != t && !SafePair(t, s)
    ensures ReplaceAll(Redact({t}, text), s) != Redact({t} + {s}, text)
  {
    if s != MARKER && StartsInMarker(s) {
      text := StartInMarkerShows(t, s);
    } else if !SafeAfter({t}, s) {
      text := RunIntoMarkerShows(t, s);
    } else {
      var k :| 0 < k < |s| && s[k..] <= t && !(t <= s[..k] + t);
      UncoveredCutShows({t}, s, t, k);
      text := s[..k] + t;
    }
  }

  /**
   * The exact condition for any two secrets. Scrub and the writer agree on every text if and only if: the longer one
   * starts wherever the shorter one starts and runs into it; and the shorter one neither starts in a marker nor runs
   * into one that the longer one leaves. (The marker as a secret stands for itself: as the longer one it only must not
   * be started in, as the shorter one it does no harm.)
   */
  lemma TwoSecretsAgreeIff(t: Bytes, s: Bytes)
    requires |t| >= |s| > 0 && s != t
    ensures Agrees([t, s]) <==> SafePair(t, s)
  {
    if SafePair(t, s) {
      forall text ensures ScrubFold([t, s], text) == Redact(Elements([t, s]), text) {
        FoldOfTwo(t, s, text);
        SafePairAgrees(t, s, text);
      }
    } else {
      var text := UnsafePairShows(t, s);
      FoldOfTwo(t, s, text);
      assert ScrubFold([t, s], text) != Redact(Elements([t, s]), text);
    }
  }
}
