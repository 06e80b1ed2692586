/** The order in which equally long secrets happen to be sorted: exactly when it matters to Scrub. */
module ScrubOrder {
  import opened ByteStrings
  import opened Redaction
  import opened Scrubber
  import opened ScrubAgreement
  import opened ScrubPairs

  /** One pass for `t`, then one for `s`. */
  function Both(t: Bytes, s: Bytes, text: Bytes): Bytes
    requires t != [] && s != []
  {
    ReplaceAll(ReplaceAll(text, t), s)
  }

  lemma FoldIsBoth(t: Bytes, s: Bytes, text: Bytes)
    requires t != [] && s != []
    ensures ScrubFold([t, s], text) == Both(t, s, text)
  {
    FoldOfTwo(t, s, text);
    ReplaceAllRedactsOne(text, t);
  }

  // ---- The first occurrence ----

  ghost predicate IsIn(s: Bytes, text: Bytes) {
    exists i :: 0 <= i <= |text| && s <= text[i..]
  }

  lemma {:induction false} AbsentStays(text: Bytes, s: Bytes)
    requires s != [] && !IsIn(s, text)
    ensures ReplaceAll(text, s) == text
  {
    if text != [] {
      assert text[0..] == text;
      forall i | 0 <= i <= |text[1..]| ensures !(s <= text[1..][i..]) {
        assert text[1..][i..] == text[i + 1..];
      }
      AbsentStays(text[1..], s);
    }
  }

  lemma TooShortToContain(text: Bytes, s: Bytes)
    requires |text| < |s|
    ensures !IsIn(s, text) && ReplaceAll(text, s) == text
  {
    AbsentStays(text, s);
  }

  /** The first place at which `s` occurs. */
  ghost predicate FirstAt(s: Bytes, text: Bytes, i: nat) {
    i <= |text| && s <= text[i..] && forall k :: 0 <= k < i ==> !(s <= text[k..])
  }

  lemma {:induction false} SomeFirst(text: Bytes, s: Bytes, i: nat) returns (first: nat)
    requires i <= |text| && s <= text[i..]
    ensures first <= i && FirstAt(s, text, first)
  {
    if k :| 0 <= k < i && s <= text[k..] {
      first := SomeFirst(text, s, k);
    } else {
      first := i;
    }
  }

  lemma LaterFirst(text: Bytes, s: Bytes, i: nat)
    requires i > 0 && FirstAt(s, text, i)
    ensures FirstAt(s, text[1..], i - 1) && text[1..][i - 1 + |s|..] == text[i + |s|..]
  {
    assert text[1..][i - 1..] == text[i..];
    forall k | 0 <= k < i - 1 ensures !(s <= text[1..][k..]) {
      assert text[1..][k..] == text[k + 1..];
    }
  }

  lemma FirstByteOf(text: Bytes, i: nat, rest: Bytes)
    requires 0 < i <= |text|
    ensures [text[0]] + (text[1..][..i - 1] + rest) == text[..i] + rest
  {
    assert text[..i] == [text[0]] + text[1..][..i - 1];
  }

  lemma NotAtFirstByteOf(text: Bytes, s: Bytes, i: nat)
    requires s != [] && i > 0 && FirstAt(s, text, i)
    ensures text != [] && ReplaceAll(text, s) == [text[0]] + ReplaceAll(text[1..], s)
  {
    assert text[0..] == text;
  }

  lemma {:induction false} PassAtFirst(text: Bytes, s: Bytes, i: nat)
    requires s != [] && FirstAt(s, text, i)
    ensures i + |s| <= |text| && ReplaceAll(text, s) == text[..i] + (MARKER + ReplaceAll(text[i + |s|..], s))
    decreases i
  {
    if i == 0 {
      assert text[0..] == text && text[..0] == [];
    } else {
      NotAtFirstByteOf(text, s, i);
      LaterFirst(text, s, i);
      PassAtFirst(text[1..], s, i - 1);
      FirstByteOf(text, i, MARKER + ReplaceAll(text[i + |s|..], s));
    }
  }

  lemma OtherIsAbsent(s: Bytes, t: Bytes)
    requires |s| == |t| && s != t
    ensures !IsIn(s, t)
  {
    forall i | 0 <= i <= |t| ensures !(s <= t[i..]) {
      assert t[0..] == t;
    }
  }

  lemma PassOverItself(t: Bytes, tail: Bytes)
    requires |tail| < |t|
    ensures ReplaceAll(t + tail, t) == MARKER + tail
  {
    ReplaceAllHits(tail, t);
    TooShortToContain(tail, t);
  }

  // ---- A secret inside the marker ----

  lemma InsideMarkerShows(s: Bytes, t: Bytes)
    requires |s| == |t| > 0 && s != t && s != MARKER && IsIn(s, MARKER)
    ensures Both(t, s, t) != Both(s, t, t)
  {
    PassOverItself(t, []);
    assert t + [] == t && MARKER + [] == MARKER;
    OtherIsAbsent(s, t);
    AbsentStays(t, s);
    var k :| 0 <= k <= |MARKER| && s <= MARKER[k..];
    PassShows(MARKER, s, k);
  }

  // ---- A secret that starts inside the marker and goes on behind it ----

  lemma {:induction false} SmallestStart(s: Bytes, k: nat) returns (first: nat)
    requires k < |MARKER| && MARKER[k..] <= s
    ensures first <= k && MARKER[first..] <= s && forall i :: 0 <= i < first ==> !(MARKER[i..] <= s)
  {
    if i :| 0 <= i < k && MARKER[i..] <= s {
      first := SmallestStart(s, i);
    } else {
      first := k;
    }
  }

  /** `s` is the marker from place `k` on, and then `tail`; it starts nowhere before that. */
  ghost predicate Straddles(s: Bytes, k: nat, tail: Bytes) {
    && 0 < k < |MARKER| && s == MARKER[k..] + tail && tail != [] && !IsIn(s, MARKER)
    && forall i :: 0 <= i < k ==> !(MARKER[i..] <= s)
  }

  lemma NotAtFirstByte(s: Bytes)
    requires !IsIn(MARKER, s)
    ensures !(MARKER[0..] <= s)
  {
    assert s[0..] == s && MARKER[0..] == MARKER;
  }

  lemma StartAndTail(start: Bytes, s: Bytes)
    requires start <= s
    ensures s == start + s[|start|..] && (s[|start|..] == [] ==> s <= start)
  {
  }

  lemma StraddlingShape(s: Bytes) returns (k: nat, tail: Bytes)
    requires StartsInMarker(s) && !IsIn(s, MARKER) && !IsIn(MARKER, s)
    ensures Straddles(s, k, tail)
  {
    var start :| 0 <= start < |MARKER| && (MARKER[start..] <= s || s <= MARKER[start..]);
    k := SmallestStart(s, start);
    NotAtFirstByte(s);
    tail := s[|MARKER| - k..];
    StartAndTail(MARKER[k..], s);
  }

  lemma FirstInMarkerAndTail(s: Bytes, k: nat, tail: Bytes)
    requires Straddles(s, k, tail)
    ensures FirstAt(s, MARKER + tail, k)
  {
    var text := MARKER + tail;
    assert text[k..] == MARKER[k..] + tail;
    forall i | 0 <= i < k ensures !(s <= text[i..]) {
      assert text[i..] == MARKER[i..] + tail;
      if s <= text[i..] {
        PrefixesCompare(s, MARKER[i..], tail);
      }
    }
  }

  /** The pass for `t` and then the one for `s`, on `t` and what is too short for both. */
  lemma StraddlerFound(t: Bytes, s: Bytes, k: nat, tail: Bytes)
    requires |s| == |t| && Straddles(s, k, tail)
    ensures Both(t, s, t + tail) == MARKER[..k] + MARKER
  {
    PassOverItself(t, tail);
    FirstInMarkerAndTail(s, k, tail);
    PassAtFirst(MARKER + tail, s, k);
    assert (MARKER + tail)[..k] == MARKER[..k] && (MARKER + tail)[k + |s|..] == [];
    assert MARKER + [] == MARKER;
  }

  /** The only opening brackets of a beginning of the marker and the marker. */
  lemma Brackets(k: nat, i: nat)
    requires 0 < k < |MARKER| && i < k + |MARKER|
    ensures (MARKER[..k] + MARKER)[i] == MARKER[0] <==> i == 0 || i == k
  {
    if i < k {
      assert (MARKER[..k] + MARKER)[i] == MARKER[i];
    } else {
      assert (MARKER[..k] + MARKER)[i] == MARKER[i - k];
    }
  }

  lemma StraddlerAbsent(t: Bytes, s: Bytes, k: nat, tail: Bytes)
    requires |s| == |t| && Straddles(s, k, tail) && !IsIn(s, t + tail)
    ensures Both(s, t, t + tail) != MARKER[..k] + MARKER
  {
    AbsentStays(t + tail, s);
    PassOverItself(t, tail);
    Brackets(k, k);
    assert (MARKER + tail)[k] == MARKER[k];
  }

  lemma NotAtStart(t: Bytes, s: Bytes, tail: Bytes)
    requires |s| == |t| && s != t
    ensures !(s <= (t + tail)[0..])
  {
    assert (t + tail)[0..][..|s|] == t;
  }

  lemma PartsOfSum(t: Bytes, tail: Bytes, i: nat)
    requires i <= |t| && i <= |tail|
    ensures (t + tail)[i..] == t[i..] + tail && (t + tail)[..i] == t[..i] && (t + tail)[i + |t|..] == tail[i..]
  {
  }

  /** Where `s` is found first in `t` and `tail`: behind the start of `t`, which goes on like `s`. */
  lemma FoundInside(t: Bytes, s: Bytes, tail: Bytes, i: nat)
    requires |s| == |t| > 0 && s != t && |tail| < |s| && FirstAt(s, t + tail, i)
    ensures 0 < i <= |tail| && t[i..] <= s
    ensures ReplaceAll(t + tail, s) == t[..i] + (MARKER + tail[i..])
  {
    NotAtStart(t, s, tail);
    PassAtFirst(t + tail, s, i);
    PartsOfSum(t, tail, i);
    TooShortToContain(tail[i..], s);
    PrefixesCompare(s, t[i..], tail);
  }

  /** In the middle of `t`, where `s` was found, stands the marker's byte number `k`. */
  lemma ByteInside(t: Bytes, s: Bytes, k: nat, tail: Bytes, i: nat)
    requires Straddles(s, k, tail) && i < |t| && t[i..] <= s
    ensures t[i] == MARKER[k] != MARKER[0]
  {
    assert t[i..][0] == s[0] == MARKER[k..][0];
  }

  lemma MarkerInTheMiddle(t: Bytes, tail: Bytes, i: nat)
    requires i <= |tail| && i <= |t|
    ensures var x := t[..i] + (MARKER + tail[i..]);
      |x| == |MARKER| + |tail| && x[i] == MARKER[0] && x[i..] == MARKER + tail[i..] && x[..i] == t[..i]
  {
  }

  lemma PiecesOfMarker(m: Bytes, t: Bytes, s: Bytes, k: nat, tail: Bytes)
    requires k <= |m| && |t| == |s| && s == m[k..] + tail && |tail| == k
    requires k <= |t| && t[..k] == m[..k] && t[k..] <= s
    ensures t == m
  {
    assert t[k..] == s[..|m| - k] == m[k..];
    assert t == t[..k] + t[k..] && m == m[..k] + m[k..];
  }

  /** The text with the marker in the middle is not a beginning of the marker and the marker. */
  lemma MiddleDiffers(t: Bytes, s: Bytes, k: nat, tail: Bytes, i: nat)
    requires |s| == |t| && Straddles(s, k, tail) && 0 < i <= |tail| && i < |t| && t[i..] <= s && t != MARKER
    ensures t[..i] + (MARKER + tail[i..]) != MARKER[..k] + MARKER
  {
    var x := t[..i] + (MARKER + tail[i..]);
    MarkerInTheMiddle(t, tail, i);
    if x == MARKER[..k] + MARKER {
      assert |tail| == k;
      Brackets(k, i);
      assert t[..k] == x[..k] == (MARKER[..k] + MARKER)[..k] == MARKER[..k];
      PiecesOfMarker(MARKER, t, s, k, tail);
    }
  }

  /** A `t` that is found from place `k` on contains the marker in the middle. */
  lemma MarkerInside(t: Bytes, tail: Bytes, k: nat, i: nat)
    requires k <= i <= |tail| && i <= |t| && |t| + k == |MARKER| + |tail|
    requires t <= (t[..i] + (MARKER + tail[i..]))[k..]
    ensures IsIn(MARKER, t)
  {
    var x := t[..i] + (MARKER + tail[i..]);
    assert t == x[k..][..|t|];
    assert t[i - k..][..|MARKER|] == x[i..][..|MARKER|] == MARKER;
  }

  lemma NoBracketInFront(x: Bytes, k: nat, i: nat)
    requires 0 < i < k < |MARKER| && k <= |x| && x[..k] == MARKER[..k]
    ensures x[i] != MARKER[0]
  {
    assert x[..k][i] == MARKER[..k][i];
  }

  lemma MarkerAtBracket(front: Bytes, rest: Bytes, k: nat)
    requires 0 < k < |MARKER| && front + (MARKER + rest) == MARKER[..k] + MARKER && front != []
    ensures |front| == k && front == MARKER[..k]
  {
    Brackets(k, |front|);
    assert (front + (MARKER + rest))[|front|] == MARKER[0];
    assert (front + (MARKER + rest))[..k] == MARKER[..k];
  }

  /** If the pass for `t` finds it around that marker, the result still differs. */
  lemma PassInTheMiddleDiffers(t: Bytes, s: Bytes, k: nat, tail: Bytes, i: nat, p: nat, rest: Bytes)
    requires |s| == |t| && Straddles(s, k, tail) && 0 < i <= |tail| && i < |t| && t[i..] <= s && !IsIn(MARKER, t)
    requires var x := t[..i] + (MARKER + tail[i..]); p <= |x| && t <= x[p..]
    ensures (t[..i] + (MARKER + tail[i..]))[..p] + (MARKER + rest) != MARKER[..k] + MARKER
  {
    var x := t[..i] + (MARKER + tail[i..]);
    MarkerInTheMiddle(t, tail, i);
    ByteInside(t, s, k, tail, i);
    assert x[0..] == x;
    if x[..p] + (MARKER + rest) == MARKER[..k] + MARKER {
      MarkerAtBracket(x[..p], rest, k);
      if i < k {
        NoBracketInFront(x, k, i);
      } else {
        MarkerInside(t, tail, k, i);
      }
    }
  }

  lemma StraddlerInside(t: Bytes, s: Bytes, k: nat, tail: Bytes, i: nat)
    requires |s| == |t| && s != t && Straddles(s, k, tail) && FirstAt(s, t + tail, i)
    requires t != MARKER && !IsIn(MARKER, t)
    ensures Both(s, t, t + tail) != MARKER[..k] + MARKER
  {
    FoundInside(t, s, tail, i);
    var x := t[..i] + (MARKER + tail[i..]);
    if IsIn(t, x) {
      var place :| 0 <= place <= |x| && t <= x[place..];
      var p := SomeFirst(x, t, place);
      PassAtFirst(x, t, p);
      PassInTheMiddleDiffers(t, s, k, tail, i, p, ReplaceAll(x[p + |t|..], t));
    } else {
      AbsentStays(x, t);
      MiddleDiffers(t, s, k, tail, i);
    }
  }

  lemma MarkerOccurs(s: Bytes)
    requires !IsIn(MARKER, s)
    ensures s != MARKER
  {
    assert s[0..] == s;
  }

  lemma StartSeparatesOrders(s: Bytes, t: Bytes) returns (text: Bytes)
    requires |s| == |t| > 0 && s != t && StartsInMarker(s) && !IsIn(MARKER, s) && !IsIn(MARKER, t)
    ensures Both(t, s, text) != Both(s, t, text)
  {
    MarkerOccurs(s);
    MarkerOccurs(t);
    if IsIn(s, MARKER) {
      text := t;
      InsideMarkerShows(s, t);
    } else {
      var k, tail := StraddlingShape(s);
      text := t + tail;
      StraddlerFound(t, s, k, tail);
      if IsIn(s, text) {
        var place :| 0 <= place <= |text| && s <= text[place..];
        var i := SomeFirst(text, s, place);
        StraddlerInside(t, s, k, tail, i);
      } else {
        StraddlerAbsent(t, s, k, tail);
      }
    }
  }

  // ---- A secret that runs into the marker of the other ----

  lemma MarkerKept(rest: Bytes, s: Bytes)
    requires |rest| < |s| && !StartsInMarker(s)
    ensures ReplaceAll(MARKER + rest, s) == MARKER + rest
  {
    MarkerSurvives(rest, s);
    TooShortToContain(rest, s);
  }

  lemma EndOfMarkerKept(k: nat, rest: Bytes, s: Bytes)
    requires k <= |MARKER| && |rest| < |s| && !StartsInMarker(s)
    ensures ReplaceAll(MARKER[k..] + rest, s) == MARKER[k..] + rest
  {
    RestSurvives(MARKER, k, rest, s);
    TooShortToContain(rest, s);
  }

  /** `s` runs into a marker that the pass for `t` leaves behind the first `j` bytes of `s`. */
  ghost predicate RunsIn(t: Bytes, s: Bytes, j: nat) {
    && 0 < j < |s| && s[j..] <= MARKER && s != MARKER && !StartsInMarker(s) && !StartsInMarker(t)
    && |t| == |s| && s != t && Undisturbed({t}, s[..j], t)
  }

  lemma FrontAndMarker(t: Bytes, front: Bytes)
    requires t != [] && Undisturbed({t}, front, t)
    ensures ReplaceAll(front + t, t) == front + MARKER
  {
    var none: Bytes := [];
    FrontMarkerTail(t, t, front, none);
    assert t + none == t && MARKER + none == MARKER;
    ReplaceAllRedactsOne(front + t, t);
  }

  lemma PassAcrossMarker(s: Bytes, j: nat)
    requires 0 < j < |s| && s[j..] <= MARKER && s != MARKER && !StartsInMarker(s)
    ensures ReplaceAll(s[..j] + MARKER, s) == MARKER + MARKER[|s| - j..]
  {
    var none: Bytes := [];
    assert TailOf(s[j..], 0) == none && Shared(s, j) == |s| - j;
    assert MARKER + none == MARKER;
    PassAcross(s, j);
  }

  lemma RunInTakesMarker(t: Bytes, s: Bytes, j: nat)
    requires RunsIn(t, s, j)
    ensures ReplaceAll(s[..j] + t, t) == s[..j] + MARKER
    ensures Both(t, s, s[..j] + t) == MARKER + MARKER[|s| - j..]
  {
    FrontAndMarker(t, s[..j]);
    PassAcrossMarker(s, j);
  }

  lemma SameHalves(m: Bytes, t: Bytes, l: nat)
    requires l <= |m| && l <= |t| && t[..l] == m[..l]
    ensures t[l..] == m[l..] ==> t == m
  {
    assert t == t[..l] + t[l..] && m == m[..l] + m[l..];
  }

  /** When `s` starts the text, what follows it tells the orders apart. */
  lemma RunInFoundAtStart(t: Bytes, s: Bytes, j: nat)
    requires RunsIn(t, s, j) && s[j..] <= t && t != MARKER
    ensures Both(s, t, s[..j] + t) != MARKER + MARKER[|s| - j..]
  {
    var l := |s| - j;
    var rest := t[l..];
    assert s[..j] + t == s + rest by { assert s == s[..j] + s[j..] && t == s[j..] + rest; }
    PassOverItself(s, rest);
    MarkerKept(rest, t);
    assert t[..l] == s[j..] == MARKER[..l];
    SameHalves(MARKER, t, l);
    SameBehindMarker(rest, MARKER[l..]);
  }

  lemma RunInNotFound(t: Bytes, s: Bytes, j: nat)
    requires RunsIn(t, s, j) && !IsIn(s, s[..j] + t)
    ensures Both(s, t, s[..j] + t) != MARKER + MARKER[|s| - j..]
  {
    AbsentStays(s[..j] + t, s);
    RunInTakesMarker(t, s, j);
    assert MARKER + [] == MARKER;
    ShapesDiffer(s, j, [], MARKER[|s| - j..]);
  }

  lemma PartsOfRun(front: Bytes, t: Bytes, i: nat)
    requires i <= |front|
    ensures (front + t)[..i] == front[..i]
    ensures |t| >= |front| - i ==> (front + t)[i + |t|..] == t[|t| - (|front| - i)..]
  {
  }

  lemma FrontOfFront(s: Bytes, j: nat, i: nat)
    requires i <= j <= |s|
    ensures s[..j][..i] == s[..i]
  {
  }

  lemma FoundBeforeOther(t: Bytes, s: Bytes, front: Bytes, i: nat)
    requires |s| == |t| && s != t && i <= |front + t| && s <= (front + t)[i..]
    ensures i < |front|
  {
    assert |(front + t)[i..]| >= |s|;
    assert (front + t)[|front|..] == t;
  }

  /**
   * Where `s` is found in a text of `front` and `t`: before `t` starts, with the marker and the end of `t` behind it.
   */
  lemma FoundInFront(t: Bytes, s: Bytes, front: Bytes, i: nat)
    requires |s| == |t| && s != t && |front| < |s| && FirstAt(s, front + t, i)
    ensures i < |front| && ReplaceAll(front + t, s) == front[..i] + (MARKER + t[|t| - (|front| - i)..])
  {
    FoundBeforeOther(t, s, front, i);
    PassAtFirst(front + t, s, i);
    PartsOfRun(front, t, i);
    TooShortToContain(t[|t| - (|front| - i)..], s);
  }

  /** The marker has only one closing bracket, so its end is not its end from elsewhere and something more. */
  lemma EndsDiffer(a: nat, b: nat, rest: Bytes)
    requires a < b < |MARKER| && |rest| == b - a
    ensures MARKER[a..] != MARKER[b..] + rest
  {
    var i := |MARKER| - 1 - b;
    assert (MARKER[b..] + rest)[i] == MARKER[|MARKER| - 1];
    assert MARKER[a..][i] == MARKER[|MARKER| - 1 - (b - a)];
  }

  lemma AbsentInMarkerAndRest(rest: Bytes, t: Bytes)
    requires |rest| < |t| && !StartsInMarker(t)
    ensures !IsIn(t, MARKER + rest)
  {
    MarkerKept(rest, t);
    assert MARKER[0..] == MARKER;
    if k :| 0 <= k <= |MARKER + rest| && t <= (MARKER + rest)[k..] {
      PassShows(MARKER + rest, t, k);
    }
  }

  lemma OccursBehind(front: Bytes, rest: Bytes, p: nat, t: Bytes)
    requires |front| <= p <= |front + rest| && t <= (front + rest)[p..]
    ensures IsIn(t, rest)
  {
    assert (front + rest)[p..] == rest[p - |front|..];
  }

  lemma MarkerOccursAt(t: Bytes, i: nat, rest: Bytes)
    requires i <= |t| && |t| - i >= |MARKER| && t[i..] <= MARKER + rest
    ensures IsIn(MARKER, t)
  {
    assert t[i..][..|MARKER|] == (MARKER + rest)[..|MARKER|] == MARKER;
  }

  /** The text starts with `t`: what is left of the marker and of the rest is not what the other order leaves. */
  lemma MiddleStartsWith(t: Bytes, s: Bytes, j: nat, i: nat, rest: Bytes)
    requires RunsIn(t, s, j) && 0 < i < j && |rest| == j - i && !IsIn(MARKER, t)
    requires FirstAt(t, s[..i] + (MARKER + rest), 0)
    ensures ReplaceAll(s[..i] + (MARKER + rest), t) != MARKER + MARKER[|s| - j..]
  {
    var x, l := s[..i] + (MARKER + rest), |s| - i;
    assert x[0..] == x && x[..0] == [];
    assert t[i..] == (MARKER + rest)[..l];
    if l >= |MARKER| { MarkerOccursAt(t, i, rest); }
    assert x[|t|..] == MARKER[l..] + rest;
    PassAtFirst(x, t, 0);
    EndOfMarkerKept(l, rest, t);
    EndsDiffer(|s| - j, l, rest);
    SameBehindMarker(MARKER[l..] + rest, MARKER[|s| - j..]);
  }

  lemma FoundBeforeMarker(t: Bytes, s: Bytes, i: nat, rest: Bytes, p: nat, last: Bytes)
    requires t != [] && !StartsInMarker(s) && 0 < p < i < |s| && FirstAt(t, s[..i] + (MARKER + rest), p)
    ensures ReplaceAll(s[..i] + (MARKER + rest), t) != MARKER + last
  {
    var x := s[..i] + (MARKER + rest);
    PassAtFirst(x, t, p);
    assert x[..p] == s[..p];
    ShapesDiffer(s, p, ReplaceAll(x[p + |t|..], t), last);
  }

  lemma FoundAroundMarker(t: Bytes, s: Bytes, j: nat, i: nat, rest: Bytes, p: nat)
    requires RunsIn(t, s, j) && 0 < i < j && |rest| == j - i && !IsIn(MARKER, t)
    requires FirstAt(t, s[..i] + (MARKER + rest), p)
    ensures ReplaceAll(s[..i] + (MARKER + rest), t) != MARKER + MARKER[|s| - j..]
  {
    if p == 0 {
      MiddleStartsWith(t, s, j, i, rest);
    } else if p < i {
      FoundBeforeMarker(t, s, i, rest, p, MARKER[|s| - j..]);
    } else {
      AbsentInMarkerAndRest(rest, t);
      OccursBehind(s[..i], MARKER + rest, p, t);
    }
  }

  /** The pass for `t` over a beginning of `s`, the marker and what is too short. */
  lemma PassOverMiddle(t: Bytes, s: Bytes, j: nat, i: nat, rest: Bytes)
    requires RunsIn(t, s, j) && 0 < i < j && |rest| == j - i && !IsIn(MARKER, t)
    ensures ReplaceAll(s[..i] + (MARKER + rest), t) != MARKER + MARKER[|s| - j..]
  {
    var x := s[..i] + (MARKER + rest);
    if IsIn(t, x) {
      var place :| 0 <= place <= |x| && t <= x[place..];
      var p := SomeFirst(x, t, place);
      FoundAroundMarker(t, s, j, i, rest, p);
    } else {
      AbsentStays(x, t);
      ShapesDiffer(s, i, rest, MARKER[|s| - j..]);
    }
  }

  lemma FoundInBeginning(t: Bytes, s: Bytes, j: nat, i: nat)
    requires |s| == |t| && s != t && j < |s| && FirstAt(s, s[..j] + t, i)
    ensures i < j && ReplaceAll(s[..j] + t, s) == s[..i] + (MARKER + t[|t| - (j - i)..])
  {
    FoundInFront(t, s, s[..j], i);
    FrontOfFront(s, j, i);
  }

  /** When `s` is found behind the start of the text, too. */
  lemma RunInFoundLater(t: Bytes, s: Bytes, j: nat, i: nat)
    requires RunsIn(t, s, j) && FirstAt(s, s[..j] + t, i) && i > 0 && !IsIn(MARKER, t)
    ensures Both(s, t, s[..j] + t) != MARKER + MARKER[|s| - j..]
  {
    FoundInBeginning(t, s, j, i);
    PassOverMiddle(t, s, j, i, t[|t| - (j - i)..]);
  }

  lemma RunInFound(t: Bytes, s: Bytes, j: nat, i: nat)
    requires RunsIn(t, s, j) && FirstAt(s, s[..j] + t, i) && !IsIn(MARKER, t)
    ensures Both(s, t, s[..j] + t) != MARKER + MARKER[|s| - j..]
  {
    if i == 0 {
      MarkerOccurs(t);
      assert (s[..j] + t)[0..] == s[..j] + t;
      DueIsFound(s, j, t);
      RunInFoundAtStart(t, s, j);
    } else {
      RunInFoundLater(t, s, j, i);
    }
  }

  lemma RunSeparatesOrders(t: Bytes, s: Bytes, j: nat)
    requires RunsIn(t, s, j) && !IsIn(MARKER, t)
    ensures Both(t, s, s[..j] + t) != Both(s, t, s[..j] + t)
  {
    RunInTakesMarker(t, s, j);
    if IsIn(s, s[..j] + t) {
      var place :| 0 <= place <= |s[..j] + t| && s <= (s[..j] + t)[place..];
      var i := SomeFirst(s[..j] + t, s, place);
      RunInFound(t, s, j, i);
    } else {
      RunInNotFound(t, s, j);
    }
  }

  // ---- The exact condition ----

  ghost predicate Cuts(s: Bytes, t: Bytes) {
    exists k :: 0 < k < |s| && s[k..] <= t
  }

  /** Neither secret cuts the other or can be confused with a marker that the other leaves. */
  ghost predicate KeepApart(s: Bytes, t: Bytes) {
    SafeAfter({t}, s) && SafeAfter({s}, t) && !Cuts(s, t) && !Cuts(t, s)
  }

  lemma ApartAgrees(t: Bytes, s: Bytes, text: Bytes)
    requires |t| == |s| > 0 && s != t && t != MARKER && SafeAfter({t}, s) && !Cuts(s, t)
    ensures Both(t, s, text) == Redact({t} + {s}, text)
  {
    ReplaceAllRedactsOne(text, t);
    SafePairAgrees(t, s, text);
  }

  lemma MarkerPassesUnseen(s: Bytes, text: Bytes)
    requires s != []
    ensures Both(MARKER, s, text) == Both(s, MARKER, text)
  {
    ReplaceAllRedactsOne(text, MARKER);
    MarkerForMarker(text);
    ReplaceAllRedactsOne(ReplaceAll(text, s), MARKER);
    MarkerForMarker(ReplaceAll(text, s));
  }

  lemma ApartOrdersAgree(s: Bytes, t: Bytes, text: Bytes)
    requires |t| == |s| > 0 && s != t && (s == MARKER || t == MARKER || KeepApart(s, t))
    ensures Both(s, t, text) == Both(t, s, text)
  {
    if s == MARKER {
      MarkerPassesUnseen(t, text);
    } else if t == MARKER {
      MarkerPassesUnseen(s, text);
    } else {
      ApartAgrees(t, s, text);
      ApartAgrees(s, t, text);
      assert {t} + {s} == {s} + {t};
    }
  }

  lemma StartsWithMarker(s: Bytes, t: Bytes, text: Bytes)
    requires s != [] && s <= text && t != [] && !StartsInMarker(t)
    ensures Both(s, t, text) == MARKER + Both(s, t, text[|s|..])
  {
    MarkerSurvives(ReplaceAll(text[|s|..], s), t);
  }

  lemma OnlyOneStarts(s: Bytes, t: Bytes, text: Bytes)
    requires |t| == |s| > 0 && s != t && s <= text
    ensures MatchLength({t}, text) == 0
  {
    assert s == text[..|s|];
  }

  lemma CutStarts(s: Bytes, t: Bytes, k: nat)
    requires |t| == |s| > 0 && s != t && k < |s| && s[k..] <= t
    ensures s <= s[..k] + t && MatchLength({t}, s[..k] + t) == 0 && MatchLength({t}, (s[..k] + t)[k..]) > 0
  {
    RunsTogether(s, t, k);
    OnlyOneStarts(s, t, s[..k] + t);
    assert (s[..k] + t)[k..] == t;
  }

  lemma SecondPassTooLate(t: Bytes, s: Bytes, text: Bytes, k: nat) returns (hit: nat, x: Bytes)
    requires t != [] && SafeAfter({t}, s) && 0 < k < |s| <= |text| && s <= text
    requires MatchLength({t}, text) == 0 && MatchLength({t}, text[k..]) > 0
    ensures 0 < hit <= k && Both(t, s, text) == s[..hit] + (MARKER + x)
  {
    ReplaceAllRedactsOne(text, t);
    hit, x := PassComesTooLate({t}, s, text, k);
  }

  lemma LateNotDue(s: Bytes, t: Bytes, k: nat, rest: Bytes)
    requires |t| == |s| > 0 && s != t && SafeAfter({t}, s) && 0 < k < |s| && s[k..] <= t
    ensures Both(t, s, s[..k] + t) != MARKER + rest
  {
    CutStarts(s, t, k);
    var hit, x := SecondPassTooLate(t, s, s[..k] + t, k);
    ShapesDiffer(s, hit, x, rest);
  }

  /** On the two secrets run together, one order starts with a marker and the other with a byte of the first secret. */
  lemma CutSeparatesOrders(s: Bytes, t: Bytes, k: nat)
    requires |t| == |s| > 0 && s != t && SafeAfter({t}, s) && !StartsInMarker(t)
    requires 0 < k < |s| && s[k..] <= t
    ensures Both(s, t, s[..k] + t) != Both(t, s, s[..k] + t)
  {
    RunsTogether(s, t, k);
    StartsWithMarker(s, t, s[..k] + t);
    LateNotDue(s, t, k, Both(s, t, (s[..k] + t)[|s|..]));
  }

  lemma RunInPlace(t: Bytes, s: Bytes) returns (j: nat)
    requires |s| == |t| > 0 && s != t && s != MARKER && !StartsInMarker(s) && !StartsInMarker(t)
    requires RunsIntoMarker({t}, s) && !IsIn(MARKER, s)
    ensures RunsIn(t, s, j)
  {
    var u, place :|
      u in {t} && 0 < place < |s| && (s[place..] <= MARKER || MARKER <= s[place..]) && Undisturbed({t}, s[..place], u);
    j := place;
  }

  /** If the first of two secrets is not kept apart from the second, some text tells their orders apart. */
  lemma NotApartShows(s: Bytes, t: Bytes) returns (text: Bytes)
    requires |t| == |s| > 0 && s != t && !IsIn(MARKER, s) && !IsIn(MARKER, t)
    requires StartsInMarker(s) || (!StartsInMarker(t) && (!SafeAfter({t}, s) || Cuts(s, t)))
    ensures Both(s, t, text) != Both(t, s, text)
  {
    MarkerOccurs(s);
    if StartsInMarker(s) {
      text := StartSeparatesOrders(s, t);
    } else if !SafeAfter({t}, s) {
      var j := RunInPlace(t, s);
      RunSeparatesOrders(t, s, j);
      text := s[..j] + t;
    } else {
      var k :| 0 < k < |s| && s[k..] <= t;
      CutSeparatesOrders(s, t, k);
      text := s[..k] + t;
    }
  }

  lemma OrderMatters(s: Bytes, t: Bytes) returns (text: Bytes)
    requires |t| == |s| > 0 && s != t && !IsIn(MARKER, s) && !IsIn(MARKER, t) && !KeepApart(s, t)
    ensures Both(s, t, text) != Both(t, s, text)
  {
    if StartsInMarker(s) || (!StartsInMarker(t) && (!SafeAfter({t}, s) || Cuts(s, t))) {
      text := NotApartShows(s, t);
    } else {
      text := NotApartShows(t, s);
    }
  }

  /**
   * For two different, equally long secrets, of which neither contains the whole marker as a part: Scrub gives the same
   * result in both sorting orders, for every text, if and only if one of them is the marker itself or they keep apart.
   */
  lemma OrderIsIrrelevantIff(s: Bytes, t: Bytes)
    requires |t| == |s| > 0 && s != t
    requires s == MARKER || !IsIn(MARKER, s)
    requires t == MARKER || !IsIn(MARKER, t)
    ensures (forall text :: ScrubFold([s, t], text) == ScrubFold([t, s], text)) <==>
      s == MARKER || t == MARKER || KeepApart(s, t)
  {
    if s == MARKER || t == MARKER || KeepApart(s, t) {
      forall text ensures ScrubFold([s, t], text) == ScrubFold([t, s], text) {
        FoldIsBoth(s, t, text);
        FoldIsBoth(t, s, text);
        ApartOrdersAgree(s, t, text);
      }
    } else {
      var text := OrderMatters(s, t);
      FoldIsBoth(s, t, text);
      FoldIsBoth(t, s, text);
    }
  }

  /** The condition for secrets that do not touch the marker. */
  lemma ApartFromMarker(s: Bytes, t: Bytes)
    requires !Meets(s, MARKER) && !Meets(t, MARKER)
    ensures KeepApart(s, t) <==> !Cuts(s, t) && !Cuts(t, s)
  {
    MissingMarkerIsSafe({t}, s);
    MissingMarkerIsSafe({s}, t);
  }

  lemma ForeignBytesMissMarker(s: Bytes)
    requires s != [] && forall b :: b in s ==> b !in MARKER
    ensures !Meets(s, MARKER)
  {
    forall k | 0 <= k < |s| ensures !(s[k..] <= MARKER || MARKER <= s[k..]) {
      assert s[k..][0] in s;
    }
    forall k | 0 <= k < |MARKER| ensures !(MARKER[k..] <= s || s <= MARKER[k..]) {
      assert MARKER[k..][0] in MARKER;
      assert s[0] in s;
    }
  }

  /** "1234" and "3412" are equally long, so newSecretScrubber may sort them either way. */
  const FORWARD: Bytes := [49, 50, 51, 52]
  const SWAPPED: Bytes := [51, 52, 49, 50]
  const CLASH: Bytes := [51, 52, 49, 50, 51, 52]

  lemma NoMatchIn34(secrets: set<Bytes>)
    requires forall s :: s in secrets ==> |s| == 4
    ensures Redact(secrets, [51, 52]) == [51, 52]
  {
    RedactUnfolds(secrets, [51, 52]);
    RedactUnfolds(secrets, [52]);
  }

  lemma ClashInOneSweep(secrets: set<Bytes>)
    requires SWAPPED in secrets && forall s :: s in secrets ==> |s| == 4
    ensures Redact(secrets, CLASH) == MARKER + [51, 52]
  {
    assert SWAPPED <= CLASH;
    RedactUnfolds(secrets, CLASH);
    assert CLASH[4..] == [51, 52];
    NoMatchIn34(secrets);
  }

  lemma OneOrderAgrees()
    ensures ScrubFold([SWAPPED, FORWARD], CLASH) == MARKER + [51, 52]
  {
    ForeignBytesMissMarker(FORWARD);
    FoldOfTwo(SWAPPED, FORWARD, CLASH);
    ClashInOneSweep({SWAPPED});
    var rest: Bytes := [51, 52];
    MissingMarkerIsSafe({}, FORWARD);
    MarkerSurvives(rest, FORWARD);
    ReplaceAllRedactsOne(rest, FORWARD);
    NoMatchIn34({FORWARD});
  }

  lemma SwappedCutsForward()
    ensures SWAPPED[2..] <= FORWARD && SWAPPED[..2] + FORWARD == CLASH && SWAPPED != FORWARD
  {
    assert SWAPPED[0] != FORWARD[0];
  }

  lemma OtherOrderDoesNot()
    ensures ScrubFold([FORWARD, SWAPPED], CLASH) != Redact({FORWARD} + {SWAPPED}, CLASH)
  {
    ForeignBytesMissMarker(SWAPPED);
    MissingMarkerIsSafe({FORWARD}, SWAPPED);
    SwappedCutsForward();
    FoldIsBoth(FORWARD, SWAPPED, CLASH);
    LateNotDue(SWAPPED, FORWARD, 2, [51, 52]);
    ClashInOneSweep({FORWARD} + {SWAPPED});
  }

  /** The writer redacts "341234" to one marker and "34"; Scrub does so in one sorting order and not in the other. */
  lemma ScrubDependsOnOrder()
    ensures ScrubFold([SWAPPED, FORWARD], CLASH) == Redact({FORWARD, SWAPPED}, CLASH)
    ensures ScrubFold([FORWARD, SWAPPED], CLASH) != Redact({FORWARD, SWAPPED}, CLASH)
  {
    OneOrderAgrees();
    ClashInOneSweep({FORWARD, SWAPPED});
    OtherOrderDoesNot();
    assert {FORWARD} + {SWAPPED} == {FORWARD, SWAPPED};
  }

  /** Both orders are ones that newSecretScrubber may produce. */
  lemma BothOrdersPossible()
    ensures ScrubberFor(SecretScrubber([FORWARD, SWAPPED], 4), {FORWARD, SWAPPED})
    ensures ScrubberFor(SecretScrubber([SWAPPED, FORWARD], 4), {FORWARD, SWAPPED})
  {
    assert FORWARD in {FORWARD, SWAPPED} && |FORWARD| == 4;
    assert FORWARD[0] != SWAPPED[0];
  }
}
