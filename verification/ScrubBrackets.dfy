/**
 * Why the condition for sorting orders leaves secrets out that contain the marker: two of them that can be confused
 * with it, and for which Scrub still gives the same result in both orders.
 */
module ScrubBrackets {
  import opened ByteStrings
  import opened Redaction
  import opened ScrubAgreement
  import opened ScrubOrder

  /** "[[redacted]" and "[redacted]a" */
  const BRACKETED: Bytes := [91] + MARKER
  const TRAILED: Bytes := MARKER + [97]

  /** What a later pass finds without an opening bracket was in the text. */
  lemma {:induction false} PlainBytesFound(text: Bytes, s: Bytes, found: Bytes)
    requires s != [] && 91 !in found && found <= ReplaceAll(text, s)
    ensures found <= text
    decreases found
  {
    if found != [] {
      assert found[0] in found && MARKER[0] == 91;
      assert text != [] && !(s <= text);
      var rest := found[1..];
      assert forall b :: b in rest ==> b in found;
      assert rest <= ReplaceAll(text[1..], s);
      PlainBytesFound(text[1..], s, rest);
      assert found == [found[0]] + rest && text == [text[0]] + text[1..];
    }
  }

  /** A pass makes a marker at the start of a text only out of a marker, or of its secret. */
  lemma MarkerFound(text: Bytes, s: Bytes)
    requires s != [] && !(s <= text) && MARKER <= ReplaceAll(text, s)
    ensures MARKER <= text
  {
    var rest := MARKER[1..];
    assert text != [] && ReplaceAll(text, s) == [text[0]] + ReplaceAll(text[1..], s);
    assert rest <= ReplaceAll(text, s)[1..] == ReplaceAll(text[1..], s);
    PlainBytesFound(text[1..], s, rest);
    assert MARKER == [MARKER[0]] + rest && text == [text[0]] + text[1..];
  }

  lemma BracketedIsNotInMarker()
    ensures !StartsInMarker(BRACKETED) && BRACKETED != []
  {
    assert BRACKETED[0] == 91 && BRACKETED[1] == 91;
    forall k | 0 <= k < |MARKER| ensures !(MARKER[k..] <= BRACKETED || BRACKETED <= MARKER[k..]) {
      assert MARKER[k..][0] == MARKER[k];
      if k == 0 { assert MARKER[k..][1] == 114; }
    }
  }

  /** A secret does not start in bytes that are not its first one. */
  lemma {:induction false} PassOverOthers(front: Bytes, rest: Bytes, s: Bytes)
    requires s != [] && s[0] !in front
    ensures ReplaceAll(front + rest, s) == front + ReplaceAll(rest, s)
    decreases front
  {
    if front == [] {
      assert front + rest == rest;
    } else {
      var more := front[1..] + rest;
      assert front + rest == [front[0]] + more && front[0] in front;
      ReplaceAllSkips(front[0], more, s);
      PassOverOthers(front[1..], rest, s);
      assert front == [front[0]] + front[1..];
    }
  }

  lemma TrailedStarts(rest: Bytes)
    ensures TRAILED <= MARKER + rest <==> [97] <= rest
  {
    assert TRAILED[..|MARKER|] == MARKER && TRAILED[|MARKER|..] == [97];
    assert (MARKER + rest)[..|MARKER|] == MARKER && (MARKER + rest)[|MARKER|..] == rest;
  }

  /** A marker survives the pass for "[redacted]a"; an "a" behind it goes. */
  lemma TrailedAfterMarker(rest: Bytes)
    ensures ReplaceAll(MARKER + rest, TRAILED) ==
      MARKER + ReplaceAll(if [97] <= rest then rest[1..] else rest, TRAILED)
  {
    if [97] <= rest {
      assert rest == [97] + rest[1..] && MARKER + rest == TRAILED + rest[1..];
      ReplaceAllHits(rest[1..], TRAILED);
    } else {
      var more := MARKER[1..] + rest;
      assert MARKER + rest == [MARKER[0]] + more && MARKER == [MARKER[0]] + MARKER[1..];
      TrailedStarts(rest);
      ReplaceAllSkips(MARKER[0], more, TRAILED);
      PassOverOthers(MARKER[1..], rest, TRAILED);
    }
  }

  /** A bracket before a marker and an "a" behind it disappear. */
  function Cleaned(text: Bytes): Bytes {
    if text == [] then []
    else if BRACKETED <= text then MARKER + Cleaned(text[if BRACKETED + [97] <= text then 12 else 11..])
    else if MARKER <= text then MARKER + Cleaned(text[if TRAILED <= text then 11 else 10..])
    else [text[0]] + Cleaned(text[1..])
  }

  lemma FirstA(text: Bytes)
    ensures [97] <= ReplaceAll(text, BRACKETED) <==> [97] <= text
    ensures [97] <= text ==> ReplaceAll(text, BRACKETED)[1..] == ReplaceAll(text[1..], BRACKETED)
  {
    if [97] <= text {
      assert BRACKETED[0] == 91 != text[0];
    }
    if [97] <= ReplaceAll(text, BRACKETED) {
      PlainBytesFound(text, BRACKETED, [97]);
    }
  }

  /** The pass for "[redacted]a" behind a marker that the pass for the other has made or left. */
  lemma SecondPassCleans(rest: Bytes)
    ensures ReplaceAll(MARKER + ReplaceAll(rest, BRACKETED), TRAILED) ==
      MARKER + Both(BRACKETED, TRAILED, if [97] <= rest then rest[1..] else rest)
  {
    FirstA(rest);
    TrailedAfterMarker(ReplaceAll(rest, BRACKETED));
  }

  /** What is behind the marker that a pass puts at the start, or leaves there. */
  function BehindMarker(text: Bytes): Bytes {
    if [97] <= text then text[1..] else text
  }

  lemma StartOfRest(front: Bytes, text: Bytes)
    requires front <= text
    ensures front + [97] <= text <==> [97] <= text[|front|..]
    ensures front + [97] <= text ==> text[|front| + 1..] == text[|front|..][1..]
  {
    assert text == front + text[|front|..];
    if [97] <= text[|front|..] {
      assert (front + [97]) == text[..|front| + 1];
    }
  }

  lemma CleanedUnfolds(text: Bytes)
    requires text != []
    ensures BRACKETED <= text ==> Cleaned(text) == MARKER + Cleaned(BehindMarker(text[11..]))
    ensures !(BRACKETED <= text) && MARKER <= text ==>
      Cleaned(text) == MARKER + Cleaned(BehindMarker(text[10..]))
  {
    if BRACKETED <= text {
      StartOfRest(BRACKETED, text);
    } else if MARKER <= text {
      StartOfRest(MARKER, text);
    }
  }

  lemma BracketedFirst(text: Bytes)
    requires text != [] && (BRACKETED <= text || MARKER <= text)
    ensures var n := if BRACKETED <= text then 11 else 10;
      ReplaceAll(text, BRACKETED) == MARKER + ReplaceAll(text[n..], BRACKETED)
  {
    if !(BRACKETED <= text) {
      BracketedIsNotInMarker();
      assert text == MARKER + text[10..];
      MarkerSurvives(text[10..], BRACKETED);
    }
  }

  lemma OtherByteFirst(text: Bytes)
    requires text != [] && !(BRACKETED <= text) && !(MARKER <= text)
    ensures Both(BRACKETED, TRAILED, text) == [text[0]] + Both(BRACKETED, TRAILED, text[1..])
  {
    var rest := ReplaceAll(text[1..], BRACKETED);
    if TRAILED <= [text[0]] + rest {
      assert MARKER <= TRAILED <= ReplaceAll(text, BRACKETED);
      MarkerFound(text, BRACKETED);
    }
    ReplaceAllSkips(text[0], rest, TRAILED);
  }

  lemma {:induction false} BracketedThenTrailed(text: Bytes)
    ensures Both(BRACKETED, TRAILED, text) == Cleaned(text)
    decreases |text|
  {
    if text != [] {
      if BRACKETED <= text || MARKER <= text {
        var n := if BRACKETED <= text then 11 else 10;
        BracketedFirst(text);
        SecondPassCleans(text[n..]);
        CleanedUnfolds(text);
        BracketedThenTrailed(BehindMarker(text[n..]));
      } else {
        OtherByteFirst(text);
        BracketedThenTrailed(text[1..]);
      }
    }
  }

  lemma TrailedAtMarker(text: Bytes)
    requires MARKER <= text
    ensures Both(TRAILED, BRACKETED, text) == MARKER + Both(TRAILED, BRACKETED, BehindMarker(text[10..]))
  {
    assert text == MARKER + text[10..];
    TrailedAfterMarker(text[10..]);
    BracketedIsNotInMarker();
    MarkerSurvives(ReplaceAll(BehindMarker(text[10..]), TRAILED), BRACKETED);
  }

  lemma TrailedAtBracket(text: Bytes)
    requires BRACKETED <= text
    ensures Both(TRAILED, BRACKETED, text) == MARKER + Both(TRAILED, BRACKETED, BehindMarker(text[11..]))
  {
    var rest := BehindMarker(text[11..]);
    assert text == BRACKETED + text[11..] && text[1..] == MARKER + text[11..] && text[0] == 91;
    assert TRAILED[1] == 114 && text[1] == 91;
    TrailedAfterMarker(text[11..]);
    assert ReplaceAll(text, TRAILED) == [91] + (MARKER + ReplaceAll(rest, TRAILED));
    assert [91] + (MARKER + ReplaceAll(rest, TRAILED)) == BRACKETED + ReplaceAll(rest, TRAILED);
    ReplaceAllHits(ReplaceAll(rest, TRAILED), BRACKETED);
  }

  lemma TrailedAtByte(text: Bytes)
    requires text != [] && !(BRACKETED <= text) && !(MARKER <= text)
    ensures Both(TRAILED, BRACKETED, text) == [text[0]] + Both(TRAILED, BRACKETED, text[1..])
  {
    var rest := ReplaceAll(text[1..], TRAILED);
    assert MARKER <= TRAILED;
    if BRACKETED <= [text[0]] + rest {
      assert MARKER == BRACKETED[1..] <= ([text[0]] + rest)[1..] == rest;
      if !(TRAILED <= text[1..]) { MarkerFound(text[1..], TRAILED); }
    }
    ReplaceAllSkips(text[0], rest, BRACKETED);
  }

  lemma {:induction false} TrailedThenBracketed(text: Bytes)
    ensures Both(TRAILED, BRACKETED, text) == Cleaned(text)
    decreases |text|
  {
    if text != [] {
      if BRACKETED <= text {
        TrailedAtBracket(text);
        CleanedUnfolds(text);
        TrailedThenBracketed(BehindMarker(text[11..]));
      } else if MARKER <= text {
        TrailedAtMarker(text);
        CleanedUnfolds(text);
        TrailedThenBracketed(BehindMarker(text[10..]));
      } else {
        TrailedAtByte(text);
        TrailedThenBracketed(text[1..]);
      }
    }
  }

  lemma TrailedStartsInMarker()
    ensures StartsInMarker(TRAILED) && TRAILED != MARKER
  {
    assert MARKER[0..] == MARKER <= TRAILED;
  }

  /**
   * "[[redacted]" and "[redacted]a" are equally long and can be confused with the marker; still Scrub gives the same
   * result in both sorting orders, for every text.
   */
  lemma MarkerInsideIsDifferent()
    ensures |BRACKETED| == |TRAILED| && BRACKETED != TRAILED && !KeepApart(BRACKETED, TRAILED)
    ensures forall text :: ScrubFold([BRACKETED, TRAILED], text) == ScrubFold([TRAILED, BRACKETED], text)
  {
    assert BRACKETED[1] == 91 && TRAILED[1] == 114;
    TrailedStartsInMarker();
    forall text ensures ScrubFold([BRACKETED, TRAILED], text) == ScrubFold([TRAILED, BRACKETED], text) {
      FoldIsBoth(BRACKETED, TRAILED, text);
      FoldIsBoth(TRAILED, BRACKETED, text);
      BracketedThenTrailed(text);
      TrailedThenBracketed(text);
    }
  }
}
