/** Bytes, and what redacting a set of secrets means: leftmost first, longest at each position. */
module Redaction {
  import opened ByteStrings

  /** "[redacted]" */
  const MARKER: Bytes := [91, 114, 101, 100, 97, 99, 116, 101, 100, 93]

  /** The largest length up to `n` at which a prefix of `text` is a secret; 0 if there is none. */
  function MatchUpTo(secrets: set<Bytes>, text: Bytes, n: nat): (length: nat)
    requires n <= |text|
    ensures length <= n
    ensures length > 0 ==> text[..length] in secrets
    ensures forall s :: s in secrets && s <= text && length < |s| ==> n < |s|
  {
    assert forall s :: s <= text && |s| == n ==> s == text[..n];
    if n == 0 then 0
    else if text[..n] in secrets then n
    else MatchUpTo(secrets, text, n - 1)
  }

  /** The length of the longest secret that `text` starts with. */
  function MatchLength(secrets: set<Bytes>, text: Bytes): (length: nat)
    ensures length <= |text|
    ensures length > 0 ==> text[..length] in secrets
    ensures forall s :: s in secrets && s <= text ==> |s| <= length
  {
    MatchUpTo(secrets, text, |text|)
  }

  /** The one-shot meaning of redaction. */
  function Redact(secrets: set<Bytes>, text: Bytes): Bytes {
    if text == [] then []
    else
      var n := MatchLength(secrets, text);
      if n > 0 then MARKER + Redact(secrets, text[n..]) else [text[0]] + Redact(secrets, text[1..])
  }

  /** Byte `i` of the text lies inside a redacted span. */
  predicate RedactedAt(secrets: set<Bytes>, text: Bytes, i: nat)
    requires i < |text|
  {
    var n := MatchLength(secrets, text);
    if n > 0 then i < n || RedactedAt(secrets, text[n..], i - n)
    else i > 0 && RedactedAt(secrets, text[1..], i - 1)
  }

  datatype Piece = Shown(b: Byte) | Hidden(secret: Bytes)

  /** How redaction takes the text apart: bytes that are shown, and whole secrets that are hidden. */
  function Outline(secrets: set<Bytes>, text: Bytes): seq<Piece> {
    if text == [] then []
    else
      var n := MatchLength(secrets, text);
      if n > 0 then [Hidden(text[..n])] + Outline(secrets, text[n..])
      else [Shown(text[0])] + Outline(secrets, text[1..])
  }

  function Original(pieces: seq<Piece>): Bytes {
    if pieces == [] then []
    else (match pieces[0] case Shown(b) => [b] case Hidden(secret) => secret) + Original(pieces[1..])
  }

  function Rendered(pieces: seq<Piece>): Bytes {
    if pieces == [] then []
    else (match pieces[0] case Shown(b) => [b] case Hidden(_) => MARKER) + Rendered(pieces[1..])
  }

  /** The step that redaction takes at the front of a nonempty text. */
  function FirstStep(secrets: set<Bytes>, text: Bytes): (n: nat)
    requires text != []
    ensures 0 < n <= |text|
  {
    if MatchLength(secrets, text) > 0 then MatchLength(secrets, text) else 1
  }

  lemma OutlineUnfolds(secrets: set<Bytes>, text: Bytes)
    requires text != []
    ensures var n, rest := FirstStep(secrets, text), Outline(secrets, text[FirstStep(secrets, text)..]);
      && Outline(secrets, text)[1..] == rest && |Outline(secrets, text)| == 1 + |rest|
      && Original(Outline(secrets, text)) == text[..n] + Original(rest)
      && Rendered(Outline(secrets, text)) ==
           (if MatchLength(secrets, text) > 0 then MARKER else [text[0]]) + Rendered(rest)
  {
    var pieces := Outline(secrets, text);
    assert pieces[1..] == Outline(secrets, text[FirstStep(secrets, text)..]);
    assert text[..1] == [text[0]];
  }

  lemma {:induction false} OutlineSpellsText(secrets: set<Bytes>, text: Bytes)
    ensures Original(Outline(secrets, text)) == text
  {
    if text != [] {
      var n := FirstStep(secrets, text);
      OutlineUnfolds(secrets, text);
      OutlineSpellsText(secrets, text[n..]);
      TakeDrop(text, n);
    }
  }

  lemma {:induction false} OutlineRendersRedaction(secrets: set<Bytes>, text: Bytes)
    ensures Rendered(Outline(secrets, text)) == Redact(secrets, text)
  {
    if text != [] {
      OutlineUnfolds(secrets, text);
      OutlineRendersRedaction(secrets, text[FirstStep(secrets, text)..]);
    }
  }

  lemma {:induction false} OutlineHidesSecrets(secrets: set<Bytes>, text: Bytes, piece: Piece)
    requires piece in Outline(secrets, text) && piece.Hidden?
    ensures piece.secret in secrets
  {
    var pieces := Outline(secrets, text);
    if piece != pieces[0] {
      OutlineUnfolds(secrets, text);
      OutlineHidesSecrets(secrets, text[FirstStep(secrets, text)..], piece);
    }
  }

  /** The text is a row of plain bytes and whole secrets; the output is the same row with a marker for each secret. */
  lemma RedactionHidesSecretsOnly(secrets: set<Bytes>, text: Bytes)
    ensures exists pieces: seq<Piece> :: (
      && Original(pieces) == text && Rendered(pieces) == Redact(secrets, text)
      && forall piece :: piece in pieces && piece.Hidden? ==> piece.secret in secrets)
  {
    OutlineSpellsText(secrets, text);
    OutlineRendersRedaction(secrets, text);
    forall piece | piece in Outline(secrets, text) && piece.Hidden? { OutlineHidesSecrets(secrets, text, piece); }
  }

  /** The first byte of every occurrence of a secret lies inside a redacted span. */
  lemma {:induction false} EveryOccurrenceIsCovered(secrets: set<Bytes>, text: Bytes, i: nat, s: Bytes)
    requires i < |text| && s in secrets && s != [] && s <= text[i..]
    ensures RedactedAt(secrets, text, i)
    decreases |text|
  {
    var n := MatchLength(secrets, text);
    if i == 0 {
      assert text[0..] == text;
    } else if n == 0 {
      assert text[1..][i - 1..] == text[i..];
      EveryOccurrenceIsCovered(secrets, text[1..], i - 1, s);
    } else if i >= n {
      assert text[n..][i - n..] == text[i..];
      EveryOccurrenceIsCovered(secrets, text[n..], i - n, s);
    }
  }

  ghost predicate Occurs(secrets: set<Bytes>, text: Bytes, j: nat, s: Bytes)
    requires j <= |text|
  {
    s in secrets && s <= text[j..]
  }

  lemma RedactedLater(secrets: set<Bytes>, text: Bytes, i: nat) returns (step: nat)
    requires i < |text| && RedactedAt(secrets, text, i) && i >= MatchLength(secrets, text)
    ensures 0 < step <= i && RedactedAt(secrets, text[step..], i - step)
  {
    step := FirstStep(secrets, text);
  }

  /** Only bytes of an occurrence of a secret are redacted. */
  lemma {:induction false} OnlyOccurrencesAreRedacted(secrets: set<Bytes>, text: Bytes, i: nat)
    returns (j: nat, s: Bytes)
    requires i < |text| && RedactedAt(secrets, text, i)
    ensures j <= i < j + |s| && Occurs(secrets, text, j, s)
    decreases |text|
  {
    var n := MatchLength(secrets, text);
    if i < n {
      j, s := 0, text[..n];
      assert text[0..] == text;
    } else {
      var step := RedactedLater(secrets, text, i);
      var k;
      k, s := OnlyOccurrencesAreRedacted(secrets, text[step..], i - step);
      j := step + k;
      assert text[step..][k..] == text[j..];
    }
  }

  /** More text at the end cannot change what is matched at the front, once the longest secret fits. */
  lemma MatchIsLocal(secrets: set<Bytes>, text: Bytes, rest: Bytes)
    requires forall s :: s in secrets ==> |s| <= |text|
    ensures MatchLength(secrets, text + rest) == MatchLength(secrets, text)
  {
    var n, m := MatchLength(secrets, text), MatchLength(secrets, text + rest);
    if n > 0 {
      assert text[..n] <= text + rest;
    }
    if m > 0 {
      var s := (text + rest)[..m];
      assert |s| <= |text|;
      assert s <= text;
    }
  }

  /** With no secrets the text passes through. */
  lemma {:induction false} NothingToRedact(text: Bytes)
    ensures Redact({}, text) == text
  {
    if text != [] {
      NothingToRedact(text[1..]);
    }
  }
}
