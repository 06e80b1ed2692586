/** The secret scrubber: its construction, the one-line Scrub, and the streaming writer. */
module Scrubber {
  import opened ByteStrings
  import opened Redaction

  const MIN_SECRET_SCRUB_LENGTH: nat := 4

  datatype SecretScrubber = SecretScrubber(values: seq<Bytes>, maxLen: nat)

  ghost function Elements(values: seq<Bytes>): set<Bytes> {
    set s | s in values
  }

  /** The values that newSecretScrubber keeps. */
  ghost function LongEnough(values: seq<Bytes>): (kept: set<Bytes>)
    ensures forall s :: s in kept <==> s in values && |s| >= 4
  {
    set s | s in values && |s| >= MIN_SECRET_SCRUB_LENGTH
  }

  ghost predicate LongestFirst(values: seq<Bytes>) {
    forall i, j :: 0 <= i < j < |values| ==> |values[i]| >= |values[j]|
  }

  ghost predicate Distinct(values: seq<Bytes>) {
    forall i, j :: 0 <= i < j < |values| ==> values[i] != values[j]
  }

  /** A scrubber for a set of secrets, in any order that puts longer ones first. */
  ghost predicate ScrubberFor(scrubber: SecretScrubber, secrets: set<Bytes>) {
    && Elements(scrubber.values) == secrets
    && Distinct(scrubber.values) && LongestFirst(scrubber.values)
    && (forall s :: s in secrets ==> 0 < |s| <= scrubber.maxLen)
    && (scrubber.maxLen > 0 ==> exists s :: s in secrets && |s| == scrubber.maxLen)
  }

  /** Stands for sort.Slice by descending length: nothing is promised about the order of equal lengths. */
  method SortLongestFirst(values: seq<Bytes>) returns (sorted: seq<Bytes>)
    requires Distinct(values)
    ensures Elements(sorted) == Elements(values) && Distinct(sorted) && LongestFirst(sorted)
  {
    sorted := [];
    for i := 0 to |values|
      invariant forall s :: s in sorted <==> s in values[..i]
      invariant Distinct(sorted) && LongestFirst(sorted)
    {
      var k := 0;
      while k < |sorted| && |sorted[k]| > |values[i]|
        invariant 0 <= k <= |sorted|
        invariant forall h :: 0 <= h < k ==> |sorted[h]| > |values[i]|
      {
        k := k + 1;
      }
      assert values[i] !in values[..i];
      sorted := sorted[..k] + [values[i]] + sorted[k..];
      assert values[..i + 1] == values[..i] + [values[i]];
    }
    assert values[..|values|] == values;
  }

  method NewSecretScrubber(values: seq<Bytes>) returns (scrubber: SecretScrubber)
    ensures ScrubberFor(scrubber, LongEnough(values))
  {
    var unique: set<Bytes> := {};
    for i := 0 to |values|
      invariant unique == LongEnough(values[..i])
    {
      assert values[..i + 1] == values[..i] + [values[i]];
      if |values[i]| >= MIN_SECRET_SCRUB_LENGTH {
        unique := unique + {values[i]};
      }
    }
    assert values[..|values|] == values;

    var listed: seq<Bytes> := [];
    var maxLen: nat := 0;
    var rest := unique;
    while rest != {}
      invariant rest <= unique
      invariant forall s :: s in listed <==> s in unique && s !in rest
      invariant Distinct(listed)
      invariant forall s :: s in listed ==> |s| <= maxLen
      invariant maxLen > 0 ==> exists s :: s in listed && |s| == maxLen
      decreases rest
    {
      var value :| value in rest;
      listed := listed + [value];
      if |value| > maxLen {
        maxLen := |value|;
      }
      rest := rest - {value};
    }
    var sorted := SortLongestFirst(listed);
    assert forall s :: s in Elements(sorted) <==> s in Elements(listed);
    scrubber := SecretScrubber(sorted, maxLen);
  }

  /**
   * Having read `input` after an output of `before`, a writer that is to compute `f` has put out `done` and holds
   * back `held`: whatever is written next (nothing, at the end), going on from here gives what `f` gives.
   */
  ghost predicate Continues(f: Bytes -> Bytes, before: Bytes, input: Bytes, done: Bytes, held: Bytes, atEnd: bool) {
    forall rest: Bytes :: (atEnd ==> rest == []) ==> before + f(input + rest) == done + f(held + rest)
  }

  ghost function OneShot(secrets: set<Bytes>): Bytes -> Bytes {
    text => Redact(secrets, text)
  }

  lemma RedactUnfolds(secrets: set<Bytes>, text: Bytes)
    requires text != []
    ensures Redact(secrets, text) ==
      (if MatchLength(secrets, text) > 0 then MARKER else [text[0]]) + Redact(secrets, text[FirstStep(secrets, text)..])
  {
  }

  /**
   * The first step of a redaction is decided by the held-back text alone, when nothing follows or the longest secret
   * fits.
   */
  lemma FirstStepIsDecided(secrets: set<Bytes>, held: Bytes, rest: Bytes)
    requires held != [] && (rest == [] || forall s :: s in secrets ==> |s| <= |held|)
    ensures MatchLength(secrets, held + rest) == MatchLength(secrets, held)
    ensures held + rest != [] && (held + rest)[0] == held[0]
    ensures (held + rest)[FirstStep(secrets, held)..] == held[FirstStep(secrets, held)..] + rest
  {
    if rest == [] {
      assert held + rest == held;
    } else {
      MatchIsLocal(secrets, held, rest);
    }
  }

  lemma PutContinues(f: Bytes -> Bytes, before: Bytes, input: Bytes, done: Bytes, held: Bytes, atEnd: bool,
          put: Bytes, after: Bytes)
    requires Continues(f, before, input, done, held, atEnd)
    requires forall rest: Bytes :: (atEnd ==> rest == []) ==> f(held + rest) == put + f(after + rest)
    ensures Continues(f, before, input, done + put, after, atEnd)
  {
    forall rest: Bytes | atEnd ==> rest == [] ensures before + f(input + rest) == (done + put) + f(after + rest) {
      assert f(held + rest) == put + f(after + rest);
      assert done + (put + f(after + rest)) == (done + put) + f(after + rest);
    }
  }

  /** One turn of the writer's loop: put out a marker or a byte, and drop what it stands for. */
  lemma TurnContinues(secrets: set<Bytes>, before: Bytes, input: Bytes, done: Bytes, held: Bytes, atEnd: bool,
          matched: Bytes)
    requires Continues(OneShot(secrets), before, input, done, held, atEnd)
    requires held != [] && (atEnd || forall s :: s in secrets ==> |s| <= |held|)
    requires |matched| == MatchLength(secrets, held)
    ensures matched != [] ==> Continues(OneShot(secrets), before, input, done + MARKER, held[|matched|..], atEnd)
    ensures matched == [] ==> Continues(OneShot(secrets), before, input, done + [held[0]], held[1..], atEnd)
  {
    var f, after := OneShot(secrets), held[FirstStep(secrets, held)..];
    var put := if matched != [] then MARKER else [held[0]];
    forall rest: Bytes | atEnd ==> rest == [] ensures f(held + rest) == put + f(after + rest) {
      FirstStepIsDecided(secrets, held, rest);
      RedactUnfolds(secrets, held + rest);
    }
    PutContinues(f, before, input, done, held, atEnd, put, after);
  }

  lemma AppendContinues(f: Bytes -> Bytes, before: Bytes, input: Bytes, done: Bytes, held: Bytes, payload: Bytes)
    requires Continues(f, before, input, done, held, false)
    ensures Continues(f, before, input + payload, done, held + payload, false)
  {
    forall rest: Bytes ensures before + f((input + payload) + rest) == done + f((held + payload) + rest) {
      assert input + (payload + rest) == (input + payload) + rest;
      assert held + (payload + rest) == (held + payload) + rest;
      assert before + f(input + (payload + rest)) == done + f(held + (payload + rest));
    }
  }

  lemma PassThroughContinues(f: Bytes -> Bytes, before: Bytes, input: Bytes, done: Bytes, payload: Bytes)
    requires Continues(f, before, input, done, [], false) && forall text :: f(text) == text
    ensures Continues(f, before, input + payload, done + payload, [], false)
  {
    AppendContinues(f, before, input, done, [], payload);
    forall rest: Bytes ensures f(([] + payload) + rest) == payload + f([] + rest) {
      assert ([] + payload) + rest == payload + ([] + rest);
    }
    PutContinues(f, before, input + payload, done, [] + payload, false, payload, []);
  }

  lemma NothingHeld(f: Bytes -> Bytes, before: Bytes, input: Bytes, done: Bytes, atEnd: bool)
    requires Continues(f, before, input, done, [], atEnd) && f([]) == []
    ensures done == before + f(input)
  {
    var nothing: Bytes := [];
    assert before + f(input + nothing) == done + f(nothing + nothing);
    assert input + nothing == input && nothing + nothing == nothing && done + nothing == done;
  }

  /** strings.Builder and the io.Writer behind the scrubber are byte sequences that only grow. */
  class ScrubbingWriter {
    const scrubber: SecretScrubber
    var sink: Bytes              // what the underlying writer has received
    var tail: Bytes
    ghost const secrets: set<Bytes>
    ghost var flushed: Bytes     // the sink at the last Flush
    ghost var input: Bytes       // everything written since then

    ghost predicate Valid()
      reads this
    {
      && ScrubberFor(scrubber, secrets)
      && Continues(OneShot(secrets), flushed, input, sink, tail, false)
      && (tail == [] || |tail| < scrubber.maxLen)
    }

    constructor (scrubber: SecretScrubber, ghost secrets: set<Bytes>)
      requires ScrubberFor(scrubber, secrets)
      ensures Valid() && this.scrubber == scrubber && this.secrets == secrets
      ensures sink == [] && tail == [] && flushed == [] && input == []
    {
      this.scrubber, this.secrets := scrubber, secrets;
      sink, tail, flushed, input := [], [], [], [];
    }

    /** Afterwards the held-back tail is shorter than the longest secret; no secrets, no tail. */
    method Write(payload: Bytes)
      requires Valid()
      modifies this
      ensures Valid()
      ensures flushed == old(flushed) && input == old(input) + payload
      ensures tail == [] || exists s :: s in secrets && |tail| < |s|
    {
      if |scrubber.values| == 0 {
        assert secrets == {} && tail == [];
        forall text { NothingToRedact(text); }
        PassThroughContinues(OneShot(secrets), flushed, input, sink, payload);
        sink, input := sink + payload, input + payload;
        return;
      }
      AppendContinues(OneShot(secrets), flushed, input, sink, tail, payload);
      tail, input := tail + payload, input + payload;
      Drain(false);
    }

    /** Afterwards the sink has exactly the one-shot redaction of everything written since the last Flush. */
    method Flush()
      requires Valid()
      modifies this
      ensures Valid() && tail == [] && flushed == sink && input == []
      ensures sink == old(flushed) + Redact(secrets, old(input))
      ensures old(flushed) == [] ==> sink == Redact(secrets, old(input))
    {
      Drain(true);
      NothingHeld(OneShot(secrets), flushed, input, sink, true);
      flushed, input := sink, [];
    }

    /** The first listed secret that the tail starts with is the longest one. */
    method FindMatch() returns (matched: Bytes)
      requires ScrubberFor(scrubber, secrets)
      ensures |matched| == MatchLength(secrets, tail) && matched <= tail
    {
      for i := 0 to |scrubber.values|
        invariant forall h :: 0 <= h < i ==> !(scrubber.values[h] <= tail)
      {
        if scrubber.values[i] <= tail {
          matched := scrubber.values[i];
          assert matched in Elements(scrubber.values);
          forall s | s in secrets && s <= tail ensures |s| <= |matched| {
            assert s in Elements(scrubber.values);
          }
          return;
        }
      }
      forall s | s in secrets ensures !(s <= tail) {
        assert s in Elements(scrubber.values);
      }
      return [];
    }

    /** One turn of the loop in flush: what goes to the builder, and the shorter tail. */
    method Turn(final: bool, ghost done: Bytes) returns (put: Bytes)
      requires ScrubberFor(scrubber, secrets) && Continues(OneShot(secrets), flushed, input, done, tail, final)
      requires tail != [] && (final || |tail| >= scrubber.maxLen)
      modifies this`tail
      ensures Continues(OneShot(secrets), flushed, input, done + put, tail, final)
      ensures |tail| < |old(tail)|
    {
      var matched := FindMatch();
      TurnContinues(secrets, flushed, input, done, tail, final, matched);
      if matched != [] {
        put, tail := MARKER, tail[|matched|..];
      } else {
        put, tail := [tail[0]], tail[1..];
      }
    }

    /** flush(final): the loop, and the write of what it collected. */
    method Drain(final: bool)
      requires ScrubberFor(scrubber, secrets) && Continues(OneShot(secrets), flushed, input, sink, tail, false)
      modifies this`sink, this`tail
      ensures Continues(OneShot(secrets), flushed, input, sink, tail, final)
      ensures if final then tail == [] else tail == [] || |tail| < scrubber.maxLen
    {
      var output: Bytes := [];
      assert sink + output == sink;
      while |tail| > 0
        invariant sink == old(sink)
        invariant Continues(OneShot(secrets), flushed, input, sink + output, tail, final)
        decreases |tail|
      {
        if !final && |tail| < scrubber.maxLen {
          break;
        }
        var put := Turn(final, sink + output);
        Associates(sink, output, put);
        output := output + put;
      }
      sink := sink + output;
    }
  }

  /**
   * However a text is cut into writes, the output is the one-shot redaction of the whole text, and it depends on
   * the set of the secrets that are long enough only, not on their order or number.
   */
  method ScrubStream(values: seq<Bytes>, chunks: seq<Bytes>) returns (output: Bytes)
    ensures output == Redact(LongEnough(values), Concat(chunks))
  {
    var scrubber := NewSecretScrubber(values);
    var writer := new ScrubbingWriter(scrubber, LongEnough(values));
    for i := 0 to |chunks|
      invariant fresh(writer) && writer.Valid()
      invariant writer.flushed == [] && writer.input == Concat(chunks[..i])
    {
      ConcatExtends(chunks, i);
      writer.Write(chunks[i]);
    }
    assert chunks[..|chunks|] == chunks;
    writer.Flush();
    return writer.sink;
  }
}
