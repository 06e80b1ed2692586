/** Go strings and byte slices. On these, p <= q says that p is a prefix of q. */
module ByteStrings {
  newtype Byte = b: int | 0 <= b < 256
  type Bytes = seq<Byte>

  function Concat(chunks: seq<Bytes>): Bytes {
    if chunks == [] then [] else chunks[0] + Concat(chunks[1..])
  }

  lemma Associates<T>(a: seq<T>, b: seq<T>, c: seq<T>)
    ensures (a + b) + c == a + (b + c)
  {
  }

  lemma {:induction false} ConcatExtends(chunks: seq<Bytes>, i: nat)
    requires i < |chunks|
    ensures Concat(chunks[..i + 1]) == Concat(chunks[..i]) + chunks[i]
  {
    if i == 0 {
      assert chunks[..1] == [chunks[0]] && [chunks[0]][1..] == [];
      assert chunks[0] + [] == [] + chunks[0];
    } else {
      assert chunks[..i + 1][1..] == chunks[1..][..i] && chunks[..i][1..] == chunks[1..][..i - 1];
      ConcatExtends(chunks[1..], i - 1);
      Associates(chunks[0], Concat(chunks[1..][..i - 1]), chunks[i]);
    }
  }

  lemma SplitAt<T>(text: seq<T>, i: nat)
    requires i < |text|
    ensures text == text[..i] + [text[i]] + text[i + 1..]
  {
  }

  lemma TakeDrop<T>(text: seq<T>, n: nat)
    requires n <= |text|
    ensures text[..n] + text[n..] == text
  {
  }
}
