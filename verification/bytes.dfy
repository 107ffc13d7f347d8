/** Byte strings and the newline count of `bytes.Count(s, []byte{'\n'})`. */
module Bytes {

  newtype byte = x: int | 0 <= x < 256

  /** The byte value of '\n'. */
  const NEWLINE: byte := 10

  /** The number of '\n' bytes in `s`. */
  function Newlines(s: seq<byte>): (n: nat)
    ensures n <= |s|
  {
    if s == [] then 0
    else Newlines(s[..|s| - 1]) + (if s[|s| - 1] == NEWLINE then 1 else 0)
  }

  /** Newlines agrees with the multiplicity of '\n' in the multiset of the bytes. */
  lemma {:induction false} NewlinesIsMultiplicity(s: seq<byte>)
    ensures Newlines(s) == multiset(s)[NEWLINE]
  {
    if s != [] {
      var init, last := s[..|s| - 1], s[|s| - 1];
      assert s == init + [last];
      NewlinesIsMultiplicity(init);
      assert multiset(s) == multiset(init) + multiset([last]);
    }
  }

  /** Counting newlines distributes over concatenation. */
  lemma {:induction false} NewlinesAppend(a: seq<byte>, b: seq<byte>)
    ensures Newlines(a + b) == Newlines(a) + Newlines(b)
  {
    if b == [] {
      assert a + b == a;
    } else {
      var init, last := b[..|b| - 1], b[|b| - 1];
      assert a + b == (a + init) + [last];
      assert (a + b)[..|a + b| - 1] == a + init;
      NewlinesAppend(a, init);
    }
  }
}
