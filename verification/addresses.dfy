/**
 * A network address record (128 bits, as raw bytes) and the two output
 * encodings of an address list: raw bytes, and one text line per address.
 */
module Addresses {
  import opened Bytes

  const ADDRESS_LENGTH: nat := 16

  type Address = s: seq<byte> | |s| == ADDRESS_LENGTH
    witness [0, 0, 0, 0, 0, 0, 0, 0, 0, 0, 0, 0, 0, 0, 0, 0]

  /** The raw bytes of every address, concatenated in list order. */
  function EncodeBinary(addrs: seq<Address>): (bytes: seq<byte>)
    ensures |bytes| == ADDRESS_LENGTH * |addrs|
    ensures addrs != [] ==> bytes[|bytes| - ADDRESS_LENGTH..] == addrs[|addrs| - 1]
  {
    if addrs == [] then []
    else EncodeBinary(addrs[..|addrs| - 1]) + addrs[|addrs| - 1]
  }

  /** Splits a byte string into consecutive fixed-width address records. */
  function DecodeBinary(bytes: seq<byte>): (addrs: seq<Address>)
    requires |bytes| % ADDRESS_LENGTH == 0
    ensures ADDRESS_LENGTH * |addrs| == |bytes|
    decreases |bytes|
  {
    if bytes == [] then []
    else
      var cut := |bytes| - ADDRESS_LENGTH;
      DecodeBinary(bytes[..cut]) + [bytes[cut..]]
  }

  /** The binary encoding loses nothing: decoding it gives back the list. */
  lemma {:induction false} BinaryRoundTrip(addrs: seq<Address>)
    ensures DecodeBinary(EncodeBinary(addrs)) == addrs
  {
    if addrs != [] {
      var init := addrs[..|addrs| - 1];
      var bytes := EncodeBinary(addrs);
      assert bytes == EncodeBinary(init) + addrs[|addrs| - 1];
      assert bytes[..|bytes| - ADDRESS_LENGTH] == EncodeBinary(init);
      BinaryRoundTrip(init);
      assert addrs == init + [addrs[|addrs| - 1]];
    }
  }

  /** One text record: the rendering of the address followed by '\n'. */
  function TextLine(a: Address, render: Address -> seq<byte>): (line: seq<byte>)
    ensures |line| > 0 && line[|line| - 1] == NEWLINE
  {
    render(a) + [NEWLINE]
  }

  /** One text line per address, in list order. */
  function EncodeText(addrs: seq<Address>, render: Address -> seq<byte>): (bytes: seq<byte>)
    ensures addrs != [] ==> |bytes| > 0 && bytes[|bytes| - 1] == NEWLINE
  {
    if addrs == [] then []
    else EncodeText(addrs[..|addrs| - 1], render) + TextLine(addrs[|addrs| - 1], render)
  }

  /** The text encoding of one address is its rendering followed by '\n'. */
  lemma EncodeTextSingleton(a: Address, render: Address -> seq<byte>)
    ensures EncodeText([a], render) == render(a) + [NEWLINE]
  {
    assert [a][..0] == [];
  }

  /** The text encoding of a concatenation is the concatenation of the encodings, in order. */
  lemma {:induction false} EncodeTextAppend(xs: seq<Address>, ys: seq<Address>, render: Address -> seq<byte>)
    ensures EncodeText(xs + ys, render) == EncodeText(xs, render) + EncodeText(ys, render)
  {
    if ys == [] {
      assert xs + ys == xs;
    } else {
      var init, last := ys[..|ys| - 1], ys[|ys| - 1];
      var all := xs + ys;
      assert all[..|all| - 1] == xs + init;
      assert all[|all| - 1] == last;
      EncodeTextAppend(xs, init, render);
      calc {
        EncodeText(all, render);
        EncodeText(xs + init, render) + TextLine(last, render);
        (EncodeText(xs, render) + EncodeText(init, render)) + TextLine(last, render);
        EncodeText(xs, render) + (EncodeText(init, render) + TextLine(last, render));
        EncodeText(xs, render) + EncodeText(ys, render);
      }
    }
  }

  /** A rendering that never contains '\n'. */
  ghost predicate SingleLine(render: Address -> seq<byte>)
  {
    forall a: Address :: NEWLINE !in render(a)
  }

  /** With a single-line rendering, the text encoding holds exactly one line per address. */
  lemma {:induction false} TextLineCount(addrs: seq<Address>, render: Address -> seq<byte>)
    requires SingleLine(render)
    ensures Newlines(EncodeText(addrs, render)) == |addrs|
  {
    if addrs != [] {
      var init, last := addrs[..|addrs| - 1], addrs[|addrs| - 1];
      TextLineCount(init, render);
      NewlinesAppend(EncodeText(init, render), TextLine(last, render));
      NewlinesAppend(render(last), [NEWLINE]);
      NewlinesIsMultiplicity(render(last));
      assert Newlines([NEWLINE]) == 1;
    }
  }
}
