/**
 * updateAddressFile: appends the clean ping results to the running output
 * file, as raw bytes when the output type is "bin" and as one text line per
 * address otherwise.
 */
module AddrUpdate {
  import opened Errors
  import opened Bytes
  import opened Addresses
  import opened Config

  /** The output file on disk; opened in append mode, so it only grows at the end. */
  class OutputFile {
    var contents: seq<byte>

    constructor (contents: seq<byte>)
      ensures this.contents == contents
    {
      this.contents := contents;
    }
  }

  /** The output type selects raw bytes only when it is exactly "bin". */
  function Encoded(outputFileType: string, addrs: seq<Address>, render: Address -> seq<byte>): (bytes: seq<byte>)
  {
    if outputFileType != "bin" then EncodeText(addrs, render) else EncodeBinary(addrs)
  }

  /** The "unexpected file format" warning: the type is neither "bin" nor "text". */
  predicate UnexpectedFormat(outputFileType: string)
  {
    outputFileType != "bin" && outputFileType != "text"
  }

  /**
   * The bytes that reach the file when the buffered writer is flushed.  A
   * failing underlying write (`shortWrite == Some(n)`) stops after `n` bytes;
   * the buffered writer writes in order and stops at its first error.
   */
  function Delivered(buffered: seq<byte>, shortWrite: Option<nat>): (landed: seq<byte>)
    ensures landed <= buffered
    ensures shortWrite.None? ==> landed == buffered
  {
    match shortWrite
    case None => buffered
    case Some(n) => if n < |buffered| then buffered[..n] else buffered
  }

  /**
   * Both encodings emit one record per address in input order: the binary
   * one can be split back into the list, and the text one, for a single-line
   * rendering, holds exactly as many lines as there are addresses.
   */
  lemma RecordsEmitted(outputFileType: string, addrs: seq<Address>, render: Address -> seq<byte>)
    requires outputFileType != "bin" ==> SingleLine(render)
    ensures outputFileType == "bin" ==> DecodeBinary(Encoded(outputFileType, addrs, render)) == addrs
    ensures outputFileType != "bin" ==> Newlines(Encoded(outputFileType, addrs, render)) == |addrs|
  {
    if outputFileType == "bin" {
      BinaryRoundTrip(addrs);
    } else {
      TextLineCount(addrs, render);
    }
  }

  /** A full text update adds exactly one line per address to the file's line count. */
  lemma TextUpdateLineCount(existing: seq<byte>, addrs: seq<Address>, render: Address -> seq<byte>)
    requires SingleLine(render)
    ensures Newlines(existing + EncodeText(addrs, render)) == Newlines(existing) + |addrs|
  {
    NewlinesAppend(existing, EncodeText(addrs, render));
    TextLineCount(addrs, render);
  }

  /**
   * updateAddressFile.  `cleanPings` is what fetching the clean ping results
   * returned, `openResult` what opening the output file returned, `shortWrite`
   * whether a write or the flush failed part-way, and `render` the text form
   * of an address.  `warned` is whether the unexpected-format warning was logged.
   */
  method UpdateAddressFile(file: OutputFile, conf: Configuration, cleanPings: Result<seq<Address>>,
                           openResult: Status, shortWrite: Option<nat>, render: Address -> seq<byte>)
    returns (err: Status, warned: bool)
    modifies file
    ensures cleanPings.Failure? ==> err == Failed(cleanPings.error) && !warned && file.contents == old(file.contents)
    ensures cleanPings.Success? && openResult.Failed? ==> err == openResult && !warned && file.contents == old(file.contents)
    ensures cleanPings.Success? && openResult.Ok? ==>
      && err == Ok
      && warned == UnexpectedFormat(conf.outputFileType)
      && file.contents == old(file.contents) + Delivered(Encoded(conf.outputFileType, cleanPings.value, render), shortWrite)
  {
    warned := false;
    if cleanPings.Failure? {
      return Failed(cleanPings.error), warned;
    }
    var pings := cleanPings.value;
    if openResult.Failed? {
      return openResult, warned;
    }
    var buffered: seq<byte> := [];
    if conf.outputFileType != "bin" {
      if !(conf.outputFileType == "text") {
        warned := true;
      }
      for i := 0 to |pings|
        invariant buffered == EncodeText(pings[..i], render)
      {
        assert pings[..i + 1][..i] == pings[..i];
        buffered := buffered + TextLine(pings[i], render);
      }
    } else {
      for i := 0 to |pings|
        invariant buffered == EncodeBinary(pings[..i])
      {
        assert pings[..i + 1][..i] == pings[..i];
        buffered := buffered + pings[i];
      }
    }
    assert pings[..|pings|] == pings;
    file.contents := file.contents + Delivered(buffered, shortWrite);
    err := Ok;
  }
}
