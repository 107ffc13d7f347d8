# ipv666 intake pipeline, directory helpers and address-file update — a Dafny model

This project models three sequential pieces of the ipv666 scanner:

* **The intake orchestrator** (`common/input/input.go`). Starting from an
  operator-supplied address file, `PrepareFromInputFile` runs a fixed chain of steps
  with early returns:
  1. ask to clean up existing state;
  2. load the file (binary reader for `"bin"`, hex reader otherwise);
  3. deduplicate;
  4. drop high-entropy addresses;
  5. ask again if fewer than `InputMinAddresses` survive;
  6. wipe the workspace;
  7. save a blank model named `"Model from " + path`;
  8. write the surviving addresses;
  9. set the state file to `NETWORK_GROUP`.

  The workspace is a `Workspace` object that records every side effect in order, and
  keeps the value of the state file. The pure function `Input.Prepare` gives the side
  effects and the error of a run as a function of the foreign calls' outcomes.
  `Input.PrepareFromInputFile` is proved to perform exactly those effects. Lemmas about
  `Prepare` state the ordering, the gates and the error propagation.
  `filterOutHighEntropyIPs` is a loop proved equal to the stable filter `Input.Kept`.
* **Directory helpers** (`common/fs/fshelper.go`). A directory listing is a sequence of
  `(name, isRegular, modTime)` entries, or an error.
  * `GetMostRecentFileFromDirectory` is an argmax with a strict `>` and the sentinel
    `(0, "")`.
  * `GetNonMostRecentFilesFromDirectory` lists the directory twice: once through the
    call above, then itself. It then filters the names of the second listing.
  * `CountLinesInFile` counts the `'\n'` bytes over the sequence of `Read` results.
* **Address-file update** (`common/statemachine/addrupdate.go`). `updateAddressFile`
  appends the clean ping results to an `OutputFile`, a byte sequence that only grows at
  its end. With `"bin"` it appends raw 16-byte records. With anything else it appends
  one text line per address, and warns unless the type is `"text"`.

Foreign calls become parameters:
* Operator prompts are a `Status` (nil or the decline error).
* The address readers are `(path, format) -> Result`.
* `GetUniqueIPs` is an opaque function on address lists.
* The entropy score is an uninterpreted `(Address, bitLength) -> real`.
* Directory deletion, model save, address write and state-file write are each a `Status`.
  A deletion that fails part-way also says whether it had already removed the state file.
* Directory listings and file reads are given as their results.
* The text form of an address is an abstract `Address -> seq<byte>`.

Two details of the code are kept as written:
* `PrepareFromInputFile` discards the error of `writeNewAddresses`
  (common/input/input.go:49). The state is therefore advanced even when the address
  write failed. `Input.AddressWriteIgnored` proves that the outcome of that write has
  no influence on the run.
* `updateAddressFile` tests the output type twice (common/statemachine/addrupdate.go:35-36).
  `!= "bin"` picks text, and `== "text"` silences the warning; the code's own TODO
  remarks on the pair. The model keeps both tests: raw bytes for exactly `"bin"`, text
  otherwise, and a warning when the type is neither `"bin"` nor `"text"`.

The state file lies under the base output directory, so wiping the workspace removes
it. `Input.PrepareFromInputFile` states what the state file holds after each kind of
run:
* NETWORK_GROUP after a successful run;
* unchanged when the run stopped before the wipe;
* absent when the run failed after a complete wipe.

## Model

| member | source | states |
|---|---|---|
| `Bytes.Newlines` | common/fs/fshelper.go:107 | the `'\n'` count of a byte string is at most its length |
| `Bytes.NewlinesIsMultiplicity` | common/fs/fshelper.go:107 | the count equals the multiplicity of `'\n'` in the bytes, an independent definition |
| `Bytes.NewlinesAppend` | common/fs/fshelper.go:105-116 | counting distributes over concatenation, so chunked counting gives the count of the whole |
| `FsHelper.NewestInvariant` | common/fs/fshelper.go:32-42 | the scan's time is non-negative and bounds every regular entry; time 0 means name ""; a positive time is that of a most-recent regular entry with that name |
| `FsHelper.NewestCharacterized` | common/fs/fshelper.go:32-43 | the result is "" iff no regular entry has a time above 0; otherwise it names a regular entry with maximal time, strictly newer than every earlier regular entry (first wins on ties) |
| `FsHelper.GetMostRecentFileFromDirectory` | common/fs/fshelper.go:23-44 | a listing error gives "" and that error; otherwise nil and the most recent regular file's name, or "" iff none is newer than the epoch; directories are never chosen |
| `FsHelper.NamesExceptSpec` | common/fs/fshelper.go:58-63 | the kept names are an order-preserving subsequence of the listing's names, holding exactly the names that differ from the excluded one |
| `FsHelper.NamesExceptLength` | common/fs/fshelper.go:58-63 | exactly the entries carrying the excluded name are dropped, so every other name appears as often as it is listed |
| `FsHelper.GetNonMostRecentFilesFromDirectory` | common/fs/fshelper.go:46-66 | empty list and the error on a failed first listing; empty list and nil when the most recent name is ""; empty list and the error on a failed second listing; otherwise every other name of the second listing, in order, and nil |
| `FsHelper.CountLinesInFile` | common/fs/fshelper.go:97-117 | -1 and the error when opening fails; otherwise the `'\n'` count of all bytes read, with nil at end of file or the read error that stopped the loop |
| `Addresses.EncodeBinary` | common/statemachine/addrupdate.go:42-46 | the raw encoding has 16 bytes per address and ends with the last address's bytes |
| `Addresses.DecodeBinary` | common/statemachine/addrupdate.go:42-46 | splitting into 16-byte records gives one record per 16 bytes |
| `Addresses.BinaryRoundTrip` | common/statemachine/addrupdate.go:42-46 | decoding the raw encoding gives back the address list, in order |
| `Addresses.TextLine` | common/statemachine/addrupdate.go:40 | a text record is non-empty and ends with `'\n'` |
| `Addresses.EncodeText` | common/statemachine/addrupdate.go:39-41 | the text encoding of a non-empty list ends with `'\n'` |
| `Addresses.EncodeTextSingleton` | common/statemachine/addrupdate.go:40 | the text encoding of one address is its rendering followed by `'\n'` |
| `Addresses.EncodeTextAppend` | common/statemachine/addrupdate.go:39-41 | the text encoding of a concatenation is the concatenation of the encodings, so the output is each address's line, in input order |
| `Addresses.TextLineCount` | common/statemachine/addrupdate.go:39-41 | with a single-line rendering, the text encoding has exactly one line per address |
| `AddrUpdate.Delivered` | common/statemachine/addrupdate.go:45-48 | what reaches the file is a prefix of the buffered bytes, and all of them when no write fails |
| `AddrUpdate.RecordsEmitted` | common/statemachine/addrupdate.go:35-47 | `"bin"` output decodes back to the addresses; any other output has one line per address |
| `AddrUpdate.TextUpdateLineCount` | common/statemachine/addrupdate.go:28-41 | a complete text append adds exactly one line per address to the file's line count |
| `AddrUpdate.UpdateAddressFile` | common/statemachine/addrupdate.go:20-53 | a fetch error is returned with the file untouched; an open error is returned with the file untouched; otherwise nil, the warning iff the type is neither "bin" nor "text", and the old contents followed by a prefix of the encoded records (all of them without write errors) |
| `Input.KeptSpec` | common/input/input.go:118-133 | the filter's output is an order-preserving subsequence of the input, holds exactly the addresses scoring below the threshold, and the removed count equals the number scoring at or above it |
| `Input.KeptAllLow` | common/input/input.go:127-129 | when every score is below the threshold, nothing is removed |
| `Input.KeptIdempotent` | common/input/input.go:118-133 | filtering twice equals filtering once |
| `Input.FilterOutHighEntropyIPs` | common/input/input.go:118-133 | the loop returns exactly the stable filter `Kept` of its input |
| `Input.Prepare` | common/input/input.go:16-56 | every run first shows the clean-up prompt |
| `Input.PrepareInOrder` | common/input/input.go:16-55 | the side effects occur in the fixed step order: clean-up prompt, read, too-few prompt, delete, model save, address write, state write; each occurs at most once |
| `Input.NoMutationBeforeGates` | common/input/input.go:18-37 | no deletion, model save, address write or state write happens unless the clean-up prompt was approved, the input loaded, and, when too few survived, the too-few prompt was approved |
| `Input.ReadFollowsApproval` | common/input/input.go:58-65 | the input is read iff the clean-up prompt was approved, and with the binary reader exactly when the type is "bin" |
| `Input.TooFewPromptIff` | common/input/input.go:32-37 | the too-few prompt is shown iff the clean-up prompt was approved, the input loaded and fewer than `InputMinAddresses` addresses survived |
| `Input.FailureStopsLaterSteps` | common/input/input.go:39-47 | a failed deletion prevents the model save; a failed model save prevents the address write and the state write |
| `Input.WriteAndAdvance` | common/input/input.go:44-55 | the surviving addresses are written and the state is set to NETWORK_GROUP together, iff every earlier step passed; the run succeeds iff, in addition, the state write succeeds, and then the last effect is the NETWORK_GROUP state write |
| `Input.AddressWriteIgnored` | common/input/input.go:49-51 | the outcome of writing the addresses changes neither the effects nor the error of a run |
| `Input.ConfirmCleanUpExisting` | common/input/input.go:107-116 | shows the clean-up prompt and returns the prompt's answer |
| `Input.GetIPsFromFile` | common/input/input.go:58-72 | reads with the binary reader exactly for "bin" and the hex reader otherwise; returns the reader's addresses or its error |
| `Input.ConfirmTooFew` | common/input/input.go:96-105 | shows the too-few prompt with the count and the minimum, and returns its answer |
| `Input.CleanUpWorkingDirectories` | common/input/input.go:142-151 | deletes under the base output directory and returns the deletion's error; a complete wipe removes the state file, and a failed one may have removed it |
| `Input.CreateBlankModel` | common/input/input.go:153-164 | saves a model named "Model from " + path and returns the save's error |
| `Input.WriteNewAddresses` | common/input/input.go:84-94 | writes the given addresses and returns the write's error |
| `Input.UpdateState` | common/input/input.go:74-82 | writes NETWORK_GROUP to the state file; the stored state changes only when the write succeeds |
| `Input.PrepareFromInputFile` | common/input/input.go:16-56 | performs exactly the side effects of `Prepare`, in order, and returns its error; the state file holds NETWORK_GROUP after success, is unchanged when the run stopped before the wipe, and is absent when the run failed after a complete wipe |
| `Input.RestartWorkspace` | common/input/input.go:38-55 | once the gates are passed: deletes the workspace, saves the blank model, writes the addresses and writes the state, stopping at the first failing step and returning its error; the state file holds NETWORK_GROUP on success, is absent when a complete wipe was followed by a failure, and after a failed wipe is absent or unchanged as the partial wipe left it |

## Left out

- Logging: every `log.Printf` is left out, including the progress lines. The progress line of `filterOutHighEntropyIPs` computes `i % InputEmitFreq`, which panics in Go when `InputEmitFreq` is 0 and the list is non-empty. That panic is not modelled.
- Foreign operations are oracles, because their bodies are not part of this model: `addressing.ReadIPsFromBinaryFile`/`ReadIPsFromHexFile`, `addressing.GetUniqueIPs`, `zrandom.GetEntropyOfBitsFromRight`, `shell.PromptForApproval`, `fs.DeleteAllFilesInDirectory`, `modeling.NewAddressModel`/`Save`, `addressing.WriteIPsToHexFile`, `statemachine.SetStateFile` and `data.GetCleanPingResults`.
- `Input.UpdateState`: a failed state write is taken to leave the stored state unchanged. This assumes `SetStateFile` writes atomically; its body is not part of this model.
- Timed file paths (`fs.GetTimedFilePath`), the clock, and the go-metrics timer in addrupdate.go are left out. They depend on time and on process-wide state. The model's events record the base directory and the model name, not the timestamped paths.
- The entropy score is a real-valued oracle. Float64 rounding and NaN comparisons are not modelled.
- Addresses are 16-byte records. A 4-byte `net.IP` form is not modelled.
- The `%s` text rendering of an address is an abstract function. Line-count results assume that it contains no `'\n'`.
- `AddrUpdate.UpdateAddressFile`: the buffered writer is modelled as one buffer flushed at the end. Write and flush failures are modelled as a short write: only a prefix lands. The intermediate flushes of `bufio` are not modelled; they give the same final contents.
- `AddrUpdate.UpdateAddressFile`: the open error, which the source checks after creating the writer, is treated simply as "open failed, return the error". Closing the file is not modelled.
- `FsHelper.CountLinesInFile`: the model assumes the reader eventually reports end of file or an error (`WellFormedReads`). In the source, a reader that does neither loops forever. The `int` count and the `int64` modification times are unbounded integers.
- `FsHelper.NamesExceptSpec`: the lemma does not fix how often a name occurs; `FsHelper.NamesExceptLength` does. `ioutil.ReadDir` returns distinct names sorted by name. "Earliest on ties" in `GetMostRecentFileFromDirectory` therefore means the alphabetically first name.
- `Input.CleanUpWorkingDirectories`: the state-file path comes from the configuration, whose code is not part of this model. The model assumes the state file lies under the base output directory. It tracks only the state file, not the other files the wipe removes.
- `ZipFiles` is not modelled: its zlib compression is a foreign library.
- `CreateDirectoryIfNotExist` is not modelled: it is a thin wrapper around `os`.
