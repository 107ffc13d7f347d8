/**
 * Directory-listing selection and line counting of the file-system helper
 * package.  A directory listing (`ioutil.ReadDir`) is an oracle result: a
 * sequence of entries in listing order, or an error.  An open file is read
 * as the finite sequence of results its `Read` calls return.
 */
module FsHelper {
  import opened Errors
  import opened Bytes
  import opened Sequences

  /** Names in a directory listing are never empty. */
  type FileName = s: string | s != [] witness "f"

  /** One directory entry: its name, whether it is a regular file, and its Unix modification time. */
  datatype FileInfo = FileInfo(name: FileName, isRegular: bool, modTime: int)

  /** The loop state (newestTime, newestFile) of the most-recent scan. */
  datatype Candidate = Candidate(time: int, name: string)

  /**
   * The candidate after scanning `files` from the sentinel (0, ""): a regular
   * entry replaces the candidate only when its time is strictly greater.
   */
  function Newest(files: seq<FileInfo>): Candidate
  {
    if files == [] then Candidate(0, "")
    else
      var c, f := Newest(files[..|files| - 1]), files[|files| - 1];
      if f.isRegular && f.modTime > c.time then Candidate(f.modTime, f.name) else c
  }

  /**
   * Entry `k` is the most recent regular file: its time is positive and maximal
   * among regular entries, and every earlier regular entry is strictly older.
   */
  ghost predicate IsNewest(files: seq<FileInfo>, k: int)
  {
    && 0 <= k < |files|
    && files[k].isRegular
    && files[k].modTime > 0
    && (forall j :: 0 <= j < |files| && files[j].isRegular ==> files[j].modTime <= files[k].modTime)
    && (forall j :: 0 <= j < k && files[j].isRegular ==> files[j].modTime < files[k].modTime)
  }

  /** No regular entry was modified after the epoch. */
  ghost predicate NoneAfterEpoch(files: seq<FileInfo>)
  {
    forall j :: 0 <= j < |files| && files[j].isRegular ==> files[j].modTime <= 0
  }

  lemma {:induction false} NewestInvariant(files: seq<FileInfo>)
    ensures Newest(files).time >= 0
    ensures forall j :: 0 <= j < |files| && files[j].isRegular ==> files[j].modTime <= Newest(files).time
    ensures Newest(files).time == 0 ==> Newest(files).name == ""
    ensures Newest(files).time > 0 ==>
      exists k :: IsNewest(files, k) && files[k].name == Newest(files).name && files[k].modTime == Newest(files).time
  {
    if files != [] {
      var init, f := files[..|files| - 1], files[|files| - 1];
      var c := Newest(init);
      NewestInvariant(init);
      assert forall j :: 0 <= j < |init| ==> files[j] == init[j];
      if f.isRegular && f.modTime > c.time {
        assert IsNewest(files, |files| - 1);
      } else if c.time > 0 {
        var k :| IsNewest(init, k) && init[k].name == c.name && init[k].modTime == c.time;
        assert IsNewest(files, k);
      }
    }
  }

  /**
   * The scan yields "" exactly when no regular entry is newer than the epoch,
   * and otherwise the name of the most recent regular entry (earliest on ties).
   */
  lemma NewestCharacterized(files: seq<FileInfo>)
    ensures Newest(files).name == "" <==> NoneAfterEpoch(files)
    ensures Newest(files).name != "" ==> exists k :: IsNewest(files, k) && files[k].name == Newest(files).name
  {
    NewestInvariant(files);
    if Newest(files).time > 0 {
      var k :| IsNewest(files, k) && files[k].name == Newest(files).name && files[k].modTime == Newest(files).time;
      assert !NoneAfterEpoch(files);
    }
  }

  /** GetMostRecentFileFromDirectory: the name of the most recently modified regular file, or "". */
  method GetMostRecentFileFromDirectory(listing: Result<seq<FileInfo>>) returns (newestFile: string, err: Status)
    ensures listing.Failure? ==> newestFile == "" && err == Failed(listing.error)
    ensures listing.Success? ==> err == Ok && newestFile == Newest(listing.value).name
    ensures listing.Success? ==> (newestFile == "" <==> NoneAfterEpoch(listing.value))
    ensures listing.Success? && newestFile != "" ==>
      exists k :: IsNewest(listing.value, k) && listing.value[k].name == newestFile
  {
    if listing.Failure? {
      return "", Failed(listing.error);
    }
    var files := listing.value;
    newestFile := "";
    var newestTime := 0;
    for i := 0 to |files|
      invariant Candidate(newestTime, newestFile) == Newest(files[..i])
    {
      assert files[..i + 1][..i] == files[..i];
      var fi := files[i];
      if fi.isRegular {
        var curTime := fi.modTime;
        if curTime > newestTime {
          newestTime := curTime;
          newestFile := fi.name;
        }
      }
    }
    assert files[..|files|] == files;
    NewestCharacterized(files);
    err := Ok;
  }

  /** The names of all entries, in listing order. */
  function Names(files: seq<FileInfo>): (names: seq<FileName>)
    ensures |names| == |files|
  {
    if files == [] then [] else Names(files[..|files| - 1]) + [files[|files| - 1].name]
  }

  /** The names of the entries, in listing order, that differ from `excluded`. */
  function NamesExcept(files: seq<FileInfo>, excluded: string): seq<FileName>
  {
    if files == [] then []
    else
      var name := files[|files| - 1].name;
      NamesExcept(files[..|files| - 1], excluded) + (if name != excluded then [name] else [])
  }

  /**
   * The kept names are an order-preserving subsequence of the listing's names,
   * and a name is kept exactly when it is listed and is not the excluded one.
   */
  lemma {:induction false} NamesExceptSpec(files: seq<FileInfo>, excluded: string)
    ensures IsSubsequence(NamesExcept(files, excluded), Names(files))
    ensures forall n :: n in NamesExcept(files, excluded) <==> n in Names(files) && n != excluded
  {
    if files != [] {
      var init, name := files[..|files| - 1], files[|files| - 1].name;
      var kept, all := NamesExcept(init, excluded), Names(init);
      NamesExceptSpec(init, excluded);
      assert Names(files) == all + [name];
      if name != excluded {
        assert (kept + [name])[..|kept|] == kept;
        assert (all + [name])[..|all|] == all;
      } else {
        assert kept + [] == kept;
        assert (all + [name])[..|all|] == all;
        assert kept != [] ==> kept[|kept| - 1] in kept;
      }
    }
  }

  /** Exactly the entries carrying the excluded name are dropped, so no name is lost or repeated. */
  lemma {:induction false} NamesExceptLength(files: seq<FileInfo>, excluded: string)
    ensures |NamesExcept(files, excluded)| == |files| - multiset(Names(files))[excluded]
  {
    if files != [] {
      var init, name := files[..|files| - 1], files[|files| - 1].name;
      NamesExceptLength(init, excluded);
      assert multiset(Names(files)) == multiset(Names(init)) + multiset{name};
    }
  }

  /**
   * GetNonMostRecentFilesFromDirectory: every entry name other than the most
   * recent regular file's.  The source lists the directory twice (once inside
   * GetMostRecentFileFromDirectory, once itself): `first` and `second` are the
   * two listings.
   */
  method GetNonMostRecentFilesFromDirectory(first: Result<seq<FileInfo>>, second: Result<seq<FileInfo>>)
    returns (toReturn: seq<string>, err: Status)
    ensures first.Failure? ==> toReturn == [] && err == Failed(first.error)
    ensures first.Success? && Newest(first.value).name == "" ==> toReturn == [] && err == Ok
    ensures first.Success? && Newest(first.value).name != "" && second.Failure? ==>
      toReturn == [] && err == Failed(second.error)
    ensures first.Success? && Newest(first.value).name != "" && second.Success? ==>
      toReturn == NamesExcept(second.value, Newest(first.value).name) && err == Ok
  {
    toReturn := [];
    var recentFile;
    recentFile, err := GetMostRecentFileFromDirectory(first);
    if err.Failed? || recentFile == "" {
      return;
    }
    if second.Failure? {
      return toReturn, Failed(second.error);
    }
    var files := second.value;
    for i := 0 to |files|
      invariant toReturn == NamesExcept(files[..i], recentFile)
    {
      assert files[..i + 1][..i] == files[..i];
      var name := files[i].name;
      if name != recentFile {
        toReturn := toReturn + [name];
      }
    }
    assert files[..|files|] == files;
  }

  /** The size of the read buffer: `Read` never returns more bytes than this. */
  const BUFFER_SIZE: nat := 32 * 1024

  /** What a `Read` call reports besides its bytes: more to come, end of file, or an error. */
  datatype ReadStatus = More | Eof | ReadFailed(error: Error)

  /** One `Read` call: the bytes placed in the buffer and the status returned with them. */
  datatype ReadCall = ReadCall(data: seq<byte>, status: ReadStatus)

  /**
   * The reads of one file until it stops: every call fits the buffer, every call
   * but the last reports more data, and the last reports end of file or an error.
   */
  ghost predicate WellFormedReads(calls: seq<ReadCall>)
  {
    && |calls| > 0
    && (forall i :: 0 <= i < |calls| ==> |calls[i].data| <= BUFFER_SIZE)
    && (forall i :: 0 <= i < |calls| - 1 ==> calls[i].status.More?)
    && !calls[|calls| - 1].status.More?
  }

  /** The bytes the calls delivered, concatenated in order. */
  function BytesRead(calls: seq<ReadCall>): seq<byte>
  {
    if calls == [] then [] else BytesRead(calls[..|calls| - 1]) + calls[|calls| - 1].data
  }

  /**
   * CountLinesInFile: -1 and the error when the file cannot be opened;
   * otherwise the number of '\n' bytes in everything read, however it was
   * chunked, with nil at end of file or the read error that stopped it.
   */
  method CountLinesInFile(openResult: Status, calls: seq<ReadCall>) returns (count: int, err: Status)
    requires openResult.Ok? ==> WellFormedReads(calls)
    ensures openResult.Failed? ==> count == -1 && err == openResult
    ensures openResult.Ok? ==> count == Newlines(BytesRead(calls))
    ensures openResult.Ok? ==> match calls[|calls| - 1].status
                           case ReadFailed(e) => err == Failed(e)
                           case _ => err == Ok
  {
    if openResult.Failed? {
      return -1, openResult;
    }
    count := 0;
    var i := 0;
    while true
      invariant 0 <= i < |calls|
      invariant count == Newlines(BytesRead(calls[..i]))
      decreases |calls| - i
    {
      var c := calls[i].data;
      assert calls[..i + 1][..i] == calls[..i];
      NewlinesAppend(BytesRead(calls[..i]), c);
      count := count + Newlines(c);
      match calls[i].status {
        case Eof =>
          assert calls[..i + 1] == calls;
          return count, Ok;
        case ReadFailed(e) =>
          assert calls[..i + 1] == calls;
          return count, Failed(e);
        case More =>
          i := i + 1;
      }
    }
  }
}
