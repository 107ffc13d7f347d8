/**
 * The intake orchestrator: starting a fresh run from an operator-supplied
 * address file.  Prompts, file readers, deduplication, the entropy score and
 * every write to the workspace are foreign calls; their outcomes come from an
 * `Env` of oracles.  The workspace records every side effect performed, in
 * order, so that ordering and "no mutation before the gates" can be stated.
 */
module Input {
  import opened Errors
  import opened Addresses
  import opened Sequences
  import opened Config

  /** The reader chosen for the input file. */
  datatype InputFormat = BinaryFormat | HexFormat

  /**
   * The pipeline's state file: absent, or the state it holds.  The state file
   * lies under the base output directory, so wiping the workspace removes it.
   * The states other than NETWORK_GROUP are not distinguished here.
   */
  datatype State = NoStateFile | NetworkGroup | OtherState(name: string)

  /** A side effect on the terminal or the file system, in the order performed. */
  datatype Event =
    | CleanUpPrompt(inputFilePath: string)          // asks whether existing state may be wiped
    | InputRead(inputFilePath: string, format: InputFormat)
    | TooFewPrompt(count: nat, minimum: int)        // asks whether to go on with few addresses
    | WorkspaceDeleted(baseDirectory: string)       // every regular file under the base directory
    | ModelSaved(name: string)                      // a blank statistical model
    | AddressesWritten(addrs: seq<Address>)         // hex file in the ping-results directory
    | StateWritten(state: State)

  /** The outcomes of the foreign calls of one run. */
  datatype Env = Env(
    cleanUpAnswer: Status,                                  // PromptForApproval, clean-up prompt
    readFile: (string, InputFormat) -> Result<seq<Address>>,
    uniqueIPs: seq<Address> -> seq<Address>,                // GetUniqueIPs
    entropyOf: (Address, int) -> real,                      // entropy of the rightmost bits
    tooFewAnswer: Status,                                   // PromptForApproval, too-few prompt
    deletion: Status,                                       // DeleteAllFilesInDirectory
    partialWipeRemovedState: bool,                          // a wipe that failed part-way had removed the state file
    modelSave: Status,                                      // saving the blank model
    addressWrite: Status,                                   // WriteIPsToHexFile
    stateWrite: Status)                                     // SetStateFile

  /** The file-system and terminal state a run acts on. */
  class Workspace {
    var events: seq<Event>  // side effects performed so far, oldest first
    var state: State        // contents of the state file

    constructor (state: State)
      ensures events == [] && this.state == state
    {
      events := [];
      this.state := state;
    }

    /** Records a side effect performed. */
    method Perform(e: Event)
      modifies this
      ensures events == old(events) + [e] && state == old(state)
    {
      events := events + [e];
    }

    /** The state file is deleted. */
    method RemoveStateFile()
      modifies this
      ensures state == NoStateFile && events == old(events)
    {
      state := NoStateFile;
    }

    /** The state file now holds `s`. */
    method StoreState(s: State)
      modifies this
      ensures state == s && events == old(events)
    {
      state := s;
    }
  }

  /** getIPsFromFile's dispatch: the binary reader exactly for "bin", the hex reader otherwise. */
  function FormatFor(fileType: string): (f: InputFormat)
  {
    if fileType == "bin" then BinaryFormat else HexFormat
  }

  // ---------------------------------------------------------------- filtering

  /** An address survives the filter when its score is strictly below the threshold. */
  predicate LowEntropy(a: Address, conf: Configuration, entropyOf: (Address, int) -> real)
  {
    entropyOf(a, conf.inputEntropyBitLength) < conf.inputEntropyThreshold
  }

  /** The addresses that survive the filter, in input order. */
  function Kept(ips: seq<Address>, conf: Configuration, entropyOf: (Address, int) -> real): seq<Address>
  {
    if ips == [] then []
    else
      var last := ips[|ips| - 1];
      Kept(ips[..|ips| - 1], conf, entropyOf) + (if LowEntropy(last, conf, entropyOf) then [last] else [])
  }

  /** The number of addresses scoring at or above the threshold. */
  function HighEntropyCount(ips: seq<Address>, conf: Configuration, entropyOf: (Address, int) -> real): nat
  {
    if ips == [] then 0
    else
      HighEntropyCount(ips[..|ips| - 1], conf, entropyOf)
        + (if LowEntropy(ips[|ips| - 1], conf, entropyOf) then 0 else 1)
  }

  /**
   * The filter's output is an order-preserving subsequence of its input that
   * holds exactly the low-entropy addresses, and it is shorter by exactly the
   * number of high-entropy ones (the "removed" count it logs).
   */
  lemma {:induction false} KeptSpec(ips: seq<Address>, conf: Configuration, entropyOf: (Address, int) -> real)
    ensures IsSubsequence(Kept(ips, conf, entropyOf), ips)
    ensures forall a :: a in Kept(ips, conf, entropyOf) <==> a in ips && LowEntropy(a, conf, entropyOf)
    ensures |ips| - |Kept(ips, conf, entropyOf)| == HighEntropyCount(ips, conf, entropyOf)
  {
    if ips != [] {
      var init, last := ips[..|ips| - 1], ips[|ips| - 1];
      var kept := Kept(init, conf, entropyOf);
      KeptSpec(init, conf, entropyOf);
      assert ips == init + [last];
      if LowEntropy(last, conf, entropyOf) {
        assert (kept + [last])[..|kept|] == kept;
      } else {
        assert kept + [] == kept;
        assert kept != [] ==> kept[|kept| - 1] in kept;
      }
    }
  }

  /** With every score below the threshold (an unbounded threshold, say) nothing is removed. */
  lemma {:induction false} KeptAllLow(ips: seq<Address>, conf: Configuration, entropyOf: (Address, int) -> real)
    requires forall i :: 0 <= i < |ips| ==> LowEntropy(ips[i], conf, entropyOf)
    ensures Kept(ips, conf, entropyOf) == ips
  {
    if ips != [] {
      KeptAllLow(ips[..|ips| - 1], conf, entropyOf);
    }
  }

  /** Filtering a filtered list changes nothing. */
  lemma KeptIdempotent(ips: seq<Address>, conf: Configuration, entropyOf: (Address, int) -> real)
    ensures Kept(Kept(ips, conf, entropyOf), conf, entropyOf) == Kept(ips, conf, entropyOf)
  {
    var kept := Kept(ips, conf, entropyOf);
    KeptSpec(ips, conf, entropyOf);
    forall i | 0 <= i < |kept| ensures LowEntropy(kept[i], conf, entropyOf) {
      assert kept[i] in kept;
    }
    KeptAllLow(kept, conf, entropyOf);
  }

  /** filterOutHighEntropyIPs: keeps, in order, the addresses scoring strictly below the threshold. */
  method FilterOutHighEntropyIPs(ips: seq<Address>, conf: Configuration, entropyOf: (Address, int) -> real)
    returns (toReturn: seq<Address>)
    ensures toReturn == Kept(ips, conf, entropyOf)
  {
    toReturn := [];
    for i := 0 to |ips|
      invariant toReturn == Kept(ips[..i], conf, entropyOf)
    {
      assert ips[..i + 1][..i] == ips[..i];
      var ip := ips[i];
      var entropy := entropyOf(ip, conf.inputEntropyBitLength);
      if entropy < conf.inputEntropyThreshold {
        toReturn := toReturn + [ip];
      }
    }
    assert ips[..|ips|] == ips;
  }

  // ------------------------------------------------------------ the whole run

  /** The name the blank model is given. */
  function ModelName(inputFilePath: string): string
  {
    "Model from " + inputFilePath
  }

  /** The addresses that reach the workspace: deduplicated, then filtered. */
  function Survivors(loaded: seq<Address>, conf: Configuration, env: Env): seq<Address>
  {
    Kept(env.uniqueIPs(loaded), conf, env.entropyOf)
  }

  /** What a run did and what it returned. */
  datatype Outcome = Outcome(events: seq<Event>, err: Status)

  /** The position of each kind of side effect in the fixed sequence of steps. */
  function Step(e: Event): nat
  {
    match e
    case CleanUpPrompt(_) => 0
    case InputRead(_, _) => 1
    case TooFewPrompt(_, _) => 2
    case WorkspaceDeleted(_) => 3
    case ModelSaved(_) => 4
    case AddressesWritten(_) => 5
    case StateWritten(_) => 6
  }

  /** Side effects that change the file system. */
  predicate Mutates(e: Event)
  {
    e.WorkspaceDeleted? || e.ModelSaved? || e.AddressesWritten? || e.StateWritten?
  }

  /** Every step happens at most once and in the fixed order. */
  ghost predicate InStepOrder(events: seq<Event>)
  {
    forall i, j :: 0 <= i < j < |events| ==> Step(events[i]) < Step(events[j])
  }

  /** The input file as the reader chosen by `fileType` returned it. */
  function Loaded(inputFilePath: string, fileType: string, env: Env): Result<seq<Address>>
  {
    env.readFile(inputFilePath, FormatFor(fileType))
  }

  /** The too-few prompt is due: the input loaded and fewer addresses than the minimum survived. */
  ghost predicate TooFew(inputFilePath: string, fileType: string, conf: Configuration, env: Env)
  {
    && Loaded(inputFilePath, fileType, env).Success?
    && |Survivors(Loaded(inputFilePath, fileType, env).value, conf, env)| < conf.inputMinAddresses
  }

  /** Both confirmation gates passed and the input loaded. */
  ghost predicate GatesPassed(inputFilePath: string, fileType: string, conf: Configuration, env: Env)
  {
    && env.cleanUpAnswer.Ok?
    && Loaded(inputFilePath, fileType, env).Success?
    && (TooFew(inputFilePath, fileType, conf, env) ==> env.tooFewAnswer.Ok?)
  }

  /**
   * PrepareFromInputFile as a function of the oracles: the side effects it
   * performs and the error it returns.  The error of writeNewAddresses is
   * discarded, so the state file is written whatever that write returned.
   */
  function Prepare(inputFilePath: string, fileType: string, conf: Configuration, env: Env): (r: Outcome)
    ensures |r.events| > 0 && r.events[0] == CleanUpPrompt(inputFilePath)
  {
    var format := FormatFor(fileType);
    var prompt := CleanUpPrompt(inputFilePath);
    if env.cleanUpAnswer.Failed? then
      Outcome([prompt], env.cleanUpAnswer)
    else
      var loaded := env.readFile(inputFilePath, format);
      var read := InputRead(inputFilePath, format);
      if loaded.Failure? then
        Outcome([prompt, read], Failed(loaded.error))
      else
        var addrs := Survivors(loaded.value, conf, env);
        var min := conf.inputMinAddresses;
        var gates := if |addrs| < min then [prompt, read, TooFewPrompt(|addrs|, min)] else [prompt, read];
        if |addrs| < min && env.tooFewAnswer.Failed? then
          Outcome(gates, env.tooFewAnswer)
        else
          var rest := Restart(inputFilePath, conf, env, addrs);
          Outcome(gates + rest.events, rest.err)
  }

  /** The part of Prepare after the gates: wipe, blank model, address write, state write. */
  function Restart(inputFilePath: string, conf: Configuration, env: Env, addrs: seq<Address>): Outcome
  {
    var deleted := WorkspaceDeleted(conf.baseOutputDirectory);
    var saved := ModelSaved(ModelName(inputFilePath));
    if env.deletion.Failed? then
      Outcome([deleted], env.deletion)
    else if env.modelSave.Failed? then
      Outcome([deleted, saved], env.modelSave)
    else
      Outcome([deleted, saved, AddressesWritten(addrs), StateWritten(NetworkGroup)], env.stateWrite)
  }

  /** The steps run in the fixed order, each at most once. */
  lemma PrepareInOrder(inputFilePath: string, fileType: string, conf: Configuration, env: Env)
    ensures InStepOrder(Prepare(inputFilePath, fileType, conf, env).events)
  {
    var loaded := Loaded(inputFilePath, fileType, env);
    if env.cleanUpAnswer.Ok? && loaded.Success? {
      var addrs := Survivors(loaded.value, conf, env);
      var min := conf.inputMinAddresses;
      var prompt, read := CleanUpPrompt(inputFilePath), InputRead(inputFilePath, FormatFor(fileType));
      var gates := if |addrs| < min then [prompt, read, TooFewPrompt(|addrs|, min)] else [prompt, read];
      assert InStepOrder(gates) && forall e :: e in gates ==> Step(e) < 3;
      if !(|addrs| < min && env.tooFewAnswer.Failed?) {
        var rest := Restart(inputFilePath, conf, env, addrs).events;
        RestartInOrder(inputFilePath, conf, env, addrs);
        InStepOrderConcat(gates, rest, 3);
        assert Prepare(inputFilePath, fileType, conf, env).events == gates + rest;
      }
    }
  }

  lemma RestartInOrder(inputFilePath: string, conf: Configuration, env: Env, addrs: seq<Address>)
    ensures InStepOrder(Restart(inputFilePath, conf, env, addrs).events)
    ensures forall e :: e in Restart(inputFilePath, conf, env, addrs).events ==> Step(e) >= 3
  {
  }

  /** Two runs in step order, the first wholly before the second, make one run in step order. */
  lemma InStepOrderConcat(a: seq<Event>, b: seq<Event>, k: nat)
    requires InStepOrder(a) && InStepOrder(b)
    requires forall e :: e in a ==> Step(e) < k
    requires forall e :: e in b ==> Step(e) >= k
    ensures InStepOrder(a + b)
  {
    forall i, j | 0 <= i < j < |a + b|
      ensures Step((a + b)[i]) < Step((a + b)[j])
    {
      if j < |a| {
        assert (a + b)[i] == a[i] && (a + b)[j] == a[j];
      } else if i >= |a| {
        assert (a + b)[i] == b[i - |a|] && (a + b)[j] == b[j - |a|];
      } else {
        assert (a + b)[i] == a[i] && a[i] in a;
        assert (a + b)[j] == b[j - |a|] && b[j - |a|] in b;
      }
    }
  }

  /** Nothing on the file system changes unless both gates passed and the input loaded. */
  lemma NoMutationBeforeGates(inputFilePath: string, fileType: string, conf: Configuration, env: Env)
    ensures forall e :: e in Prepare(inputFilePath, fileType, conf, env).events && Mutates(e) ==>
      GatesPassed(inputFilePath, fileType, conf, env)
  {
  }

  /** The input is read with the binary reader exactly for "bin", and only after the clean-up prompt was approved. */
  lemma ReadFollowsApproval(inputFilePath: string, fileType: string, conf: Configuration, env: Env)
    ensures InputRead(inputFilePath, FormatFor(fileType)) in Prepare(inputFilePath, fileType, conf, env).events
      <==> env.cleanUpAnswer.Ok?
    ensures forall e :: e in Prepare(inputFilePath, fileType, conf, env).events && e.InputRead? ==>
      (e.format == BinaryFormat <==> fileType == "bin")
  {
  }

  /** The too-few prompt is shown exactly when, after clean-up approval, fewer addresses than the minimum survive. */
  lemma TooFewPromptIff(inputFilePath: string, fileType: string, conf: Configuration, env: Env)
    ensures (exists e :: e in Prepare(inputFilePath, fileType, conf, env).events && e.TooFewPrompt?) <==>
      env.cleanUpAnswer.Ok? && TooFew(inputFilePath, fileType, conf, env)
  {
    var r := Prepare(inputFilePath, fileType, conf, env);
    if env.cleanUpAnswer.Ok? && TooFew(inputFilePath, fileType, conf, env) {
      assert r.events[2].TooFewPrompt?;
    }
  }

  /**
   * A failed step stops every later one: no model is saved after a failed
   * deletion, and nothing is written after a failed model save.
   */
  lemma FailureStopsLaterSteps(inputFilePath: string, fileType: string, conf: Configuration, env: Env)
    ensures forall e :: e in Prepare(inputFilePath, fileType, conf, env).events && e.ModelSaved? ==>
      env.deletion.Ok?
    ensures forall e :: e in Prepare(inputFilePath, fileType, conf, env).events && (e.AddressesWritten? || e.StateWritten?) ==>
      env.deletion.Ok? && env.modelSave.Ok?
  {
  }

  /**
   * The surviving addresses are written and the state file is set to
   * NETWORK_GROUP together, exactly when every earlier step succeeded; the run reports
   * success exactly when the state write succeeds as well.
   */
  lemma WriteAndAdvance(inputFilePath: string, fileType: string, conf: Configuration, env: Env)
    ensures var r := Prepare(inputFilePath, fileType, conf, env);
      && (StateWritten(NetworkGroup) in r.events <==>
            GatesPassed(inputFilePath, fileType, conf, env) && env.deletion.Ok? && env.modelSave.Ok?)
      && (StateWritten(NetworkGroup) in r.events <==> exists e :: e in r.events && e.AddressesWritten?)
      && (forall e :: e in r.events && e.AddressesWritten? ==>
            && Loaded(inputFilePath, fileType, env).Success?
            && e.addrs == Survivors(Loaded(inputFilePath, fileType, env).value, conf, env))
      && (r.err.Ok? <==>
            GatesPassed(inputFilePath, fileType, conf, env) && env.deletion.Ok? && env.modelSave.Ok? && env.stateWrite.Ok?)
      && (r.err.Ok? ==> r.events[|r.events| - 1] == StateWritten(NetworkGroup))
  {
    var r := Prepare(inputFilePath, fileType, conf, env);
    if StateWritten(NetworkGroup) in r.events {
      var written := AddressesWritten(Survivors(Loaded(inputFilePath, fileType, env).value, conf, env));
      assert r.events[|r.events| - 2] == written;
    }
  }

  /** The outcome of writing the addresses has no bearing on the run. */
  lemma AddressWriteIgnored(inputFilePath: string, fileType: string, conf: Configuration, env: Env, s: Status)
    ensures Prepare(inputFilePath, fileType, conf, env.(addressWrite := s)) == Prepare(inputFilePath, fileType, conf, env)
  {
  }

  // ------------------------------------------------------- the imperative run

  /** confirmCleanUpExisting: asks whether all existing state may be cleaned up. */
  method ConfirmCleanUpExisting(ws: Workspace, inputFilePath: string, env: Env) returns (err: Status)
    modifies ws
    ensures ws.events == old(ws.events) + [CleanUpPrompt(inputFilePath)] && ws.state == old(ws.state)
    ensures err == env.cleanUpAnswer
  {
    ws.Perform(CleanUpPrompt(inputFilePath));
    err := env.cleanUpAnswer;
  }

  /** getIPsFromFile: reads with the binary reader for "bin" and with the hex reader otherwise. */
  method GetIPsFromFile(ws: Workspace, inputFilePath: string, inputFileType: string, env: Env)
    returns (toReturn: seq<Address>, err: Status)
    modifies ws
    ensures ws.events == old(ws.events) + [InputRead(inputFilePath, FormatFor(inputFileType))]
    ensures ws.state == old(ws.state)
    ensures inputFileType == "bin" ==> ws.events[|ws.events| - 1].format == BinaryFormat
    ensures inputFileType != "bin" ==> ws.events[|ws.events| - 1].format == HexFormat
    ensures match env.readFile(inputFilePath, FormatFor(inputFileType))
            case Success(ips) => err == Ok && toReturn == ips
            case Failure(e) => err == Failed(e)
  {
    var format;
    if inputFileType == "bin" {
      format := BinaryFormat;
    } else {
      format := HexFormat;
    }
    var read := env.readFile(inputFilePath, format);
    ws.Perform(InputRead(inputFilePath, format));
    match read {
      case Success(ips) => toReturn, err := ips, Ok;
      case Failure(e) => toReturn, err := [], Failed(e);
    }
  }

  /** confirmTooFew: asks whether to go on with only `count` addresses. */
  method ConfirmTooFew(ws: Workspace, count: nat, conf: Configuration, env: Env) returns (err: Status)
    modifies ws
    ensures ws.events == old(ws.events) + [TooFewPrompt(count, conf.inputMinAddresses)] && ws.state == old(ws.state)
    ensures err == env.tooFewAnswer
  {
    ws.Perform(TooFewPrompt(count, conf.inputMinAddresses));
    err := env.tooFewAnswer;
  }

  /**
   * cleanUpWorkingDirectories: deletes every regular file under the base
   * output directory, the state file among them.  A deletion that fails
   * part-way may or may not have reached the state file.
   */
  method CleanUpWorkingDirectories(ws: Workspace, conf: Configuration, env: Env) returns (err: Status)
    modifies ws
    ensures ws.events == old(ws.events) + [WorkspaceDeleted(conf.baseOutputDirectory)]
    ensures env.deletion.Ok? ==> ws.state == NoStateFile
    ensures env.deletion.Failed? ==> ws.state == if env.partialWipeRemovedState then NoStateFile else old(ws.state)
    ensures err == env.deletion
  {
    ws.Perform(WorkspaceDeleted(conf.baseOutputDirectory));
    if env.deletion.Ok? || env.partialWipeRemovedState {
      ws.RemoveStateFile();
    }
    err := env.deletion;
  }

  /** createBlankModel: saves an empty model named after the input file. */
  method CreateBlankModel(ws: Workspace, inputFilePath: string, env: Env) returns (err: Status)
    modifies ws
    ensures ws.events == old(ws.events) + [ModelSaved(ModelName(inputFilePath))] && ws.state == old(ws.state)
    ensures err == env.modelSave
  {
    ws.Perform(ModelSaved(ModelName(inputFilePath)));
    err := env.modelSave;
  }

  /** writeNewAddresses: writes the addresses as a hex file into the ping-results directory. */
  method WriteNewAddresses(ws: Workspace, toWrite: seq<Address>, env: Env) returns (err: Status)
    modifies ws
    ensures ws.events == old(ws.events) + [AddressesWritten(toWrite)] && ws.state == old(ws.state)
    ensures err == env.addressWrite
  {
    ws.Perform(AddressesWritten(toWrite));
    err := env.addressWrite;
  }

  /** updateState: sets the state file to NETWORK_GROUP; a failed write leaves the file as it was. */
  method UpdateState(ws: Workspace, env: Env) returns (err: Status)
    modifies ws
    ensures ws.events == old(ws.events) + [StateWritten(NetworkGroup)]
    ensures ws.state == if env.stateWrite.Ok? then NetworkGroup else old(ws.state)
    ensures err == env.stateWrite
  {
    ws.Perform(StateWritten(NetworkGroup));
    if env.stateWrite.Ok? {
      ws.StoreState(NetworkGroup);
    }
    err := env.stateWrite;
  }

  /**
   * PrepareFromInputFile: performs exactly the side effects of `Prepare`, in
   * its order, and returns its error.  The state file holds NETWORK_GROUP
   * exactly when the run succeeds; a run that stops before the wipe leaves it
   * as it was; a run that fails after a complete wipe leaves no state file.
   */
  method PrepareFromInputFile(ws: Workspace, inputFilePath: string, fileType: string, conf: Configuration, env: Env)
    returns (err: Status)
    modifies ws
    ensures ws.events == old(ws.events) + Prepare(inputFilePath, fileType, conf, env).events
    ensures err == Prepare(inputFilePath, fileType, conf, env).err
    ensures err.Ok? ==> ws.state == NetworkGroup
    ensures WorkspaceDeleted(conf.baseOutputDirectory) !in Prepare(inputFilePath, fileType, conf, env).events ==>
      ws.state == old(ws.state)
    ensures WorkspaceDeleted(conf.baseOutputDirectory) in Prepare(inputFilePath, fileType, conf, env).events ==>
      if env.deletion.Ok? then err.Failed? ==> ws.state == NoStateFile
      else ws.state == if env.partialWipeRemovedState then NoStateFile else old(ws.state)
  {
    ghost var r := Prepare(inputFilePath, fileType, conf, env);
    ghost var wipe := WorkspaceDeleted(conf.baseOutputDirectory);
    err := ConfirmCleanUpExisting(ws, inputFilePath, env);
    if err.Failed? {
      assert r.events == [CleanUpPrompt(inputFilePath)];
      return;
    }
    var addrs;
    addrs, err := GetIPsFromFile(ws, inputFilePath, fileType, env);
    if err.Failed? {
      assert r.events == [CleanUpPrompt(inputFilePath), InputRead(inputFilePath, FormatFor(fileType))];
      return;
    }
    addrs := env.uniqueIPs(addrs);
    addrs := FilterOutHighEntropyIPs(addrs, conf, env.entropyOf);
    assert addrs == Survivors(Loaded(inputFilePath, fileType, env).value, conf, env);
    ghost var gates := ws.events[|old(ws.events)|..];
    if |addrs| < conf.inputMinAddresses {
      err := ConfirmTooFew(ws, |addrs|, conf, env);
      gates := ws.events[|old(ws.events)|..];
      if err.Failed? {
        assert r.events == gates && wipe !in gates;
        return;
      }
    }
    assert wipe !in gates;
    err := RestartWorkspace(ws, inputFilePath, conf, env, addrs);
  }

  /**
   * Lines 38-55 of PrepareFromInputFile: once the gates are passed, the workspace is
   * wiped, a blank model saved, the addresses written and the state advanced.
   */
  method RestartWorkspace(ws: Workspace, inputFilePath: string, conf: Configuration, env: Env, addrs: seq<Address>)
    returns (err: Status)
    modifies ws
    ensures ws.events == old(ws.events) + Restart(inputFilePath, conf, env, addrs).events
    ensures err == Restart(inputFilePath, conf, env, addrs).err
    ensures err.Ok? ==> ws.state == NetworkGroup
    ensures env.deletion.Ok? && err.Failed? ==> ws.state == NoStateFile
    ensures env.deletion.Failed? ==> ws.state == if env.partialWipeRemovedState then NoStateFile else old(ws.state)
  {
    err := CleanUpWorkingDirectories(ws, conf, env);
    if err.Failed? {
      return;
    }
    err := CreateBlankModel(ws, inputFilePath, env);
    if err.Failed? {
      return;
    }
    var ignored := WriteNewAddresses(ws, addrs, env);
    err := UpdateState(ws, env);
  }
}
