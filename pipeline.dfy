/** What `FileMonitorHandler` does, as functions of the outcomes of the calls it
    makes into Excel, the file system, pandas and the mail server.

    Each foreign call is reduced to whether it returns or raises; hashing, when it
    returns, yields an abstract digest. The handler's `file_hashes` dictionary is
    a `map<string, int>` from path to digest. */
module Pipeline {
  import opened PyStr
  import WinPath

  /** Whether a call into code outside the core returned or raised. */
  datatype Outcome = Succeeds | Raises

  /** The result of `hash_file`: a digest of the bytes, or an exception. */
  datatype HashOutcome = Hashed(digest: int) | HashRaises

  /** What the calls made while visiting one file in one cycle do:
      `refresh_excel_file`, `hash_file`, the pandas conversion (`read_excel` and
      `to_csv` together) and, for the recipient at position k, the send to it. */
  datatype FileEvent = FileEvent(refresh: Outcome, hash: HashOutcome, convert: Outcome, send: nat -> Outcome)

  /** The events of one cycle, by position in `monitored_files`. */
  type Cycle = nat -> FileEvent

  /** The events of a whole run, by cycle number. */
  type World = nat -> Cycle

  /** The four values the handler is built from (main.py:16-20). */
  datatype Config = Config(monitoredFiles: seq<string>, emailList: seq<string>, saveFolder: string, frequency: int)

  /** One recipient tried by `send_email`: the stripped address and how the send went. */
  datatype Attempt = Attempt(to: string, outcome: Outcome)

  /** What `process_file` did: the conversion raised, or the CSV was written and
      the recipients were tried. */
  datatype Report = ConversionFailed | Converted(csv: string, attempts: seq<Attempt>)

  /** What one visit of a file in the polling loop did. */
  datatype Verdict = Skipped | NoChange | Processed(report: Report)

  type Hashes = map<string, int>

  datatype FileStep = FileStep(verdict: Verdict, hashes: Hashes)
  datatype SweepState = SweepState(verdicts: seq<Verdict>, hashes: Hashes)
  datatype RunState = RunState(log: seq<seq<Verdict>>, hashes: Hashes)

  // ---------------------------------------------------------------------------
  // send_email (main.py:64-96)

  /** The recipients tried from position k on: one try surrounds the whole loop,
      so the first send that raises is the last one tried. */
  function AttemptsFrom(recipients: seq<string>, send: nat -> Outcome, k: nat): seq<Attempt>
    decreases |recipients| - k
  {
    if k >= |recipients| then []
    else if send(k) == Raises then [Attempt(Strip(recipients[k]), Raises)]
    else [Attempt(Strip(recipients[k]), Succeeds)] + AttemptsFrom(recipients, send, k + 1)
  }

  function Attempts(recipients: seq<string>, send: nat -> Outcome): seq<Attempt> {
    AttemptsFrom(recipients, send, 0)
  }

  // ---------------------------------------------------------------------------
  // process_file (main.py:53-62)

  /** The conversion either raises, which `process_file` swallows, or the CSV is
      written at the path of main.py:57 and handed to `send_email`, which
      swallows its own failures. */
  function Process(cfg: Config, filePath: string, convert: Outcome, send: nat -> Outcome): Report {
    if convert == Raises then ConversionFailed
    else Converted(WinPath.OutputCsvPath(cfg.saveFolder, filePath), Attempts(cfg.emailList, send))
  }

  // ---------------------------------------------------------------------------
  // refresh_and_check_changes (main.py:24-41)

  /** The test of main.py:32. */
  predicate Changed(hashes: Hashes, path: string, digest: int) {
    path !in hashes || hashes[path] != digest
  }

  /** One pass of the body of the `for` loop (main.py:27-39). */
  function CheckFile(cfg: Config, hashes: Hashes, path: string, ev: FileEvent): FileStep {
    if ev.refresh == Raises || ev.hash == HashRaises then FileStep(Skipped, hashes)
    else if Changed(hashes, path, ev.hash.digest) then
      FileStep(Processed(Process(cfg, path, ev.convert, ev.send)), hashes[path := ev.hash.digest])
    else FileStep(NoChange, hashes)
  }

  /** The first n files of one cycle, visited in list order. */
  function Sweep(cfg: Config, hashes: Hashes, cycle: Cycle, n: nat): (r: SweepState)
    requires n <= |cfg.monitoredFiles|
    ensures |r.verdicts| == n
    decreases n
  {
    if n == 0 then SweepState([], hashes)
    else
      var before := Sweep(cfg, hashes, cycle, n - 1);
      var step := CheckFile(cfg, before.hashes, cfg.monitoredFiles[n - 1], cycle(n - 1));
      SweepState(before.verdicts + [step.verdict], step.hashes)
  }

  /** The stop event is set once and never cleared, and it is read only at the top
      of the `while` loop (main.py:25): `stopAt` is the number of reads that find
      it clear. */
  predicate StopSet(stopAt: nat, checks: nat) {
    checks >= stopAt
  }

  /** The first `cycles` cycles of the `while` loop. */
  function Run(cfg: Config, hashes: Hashes, world: World, cycles: nat): RunState
    decreases cycles
  {
    if cycles == 0 then RunState([], hashes)
    else
      var before := Run(cfg, hashes, world, cycles - 1);
      var sweep := Sweep(cfg, before.hashes, world(cycles - 1), |cfg.monitoredFiles|);
      RunState(before.log + [sweep.verdicts], sweep.hashes)
  }

  predicate NoDuplicates(files: seq<string>) {
    forall a, b :: 0 <= a < b < |files| ==> files[a] != files[b]
  }

  // ---------------------------------------------------------------------------
  // Recipients

  /** Recipients are tried in list order under their stripped address, every one
      before the last succeeded, and the list is left early only because the last
      one tried raised. */
  lemma AttemptsFromInOrder(recipients: seq<string>, send: nat -> Outcome, k: nat)
    requires k <= |recipients|
    ensures |AttemptsFrom(recipients, send, k)| <= |recipients| - k
    ensures forall j :: 0 <= j < |AttemptsFrom(recipients, send, k)| ==>
      AttemptsFrom(recipients, send, k)[j] == Attempt(Strip(recipients[k + j]), send(k + j))
    ensures forall j :: 0 <= j < |AttemptsFrom(recipients, send, k)| - 1 ==>
      AttemptsFrom(recipients, send, k)[j].outcome == Succeeds
    ensures |AttemptsFrom(recipients, send, k)| < |recipients| - k ==>
      var a := AttemptsFrom(recipients, send, k); |a| > 0 && a[|a| - 1].outcome == Raises
  {
    AttemptsFromEntries(recipients, send, k);
    AttemptsFromSucceedBeforeLast(recipients, send, k);
    AttemptsFromEndOnRaise(recipients, send, k);
  }

  /** The j-th attempt from position k is the recipient at k + j, stripped. */
  lemma {:induction false} AttemptsFromEntries(recipients: seq<string>, send: nat -> Outcome, k: nat)
    requires k <= |recipients|
    ensures |AttemptsFrom(recipients, send, k)| <= |recipients| - k
    ensures forall j :: 0 <= j < |AttemptsFrom(recipients, send, k)| ==>
      AttemptsFrom(recipients, send, k)[j] == Attempt(Strip(recipients[k + j]), send(k + j))
    decreases |recipients| - k
  {
    if k < |recipients| && send(k) == Succeeds {
      AttemptsFromEntries(recipients, send, k + 1);
      var a := AttemptsFrom(recipients, send, k);
      var rest := AttemptsFrom(recipients, send, k + 1);
      assert a == [Attempt(Strip(recipients[k]), Succeeds)] + rest;
      forall j | 0 <= j < |a| ensures a[j] == Attempt(Strip(recipients[k + j]), send(k + j)) {
        if j > 0 {
          var i := j - 1;
          assert a[j] == rest[i];
          assert k + j == (k + 1) + i;
        }
      }
    }
  }

  /** Every attempt before the last one succeeded. */
  lemma {:induction false} AttemptsFromSucceedBeforeLast(recipients: seq<string>, send: nat -> Outcome, k: nat)
    ensures forall j :: 0 <= j < |AttemptsFrom(recipients, send, k)| - 1 ==>
      AttemptsFrom(recipients, send, k)[j].outcome == Succeeds
    decreases |recipients| - k
  {
    if k < |recipients| && send(k) == Succeeds {
      AttemptsFromSucceedBeforeLast(recipients, send, k + 1);
      var a := AttemptsFrom(recipients, send, k);
      var rest := AttemptsFrom(recipients, send, k + 1);
      assert a == [Attempt(Strip(recipients[k]), Succeeds)] + rest;
      forall j | 0 <= j < |a| - 1 ensures a[j].outcome == Succeeds {
        if j > 0 {
          assert a[j] == rest[j - 1];
        }
      }
    }
  }

  /** Stopping before the end of the list means the last attempt raised. */
  lemma {:induction false} AttemptsFromEndOnRaise(recipients: seq<string>, send: nat -> Outcome, k: nat)
    requires k <= |recipients|
    ensures |AttemptsFrom(recipients, send, k)| < |recipients| - k ==>
      var a := AttemptsFrom(recipients, send, k); |a| > 0 && a[|a| - 1].outcome == Raises
    decreases |recipients| - k
  {
    if k < |recipients| && send(k) == Succeeds {
      AttemptsFromEndOnRaise(recipients, send, k + 1);
      var a := AttemptsFrom(recipients, send, k);
      var rest := AttemptsFrom(recipients, send, k + 1);
      assert a == [Attempt(Strip(recipients[k]), Succeeds)] + rest;
      if 0 < |rest| {
        assert a[|a| - 1] == rest[|rest| - 1];
      }
    }
  }

  lemma AttemptsInOrder(recipients: seq<string>, send: nat -> Outcome)
    ensures |Attempts(recipients, send)| <= |recipients|
    ensures forall j :: 0 <= j < |Attempts(recipients, send)| ==>
      Attempts(recipients, send)[j] == Attempt(Strip(recipients[j]), send(j))
    ensures forall j :: 0 <= j < |Attempts(recipients, send)| - 1 ==>
      Attempts(recipients, send)[j].outcome == Succeeds
    ensures |Attempts(recipients, send)| < |recipients| ==>
      var a := Attempts(recipients, send); |a| > 0 && a[|a| - 1].outcome == Raises
  {
    AttemptsFromEntries(recipients, send, 0);
    AttemptsFromSucceedBeforeLast(recipients, send, 0);
    AttemptsFromEndOnRaise(recipients, send, 0);
  }


  /** A failed send abandons every later recipient. */
  lemma NoRecipientAfterFailure(recipients: seq<string>, send: nat -> Outcome, k: nat)
    requires k < |recipients| && send(k) == Raises
    ensures |Attempts(recipients, send)| <= k + 1
  {
    var a := Attempts(recipients, send);
    AttemptsInOrder(recipients, send);
    assert k < |a| ==> a[k].outcome == Raises;
  }

  /** When no send raises, every recipient is tried. */
  lemma AllRecipientsTriedWithoutFailure(recipients: seq<string>, send: nat -> Outcome)
    requires forall k :: 0 <= k < |recipients| ==> send(k) == Succeeds
    ensures |Attempts(recipients, send)| == |recipients|
  {
    AttemptsInOrder(recipients, send);
  }

  // ---------------------------------------------------------------------------
  // One file

  /** A path with no stored hash is processed and its hash recorded (main.py:32-35). */
  lemma FirstSighting(cfg: Config, hashes: Hashes, path: string, ev: FileEvent)
    requires path !in hashes
    requires ev.refresh == Succeeds && ev.hash.Hashed?
    ensures CheckFile(cfg, hashes, path, ev) ==
      FileStep(Processed(Process(cfg, path, ev.convert, ev.send)), hashes[path := ev.hash.digest])
  {
  }

  /** A file whose digest equals the stored one is neither processed nor
      re-recorded (main.py:32, 36-37). */
  lemma UnchangedFile(cfg: Config, hashes: Hashes, path: string, ev: FileEvent)
    requires path in hashes
    requires ev.refresh == Succeeds && ev.hash == Hashed(hashes[path])
    ensures CheckFile(cfg, hashes, path, ev) == FileStep(NoChange, hashes)
  {
  }

  /** Once refresh and hashing return, the digest is stored whatever the conversion
      and the sends did, and the file is processed exactly when it changed. */
  lemma HashRecordedDespiteFailures(cfg: Config, hashes: Hashes, path: string, ev: FileEvent)
    requires ev.refresh == Succeeds && ev.hash.Hashed?
    ensures CheckFile(cfg, hashes, path, ev).hashes == hashes[path := ev.hash.digest]
    ensures CheckFile(cfg, hashes, path, ev).verdict.Processed? <==> Changed(hashes, path, ev.hash.digest)
  {
  }

  /** A file whose refresh or hashing raises is skipped and its entry kept
      (main.py:27-39). */
  lemma SkippedFile(cfg: Config, hashes: Hashes, path: string, ev: FileEvent)
    ensures CheckFile(cfg, hashes, path, ev).verdict == Skipped <==> ev.refresh == Raises || ev.hash == HashRaises
    ensures CheckFile(cfg, hashes, path, ev).verdict == Skipped ==> CheckFile(cfg, hashes, path, ev).hashes == hashes
  {
  }

  /** Visiting a file touches no other path's entry. */
  lemma CheckFileTouchesOnlyItsPath(cfg: Config, hashes: Hashes, path: string, ev: FileEvent, q: string)
    ensures var after := CheckFile(cfg, hashes, path, ev).hashes;
      q != path ==> (q in after <==> q in hashes) && (q in hashes ==> after[q] == hashes[q])
    ensures CheckFile(cfg, hashes, path, ev).hashes.Keys <= hashes.Keys + {path}
  {
  }

  // ---------------------------------------------------------------------------
  // One cycle

  /** Every file of the list is visited, in order, whatever happened to the files
      before it: the verdict at position j is that of visiting file j with the
      hashes left by the files before it. */
  lemma {:induction false} SweepVerdictAt(cfg: Config, hashes: Hashes, cycle: Cycle, n: nat, j: nat)
    requires j < n <= |cfg.monitoredFiles|
    ensures Sweep(cfg, hashes, cycle, n).verdicts[j] ==
      CheckFile(cfg, Sweep(cfg, hashes, cycle, j).hashes, cfg.monitoredFiles[j], cycle(j)).verdict
    decreases n
  {
    if j < n - 1 {
      SweepVerdictAt(cfg, hashes, cycle, n - 1, j);
      assert Sweep(cfg, hashes, cycle, n).verdicts[j] == Sweep(cfg, hashes, cycle, n - 1).verdicts[j];
    }
  }

  /** A cycle only adds keys that are monitored files. */
  lemma {:induction false} SweepKeysWithin(cfg: Config, hashes: Hashes, cycle: Cycle, n: nat)
    requires n <= |cfg.monitoredFiles|
    ensures forall p :: p in Sweep(cfg, hashes, cycle, n).hashes ==> p in hashes || p in cfg.monitoredFiles[..n]
    decreases n
  {
    if n > 0 {
      SweepKeysWithin(cfg, hashes, cycle, n - 1);
      var files := cfg.monitoredFiles;
      var before := Sweep(cfg, hashes, cycle, n - 1);
      CheckFileTouchesOnlyItsPath(cfg, before.hashes, files[n - 1], cycle(n - 1), files[n - 1]);
      assert files[..n] == files[..n - 1] + [files[n - 1]];
    }
  }

  /** The entry of a path that does not occur among positions j..n-1 is the same
      after n files as after j files. */
  lemma {:induction false} SweepLeavesOthers(cfg: Config, hashes: Hashes, cycle: Cycle, j: nat, n: nat, q: string)
    requires j <= n <= |cfg.monitoredFiles|
    requires q !in cfg.monitoredFiles[j..n]
    ensures var a := Sweep(cfg, hashes, cycle, j).hashes;
      var b := Sweep(cfg, hashes, cycle, n).hashes;
      (q in b <==> q in a) && (q in a ==> b[q] == a[q])
    decreases n
  {
    if j < n {
      var files := cfg.monitoredFiles;
      assert files[j..n - 1] <= files[j..n];
      assert files[n - 1] == files[j..n][n - 1 - j];
      SweepLeavesOthers(cfg, hashes, cycle, j, n - 1, q);
      CheckFileTouchesOnlyItsPath(cfg, Sweep(cfg, hashes, cycle, n - 1).hashes, files[n - 1], cycle(n - 1), q);
    }
  }

  /** A file whose refresh and hashing return has that digest stored at the end
      of the cycle, unless a later position holds the same path again. */
  lemma SweepRecords(cfg: Config, hashes: Hashes, cycle: Cycle, i: nat)
    requires i < |cfg.monitoredFiles|
    requires cfg.monitoredFiles[i] !in cfg.monitoredFiles[i + 1..]
    requires cycle(i).refresh == Succeeds && cycle(i).hash.Hashed?
    ensures var after := Sweep(cfg, hashes, cycle, |cfg.monitoredFiles|).hashes;
      cfg.monitoredFiles[i] in after && after[cfg.monitoredFiles[i]] == cycle(i).hash.digest
  {
    var files := cfg.monitoredFiles;
    HashRecordedDespiteFailures(cfg, Sweep(cfg, hashes, cycle, i).hashes, files[i], cycle(i));
    SweepLeavesOthers(cfg, hashes, cycle, i + 1, |files|, files[i]);
  }

  /** A monitored file seen for the first time is processed: nothing stored for it
      before the cycle and no earlier position holding it. */
  lemma FirstSightingInCycle(cfg: Config, hashes: Hashes, cycle: Cycle, i: nat)
    requires i < |cfg.monitoredFiles|
    requires cfg.monitoredFiles[i] !in hashes && cfg.monitoredFiles[i] !in cfg.monitoredFiles[..i]
    requires cycle(i).refresh == Succeeds && cycle(i).hash.Hashed?
    ensures Sweep(cfg, hashes, cycle, |cfg.monitoredFiles|).verdicts[i] ==
      Processed(Process(cfg, cfg.monitoredFiles[i], cycle(i).convert, cycle(i).send))
  {
    var files := cfg.monitoredFiles;
    SweepVerdictAt(cfg, hashes, cycle, |files|, i);
    SweepLeavesOthers(cfg, hashes, cycle, 0, i, files[i]);
    assert files[0..i] == files[..i];
  }

  /** A file whose digest is the same in two consecutive cycles is neither
      converted nor mailed in the second cycle: its visit gives `NoChange`. */
  lemma UnchangedNextCycle(cfg: Config, hashes: Hashes, first: Cycle, second: Cycle, i: nat)
    requires NoDuplicates(cfg.monitoredFiles)
    requires i < |cfg.monitoredFiles|
    requires first(i).refresh == Succeeds && first(i).hash.Hashed?
    requires second(i).refresh == Succeeds && second(i).hash == first(i).hash
    ensures var between := Sweep(cfg, hashes, first, |cfg.monitoredFiles|).hashes;
      Sweep(cfg, between, second, |cfg.monitoredFiles|).verdicts[i] == NoChange
  {
    var files := cfg.monitoredFiles;
    var between := Sweep(cfg, hashes, first, |files|).hashes;
    assert files[i] !in files[i + 1..] by {
      forall k | i + 1 <= k < |files| ensures files[k] != files[i] {
      }
    }
    assert files[i] !in files[0..i] by {
      forall k | 0 <= k < i ensures files[k] != files[i] {
      }
    }
    SweepRecords(cfg, hashes, first, i);
    SweepVerdictAt(cfg, between, second, |files|, i);
    SweepLeavesOthers(cfg, between, second, 0, i, files[i]);
    UnchangedFile(cfg, Sweep(cfg, between, second, i).hashes, files[i], second(i));
  }

  // ---------------------------------------------------------------------------
  // The run

  /** If the stored paths start among the monitored files, they stay there. */
  lemma {:induction false} RunKeysWithin(cfg: Config, hashes: Hashes, world: World, cycles: nat)
    requires forall p :: p in hashes ==> p in cfg.monitoredFiles
    ensures forall p :: p in Run(cfg, hashes, world, cycles).hashes ==> p in cfg.monitoredFiles
    ensures |Run(cfg, hashes, world, cycles).log| == cycles
    decreases cycles
  {
    if cycles > 0 {
      RunKeysWithin(cfg, hashes, world, cycles - 1);
      var before := Run(cfg, hashes, world, cycles - 1);
      var files := cfg.monitoredFiles;
      SweepKeysWithin(cfg, before.hashes, world(cycles - 1), |files|);
      assert files[..|files|] == files;
    }
  }
}
