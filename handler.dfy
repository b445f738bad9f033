/** `FileMonitorHandler` (main.py:15-100): the polling worker. Its one piece of
    state is the `file_hashes` dictionary, updated in place as files are visited. */
module Handler {
  import opened PyStr
  import opened Pipeline
  import WinPath

  class FileMonitorHandler {
    const monitoredFiles: seq<string>
    const emailList: seq<string>
    const saveFolder: string
    const frequency: int
    var fileHashes: map<string, int>

    /** Every stored path is a monitored file (main.py:22, 26, 35). */
    ghost predicate Valid()
      reads this
    {
      forall p :: p in fileHashes ==> p in monitoredFiles
    }

    function Settings(): Config {
      Config(monitoredFiles, emailList, saveFolder, frequency)
    }

    constructor (monitoredFiles: seq<string>, emailList: seq<string>, saveFolder: string, frequency: int)
      ensures Settings() == Config(monitoredFiles, emailList, saveFolder, frequency)
      ensures fileHashes == map[]
      ensures Valid()
    {
      this.monitoredFiles := monitoredFiles;
      this.emailList := emailList;
      this.saveFolder := saveFolder;
      this.frequency := frequency;
      this.fileHashes := map[];
    }

    /** The `while` loop of main.py:25-41. `stopAt` is the number of times the
        stop event is found clear; `world` gives what the foreign calls do in each
        cycle. `log` holds each cycle's verdicts. */
    method RefreshAndCheckChanges(stopAt: nat, world: World) returns (log: seq<seq<Verdict>>)
      requires Valid()
      modifies this`fileHashes
      ensures Valid()
      ensures RunState(log, fileHashes) == Run(Settings(), old(fileHashes), world, stopAt)
    {
      log := [];
      var cycles := 0;
      while !StopSet(stopAt, cycles)
        invariant cycles <= stopAt
        invariant Valid()
        invariant RunState(log, fileHashes) == Run(Settings(), old(fileHashes), world, cycles)
        decreases stopAt - cycles
      {
        var verdicts := CheckFiles(world(cycles));
        log := log + [verdicts];
        cycles := cycles + 1;
      }
    }

    /** One pass of the `for` loop of main.py:26-39 over `monitored_files`. */
    method CheckFiles(cycle: Cycle) returns (verdicts: seq<Verdict>)
      requires Valid()
      modifies this`fileHashes
      ensures Valid()
      ensures SweepState(verdicts, fileHashes) == Sweep(Settings(), old(fileHashes), cycle, |monitoredFiles|)
    {
      verdicts := [];
      for i := 0 to |monitoredFiles|
        invariant Valid()
        invariant SweepState(verdicts, fileHashes) == Sweep(Settings(), old(fileHashes), cycle, i)
      {
        var filePath := monitoredFiles[i];
        var ev := cycle(i);
        var verdict: Verdict;
        if ev.refresh == Raises {
          // refresh_excel_file raised: caught at main.py:38
          verdict := Skipped;
        } else if ev.hash == HashRaises {
          // hash_file raised: caught at main.py:38
          verdict := Skipped;
        } else {
          var currentHash := ev.hash.digest;
          if filePath !in fileHashes || fileHashes[filePath] != currentHash {
            var report := ProcessFile(filePath, ev.convert, ev.send);
            fileHashes := fileHashes[filePath := currentHash];
            verdict := Processed(report);
          } else {
            verdict := NoChange;
          }
        }
        verdicts := verdicts + [verdict];
      }
    }

    /** `process_file` (main.py:53-62): a conversion failure is swallowed and
        nothing is sent; otherwise the CSV path is derived and `send_email` runs. */
    method ProcessFile(filePath: string, convert: Outcome, send: nat -> Outcome) returns (report: Report)
      ensures report == Process(Settings(), filePath, convert, send)
      ensures report.Converted? <==> convert == Succeeds
      ensures report.Converted? ==> report.csv == WinPath.OutputCsvPath(saveFolder, filePath)
    {
      if convert == Raises {
        report := ConversionFailed;
      } else {
        var outputCsv := WinPath.OutputCsvPath(saveFolder, filePath);
        var attempts := SendEmail(outputCsv, send);
        report := Converted(outputCsv, attempts);
      }
    }

    /** `send_email` (main.py:64-96): recipients in list order, each stripped;
        one `try` around the whole loop, so the first send that raises ends it.
        `send(k)` is how the send to the recipient at position k goes. */
    method SendEmail(filePath: string, send: nat -> Outcome) returns (attempts: seq<Attempt>)
      ensures attempts == Attempts(emailList, send)
    {
      attempts := [];
      for k := 0 to |emailList|
        invariant attempts + AttemptsFrom(emailList, send, k) == Attempts(emailList, send)
      {
        var to := Strip(emailList[k]);
        if send(k) == Raises {
          attempts := attempts + [Attempt(to, Raises)];
          break;
        }
        attempts := attempts + [Attempt(to, Succeeds)];
      }
    }
  }
}
