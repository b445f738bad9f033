/** One spreadsheet, two recipients, three cycles: first sighting, no change,
    then a change. */
module Scenario {
  import opened PyStr
  import opened Pipeline
  import WinPath
  import App

  const Source: string := "C:/data/A.xlsx"

  /** Every call returns; the workbook's digest is 1, then 1 again, then 2. */
  function ScenarioWorld(): World {
    (c: nat) => (i: nat) => FileEvent(Succeeds, Hashed(if c < 2 then 1 else 2), Succeeds, (k: nat) => Succeeds)
  }

  lemma ScenarioCsvPath()
    ensures WinPath.OutputCsvPath("C:/out", Source) == "C:/out\\A.csv"
  {
    assert Source[WinPath.DriveLength(Source)..] == "/data/" + "A.xlsx";
    WinPath.TailAfterSep("/data/", "A.xlsx");
    assert WinPath.Basename(Source) == "A" + WinPath.Xlsx;
    assert !Contains("A", WinPath.Xlsx);
    WinPath.XlsxExtensionBecomesCsv("C:/out", Source, "A");
  }

  const Mailed: Verdict :=
    Processed(Converted("C:/out\\A.csv", [Attempt("a@x.com", Succeeds), Attempt("b@x.com", Succeeds)]))

  /** The form text `first,second`, with no comma inside either address, gives
      the two recipients as they are (the form text `a@x.com, b@x.com` keeps the
      blank before `b@x.com`, which `send_email` strips). */
  lemma ScenarioStart(first: string, second: string)
    requires ',' !in first && ',' !in second
    ensures App.StartMonitoring("C:/data", [Source], first + [','] + second, "C:/out", "1")
      == App.Started(ScenarioConfig(first, second))
  {
    SplitAtFirstSep(first, second, ',');
    SplitWithoutSep(second, ',');
    assert Split(first + [','] + second, ',') == [first, second];
    ParseDecimal(1);
    assert DecimalString(1) == "1";
    assert ParseInt("1") == Some(1);
  }

  lemma ScenarioAttempts(first: string, second: string, send: nat -> Outcome)
    requires first == "a@x.com" && second == " b@x.com"
    requires forall k :: send(k) == Succeeds
    ensures Attempts([first, second], send) == [Attempt("a@x.com", Succeeds), Attempt("b@x.com", Succeeds)]
  {
    StripKeepsTrimmed("a@x.com");
    assert LStrip(second) == LStrip("b@x.com");
    StripKeepsTrimmed("b@x.com");
    var rs := [first, second];
    assert AttemptsFrom(rs, send, 2) == [];
    assert AttemptsFrom(rs, send, 1) == [Attempt("b@x.com", Succeeds)];
  }

  function ScenarioConfig(first: string, second: string): Config {
    Config([Source], [first, second], "C:/out", 1)
  }

  /** A cycle in which the workbook's digest is `d` and every call returns mails
      `A.csv` to both recipients when the stored map differs from `[Source := d]`. */
  lemma MailingCycle(first: string, second: string, hashes: Hashes, c: nat, d: int)
    requires first == "a@x.com" && second == " b@x.com"
    requires ScenarioWorld()(c)(0).hash == Hashed(d)
    requires Source !in hashes || hashes[Source] != d
    ensures Sweep(ScenarioConfig(first, second), hashes, ScenarioWorld()(c), 1)
      == SweepState([Mailed], hashes[Source := d])
  {
    var cfg := ScenarioConfig(first, second);
    var ev := ScenarioWorld()(c)(0);
    ScenarioCsvPath();
    ScenarioAttempts(first, second, ev.send);
    assert Process(cfg, Source, Succeeds, ev.send) == Mailed.report;
    assert CheckFile(cfg, hashes, Source, ev) == FileStep(Mailed, hashes[Source := d]);
  }

  /** The three cycles from the settings the form produces. */
  lemma RunThreeCycles(first: string, second: string)
    requires first == "a@x.com" && second == " b@x.com"
    ensures Run(ScenarioConfig(first, second), map[], ScenarioWorld(), 3)
      == RunState([[Mailed], [NoChange], [Mailed]], map[Source := 2])
  {
    var cfg := ScenarioConfig(first, second);
    var w := ScenarioWorld();
    MailingCycle(first, second, map[], 0, 1);
    var r1 := Run(cfg, map[], w, 1);
    assert r1 == RunState([[Mailed]], map[Source := 1]);
    assert Sweep(cfg, r1.hashes, w(1), 1) == SweepState([NoChange], map[Source := 1]);
    var r2 := Run(cfg, map[], w, 2);
    assert r2 == RunState([[Mailed], [NoChange]], map[Source := 1]);
    MailingCycle(first, second, r2.hashes, 2, 2);
    assert map[Source := 1][Source := 2] == map[Source := 2];
  }

  /** Cycle 1 writes `A.csv` and mails both recipients, cycle 2 sees no change,
      cycle 3 writes and mails again; the stored digest ends as the last one. */
  lemma ThreeCycles(first: string, second: string)
    requires first == "a@x.com" && second == " b@x.com"
    ensures var start := App.StartMonitoring("C:/data", [Source], first + [','] + second, "C:/out", "1");
      && start.Started?
      && Run(start.config, map[], ScenarioWorld(), 3) == RunState([[Mailed], [NoChange], [Mailed]], map[Source := 2])
  {
    assert ',' !in first && ',' !in second;
    ScenarioStart(first, second);
    RunThreeCycles(first, second);
  }
}
