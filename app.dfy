/** `ExcelMonitorApp.start_monitoring` (main.py:166-172): how the form's inputs
    become the handler's settings, and when monitoring refuses to start. */
module App {
  import opened PyStr
  import opened Pipeline

  /** The values of the frequency drop-down (main.py:130). */
  const FrequencyChoices: seq<string> := ["1", "5", "10", "30", "60"]

  datatype StartResult =
    | Started(config: Config)   // the handler is built and its thread started
    | MissingInputs             // the message of main.py:171 is printed
    | FrequencyRaises           // `int()` raised at main.py:168

  function StartMonitoring(folderPath: string, selectedFiles: seq<string>, emailText: string,
                           saveFolder: string, frequencyText: string): StartResult
  {
    var emailList := Split(emailText, ',');
    match ParseInt(frequencyText)
    case None => FrequencyRaises
    case Some(frequency) =>
      if folderPath == [] || selectedFiles == [] || emailList == [] || saveFolder == [] then MissingInputs
      else Started(Config(selectedFiles, emailList, saveFolder, frequency))
  }

  /** Monitoring starts exactly when the frequency parses and the monitor folder,
      the selected files and the save folder are all non-empty; the e-mail text
      plays no part, because `split(',')` never gives an empty list. */
  lemma StartGuard(folderPath: string, selectedFiles: seq<string>, emailText: string,
                   saveFolder: string, frequencyText: string)
    ensures var r := StartMonitoring(folderPath, selectedFiles, emailText, saveFolder, frequencyText);
      && (r == FrequencyRaises <==> ParseInt(frequencyText).None?)
      && (r == MissingInputs <==>
            ParseInt(frequencyText).Some? && (folderPath == [] || selectedFiles == [] || saveFolder == []))
      && (r.Started? <==>
            ParseInt(frequencyText).Some? && folderPath != [] && selectedFiles != [] && saveFolder != [])
  {
  }

  /** A started handler gets the selected files, the save folder and the parsed
      frequency, and recipients that are the comma-separated pieces of the text:
      at least one, none holding a comma, and together the whole text. */
  lemma StartedConfig(folderPath: string, selectedFiles: seq<string>, emailText: string,
                      saveFolder: string, frequencyText: string)
    requires StartMonitoring(folderPath, selectedFiles, emailText, saveFolder, frequencyText).Started?
    ensures var cfg := StartMonitoring(folderPath, selectedFiles, emailText, saveFolder, frequencyText).config;
      && cfg.monitoredFiles == selectedFiles && cfg.saveFolder == saveFolder
      && Some(cfg.frequency) == ParseInt(frequencyText)
      && |cfg.emailList| >= 1
      && JoinWith(cfg.emailList, ',') == emailText
      && (forall i :: 0 <= i < |cfg.emailList| ==> ',' !in cfg.emailList[i])
  {
    SplitJoin(emailText, ',');
    SplitPiecesFree(emailText, ',');
  }

  /** Every choice the drop-down offers parses to a positive number of minutes. */
  lemma FrequencyChoicesParse()
    ensures forall i :: 0 <= i < |FrequencyChoices| ==>
      ParseInt(FrequencyChoices[i]).Some? && ParseInt(FrequencyChoices[i]).value > 0
  {
    ParseDecimal(1);
    ParseDecimal(5);
    ParseDecimal(10);
    ParseDecimal(30);
    ParseDecimal(60);
    assert DecimalString(1) == "1";
    assert DecimalString(5) == "5";
    assert DecimalString(10) == "10";
    assert DecimalString(30) == "30";
    assert DecimalString(60) == "60";
  }
}
