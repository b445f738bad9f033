/** `os.path` as it behaves on Windows (the `ntpath` flavour; the monitor only
    runs there) for the two calls the output-path rule makes: `basename` and
    `join` of a folder with a bare file name, and the rule itself. */
module WinPath {
  import opened PyStr

  const Xlsx: string := ".xlsx"
  const Csv: string := ".csv"

  /** Both slashes separate path components on Windows. */
  predicate IsSep(c: char) {
    c == '/' || c == '\\'
  }

  predicate NoSep(s: string) {
    forall k :: 0 <= k < |s| ==> !IsSep(s[k])
  }

  /** A file name as Windows allows it: no separator and no drive colon. */
  predicate IsPlainName(s: string) {
    forall k :: 0 <= k < |s| ==> !IsSep(s[k]) && s[k] != ':'
  }

  /** Length of the drive prefix `X:` that `splitdrive` takes off. */
  function DriveLength(p: string): nat {
    if |p| >= 2 && p[1] == ':' then 2 else 0
  }

  /** The component after the last separator. */
  function Tail(p: string): string
    decreases |p|
  {
    if |p| == 0 || IsSep(p[|p| - 1]) then [] else Tail(p[..|p| - 1]) + [p[|p| - 1]]
  }

  /** `os.path.basename(p)`. */
  function Basename(p: string): string {
    Tail(p[DriveLength(p)..])
  }

  /** `os.path.join(folder, name)` for a name that is neither absolute nor has a
      drive: a backslash is put in between unless the folder, past its drive, is
      empty or already ends with a separator. */
  function Join(folder: string, name: string): string {
    var rest := folder[DriveLength(folder)..];
    if rest != [] && !IsSep(rest[|rest| - 1]) then folder + "\\" + name else folder + name
  }

  /** The CSV path of main.py:57: the source's basename with every `.xlsx`
      replaced by `.csv`, inside the save folder. */
  function OutputCsvPath(saveFolder: string, filePath: string): string {
    Join(saveFolder, ReplaceAll(Basename(filePath), Xlsx, Csv))
  }

  // ---------------------------------------------------------------------------
  // basename and join

  /** The tail is exactly what follows the last separator: a suffix with no
      separator, preceded by a separator or by nothing. */
  lemma {:induction false} TailSpec(p: string)
    ensures |Tail(p)| <= |p| && Tail(p) == p[|p| - |Tail(p)|..]
    ensures NoSep(Tail(p))
    ensures |Tail(p)| == |p| || IsSep(p[|p| - |Tail(p)| - 1])
    decreases |p|
  {
    if |p| > 0 && !IsSep(p[|p| - 1]) {
      var q := p[..|p| - 1];
      var c := p[|p| - 1];
      TailSpec(q);
      var tq := Tail(q);
      var i := |q| - |tq|;
      assert Tail(p) == tq + [c];
      assert p[i..] == q[i..] + [c] by {
        assert p == q + [c];
      }
      assert NoSep(tq + [c]) by {
        forall m | 0 <= m < |tq| + 1 ensures !IsSep((tq + [c])[m]) {
          if m < |tq| {
            assert (tq + [c])[m] == tq[m];
          }
        }
      }
      if i > 0 {
        assert p[i - 1] == q[i - 1];
      }
    }
  }



  /** A separator-free name after a folder that ends at a separator is the tail. */
  lemma {:induction false} TailAfterSep(u: string, name: string)
    requires u == [] || IsSep(u[|u| - 1])
    requires NoSep(name)
    ensures Tail(u + name) == name
    decreases |name|
  {
    if name == [] {
      assert u + name == u;
    } else {
      var init := name[..|name| - 1];
      assert (u + name)[..|u + name| - 1] == u + init;
      TailAfterSep(u, init);
      assert name == init + [name[|name| - 1]];
    }
  }

  /** Joining a plain name to a folder and taking the basename gives the name back. */
  lemma BasenameOfJoin(folder: string, name: string)
    requires IsPlainName(name)
    ensures Basename(Join(folder, name)) == name
  {
    var j := Join(folder, name);
    var d := DriveLength(folder);
    var rest := folder[d..];
    if rest != [] && !IsSep(rest[|rest| - 1]) {
      var u := folder + "\\";
      assert j == u + name;
      assert DriveLength(j) == d;
      assert j[d..] == rest + "\\" + name;
      TailAfterSep(rest + "\\", name);
    } else if folder == [] {
      assert j == name;
      TailAfterSep([], name);
    } else {
      assert j == folder + name;
      assert DriveLength(j) == d;
      assert j[d..] == rest + name;
      TailAfterSep(rest, name);
    }
  }

  /** The joined path begins with the folder. */
  lemma JoinExtendsFolder(folder: string, name: string)
    ensures StartsWith(Join(folder, name), folder)
  {
    var j := Join(folder, name);
    assert j[..|folder|] == folder;
  }

  // ---------------------------------------------------------------------------
  // the output path rule

  /** `replace` of `.xlsx` by `.csv` keeps a plain name plain. */
  lemma {:induction false} ReplaceKeepsPlain(s: string)
    requires IsPlainName(s)
    ensures IsPlainName(ReplaceAll(s, Xlsx, Csv))
    decreases |s|
  {
    if s != [] {
      if StartsWith(s, Xlsx) {
        ReplaceKeepsPlain(s[|Xlsx|..]);
      } else {
        ReplaceKeepsPlain(s[1..]);
      }
    }
  }

  /** The CSV file lands in the save folder and is named by the source basename
      with `.xlsx` replaced. */
  lemma OutputPathInSaveFolder(saveFolder: string, filePath: string)
    requires IsPlainName(Basename(filePath))
    ensures StartsWith(OutputCsvPath(saveFolder, filePath), saveFolder)
    ensures Basename(OutputCsvPath(saveFolder, filePath)) == ReplaceAll(Basename(filePath), Xlsx, Csv)
  {
    var name := ReplaceAll(Basename(filePath), Xlsx, Csv);
    ReplaceKeepsPlain(Basename(filePath));
    BasenameOfJoin(saveFolder, name);
    JoinExtendsFolder(saveFolder, name);
  }

  /** A basename that holds no `.xlsx` is kept unchanged. */
  lemma NameWithoutXlsxKept(saveFolder: string, filePath: string)
    requires !Contains(Basename(filePath), Xlsx)
    ensures OutputCsvPath(saveFolder, filePath) == Join(saveFolder, Basename(filePath))
  {
    ReplaceAbsent(Basename(filePath), Xlsx, Csv);
  }

  /** A basename ending in `.xlsx` gets `.csv` in its place; with no other
      `.xlsx` in the stem, the CSV is named `<stem>.csv`. */
  lemma XlsxExtensionBecomesCsv(saveFolder: string, filePath: string, stem: string)
    requires Basename(filePath) == stem + Xlsx
    ensures OutputCsvPath(saveFolder, filePath) == Join(saveFolder, ReplaceAll(stem, Xlsx, Csv) + Csv)
    ensures !Contains(stem, Xlsx) ==> OutputCsvPath(saveFolder, filePath) == Join(saveFolder, stem + Csv)
  {
    assert Xlsx[0] !in Xlsx[1..];
    ReplaceAppended(stem, Xlsx, Csv);
    if !Contains(stem, Xlsx) {
      ReplaceAbsent(stem, Xlsx, Csv);
    }
  }

  /** No `.xlsx` survives in the CSV's name: `.csv` cannot start a new one and
      every occurrence in the source name is replaced. */
  lemma {:induction false} ReplacedNameHasNoXlsx(s: string)
    ensures !Contains(ReplaceAll(s, Xlsx, Csv), Xlsx)
    decreases |s|
  {
    if s != [] {
      if StartsWith(s, Xlsx) {
        var t := ReplaceAll(s[|Xlsx|..], Xlsx, Csv);
        ReplacedNameHasNoXlsx(s[|Xlsx|..]);
        assert ReplaceAll(s, Xlsx, Csv) == Csv + t;
        CsvStartsNoXlsx(t);
      } else {
        var t := ReplaceAll(s[1..], Xlsx, Csv);
        ReplacedNameHasNoXlsx(s[1..]);
        var r := [s[0]] + t;
        assert ReplaceAll(s, Xlsx, Csv) == r && r[1..] == t;
        KeptCharStartsNoXlsx(s, t);
      }
    }
  }

  /** The `.csv` written for a replaced occurrence does not start a new `.xlsx`. */
  lemma CsvStartsNoXlsx(t: string)
    requires !Contains(t, Xlsx)
    ensures !Contains(Csv + t, Xlsx)
  {
    var r := Csv + t;
    PrefixAddsNoOccurrence("csv", t, Xlsx);
    assert r[1..] == "csv" + t;
    if |r| >= 5 {
      assert r[..5][1] == 'c' && Xlsx[1] == 'x';
    }
  }

  /** A character kept by the replacement does not start a `.xlsx`: a `.`
      followed by a replaced text starting `xlsx` means the source started
      `.xlsx` there, and that occurrence would have been replaced. */
  lemma {:induction false} KeptCharStartsNoXlsx(s: string, t: string)
    requires s != [] && !StartsWith(s, Xlsx)
    requires t == ReplaceAll(s[1..], Xlsx, Csv)
    ensures !StartsWith([s[0]] + t, Xlsx)
  {
    var r := [s[0]] + t;
    if StartsWith(r, Xlsx) {
      assert r[..5] == [s[0]] + t[..4];
      assert r[..5][0] == s[0] && r[..5][1..] == t[..4];
      assert Xlsx[0] == '.' && Xlsx[1..] == "xlsx";
      assert StartsWith(t, "xlsx");
      ReplacedPrefix(s[1..], "xlsx", Xlsx, Csv);
      assert false;
    }
  }


  lemma OutputNameHasNoXlsx(saveFolder: string, filePath: string)
    requires IsPlainName(Basename(filePath))
    ensures !Contains(Basename(OutputCsvPath(saveFolder, filePath)), Xlsx)
  {
    OutputPathInSaveFolder(saveFolder, filePath);
    ReplacedNameHasNoXlsx(Basename(filePath));
  }

  /** A source sitting in the save folder under a name without `.xlsx` (for
      instance `REPORT.XLSX`) gets the CSV written over itself. */
  lemma CsvOverwritesSourceWithoutXlsx(saveFolder: string, name: string)
    requires IsPlainName(name) && !Contains(name, Xlsx)
    ensures OutputCsvPath(saveFolder, Join(saveFolder, name)) == Join(saveFolder, name)
  {
    BasenameOfJoin(saveFolder, name);
    NameWithoutXlsxKept(saveFolder, Join(saveFolder, name));
  }

  /** The file dialog spells a source in the save folder with `/`: its CSV path
      names the same file with `\` in place of that one separator. */
  lemma CsvBesideSlashSource(saveFolder: string, name: string)
    requires IsPlainName(name) && !Contains(name, Xlsx)
    requires var rest := saveFolder[DriveLength(saveFolder)..]; rest != [] && !IsSep(rest[|rest| - 1])
    ensures OutputCsvPath(saveFolder, saveFolder + "/" + name) == saveFolder + "\\" + name
    ensures OutputCsvPath(saveFolder, saveFolder + "/" + name) != saveFolder + "/" + name
  {
    var src := saveFolder + "/" + name;
    var d := DriveLength(saveFolder);
    assert DriveLength(src) == d;
    assert src[d..] == (saveFolder[d..] + "/") + name;
    TailAfterSep(saveFolder[d..] + "/", name);
    NameWithoutXlsxKept(saveFolder, src);
    assert (saveFolder + "\\" + name)[|saveFolder|] != src[|saveFolder|];
  }
}
