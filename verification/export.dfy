/** `saveCsvToFile`: nothing to do for an empty store; otherwise the CSV text
    of all rows is written to a new file named after the export time. The
    clock and the write itself are inputs: `millis` is
    `System.currentTimeMillis()` and `write` says whether resolving the
    directory and writing the file went through or threw. */
module Export {
  import opened Options
  import opened JvmInt
  import opened Decimal
  import opened Rows
  import opened Csv
  import opened Files

  /** The shape of `"scans_" + digits + ".csv"`. */
  lemma NameParts(digits: string)
    requires '.' !in digits
    ensures var name := "scans_" + digits + ".csv";
      && name[..6] == "scans_" && name[|name| - 4..] == ".csv"
      && name[6..|name| - 4] == digits
      && Extension(name) == "csv"
  {
    var name := "scans_" + digits + ".csv";
    assert name == ("scans_" + digits) + "." + "csv";
    ExtensionAfterLastDot("scans_" + digits, "csv");
  }

  /** `"scans_${millis}.csv"`: the prefix, the decimal time, the `.csv`
      extension; the time reads back from the middle of the name. */
  function ExportFileName(millis: Int64): (name: string)
    ensures |name| > 10 && name[..6] == "scans_" && name[|name| - 4..] == ".csv"
    ensures ParseInt(name[6..|name| - 4]) == Some(millis as int)
    ensures Extension(name) == "csv"
  {
    var digits := IntToString(millis as int);
    IntToStringChars(millis as int);
    NameParts(digits);
    IntToStringRoundTrip(millis as int);
    "scans_" + digits + ".csv"
  }

  /** Exports at different milliseconds never produce the same file name. */
  lemma ExportFileNamesDistinct(m1: Int64, m2: Int64)
    requires m1 != m2
    ensures ExportFileName(m1) != ExportFileName(m2)
  {
  }

  /** What the file system did with the write. */
  datatype WriteOutcome = Written | WriteFailed(message: string)

  datatype WrittenFile = WrittenFile(name: string, content: string)

  /** `NothingToSave` is the "No scans to save" message; `SaveFailed` the
      caught exception. */
  datatype SaveResult = NothingToSave | Saved(file: WrittenFile) | SaveFailed(message: string)

  function SaveCsv(scans: seq<ScanRow>, millis: Int64, write: WriteOutcome): (r: SaveResult)
    ensures r == NothingToSave <==> scans == []
    ensures r.Saved? <==> scans != [] && write == Written
    ensures scans != [] && write.WriteFailed? ==> r == SaveFailed(write.message)
    ensures r.Saved? ==> r.file.name == ExportFileName(millis) && Extension(r.file.name) == "csv"
    ensures r.Saved? ==> r.file.content == CsvText(scans)
    ensures r.Saved? && AllFieldsAvoid(scans, ',') && AllFieldsAvoid(scans, '\n') ==>
              ParseCsv(r.file.content) == Some(scans)
  {
    if scans == [] then NothingToSave
    else
      var content := CsvText(scans);
      match write
      case Written =>
        assert AllFieldsAvoid(scans, ',') && AllFieldsAvoid(scans, '\n') ==> ParseCsv(content) == Some(scans) by {
          if AllFieldsAvoid(scans, '\n') { CsvRoundTrip(scans); }
        }
        Saved(WrittenFile(ExportFileName(millis), content))
      case WriteFailed(message) => SaveFailed(message)
  }
}
