/** `shareLatestCsv`: find the most recently modified `.csv` file in the app's
    external files directory and hand it to the share sheet. The directory
    and its listing are inputs; the share intent itself is left to the OS. */
module Share {
  import opened Options
  import opened JvmInt
  import opened Files
  import opened Export

  /** `getExternalFilesDir(null)`: `Unavailable` when it returns null.
      `listing` is `listFiles`, which itself may return null. */
  datatype Storage = Unavailable | Available(listing: Option<seq<FileEntry>>)

  /** The three ends of the handler: the two messages and the shared file. */
  datatype ShareResult = StorageUnavailable | NoExportFound | Shared(file: FileEntry)

  /** The file filter `f.extension == "csv"`. */
  predicate IsCsv(f: FileEntry)
  {
    Extension(f.name) == "csv"
  }

  /** The filtered listing, in listing order. */
  function CsvFiles(files: seq<FileEntry>): (r: seq<FileEntry>)
    ensures |r| <= |files|
    ensures forall f :: f in r <==> f in files && IsCsv(f)
  {
    if |files| == 0 then []
    else
      var rest := CsvFiles(files[1..]);
      assert forall f :: f in files <==> f == files[0] || f in files[1..];
      if IsCsv(files[0]) then [files[0]] + rest else rest
  }

  /** The candidates `shareLatestCsv` chooses among: a null listing counts
      as empty (`?: arrayOf()`). */
  function Candidates(listing: Option<seq<FileEntry>>): (r: seq<FileEntry>)
    ensures listing.None? ==> r == []
    ensures forall f :: f in r <==> listing.Some? && f in listing.value && IsCsv(f)
  {
    CsvFiles(listing.GetOr([]))
  }

  /** `f` is one of `files` and no file in `files` was modified later. */
  predicate IsLatest(f: FileEntry, files: seq<FileEntry>)
  {
    f in files && forall g :: g in files ==> g.lastModified <= f.lastModified
  }

  /** Kotlin `maxByOrNull { it.lastModified() }` on a non-empty array: the
      position of the first entry with the greatest time. */
  method MaxByLastModified(files: seq<FileEntry>) returns (k: nat)
    requires |files| > 0
    ensures k < |files|
    ensures forall j :: 0 <= j < |files| ==> files[j].lastModified <= files[k].lastModified
    ensures forall j :: 0 <= j < k ==> files[j].lastModified < files[k].lastModified
  {
    k := 0;
    var maxValue := files[0].lastModified;
    var i := 1;
    while i < |files|
      invariant 1 <= i <= |files|
      invariant k < i && maxValue == files[k].lastModified
      invariant forall j :: 0 <= j < i ==> files[j].lastModified <= maxValue
      invariant forall j :: 0 <= j < k ==> files[j].lastModified < maxValue
    {
      var v := files[i].lastModified;
      if maxValue < v {
        k := i;
        maxValue := v;
      }
      i := i + 1;
    }
  }

  /** The handler's decision: no directory, no `.csv` file, or the most
      recently modified `.csv` file. */
  method ShareLatestCsv(storage: Storage) returns (r: ShareResult)
    ensures storage.Unavailable? <==> r == StorageUnavailable
    ensures r == NoExportFound <==> storage.Available? && Candidates(storage.listing) == []
    ensures r.Shared? ==> storage.Available? && IsLatest(r.file, Candidates(storage.listing))
  {
    if storage.Unavailable? {
      return StorageUnavailable;
    }
    var files := Candidates(storage.listing);
    if |files| == 0 {
      return NoExportFound;
    }
    var k := MaxByLastModified(files);
    r := Shared(files[k]);
  }

  /** Every file an export writes passes the filter: a listing that holds
      one is never "No CSV found", and the file chosen is at least as recent. */
  lemma ExportedFileIsCandidate(files: seq<FileEntry>, e: FileEntry, millis: Int64)
    requires e in files && e.name == ExportFileName(millis)
    ensures e in CsvFiles(files)
    ensures forall f :: IsLatest(f, CsvFiles(files)) ==> e.lastModified <= f.lastModified
  {
  }

  /** Of two `.csv` files in the listing (every export is one, by
      `ExportedFileIsCandidate`), the one modified earlier is never chosen,
      and whatever file is chosen is no older than the later one. */
  lemma LaterExportWins(files: seq<FileEntry>, chosen: FileEntry, e1: FileEntry, e2: FileEntry)
    requires e1 in files && IsCsv(e1)
    requires e2 in files && IsCsv(e2)
    requires e1.lastModified < e2.lastModified
    requires IsLatest(chosen, CsvFiles(files))
    ensures chosen != e1
    ensures e2.lastModified <= chosen.lastModified
  {
    assert e2 in CsvFiles(files);
  }
}
