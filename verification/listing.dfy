/** What `refreshList` shows after every append: a numbered listing of the
    rows and a status line with the row count. */
module Listing {
  import opened Options
  import opened Text
  import opened Decimal
  import opened Rows

  /** One listing entry without its line break: `"{n}. store, barcode, date"`. */
  function Entry(n: int, r: ScanRow): string
  {
    IntToString(n) + ". " + r.storeCode + ", " + r.barcode + ", " + r.date
  }

  /** The entries of `rows` in order, numbered from 1 (`idx + 1`). */
  function Entries(rows: seq<ScanRow>): (es: seq<string>)
    ensures |es| == |rows|
    ensures forall i {:trigger es[i]} :: 0 <= i < |rows| ==> es[i] == Entry(i + 1, rows[i])
  {
    if |rows| == 0 then []
    else
      var init := rows[..|rows| - 1];
      var es := Entries(init) + [Entry(|rows|, rows[|rows| - 1])];
      assert forall i :: 0 <= i < |init| ==> init[i] == rows[i];
      es
  }

  /** The list text: every entry followed by a line break. It is empty
      exactly when there are no rows; otherwise it opens with the entry
      numbered 1 and ends with a line break. */
  function ListText(rows: seq<ScanRow>): (text: string)
    ensures text == "" <==> rows == []
    ensures rows != [] ==>
      && |text| > |Entry(1, rows[0])| && text[..|Entry(1, rows[0])| + 1] == Entry(1, rows[0]) + "\n"
      && text[|text| - 1] == '\n'
  {
    var es := Entries(rows);
    if rows == [] then TerminatedLines(es)
    else
      TerminatedLinesEnd(es);
      assert TerminatedLines(es) == es[0] + "\n" + TerminatedLines(es[1..]);
      TerminatedLines(es)
  }

  /** The status line `"Total rows: N"`; the number after the prefix reads
      back as the row count. */
  function StatusText(count: nat): (r: string)
    ensures |r| > 12 && r[..12] == "Total rows: "
    ensures ParseInt(r[12..]) == Some(count)
  {
    var r := "Total rows: " + IntToString(count);
    assert r[12..] == IntToString(count);
    IntToStringRoundTrip(count);
    r
  }

  /** The two texts on screen after a refresh. */
  datatype Screen = Screen(list: string, status: string)

  /** `refreshList`: the list is blank exactly when the store is, and the
      status line reports the number of rows. */
  function Refresh(rows: seq<ScanRow>): (screen: Screen)
    ensures screen.list == "" <==> rows == []
    ensures |screen.status| > 12 && screen.status[..12] == "Total rows: " && ParseInt(screen.status[12..]) == Some(|rows|)
  {
    Screen(ListText(rows), StatusText(|rows|))
  }

  lemma EntriesAppend(rows: seq<ScanRow>, r: ScanRow)
    ensures Entries(rows + [r]) == Entries(rows) + [Entry(|rows| + 1, r)]
  {
    assert (rows + [r])[..|rows|] == rows;
  }

  /** Appending a row to the store extends what is shown by exactly one entry,
      numbered with the new count, and leaves the earlier text as it was. */
  lemma ListTextAppend(rows: seq<ScanRow>, r: ScanRow)
    ensures ListText(rows + [r]) == ListText(rows) + (Entry(|rows| + 1, r) + "\n")
  {
    EntriesAppend(rows, r);
    TerminatedLinesAppend(Entries(rows), Entry(|rows| + 1, r));
  }

  /** With no line break inside a field, the list text is exactly one
      newline-terminated line per row, line i reading
      `"{i+1}. store, barcode, date"`, and nothing after the last break. */
  lemma ListTextLines(rows: seq<ScanRow>)
    requires AllFieldsAvoid(rows, '\n')
    ensures var lines := Split(ListText(rows), '\n');
      && |lines| == |rows| + 1
      && Count(ListText(rows), '\n') == |rows|
      && lines[|rows|] == ""
      && forall i :: 0 <= i < |rows| ==> lines[i] == Entry(i + 1, rows[i])
  {
    var es := Entries(rows);
    forall k | 0 <= k < |es| ensures '\n' !in es[k] {
      assert FieldsAvoid(rows[k], '\n');
      IntToStringChars(k + 1);
    }
    SplitTerminatedLines(es);
  }
}
