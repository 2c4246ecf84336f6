/** The activity's capture state and the handlers that change it: the manual
    "Add" button, the scanner callback, the date picker, and the user typing
    into the three text fields. Each handler runs to completion on the UI
    thread before the next, so each is one step from a state to a state. The
    current date is an input (`today`), as `currentDateString()` reads the
    clock. */
module Capture {
  import opened Options
  import opened JvmInt
  import opened Text
  import opened Rows
  import opened DatePicker
  import opened Listing

  /** `scans` and `currentPickedDate`, plus the text of the store-code,
      manual-barcode and date fields. */
  datatype Session = Session(
    scans: seq<ScanRow>,
    storeField: string,
    barcodeField: string,
    dateField: string,
    pickedDate: Option<string>)

  /** A new activity: no rows, empty fields, no date picked. */
  function Initial(): (s: Session)
    ensures s.scans == [] && s.pickedDate == None
  {
    Session([], "", "", "", None)
  }

  /** What a handler did, standing for the toast it shows: a row was added
      (and the list refreshed), one of the two rejections of "Add", the
      decoded text was staged, or a callback without text was ignored. */
  datatype Feedback = RowAdded | EnterStoreCodeFirst | NoManualBarcode | BarcodeStaged | NoText

  datatype Step = Step(next: Session, feedback: Feedback)

  /** `etDateManual.text.toString().ifEmpty { currentDateString() }`: the
      field as typed, untrimmed, unless it is empty. */
  function ResolveDate(dateField: string, today: string): (date: string)
    ensures dateField != [] ==> date == dateField
    ensures dateField == [] ==> date == today
    ensures date == [] <==> dateField == [] && today == []
  {
    if |dateField| == 0 then today else dateField
  }

  /** `addScanRow`: append one row. */
  function AddScanRow(s: Session, store: string, barcode: string, date: string): (t: Session)
    ensures |t.scans| == |s.scans| + 1
    ensures t.scans[..|s.scans|] == s.scans
    ensures t.scans[|s.scans|] == ScanRow(store, barcode, date)
    ensures t.(scans := s.scans) == s
  {
    var t := s.(scans := s.scans + [ScanRow(store, barcode, date)]);
    assert t.scans[..|s.scans|] == s.scans;
    t
  }

  /** The "Add" button. The store code is checked first, then the manual
      barcode, both after trimming; on success the trimmed values and the
      resolved date form the new last row and the barcode field is cleared. */
  function AddClicked(s: Session, today: string): (r: Step)
    ensures Trim(s.storeField) == [] ==> r == Step(s, EnterStoreCodeFirst)
    ensures Trim(s.storeField) != [] && Trim(s.barcodeField) == [] ==> r == Step(s, NoManualBarcode)
    ensures r.feedback == RowAdded <==> Trim(s.storeField) != [] && Trim(s.barcodeField) != []
    ensures r.feedback == RowAdded ==>
      && |r.next.scans| == |s.scans| + 1
      && r.next.scans[..|s.scans|] == s.scans
      && r.next.scans[|s.scans|] == ScanRow(Trim(s.storeField), Trim(s.barcodeField), ResolveDate(s.dateField, today))
      && r.next == s.(scans := r.next.scans, barcodeField := "")
  {
    var store := Trim(s.storeField);
    if |store| == 0 then Step(s, EnterStoreCodeFirst)
    else
      var barcode := Trim(s.barcodeField);
      if |barcode| == 0 then Step(s, NoManualBarcode)
      else
        var date := ResolveDate(s.dateField, today);
        Step(AddScanRow(s, store, barcode, date).(barcodeField := ""), RowAdded)
  }

  /** The scanner callback. A missing result or text does nothing. Otherwise,
      with a store code present the decoded text itself, neither trimmed nor
      checked for emptiness, becomes the barcode of a new last row; without
      one it is copied into the manual-barcode field and no row is added. */
  function BarcodeDecoded(s: Session, code: Option<string>, today: string): (r: Step)
    ensures code == None ==> r == Step(s, NoText)
    ensures code.Some? && Trim(s.storeField) != [] ==>
      && r.feedback == RowAdded
      && |r.next.scans| == |s.scans| + 1
      && r.next.scans[..|s.scans|] == s.scans
      && r.next.scans[|s.scans|] == ScanRow(Trim(s.storeField), code.value, ResolveDate(s.dateField, today))
      && r.next == s.(scans := r.next.scans)
    ensures code.Some? && Trim(s.storeField) == [] ==>
      r == Step(s.(barcodeField := code.value), BarcodeStaged)
  {
    match code
    case None => Step(s, NoText)
    case Some(text) =>
      var store := Trim(s.storeField);
      if |store| != 0 then
        Step(AddScanRow(s, store, text, ResolveDate(s.dateField, today)), RowAdded)
      else
        Step(s.(barcodeField := text), BarcodeStaged)
  }

  /** The date picker's callback: remembers the text and shows it in the date
      field. */
  function DatePicked(s: Session, y: Int32, m: Int32, d: Int32): (t: Session)
    ensures t.dateField == PickedDateText(y, m, d) && t.pickedDate == Some(t.dateField)
    ensures t.scans == s.scans && t.storeField == s.storeField && t.barcodeField == s.barcodeField
  {
    var text := PickedDateText(y, m, d);
    s.(pickedDate := Some(text), dateField := text)
  }

  /** Everything that can happen to the activity's capture state. */
  datatype Event =
    | StoreTyped(text: string)
    | BarcodeTyped(text: string)
    | DateTyped(text: string)
    | DatePick(y: Int32, m: Int32, d: Int32)
    | AddClick(today: string)
    | Decoded(code: Option<string>, today: string)

  function Handle(s: Session, e: Event): Session
  {
    match e
    case StoreTyped(text) => s.(storeField := text)
    case BarcodeTyped(text) => s.(barcodeField := text)
    case DateTyped(text) => s.(dateField := text)
    case DatePick(y, m, d) => DatePicked(s, y, m, d)
    case AddClick(today) => AddClicked(s, today).next
    case Decoded(code, today) => BarcodeDecoded(s, code, today).next
  }

  /** The events handled one after another. */
  function Run(s: Session, events: seq<Event>): Session
    decreases |events|
  {
    if |events| == 0 then s else Run(Handle(s, events[0]), events[1..])
  }

  /** One event never removes, changes or reorders a row, and adds at most one. */
  lemma HandleAppendOnly(s: Session, e: Event)
    ensures s.scans <= Handle(s, e).scans
    ensures |Handle(s, e).scans| <= |s.scans| + 1
  {
  }

  /** The store is append-only over any sequence of events: the rows before
      are a prefix of the rows after, and each event adds at most one row. */
  lemma {:induction false} RunAppendOnly(s: Session, events: seq<Event>)
    ensures s.scans <= Run(s, events).scans
    ensures |Run(s, events).scans| <= |s.scans| + |events|
    decreases |events|
  {
    if |events| > 0 {
      var t := Handle(s, events[0]);
      HandleAppendOnly(s, events[0]);
      RunAppendOnly(t, events[1..]);
    }
  }

  /** Every row carries a store code that is non-empty and already trimmed. */
  predicate StoreCodesValid(rows: seq<ScanRow>)
  {
    forall k :: 0 <= k < |rows| ==> rows[k].storeCode != [] && Trimmed(rows[k].storeCode)
  }

  lemma HandleKeepsStoreCodesValid(s: Session, e: Event)
    requires StoreCodesValid(s.scans)
    ensures StoreCodesValid(Handle(s, e).scans)
  {
    var t := Handle(s, e);
    if |t.scans| > |s.scans| {
      assert t.scans == s.scans + [t.scans[|s.scans|]];
    }
  }

  /** Both intake paths keep every row's store code non-empty and trimmed,
      over any sequence of events from any such state. */
  lemma {:induction false} RunKeepsStoreCodesValid(s: Session, events: seq<Event>)
    requires StoreCodesValid(s.scans)
    ensures StoreCodesValid(Run(s, events).scans)
    decreases |events|
  {
    if |events| > 0 {
      HandleKeepsStoreCodesValid(s, events[0]);
      RunKeepsStoreCodesValid(Handle(s, events[0]), events[1..]);
    }
  }

  lemma RunThree(s: Session, e0: Event, e1: Event, e2: Event)
    ensures Run(s, [e0, e1, e2]) == Handle(Handle(Handle(s, e0), e1), e2)
  {
    var es := [e0, e1, e2];
    assert es[1..] == [e1, e2] && [e1, e2][1..] == [e2] && [e2][1..] == [];
    calc {
      Run(s, es);
      Run(Handle(s, e0), [e1, e2]);
      Run(Handle(Handle(s, e0), e1), [e2]);
      Run(Handle(Handle(Handle(s, e0), e1), e2), []);
    }
  }

  /** A sequence one longer than `a` that starts with `a` is `a` plus its last element. */
  lemma AppendedOne(a: seq<ScanRow>, b: seq<ScanRow>)
    requires |b| == |a| + 1 && b[..|a|] == a
    ensures b == a + [b[|a|]]
  {
  }

  /** "Add" on a state whose manual field holds `code` and whose store field
      holds `store`, both non-blank. */
  lemma AddStaged(s: Session, code: string, store: string, today: string)
    requires Trim(store) != [] && Trim(code) != []
    ensures var t := Handle(s.(barcodeField := code, storeField := store), AddClick(today));
      && t.scans == s.scans + [ScanRow(Trim(store), Trim(code), ResolveDate(s.dateField, today))]
      && t.barcodeField == [] && t.storeField == store
  {
    var s2 := s.(barcodeField := code, storeField := store);
    var r := AddClicked(s2, today);
    assert r.feedback == RowAdded;
    AppendedOne(s.scans, r.next.scans);
  }

  /** A scan with no store code only fills the manual-barcode field. */
  lemma ScanStaged(s: Session, code: string, today: string)
    requires Trim(s.storeField) == []
    ensures Handle(s, Decoded(Some(code), today)) == s.(barcodeField := code)
  {
    assert BarcodeDecoded(s, Some(code), today).next == s.(barcodeField := code);
  }

  /** The two-step capture: a scan without a store code is staged; once a
      store code is typed, "Add" turns the staged text, trimmed, into the
      next row. */
  lemma StagedScanThenAdd(s: Session, code: string, store: string, today: string)
    requires Trim(s.storeField) == [] && Trim(store) != [] && Trim(code) != []
    ensures var t := Run(s, [Decoded(Some(code), today), StoreTyped(store), AddClick(today)]);
      && t.scans == s.scans + [ScanRow(Trim(store), Trim(code), ResolveDate(s.dateField, today))]
      && t.barcodeField == [] && t.storeField == store
  {
    RunThree(s, Decoded(Some(code), today), StoreTyped(store), AddClick(today));
    ScanStaged(s, code, today);
    var s1 := s.(barcodeField := code);
    assert Handle(s1, StoreTyped(store)) == s.(barcodeField := code, storeField := store);
    AddStaged(s, code, store, today);
  }

  /** After either handler adds a row, `refreshList` shows the earlier list
      with one more entry for the new row, numbered with the new count, and
      the status line reports the new count. */
  lemma AddedRowShown(s: Session, e: Event)
    requires e.AddClick? || e.Decoded?
    requires |Handle(s, e).scans| > |s.scans|
    ensures var t := Handle(s, e).scans;
      && Refresh(t).list == Refresh(s.scans).list + (Entry(|s.scans| + 1, t[|s.scans|]) + "\n")
      && Refresh(t).status == StatusText(|s.scans| + 1)
  {
    var t := Handle(s, e).scans;
    assert t == s.scans + [t[|s.scans|]];
    ListTextAppend(s.scans, t[|s.scans|]);
  }

  /** The scan path, unlike "Add", accepts a blank barcode: with a store code
      present, a decoded text of one space becomes a row as it is. */
  lemma ScanAcceptsBlankBarcode(rows: seq<ScanRow>, today: string)
    ensures var s := Session(rows, "S1", "", "", None);
      BarcodeDecoded(s, Some(" "), today).next.scans == rows + [ScanRow("S1", " ", today)]
  {
    var s := Session(rows, "S1", "", "", None);
    assert [] + "S1" + [] == "S1";
    TrimOfPadded([], "S1", []);
    var t := BarcodeDecoded(s, Some(" "), today).next;
    assert t.scans == rows + [ScanRow("S1", " ", today)];
  }
}
