/** Saving a batch: each captured image is copied into a new row of the image
    store, named and placed by the naming rules, tagged with the metadata
    description, and released; any failure after the row exists deletes it.
    The batch reports how many images were saved. */
module Commit {
  import opened Basics
  import opened Text
  import opened SessionState
  import opened ImageStore
  import Naming
  import Metadata

  /** What the platform does to one save attempt: the insertion returns no
      handle, the output stream cannot be opened, the copy throws, no file
      descriptor is returned (the metadata step is skipped), writing the
      metadata throws, or clearing the pending flag throws. */
  datatype Fault = Fault(
    insertFails: bool,
    outputMissing: bool,
    copyFails: bool,
    descriptorMissing: bool,
    metadataFails: bool,
    releaseFails: bool)

  /** The platform as one save sees it. `scoped` is an OS version with scoped
      storage (relative path and pending flag are used); `sources` holds the
      bytes behind each captured handle (a missing handle cannot be opened);
      `fault` and `clock` give, per batch position, what goes wrong and the
      "yyyyMMdd-HHmmss" stamp read when that image is saved. */
  datatype Platform = Platform(
    scoped: bool,
    sources: map<Uri, seq<Byte>>,
    fault: nat -> Fault,
    clock: nat -> string)

  const JpegMime: string := "image/jpeg"

  /** The four values recorded in the description; the location is not one. */
  function PayloadOf(s: Session): (p: Metadata.Payload)
    ensures p.siteName == s.siteName && p.capturedAt == s.timestamp
    ensures p.inspectionPart == s.inspectionPart && p.inspectionDetail == s.inspectionDetail
  {
    Metadata.Payload(s.siteName, s.inspectionPart, s.inspectionDetail, s.timestamp)
  }

  /** The row as first inserted. */
  function PendingEntry(pl: Platform, s: Session, index: nat): Entry {
    Entry(
      Naming.FileName(s, pl.clock(index), index),
      JpegMime,
      if pl.scoped then Some(Naming.RelativePath(s.basePath)) else None,
      pl.scoped,
      [],
      None)
  }

  /** The row a successful save leaves behind. */
  function SavedEntry(pl: Platform, s: Session, uri: Uri, index: nat): Entry
    requires uri in pl.sources
  {
    var e := PendingEntry(pl, s, index);
    var tag := if pl.fault(index).descriptorMissing then None else Some(Metadata.Describe(PayloadOf(s)));
    e.(pending := false, content := pl.sources[uri], description := tag)
  }

  /** Whether the save of the image at `index` gets through every step. */
  predicate Succeeds(pl: Platform, uri: Uri, index: nat) {
    var f := pl.fault(index);
    && !f.insertFails
    && uri in pl.sources && !f.outputMissing && !f.copyFails
    && (f.descriptorMissing || !f.metadataFails)
    && (!pl.scoped || !f.releaseFails)
  }

  /** Saves one image. The result is the new store and whether the save
      succeeded: on success exactly one row is added, holding the image; on
      failure the rows are those there were before. */
  function SaveSingleImage(pl: Platform, st: Store, s: Session, uri: Uri, index: nat): (r: (Store, bool))
    ensures r.1 == Succeeds(pl, uri, index)
    ensures !r.1 ==> r.0.entries == st.entries
    ensures r.1 ==> st.nextId !in st.entries && r.0.entries == st.entries[st.nextId := SavedEntry(pl, s, uri, index)]
  {
    var f := pl.fault(index);
    if f.insertFails then (st, false)
    else
      var (st1, id) := Insert(st, PendingEntry(pl, s, index));
      InsertExtends(st, PendingEntry(pl, s, index));
      if uri !in pl.sources || f.outputMissing || f.copyFails then
        DeleteUndoesExtension(st, st1, id);
        (Delete(st1, id), false)
      else
        var copied := st1.entries[id].(content := pl.sources[uri]);
        var st2 := Put(st1, id, copied);
        PutKeepsExtension(st, st1, id, copied);
        if !f.descriptorMissing && f.metadataFails then
          DeleteUndoesExtension(st, st2, id);
          (Delete(st2, id), false)
        else
          var tagged := if f.descriptorMissing then copied
                        else copied.(description := Some(Metadata.Describe(PayloadOf(s))));
          var st3 := Put(st2, id, tagged);
          PutKeepsExtension(st, st2, id, tagged);
          if pl.scoped && f.releaseFails then
            DeleteUndoesExtension(st, st3, id);
            (Delete(st3, id), false)
          else if pl.scoped then
            PutKeepsExtension(st, st3, id, tagged.(pending := false));
            (Put(st3, id, tagged.(pending := false)), true)
          else
            (st3, true)
  }

  /** A saved row carries the name, place, content and tag the session
      determines, and is no longer pending. */
  lemma SavedEntryContents(pl: Platform, s: Session, uri: Uri, index: nat)
    requires uri in pl.sources
    ensures var e := SavedEntry(pl, s, uri, index);
      && !e.pending
      && e.mimeType == JpegMime
      && e.content == pl.sources[uri]
      && Naming.IndexOfName(e.displayName) == Some(index)
      && (pl.scoped <==> e.relativePath.Some?)
      && (e.relativePath.Some? ==> e.relativePath.value == Naming.RelativePath(s.basePath))
      && (e.description.Some? <==> !pl.fault(index).descriptorMissing)
      && (e.description.Some? ==> Metadata.ReadDescription(e.description.value) == Some(PayloadOf(s)))
  {
    Naming.NameIndexRoundTrip(s, pl.clock(index), index);
    Metadata.DescriptionRoundTrip(PayloadOf(s));
  }

  /** The location never reaches the metadata. */
  lemma LocationNotRecorded(s: Session, location: string)
    ensures PayloadOf(s.(location := location)) == PayloadOf(s)
  {
  }

  // ---------------------------------------------------------------------
  // The batch

  /** The store after saving the first `n` images of the session in order. */
  function SavePrefix(pl: Platform, st: Store, s: Session, n: nat): Store
    requires n <= |s.capturedImageUris|
  {
    if n == 0 then st
    else SaveSingleImage(pl, SavePrefix(pl, st, s, n - 1), s, s.capturedImageUris[n - 1], n - 1).0
  }

  /** Whether the image at each batch position is saved. */
  function Outcomes(pl: Platform, s: Session): nat -> bool {
    (i: nat) => i < |s.capturedImageUris| && Succeeds(pl, s.capturedImageUris[i], i)
  }

  /** The row each batch position leaves when its save succeeds. */
  function Rows(pl: Platform, s: Session): nat -> Entry {
    (i: nat) => if i < |s.capturedImageUris| && s.capturedImageUris[i] in pl.sources
         then SavedEntry(pl, s, s.capturedImageUris[i], i)
         else PendingEntry(pl, s, i)
  }

  /** How many of the first `n` images are saved. */
  function SuccessCount(pl: Platform, s: Session, n: nat): nat {
    CountTrue(Outcomes(pl, s), n)
  }

  /** Every image is saved exactly when the count of saved images is the
      number of images. */
  lemma AllSavedIffCountComplete(pl: Platform, s: Session)
    ensures SuccessCount(pl, s, |s.capturedImageUris|) == |s.capturedImageUris|
      <==> forall i :: 0 <= i < |s.capturedImageUris| ==> Succeeds(pl, s.capturedImageUris[i], i)
  {
    var n := |s.capturedImageUris|;
    CountTrueComplete(Outcomes(pl, s), n);
    if forall i :: 0 <= i < n ==> Succeeds(pl, s.capturedImageUris[i], i) {
      forall i: nat | i < n
        ensures Outcomes(pl, s)(i)
      {
      }
    } else {
      var i :| 0 <= i < n && !Succeeds(pl, s.capturedImageUris[i], i);
      assert !Outcomes(pl, s)(i);
    }
  }

  /** Different positions give rows with different names. */
  lemma RowNamesDistinct(pl: Platform, s: Session)
    ensures forall i: nat, j: nat :: i < j ==> Rows(pl, s)(i).displayName != Rows(pl, s)(j).displayName
  {
    forall i: nat, j: nat | i < j
      ensures Rows(pl, s)(i).displayName != Rows(pl, s)(j).displayName
    {
      assert Rows(pl, s)(i).displayName == Naming.FileName(s, pl.clock(i), i);
      assert Rows(pl, s)(j).displayName == Naming.FileName(s, pl.clock(j), j);
      Naming.NamesDistinct(s, s, pl.clock(i), pl.clock(j), i, j);
    }
  }

  /** The stores a batch passes through. */
  function Progress(pl: Platform, st: Store, s: Session): nat -> Store {
    (i: nat) => if i <= |s.capturedImageUris| then SavePrefix(pl, st, s, i) else st
  }

  lemma SaveStep(pl: Platform, st: Store, s: Session, i: nat)
    requires i < |s.capturedImageUris|
    ensures Stepped(Progress(pl, st, s)(i), Progress(pl, st, s)(i + 1), Outcomes(pl, s)(i), Rows(pl, s)(i))
  {
    var uri := s.capturedImageUris[i];
    assert Progress(pl, st, s)(i + 1) == SaveSingleImage(pl, Progress(pl, st, s)(i), s, uri, i).0;
    if Succeeds(pl, uri, i) {
      assert Rows(pl, s)(i) == SavedEntry(pl, s, uri, i);
    }
  }

  /** What saving the first `n` images does to the store: every earlier row
      is kept as it was; every new row is the saved row of one successful
      image and every successful image has a new row; the new rows have
      distinct names; and there are as many of them as images saved. */
  lemma BatchEffect(pl: Platform, st: Store, s: Session, n: nat)
    requires n <= |s.capturedImageUris|
    ensures RunFacts(st, SavePrefix(pl, st, s, n), n, Outcomes(pl, s), Rows(pl, s))
  {
    var stores := Progress(pl, st, s);
    BatchSteps(pl, st, s, n);
    RowNamesDistinct(pl, s);
    RunEffect(stores, n, Outcomes(pl, s), Rows(pl, s));
    ProgressEnds(pl, st, s, n);
  }

  lemma BatchSteps(pl: Platform, st: Store, s: Session, n: nat)
    requires n <= |s.capturedImageUris|
    ensures forall i: nat :: i < n ==>
      Stepped(Progress(pl, st, s)(i), Progress(pl, st, s)(i + 1), Outcomes(pl, s)(i), Rows(pl, s)(i))
  {
    forall i: nat | i < n
      ensures Stepped(Progress(pl, st, s)(i), Progress(pl, st, s)(i + 1), Outcomes(pl, s)(i), Rows(pl, s)(i))
    {
      SaveStep(pl, st, s, i);
    }
  }

  lemma ProgressEnds(pl: Platform, st: Store, s: Session, n: nat)
    requires n <= |s.capturedImageUris|
    ensures Progress(pl, st, s)(0) == st && Progress(pl, st, s)(n) == SavePrefix(pl, st, s, n)
  {
  }

  /** A successful image's row is its saved row, which is not pending. */
  lemma SuccessRowReleased(pl: Platform, s: Session, i: nat)
    requires Outcomes(pl, s)(i)
    ensures !Rows(pl, s)(i).pending
  {
    var uri := s.capturedImageUris[i];
    assert Rows(pl, s)(i) == SavedEntry(pl, s, uri, i);
  }

  /** No row a batch adds is left pending: each is the saved row of an image
      whose every step, the release included, went through. */
  lemma NoPendingAfterBatch(pl: Platform, st: Store, s: Session)
    ensures var r := SavePrefix(pl, st, s, |s.capturedImageUris|);
      forall id :: IsNew(st, r, id) ==> !r.entries[id].pending
  {
    var n := |s.capturedImageUris|;
    var r := SavePrefix(pl, st, s, n);
    BatchEffect(pl, st, s, n);
    forall id | IsNew(st, r, id)
      ensures !r.entries[id].pending
    {
      var i: nat :| i < n && Outcomes(pl, s)(i) && r.entries[id] == Rows(pl, s)(i);
      SuccessRowReleased(pl, s, i);
    }
  }

  const NothingToSave: string := "저장할 이미지가 없습니다."

  /** The message reported once a non-empty batch is done. */
  function ReportMessage(total: nat, saved: nat): string {
    if saved == total then Decimal(total) + " 개의 모든 이미지가 저장되었습니다."
    else "총 " + Decimal(total) + " 개 중 " + Decimal(saved) + " 개만 저장되었습니다."
  }

  /** Reads the counts back from a report: the total and the number saved.
      A report of a complete batch carries the total once; `None` for any
      other text. */
  function ReportCounts(m: string): Option<(nat, nat)> {
    var words := Split(m, ' ');
    if |words| >= 5 && words[0] == "총" && |words[1]| > 0 && AllDigits(words[1]) && |words[4]| > 0 && AllDigits(words[4]) then
      Some((ParseNat(words[1]), ParseNat(words[4])))
    else if |words[0]| > 0 && AllDigits(words[0]) then
      Some((ParseNat(words[0]), ParseNat(words[0])))
    else
      None
  }

  lemma SpaceFreeDigits(d: string)
    requires AllDigits(d)
    ensures ' ' !in d
  {
    assert !IsDigit(' ');
    assert forall k | 0 <= k < |d| :: d[k] != ' ';
  }

  lemma CompleteShape(d: string)
    ensures d + " 개의 모든 이미지가 저장되었습니다." == d + [' '] + "개의 모든 이미지가 저장되었습니다."
  {
  }

  lemma PartialShape(d1: string, d2: string)
    ensures "총 " + d1 + " 개 중 " + d2 + " 개만 저장되었습니다."
      == "총" + [' '] + (d1 + [' '] + ("개" + [' '] + ("중" + [' '] + (d2 + [' '] + "개만 저장되었습니다."))))
  {
  }

  lemma CompleteReportRoundTrip(total: nat)
    ensures ReportCounts(ReportMessage(total, total)) == Some((total, total))
  {
    var d := Decimal(total);
    SpaceFreeDigits(d);
    DecimalRoundTrip(total);
    CompleteShape(d);
    SplitCons(d, ' ', "개의 모든 이미지가 저장되었습니다.");
    assert d[0] != '총' by {
      assert IsDigit(d[0]);
    }
    assert Split(ReportMessage(total, total), ' ')[0] == d;
  }

  /** The words of a partial report around its two numbers. */
  lemma PartialWords(d1: string, d2: string, tail: string)
    requires ' ' !in d1 && ' ' !in d2
    ensures var w := Split("총" + [' '] + (d1 + [' '] + ("개" + [' '] + ("중" + [' '] + (d2 + [' '] + tail)))), ' ');
      |w| >= 5 && w[0] == "총" && w[1] == d1 && w[4] == d2
  {
    var t5 := d2 + [' '] + tail;
    var t4 := "중" + [' '] + t5;
    var t3 := "개" + [' '] + t4;
    var t2 := d1 + [' '] + t3;
    SplitCons(d2, ' ', tail);
    SplitCons("중", ' ', t5);
    SplitCons("개", ' ', t4);
    SplitCons(d1, ' ', t3);
    SplitCons("총", ' ', t2);
    FifthWord("총", d1, "개", "중", d2, Split(tail, ' '));
  }

  lemma FifthWord<T>(a: T, b: T, c: T, d: T, e: T, w: seq<T>)
    ensures var x := [a] + ([b] + ([c] + ([d] + ([e] + w))));
      |x| >= 5 && x[0] == a && x[1] == b && x[4] == e
  {
  }

  lemma PartialReportRoundTrip(total: nat, saved: nat)
    requires saved != total
    ensures ReportCounts(ReportMessage(total, saved)) == Some((total, saved))
  {
    var d1, d2 := Decimal(total), Decimal(saved);
    SpaceFreeDigits(d1);
    SpaceFreeDigits(d2);
    DecimalRoundTrip(total);
    DecimalRoundTrip(saved);
    PartialShape(d1, d2);
    PartialWords(d1, d2, "개만 저장되었습니다.");
  }

  /** The counts a report states are the counts it was made from. */
  lemma ReportRoundTrip(total: nat, saved: nat)
    ensures ReportCounts(ReportMessage(total, saved)) == Some((total, saved))
  {
    if saved == total {
      CompleteReportRoundTrip(total);
    } else {
      PartialReportRoundTrip(total, saved);
    }
  }

  /** Different outcomes give different reports, and no report reads as
      "nothing to save". */
  lemma ReportsDistinguishOutcomes(t1: nat, c1: nat, t2: nat, c2: nat)
    requires ReportMessage(t1, c1) == ReportMessage(t2, c2)
    ensures t1 == t2 && c1 == c2
  {
    ReportRoundTrip(t1, c1);
    ReportRoundTrip(t2, c2);
  }

  lemma NothingToSaveUnreadable()
    ensures ReportCounts(NothingToSave) == None
  {
    var first, rest := "저장할", "이미지가 없습니다.";
    assert NothingToSave == first + [' '] + rest;
    SplitCons(first, ' ', rest);
    var words := Split(NothingToSave, ' ');
    assert words[0] == first;
    assert first != "총" && !IsDigit(first[0]);
  }

  lemma NothingToSaveIsNoReport(total: nat, saved: nat)
    ensures ReportCounts(NothingToSave) == None
    ensures NothingToSave != ReportMessage(total, saved)
  {
    NothingToSaveUnreadable();
    ReportRoundTrip(total, saved);
  }

  /** One more image saved: the store and the count advance by the outcome
      of that image's save. */
  lemma PrefixStep(pl: Platform, st: Store, s: Session, n: nat)
    requires n < |s.capturedImageUris|
    ensures var step := SaveSingleImage(pl, SavePrefix(pl, st, s, n), s, s.capturedImageUris[n], n);
      && SavePrefix(pl, st, s, n + 1) == step.0
      && SuccessCount(pl, s, n + 1) == SuccessCount(pl, s, n) + (if step.1 then 1 else 0)
  {
    assert Outcomes(pl, s)(n) == Succeeds(pl, s.capturedImageUris[n], n);
  }

  /** The loop of the batch save: the images one at a time, in capture
      order, counting those saved. */
  method SaveInOrder(pl: Platform, st: Store, s: Session) returns (r: Store, successCount: nat)
    ensures r == SavePrefix(pl, st, s, |s.capturedImageUris|)
    ensures successCount == SuccessCount(pl, s, |s.capturedImageUris|)
    ensures successCount <= |s.capturedImageUris|
  {
    var images := s.capturedImageUris;
    var total := |images|;
    successCount := 0;
    r := st;
    var index := 0;
    while index < total
      invariant 0 <= index <= total
      invariant r == SavePrefix(pl, st, s, index)
      invariant successCount == SuccessCount(pl, s, index)
    {
      var step := SaveSingleImage(pl, r, s, images[index], index);
      PrefixStep(pl, st, s, index);
      r := step.0;
      var saved := step.1;
      if saved {
        successCount := successCount + 1;
      }
      index := index + 1;
    }
  }

  /** Saves every captured image in capture order and reports the outcome.
      An empty batch reports that there is nothing to save and touches
      nothing; otherwise `ok` says whether every image was saved and the
      message gives the total and, when some failed, how many were saved. */
  method SaveCapturedImages(pl: Platform, st: Store, s: Session) returns (r: Store, ok: bool, message: string)
    ensures |s.capturedImageUris| == 0 ==> r == st && !ok && message == NothingToSave
    ensures |s.capturedImageUris| > 0 ==>
      message == ReportMessage(|s.capturedImageUris|, SuccessCount(pl, s, |s.capturedImageUris|))
    ensures ok <==> |s.capturedImageUris| > 0 && forall i :: 0 <= i < |s.capturedImageUris| ==> Succeeds(pl, s.capturedImageUris[i], i)
    ensures r == SavePrefix(pl, st, s, |s.capturedImageUris|)
    ensures RunFacts(st, r, |s.capturedImageUris|, Outcomes(pl, s), Rows(pl, s))
  {
    var total := |s.capturedImageUris|;
    if total == 0 {
      BatchEffect(pl, st, s, 0);
      return st, false, NothingToSave;
    }
    var successCount;
    r, successCount := SaveInOrder(pl, st, s);
    AllSavedIffCountComplete(pl, s);
    BatchEffect(pl, st, s, total);
    ok := successCount == total;
    message := ReportMessage(total, successCount);
  }
}
