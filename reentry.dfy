/**
 * A record entered a second time. The crawler decides whether the next-record
 * pager led anywhere by comparing the display id then shown with the entry
 * id of the record just processed. The download pass leaves the cursor on
 * the record's last sub-image, so on the last record of a collection a
 * pager that does nothing shows that sub-image's display id, which differs
 * from the entry id, and the crawl goes on with the same record entered
 * from its last sub-image. Files already written are written again, with
 * images fetched for other info ids.
 */
module Reentry {
  import opened Wrappers
  import opened Lists
  import opened Decimal
  import opened Viewer
  import opened Fullscreen
  import opened Iiif
  import opened Passes
  import opened Record
  import opened Walker
  import Locator

  /** `n` wait answers, all Ready. */
  function Readies(n: nat): (r: seq<Wait>)
    ensures |r| == n && forall i :: 0 <= i < n ==> r[i] == Ready
  {
    seq(n, _ => Ready)
  }

  /** Five answers Ready in front: fullscreen is entered and left by its close button, taking those five. */
  lemma FullscreenReady(ui: seq<Wait>)
    requires |ui| >= 5 && forall i :: 0 <= i < 5 ==> ui[i] == Ready
    ensures InFullscreen(ui) == (true, Some(Exited(CloseButton)), ui[5..])
  {
    EnterAnswers(ui);
    AttemptAnswers(ui[3..]);
    ExitOrder(ui[3..]);
    assert ui[3..][2..] == ui[5..];
  }

  /** The location of display id `id` in record 7 of collection `lclma`. */
  function Page(id: string): (u: string)
    requires IsDigits(id)
    ensures Locator.ExtractId(u) == Some(id)
    ensures Locator.CollectionOf(u) == "lclma" && Locator.RecNumber(u, id) == "7"
  {
    Locator.LocationRoundTrip("lclma", id, Some("7"));
    Locator.Location("lclma", id, Some("7"))
  }

  /**
   * The last record of collection `lclma`, record number 7, with two
   * sub-images shown as display ids 2 and 3; its next-record pager is
   * disabled.
   */
  predicate LastRecordShape(views: seq<View>) {
    && |views| == 2 && IdTable(views) == [Some("2"), Some("3")]
    && views[0].nextImage == Shown(1) && views[0].prevImage == Greyed && views[0].nextRecord == Greyed
    && views[1].nextImage == Greyed && views[1].prevImage == Shown(0) && views[1].nextRecord == Greyed
    && Locator.CollectionOf(views[0].url) == "lclma" && Locator.RecNumber(views[0].url, "2") == "7"
    && Locator.CollectionOf(views[1].url) == "lclma" && Locator.RecNumber(views[1].url, "3") == "7"
  }

  function LastRecordViews(): (views: seq<View>)
    ensures LastRecordShape(views)
  {
    assert IsDigits("2") && IsDigits("3");
    var views := [View(Page("2"), Shown(1), Greyed, Greyed), View(Page("3"), Greyed, Shown(0), Greyed)];
    assert IdTable(views)[0] == Some("2") && IdTable(views)[1] == Some("3");
    views
  }

  lemma LastRecordFacts(views: seq<View>)
    requires LastRecordShape(views)
    ensures WellFormed(views) && DigitIds(IdTable(views)) && views[0].url != views[1].url
  {
    assert IdTable(views)[0] != IdTable(views)[1];
    assert IsDigits("2") && IsDigits("3");
  }

  /** An image service that knows info ids 0, 1 and 2 of collection `lclma`, each a different image. */
  function LastRecordService(): map<string, string> {
    map[InfoUrl("lclma", 0) := "a", InfoUrl("lclma", 1) := "b", InfoUrl("lclma", 2) := "c"]
  }

  /** The full-size image URL built from an info document whose `@id` is `base`. */
  function ImageOf(base: string): string {
    ImageRequest(base, "full", "full", "0", "default", "jpg")
  }

  lemma ServiceAnswers()
    ensures GetImageUrl(LastRecordService(), "lclma", 0) == Some(ImageOf("a"))
    ensures GetImageUrl(LastRecordService(), "lclma", 1) == Some(ImageOf("b"))
    ensures GetImageUrl(LastRecordService(), "lclma", 2) == Some(ImageOf("c"))
  {
    var s := LastRecordService();
    if InfoUrl("lclma", 0) == InfoUrl("lclma", 1) { InfoUrlInjective("lclma", 0, "lclma", 1); }
    if InfoUrl("lclma", 0) == InfoUrl("lclma", 2) { InfoUrlInjective("lclma", 0, "lclma", 2); }
    if InfoUrl("lclma", 1) == InfoUrl("lclma", 2) { InfoUrlInjective("lclma", 1, "lclma", 2); }
    assert s[InfoUrl("lclma", 0)] == "a" && s[InfoUrl("lclma", 1)] == "b" && s[InfoUrl("lclma", 2)] == "c";
  }

  /** Both sub-images handled in fullscreen and left by the close button. */
  function Closed(id: string, infoId: int): Handled {
    Handled(id, infoId, true, Some(Exited(CloseButton)))
  }

  /** From display id 3 the rewind takes one step back, to display id 2, whose previous-image control is disabled. */
  lemma RewindToFirst(views: seq<View>)
    requires LastRecordShape(views)
    ensures WellFormed(views) && RewindFrom(views, 1) == RewindResult(1, Disabled, 0)
  {
    LastRecordFacts(views);
    var u0, u1 := views[0].url, views[1].url;
    assert Step(views, 0, views[0].prevImage) == (Disabled, 0);
    assert RewindLoop(views, 0, {u1} + {u0}) == RewindResult(0, Disabled, 0);
    assert Step(views, 1, views[1].prevImage) == (Moved, 0);
    assert RewindLoop(views, 1, {u1}) == RewindResult(1, Disabled, 0);
  }

  /** The log of the record entered on display id 2: two sub-images, info ids 0 and 1. */
  function FirstLog(): RecordLog {
    RecordLog("2", Job("lclma", "7", 0, 2), ["2", "3"], [Closed("2", 0), Closed("3", 1)], Finished)
  }

  /** The log of the record entered again on display id 3: one sub-image, info id 2, handled on display id 2. */
  function SecondLog(): RecordLog {
    RecordLog("3", Job("lclma", "7", 2, 1), ["3"], [Closed("2", 2)], Finished)
  }

  /**
   * Entered on display id 2, the record counts two sub-images, so info ids
   * 0 and 1; both are downloaded and the cursor is left on display id 3.
   */
  lemma FirstEntry(views: seq<View>)
    requires LastRecordShape(views)
    ensures WellFormed(views) && DigitIds(IdTable(views))
    ensures ProcessRecord(views, IdTable(views), 0, Readies(17))
        == (FirstLog(), 1, Readies(7))
  {
    LastRecordFacts(views);
    var idAt := IdTable(views);
    assert ProbeFrom(views, idAt, 1, ["2"]) == ProbeResult(["2", "3"], Stopped(Disabled), 1);
    assert ProbeFrom(views, idAt, 0, []) == ProbeResult(["2", "3"], Stopped(Disabled), 1);
    assert DigitsValue("2") == 2;
    var job := Job("lclma", "7", 0, 2);
    assert JobOf(views[0].url, "2", 2) == job;
    RewindToFirst(views);
    FullscreenReady(Readies(17));
    FullscreenReady(Readies(12));
    assert Readies(17)[5..] == Readies(12) && Readies(12)[5..] == Readies(7);
    assert DownloadFrom(views, idAt, job, InFullscreen, 1, Readies(12), [Closed("2", 0)])
      == DownloadResult([Closed("2", 0), Closed("3", 1)], Finished, 1, Readies(7));
    assert DownloadFrom(views, idAt, job, InFullscreen, 0, Readies(17), [])
      == DownloadResult([Closed("2", 0), Closed("3", 1)], Finished, 1, Readies(7));
  }

  /**
   * Entered again on display id 3, the record counts one sub-image, so info
   * id 2; the rewind goes back to display id 2, which is downloaded under
   * info id 2.
   */
  lemma SecondEntry(views: seq<View>)
    requires LastRecordShape(views)
    ensures WellFormed(views) && DigitIds(IdTable(views))
    ensures ProcessRecord(views, IdTable(views), 1, Readies(5))
        == (SecondLog(), 0, [])
  {
    LastRecordFacts(views);
    var idAt := IdTable(views);
    assert ProbeFrom(views, idAt, 1, []) == ProbeResult(["3"], Stopped(Disabled), 1);
    assert DigitsValue("3") == 3;
    var job := Job("lclma", "7", 2, 1);
    assert JobOf(views[1].url, "3", 1) == job;
    RewindToFirst(views);
    FullscreenReady(Readies(5));
    assert Readies(5)[5..] == [];
    assert DownloadFrom(views, idAt, job, InFullscreen, 0, Readies(5), [])
      == DownloadResult([Closed("2", 2)], Finished, 0, []);
  }

  /** Requests for the images of the first entry: info ids 0 and 1 into the files of display ids 2 and 3. */
  lemma FirstRequests()
    ensures Downloads(LastRecordService(), [FirstLog()])
      == [Request(ImageOf("a"), FileName("7", "2")), Request(ImageOf("b"), FileName("7", "3"))]
  {
    var service, log1 := LastRecordService(), FirstLog();
    ServiceAnswers();
    RequestsAppend(service, log1.job, [Closed("2", 0)], Closed("3", 1));
    assert [Closed("2", 0)] == [] + [Closed("2", 0)];
    RequestsAppend(service, log1.job, [], Closed("2", 0));
    assert [log1] == [] + [log1];
    DownloadsAppend(service, [], log1);
  }

  /** The first entry writes two different files. */
  lemma FirstFiles()
    ensures var reqs := Downloads(LastRecordService(), [FirstLog()]);
      |reqs| == 2 && Distinct(Files(reqs))
  {
    FirstRequests();
    assert IsDigits("2") && IsDigits("3");
    if FileName("7", "2") == FileName("7", "3") { FileNameInjective("7", "2", "7", "3"); }
  }

  /** Requests for both entries: the second asks for info id 2 into the file of display id 2. */
  lemma BothRequests()
    ensures Downloads(LastRecordService(), [FirstLog(), SecondLog()])
      == [Request(ImageOf("a"), FileName("7", "2")), Request(ImageOf("b"), FileName("7", "3")),
          Request(ImageOf("c"), FileName("7", "2"))]
  {
    var service, log2 := LastRecordService(), SecondLog();
    FirstRequests();
    ServiceAnswers();
    assert [Closed("2", 2)] == [] + [Closed("2", 2)];
    RequestsAppend(service, log2.job, [], Closed("2", 2));
    assert [FirstLog(), log2] == [FirstLog()] + [log2];
    DownloadsAppend(service, [FirstLog()], log2);
  }

  /** A record handler that processes the last record as the crawler does, on both entries the crawl makes. */
  ghost predicate LastRecordHandler(views: seq<View>, proc: Handler) {
    && LastRecordShape(views) && WellFormed(views) && Handles(views, IdTable(views), proc)
    && proc(0, Readies(17)) == (FirstLog(), 1, Readies(7))
    && proc(1, Readies(5)) == (SecondLog(), 0, [])
  }

  /** The crawler's handler is one. */
  lemma ProcessorHandles(views: seq<View>)
    requires LastRecordShape(views)
    ensures WellFormed(views) && DigitIds(IdTable(views))
    ensures LastRecordHandler(views, Processor(views, IdTable(views)))
  {
    LastRecordFacts(views);
    FirstEntry(views);
    SecondEntry(views);
  }

  lemma LastPager(views: seq<View>)
    requires LastRecordShape(views)
    ensures WellFormed(views)
    ensures PressNextRecord(views, 1) == (NoChange, 1) && Poll(Readies(7)) == (Ready, Readies(6))
  {
    LastRecordFacts(views);
    assert Readies(7)[1..] == Readies(6);
  }

  /**
   * The first visit as written: compared with the entry id 2, the display
   * id 3 shown after the pager click looks like a new record.
   */
  lemma FirstVisit(views: seq<View>, proc: Handler)
    requires LastRecordHandler(views, proc)
    ensures VisitAt(views, IdTable(views), proc, 0, Readies(17), [], EntryId) == Visit(Some(FirstLog()), None, 1, Readies(5))
  {
    LastRecordFacts(views);
    LastPager(views);
    assert Readies(6)[1..] == Readies(5);
    assert Advance(views, IdTable(views), 1, Readies(7), Some("2")) == (None, 1, Readies(5));
  }

  /**
   * The first visit corrected: compared with display id 3 shown before the
   * click, the pager led nowhere, and the crawl ends at the last record.
   */
  lemma FirstVisitShown(views: seq<View>, proc: Handler)
    requires LastRecordHandler(views, proc)
    ensures VisitAt(views, IdTable(views), proc, 0, Readies(17), [], ShownId) == Visit(Some(FirstLog()), Some(LastRecord), 1, Readies(6))
  {
    LastRecordFacts(views);
    LastPager(views);
    var idAt := IdTable(views);
    assert Advance(views, idAt, 1, Readies(7), idAt[1]) == (Some(LastRecord), 1, Readies(6));
  }

  /** The second visit processes the record on entry id 3 and finds no expand button after the pager click. */
  lemma SecondVisit(views: seq<View>, proc: Handler)
    requires LastRecordHandler(views, proc)
    ensures VisitAt(views, IdTable(views), proc, 1, Readies(5), ["2"], EntryId) == Visit(Some(SecondLog()), Some(NotReloaded), 0, [])
  {
    LastRecordFacts(views);
  }

  /** The crawl as written processes the record on entry id 2 and again on entry id 3, then finds no expand button. */
  lemma WalkAsWrittenTwice(views: seq<View>, proc: Handler, fuel: nat)
    requires LastRecordHandler(views, proc) && fuel >= 2
    ensures var r := WalkAsWritten(views, IdTable(views), proc, 0, Readies(17), [], [], fuel);
      r.processed == ["2", "3"] && r.end == NotReloaded && r.logs == [FirstLog(), SecondLog()]
  {
    var idAt := IdTable(views);
    FirstVisit(views, proc);
    WalkAsWrittenStep(views, idAt, proc, 0, Readies(17), [], [], fuel);
    SecondVisit(views, proc);
    WalkAsWrittenStep(views, idAt, proc, 1, Readies(5), ["2"], [FirstLog()], fuel - 1);
  }

  /** The corrected crawl processes the record once and stops at the last record. */
  lemma WalkOnce(views: seq<View>, proc: Handler)
    requires LastRecordHandler(views, proc)
    ensures var r := Walk(views, IdTable(views), proc, 0, Readies(17), [], [], 0);
      r.processed == ["2"] && r.end == LastRecord && r.logs == [FirstLog()]
  {
    FirstVisitShown(views, proc);
    WalkStep(views, IdTable(views), proc, 0, Readies(17), [], [], 0);
  }

  /**
   * The crawl as written over the last record, entered on its first
   * sub-image with seventeen waits answered: the record is processed twice,
   * and the file for display id 2 is written twice, the second time with
   * the image of info id 2 instead of info id 0.
   */
  lemma RewritesFile(views: seq<View>, fuel: nat)
    requires LastRecordShape(views) && fuel >= 2
    ensures WellFormed(views) && DigitIds(IdTable(views))
    ensures var idAt := IdTable(views);
      var r := WalkAsWritten(views, idAt, Processor(views, idAt), 0, Readies(17), [], [], fuel);
      var reqs := Downloads(LastRecordService(), r.logs);
      && r.processed == ["2", "3"] && |reqs| == 3
      && reqs[0].file == reqs[2].file == FileName("7", "2") && reqs[0].imageUrl != reqs[2].imageUrl
  {
    ProcessorHandles(views);
    WalkAsWrittenTwice(views, Processor(views, IdTable(views)), fuel);
    BothRequests();
    assert ImageOf("a")[0] != ImageOf("c")[0];
  }

  /**
   * The corrected crawl over the same record and answers: the pager that
   * does nothing leaves display id 3 shown, which is what was shown before
   * the click, so the crawl ends at the last record and no file is written
   * twice.
   */
  lemma WritesOnce(views: seq<View>)
    requires LastRecordShape(views)
    ensures WellFormed(views) && DigitIds(IdTable(views))
    ensures var idAt := IdTable(views);
      var r := Walk(views, idAt, Processor(views, idAt), 0, Readies(17), [], [], 0);
      var reqs := Downloads(LastRecordService(), r.logs);
      r.processed == ["2"] && |reqs| == 2 && Distinct(Files(reqs))
  {
    ProcessorHandles(views);
    WalkOnce(views, Processor(views, IdTable(views)));
    FirstFiles();
  }
}
