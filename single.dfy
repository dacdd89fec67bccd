/**
 * The single-record crawler: open the location given on the command line,
 * wait for the expand button, read the display id and run the same three
 * passes as the batch crawler on that one record. Any exception, from the
 * page load, the wait or the exit from fullscreen, is caught by the
 * top-level handler and ends the run.
 */
module Single {
  import opened Wrappers
  import opened Lists
  import opened Viewer
  import opened Passes
  import opened Record
  import Walker
  import Locator

  /** How a run of the single-record crawler ends. */
  datatype RunEnd =
    | NotLoaded     // the location could not be opened, or the expand button did not appear
    | NoImageId     // the location has no display id
    | Processed     // the three passes ran on the record
    | ExitRaised    // the exception out of the exit from fullscreen reached the top-level handler

  /** What a run did: the record handled (if any), how it ended, the cursor and the answers left. */
  datatype SingleRun = SingleRun(log: Option<RecordLog>, end: RunEnd, at: nat, ui: seq<Wait>)

  /**
   * The run once the viewer shows view `at`: the wait for the expand button
   * must succeed, the location must carry a display id, and then the record
   * is processed. A run that handles no record leaves the cursor where it was.
   */
  function ProcessSingle(views: seq<View>, idAt: seq<Option<string>>, at: nat, ui: seq<Wait>): (r: SingleRun)
    requires WellFormed(views) && at < |views| && |idAt| == |views| && DigitIds(idAt)
    ensures r.at < |views|
    ensures r.end == NotLoaded <==> Poll(ui).0 != Ready
    ensures r.end == NoImageId <==> Poll(ui).0 == Ready && idAt[at].None?
    ensures r.log.Some? <==> r.end == Processed || r.end == ExitRaised
    ensures r.log.Some? ==> r.log.value.entry == idAt[at].value
    ensures r.end == ExitRaised <==> r.log.Some? && r.log.value.end == Aborted
    ensures r.log.None? ==> r.at == at
  {
    var (w, u) := Poll(ui);
    if w != Ready then SingleRun(None, NotLoaded, at, u)
    else match idAt[at]
      case None => SingleRun(None, NoImageId, at, u)
      case Some(id) =>
        RecordFacts(views, idAt, at, u);
        var (log, at', u') := ProcessRecord(views, idAt, at, u);
        SingleRun(Some(log), if log.end == Aborted then ExitRaised else Processed, at', u')
  }

  /**
   * `process_single_url`: `driver.get` lands on the first view with that
   * location; with none, the run ends at once. A record it handles is the
   * one whose display id the given location carries.
   */
  function OpenAndProcess(views: seq<View>, url: string, at: nat, ui: seq<Wait>): (r: SingleRun)
    requires WellFormed(views) && at < |views|
    ensures r.at < |views|
    ensures Find(views, url, 0).None? ==> r == SingleRun(None, NotLoaded, at, ui)
    ensures r.log.Some? ==> Locator.ExtractId(url) == Some(r.log.value.entry)
  {
    match Find(views, url, 0)
    case None => SingleRun(None, NotLoaded, at, ui)
    case Some(i) => ProcessSingle(views, IdTable(views), i, ui)
  }

  /** The image files a run asks for. */
  function Fetched(service: map<string, string>, r: SingleRun): seq<Request> {
    if r.log.Some? then Requests(service, r.log.value.job, r.log.value.items) else []
  }

  /**
   * A run that handles a record counts its sub-images once each from the
   * entry image, handles at most that many, each display id once, and writes
   * each image file at most once.
   */
  lemma SingleFacts(views: seq<View>, idAt: seq<Option<string>>, at: nat, ui: seq<Wait>, service: map<string, string>)
    requires WellFormed(views) && at < |views| && |idAt| == |views| && DigitIds(idAt)
    ensures var r := ProcessSingle(views, idAt, at, ui);
      r.log.Some? ==>
        var log := r.log.value;
        && log.job.count == |log.probed| > 0 && log.probed[0] == log.entry && Distinct(log.probed)
        && |log.items| <= log.job.count && Distinct(DisplayIds(log.items))
        && Distinct(Files(Fetched(service, r)))
  {
    var u := Poll(ui).1;
    if Poll(ui).0 == Ready && idAt[at].Some? {
      RecordFacts(views, idAt, at, u);
      RecordFiles(views, idAt, at, u, service);
    }
  }

  /**
   * The single-record crawler handles a record as the batch crawler's first
   * pass does: once the expand button is there, the record logged is the
   * batch crawl's first record log, and the run raises exactly when that
   * crawl crashes on its first record; a location with no display id ends
   * the batch crawl at once too.
   */
  lemma SingleAsFirstVisit(views: seq<View>, idAt: seq<Option<string>>, at: nat, ui: seq<Wait>)
    requires WellFormed(views) && at < |views| && |idAt| == |views| && DigitIds(idAt)
    ensures var s := ProcessSingle(views, idAt, at, [Ready] + ui);
      var w := Walker.Walk(views, idAt, Walker.Processor(views, idAt), at, ui, [], [], 0);
      && (s.end == NoImageId ==> w.end == Walker.NoEntryId && w.logs == [])
      && (s.log.Some? ==> |w.logs| > 0 && w.logs[0] == s.log.value)
      && (s.end == ExitRaised ==> w.end == Walker.Crashed && w.logs == [s.log.value])
  {
    var proc := Walker.Processor(views, idAt);
    var s := ProcessSingle(views, idAt, at, [Ready] + ui);
    var v := Walker.VisitAt(views, idAt, proc, at, ui, [], Walker.ShownId);
    FirstVisit(views, idAt, at, ui);
    assert s.log == v.log;
    Walker.WalkStep(views, idAt, proc, at, ui, [], [], 0);
    if v.end.None? {
      Walker.WalkExtends(views, idAt, proc, v.at, v.ui, Walker.Noted([], v), Walker.Logged([], v), 1);
    }
  }

  /** The batch crawler's first pass logs what the single-record crawler logs once the expand button is there. */
  lemma FirstVisit(views: seq<View>, idAt: seq<Option<string>>, at: nat, ui: seq<Wait>)
    requires WellFormed(views) && at < |views| && |idAt| == |views| && DigitIds(idAt)
    ensures ProcessSingle(views, idAt, at, [Ready] + ui).log == Walker.VisitAt(views, idAt, Walker.Processor(views, idAt), at, ui, [], Walker.ShownId).log
  {
    assert Poll([Ready] + ui) == (Ready, ui);
    if idAt[at].Some? {
      assert Walker.Processor(views, idAt)(at, ui) == ProcessRecord(views, idAt, at, ui);
    }
  }

  /** `process_single_url` against the browser. */
  method ProcessSingleUrl(b: Browser, url: string) returns (end: RunEnd, handled: nat)
    requires b.Valid()
    modifies b
    ensures b.Valid()
    ensures var r := OpenAndProcess(b.views, url, old(b.at), old(b.ui));
      && end == r.end && b.at == r.at && b.ui == r.ui
      && handled == (if r.log.Some? then |r.log.value.items| else 0)
      && b.requested == old(b.requested) + Fetched(b.service, r)
  {
    handled := 0;
    var loaded := b.Open(url);
    if !loaded {
      return NotLoaded, 0;
    }
    var ready := b.Await();
    if ready != Ready {
      return NotLoaded, 0;
    }
    var imageId := Locator.ExtractId(b.CurrentUrl());
    if imageId.None? {
      return NoImageId, 0;
    }
    var job, aborted;
    job, handled, aborted := ProcessCurrent(b, imageId.value);
    end := if aborted then ExitRaised else Processed;
  }

  /** The command line: exactly one argument, the location, is crawled; anything else is a usage error with exit status 1. */
  method Run(b: Browser, argv: seq<string>) returns (status: nat)
    requires b.Valid()
    modifies b
    ensures b.Valid()
    ensures status == 0 <==> |argv| == 2
    ensures status != 0 ==> status == 1 && b.at == old(b.at) && b.ui == old(b.ui) && b.requested == old(b.requested)
    ensures status == 0 ==> var r := OpenAndProcess(b.views, argv[1], old(b.at), old(b.ui));
      b.at == r.at && b.ui == r.ui && b.requested == old(b.requested) + Fetched(b.service, r)
  {
    if |argv| != 2 {
      return 1;
    }
    var end, handled := ProcessSingleUrl(b, argv[1]);
    status := 0;
  }
}
