/**
 * One compound record, from the view the crawler entered it on: read the
 * record number and collection from the location, count the sub-images
 * (probe), go back to the first one (rewind) and download them one by one.
 * The batch crawler and the single-record crawler do this in the same way.
 */
module Record {
  import opened Wrappers
  import opened Lists
  import opened Decimal
  import opened Viewer
  import opened Iiif
  import opened IdMapper
  import opened Passes
  import Locator

  /** Every display id in the table is a digit string, as `extract_id_from_url` reads it. */
  predicate DigitIds(idAt: seq<Option<string>>) {
    forall i :: 0 <= i < |idAt| && idAt[i].Some? ==> IsDigits(idAt[i].value)
  }

  /** What the record's location and the probe's count give the download pass. */
  function JobOf(url: string, imageId: string, count: nat): (j: Job)
    requires IsDigits(imageId)
    ensures j.count == count && j.first + count == DigitsValue(imageId)
  {
    Job(Locator.CollectionOf(url), Locator.RecNumber(url, imageId), FirstInfoId(imageId, count), count)
  }

  /** What handling one record did: the entry display id, the download job, the probed ids, the handled images and why the download pass ended. */
  datatype RecordLog = RecordLog(entry: string, job: Job, probed: seq<string>, items: seq<Handled>, end: PassEnd)

  /** The three passes over the record entered on view `at`. */
  function ProcessRecord(views: seq<View>, idAt: seq<Option<string>>, at: nat, ui: seq<Wait>): (r: (RecordLog, nat, seq<Wait>))
    requires WellFormed(views) && at < |views| && |idAt| == |views| && DigitIds(idAt) && idAt[at].Some?
    ensures r.1 < |views|
  {
    var imageId := idAt[at].value;
    var probe := ProbeFrom(views, idAt, at, []);
    var job := JobOf(views[at].url, imageId, |probe.ids|);
    var back := RewindFrom(views, probe.at);
    var pass := DownloadFrom(views, idAt, job, InFullscreen, back.at, ui, []);
    (RecordLog(imageId, job, probe.ids, pass.items, pass.end), pass.at, pass.ui)
  }

  /**
   * The record's sub-images are counted once each, starting with the entry
   * image; the download pass handles at most that many, each display id
   * once, and gives them the consecutive info ids that end just below the
   * entry display id.
   */
  lemma RecordFacts(views: seq<View>, idAt: seq<Option<string>>, at: nat, ui: seq<Wait>)
    requires WellFormed(views) && at < |views| && |idAt| == |views| && DigitIds(idAt) && idAt[at].Some?
    ensures var log := ProcessRecord(views, idAt, at, ui).0;
      && log.entry == idAt[at].value
      && log.job.count == |log.probed| > 0 && log.probed[0] == log.entry && Distinct(log.probed)
      && |log.items| <= log.job.count && Distinct(DisplayIds(log.items))
      && (forall j :: 0 <= j < |log.items| ==>
            log.items[j].infoId == log.job.first + j && log.items[j].infoId < DigitsValue(log.entry))
  {
    var imageId := idAt[at].value;
    var probe := ProbeFrom(views, idAt, at, []);
    ProbeCounts(views, idAt, at);
    var job := JobOf(views[at].url, imageId, |probe.ids|);
    var back := RewindFrom(views, probe.at);
    DownloadEnds(views, idAt, job, InFullscreen, back.at, ui, []);
    DownloadInfoIds(views, idAt, job, InFullscreen, back.at, ui, []);
  }

  /** Within one record, no image file is written twice. */
  lemma RecordFiles(views: seq<View>, idAt: seq<Option<string>>, at: nat, ui: seq<Wait>, service: map<string, string>)
    requires WellFormed(views) && at < |views| && |idAt| == |views| && DigitIds(idAt) && idAt[at].Some?
    ensures var log := ProcessRecord(views, idAt, at, ui).0;
      Distinct(Files(Requests(service, log.job, log.items)))
  {
    var imageId := idAt[at].value;
    var probe := ProbeFrom(views, idAt, at, []);
    var job := JobOf(views[at].url, imageId, |probe.ids|);
    var back := RewindFrom(views, probe.at);
    PassFiles(views, idAt, job, InFullscreen, back.at, ui, service);
  }

  /** The three passes against the browser, on the record of the location shown. */
  method ProcessCurrent(b: Browser, imageId: string) returns (job: Job, handled: nat, aborted: bool)
    requires b.Valid() && Locator.ExtractId(b.CurrentUrl()) == Some(imageId)
    modifies b
    ensures b.Valid()
    ensures var r := ProcessRecord(b.views, IdTable(b.views), old(b.at), old(b.ui));
      && job == r.0.job && handled == |r.0.items| && aborted == (r.0.end == Aborted)
      && b.at == r.1 && b.ui == r.2
      && b.requested == old(b.requested) + Requests(b.service, job, r.0.items)
  {
    ghost var idAt := IdTable(b.views);
    assert idAt[b.at] == Some(imageId);
    var url := b.CurrentUrl();
    var ids, seen, count := Probe(b);
    job := JobOf(url, imageId, count);
    Rewind(b);
    handled, aborted := DownloadPass(b, job);
  }
}
