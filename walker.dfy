/**
 * The batch crawler's record loop: from the record shown, process every
 * record not processed before (by its entry display id), then page to the
 * next record with the viewer's next-record pager, until a stop condition.
 *
 * `WalkAsWritten` is the loop as the crawler has it: only processed records
 * count toward `max_items`, so a pager that leads back to records already
 * processed keeps the loop going for ever; it is stated with a step bound
 * (`fuel`) and `NeverEnds` exhibits such a crawl. `Walk` counts every
 * pass through the loop toward `max_items`, and is the crawl the method
 * `Crawl` carries out.
 *
 * After a pager click that left the location unchanged, the crawler goes on
 * if the display id then shown differs from the entry id of the record just
 * processed (`EntryId`). The download pass leaves the cursor on the record's
 * last sub-image, so on a record of several images that comparison sees a
 * new id; module `Reentry` shows the record then processed again. `Walk`
 * compares with the display id shown before the click (`ShownId`), so that
 * it goes on only to another location (`AdvanceMoves`).
 */
module Walker {
  import opened Wrappers
  import opened Lists
  import opened Decimal
  import opened Viewer
  import opened Passes
  import opened Record
  import Locator

  /** `max_items`. */
  const MaxItems := 100

  /** How a crawl ends. */
  datatype CrawlEnd =
    | NoEntryId      // the location shown has no display id
    | Budget         // `max_items` reached
    | PagerMissing   // the wait for the next-record pager timed out
    | LastRecord     // the location did not change and shows no new display id
    | NotReloaded    // the location did not change and the expand button did not come back
    | LoadError      // the wait for the next record's expand button raised a non-timeout error
    | Crashed        // the exception out of the exit from fullscreen reached the top-level handler
    | OutOfFuel      // the step bound of `WalkAsWritten` ran out

  /** The wait for the next record's expand button: a timeout is only reported, another error ends the crawl. */
  function Settle(at: nat, ui: seq<Wait>): (r: (Option<CrawlEnd>, nat, seq<Wait>))
    ensures r.0.Some? <==> ui != [] && ui[0] == Error
    ensures r.0.Some? ==> r.0.value == LoadError
    ensures r.1 == at && |r.2| <= |ui|
  {
    var (w, rest) := Poll(ui);
    (if w == Error then Some(LoadError) else None, at, rest)
  }

  /**
   * What the display id read after a pager click that left the location
   * unchanged is compared with: the entry id of the record, as the crawler
   * does, or the display id shown just before the click.
   */
  datatype Check = EntryId | ShownId

  /**
   * Paging to the next record from view `at`: the crawl goes on, or ends
   * for the reason given. After a click that left the location unchanged,
   * the crawl goes on only if the location shows a display id other than
   * `before`.
   */
  function Advance(views: seq<View>, idAt: seq<Option<string>>, at: nat, ui: seq<Wait>, before: Option<string>): (r: (Option<CrawlEnd>, nat, seq<Wait>))
    requires WellFormed(views) && at < |views| && |idAt| == |views|
    ensures r.1 < |views| && |r.2| <= |ui| && r.0 != Some(OutOfFuel)
  {
    var (nav, t) := PressNextRecord(views, at);
    if nav == Absent then (Some(PagerMissing), at, ui)
    else if nav == Moved then Settle(t, ui)
    else
      var (w, u1) := Poll(ui);
      if w != Ready then (Some(NotReloaded), t, u1)
      else if idAt[t].Some? && idAt[t] != before then Settle(t, u1)
      else (Some(LastRecord), t, u1)
  }

  /**
   * The crawl stops for want of a pager exactly when it is hidden, and goes
   * on only to a view with another location or a display id other than
   * `before`.
   */
  lemma AdvanceMeaning(views: seq<View>, idAt: seq<Option<string>>, at: nat, ui: seq<Wait>, before: Option<string>)
    requires WellFormed(views) && at < |views| && |idAt| == |views|
    ensures var r := Advance(views, idAt, at, ui, before);
      && (r.0 == Some(PagerMissing) <==> views[at].nextRecord.Hidden?)
      && (r.0.None? ==> !views[at].nextRecord.Hidden? && (views[r.1].url != views[at].url || (idAt[r.1].Some? && idAt[r.1] != before)))
      && (r.0.None? || r.0.value in {PagerMissing, LastRecord, NotReloaded, LoadError})
  {
    PressNextRecordMeaning(views, at);
  }

  /**
   * Compared with the display id shown before the click, as `ShownId` does,
   * the crawl goes on only when the pager changed the location: a location
   * left as it was shows the same display id.
   */
  lemma AdvanceMoves(views: seq<View>, at: nat, ui: seq<Wait>)
    requires WellFormed(views) && at < |views|
    ensures var idAt := IdTable(views);
      var r := Advance(views, idAt, at, ui, idAt[at]);
      r.0.None? ==> views[r.1].url != views[at].url
  {
    PressNextRecordMeaning(views, at);
  }

  /**
   * Processing the record shown, as the walk sees it: from the view and the
   * answers it starts with, the record's log, the view it leaves the cursor
   * on and the answers left.
   */
  type Handler = (nat, seq<Wait>) -> (RecordLog, nat, seq<Wait>)

  /** A handler keeps the cursor on the viewer and logs the record under the display id it was entered on. */
  ghost predicate Handles(views: seq<View>, idAt: seq<Option<string>>, proc: Handler) {
    forall at: nat, ui: seq<Wait> :: at < |views| && at < |idAt| && idAt[at].Some? ==>
      proc(at, ui).1 < |views| && proc(at, ui).0.entry == idAt[at].value
  }

  /** The crawler's handler: the three passes of `ProcessRecord` (a placeholder log off its domain, which no walk reaches). */
  function Processor(views: seq<View>, idAt: seq<Option<string>>): (proc: Handler)
    requires WellFormed(views) && |idAt| == |views| && DigitIds(idAt)
    ensures Handles(views, idAt, proc)
  {
    RecordEntries(views, idAt);
    (at: nat, ui: seq<Wait>) =>
      if at < |views| && idAt[at].Some? then ProcessRecord(views, idAt, at, ui)
      else (RecordLog("", Job("", "", 0, 0), [], [], NoIdEnd), at, ui)
  }

  lemma RecordEntries(views: seq<View>, idAt: seq<Option<string>>)
    requires WellFormed(views) && |idAt| == |views| && DigitIds(idAt)
    ensures forall at: nat, ui: seq<Wait> :: at < |views| && idAt[at].Some? ==>
      ProcessRecord(views, idAt, at, ui).0.entry == idAt[at].value
  {
    forall at: nat, ui: seq<Wait> | at < |views| && idAt[at].Some?
      ensures ProcessRecord(views, idAt, at, ui).0.entry == idAt[at].value
    {
      RecordFacts(views, idAt, at, ui);
    }
  }

  /** On every record it can be asked for, `proc` is the crawler's handler. */
  ghost predicate Agrees(views: seq<View>, idAt: seq<Option<string>>, proc: Handler) {
    && WellFormed(views) && |idAt| == |views| && DigitIds(idAt)
    && forall at: nat, ui: seq<Wait> {:trigger ProcessRecord(views, idAt, at, ui)} ::
         at < |views| && idAt[at].Some? ==> proc(at, ui) == ProcessRecord(views, idAt, at, ui)
  }

  /** One pass through the loop body: the record processed (if any), the end of the crawl (if it ends), the cursor and the answers left. */
  datatype Visit = Visit(log: Option<RecordLog>, end: Option<CrawlEnd>, at: nat, ui: seq<Wait>)

  /**
   * One pass through the record loop with the entry ids in `processed`
   * already processed: no id ends the crawl; a processed id is skipped and
   * the crawler pages on; a new one is processed first, and an exception out
   * of its download pass ends the crawl. `check` says what the pager step
   * compares with once the record is processed.
   */
  function VisitAt(views: seq<View>, idAt: seq<Option<string>>, proc: Handler, at: nat, ui: seq<Wait>, processed: seq<string>, check: Check): (r: Visit)
    requires WellFormed(views) && at < |views| && |idAt| == |views| && Handles(views, idAt, proc)
    ensures r.at < |views| && r.end != Some(OutOfFuel)
    ensures r.end == Some(NoEntryId) <==> idAt[at].None?
    ensures r.log.Some? <==> idAt[at].Some? && idAt[at].value !in processed
    ensures r.log.Some? ==> r.log.value.entry == idAt[at].value
    ensures r.end == Some(Crashed) <==> r.log.Some? && r.log.value.end == Aborted
  {
    match idAt[at]
    case None => Visit(None, Some(NoEntryId), at, ui)
    case Some(id) =>
      if id in processed then
        var (end, next, u) := Advance(views, idAt, at, ui, Some(id));
        Visit(None, end, next, u)
      else
        var (log, at', u1) := proc(at, ui);
        if log.end == Aborted then Visit(Some(log), Some(Crashed), at', u1)
        else
          var (end, next, u2) := Advance(views, idAt, at', u1, if check == EntryId then Some(id) else idAt[at']);
          Visit(Some(log), end, next, u2)
  }

  /** The processed entry ids after a visit. */
  function Noted(processed: seq<string>, v: Visit): seq<string> {
    if v.log.Some? then processed + [v.log.value.entry] else processed
  }

  /** The record logs after a visit. */
  function Logged(logs: seq<RecordLog>, v: Visit): seq<RecordLog> {
    if v.log.Some? then logs + [v.log.value] else logs
  }

  /** The outcome of a crawl. */
  datatype CrawlResult = CrawlResult(processed: seq<string>, logs: seq<RecordLog>, end: CrawlEnd, at: nat, ui: seq<Wait>)

  /** The record loop as written: only processed records count toward `max_items`; `fuel` bounds the number of passes modelled. */
  function WalkAsWritten(views: seq<View>, idAt: seq<Option<string>>, proc: Handler, at: nat, ui: seq<Wait>,
                         processed: seq<string>, logs: seq<RecordLog>, fuel: nat): (r: CrawlResult)
    requires WellFormed(views) && at < |views| && |idAt| == |views| && Handles(views, idAt, proc)
    ensures |processed| <= |r.processed| && (|processed| <= MaxItems ==> |r.processed| <= MaxItems)
    decreases fuel
  {
    if |processed| >= MaxItems then CrawlResult(processed, logs, Budget, at, ui)
    else if fuel == 0 then CrawlResult(processed, logs, OutOfFuel, at, ui)
    else
      var v := VisitAt(views, idAt, proc, at, ui, processed, EntryId);
      if v.end.Some? then CrawlResult(Noted(processed, v), Logged(logs, v), v.end.value, v.at, v.ui)
      else WalkAsWritten(views, idAt, proc, v.at, v.ui, Noted(processed, v), Logged(logs, v), fuel - 1)
  }

  /**
   * The loop as written keeps the same books as the corrected one: each
   * entry id is processed at most once, one record is logged per processed
   * id in the same order, and at most `max_items` records are processed.
   */
  lemma {:induction false} WalkAsWrittenFacts(views: seq<View>, idAt: seq<Option<string>>, proc: Handler, at: nat, ui: seq<Wait>,
                                              processed: seq<string>, logs: seq<RecordLog>, fuel: nat)
    requires WellFormed(views) && at < |views| && |idAt| == |views| && Handles(views, idAt, proc)
    requires Distinct(processed) && |logs| == |processed| <= MaxItems
    requires forall i :: 0 <= i < |logs| ==> logs[i].entry == processed[i]
    ensures var r := WalkAsWritten(views, idAt, proc, at, ui, processed, logs, fuel);
      && Distinct(r.processed) && |r.logs| == |r.processed| <= MaxItems
      && (forall i :: 0 <= i < |r.logs| ==> r.logs[i].entry == r.processed[i])
    decreases fuel
  {
    if |processed| < MaxItems && fuel > 0 {
      var v := VisitAt(views, idAt, proc, at, ui, processed, EntryId);
      WalkAsWrittenStep(views, idAt, proc, at, ui, processed, logs, fuel);
      if v.log.Some? {
        DistinctAppend(processed, v.log.value.entry);
      }
      if v.end.None? {
        WalkAsWrittenFacts(views, idAt, proc, v.at, v.ui, Noted(processed, v), Logged(logs, v), fuel - 1);
      }
    }
  }

  /** A pass of the loop as written that ends it gives its outcome; any other pass leaves the rest to the next one. */
  lemma WalkAsWrittenStep(views: seq<View>, idAt: seq<Option<string>>, proc: Handler, at: nat, ui: seq<Wait>,
                          processed: seq<string>, logs: seq<RecordLog>, fuel: nat)
    requires WellFormed(views) && at < |views| && |idAt| == |views| && Handles(views, idAt, proc)
    requires |processed| < MaxItems && fuel > 0
    ensures var v := VisitAt(views, idAt, proc, at, ui, processed, EntryId);
      var r := WalkAsWritten(views, idAt, proc, at, ui, processed, logs, fuel);
      if v.end.Some? then
        r.processed == Noted(processed, v) && r.logs == Logged(logs, v) && r.end == v.end.value && r.at == v.at && r.ui == v.ui
      else
        r == WalkAsWritten(views, idAt, proc, v.at, v.ui, Noted(processed, v), Logged(logs, v), fuel - 1)
  {
  }

  /** The record loop with every pass counted toward `max_items`; `visits` passes are behind. */
  function Walk(views: seq<View>, idAt: seq<Option<string>>, proc: Handler, at: nat, ui: seq<Wait>,
                processed: seq<string>, logs: seq<RecordLog>, visits: nat): (r: CrawlResult)
    requires WellFormed(views) && at < |views| && |idAt| == |views| && Handles(views, idAt, proc) && visits <= MaxItems
    ensures r.at < |views| && r.end != OutOfFuel
    decreases MaxItems - visits, 1
  {
    if visits >= MaxItems then CrawlResult(processed, logs, Budget, at, ui)
    else WalkPass(views, idAt, proc, at, ui, processed, logs, visits)
  }

  /** One pass of the loop: process the record on show, then either stop or go on walking. */
  function WalkPass(views: seq<View>, idAt: seq<Option<string>>, proc: Handler, at: nat, ui: seq<Wait>,
                    processed: seq<string>, logs: seq<RecordLog>, visits: nat): (r: CrawlResult)
    requires WellFormed(views) && at < |views| && |idAt| == |views| && Handles(views, idAt, proc) && visits < MaxItems
    ensures r.at < |views| && r.end != OutOfFuel
    decreases MaxItems - visits, 0
  {
    var v := VisitAt(views, idAt, proc, at, ui, processed, ShownId);
    if v.end.Some? then CrawlResult(Noted(processed, v), Logged(logs, v), v.end.value, v.at, v.ui)
    else Walk(views, idAt, proc, v.at, v.ui, Noted(processed, v), Logged(logs, v), visits + 1)
  }

  /** A pass that ends the walk gives its outcome; any other pass leaves the rest of the walk to the next one. */
  lemma WalkStep(views: seq<View>, idAt: seq<Option<string>>, proc: Handler, at: nat, ui: seq<Wait>,
                 processed: seq<string>, logs: seq<RecordLog>, visits: nat)
    requires WellFormed(views) && at < |views| && |idAt| == |views| && Handles(views, idAt, proc) && visits < MaxItems
    ensures var v := VisitAt(views, idAt, proc, at, ui, processed, ShownId);
      var r := Walk(views, idAt, proc, at, ui, processed, logs, visits);
      if v.end.Some? then
        r.processed == Noted(processed, v) && r.logs == Logged(logs, v) && r.end == v.end.value && r.at == v.at && r.ui == v.ui
      else
        r == Walk(views, idAt, proc, v.at, v.ui, Noted(processed, v), Logged(logs, v), visits + 1)
  {
  }

  /**
   * The crawl processes each entry id at most once, logs one record per
   * processed id in the same order, and processes at most `max_items`
   * records.
   */
  lemma {:induction false} WalkFacts(views: seq<View>, idAt: seq<Option<string>>, proc: Handler, at: nat, ui: seq<Wait>,
                                     processed: seq<string>, logs: seq<RecordLog>, visits: nat)
    requires WellFormed(views) && at < |views| && |idAt| == |views| && Handles(views, idAt, proc)
    requires Distinct(processed) && |logs| == |processed| && |processed| <= visits <= MaxItems
    requires forall i :: 0 <= i < |logs| ==> logs[i].entry == processed[i]
    ensures var r := Walk(views, idAt, proc, at, ui, processed, logs, visits);
      && Distinct(r.processed) && |r.logs| == |r.processed| <= MaxItems
      && (forall i :: 0 <= i < |r.logs| ==> r.logs[i].entry == r.processed[i])
    decreases MaxItems - visits
  {
    if visits < MaxItems {
      var v := VisitAt(views, idAt, proc, at, ui, processed, ShownId);
      WalkStep(views, idAt, proc, at, ui, processed, logs, visits);
      if v.log.Some? {
        DistinctAppend(processed, v.log.value.entry);
      }
      if v.end.None? {
        WalkFacts(views, idAt, proc, v.at, v.ui, Noted(processed, v), Logged(logs, v), visits + 1);
      }
    }
  }

  /** The crawl only appends to the record logs it starts with. */
  lemma {:induction false} WalkExtends(views: seq<View>, idAt: seq<Option<string>>, proc: Handler, at: nat, ui: seq<Wait>,
                                       processed: seq<string>, logs: seq<RecordLog>, visits: nat)
    requires WellFormed(views) && at < |views| && |idAt| == |views| && Handles(views, idAt, proc) && visits <= MaxItems
    ensures var r := Walk(views, idAt, proc, at, ui, processed, logs, visits);
      |logs| <= |r.logs| && r.logs[..|logs|] == logs
    decreases MaxItems - visits
  {
    if visits < MaxItems {
      var v := VisitAt(views, idAt, proc, at, ui, processed, ShownId);
      WalkStep(views, idAt, proc, at, ui, processed, logs, visits);
      if v.end.None? {
        var logs' := Logged(logs, v);
        WalkExtends(views, idAt, proc, v.at, v.ui, Noted(processed, v), logs', visits + 1);
        var r := Walk(views, idAt, proc, v.at, v.ui, Noted(processed, v), logs', visits + 1);
        assert r.logs[..|logs|] == r.logs[..|logs'|][..|logs|];
      }
    }
  }

  /** Every next-record pager of the viewer is shown and its click changes the location. */
  predicate PagerMoves(views: seq<View>)
    requires WellFormed(views)
  {
    forall i :: 0 <= i < |views| ==> PressNextRecord(views, i).0 == Moved
  }

  /**
   * When the pager click moves, the crawl goes on or ends as the wait for
   * the next record's expand button says, whatever id it is compared with.
   */
  lemma AdvanceIgnoresCheck(views: seq<View>, idAt: seq<Option<string>>, at: nat, ui: seq<Wait>, b1: Option<string>, b2: Option<string>)
    requires WellFormed(views) && at < |views| && |idAt| == |views| && PagerMoves(views)
    ensures Advance(views, idAt, at, ui, b1) == Advance(views, idAt, at, ui, b2)
  {
    assert PressNextRecord(views, at).0 == Moved;
  }

  /** On a viewer whose pager always moves, a pass is the same whether it compares with the entry id or the id shown. */
  lemma VisitChecksAgree(views: seq<View>, idAt: seq<Option<string>>, proc: Handler, at: nat, ui: seq<Wait>, processed: seq<string>)
    requires WellFormed(views) && at < |views| && |idAt| == |views| && Handles(views, idAt, proc) && PagerMoves(views)
    ensures VisitAt(views, idAt, proc, at, ui, processed, EntryId) == VisitAt(views, idAt, proc, at, ui, processed, ShownId)
  {
    if idAt[at].Some? && idAt[at].value !in processed {
      var (log, at', u1) := proc(at, ui);
      AdvanceIgnoresCheck(views, idAt, at', u1, idAt[at], idAt[at']);
    }
  }

  /** No pass of the crawl from here meets a display id already processed. */
  ghost predicate NoRevisit(views: seq<View>, idAt: seq<Option<string>>, proc: Handler, at: nat, ui: seq<Wait>,
                            processed: seq<string>, visits: nat)
    requires WellFormed(views) && at < |views| && |idAt| == |views| && Handles(views, idAt, proc) && visits <= MaxItems
    decreases MaxItems - visits
  {
    visits < MaxItems ==>
      && (idAt[at].Some? ==> idAt[at].value !in processed)
      && var v := VisitAt(views, idAt, proc, at, ui, processed, ShownId);
         v.end.None? ==> NoRevisit(views, idAt, proc, v.at, v.ui, Noted(processed, v), visits + 1)
  }

  /**
   * On the crawls where the two loops cannot differ, the corrected loop is
   * the loop as written: every pager click moves, so the id compared with
   * is never consulted, and no pass meets a processed id, so every pass
   * processes a record and the passes counted are the records processed.
   * Enough steps of the loop as written then give the same outcome.
   */
  lemma {:induction false} WalkAgrees(views: seq<View>, idAt: seq<Option<string>>, proc: Handler, at: nat, ui: seq<Wait>,
                                      processed: seq<string>, logs: seq<RecordLog>, fuel: nat)
    requires WellFormed(views) && at < |views| && |idAt| == |views| && Handles(views, idAt, proc)
    requires PagerMoves(views) && |processed| <= MaxItems && fuel >= MaxItems - |processed|
    requires NoRevisit(views, idAt, proc, at, ui, processed, |processed|)
    ensures Walk(views, idAt, proc, at, ui, processed, logs, |processed|)
         == WalkAsWritten(views, idAt, proc, at, ui, processed, logs, fuel)
    decreases MaxItems - |processed|
  {
    if |processed| < MaxItems {
      var v := VisitAt(views, idAt, proc, at, ui, processed, ShownId);
      VisitChecksAgree(views, idAt, proc, at, ui, processed);
      WalkStep(views, idAt, proc, at, ui, processed, logs, |processed|);
      WalkAsWrittenStep(views, idAt, proc, at, ui, processed, logs, fuel);
      if v.end.None? {
        assert v.log.Some?;
        WalkAgrees(views, idAt, proc, v.at, v.ui, Noted(processed, v), Logged(logs, v), fuel - 1);
      }
    }
  }

  /** Every image file the crawl asks for, record after record. */
  function Downloads(service: map<string, string>, logs: seq<RecordLog>): seq<Request> {
    if logs == [] then []
    else
      var log := logs[|logs| - 1];
      Downloads(service, logs[..|logs| - 1]) + Requests(service, log.job, log.items)
  }

  lemma DownloadsAppend(service: map<string, string>, logs: seq<RecordLog>, log: RecordLog)
    ensures Downloads(service, logs + [log]) == Downloads(service, logs) + Requests(service, log.job, log.items)
  {
    assert (logs + [log])[..|logs|] == logs;
  }

  /** Paging to the next record against the browser, from a location that showed display id `before`. */
  method AdvanceRecord(b: Browser, before: Option<string>) returns (end: Option<CrawlEnd>)
    requires b.Valid()
    modifies b
    ensures b.Valid() && b.requested == old(b.requested)
    ensures (end, b.at, b.ui) == Advance(b.views, IdTable(b.views), old(b.at), old(b.ui), before)
  {
    var nav := b.NextRecord();
    if nav == Absent {
      return Some(PagerMissing);
    }
    if nav == NoChange {
      var expand := b.Await();
      if expand != Ready {
        return Some(NotReloaded);
      }
      var newId := Locator.ExtractId(b.CurrentUrl());
      assert newId == IdTable(b.views)[b.at];
      if newId.None? || newId == before {
        return Some(LastRecord);
      }
    }
    var loaded := b.Await();
    end := if loaded == Error then Some(LoadError) else None;
  }

  /**
   * One pass through the loop body against the browser, with the entry ids
   * in `processed` (whose set is `seen`) processed before: the end of the
   * crawl if it ends, and the entry id of the record processed, if any.
   */
  method VisitCurrent(b: Browser, ghost proc: Handler, ghost processed: seq<string>, seen: set<string>)
    returns (end: Option<CrawlEnd>, entry: Option<string>)
    requires b.Valid() && Agrees(b.views, IdTable(b.views), proc) && Handles(b.views, IdTable(b.views), proc)
    requires seen == Seen(processed)
    modifies b
    ensures b.Valid()
    ensures var v := VisitAt(b.views, IdTable(b.views), proc, old(b.at), old(b.ui), processed, ShownId);
      && end == v.end && b.at == v.at && b.ui == v.ui
      && entry == (if v.log.Some? then Some(v.log.value.entry) else None)
      && b.requested == old(b.requested) + (if v.log.Some? then Requests(b.service, v.log.value.job, v.log.value.items) else [])
  {
    ghost var idAt := IdTable(b.views);
    var imageId := Locator.ExtractId(b.CurrentUrl());
    assert imageId == idAt[b.at];
    if imageId.None? {
      return Some(NoEntryId), None;
    }
    var id := imageId.value;
    if id in seen {
      end := AdvanceRecord(b, imageId);
      entry := None;
    } else {
      assert proc(b.at, b.ui) == ProcessRecord(b.views, idAt, b.at, b.ui);
      var job, handled, aborted := ProcessCurrent(b, id);
      entry := Some(id);
      if aborted {
        return Some(Crashed), entry;
      }
      var shown := Locator.ExtractId(b.CurrentUrl());
      assert shown == idAt[b.at];
      end := AdvanceRecord(b, shown);
    }
  }

  /**
   * The batch crawl from the record shown: how many records it processed
   * and why it ended. Every download it asks for is one of the records'
   * downloads, in order.
   */
  method Crawl(b: Browser) returns (count: nat, end: CrawlEnd)
    requires b.Valid()
    modifies b
    ensures b.Valid()
    ensures var idAt := IdTable(b.views);
      var r := Walk(b.views, idAt, Processor(b.views, idAt), old(b.at), old(b.ui), [], [], 0);
      && count == |r.processed| && end == r.end && b.at == r.at && b.ui == r.ui
      && b.requested == old(b.requested) + Downloads(b.service, r.logs)
  {
    ghost var views, service, before := b.views, b.service, b.requested;
    ghost var idAt := IdTable(views);
    ghost var proc := Processor(views, idAt);
    ghost var walk: Remaining := (at: nat, ui: seq<Wait>, processed: seq<string>, logs: seq<RecordLog>, visits: nat) =>
      if at < |views| && visits <= MaxItems then Walk(views, idAt, proc, at, ui, processed, logs, visits)
      else CrawlResult(processed, logs, Budget, at, ui);
    ghost var asked: Asked := logs => before + Downloads(service, logs);
    assert Agrees(views, idAt, proc);
    assert walk in Walking(views, proc);
    assert Downloads(service, []) == [] && asked([]) == before;
    assert asked in Tallying(service);
    count, end := RecordLoop(b, proc, walk, asked);
  }

  /** The rest of a walk, from the cursor, the answers left, the ids processed, the logs and the passes made. */
  type Remaining = (nat, seq<Wait>, seq<string>, seq<RecordLog>, nat) -> CrawlResult

  /** `walk` gives the rest of the walk with handler `proc`, wherever that is defined. */
  ghost predicate Follows(views: seq<View>, proc: Handler, walk: Remaining) {
    forall at: nat, ui: seq<Wait>, processed: seq<string>, logs: seq<RecordLog>, visits: nat
        {:trigger Walk(views, IdTable(views), proc, at, ui, processed, logs, visits)} ::
      WellFormed(views) && Handles(views, IdTable(views), proc) && at < |views| && visits <= MaxItems ==>
        walk(at, ui, processed, logs, visits) == Walk(views, IdTable(views), proc, at, ui, processed, logs, visits)
  }

  /**
   * The functions that follow the walk. The loop is stated over a member of
   * this set rather than over `Walk` itself, so that what the loop knows of
   * the walk is only what each pass tells it.
   */
  ghost function Walking(views: seq<View>, proc: Handler): iset<Remaining> {
    iset walk: Remaining | Follows(views, proc, walk)
  }

  /** The requests asked for once the records of a log are processed, from those asked for before. */
  type Asked = seq<RecordLog> -> seq<Request>

  /** `asked` appends the downloads of the records logged to the requests asked for before any. */
  ghost predicate Tallies(service: map<string, string>, asked: Asked) {
    forall logs {:trigger Downloads(service, logs)} :: asked(logs) == asked([]) + Downloads(service, logs)
  }

  /** The functions that tally the requests of a crawl against `service`. */
  ghost function Tallying(service: map<string, string>): iset<Asked> {
    iset asked: Asked | Tallies(service, asked)
  }

  /** One pass of the record loop, with its bookkeeping: the entry id processed, if any, and the end of the crawl, if it ends. */
  method Pass(b: Browser, ghost proc: Handler, ghost walk: Remaining, ghost asked: Asked, ghost total: CrawlResult,
              ghost processed: seq<string>, ghost logs: seq<RecordLog>, visits: nat, seen: set<string>, count: nat)
    returns (next: Option<CrawlEnd>, seen': set<string>, count': nat, ghost processed': seq<string>, ghost logs': seq<RecordLog>)
    requires b.Valid() && visits < MaxItems && Agrees(b.views, IdTable(b.views), proc) && Handles(b.views, IdTable(b.views), proc)
    requires walk in Walking(b.views, proc) && walk(b.at, b.ui, processed, logs, visits) == total
    requires asked in Tallying(b.service) && b.requested == asked(logs)
    requires seen == Seen(processed) && count == |processed|
    modifies b
    ensures b.Valid() && b.requested == asked(logs')
    ensures seen' == Seen(processed') && count' == |processed'|
    ensures next.None? ==> walk(b.at, b.ui, processed', logs', visits + 1) == total
    ensures next.Some? ==> && total.processed == processed' && total.logs == logs'
                           && total.end == next.value && total.at == b.at && total.ui == b.ui
  {
    ghost var idAt := IdTable(b.views);
    ghost var v := VisitAt(b.views, idAt, proc, b.at, b.ui, processed, ShownId);
    assert total == Walk(b.views, idAt, proc, b.at, b.ui, processed, logs, visits);
    WalkStep(b.views, idAt, proc, b.at, b.ui, processed, logs, visits);
    ghost var requested := asked([]);
    assert asked(logs) == requested + Downloads(b.service, logs);
    var entry;
    next, entry := VisitCurrent(b, proc, processed, seen);
    seen', count' := seen, count;
    if entry.Some? {
      SeenAppend(processed, entry.value);
      seen', count' := seen + {entry.value}, count + 1;
      DownloadsAppend(b.service, logs, v.log.value);
      AppendAssoc(requested, Downloads(b.service, logs), Requests(b.service, v.log.value.job, v.log.value.items));
      assert asked(logs + [v.log.value]) == requested + Downloads(b.service, logs + [v.log.value]);
    }
    processed', logs' := Noted(processed, v), Logged(logs, v);
    if next.None? {
      assert walk(b.at, b.ui, processed', logs', visits + 1) == Walk(b.views, idAt, proc, b.at, b.ui, processed', logs', visits + 1);
    }
  }

  /** The record loop of `Crawl`, stated for any handler that agrees with the crawler's. */
  method RecordLoop(b: Browser, ghost proc: Handler, ghost walk: Remaining, ghost asked: Asked) returns (count: nat, end: CrawlEnd)
    requires b.Valid() && Agrees(b.views, IdTable(b.views), proc) && Handles(b.views, IdTable(b.views), proc)
    requires walk in Walking(b.views, proc) && asked in Tallying(b.service) && asked([]) == b.requested
    modifies b
    ensures b.Valid()
    ensures var r := walk(old(b.at), old(b.ui), [], [], 0);
      && count == |r.processed| && end == r.end && b.at == r.at && b.ui == r.ui
      && b.requested == asked(r.logs)
  {
    ghost var total := walk(b.at, b.ui, [], [], 0);
    ghost var processed: seq<string> := [];
    ghost var logs: seq<RecordLog> := [];
    var seen: set<string> := {};
    var visits := 0;
    count := 0;
    while visits < MaxItems
      invariant b.Valid() && visits <= MaxItems && seen == Seen(processed) && count == |processed|
      invariant walk(b.at, b.ui, processed, logs, visits) == total
      invariant b.requested == asked(logs)
      decreases MaxItems - visits
    {
      var next;
      next, seen, count, processed, logs := Pass(b, proc, walk, asked, total, processed, logs, visits, seen, count);
      if next.Some? {
        return count, next.value;
      }
      visits := visits + 1;
    }
    assert total == Walk(b.views, IdTable(b.views), proc, b.at, b.ui, processed, logs, visits);
    return count, Budget;
  }

  // ------------------------------------------------ a crawl that does not end

  /** Two single-image records, each record's pager leading to the other. */
  predicate TwoRecordCycle(views: seq<View>, idAt: seq<Option<string>>) {
    && |views| == 2 && |idAt| == 2 && idAt[0] == Some("1") && idAt[1] == Some("2")
    && views[0].url != views[1].url
    && views[0].nextImage == Hidden && views[0].prevImage == Hidden && views[0].nextRecord == Shown(1)
    && views[1].nextImage == Hidden && views[1].prevImage == Hidden && views[1].nextRecord == Shown(0)
  }

  lemma CycleWellFormed(views: seq<View>, idAt: seq<Option<string>>)
    requires TwoRecordCycle(views, idAt)
    ensures WellFormed(views) && DigitIds(idAt)
  {
    assert IsDigits("1") && IsDigits("2");
  }

  /** Once both records are processed, the crawl as written pages between them until its step bound runs out. */
  lemma {:induction false} SkipsForever(views: seq<View>, idAt: seq<Option<string>>, proc: Handler, at: nat, logs: seq<RecordLog>, fuel: nat)
    requires TwoRecordCycle(views, idAt) && WellFormed(views) && Handles(views, idAt, proc) && at < 2
    ensures WalkAsWritten(views, idAt, proc, at, [], ["1", "2"], logs, fuel).end == OutOfFuel
    decreases fuel
  {
    if fuel > 0 {
      assert VisitAt(views, idAt, proc, at, [], ["1", "2"], EntryId) == Visit(None, None, 1 - at, []);
      SkipsForever(views, idAt, proc, 1 - at, logs, fuel - 1);
    }
  }

  /** The two records as the viewer shows them. */
  function CycleViews(): (views: seq<View>)
    ensures TwoRecordCycle(views, IdTable(views))
  {
    var a := Locator.Location("lclma", "1", None);
    var b := Locator.Location("lclma", "2", None);
    Locator.LocationRoundTrip("lclma", "1", None);
    Locator.LocationRoundTrip("lclma", "2", None);
    assert a[|a| - 1] != b[|b| - 1];
    [View(a, Hidden, Hidden, Shown(1)), View(b, Hidden, Hidden, Shown(0))]
  }

  /** Each of the two records is processed without a wait answered: one image, handled, and the cursor stays. */
  lemma CycleRecord(views: seq<View>, idAt: seq<Option<string>>, at: nat)
    requires TwoRecordCycle(views, idAt) && at < 2
    ensures WellFormed(views) && DigitIds(idAt)
    ensures var r := ProcessRecord(views, idAt, at, []);
      r.0.end == Finished && r.1 == at && r.2 == []
  {
    CycleWellFormed(views, idAt);
    var probe := ProbeFrom(views, idAt, at, []);
    assert probe.ids == [idAt[at].value] && probe.at == at;
    assert RewindFrom(views, at).at == at;
  }

  /**
   * A crawl as written over the two records, whatever the record handler,
   * provided that handling either record answers no wait, does not abort
   * and leaves the cursor where it was: it processes both records and then
   * never ends, whatever the step bound.
   */
  lemma CycleNeverEnds(views: seq<View>, idAt: seq<Option<string>>, proc: Handler, fuel: nat)
    requires TwoRecordCycle(views, idAt) && WellFormed(views) && Handles(views, idAt, proc)
    requires forall at: nat :: at < 2 ==> proc(at, []).0.end != Aborted && proc(at, []).1 == at && proc(at, []).2 == []
    ensures WalkAsWritten(views, idAt, proc, 0, [], [], [], fuel).end == OutOfFuel
  {
    var v1 := VisitAt(views, idAt, proc, 0, [], [], EntryId);
    assert v1.log.Some? && v1.end.None? && v1.at == 1 && v1.ui == [];
    assert Noted([], v1) == ["1"] && Logged([], v1) == [v1.log.value];
    if fuel == 1 {
      assert WalkAsWritten(views, idAt, proc, 1, [], Noted([], v1), Logged([], v1), 0).end == OutOfFuel;
    } else if fuel >= 2 {
      var v2 := VisitAt(views, idAt, proc, 1, [], ["1"], EntryId);
      assert v2.log.Some? && v2.end.None? && v2.at == 0 && v2.ui == [];
      assert ["1"] + ["2"] == ["1", "2"];
      assert [v1.log.value] + [v2.log.value] == [v1.log.value, v2.log.value];
      SkipsForever(views, idAt, proc, 0, [v1.log.value, v2.log.value], fuel - 2);
      assert WalkAsWritten(views, idAt, proc, 1, [], ["1"], [v1.log.value], fuel - 1).end == OutOfFuel;
    } else {
      assert fuel == 0;
    }
  }

  /**
   * From the first of the two records, with every wait timing out, the
   * crawl as written processes both records and then never ends.
   */
  lemma CycleProcessorNeverEnds(views: seq<View>, idAt: seq<Option<string>>, fuel: nat)
    requires TwoRecordCycle(views, idAt)
    ensures WellFormed(views) && DigitIds(idAt)
    ensures WalkAsWritten(views, idAt, Processor(views, idAt), 0, [], [], [], fuel).end == OutOfFuel
  {
    CycleWellFormed(views, idAt);
    var proc := Processor(views, idAt);
    forall at: nat | at < 2
      ensures proc(at, []).0.end != Aborted && proc(at, []).1 == at && proc(at, []).2 == []
    {
      CycleRecord(views, idAt, at);
    }
    CycleNeverEnds(views, idAt, proc, fuel);
  }

  /** Such a pair of records exists. */
  lemma NeverEnds(fuel: nat)
    ensures var views := CycleViews();
      var idAt := IdTable(views);
      WellFormed(views) && DigitIds(idAt)
      && WalkAsWritten(views, idAt, Processor(views, idAt), 0, [], [], [], fuel).end == OutOfFuel
  {
    CycleProcessorNeverEnds(CycleViews(), IdTable(CycleViews()), fuel);
  }

  /** With every pass counted, the same crawl ends once `max_items` passes are spent, each record processed once. */
  lemma {:induction false} SkipsEnd(views: seq<View>, idAt: seq<Option<string>>, proc: Handler, at: nat, logs: seq<RecordLog>, visits: nat)
    requires TwoRecordCycle(views, idAt) && WellFormed(views) && Handles(views, idAt, proc) && at < 2 && visits <= MaxItems
    ensures var r := Walk(views, idAt, proc, at, [], ["1", "2"], logs, visits);
      r.end == Budget && r.processed == ["1", "2"]
    decreases MaxItems - visits
  {
    if visits < MaxItems {
      var v := VisitAt(views, idAt, proc, at, [], ["1", "2"], ShownId);
      assert v == Visit(None, None, 1 - at, []);
      WalkStep(views, idAt, proc, at, [], ["1", "2"], logs, visits);
      SkipsEnd(views, idAt, proc, 1 - at, logs, visits + 1);
    }
  }
}
