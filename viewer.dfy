/**
 * The browser the crawler drives, reduced to what the crawler observes.
 *
 * The viewer is a finite list of views (pages), with a cursor on the one
 * shown. Each view has a location and three navigation controls: the
 * next-image and previous-image chevrons of a compound record and the
 * next-record pager. The waits for the fullscreen controls and for the
 * expand button are answered by the environment, one answer per bounded
 * wait, in order (`ui`). The image service is a map from info-document URL
 * to the document's `@id` field, and every image download the crawler asks
 * for is appended to `requested`.
 */
module Viewer {
  import opened Wrappers
  import Locator
  import Decimal

  /** A navigation control as a bounded wait finds it: not on the page, disabled, or leading to a view. */
  datatype Control = Hidden | Greyed | Shown(target: nat)

  datatype View = View(url: string, nextImage: Control, prevImage: Control, nextRecord: Control)

  /** The end of one bounded wait: the element came, the wait timed out, or the driver raised another error. */
  datatype Wait = Ready | Timeout | Error

  /** The end of one navigation step. */
  datatype Nav = Moved | Disabled | Absent | NoChange

  /** One image download: the image URL and the file it is written to. */
  datatype Request = Request(imageUrl: string, file: string)

  predicate Leads(c: Control, n: nat) {
    c.Shown? ==> c.target < n
  }

  predicate WellFormed(views: seq<View>) {
    forall i :: 0 <= i < |views| ==>
      Leads(views[i].nextImage, |views|) && Leads(views[i].prevImage, |views|) && Leads(views[i].nextRecord, |views|)
  }

  /** Every location the viewer has. */
  function Urls(views: seq<View>): set<string> {
    set i | 0 <= i < |views| :: views[i].url
  }

  /**
   * The display id `extract_id_from_url` reads from each view's location.
   * The passes are stated over such a table, so that what they do with the
   * ids does not depend on how the ids are read.
   */
  function IdTable(views: seq<View>): (r: seq<Option<string>>)
    ensures |r| == |views|
    ensures forall i :: 0 <= i < |r| && r[i].Some? ==> Decimal.IsDigits(r[i].value)
  {
    seq(|views|, i requires 0 <= i < |views| => Locator.ExtractId(views[i].url))
  }

  /**
   * One image-navigation step of a pass: a missing control is Absent, a
   * disabled one is Disabled and is not clicked; otherwise the control is
   * clicked and the step is Moved if the location changed, NoChange if not.
   */
  function Step(views: seq<View>, at: nat, c: Control): (r: (Nav, nat))
    requires at < |views| && Leads(c, |views|)
    ensures r.1 < |views|
  {
    match c
    case Hidden => (Absent, at)
    case Greyed => (Disabled, at)
    case Shown(t) => (if views[t].url != views[at].url then Moved else NoChange, t)
  }

  /**
   * A click moves exactly when the control is there to click and the
   * location it leads to differs; a missing control is reported as such, a
   * greyed one as disabled, and the cursor follows only a shown control.
   */
  lemma StepMeaning(views: seq<View>, at: nat, c: Control)
    requires at < |views| && Leads(c, |views|)
    ensures var r := Step(views, at, c);
      && (r.0 == Moved <==> c.Shown? && views[r.1].url != views[at].url)
      && (r.0 == NoChange <==> c.Shown? && views[r.1].url == views[at].url)
      && (r.0 == Absent <==> c.Hidden?)
      && (r.0 == Disabled <==> c.Greyed?)
      && r.1 == if c.Shown? then c.target else at
  {
  }

  /** Where the cursor lands after one click on the next-image control of view `at` (if it is there to click). */
  function NextAt(views: seq<View>, at: nat): (r: nat)
    requires WellFormed(views) && at < |views|
    ensures r < |views|
  {
    Step(views, at, views[at].nextImage).1
  }

  /** Where the cursor lands after `n` such clicks, whatever each click did. */
  function AheadAt(views: seq<View>, at: nat, n: nat): (r: nat)
    requires WellFormed(views) && at < |views|
    ensures r < |views|
    decreases n
  {
    if n == 0 then at else AheadAt(views, NextAt(views, at), n - 1)
  }

  /** Where the cursor lands after one click on the previous-image control of view `at` (if it is there to click). */
  function PrevAt(views: seq<View>, at: nat): (r: nat)
    requires WellFormed(views) && at < |views|
    ensures r < |views|
  {
    Step(views, at, views[at].prevImage).1
  }

  /** Where the cursor lands after `n` such clicks, whatever each click did. */
  function BackAt(views: seq<View>, at: nat, n: nat): (r: nat)
    requires WellFormed(views) && at < |views|
    ensures r < |views|
    decreases n
  {
    if n == 0 then at else BackAt(views, PrevAt(views, at), n - 1)
  }

  /**
   * The next-record pager: it is only waited for, never checked for being
   * disabled, and it is clicked by script, so a disabled pager is a click
   * that changes nothing.
   */
  function PressNextRecord(views: seq<View>, at: nat): (r: (Nav, nat))
    requires WellFormed(views) && at < |views|
    ensures r.1 < |views|
  {
    match views[at].nextRecord
    case Hidden => (Absent, at)
    case Greyed => (NoChange, at)
    case Shown(t) => Step(views, at, Shown(t))
  }

  /** The next-record pager is absent exactly when hidden, never reports a disabled click, and moves exactly when the location changes. */
  lemma PressNextRecordMeaning(views: seq<View>, at: nat)
    requires WellFormed(views) && at < |views|
    ensures var r := PressNextRecord(views, at);
      && (r.0 == Absent <==> views[at].nextRecord.Hidden?)
      && r.0 in {Moved, Absent, NoChange}
      && (r.0 == Moved <==> views[r.1].url != views[at].url)
  {
  }

  /** One bounded wait for a page element; with no answer left, the wait times out. */
  function Poll(ui: seq<Wait>): (r: (Wait, seq<Wait>))
    ensures ui == [] ==> r == (Timeout, [])
    ensures ui != [] ==> r.0 == ui[0] && r.1 == ui[1..]
  {
    if ui == [] then (Timeout, []) else (ui[0], ui[1..])
  }

  /** The `@id` of the info document at `infoUrl`; None if the request or the field fails. */
  function BaseId(service: map<string, string>, infoUrl: string): Option<string> {
    if infoUrl in service then Some(service[infoUrl]) else None
  }

  /** The first view with location `url`, where `driver.get(url)` lands. */
  function Find(views: seq<View>, url: string, from: nat): (r: Option<nat>)
    ensures r.Some? ==> from <= r.value < |views| && views[r.value].url == url
    ensures r.None? ==> forall i :: from <= i < |views| ==> views[i].url != url
    ensures r.Some? ==> forall i :: from <= i < r.value ==> views[i].url != url
    decreases |views| - from
  {
    if from >= |views| then None
    else if views[from].url == url then Some(from)
    else Find(views, url, from + 1)
  }

  /** The Selenium driver: one browser session. */
  class Browser {
    const views: seq<View>
    const service: map<string, string>
    var at: nat
    var ui: seq<Wait>
    var requested: seq<Request>

    predicate Valid()
      reads this
    {
      WellFormed(views) && at < |views|
    }

    constructor (views: seq<View>, start: nat, ui: seq<Wait>, service: map<string, string>)
      requires WellFormed(views) && start < |views|
      ensures Valid() && this.views == views && this.service == service
      ensures at == start && this.ui == ui && requested == []
    {
      this.views, this.service := views, service;
      this.at, this.ui, this.requested := start, ui, [];
    }

    /** `driver.current_url`. */
    function CurrentUrl(): (u: string)
      reads this
      requires Valid()
      ensures u == views[at].url
    {
      views[at].url
    }

    /** Wait for, check and click the next-image chevron, then wait for the location to change. */
    method NextImage() returns (nav: Nav)
      requires Valid()
      modifies this
      ensures Valid() && (nav, at) == Step(views, old(at), views[old(at)].nextImage)
      ensures ui == old(ui) && requested == old(requested)
    {
      var step := Step(views, at, views[at].nextImage);
      nav, at := step.0, step.1;
    }

    /** Wait for, check and click the previous-image chevron, then wait for the location to change. */
    method PreviousImage() returns (nav: Nav)
      requires Valid()
      modifies this
      ensures Valid() && (nav, at) == Step(views, old(at), views[old(at)].prevImage)
      ensures ui == old(ui) && requested == old(requested)
    {
      var step := Step(views, at, views[at].prevImage);
      nav, at := step.0, step.1;
    }

    /** Wait for the next-record pager, click it by script, then wait for the location to change. */
    method NextRecord() returns (nav: Nav)
      requires Valid()
      modifies this
      ensures Valid() && (nav, at) == PressNextRecord(views, old(at))
      ensures ui == old(ui) && requested == old(requested)
    {
      var step := PressNextRecord(views, at);
      nav, at := step.0, step.1;
    }

    /** One `WebDriverWait(...).until(...)` on a page element. */
    method Await() returns (outcome: Wait)
      requires Valid()
      modifies this
      ensures Valid() && (outcome, ui) == Poll(old(ui))
      ensures at == old(at) && requested == old(requested)
    {
      if ui == [] {
        outcome := Timeout;
      } else {
        outcome, ui := ui[0], ui[1..];
      }
    }

    /** `driver.get(url)`: false when no view of the viewer has that location. */
    method Open(url: string) returns (loaded: bool)
      requires Valid()
      modifies this
      ensures Valid() && ui == old(ui) && requested == old(requested)
      ensures loaded == Find(views, url, 0).Some?
      ensures loaded ==> at == Find(views, url, 0).value
      ensures !loaded ==> at == old(at)
    {
      var i := Find(views, url, 0);
      loaded := i.Some?;
      if loaded {
        at := i.value;
      }
    }

    /** `download_image`: ask for the image at `imageUrl` to be written to `file`. */
    method Download(imageUrl: string, file: string)
      requires Valid()
      modifies this
      ensures Valid() && requested == old(requested) + [Request(imageUrl, file)]
      ensures at == old(at) && ui == old(ui)
    {
      requested := requested + [Request(imageUrl, file)];
    }
  }
}
