/**
 * The three passes over the sub-images of one compound record: the probe
 * that counts them, the rewind to the first one, and the download pass.
 * Each pass is a specification function over the viewer's views, the
 * cursor and the queue of wait answers, and a method over the browser that
 * is proved to compute it.
 */
module Passes {
  import opened Wrappers
  import opened Lists
  import opened Viewer
  import opened Fullscreen
  import opened Iiif
  import opened IdMapper
  import opened Decimal
  import Locator

  /** View `i` carries a display id that is not in `ids`. */
  predicate FreshAt(idAt: seq<Option<string>>, ids: seq<string>, i: nat)
    requires i < |idAt|
  {
    idAt[i].Some? && idAt[i].value !in ids
  }

  /** How many of the first `n` views carry a display id not in `ids`: what a walk that stops at a repeated id has left to visit. */
  function Unvisited(idAt: seq<Option<string>>, ids: seq<string>, n: nat): nat
    requires n <= |idAt|
  {
    if n == 0 then 0 else Unvisited(idAt, ids, n - 1) + (if FreshAt(idAt, ids, n - 1) then 1 else 0)
  }

  /** Collecting the id of view `at` leaves one view fewer to visit. */
  lemma {:induction false} UnvisitedShrinks(idAt: seq<Option<string>>, ids: seq<string>, at: nat, n: nat)
    requires at < |idAt| && FreshAt(idAt, ids, at) && n <= |idAt|
    ensures Unvisited(idAt, ids + [idAt[at].value], n) <= Unvisited(idAt, ids, n)
    ensures at < n ==> Unvisited(idAt, ids + [idAt[at].value], n) < Unvisited(idAt, ids, n)
  {
    if n > 0 {
      var x := idAt[at].value;
      UnvisitedShrinks(idAt, ids, at, n - 1);
      var y := idAt[n - 1];
      if y.Some? {
        InAppend(ids, x, y.value);
      }
      assert FreshAt(idAt, ids + [x], n - 1) ==> FreshAt(idAt, ids, n - 1);
      if n - 1 == at {
        assert !FreshAt(idAt, ids + [x], n - 1);
      }
    }
  }

  // ---------------------------------------------------------------- probe

  /** Why the probe stopped: no id in the location, an id seen before, or a next-image step that did not move. */
  datatype ProbeEnd = NoId | Repeated(id: string) | Stopped(nav: Nav)

  datatype ProbeResult = ProbeResult(ids: seq<string>, end: ProbeEnd, at: nat)

  /**
   * The first pass from view `at`, with `ids` already collected: record the
   * id in the location unless it is missing or already collected, then
   * click the next-image control and go on while the location changes.
   */
  function ProbeFrom(views: seq<View>, idAt: seq<Option<string>>, at: nat, ids: seq<string>): (r: ProbeResult)
    requires WellFormed(views) && at < |views| && |idAt| == |views|
    ensures r.at < |views| && |ids| <= |r.ids|
    decreases Unvisited(idAt, ids, |views|)
  {
    match idAt[at]
    case None => ProbeResult(ids, NoId, at)
    case Some(id) =>
      if id in ids then ProbeResult(ids, Repeated(id), at)
      else
        var (nav, next) := Step(views, at, views[at].nextImage);
        if nav != Moved then ProbeResult(ids + [id], Stopped(nav), next)
        else
          UnvisitedShrinks(idAt, ids, at, |views|);
          ProbeFrom(views, idAt, next, ids + [id])
  }

  /**
   * The probe only adds to the ids collected, adds each id once, stops at a
   * repeated id that it holds and that the location shows, and stops at a
   * step that did not move only after collecting the id it stepped from.
   */
  lemma {:induction false} ProbeShape(views: seq<View>, idAt: seq<Option<string>>, at: nat, ids: seq<string>)
    requires WellFormed(views) && at < |views| && |idAt| == |views|
    ensures var r := ProbeFrom(views, idAt, at, ids);
      && |ids| <= |r.ids| && r.ids[..|ids|] == ids
      && (Distinct(ids) ==> Distinct(r.ids))
      && (r.end.Repeated? ==> r.end.id in r.ids && idAt[r.at] == Some(r.end.id))
      && (r.end.Stopped? ==> r.end.nav != Moved && |r.ids| > |ids|)
    decreases Unvisited(idAt, ids, |views|)
  {
    if idAt[at].Some? && idAt[at].value !in ids {
      var id := idAt[at].value;
      var (nav, next) := Step(views, at, views[at].nextImage);
      DistinctAppend(ids, id);
      if nav == Moved {
        UnvisitedShrinks(idAt, ids, at, |views|);
        ProbeShape(views, idAt, next, ids + [id]);
        PrefixStep(ids, id, ProbeFrom(views, idAt, next, ids + [id]).ids);
      }
    }
  }

  /** The outcome of one next-image step from view `at`. */
  function NextNav(views: seq<View>, at: nat): Nav
    requires WellFormed(views) && at < |views|
  {
    Step(views, at, views[at].nextImage).0
  }

  /**
   * What the probe observed: the k ids it added are the ids of the views
   * 0, 1, ..., k - 1 next-image clicks ahead, every click between them
   * moved, it leaves the cursor k clicks ahead, and it ended for the reason
   * it gives.
   */
  lemma {:induction false} ProbeTrail(views: seq<View>, idAt: seq<Option<string>>, at: nat, ids: seq<string>)
    requires WellFormed(views) && at < |views| && |idAt| == |views|
    ensures var r := ProbeFrom(views, idAt, at, ids);
      var k := |r.ids| - |ids|;
      && r.at == AheadAt(views, at, k)
      && (forall i :: 0 <= i < k ==> idAt[AheadAt(views, at, i)] == Some(r.ids[|ids| + i]))
      && (forall i :: 0 <= i < k - 1 ==> NextNav(views, AheadAt(views, at, i)) == Moved)
      && (r.end == NoId ==> idAt[r.at] == None)
      && (r.end.Stopped? ==> k > 0 && NextNav(views, AheadAt(views, at, k - 1)) == r.end.nav)
    decreases Unvisited(idAt, ids, |views|)
  {
    match idAt[at]
    case None =>
    case Some(id) =>
      if id !in ids {
        var (nav, next) := Step(views, at, views[at].nextImage);
        if nav == Moved {
          UnvisitedShrinks(idAt, ids, at, |views|);
          ProbeTrail(views, idAt, next, ids + [id]);
          ProbeShape(views, idAt, next, ids + [id]);
          var r := ProbeFrom(views, idAt, next, ids + [id]);
          var k := |r.ids| - |ids|;
          forall i | 0 <= i < k
            ensures idAt[AheadAt(views, at, i)] == Some(r.ids[|ids| + i])
          {
            if i == 0 {
              assert r.ids[..|ids| + 1] == ids + [id];
              assert r.ids[|ids|] == (ids + [id])[|ids|];
            }
          }
        }
      }
  }

  /**
   * Started with nothing collected, the probe holds each id once, its count
   * is both the list's length and the set's size, and it is empty only when
   * the entry location has no id.
   */
  lemma ProbeCounts(views: seq<View>, idAt: seq<Option<string>>, at: nat)
    requires WellFormed(views) && at < |views| && |idAt| == |views|
    ensures Distinct(ProbeFrom(views, idAt, at, []).ids)
    ensures |Seen(ProbeFrom(views, idAt, at, []).ids)| == |ProbeFrom(views, idAt, at, []).ids|
    ensures idAt[at].None? <==> ProbeFrom(views, idAt, at, []).ids == []
    ensures idAt[at].Some? ==> ProbeFrom(views, idAt, at, []).ids[0] == idAt[at].value
  {
    ProbeShape(views, idAt, at, []);
    DistinctSize(ProbeFrom(views, idAt, at, []).ids);
    ProbeTrail(views, idAt, at, []);
    assert AheadAt(views, at, 0) == at;
  }

  /** The first pass against the browser: the ordered list of ids, their set, and their count. */
  method Probe(b: Browser) returns (ids: seq<string>, seen: set<string>, count: nat)
    requires b.Valid()
    modifies b
    ensures b.Valid() && b.ui == old(b.ui) && b.requested == old(b.requested)
    ensures var r := ProbeFrom(b.views, IdTable(b.views), old(b.at), []); ids == r.ids && b.at == r.at
    ensures seen == Seen(ids) && count == |ids| == |seen| && Distinct(ids)
  {
    ghost var idAt := IdTable(b.views);
    ids, seen, count := [], {}, 0;
    while true
      invariant b.Valid() && b.ui == old(b.ui) && b.requested == old(b.requested)
      invariant seen == Seen(ids) && count == |ids| && Distinct(ids)
      invariant ProbeFrom(b.views, idAt, b.at, ids) == ProbeFrom(b.views, idAt, old(b.at), [])
      decreases Unvisited(idAt, ids, |b.views|)
    {
      var id := Locator.ExtractId(b.CurrentUrl());
      assert id == idAt[b.at];
      if id.None? || id.value in seen {
        break;
      }
      UnvisitedShrinks(idAt, ids, b.at, |b.views|);
      SeenAppend(ids, id.value);
      DistinctAppend(ids, id.value);
      seen, count, ids := seen + {id.value}, count + 1, ids + [id.value];
      var nav := b.NextImage();
      if nav != Moved {
        break;
      }
    }
    DistinctSize(ids);
  }

  // --------------------------------------------------------------- rewind

  /** The rewind: its number of moves, why it stopped, and where it left the cursor. */
  datatype RewindResult = RewindResult(moves: nat, end: Nav, at: nat)

  /** The outcome of one previous-image step from view `at`. */
  function PrevNav(views: seq<View>, at: nat): Nav
    requires WellFormed(views) && at < |views|
  {
    Step(views, at, views[at].prevImage).0
  }

  /**
   * The second pass as the crawler has it: click the previous-image control
   * while the location changes, with no other bound. `fuel` bounds the
   * number of clicks modelled; None means it ran out.
   */
  function RewindAsWritten(views: seq<View>, at: nat, fuel: nat): (r: Option<RewindResult>)
    requires WellFormed(views) && at < |views|
    ensures r.Some? ==> r.value.end != Moved && r.value.at < |views|
    decreases fuel
  {
    if fuel == 0 then None
    else
      var (nav, prev) := Step(views, at, views[at].prevImage);
      if nav != Moved then Some(RewindResult(0, nav, prev))
      else
        match RewindAsWritten(views, prev, fuel - 1)
        case None => None
        case Some(r) => Some(RewindResult(r.moves + 1, r.end, r.at))
  }

  /** Two views whose previous-image controls lead to each other. */
  function PrevCycleViews(): (views: seq<View>)
    ensures WellFormed(views) && |views| == 2 && views[0].url != views[1].url
    ensures views[0].prevImage == Shown(1) && views[1].prevImage == Shown(0)
  {
    var a := Locator.Location("lclma", "1", None);
    var b := Locator.Location("lclma", "2", None);
    assert a[|a| - 1] != b[|b| - 1];
    [View(a, Hidden, Shown(1), Hidden), View(b, Hidden, Shown(0), Hidden)]
  }

  /** On those two views the rewind as written clicks back and forth until any bound on its clicks runs out. */
  lemma {:induction false} RewindNeverEnds(at: nat, fuel: nat)
    requires at < 2
    ensures RewindAsWritten(PrevCycleViews(), at, fuel).None?
    decreases fuel
  {
    if fuel > 0 {
      var views := PrevCycleViews();
      assert Step(views, at, views[at].prevImage) == (Moved, 1 - at);
      RewindNeverEnds(1 - at, fuel - 1);
    }
  }

  /**
   * The second pass as corrected: it also stops when a click moves onto a
   * location the rewind has shown already (`seen`); it then ends with Moved.
   * Each other move lands on a new location, so the pass ends on every
   * viewer.
   */
  function RewindLoop(views: seq<View>, at: nat, seen: set<string>): (r: RewindResult)
    requires WellFormed(views) && at < |views|
    ensures r.at < |views|
    decreases Urls(views) - seen
  {
    var (nav, prev) := Step(views, at, views[at].prevImage);
    if nav != Moved || views[prev].url in seen then RewindResult(0, nav, prev)
    else
      var u := views[prev].url;
      assert u in Urls(views) - seen;
      var r := RewindLoop(views, prev, seen + {u});
      RewindResult(r.moves + 1, r.end, r.at)
  }

  /** Each move of the corrected rewind is onto a location not yet shown, so it makes at most as many moves as there are such locations. */
  lemma {:induction false} RewindLoopBound(views: seq<View>, at: nat, seen: set<string>)
    requires WellFormed(views) && at < |views|
    ensures RewindLoop(views, at, seen).moves <= |Urls(views) - seen|
    decreases Urls(views) - seen
  {
    var (nav, prev) := Step(views, at, views[at].prevImage);
    if nav == Moved && views[prev].url !in seen {
      var u := views[prev].url;
      assert u in Urls(views) - seen;
      assert (Urls(views) - seen) - {u} == Urls(views) - (seen + {u});
      RewindLoopBound(views, prev, seen + {u});
    }
  }

  /** The second pass from view `at`, which it has shown. */
  function RewindFrom(views: seq<View>, at: nat): (r: RewindResult)
    requires WellFormed(views) && at < |views|
    ensures r.at < |views|
  {
    RewindLoop(views, at, {views[at].url})
  }

  /** The corrected rewind makes fewer moves than the viewer has locations, whatever its controls. */
  lemma RewindBounded(views: seq<View>, at: nat)
    requires WellFormed(views) && at < |views|
    ensures RewindFrom(views, at).moves < |Urls(views)|
  {
    RewindLoopBound(views, at, {views[at].url});
    assert views[at].url in Urls(views);
  }

  /** The locations the rewind from `at` shows in its first `n` moves, `at`'s own included. */
  function Rewound(views: seq<View>, at: nat, n: nat): set<string>
    requires WellFormed(views) && at < |views|
  {
    set i | 0 <= i <= n :: views[BackAt(views, at, i)].url
  }

  /** Moving back one view, the clicks from there are the clicks from here, one fewer. */
  lemma BackAtShift(views: seq<View>, at: nat, n: nat)
    requires WellFormed(views) && at < |views|
    ensures forall i :: 0 < i <= n ==> BackAt(views, at, i) == BackAt(views, PrevAt(views, at), i - 1)
  {
  }

  /**
   * What the corrected rewind observed: every one of its moves was a
   * previous-image click that moved, it stopped for the reason the last
   * step showed, and it left the cursor after its last click.
   */
  lemma {:induction false} RewindTrail(views: seq<View>, at: nat, seen: set<string>)
    requires WellFormed(views) && at < |views|
    ensures var r := RewindLoop(views, at, seen);
      && (forall i :: 0 <= i < r.moves ==> PrevNav(views, BackAt(views, at, i)) == Moved)
      && PrevNav(views, BackAt(views, at, r.moves)) == r.end
      && r.at == BackAt(views, at, r.moves + (if r.end == Absent || r.end == Disabled then 0 else 1))
    decreases Urls(views) - seen
  {
    var (nav, prev) := Step(views, at, views[at].prevImage);
    if nav == Moved && views[prev].url !in seen {
      var u := views[prev].url;
      assert u in Urls(views) - seen;
      assert (Urls(views) - seen) - {u} == Urls(views) - (seen + {u});
      RewindTrail(views, prev, seen + {u});
      BackAtShift(views, at, RewindLoop(views, prev, seen + {u}).moves + 2);
    } else {
      assert BackAt(views, at, 1) == BackAt(views, prev, 0);
    }
  }

  /**
   * Every move of the corrected rewind lands on a location it has not shown
   * before, so the locations it shows are distinct.
   */
  lemma {:induction false} RewindFresh(views: seq<View>, at: nat, seen: set<string>)
    requires WellFormed(views) && at < |views| && views[at].url in seen
    ensures var r := RewindLoop(views, at, seen);
      && (forall i :: 0 < i <= r.moves ==> views[BackAt(views, at, i)].url !in seen)
      && (forall i, j :: 0 <= i < j <= r.moves ==> views[BackAt(views, at, i)].url != views[BackAt(views, at, j)].url)
    decreases Urls(views) - seen
  {
    var (nav, prev) := Step(views, at, views[at].prevImage);
    if nav == Moved && views[prev].url !in seen {
      var u := views[prev].url;
      assert u in Urls(views) - seen;
      assert (Urls(views) - seen) - {u} == Urls(views) - (seen + {u});
      RewindFresh(views, prev, seen + {u});
      var n := RewindLoop(views, prev, seen + {u}).moves;
      BackAtShift(views, at, n + 1);
    }
  }

  /** A corrected rewind that ends with Moved stands on a location it had shown or was given. */
  lemma {:induction false} RewindRevisits(views: seq<View>, at: nat, seen: set<string>)
    requires WellFormed(views) && at < |views|
    ensures var r := RewindLoop(views, at, seen);
      r.end == Moved ==> views[r.at].url in seen + Rewound(views, at, r.moves)
    decreases Urls(views) - seen
  {
    var (nav, prev) := Step(views, at, views[at].prevImage);
    var r := RewindLoop(views, at, seen);
    if nav == Moved && views[prev].url !in seen {
      var u := views[prev].url;
      assert u in Urls(views) - seen;
      assert (Urls(views) - seen) - {u} == Urls(views) - (seen + {u});
      RewindRevisits(views, prev, seen + {u});
      var r' := RewindLoop(views, prev, seen + {u});
      BackAtShift(views, at, r.moves);
      if r.end == Moved {
        var x := views[r.at].url;
        assert x in (seen + {u}) + Rewound(views, prev, r'.moves);
        if x == u {
          assert views[BackAt(views, at, 1)].url == u;
        } else if x !in seen {
          var i :| 0 <= i <= r'.moves && x == views[BackAt(views, prev, i)].url;
          assert x == views[BackAt(views, at, i + 1)].url;
        }
      }
    }
  }

  /**
   * Where the previous-image controls step back one view at a time over
   * views with distinct locations, the corrected rewind is the rewind as
   * written, which then ends within `at + 1` clicks.
   */
  lemma {:induction false} RewindAgrees(views: seq<View>, at: nat, seen: set<string>, fuel: nat)
    requires WellFormed(views) && at < |views| && at < fuel
    requires forall j :: 0 <= j <= at ==> views[j].prevImage.Shown? ==> views[j].prevImage.target + 1 == j
    requires forall i, j :: 0 <= i < j <= at ==> views[i].url != views[j].url
    requires forall j :: 0 <= j < at ==> views[j].url !in seen
    ensures RewindAsWritten(views, at, fuel) == Some(RewindLoop(views, at, seen))
    decreases at
  {
    var (nav, prev) := Step(views, at, views[at].prevImage);
    if nav == Moved {
      assert prev + 1 == at;
      var u := views[prev].url;
      assert u !in seen;
      forall j | 0 <= j < prev
        ensures views[j].url !in seen + {u}
      {
        assert views[j].url != views[prev].url;
      }
      RewindAgrees(views, prev, seen + {u}, fuel - 1);
      var r := RewindLoop(views, prev, seen + {u});
      assert RewindAsWritten(views, prev, fuel - 1) == Some(r);
      assert RewindAsWritten(views, at, fuel) == Some(RewindResult(r.moves + 1, r.end, r.at));
      assert RewindLoop(views, at, seen) == RewindResult(r.moves + 1, r.end, r.at);
    } else {
      assert RewindAsWritten(views, at, fuel) == Some(RewindResult(0, nav, prev));
      assert RewindLoop(views, at, seen) == RewindResult(0, nav, prev);
    }
  }

  /** On the two views whose controls lead to each other, the corrected rewind stops after one move, back where it started. */
  lemma RewindCycleEnds()
    ensures RewindFrom(PrevCycleViews(), 0) == RewindResult(1, Moved, 0)
  {
    var views := PrevCycleViews();
    var u0, u1 := views[0].url, views[1].url;
    assert Step(views, 1, views[1].prevImage) == (Moved, 0);
    assert RewindLoop(views, 1, {u0} + {u1}) == RewindResult(0, Moved, 0);
    assert Step(views, 0, views[0].prevImage) == (Moved, 1);
    assert RewindLoop(views, 0, {u0}) == RewindResult(1, Moved, 0);
  }

  /** The second pass against the browser, with the locations it has shown. */
  method Rewind(b: Browser)
    requires b.Valid()
    modifies b
    ensures b.Valid() && b.ui == old(b.ui) && b.requested == old(b.requested)
    ensures b.at == RewindFrom(b.views, old(b.at)).at
  {
    var seen := {b.CurrentUrl()};
    while true
      invariant b.Valid() && b.ui == old(b.ui) && b.requested == old(b.requested)
      invariant RewindLoop(b.views, b.at, seen).at == RewindFrom(b.views, old(b.at)).at
      decreases Urls(b.views) - seen
    {
      var nav := b.PreviousImage();
      var url := b.CurrentUrl();
      if nav != Moved || url in seen {
        break;
      }
      assert url in Urls(b.views) - seen;
      seen := seen + {url};
    }
  }

  // ------------------------------------------------------------- download

  /** What the download pass needs from the record: its collection, record number, first info id and image count. */
  datatype Job = Job(collection: string, recNumber: string, first: int, count: nat)

  /**
   * One handled sub-image: its display id, its info id, whether fullscreen
   * was entered, and how the exit from fullscreen ended (tried only after
   * entering it).
   */
  datatype Handled = Handled(displayId: string, infoId: int, entered: bool, exit: Option<ExitOutcome>)

  /** Why the download pass stopped. */
  datatype PassEnd = Finished | NoIdEnd | RepeatedId | Halted(nav: Nav) | Aborted

  datatype DownloadResult = DownloadResult(items: seq<Handled>, end: PassEnd, at: nat, ui: seq<Wait>)

  function DisplayIds(items: seq<Handled>): (r: seq<string>)
    ensures |r| == |items| && forall i :: 0 <= i < |items| ==> r[i] == items[i].displayId
  {
    if items == [] then [] else DisplayIds(items[..|items| - 1]) + [items[|items| - 1].displayId]
  }

  /** `get_image_url(collection, info_id)`. */
  function GetImageUrl(service: map<string, string>, collection: string, infoId: int): (r: Option<string>)
    ensures r.Some? <==> InfoUrl(collection, infoId) in service && service[InfoUrl(collection, infoId)] != ""
    ensures r.Some? ==> r.value == ImageRequest(service[InfoUrl(collection, infoId)], "full", "full", "0", "default", "jpg")
  {
    ImageUrl(BaseId(service, InfoUrl(collection, infoId)))
  }

  /**
   * The download asked for while handling `h`: only once fullscreen was
   * entered, and only when the service gives an image URL for its info id.
   * Fetching the URL and downloading take no wait answers, so the requests
   * follow from the handled images alone.
   */
  function RequestOf(service: map<string, string>, job: Job, h: Handled): (r: seq<Request>)
    ensures |r| <= 1
    ensures r != [] <==> h.entered && GetImageUrl(service, job.collection, h.infoId).Some?
    ensures r != [] ==> r[0].file == FileName(job.recNumber, h.displayId)
  {
    var url := GetImageUrl(service, job.collection, h.infoId);
    if h.entered && url.Some? then [Request(url.value, FileName(job.recNumber, h.displayId))] else []
  }

  /** The downloads asked for while handling `items`, in order. */
  function Requests(service: map<string, string>, job: Job, items: seq<Handled>): seq<Request> {
    if items == [] then []
    else Requests(service, job, items[..|items| - 1]) + RequestOf(service, job, items[|items| - 1])
  }

  lemma RequestsAppend(service: map<string, string>, job: Job, items: seq<Handled>, h: Handled)
    ensures Requests(service, job, items + [h]) == Requests(service, job, items) + RequestOf(service, job, h)
  {
    assert (items + [h])[..|items|] == items;
  }

  /** The files the requests write, in order. */
  function Files(reqs: seq<Request>): (r: seq<string>)
    ensures |r| == |reqs| && forall i :: 0 <= i < |reqs| ==> r[i] == reqs[i].file
  {
    seq(|reqs|, i requires 0 <= i < |reqs| => reqs[i].file)
  }

  /**
   * Handling images with distinct display ids writes each file at most once.
   */
  lemma {:induction false} RequestFiles(service: map<string, string>, job: Job, items: seq<Handled>)
    requires forall j :: 0 <= j < |items| ==> IsDigits(items[j].displayId)
    requires Distinct(DisplayIds(items))
    ensures Distinct(Files(Requests(service, job, items)))
  {
    if items != [] {
      var pre, h := items[..|items| - 1], items[|items| - 1];
      var id := h.displayId;
      assert items == pre + [h];
      assert DisplayIds(items) == DisplayIds(pre) + [id];
      DistinctAppend(DisplayIds(pre), id);
      assert forall j :: 0 <= j < |pre| ==> pre[j] == items[j];
      RequestFiles(service, job, pre);
      RequestFilesNamed(service, job, pre);
      var old_ := Files(Requests(service, job, pre));
      var new_ := Files(RequestOf(service, job, h));
      assert Files(Requests(service, job, items)) == old_ + new_;
      if new_ != [] {
        var f := FileName(job.recNumber, id);
        assert new_ == [f];
        if f in old_ {
          var d :| d in DisplayIds(pre) && f == FileName(job.recNumber, d);
          var j :| 0 <= j < |pre| && DisplayIds(pre)[j] == d;
          FileNameInjective(job.recNumber, d, job.recNumber, id);
          assert false;
        }
        DistinctAppend(old_, f);
      } else {
        assert old_ + new_ == old_;
      }
    }
  }

  /** Every file a handling asks for is named after one of the display ids handled. */
  lemma {:induction false} RequestFilesNamed(service: map<string, string>, job: Job, items: seq<Handled>)
    ensures forall f :: f in Files(Requests(service, job, items)) ==>
      exists d :: d in DisplayIds(items) && f == FileName(job.recNumber, d)
  {
    if items != [] {
      var pre, h := items[..|items| - 1], items[|items| - 1];
      var id := h.displayId;
      assert items == pre + [h];
      assert DisplayIds(items) == DisplayIds(pre) + [id];
      RequestFilesNamed(service, job, pre);
      var old_ := Files(Requests(service, job, pre));
      var new_ := Files(RequestOf(service, job, h));
      assert Files(Requests(service, job, items)) == old_ + new_;
      forall f | f in old_ + new_
        ensures exists d :: d in DisplayIds(items) && f == FileName(job.recNumber, d)
      {
        if f in old_ {
          var d :| d in DisplayIds(pre) && f == FileName(job.recNumber, d);
          assert d in DisplayIds(items);
        } else {
          assert f == FileName(job.recNumber, id) && id in DisplayIds(items);
        }
      }
    }
  }

  /**
   * What handling one sub-image in fullscreen does with the waits, as the
   * download pass sees it: whether fullscreen was entered, how the exit
   * ended if it was tried, and the answers left.
   */
  type ImageHandler = seq<Wait> -> (bool, Option<ExitOutcome>, seq<Wait>)

  /** One sub-image: enter fullscreen and, only if that worked, exit it again (the image URL is fetched and downloaded in between). */
  function InFullscreen(ui: seq<Wait>): (r: (bool, Option<ExitOutcome>, seq<Wait>))
    ensures r.0 <==> EnterOutcome(ui).0
    ensures r.1.Some? <==> r.0
    ensures r.0 ==> r.1 == Some(ExitChain(EnterOutcome(ui).1).0)
  {
    var (entered, u1) := EnterOutcome(ui);
    if !entered then (false, None, u1)
    else
      var (e, u2) := ExitChain(u1);
      (true, Some(e), u2)
  }

  /** The image with display id `id` and info id `infoId`, handled by `handle`. */
  function HandleItem(handle: ImageHandler, ui: seq<Wait>, id: string, infoId: int): (r: (Handled, seq<Wait>))
    ensures r.0.displayId == id && r.0.infoId == infoId
  {
    var (entered, exit, u1) := handle(ui);
    (Handled(id, infoId, entered, exit), u1)
  }

  /**
   * The third pass from view `at` with `items` handled: while fewer than
   * `job.count` images are handled, handle the image in the location unless
   * its id is missing or already handled, then click the next-image control
   * and go on while the location changes. An exception out of the exit from
   * fullscreen aborts the pass.
   */
  function DownloadFrom(views: seq<View>, idAt: seq<Option<string>>, job: Job, handle: ImageHandler, at: nat, ui: seq<Wait>, items: seq<Handled>): (r: DownloadResult)
    requires WellFormed(views) && at < |views| && |idAt| == |views| && |items| <= job.count
    ensures r.at < |views|
    ensures |items| <= |r.items| <= job.count
    decreases job.count - |items|
  {
    if |items| >= job.count then DownloadResult(items, Finished, at, ui)
    else match idAt[at]
    case None => DownloadResult(items, NoIdEnd, at, ui)
    case Some(id) =>
      if id in DisplayIds(items) then DownloadResult(items, RepeatedId, at, ui)
      else
        var (h, u1) := HandleItem(handle, ui, id, InfoId(job.first, |items|));
        if h.exit == Some(Raised) then DownloadResult(items + [h], Aborted, at, u1)
        else if |items| + 1 >= job.count then DownloadResult(items + [h], Finished, at, u1)
        else
          var (nav, next) := Step(views, at, views[at].nextImage);
          if nav != Moved then DownloadResult(items + [h], Halted(nav), next, u1)
          else DownloadFrom(views, idAt, job, handle, next, u1, items + [h])
  }

  /** The pass only appends to the images handled before. */
  lemma {:induction false} DownloadPrefix(views: seq<View>, idAt: seq<Option<string>>, job: Job, handle: ImageHandler, at: nat, ui: seq<Wait>, items: seq<Handled>)
    requires WellFormed(views) && at < |views| && |idAt| == |views| && |items| <= job.count
    ensures var r := DownloadFrom(views, idAt, job, handle, at, ui, items);
      r.items[..|items|] == items
    decreases job.count - |items|
  {
    if |items| < job.count && idAt[at].Some? {
      var id := idAt[at].value;
      if id !in DisplayIds(items) {
        var (h, u1) := HandleItem(handle, ui, id, InfoId(job.first, |items|));
        if h.exit != Some(Raised) && |items| + 1 < job.count {
          var (nav, next) := Step(views, at, views[at].nextImage);
          if nav == Moved {
            DownloadPrefix(views, idAt, job, handle, next, u1, items + [h]);
            PrefixStep(items, h, DownloadFrom(views, idAt, job, handle, next, u1, items + [h]).items);
          }
        }
      }
    }
  }

  /**
   * The pass handles each display id at most once, stops with all images
   * handled only when it says Finished, and an abort comes from the exit
   * of the last handled image.
   */
  lemma {:induction false} DownloadEnds(views: seq<View>, idAt: seq<Option<string>>, job: Job, handle: ImageHandler, at: nat, ui: seq<Wait>, items: seq<Handled>)
    requires WellFormed(views) && at < |views| && |idAt| == |views| && |items| <= job.count
    ensures var r := DownloadFrom(views, idAt, job, handle, at, ui, items);
      && (Distinct(DisplayIds(items)) ==> Distinct(DisplayIds(r.items)))
      && (r.end == Finished ==> |r.items| == job.count)
      && (r.end != Finished && r.end != Aborted ==> |r.items| < job.count)
    decreases job.count - |items|
  {
    var r := DownloadFrom(views, idAt, job, handle, at, ui, items);
    if |items| < job.count && idAt[at].Some? {
      var id := idAt[at].value;
      if id !in DisplayIds(items) {
        var (h, u1) := HandleItem(handle, ui, id, InfoId(job.first, |items|));
        assert DisplayIds(items + [h]) == DisplayIds(items) + [id];
        DistinctAppend(DisplayIds(items), id);
        if h.exit != Some(Raised) && |items| + 1 < job.count {
          var (nav, next) := Step(views, at, views[at].nextImage);
          if nav == Moved {
            DownloadEnds(views, idAt, job, handle, next, u1, items + [h]);
          }
        }
      }
    }
  }

  /** An abort comes from the exception out of the exit from fullscreen of the last image handled. */
  lemma {:induction false} DownloadAborted(views: seq<View>, idAt: seq<Option<string>>, job: Job, handle: ImageHandler, at: nat, ui: seq<Wait>, items: seq<Handled>)
    requires WellFormed(views) && at < |views| && |idAt| == |views| && |items| <= job.count
    ensures var r := DownloadFrom(views, idAt, job, handle, at, ui, items);
      r.end == Aborted ==> |r.items| > |items| && r.items[|r.items| - 1].exit == Some(Raised)
    decreases job.count - |items|
  {
    var r := DownloadFrom(views, idAt, job, handle, at, ui, items);
    if |items| < job.count && idAt[at].Some? {
      var id := idAt[at].value;
      if id !in DisplayIds(items) {
        var (h, u1) := HandleItem(handle, ui, id, InfoId(job.first, |items|));
        if h.exit == Some(Raised) {
          assert r.items == items + [h];
          assert r.items[|r.items| - 1] == h;
        } else if |items| + 1 < job.count {
          var (nav, next) := Step(views, at, views[at].nextImage);
          if nav == Moved {
            DownloadAborted(views, idAt, job, handle, next, u1, items + [h]);
          }
        }
      }
    }
  }

  /**
   * Which images the download pass handled: the k images it added are
   * those of the views 0, 1, ..., k - 1 next-image clicks ahead, in order.
   */
  lemma {:induction false} DownloadTrail(views: seq<View>, idAt: seq<Option<string>>, job: Job, handle: ImageHandler, at: nat, ui: seq<Wait>, items: seq<Handled>)
    requires WellFormed(views) && at < |views| && |idAt| == |views| && |items| <= job.count
    ensures var r := DownloadFrom(views, idAt, job, handle, at, ui, items);
      forall i :: 0 <= i < |r.items| - |items| ==> idAt[AheadAt(views, at, i)] == Some(r.items[|items| + i].displayId)
    decreases job.count - |items|
  {
    if |items| < job.count && idAt[at].Some? {
      var id := idAt[at].value;
      if id !in DisplayIds(items) {
        var (h, u1) := HandleItem(handle, ui, id, InfoId(job.first, |items|));
        if h.exit != Some(Raised) && |items| + 1 < job.count {
          var (nav, next) := Step(views, at, views[at].nextImage);
          if nav == Moved {
            DownloadTrail(views, idAt, job, handle, next, u1, items + [h]);
            DownloadPrefix(views, idAt, job, handle, next, u1, items + [h]);
            var r := DownloadFrom(views, idAt, job, handle, next, u1, items + [h]);
            assert r.items[|items|] == h by {
              assert r.items[..|items| + 1] == items + [h];
              assert r.items[|items|] == (items + [h])[|items|];
            }
            forall i | 0 <= i < |r.items| - |items|
              ensures idAt[AheadAt(views, at, i)] == Some(r.items[|items| + i].displayId)
            {
              if i > 0 {
                assert AheadAt(views, at, i) == AheadAt(views, next, i - 1);
              }
            }
          }
        }
      }
    }
  }

  /** Every image of a pass but the last was left by a click on the next-image chevron that moved the viewer. */
  lemma {:induction false} DownloadMoves(views: seq<View>, idAt: seq<Option<string>>, job: Job, handle: ImageHandler, at: nat, ui: seq<Wait>, items: seq<Handled>)
    requires WellFormed(views) && at < |views| && |idAt| == |views| && |items| <= job.count
    ensures var r := DownloadFrom(views, idAt, job, handle, at, ui, items);
      forall i :: 0 <= i < |r.items| - |items| - 1 ==> NextNav(views, AheadAt(views, at, i)) == Moved
    decreases job.count - |items|
  {
    if |items| < job.count && idAt[at].Some? {
      var id := idAt[at].value;
      if id !in DisplayIds(items) {
        var (h, u1) := HandleItem(handle, ui, id, InfoId(job.first, |items|));
        if h.exit != Some(Raised) && |items| + 1 < job.count {
          var (nav, next) := Step(views, at, views[at].nextImage);
          if nav == Moved {
            DownloadMoves(views, idAt, job, handle, next, u1, items + [h]);
            var r := DownloadFrom(views, idAt, job, handle, next, u1, items + [h]);
            forall i | 0 <= i < |r.items| - |items| - 1
              ensures NextNav(views, AheadAt(views, at, i)) == Moved
            {
              if i > 0 {
                assert AheadAt(views, at, i) == AheadAt(views, next, i - 1);
              }
            }
          }
        }
      }
    }
  }

  /** Where a download pass that stopped early leaves the cursor: on the view it stopped at, k clicks ahead. */
  lemma {:induction false} DownloadStopsEarlyAt(views: seq<View>, idAt: seq<Option<string>>, job: Job, handle: ImageHandler, at: nat, ui: seq<Wait>, items: seq<Handled>)
    requires WellFormed(views) && at < |views| && |idAt| == |views| && |items| <= job.count
    ensures var r := DownloadFrom(views, idAt, job, handle, at, ui, items);
      r.end.Halted? || r.end == NoIdEnd || r.end == RepeatedId ==> r.at == AheadAt(views, at, |r.items| - |items|)
    decreases job.count - |items|
  {
    if |items| < job.count && idAt[at].Some? {
      var id := idAt[at].value;
      if id !in DisplayIds(items) {
        var (h, u1) := HandleItem(handle, ui, id, InfoId(job.first, |items|));
        if h.exit != Some(Raised) && |items| + 1 < job.count {
          var (nav, next) := Step(views, at, views[at].nextImage);
          if nav == Moved {
            var items' := items + [h];
            var r := DownloadFrom(views, idAt, job, handle, next, u1, items');
            DownloadStopsEarlyAt(views, idAt, job, handle, next, u1, items');
            assert AheadAt(views, at, |r.items| - |items|) == AheadAt(views, next, |r.items| - |items'|);
          } else {
            assert AheadAt(views, at, 1) == AheadAt(views, next, 0);
          }
        }
      }
    }
  }

  /** Where a download pass that finished or aborted leaves the cursor: on the last image it handled. */
  lemma {:induction false} DownloadStopsDoneAt(views: seq<View>, idAt: seq<Option<string>>, job: Job, handle: ImageHandler, at: nat, ui: seq<Wait>, items: seq<Handled>)
    requires WellFormed(views) && at < |views| && |idAt| == |views| && |items| <= job.count
    ensures var r := DownloadFrom(views, idAt, job, handle, at, ui, items);
      var k := |r.items| - |items|;
      && (r.end == Finished ==> |r.items| == job.count)
      && (r.end == Aborted ==> k > 0)
      && (r.end == Finished || r.end == Aborted ==> r.at == AheadAt(views, at, if k == 0 then 0 else k - 1))
    decreases job.count - |items|
  {
    if |items| < job.count && idAt[at].Some? {
      var id := idAt[at].value;
      if id !in DisplayIds(items) {
        var (h, u1) := HandleItem(handle, ui, id, InfoId(job.first, |items|));
        if h.exit != Some(Raised) && |items| + 1 < job.count {
          var (nav, next) := Step(views, at, views[at].nextImage);
          if nav == Moved {
            var items' := items + [h];
            var r := DownloadFrom(views, idAt, job, handle, next, u1, items');
            DownloadStopsDoneAt(views, idAt, job, handle, next, u1, items');
            if r.end == Finished || r.end == Aborted {
              assert AheadAt(views, at, |r.items| - |items| - 1) == AheadAt(views, next, |r.items| - |items'| - 1);
            }
          }
        }
      }
    }
  }

  /** Why the download pass stopped early: the click did not move, the view had no id, or its id was handled already. */
  lemma {:induction false} DownloadStopsWhy(views: seq<View>, idAt: seq<Option<string>>, job: Job, handle: ImageHandler, at: nat, ui: seq<Wait>, items: seq<Handled>)
    requires WellFormed(views) && at < |views| && |idAt| == |views| && |items| <= job.count
    ensures var r := DownloadFrom(views, idAt, job, handle, at, ui, items);
      var k := |r.items| - |items|;
      && (r.end.Halted? ==> k > 0 && r.end.nav != Moved && NextNav(views, AheadAt(views, at, k - 1)) == r.end.nav)
      && (r.end == NoIdEnd ==> idAt[r.at].None?)
      && (r.end == RepeatedId ==> idAt[r.at].Some? && idAt[r.at].value in DisplayIds(r.items))
    decreases job.count - |items|
  {
    if |items| < job.count && idAt[at].Some? {
      var id := idAt[at].value;
      if id !in DisplayIds(items) {
        var (h, u1) := HandleItem(handle, ui, id, InfoId(job.first, |items|));
        if h.exit != Some(Raised) && |items| + 1 < job.count {
          var (nav, next) := Step(views, at, views[at].nextImage);
          if nav == Moved {
            DownloadStopsWhy(views, idAt, job, handle, next, u1, items + [h]);
          }
        }
      }
    }
  }

  /**
   * The image handled at index j gets info id `first + j`, and no exit from
   * fullscreen but the last one raised.
   */
  lemma {:induction false} DownloadInfoIds(views: seq<View>, idAt: seq<Option<string>>, job: Job, handle: ImageHandler, at: nat, ui: seq<Wait>, items: seq<Handled>)
    requires WellFormed(views) && at < |views| && |idAt| == |views| && |items| <= job.count
    ensures var r := DownloadFrom(views, idAt, job, handle, at, ui, items);
      && (forall j :: |items| <= j < |r.items| ==> r.items[j].infoId == InfoId(job.first, j))
      && (forall j :: |items| <= j < |r.items| - 1 ==> r.items[j].exit != Some(Raised))
    decreases job.count - |items|
  {
    var r := DownloadFrom(views, idAt, job, handle, at, ui, items);
    if |items| < job.count && idAt[at].Some? {
      var id := idAt[at].value;
      if id !in DisplayIds(items) {
        var (h, u1) := HandleItem(handle, ui, id, InfoId(job.first, |items|));
        if h.exit != Some(Raised) && |items| + 1 < job.count {
          var (nav, next) := Step(views, at, views[at].nextImage);
          if nav == Moved {
            DownloadInfoIds(views, idAt, job, handle, next, u1, items + [h]);
            DownloadPrefix(views, idAt, job, handle, next, u1, items + [h]);
            var r' := DownloadFrom(views, idAt, job, handle, next, u1, items + [h]);
            assert r'.items[|items|] == h by {
              assert r'.items[..|items| + 1] == items + [h];
              assert r'.items[|items|] == (items + [h])[|items|];
            }
          }
        } else {
          assert r.items == items + [h];
        }
      }
    }
  }

  /** A pass over views whose display ids are digit strings writes no image file twice. */
  lemma PassFiles(views: seq<View>, idAt: seq<Option<string>>, job: Job, handle: ImageHandler, at: nat, ui: seq<Wait>, service: map<string, string>)
    requires WellFormed(views) && at < |views| && |idAt| == |views|
    requires forall i :: 0 <= i < |idAt| && idAt[i].Some? ==> IsDigits(idAt[i].value)
    ensures Distinct(Files(Requests(service, job, DownloadFrom(views, idAt, job, handle, at, ui, []).items)))
  {
    var pass := DownloadFrom(views, idAt, job, handle, at, ui, []);
    DownloadEnds(views, idAt, job, handle, at, ui, []);
    DownloadTrail(views, idAt, job, handle, at, ui, []);
    forall j | 0 <= j < |pass.items|
      ensures IsDigits(pass.items[j].displayId)
    {
      assert idAt[AheadAt(views, at, j)] == Some(pass.items[j].displayId);
    }
    RequestFiles(service, job, pass.items);
  }

  /** One sub-image against the browser: enter fullscreen, fetch and download the image, exit fullscreen. */
  method HandleImage(b: Browser, job: Job, id: string, infoId: int) returns (h: Handled)
    requires b.Valid()
    modifies b
    ensures b.Valid() && (h, b.ui) == HandleItem(InFullscreen, old(b.ui), id, infoId)
    ensures b.at == old(b.at) && b.requested == old(b.requested) + RequestOf(b.service, job, h)
  {
    var entered := EnterFullscreen(b);
    if !entered {
      return Handled(id, infoId, false, None);
    }
    var url := GetImageUrl(b.service, job.collection, infoId);
    if url.Some? {
      b.Download(url.value, FileName(job.recNumber, id));
    }
    var exit := ExitFullscreen(b);
    h := Handled(id, infoId, true, Some(exit));
  }

  /**
   * The third pass against the browser: how many images it handled, and
   * whether an exception out of the exit from fullscreen ended it.
   */
  method DownloadPass(b: Browser, job: Job) returns (index: nat, raised: bool)
    requires b.Valid()
    modifies b
    ensures b.Valid()
    ensures var r := DownloadFrom(b.views, IdTable(b.views), job, InFullscreen, old(b.at), old(b.ui), []);
      && index == |r.items| && raised == (r.end == Aborted) && b.at == r.at && b.ui == r.ui
      && b.requested == old(b.requested) + Requests(b.service, job, r.items)
  {
    ghost var idAt := IdTable(b.views);
    ghost var items: seq<Handled> := [];
    ghost var end := Finished;
    var processed: set<string> := {};
    index, raised := 0, false;
    while index < job.count
      invariant b.Valid() && index == |items| <= job.count && processed == Seen(DisplayIds(items))
      invariant DownloadFrom(b.views, idAt, job, InFullscreen, b.at, b.ui, items) == DownloadFrom(b.views, idAt, job, InFullscreen, old(b.at), old(b.ui), [])
      invariant b.requested == old(b.requested) + Requests(b.service, job, items)
      decreases job.count - index
    {
      var id := Locator.ExtractId(b.CurrentUrl());
      assert id == idAt[b.at];
      if id.None? || id.value in processed {
        end := if id.None? then NoIdEnd else RepeatedId;
        break;
      }
      var h := HandleImage(b, job, id.value, InfoId(job.first, index));
      RequestsAppend(b.service, job, items, h);
      AppendAssoc(old(b.requested), Requests(b.service, job, items), RequestOf(b.service, job, h));
      assert DisplayIds(items + [h]) == DisplayIds(items) + [id.value];
      SeenAppend(DisplayIds(items), id.value);
      items, processed, index := items + [h], processed + {id.value}, index + 1;
      if h.exit == Some(Raised) {
        raised, end := true, Aborted;
        break;
      }
      if index >= job.count {
        break;
      }
      var nav := b.NextImage();
      if nav != Moved {
        end := Halted(nav);
        break;
      }
    }
    assert DownloadFrom(b.views, idAt, job, InFullscreen, old(b.at), old(b.ui), []) == DownloadResult(items, end, b.at, b.ui);
  }
}
