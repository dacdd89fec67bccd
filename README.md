# Compound-record image crawler, modelled in Dafny

The crawler drives a browser session through a digital-collection viewer
(CONTENTdm) and saves the images of compound records. A compound record has
several sub-images. On each record it runs three passes:

- a **probe** pages forward with the next-image chevron and counts the
  sub-images by their display ids;
- a **rewind** pages back to the first sub-image;
- a **download pass** pages forward again. For each sub-image it enters
  fullscreen, computes the image-service *info id*, reads the IIIF info
  document for the base `@id`, asks for the full-size JPEG
  `rec_<record>_id_<display id>.jpg`, and leaves fullscreen.

The info ids are consecutive. They end just below the display id the
record was entered on: `first_info_id = int(image_id) - count`.

There are two programs:

- `MyCrawler/crawler.py`, the **batch crawler**, walks record after record
  with the viewer's next-record pager. It skips records whose entry id was
  processed before and stops at `max_items = 100` or at the end of the
  collection.
- `MyCrawler/single_crawler.py`, the **single-record crawler**, opens the
  one location given on its command line and runs the same three passes on
  that record.

The model has these parts:

- The browser is a class `Viewer.Browser` over a fixed graph of *views*.
  A view has a location and three controls: next image, previous image and
  next record. A control is hidden, disabled, or shown with a target view.
- The bounded `WebDriverWait`s of entering and leaving fullscreen and for
  the expand button after paging take one answer each from a queue:
  `Ready`, `Timeout` or `Error`. An exhausted queue times out. The waits
  for the image chevrons, for the next-record pager and for a location
  change after a click are decided by the view's controls alone.
- The image service is a map from info-document URL to its `@id`.
- A download is a request appended to `requested`.

Each pass is a specification function over the views and the answer queue.
Beside it is a method on the browser whose `ensures` ties the new state to
that function. The lemmas state what the passes promise:

- ids are collected once each, in display order;
- info ids are contiguous;
- within one record, no file is written twice;
- the corrected rewind (`RewindFrom`) ends on every viewer; the rewind as
  written need not (see Findings);
- the exit from fullscreen falls back from the close button to the toggle
  button to ESC, strictly in order;
- reading a location built from the viewer's pattern gives back its parts;
- the batch crawl processes each entry id at most once
  (`WalkAsWrittenFacts`); the corrected crawl (`Walk`) also ends;
- the corrected crawl never re-enters the record it has just processed.
- the single-record crawler logs what the batch crawler's first pass logs.

Modules, one file each:

| module | file | contents |
|---|---|---|
| `Wrappers` | `wrappers.dfy` | `Option` |
| `Lists` | `lists.dfy` | distinct lists and their sets |
| `Decimal` | `decimal.dfy` | `int(s)` and `str(i)` |
| `Locator` | `locator.dfy` | the three `re.search` lookups on a location |
| `IdMapper` | `idmapper.dfy` | display id to info ids |
| `Iiif` | `iiif.dfy` | info URL, image URL and file name |
| `Viewer` | `viewer.dfy` | views, controls, waits and the `Browser` class |
| `Fullscreen` | `fullscreen.dfy` | entering and leaving fullscreen |
| `Passes` | `passes.dfy` | probe, rewind and download pass |
| `Record` | `record.dfy` | the three passes on one record |
| `Walker` | `walker.dfy` | the batch crawler's record loop |
| `Reentry` | `reentry.dfy` | a last record processed a second time by the loop as written |
| `Single` | `single.dfy` | the single-record crawler |

The helper functions (`extract_id_from_url`, `get_image_url`,
`download_image`, `enter_fullscreen_mode`, `exit_fullscreen`) and the three
passes are the same in both programs. Apart from comments, one message
and the form of `extract_id_from_url` (a conditional expression at
`MyCrawler/single_crawler.py:117-119`, an `if` with two returns at
`MyCrawler/crawler.py:130-134`, which behave the same),
`MyCrawler/single_crawler.py:27-158` and `MyCrawler/single_crawler.py:188-323`
repeat `MyCrawler/crawler.py:35-181` and `MyCrawler/crawler.py:240-377`.
The rows below therefore cite the batch crawler for them.

In these places the model follows the code where a reader might expect
otherwise:

- The info ids are computed from the display id the record was entered on
  (`MyCrawler/crawler.py:212`, `MyCrawler/crawler.py:287`), not from the
  last id probed.
- `exit_fullscreen` is called only after fullscreen was entered
  (`MyCrawler/crawler.py:336-346`), not after every sub-image.
- An error out of the toggle-button fallback of `exit_fullscreen` is raised
  inside an `except TimeoutException` block, so it escapes the function. It
  ends the whole run (`MyCrawler/crawler.py:101-111`, `MyCrawler/crawler.py:435`),
  not just that sub-image.
- Where the code does something evidently unintended, the model states
  the code as written beside the corrected behaviour, and the rest of the
  model uses the corrected one (see Findings): the record loop counts every
  pass toward `max_items`; after a pager click that left the location
  unchanged it compares the display id shown with the one shown before the
  click, not with the record's entry id; and the rewind stops at a location
  it has already shown.
- The single-record crawler checks only the number of command-line
  arguments (`MyCrawler/single_crawler.py:337`), not their form.

## Model

| member | source | states |
|---|---|---|
| Decimal.NatToString | MyCrawler/crawler.py:140 | `str(n)` of a natural number is a non-empty digit string with no leading zero except for `0` itself |
| Decimal.NatToStringRoundTrip | MyCrawler/crawler.py:287 | `int(str(n)) == n` for every natural number |
| Decimal.IntToStringAlphabet | MyCrawler/crawler.py:140 | the numeral of any (possibly negative) info id holds only digits and a minus sign, so never the `:` or `/` of the URL around it |
| Decimal.IntToStringRoundTrip | MyCrawler/crawler.py:140 | the numeral of any integer is a digit run, optionally signed, that reads back to that integer |
| Decimal.IntToStringInjective | MyCrawler/crawler.py:140 | different info ids are written as different numerals |
| IdMapper.InfoIdRange | MyCrawler/crawler.py:332 | for `count` sub-images every info id lies in the range from `int(image_id) - count` up to just below `int(image_id)` |
| IdMapper.ThreeImageExample | MyCrawler/crawler.py:287 | entering on display id 3666 with three sub-images gives info ids 3663, 3664 and 3665 |
| Iiif.InfoUrl | MyCrawler/crawler.py:140 | the metadata URL is the IIIF info request for image identifier `<collection>:<info id>` under the site's IIIF base |
| Iiif.ImageUrl | MyCrawler/crawler.py:147-153 | None exactly when `@id` is missing or empty, otherwise the IIIF full-region, full-size, unrotated default-quality JPEG request on that base |
| Iiif.InfoUrlInjective | MyCrawler/crawler.py:140 | two info requests coincide only for the same collection and the same info id |
| Iiif.FileNameInjective | MyCrawler/crawler.py:162 | two downloads write the same file only for the same record number and display id |
| Locator.RunSpec | MyCrawler/crawler.py:131 | the greedy `+` takes the longest run of class characters at the position, all of the class, ending at the end or at a character outside it |
| Locator.FirstMatchSpec | MyCrawler/crawler.py:131 | the position found is a match and no match lies before it |
| Locator.SearchSpec | MyCrawler/crawler.py:131 | `re.search` finds nothing exactly when the pattern matches nowhere, and otherwise the greedy run after the leftmost match |
| Locator.SearchInClass | MyCrawler/crawler.py:131 | a captured group is a non-empty run of its class |
| Locator.ExtractId | MyCrawler/crawler.py:130-134 | a display id found is a non-empty digit string |
| Locator.ExtractIdSpec | MyCrawler/crawler.py:130-134 | no id exactly when no `id/` is followed by a digit, otherwise the whole digit run after the leftmost such `id/` |
| Locator.RecNumber | MyCrawler/crawler.py:217-221 | the record number is a digit string exactly when some `rec/` is followed by a digit, and is `id_<display id>` otherwise; its value is stated by `RecNumberSpec` |
| Locator.CollectionOf | MyCrawler/crawler.py:234-235 | the collection alias is non-empty and slash-free, and differs from `lclma` only when `collection/` is followed by a non-slash character; its value is stated by `CollectionOfSpec` |
| Locator.RecNumberSpec | MyCrawler/crawler.py:217-221 | without a `rec/` followed by a digit the record number is `id_<display id>`; otherwise it is the whole digit run after the leftmost such `rec/` |
| Locator.CollectionOfSpec | MyCrawler/crawler.py:234-235 | without a `collection/` followed by a non-slash character the alias is `lclma`; otherwise it is the whole non-slash run after the leftmost such `collection/` |
| Locator.LocationId | MyCrawler/single_crawler.py:172-175 | the display id read from a viewer location `.../collection/<alias>/id/<id>[/rec/<n>]` is `<id>` |
| Locator.LocationCollection | MyCrawler/single_crawler.py:179-180 | the collection read from such a location is `<alias>` |
| Locator.LocationRec | MyCrawler/single_crawler.py:177-178 | the record number read from such a location is `<n>`, or `id_<id>` without a `rec/` part |
| Locator.LocationRoundTrip | MyCrawler/single_crawler.py:172-180 | reading a location built from the pattern gives back all three of its parts |
| Locator.UsageExample | MyCrawler/single_crawler.py:339 | the usage example's location yields display id 3666, record 39 and collection `lclma` |
| Fullscreen.AttemptAnswers | MyCrawler/crawler.py:88-95 | an exit strategy works exactly when its control and then the expand button are found, and fails with an error exactly when the first failed wait is an error |
| Fullscreen.EnterAnswers | MyCrawler/crawler.py:58-82 | fullscreen is entered exactly when the expand, toggle and close waits all succeed, which uses those three answers |
| Fullscreen.ExitOrder | MyCrawler/crawler.py:85-127 | the close button is tried first; the toggle button only after the close step timed out; ESC only after both timed out; an error of the close step gives False at once; the exception escapes exactly when the toggle step errs; after a close timeout a toggle success returns True, and after two timeouts ESC returns True exactly when its wait succeeds and False otherwise |
| Fullscreen.ExitAnswers | MyCrawler/crawler.py:85-127 | the outcomes of `exit_fullscreen` for given answer sequences, including the escaping exception |
| Fullscreen.EnterTakesFront | MyCrawler/crawler.py:58-82 | entering fullscreen only consumes answers from the front of the queue |
| Fullscreen.ExitTakesFront | MyCrawler/crawler.py:85-127 | leaving fullscreen only consumes answers from the front of the queue |
| Fullscreen.EnterFullscreen | MyCrawler/crawler.py:58-82 | `enter_fullscreen_mode` against the browser returns and consumes what `EnterOutcome` says and changes nothing else |
| Fullscreen.TryStrategy | MyCrawler/crawler.py:88-95 | one exit strategy against the browser waits for its control and then for the expand button |
| Fullscreen.ExitFullscreen | MyCrawler/crawler.py:85-127 | `exit_fullscreen` against the browser returns and consumes what `ExitChain` says and changes nothing else |
| Viewer.IdTable | MyCrawler/crawler.py:247-248 | every view's display id, as `extract_id_from_url` reads it, is a digit string |
| Viewer.StepMeaning | MyCrawler/crawler.py:261-282 | a chevron step is Absent exactly for a missing control, Disabled exactly for a disabled one, and Moved exactly when the location changed |
| Viewer.PressNextRecordMeaning | MyCrawler/crawler.py:385-398 | the pager step is Absent exactly when the pager is missing, and Moved exactly when the location changed |
| Viewer.Find | MyCrawler/single_crawler.py:164 | `driver.get(url)` lands on the first view with that location, or no view has it |
| Viewer.Browser.NextImage | MyCrawler/crawler.py:261-282 | the next-image step moves the cursor as `Step` says and touches nothing else |
| Viewer.Browser.PreviousImage | MyCrawler/crawler.py:293-314 | the previous-image step moves the cursor as `Step` says and touches nothing else |
| Viewer.Browser.NextRecord | MyCrawler/crawler.py:385-398 | the pager step moves the cursor as `PressNextRecord` says and touches nothing else |
| Viewer.Browser.Await | MyCrawler/crawler.py:61-63 | a wait consumes one answer as `Poll` says and touches nothing else |
| Viewer.Browser.Open | MyCrawler/single_crawler.py:164 | `driver.get` shows the first view with the location, or reports that there is none and stays |
| Viewer.Browser.Download | MyCrawler/crawler.py:159-181 | `download_image` appends one request for that URL and file |
| Passes.ProbeFrom | MyCrawler/crawler.py:246-282 | the first pass leaves the cursor on a view and never loses ids collected before |
| Passes.ProbeShape | MyCrawler/crawler.py:246-282 | the probe only appends, each id once; it stops at a repeated id only when the location shows an id it holds, and at a step that did not move only after collecting the id it stepped from |
| Passes.ProbeTrail | MyCrawler/crawler.py:246-282 | the k ids collected are those of the views 0..k-1 next-image clicks ahead, every click between them moved, the cursor ends k clicks ahead, and the stop reason is what the last step showed |
| Passes.ProbeCounts | MyCrawler/crawler.py:253-255 | from the entry view, `compound_item_count` equals both the list's length and the set's size, the list starts with the entry id, and it is empty only when the entry location has no id |
| Passes.Probe | MyCrawler/crawler.py:241-284 | the first pass against the browser returns the probe's ids, their set and their count, and leaves the cursor where the probe does |
| Passes.RewindAsWritten | MyCrawler/crawler.py:292-314 | the rewind as written, within a bound on the clicks: when it ends, it ends on a view with a control that is missing, disabled or did not move |
| Passes.PrevCycleViews | MyCrawler/crawler.py:292-314 | two views with distinct locations whose previous-image controls lead to each other |
| Passes.RewindNeverEnds | MyCrawler/crawler.py:292-314 | on those two views the rewind as written runs out of every bound on the clicks |
| Passes.RewindLoop | MyCrawler/crawler.py:292-314 | the corrected rewind, which also stops on reaching a location already shown, leaves the cursor on a view |
| Passes.RewindLoopBound | MyCrawler/crawler.py:292-314 | the corrected rewind moves at most once per location it has not yet shown |
| Passes.RewindBounded | MyCrawler/crawler.py:292-314 | from the view shown, the corrected rewind makes fewer moves than the viewer has locations, whatever its controls |
| Passes.RewindTrail | MyCrawler/crawler.py:292-314 | every move of the corrected rewind is a previous-image click that moved; it stops for the reason its last step showed; and the cursor ends after its last click |
| Passes.RewindFresh | MyCrawler/crawler.py:292-314 | every move of the corrected rewind lands on a location not shown before, so the locations it shows are distinct |
| Passes.RewindRevisits | MyCrawler/crawler.py:306-314 | a corrected rewind that stops after a click that moved stands on a location already shown |
| Passes.RewindAgrees | MyCrawler/crawler.py:292-314 | where the previous-image controls step back one view at a time over distinct locations, the corrected rewind is exactly the rewind as written, which ends within `at + 1` clicks |
| Passes.RewindCycleEnds | MyCrawler/crawler.py:292-314 | on the two views whose controls lead to each other the corrected rewind stops after one move, back on the view it started from |
| Passes.RewindFrom | MyCrawler/crawler.py:292-314 | the corrected rewind from the view shown: the rewind loop with that view's location already seen |
| Passes.Rewind | MyCrawler/crawler.py:292-314 | the second pass against the browser, remembering the locations it has shown, leaves the cursor where `RewindFrom` does and touches nothing else |
| Passes.DisplayIds | MyCrawler/crawler.py:328 | the display ids of the handled images, in order |
| Passes.GetImageUrl | MyCrawler/crawler.py:137-156 | an image URL exists exactly when the service answers the info request with a non-empty `@id`, and is the full-size image request on it |
| Passes.RequestOf | MyCrawler/crawler.py:336-344 | a sub-image asks for at most one download, exactly when fullscreen was entered and an image URL was found, to `rec_<record>_id_<display id>.jpg` |
| Passes.RequestFiles | MyCrawler/crawler.py:341 | handling images with distinct digit display ids writes each file at most once |
| Passes.RequestFilesNamed | MyCrawler/crawler.py:341 | every file asked for is named after one of the display ids handled |
| Passes.InFullscreen | MyCrawler/crawler.py:336-346 | one sub-image enters fullscreen as `enter_fullscreen_mode` says, and tries the exit exactly when it entered |
| Passes.HandleItem | MyCrawler/crawler.py:328-348 | the handled image carries the display id and the info id it was handled under |
| Passes.DownloadFrom | MyCrawler/crawler.py:321-377 | the third pass handles at most `count` images and never drops images handled before |
| Passes.DownloadPrefix | MyCrawler/crawler.py:321-377 | the pass only appends to the images handled before |
| Passes.DownloadEnds | MyCrawler/crawler.py:321-377 | each display id is handled at most once; Finished means all `count` images were handled; any other stop but an abort means fewer |
| Passes.DownloadAborted | MyCrawler/crawler.py:336-344 | an abort comes from the exception out of the exit from fullscreen of the last image handled |
| Passes.DownloadTrail | MyCrawler/crawler.py:321-377 | the k images handled are those of the views 0..k-1 next-image clicks ahead, in order |
| Passes.DownloadMoves | MyCrawler/crawler.py:356-377 | every handled image but the last was left by a next-image click that moved |
| Passes.DownloadStopsEarlyAt | MyCrawler/crawler.py:321-377 | a pass that stopped early leaves the cursor on the view it stopped at, k clicks ahead |
| Passes.DownloadStopsDoneAt | MyCrawler/crawler.py:321-377 | a pass that finished or aborted leaves the cursor on the last image it handled |
| Passes.DownloadStopsWhy | MyCrawler/crawler.py:321-377 | an early stop is a next-image step that did not move, a location without an id, or an id handled already, as the pass reports |
| Passes.DownloadInfoIds | MyCrawler/crawler.py:332 | the image handled at index j gets info id `first + j`, and no exit from fullscreen but the last one raised |
| Passes.PassFiles | MyCrawler/crawler.py:339-341 | a download pass writes no image file twice |
| Passes.HandleImage | MyCrawler/crawler.py:335-346 | one sub-image against the browser: the handled image and the answers left are `HandleItem`'s, and the requests grow by `RequestOf` |
| Passes.DownloadPass | MyCrawler/crawler.py:317-379 | the third pass against the browser returns the number handled and whether it aborted, leaves cursor and queue as `DownloadFrom` does, and asks for exactly its `Requests` |
| Record.JobOf | MyCrawler/crawler.py:287 | the job's count is the probe's count, and its first info id plus that count is the entry display id |
| Record.ProcessRecord | MyCrawler/crawler.py:240-379 | the three passes on one record leave the cursor on a view |
| Record.RecordFacts | MyCrawler/crawler.py:240-379 | the log's entry is the entry id; the count is the number of distinct probed ids, starting with the entry; at most that many images are handled, each display id once, with consecutive info ids below the entry id |
| Record.RecordFiles | MyCrawler/crawler.py:316-379 | within one record no image file is written twice |
| Record.ProcessCurrent | MyCrawler/crawler.py:240-379 | the three passes against the browser compute `ProcessRecord` and ask for exactly its downloads |
| Walker.Settle | MyCrawler/crawler.py:417-423 | after paging, the crawl ends exactly when the wait for the expand button errs; a timeout only is reported |
| Walker.AdvanceMeaning | MyCrawler/crawler.py:382-431 | the crawl ends for want of a pager exactly when it is hidden; it goes on only to a view with another location or with a display id other than the one compared with; otherwise it ends as last record, not reloaded or load error |
| Walker.AdvanceMoves | MyCrawler/crawler.py:400-411 | compared with the display id shown before the click, the crawl goes on only when the pager changed the location |
| Walker.AdvanceRecord | MyCrawler/crawler.py:382-431 | paging to the next record against the browser, comparing with the display id given, computes `Advance` and asks for no download |
| Walker.Processor | MyCrawler/crawler.py:240-379 | the record handler keeps the cursor on the viewer and logs the record under the id it was entered on |
| Walker.VisitAt | MyCrawler/crawler.py:207-231 | a pass ends the crawl with no id exactly when the location has none; it processes a record exactly when the id is new, and logs it under that id; and the crawl crashes exactly when that record's download pass aborted |
| Walker.VisitCurrent | MyCrawler/crawler.py:207-431 | one loop body against the browser computes `VisitAt` and asks for exactly the processed record's downloads |
| Walker.WalkAsWritten | MyCrawler/crawler.py:205-231 | the loop as written, which compares with the entry id after a pager click that did not move, never processes more than `max_items` records |
| Walker.WalkAsWrittenFacts | MyCrawler/crawler.py:225-229 | the loop as written processes each entry id at most once, logs one record per processed id in the same order, and processes at most `max_items` records |
| Walker.WalkAsWrittenStep | MyCrawler/crawler.py:205-231 | a pass of the loop as written that ends it gives its outcome; any other leaves the rest to the next pass |
| Walker.Walk | MyCrawler/crawler.py:205-431 | the loop with every pass counted always ends for a reason the crawler has, with the cursor on a view |
| Walker.WalkStep | MyCrawler/crawler.py:205-431 | a pass that ends the walk gives the walk's outcome; any other leaves the rest to the next pass |
| Walker.WalkFacts | MyCrawler/crawler.py:225-229 | the crawl processes each entry id at most once, logs one record per processed id in the same order, and processes at most `max_items` records |
| Walker.WalkExtends | MyCrawler/crawler.py:205-231 | the crawl only appends to the record logs it starts with |
| Walker.AdvanceIgnoresCheck | MyCrawler/crawler.py:380-431 | when the pager click changes the location, the crawl goes on or ends by the expand-button wait alone, so the id compared with at line 407 is never consulted |
| Walker.VisitChecksAgree | MyCrawler/crawler.py:205-431 | on a viewer whose pager always moves, a pass of the loop is the same whether it compares with the entry id, as written, or with the id shown before the click |
| Walker.WalkAgrees | MyCrawler/crawler.py:204-431 | where every pager click moves and no pass meets a processed id, the corrected loop (every pass counted, started with the passes equal to the records processed) has exactly the outcome of the loop as written given at least `max_items - processed` steps; so `Walker.Crawl` does what the source's loop does on these crawls |
| Walker.Crawl | MyCrawler/crawler.py:204-431 | the batch crawl against the browser returns the number of records processed and why it ended as `Walk` says, and asks for exactly the logged records' downloads, record after record |
| Walker.Pass | MyCrawler/crawler.py:207-431 | one loop pass keeps the processed set and count in step with the walk and the requests tallied |
| Walker.RecordLoop | MyCrawler/crawler.py:205-431 | the record loop against the browser follows the walk it is given, pass by pass |
| Walker.SkipsForever | MyCrawler/crawler.py:225-227 | once both records of a two-record pager cycle are processed, the loop as written pages between them until any step bound runs out |
| Walker.CycleNeverEnds | MyCrawler/crawler.py:205-231 | on that cycle, with any record handler that does not abort or move, the loop as written processes both records and never ends |
| Walker.CycleProcessorNeverEnds | MyCrawler/crawler.py:205-231 | with the crawler's own record handler and every wait timing out, the loop as written never ends on that cycle |
| Walker.NeverEnds | MyCrawler/crawler.py:205-231 | such a pair of viewer records exists |
| Walker.SkipsEnd | MyCrawler/crawler.py:205 | with every pass counted, the same crawl ends on the `max_items` budget with each record processed once |
| Reentry.FullscreenReady | MyCrawler/crawler.py:336-346 | with five answers Ready in front, a sub-image enters fullscreen and leaves it by the close button, using those five |
| Reentry.LastRecordViews | MyCrawler/crawler.py:382-411 | a last record with two sub-images, display ids 2 and 3 of record 7, and a disabled pager, exists |
| Reentry.FirstEntry | MyCrawler/crawler.py:240-379 | entered on display id 2, the record counts two sub-images, downloads info ids 0 and 1, and leaves the cursor on display id 3 |
| Reentry.SecondEntry | MyCrawler/crawler.py:240-379 | entered again on display id 3, the record counts one sub-image, rewinds to display id 2 and downloads it under info id 2 |
| Reentry.FirstVisit | MyCrawler/crawler.py:400-411 | as written, after the first entry the pager click that changes nothing shows display id 3, which differs from the entry id 2, so the crawl goes on |
| Reentry.FirstVisitShown | MyCrawler/crawler.py:400-411 | compared with the display id shown before the click, the same click ends the crawl at the last record |
| Reentry.SecondVisit | MyCrawler/crawler.py:207-431 | the second entry processes the record and ends the crawl when the expand button does not come back |
| Reentry.WalkAsWrittenTwice | MyCrawler/crawler.py:205-431 | for any handler that processes the record as the crawler does, the loop as written processes it on entry id 2 and again on entry id 3 |
| Reentry.WalkOnce | MyCrawler/crawler.py:205-431 | the corrected loop processes it once and stops at the last record |
| Reentry.RewritesFile | MyCrawler/crawler.py:405-411 | the crawl as written asks for `rec_7_id_2.jpg` twice, the second time with the image of another info id |
| Reentry.WritesOnce | MyCrawler/crawler.py:405-411 | the corrected crawl asks for two downloads into two different files |
| Single.ProcessSingle | MyCrawler/single_crawler.py:165-323 | the run stops unloaded exactly when the expand-button wait fails, and without an id exactly when the location has none; otherwise it handles the record under its display id; it ends by the exception exactly when the download pass aborted; and a run that handles nothing does not move |
| Single.OpenAndProcess | MyCrawler/single_crawler.py:161-333 | a location no view has ends the run at once with nothing changed; a record handled carries the display id of the location given |
| Single.SingleFacts | MyCrawler/single_crawler.py:188-323 | a handled record's count is the number of distinct probed ids from the entry; at most that many images are handled, each once; no file is written twice |
| Single.SingleAsFirstVisit | MyCrawler/single_crawler.py:161-333 | once the expand button is there, the single-record crawler logs the batch crawl's first record log; it raises exactly where the batch crawl crashes on that record; a location without id ends both at once |
| Single.FirstVisit | MyCrawler/single_crawler.py:172-323 | the single run's record log is the batch crawler's first pass's |
| Single.ProcessSingleUrl | MyCrawler/single_crawler.py:161-333 | `process_single_url` against the browser ends, moves and asks for downloads as `OpenAndProcess` says |
| Single.Run | MyCrawler/single_crawler.py:336-343 | status 1 with nothing done exactly when the argument count is not one; otherwise the location given is processed and the status is 0 |

## Left out

- Selenium itself is not modelled: element lookup, CSS selectors, JavaScript clicks, `safe_click`'s swallowed click errors, `time.sleep` and `scroll_page`. A wait is one answer from a queue, and a click on a shown control always lands on its target view.
- Real HTTP and files are not modelled. `requests.get` of the info document is a lookup in a map from URL to `@id`; a failed request and a missing field are the same absent entry. The image download is a request appended to `requested`; whether it succeeds is not modelled, since the crawler ignores the result.
- The batch crawler's start is left out: the search page and the click on its first result (`MyCrawler/crawler.py:20-23`, `MyCrawler/crawler.py:183-201`). `Walker.Crawl` starts from the record shown. The download directory creation is also left out.
- `print` output, `traceback` and `driver.quit()` in the `finally` blocks are left out. Nothing the crawler observes follows them.
- `KeyboardInterrupt` (`MyCrawler/crawler.py:433`) is not modelled. The user interrupt is outside the model.
- `\d` is modelled as the ASCII digits. Python's `re` on `str` also matches other Unicode decimal digits.
- Viewer.Browser.NextImage, Viewer.Browser.PreviousImage and Viewer.Browser.NextRecord: the wait for the control and the wait for a location change are decided from the view's controls alone; they take no answer from the wait queue. A non-timeout error out of the chevron waits (`MyCrawler/crawler.py:262`, `MyCrawler/crawler.py:294`, `MyCrawler/crawler.py:357`) would escape to the top-level handler (`MyCrawler/crawler.py:435`, `MyCrawler/single_crawler.py:327`), and one out of the pager wait (`MyCrawler/crawler.py:386`) would end the crawl at `MyCrawler/crawler.py:429`; those paths are not modelled.
- Passes.RewindAsWritten: it is stated with a step bound (`fuel`). Its non-termination is shown for every bound, not as an infinite computation.
- Walker.Advance: a pager click that leaves the location unchanged and whose expand-button wait errs is merged with a timeout as `NotReloaded`. In the source it is an exception that the `except Exception` at `MyCrawler/crawler.py:429` catches; both end the crawl.
- Viewer.Browser.Open: `driver.get` to a location no view has is modelled as not loaded, which ends the single-record run like the failed expand-button wait. A real browser would load some page there.
- Walker.Crawl: the loop counts every pass toward `max_items`, as `Walker.Walk` does. It does not follow the source's count of processed records only (see Findings). After a pager click that left the location unchanged, it also compares the display id shown with the one shown before the click, not with the record's entry id (see Findings). On crawls where every pager click moves and no pass meets a record already processed, the two loops have the same outcome (`Walker.WalkAgrees`).
- Passes.Rewind: it also stops on reaching a location it has already shown, which the source does not; both crawlers use it for their second pass (see Findings).
- Walker.WalkAsWritten: it is stated with a step bound (`fuel`). Its non-termination is shown for every bound, not as an infinite computation.

## Findings

| source | as written | input that shows it | evidently intended | confidence | as-written member | corrected member |
|---|---|---|---|---|---|---|
| MyCrawler/crawler.py:205-229 | Only newly processed records count toward `max_items`; an already processed record is skipped and the pager is pressed again | Two single-image records whose next-record pagers lead to each other: after both are processed, every later pass skips and pages, so the loop never ends | The loop is bounded by `max_items` passes, so the walk ends | not executed | Walker.CycleProcessorNeverEnds | Walker.SkipsEnd |
| MyCrawler/crawler.py:292-314 | The rewind clicks the previous-image control for as long as the location changes, with no other bound | Two views whose previous-image controls lead to each other: every click changes the location, so the rewind never ends | The rewind stops once it reaches a location it has already shown | low, not executed | Passes.RewindNeverEnds | Passes.RewindBounded |
| MyCrawler/crawler.py:405-411 | After a pager click that left the location unchanged, the display id shown is compared with the record's entry id, though the download pass left the cursor on the record's last sub-image | A last record with sub-images 2 and 3 and a disabled pager, entered on 2: the click shows 3, which differs from 2, so the record is entered again on 3, counted as one image with info id 2, and `rec_7_id_2.jpg` is written again with that image | The crawl ends at the last record when the click changes nothing | medium, not executed | Reentry.RewritesFile | Reentry.WritesOnce |
