# Console and seed behaviour, modelled and proved

The console of this repository keeps a live map of technicians and properties, a floor-plan review desk, an import dock,
and bulk actions over inspections; two scripts seed its database. This project models the parts of them that carry state,
arithmetic or collection logic and proves what their comments and tests promise, for every input and every run.

A component that changes its own state is a class with that state; each method's contract gives the whole new state as a
function of the old (`Now() == Step(old(Now()), event)`), and what the component promises is proved about runs of that
function. Pure code is functions and lemmas. Collections are mathematical ones; a browser or server answer is an event.

| file | what it models |
|---|---|
| `MapCamera.dfy` | the camera director's three effects and its refs, one React commit a step |
| `MapPage.dfy` | the page and the map component that own the director's inputs, which closes the system |
| `MapBounds.dfy` | what the map frames, and the loop that computes the box |
| `MapClusters.dfy` | the padded box, the date line, and what panning uncovers |
| `FanOut.dfy`, `RealArithmetic.dfy` | the ring that pulls apart markers on one spot |
| `Portfolio.dfy` | which properties are shown and drawn, and the one open window |
| `FloorGroups.dfy`, `DraftSelection.dfy` | areas grouped by floor, and the batch selection over them |
| `MarkerEditor.dfy` | the plan marker editor and its unsaved-changes guard |
| `Extraction.dfy` | the floor-plan extraction poller |
| `Text.dfy`, `VisitSearch.dfy` | the word search of the "Add visit" panel |
| `Uploads.dfy`, `Announcements.dfy`, `ImportDrawer.dfy` | the import dock |
| `BulkBar.dfy` | the bulk action bar |
| `AddAreas.dfy` | areas added to an inspection under way, on the client and on the server |
| `SeedRoles.dfy`, `SeedSuperAdmin.dfy` | the two seeds |
| `Options.dfy`, `Sequences.dfy`, `Sorting.dfy` | optional values, `filter`, and stable sorting |

## Where the code and its promises part

Each of these is proved as an exact condition: the promise holds if and only if the condition does.

- `map-portfolio.tsx:55-59` draws past the edge of the view so that a pan finds its markers there. A pan that
  carries an edge of the view past ±180 uncovers places the padding did not reach, unless the padding went all the way round the world
  (`MapClusters.PanIsCoveredExactly`).
- `floor-plan-manager.tsx:1169-1173` closes whatever edit is on screen when a save succeeds. A position placed since then,
  for that area or for another, is dropped without the guard (`MarkerEditor.SaveKeepsOnlyWhatWasSent`,
  `MarkerEditor.LateSaveDropsAnotherAreasWork`).
- `import-dock.tsx:119-121` speaks of the attempt being tracked, but the records are kept by inspection only. With an
  earlier attempt on the inspection still out, that one landing takes the newer one's record away
  (`Uploads.SecondFileIsSafeExactly`), and its progress is drawn on the newer one's bar
  (`Uploads.SecondFileHasItsBarExactly`, `Uploads.BarIsItsOwnExactly`).
- `inspection-workflow.tsx:142-147` says the dialog mirrors the server's resolution. The dialog applies the layout rule to
  the whole property, for every visit, and then chooses between unit and building; the server chooses first, and applies
  the rule only to visits that walk rooms. They differ in three cases (`AddAreas.OffersWhatTheServerTakesExactly`): a unit
  whose approved areas are all dropped by the rule, where the server refuses every area the dialog offers
  (`AddAreas.OfferedIsTakenExactly`); on a visit that walks rooms, a report or plan elsewhere on the property that sets
  aside standard rooms of the unit; and on any other visit whatever the rule drops of the areas the server chose, equipment
  above all, which the dialog then cannot offer.
- `seed-super-admin.ts:173-176` returns a temporary password whenever the run believes it set one. When no reset is
  asked for and no credential has the email, but the profile that does holds one under another address, the foreign key carries that credential to the
  profile's new `authUserId`, the upsert finds it there, and the old password stays
  (`SeedSuperAdmin.ReportedPasswordWorksExactly`).
- `map-camera.tsx:242-252` keeps a followed technician in the middle. Whether it has is decided at the last commit that
  asked for something or brought their position: if the reader had the camera then and nothing was asked for, giving the
  camera back later does not move the map (`MapCamera.FollowsExactly`). A page that gives it back only together with a new
  pick or a Re-center is safe, and the one page there is does so (`MapCamera.FollowsTechnician`,
  `MapPage.PageIsDisciplined`).
- `map-camera.tsx:190-200` remembers what the overview was last framed for, and does not forget it when the camera goes
  elsewhere. Let go of a technician while nothing at all is on the map, and when the same things are back the overview
  counts as framed though the map still stands where the technician was (`MapPage.EmptiedPageStaysBehind`, a history of
  the page; `MapPage.PageShowsTheOverviewExactly`, when it happens).

## Model

| member | source | states |
|---|---|---|
| MapCamera.FocusKeyIdentifies | web/components/map-camera.tsx:53-57 | two selections have one focus key exactly when they pick the same thing, so depending on the key is depending on the pick |
| MapCamera.CameraDirector.FitTo | web/components/map-camera.tsx:72-95 | a fit commands the least box around its points, with the padding given and a zoom of 15 at most |
| MapCamera.CameraDirector.Commit | web/components/map-camera.tsx:185-252 | one commit with its refs and effects in order issues the commands, and leaves the state, of the commit's specification |
| MapCamera.ReaderKeepsCamera | web/components/map-camera.tsx:202-252 | over every run, once the reader has moved the map a commit moves it exactly when a technician or property is newly asked for (or the map arrived) and there is somewhere to go, and then once |
| MapCamera.ThreeReasonsOnly | web/components/map-camera.tsx:195-252 | over every run, the exact condition under which a commit commands the camera at all |
| MapCamera.PickIsVisited | web/components/map-camera.tsx:204-232 | what is asked for is what is visited, longitude and latitude each in its place: the newest position at zoom 15, a frame of the stops of someone not reporting, the first building with that id at zoom 18, and nothing otherwise |
| MapCamera.FollowingKeepsTheZoom | web/components/map-camera.tsx:242-252 | a commit in technician focus that was not asked for commands one move to the newest position at most, with no zoom |
| MapCamera.OverviewNeverOverrulesReader | web/components/map-camera.tsx:227-240 | in overview focus no commit of any run overrules a reader who moved the map, nor marks anything framed |
| MapCamera.FollowsTechnician | web/components/map-camera.tsx:204-252 | over every disciplined run, after every commit with a map, a focused technician who has a position and has not been taken from by the reader is the centre last commanded |
| MapCamera.FollowsExactly | web/components/map-camera.tsx:204-252 | over every run, disciplined or not, a followed technician is where the map was last told to be if and only if the last commit that asked for something or brought their position asked, or found the reader not in charge, or the map was already told to be there |
| MapCamera.UndisciplinedReleaseStaysBehind | web/components/map-camera.tsx:242-252 | (example) a three-commit run, for any technician and any two positions, in which it is not |
| MapCamera.OverviewFramesAtMostOnce | web/components/map-camera.tsx:195-240 | a commit in overview focus frames at most once though two effects may fire, and exactly when it should |
| MapCamera.MovementNeverReframes | web/components/map-camera.tsx:234-240 | commits that change only positions, points, stops or properties leave the overview where it is |
| MapCamera.OverviewIsFramedForWhatIsThere | web/components/map-camera.tsx:195-240 | over every disciplined run in which the key alone decides whether there is anything to frame, the overview, while it is the map's to move, has been framed for exactly who and what is on the map |
| MapCamera.FramingShows | web/components/map-camera.tsx:195-240 | over every run, the overview with a key is what the map was last told to show if and only if it was framed last for that key and the map has been told nothing since |
| MapCamera.OverviewShowsExactly | web/components/map-camera.tsx:195-240 | over every such disciplined run, with something on the map, it is the overview of who and what is on it if and only if that was framed at or after the last commit that asked for something, or the map was told nothing between its framing and that commit |
| MapCamera.OverviewStaysOnScreen | web/components/map-camera.tsx:195-240 | so it is whenever the map is never emptied |
| MapPage.FocusIsThePick | web/components/technician-map.tsx:718-747 | whatever is clicked, and whichever day is picked, in whatever order, the camera's subject is the most recent pick still held |
| MapPage.PageIsDisciplined | web/components/technician-map.tsx:718-782 | every history of the page gives the camera back only with a new pick or a Re-center |
| MapPage.PageFollowsTechnician | web/app/(admin)/map/page.tsx:262-325 | in every history of the page, a technician who is the camera's subject and has a position is where the map was last told to be, the longitude and latitude of the first position of theirs, unless the reader has the map |
| MapPage.SelectionAfter | web/app/(admin)/map/page.tsx:262-325 | (support) what each thing a person does leaves selected |
| MapPage.GesturesTakeTheMap | web/components/map-camera.tsx:113-142 | (support) a person's gesture off the console's own controls takes the map, a move of the map's own does not, and Re-center gives it back |
| MapPage.PageGoesToTechnician | web/components/technician-map.tsx:718-782 | after every history, picking a technician anew, asking for one again or clicking a marker ends with the map told to be where they are |
| MapPage.PageShowsTheWork | web/components/technician-map.tsx:683-693 | or, for one with no position, to frame the day's mapped work |
| MapPage.PageGoesToProperty | web/components/technician-map.tsx:734-747 | after every history, picking a property or a stop that is on the map ends with the map told to go to it |
| MapPage.PageLeavesReaderAlone | web/components/technician-map.tsx:718-782 | once the reader has moved the map, data, gestures, searches and letting go move nothing and do not take it back |
| MapPage.PageFramesTheOverview | web/components/technician-map.tsx:676-782 | in every history of the page with non-empty ids, while nothing is picked, the reader has not taken the map and something is on it, the overview was last framed for who and what is on it now |
| MapPage.PageShowsTheOverview | web/components/technician-map.tsx:676-782 | and if the page is never emptied, that is the last thing the map was told |
| MapPage.PageShowsTheOverviewExactly | web/components/technician-map.tsx:676-782 | in every such history, emptied or not, that is the last thing the map was told if and only if it was framed since the last thing asked for, or the map was told nothing between its framing and then |
| MapPage.EmptiedPageStaysBehind | web/components/technician-map.tsx:676-782 | (example) a five-event history, for any technician with a position and whatever else is on the map, in which the overview counts as framed and the map was last told to go to the technician |
| MapPage.PageDecidesEmptiness | web/components/technician-map.tsx:676-705 | in every history of the page the key alone decides whether there is anything to frame |
| MapPage.SameKeyMeansSameThings | web/components/technician-map.tsx:698-705 | two deliveries have one key exactly when they hold the same technicians and the same properties, in any order, for ids that do not hold the separator and are not both a technician's and a property's |
| MapBounds.FitBox | web/components/map-camera.tsx:72-95 | the loop computes the least box: it holds every point and each side touches one |
| MapBounds.BoundingBoxIsTight | web/components/map-bounds.ts:32-48 | the bounding box of a non-empty list is the least box around it |
| MapBounds.TightBoxIsUnique | web/components/map-bounds.ts:32-48 | (support) there is no other least box |
| MapBounds.FramedPositions | web/components/map-bounds.ts:73-88 | (support) a position decides the framing exactly when there are no properties or it is within the margin of them |
| MapBounds.FrameStaysNearProperties | web/components/map-bounds.ts:23-88 | the frame holds the properties' box and lies within it grown by 1.5 degrees |
| MapBounds.OutlierIsIgnored | web/components/map-bounds.ts:73-88 | one more position, anywhere in the list, leaves what is framed identical exactly when it is beyond the margin |
| MapClusters.PadBoxStaysInWorld | web/components/map-clusters.ts:108-126 | the padded box is a box of the world that never crosses the date line |
| MapClusters.PadBoxGrows | web/components/map-clusters.ts:108-134 | nothing in view is lost by padding, date-line views included, and a larger share only adds |
| MapClusters.PadBoxHoldsExactly | web/components/map-clusters.ts:108-134 | exactly which places a padded box holds, in degrees from the sides of the box |
| MapClusters.PanIsCoveredExactly | web/components/map-clusters.ts:108-134 | a padded box covers every pan of up to its share exactly when the pan keeps the view's edges on this side of ±180 or the padding went round the world |
| FanOut.NeighboursAreClosest | web/components/map-clusters.ts:78-87 | on a ring of n, no two points are closer than neighbours |
| FanOut.RingKeepsGap | web/components/map-clusters.ts:78-87 | before rounding any two markers of a ring are at least 24 px apart |
| FanOut.NeighboursAreAtTheGap | web/components/map-clusters.ts:82-83 | and neighbours exactly 24 px |
| FanOut.RingIsAClock | web/components/map-clusters.ts:84-87 | the ring's places go clockwise from twelve by equal shares of the turn |
| FanOut.SpotIsAPlace | web/components/map-clusters.ts:72-73 | two items have one spot exactly when both coordinates have one sign and round, a half going up, to one figure of five decimals, and then differ by at most 0.00001 |
| FanOut.FanKeepsDiscsApart | web/components/map-clusters.ts:52-91 | after both coordinates are rounded any two are at least 22 px apart, a disc's width |
| FanOut.GroupBySpot | web/components/map-clusters.ts:70-77 | the first loop gathers each spot's items in their order |
| FanOut.FanSpot | web/components/map-clusters.ts:78-88 | the second loop places one spot's items on its ring and touches no other entry |
| FanOut.SpotOffsets | web/components/map-clusters.ts:66-91 | every item of a shared spot, and nothing else, gets its own place on that spot's ring |
| FanOut.FanSeparates | web/components/map-clusters.ts:52-91 | with distinct keys a marker is moved exactly when another's coordinates print alike, and two that do are drawn at least 22 px apart |
| FanOut.MarkersStandOnTheRing | web/components/map-clusters.ts:78-88 | the r-th of the n markers of a spot has the r-th place of the ring of n, each coordinate rounded |
| Portfolio.PanUncoversNothing | web/components/map-portfolio.tsx:501-505 | every property in view before or after such a pan, and the open one, is drawn |
| Portfolio.DrawnOnTheMap | web/components/map-portfolio.tsx:730-743 | (support) exactly which properties end up drawn: nothing the map is about is hidden for being off the package |
| Portfolio.ShowingAndDrawingCommute | web/components/map-portfolio.tsx:501-505 | choosing what to show and what to draw may be done in either order |
| Portfolio.PropertyWindow.Handle | web/components/map-portfolio.tsx:494-539 | a click, a close and a render change the open window as specified |
| Portfolio.RefetchesLeaveWindowAlone | web/components/map-portfolio.tsx:533-537 | strike every render that repeats the selection from a history and the window ends the same |
| Portfolio.LastDeedDecides | web/components/map-portfolio.tsx:494-539 | the open window is whatever the last click, close or new selection made it |
| FloorGroups.GroupAreasByFloor | web/components/floor-plan-manager.tsx:1817-1844 | filling the map in place and sorting it twice computes the grouping |
| FloorGroups.GroupingIsAPartition | web/components/floor-plan-manager.tsx:1817-1844 | the groups hold exactly the areas given, each as often |
| FloorGroups.GroupsAreTheFloors | web/components/floor-plan-manager.tsx:1817-1844 | one non-empty group for every floor with an area and no other, its areas stably sorted by order and name, the groups sorted by floor order and name |
| FloorGroups.EveryGroupReads | web/components/floor-plan-manager.tsx:1817-1844 | in the fields shown: a group is headed by its floor, or as having none, and holds exactly that floor's areas by order, then name |
| FloorGroups.FloorsReadInOrder | web/components/floor-plan-manager.tsx:1835-1837 | in the fields shown: a lower floor comes first, and floors of one order go by name |
| DraftSelection.Selection.SetGroupSelected | web/components/floor-plan-manager.tsx:190-199 | a heading selects or clears exactly its ids |
| DraftSelection.Selection.Prune | web/components/floor-plan-manager.tsx:175-181 | the effect keeps exactly the selected ids that are still drafts |
| DraftSelection.SelectionIsAsSaid | web/components/floor-plan-manager.tsx:182-199 | (support) what one event does to any one id |
| DraftSelection.SelectionStaysLive | web/components/floor-plan-manager.tsx:169-201 | over every run, the commits between a new list and its effect included, a stale id is selected only while the effect is due |
| DraftSelection.PruningSettles | web/components/floor-plan-manager.tsx:175-181 | after any run the effect drops exactly the stale ids |
| DraftSelection.SizesAgreeExactly | web/components/floor-plan-manager.tsx:200-201 | on any list the size test says "all" exactly when as many selected ids are stale as drafts are unselected |
| DraftSelection.AllDraftsSelectedBySize | web/components/floor-plan-manager.tsx:200-201 | on a live selection it holds exactly when the selection is the non-empty draft set |
| DraftSelection.FloorCountsSumToTotal | web/components/floor-plan-manager.tsx:790-808 | the counts on the floor headings add up to the live part of the selection, and to the toolbar's count exactly when no stale id is selected |
| MarkerEditor.Workspace.Handle | web/components/floor-plan-manager.tsx:1107-1191 | the editor's handlers change selection, edit, draft, page and parked action as specified |
| MarkerEditor.GuardParksAndReplays | web/components/floor-plan-manager.tsx:1104-1133 | with an unsaved position selecting another area, changing page or closing changes nothing and is parked; keeping restores the state exactly, discarding does what the action would have done, once |
| MarkerEditor.EditedAreaIsSelected | web/components/floor-plan/FloorPlanChecklist.tsx:183-201 | over every run of offered controls the edited area is the selected one |
| MarkerEditor.ActionsAreHeldBackExactly | web/components/floor-plan-manager.tsx:1083-1191 | over every such run an action that would lose the position on screen is held back exactly when that position is not the stored one of the area being edited, and is carried out at once otherwise |
| MarkerEditor.DraftIsLostOnlyOnPurpose | web/components/floor-plan-manager.tsx:1083-1191 | over every such run, and whatever comes next, an unsaved position is lost exactly by cancelling, a save succeeding, a confirmed discard, or starting an edit, which is not offered then |
| MarkerEditor.EditIsAsDone | web/components/floor-plan-manager.tsx:1135-1191 | (support) what starts, fills, sends and ends an edit |
| MarkerEditor.SaveKeepsOnlyWhatWasSent | web/components/floor-plan-manager.tsx:1154-1182 | when a save succeeds the position on screen is stored exactly when it is the one sent, for the area it was sent for |
| MarkerEditor.LateSaveDropsAnotherAreasWork | web/components/floor-plan-manager.tsx:1154-1182 | a run of offered controls in which it is another area's, and is lost |
| Extraction.Poller.Extract | web/components/floor-plan-manager.tsx:349-356 | a click starts a call exactly when there is a plan and none is active, and captures the plan |
| Extraction.Poller.AfterPoll | web/components/floor-plan-manager.tsx:362-386 | one poll's answer, or its rejection, changes message, error and progress as specified |
| Extraction.ExtractionIsSingleFlight | web/components/floor-plan-manager.tsx:349-393 | over every interleaving at most one call is in flight, the guard says so, the job shown is its own, and every poll asks about the plan captured at its start |
| Extraction.ExtractionShowsItsOutcome | web/components/floor-plan-manager.tsx:362-393 | once nothing is in flight a completed last call has left its message and no error, a failed one its error and no message of its own |
| Extraction.CompletedAnswerIsShown | web/components/floor-plan-manager.tsx:362-377 | in every run, a poll answered as completed leaves that call's message with the answer's own numbers and no error, whatever else happens until its lists are refetched, and the call ends as completed |
| Extraction.FailedAnswerIsShown | web/components/floor-plan-manager.tsx:377-385 | one answered as failed leaves that call's error, the time-out told from every other code, and no message of its own |
| Extraction.PendingAnswerChangesNothing | web/components/floor-plan-manager.tsx:359-362 | one with no answer yet changes nothing on screen and waits for the same job |
| Extraction.RejectionIsShown | web/components/floor-plan-manager.tsx:387-388 | a start or a poll that fails ends the call with its own text as the error |
| Extraction.ClickStarts | web/components/floor-plan-manager.tsx:349-357 | in every run, a click starts a call on the latest plan exactly when there is one and none is in flight, and clears the line |
| Extraction.StartedJobIsPolled | web/components/floor-plan-manager.tsx:357-358 | (support) the job a start is answered with is the one shown and waited for |
| Extraction.TimerPolls | web/components/floor-plan-manager.tsx:359-362 | (support) and the one polled, unless the page is gone |
| Extraction.ExitReleases | web/components/floor-plan-manager.tsx:386-393 | every way out releases the guard and the job id, so the next click is taken |
| Extraction.RejectedRefetchLeavesBoth | web/components/floor-plan-manager.tsx:362-393 | (support) a refetch that rejected after a completed job would leave both its message and an error; see below |
| VisitSearch.NormaliseIsItsWords | web/components/add-visit-panel.tsx:23-24 | the normal form of any text is its lower-case alphanumeric words joined by single blanks |
| VisitSearch.NormaliseKeepsWords | web/components/add-visit-panel.tsx:23-24 | normalising keeps the words and is idempotent |
| Text.CaseDoesNotMatter | web/components/add-visit-panel.tsx:23-24 | texts that differ in case only have the same words |
| Text.BreakDividesWords | web/components/add-visit-panel.tsx:23-24 | any character that is no letter or digit divides the words before it from those after it |
| Text.RunIsAWord | web/components/add-visit-panel.tsx:23-24 | a run of small letters and digits is its own word |
| Text.DottedCapitalEndsItsWord | web/components/add-visit-panel.tsx:23-24 | the dotted capital I reads as an i that ends its word |
| VisitSearch.MatchMeansEveryWord | web/components/add-visit-panel.tsx:31-36 | a match is at least one query word, each standing inside some word of the haystack |
| VisitSearch.MatchDependsOnWords | web/components/add-visit-panel.tsx:26-36 | a match depends only on the sets of words, not their order, repetition or punctuation |
| VisitSearch.MatchDoesNotKnowCase | web/components/add-visit-panel.tsx:26-36 | nor on case, on either side |
| VisitSearch.PropertyIsFoundByItsWords | web/components/add-visit-panel.tsx:38-39 | a property matches when each query word is part of a word of its name, street, city or postal code |
| VisitSearch.VisitIsFoundByItsWords | web/components/add-visit-panel.tsx:111-117 | and a visit by its building's name, street and city and its unit's name |
| VisitSearch.ListsAreExactly | web/components/add-visit-panel.tsx:102-131 | exactly which visits and properties are listed, the properties by name |
| VisitSearch.MatchIgnoresNormalising | web/components/add-visit-panel.tsx:24-36 | matching the normal forms is matching the texts |
| VisitSearch.TypingNarrows | web/components/add-visit-panel.tsx:31-36 | with a word already typed, whatever matches a longer query matched the shorter one |
| VisitSearch.TypingNarrowsProperties | web/components/add-visit-panel.tsx:122-131 | once searching, typing on only takes properties off the list, in place |
| VisitSearch.TypingNarrowsVisits | web/components/add-visit-panel.tsx:102-120 | the day's visits only shrink, from the first keystroke |
| VisitSearch.ShownIds | web/components/add-visit-panel.tsx:134-139 | the set filled by two loops holds each listed building once, visits first |
| VisitSearch.ShownIdsAreExactly | web/components/add-visit-panel.tsx:134-139 | the map is shown exactly the buildings of the listed visits and the properties found, each once |
| VisitSearch.MapIsToldWhatIsListed | web/components/add-visit-panel.tsx:140-143 | joining and splitting the ids gives them back exactly when none holds the separator and none alone is empty |
| Uploads.Dock.OnRefused | web/components/import-dock.tsx:134-148 | a refused attempt writes its record again, with its error |
| Uploads.AnswerIsRecorded | web/components/import-dock.tsx:124-148 | (support) what an answer leaves of the record, and that it touches no other |
| Uploads.RecordTellsTheLatestAttempt | web/components/import-dock.tsx:110-152 | with one attempt at a time per inspection, over every interleaving there is a record exactly when the latest attempt has not landed, with an error exactly when it was refused, its own |
| Uploads.SecondFileIsSafeExactly | web/components/import-dock.tsx:110-152 | a further attempt keeps that true in every continuation exactly when none on that inspection is outstanding |
| Uploads.BarIsItsOwnExactly | web/components/import-dock.tsx:117-123 | while an upload goes on, its bar shows its own last fraction exactly when the last progress heard of for the inspection was its own, or none was heard, or the fractions agree |
| Uploads.SecondFileHasItsBarExactly | web/components/import-dock.tsx:117-123 | a further attempt has the bar to itself, in every continuation in which progress comes from attempts not yet answered, exactly when none on that inspection is outstanding |
| Uploads.FirstFileHasItsBarExactly | web/components/import-dock.tsx:117-123 | in every continuation, progress from answered attempts included, exactly when there was no earlier attempt on that inspection |
| Uploads.OlderProgressIsDrawn | web/components/import-dock.tsx:117-123 | (example) with one outstanding, that one's progress is drawn on the newer one's bar |
| Uploads.ProgressDecidesNothing | web/components/import-dock.tsx:117-123 | strike every progress event from any run and the records are the same but for the bar |
| Announcements.Announcer.OnImports | web/components/import-dock.tsx:264-303 | each poll adds the notices of the jobs first seen finished in it |
| Announcements.AnnouncedOnce | web/components/import-dock.tsx:252-303 | over any polls an import seen outside reading has exactly one notice, of its first such sighting, success exactly when it was imported then |
| Announcements.NoticeSaysWhatHappened | web/components/import-dock.tsx:277-302 | (support) the title, the description and the link of a notice |
| Announcements.NotYetAnnounced | web/components/import-dock.tsx:264-266 | an import only ever seen reading has none |
| ImportDrawer.OpensOnlyOnStarting | web/components/import-dock.tsx:347-368 | left alone, a closed drawer opens exactly when uploads start from none, and the stored preference is not written |
| ImportDrawer.ClosingSticks | web/components/import-dock.tsx:353-360 | closed while uploads go on, it stays closed |
| ImportDrawer.TogglingIsRemembered | web/components/import-dock.tsx:335-342 | (support) what the reader says goes, and is what the browser remembers |
| BulkBar.Bar.Each | web/components/inspection-bulk-bar.tsx:84-105 | every target is sent once and in order whatever is refused, progress counts by one to the total, the failures are listed, and the selection is let go exactly when there are none |
| BulkBar.Bar.Submit | web/components/inspection-bulk-bar.tsx:107-137 | each action sends its targets, and afterwards shows their failures or is closed |
| BulkBar.EachCallSaysWhatWasAsked | web/components/inspection-bulk-bar.tsx:107-137 | in the fields sent: the day for a move, the reason for a cancellation, and for an assignment the technician, a change of one when the row has one, with the reason if there is any |
| BulkBar.FailuresSayWhatWasSaid | web/components/inspection-bulk-bar.tsx:89-93 | each failure names its row and says what the server said |
| BulkBar.ReadyMeans | web/components/inspection-bulk-bar.tsx:139-142 | (support) when the button is there to press |
| BulkBar.EveryRowIsAccountedFor | web/components/inspection-bulk-bar.tsx:72-137 | the picked rows are, as a multiset, those left out, already on that technician, changed, and failed |
| BulkBar.EachRowIsSentOnce | web/components/inspection-bulk-bar.tsx:107-137 | a row is sent exactly when the action applies to it, and never twice |
| BulkBar.ClearedWhenAllWereTaken | web/components/inspection-bulk-bar.tsx:87-105 | nothing is listed as failed exactly when every call was taken |
| AddAreas.LayoutMembers | shared/src/contracts/standard-layout.ts:243-271 | what the layout rule keeps: rooms, less the standard ones once a whole layout has arrived |
| AddAreas.LayoutReads | shared/src/contracts/standard-layout.ts:169-271 | (support) the same by the sources' own names |
| AddAreas.EligibleReads | web/components/inspection-workflow.tsx:185-191 | exactly which areas may be offered, in the fields of an area |
| AddAreas.AddingTakesOffTheList | web/components/inspection-workflow.tsx:167-196 | adding areas takes exactly those off the list and leaves the rest in order |
| AddAreas.AddingAllLeavesNothing | web/components/inspection-workflow.tsx:142-147 | nothing is offered any more exactly when everything offered has been added: a covered unit never flips |
| AddAreas.OfferedIsEligibleAndAbsent | web/components/inspection-workflow.tsx:185-196 | the list is the eligible areas not yet there, in inspection order |
| AddAreas.FilteringFirstFlipsCoveredUnits | web/components/inspection-workflow.tsx:142-147 | subtracting first goes wrong exactly for a covered unit in a building with something left |
| AddAreas.OfferedIsTakenExactly | backend/src/admin/admin.service.ts:3208-3260 | the server takes every area offered exactly when the unit is not stranded, and otherwise none |
| AddAreas.OffersWhatTheServerTakesExactly | backend/src/admin/admin.service.ts:3208-3246 | for every visit, the dialog and the server choose from the same areas exactly when the unit is not stranded and the dialog withholds nothing |
| AddAreas.ThermostatStrandsItsUnit | backend/src/admin/admin.service.ts:3214-3245 | (example) a property on which the dialog offers an area that the server refuses to add |
| AddAreas.PorchWithholdsTheBedroom | backend/src/admin/admin.service.ts:3214-3245 | (example) a property with a room that the server would take and the dialog does not offer |
| AddAreas.ThermostatIsWithheld | backend/src/admin/admin.service.ts:3227-3245 | (example) on an HVAC or roof visit, equipment that the server would take and the dialog does not offer |
| AddAreas.TickedIsAdded | backend/src/admin/admin.service.ts:3208-3273 | otherwise whatever is ticked is added, and the list offered next is the rest |
| AddAreas.ServerAnswers | backend/src/admin/admin.service.ts:3246-3273 | what the server answers to any request: everything asked for, or one of two refusals |
| AddAreas.TickedOddly | web/components/inspection-workflow.tsx:206-210 | after any ticks an area is selected, once, exactly when it was ticked an odd number of times |
| SeedRoles.Database.SeedRoles | backend/prisma/seed-roles.ts:117-174 | a run writes the seeds before the first that names an unknown permission, and reports that one, or all of them |
| SeedRoles.RoleAfterSeeds | backend/prisma/seed-roles.ts:136-163 | role by role and for any prior contents, what a run leaves |
| SeedRoles.SeedingAddsWhatIsMissing | backend/prisma/seed-roles.ts:149-163 | every seed's role is present, no other is added, and no existing role's permissions change |
| SeedRoles.NewRoleIsAsSeeded | backend/prisma/seed-roles.ts:149-163 | a role seeded has the last description given and, unless it was there already, the first permissions |
| SeedRoles.StopsAtTheFirstUnknown | backend/prisma/seed-roles.ts:136-141 | how far a run goes: to the first seed with a permission that is not known |
| SeedRoles.ResumingIsRunning | backend/prisma/seed-roles.ts:136-170 | running again after a run that stopped part-way ends where one run would have |
| SeedRoles.SecondRunChangesNothing | backend/prisma/seed-roles.ts:149-170 | whatever permissions were edited since, a second run changes nothing and creates nothing |
| SeedRoles.ReportIsTrue | backend/prisma/seed-roles.ts:143-169 | a seed is reported created exactly when its role was not there and no earlier seed made it |
| SeedSuperAdmin.Store.UpsertProfile | backend/prisma/seed-super-admin.ts:32-88 | the transaction writes organization, profile and membership, moving the credential with its profile, or leaves everything as it was |
| SeedSuperAdmin.Store.Seed | backend/prisma/seed-super-admin.ts:129-182 | a run's writes and its report |
| SeedSuperAdmin.SeedFailsExactlyOnClash | backend/prisma/seed-super-admin.ts:41-70 | whichever profile the query happens on, a run fails exactly when the email signs in to one profile and is the address of another, and then nothing has changed |
| SeedSuperAdmin.SeedKeepsConsistent | backend/prisma/seed-super-admin.ts:129-182 | every run leaves the unique keys and foreign keys standing |
| SeedSuperAdmin.PasswordsChangeOnlyOnReset | backend/prisma/seed-super-admin.ts:148-168 | no credential is lost, only the seeded one is touched, and no existing password or flag changes unless a reset is asked for |
| SeedSuperAdmin.SeedLeavesOneSystemAdmin | backend/prisma/seed-super-admin.ts:71-87 | a completed run leaves an active profile with the name and email configured, the one that had the email if there was, a credential to sign in with, exactly one such membership, and every other profile and membership as it was |
| SeedSuperAdmin.SettledStaysAsItIs | backend/prisma/seed-super-admin.ts:129-182 | on an account that is there already a run without a reset writes nothing and reports no password |
| SeedSuperAdmin.RepeatChangesNothing | backend/prisma/seed-super-admin.ts:129-182 | so repeating a run without a reset changes nothing, whatever is drawn |
| SeedSuperAdmin.RunReports | backend/prisma/seed-super-admin.ts:160-177 | a run says a change is required exactly when nobody signs in with the email yet or a reset is asked for, and returns a temporary password exactly when it also had to choose one |
| SeedSuperAdmin.ReportedPasswordWorksExactly | backend/prisma/seed-super-admin.ts:148-177 | the password a run says it set is the one stored, with a change required, exactly when a reset was asked for or the account inherits no credential |
| SeedSuperAdmin.PrintedPasswordMayNotWork | backend/prisma/migrations/202608070001_self_hosted_auth_credentials/migration.sql:57-59 | a database on which the printed password is not stored |

## Left out

- JSX, styling, dialogs, tables, text formatting: presentation only.
- Mapbox: a camera command is a value; nothing is claimed about animation or the zoom a fit ends at. The fit the page's search frames outside the director is an event that takes the camera from it.
- React Query, Prisma, fetch, sockets, local storage and toasts: event inputs, maps, or logs of what was said.
- Floating point: coordinates are reals. `Math.round` and `toFixed` are modelled, including the "-0.00000" of a small negative number, which makes it a spot of its own; NaN and infinity are not.
- Sine and cosine: a record of functions with the identities of plane trigonometry (unit circle, subtraction, mirror, rising up to a right angle). The geometry is proved from them.
- `localeCompare`: any total preorder on names. `sort` without a comparator orders texts by their characters, which is the engine's order for ids of plain letters, digits and hyphens.
- MapClusters.PanIsCoveredExactly: that the map reports the edges of its view wrapped into ±180 is an assumption about Mapbox.
- MapPage.PageShowsTheOverview: holds for a page that is not emptied once something was on it; `MapPage.EmptiedPageStaysBehind` is why.
- MapPage.PageIsDisciplined: each event of the page is a commit of its own followed by its effects'; several events batched into one commit are not modelled.
- `toLowerCase`: exact for letters and digits, including the two characters outside ASCII that lower into them; every other character is kept, since the next step drops it.
- `circleRing`, `metersPerPixel`, `ringIsLegible`, marker dimming and the settled-view shortcut on equal boxes: each settled by reading one expression.
- Zone territories, marker glide and colour: rendering.
- Extraction.Poller.Extract: the loop of the source is cut at its awaits, so that other events can run in between; the delay between polls has no length.
- Extraction.RejectedRefetchLeavesBoth: React Query's `refetch` resolves unless `throwOnError` is set, and nothing in the console sets it, so a rejected refetch is not received there; the results about every interleaving hold with it or without.
- BulkBar.Bar.Each: what a person changes in the dialog while a run is going is not interleaved with it; the run has captured its inputs and the dialog cannot be closed meanwhile. The reason is taken as already trimmed, and a day that is no date is a refused call.
- Uploads.Dock.OnRefused: how an error's message and the inspection it names are read out of it is an input.
- AddAreas.TickedIsAdded: the server's checks that the inspection exists, is open and has a property, its audit row and its notices are not modelled, nor two administrators adding at once. Areas are those of one property, not archived, and no id is empty.
- SeedRoles.Database.SeedRoles: seeds are arbitrary; the starter roles' own permission lists are data.
- SeedSuperAdmin.Store.Seed: the email is taken as trimmed and lower-cased; hashing, identifiers and the drawn password are inputs; the environment's own checks, and other writers in the middle of a run, are not modelled.
- SeedSuperAdmin.ReportedPasswordWorksExactly: assumes that a freshly salted hash is not one already stored.
- The report tables, badge maps, Jobber choices, paging counters, carousels, preference storage: one branch or one counter each.
