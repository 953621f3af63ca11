# Verified models of the demo's control logic

The demo draws its screens with LVGL. Behind the screens sit a few pieces of control logic, and
this project models those in Dafny and proves how they behave.

* **Two rectangle allocators.** `TileLayout` keeps a bit per tile and scans every anchor;
  `ButtonMatrix` keeps an integer per cell and scans only the anchors that fit. Both are array
  code here, each is related to a set of occupied cells, and both are compared with one reference
  first-fit allocator in `Geometry`. A rectangle in a linear buffer is `Strided(start, stride, w,
  h)`: the buttons use the number of columns as the stride, the bitmap 8 bits per bitmap byte.
* **Paging.** `Paginator` is the nested paging loop over any kind of page, `Paging` and
  `IntercomPaging` the two loops of the program over tile layouts, `UnitTiles` the closed form for
  one-tile items, `HomeUi` the descriptor arrays of the home page.
* **Backlight.** `Fade` is one brightness step, `Backlight` the timer-driven controller.
* **Voice wake-up.** `VoiceWake` is the frame countdown and the assistant state it drives.
* **Command pipe.** `CommandPipe` is the client/server protocol of the Bluetooth and Wi-Fi
  servers, byte by byte, as interleaved atomic steps; `CommandRecords` is the protocol on whole
  records, which it refines as long as no read finds more than it can take.
* **Intercom.** `AudioStream` is the exact-length receive path, `PlayerLatch` the monitor page's
  request latch, interleaved read by read and store by store.

`dafny verify dfyconfig.toml` checks everything.

## What the code does where its intent differs

* The row parameter of `MAP_DATA` (rk_demo/layout/tile_layout.c:34) is not parenthesised and is
  given `y + i`, so row i of a rectangle is addressed i bytes, not i bitmap rows, after row y. The
  model keeps that index. `TilePlacement.SafePages` says which pages are safe all the same: those of
  at most eight columns or at most one row. `TileMap.Sound` is the condition for one request.
* A read takes up to 1024 bytes and handles what lies at the start of its buffer
  (rk_demo/wifibt/bt_server.c:967-969): records behind the first are dropped, and a read of an
  over-full pipe ends inside a record. A waiting call is therefore answered if and only if a read
  starting at some multiple of 1024 bytes finds a set flag byte (`CommandPipe.WaitReturnsIff`);
  as long as everything pending fits one read, if and only if the pipe was empty
  (`CommandPipe.FittingWaitReturnsIff`). Some run executes its own command if and only if the bytes
  pending before it are a multiple of 1024 (`CommandPipe.OwnCommandIff`), and
  `CommandPipe.EarlyReturnIff` says exactly when the call can return before that;
  `CommandPipe.EarlyReturn` is a case in which it returns and no run ever executes the command.
* The monitor page shares its desired state between the UI, the event handler and the play thread
  without a lock, which leaves two gaps
  (rk_demo/intercom_homepage/video_monitor/ui_monitor.c:212-217 and 356-357). A pause click between
  a PLAY handler's test and its store is wiped, and the next click pauses again
  (`PlayerLatch.RepeatedPause`). Events between a pause store and its command answer the request
  before it is sent, and the next click again pauses again (`PlayerLatch.LatePause`).
  `PlayerLatch.PauseDiscipline` says what can separate two pause commands, and
  `PlayerLatch.PauseDisciplineIff` that without both gaps, and only then, an answer or a play request
  always does.
* A play thread whose preparation fails returns without clearing its identifier
  (rk_demo/intercom_homepage/video_monitor/ui_monitor.c:278-290), so the page goes on as if it were
  running (`PlayerLatch.ThreadBegins`).
* `level_to_brightness` (rk_demo/main.c:102-103) compares without assigning in its upper clamp. The
  model requires levels below 8, which is the sensor's range (rk_demo/main.c:54).
* The size check of `asr_update` (rk_demo/asr/asr.c:275) lets the table size itself through and then
  reads past the table; the model requires other numbers. Negative numbers besides -1 are turned
  away by the same check, which compares as unsigned.
* A start tick that happens to be 0 counts as unset (rk_demo/main.c:180). `Backlight.SwitchOffSafe`
  holds regardless. The screen goes off in time if and only if the first tick does not meet a
  screen on, an unset start tick and a wrapped tick count of 0 (`Backlight.OffInTimeIff`);
  `Backlight.LateAtZero` is the failing run.

## Model

| member | source | states |
|---|---|---|
| BitMap.SetPosition | rk_demo/layout/tile_layout.c:35-39 | setting one bit of one byte of a buffer adds exactly its position to the shown set |
| BitMap.ClearPosition | rk_demo/layout/tile_layout.c:35-37 | clearing one bit removes exactly its position |
| BitMap.BufferDetermined | rk_demo/layout/tile_layout.c:35-41 | two buffers of one length that show the same positions are equal byte for byte |
| BitMap.ShownSetUnique | rk_demo/layout/tile_layout.c:40-41 | a buffer shows exactly one set of positions |
| LinearBuffer.StridedRect | rk_demo/layout/tile_layout.c:57-64 | with the true row stride, the linear indices of a rectangle are exactly the indices of its cells (injectivity of the numbering) |
| LinearBuffer.StridedSize | rk_demo/layout/tile_layout.c:57-64 | a rectangle no wider than its stride has w * h distinct indices |
| TileMap.FreeIsFits | rk_demo/layout/tile_layout.c:66-84 | on a page of at most 8 columns or one row, or for one-row rectangles: the free test holds exactly when the rectangle lies in the grid and misses every occupied cell |
| TileMap.MarkAddsCells | rk_demo/layout/tile_layout.c:57-64 | under the same condition marking adds exactly the cells of the rectangle |
| TileMap.LastCellMissed | rk_demo/layout/tile_layout.c:34-34 | on a page of more than 8 columns and more than one row, the literal macro index never addresses the last cell of a rectangle of two rows or more |
| TileMap.MarkExactIff | rk_demo/layout/tile_layout.c:34-64 | marking a free rectangle adds exactly its cells if and only if that condition holds |
| TileMap.FreeExactIff | rk_demo/layout/tile_layout.c:66-84 | the free test is exact for every map content if and only if that condition holds |
| TileMap.LiteralIs | rk_demo/layout/tile_layout.c:34-64 | on pages of any width, the positions addressed for a rectangle are, cell by cell, bit (x + j) mod 8 of byte map.w * y + i + (x + j) / 8 |
| TileMap.FreeTestIs | rk_demo/layout/tile_layout.c:66-84 | on pages of any width, the free test holds exactly when the anchor is in the grid, the rectangle stays on the page and none of those positions is set |
| TileLayout.IndexInMap | rk_demo/layout/tile_layout.c:34-34 | the literal byte index map.w * y + i + x / 8 stays inside the map for every cell of the grid, and names the position 8 * map.w * y + x + 8 * i |
| TileLayout.FloorQuotient | rk_demo/layout/tile_layout.c:109-110 | the quotient of the reals, truncated, is the integer quotient |
| TileLayout.FloatQuotient | rk_demo/layout/tile_layout.c:109-110 | the quotient rounded to single precision, truncated, is the integer quotient as well, for every dividend below 2^24 |
| TileLayout.CeilEighth | rk_demo/layout/tile_layout.c:113-113 | the rounded-up eighth is the least number of bytes with one bit per column |
| TileLayout.TileLayout.constructor | rk_demo/layout/tile_layout.c:98-115 | columns and rows are truncated quotients of the content size (or of the given size), bitmap rows are just wide enough, the map starts empty |
| TileLayout.TileLayout.MarkMap | rk_demo/layout/tile_layout.c:38-39 | the mark macro on row argument y + i sets exactly the position of its literal index |
| TileLayout.TileLayout.UnmarkMap | rk_demo/layout/tile_layout.c:36-37 | the unmark macro clears exactly that position |
| TileLayout.TileLayout.ReadMap | rk_demo/layout/tile_layout.c:40-41 | the read macro is nonzero exactly when that position is set |
| TileLayout.TileLayout.MarkArea | rk_demo/layout/tile_layout.c:57-64 | the in-place loops add exactly the positions the macros address for the rectangle |
| TileLayout.TileLayout.UnmarkArea | rk_demo/layout/tile_layout.c:48-55 | the in-place loops remove exactly those positions |
| TileLayout.TileLayout.IsFreeArea | rk_demo/layout/tile_layout.c:66-84 | from any anchor of the grid, no read leaves the map, and the result is 1 exactly when the rectangle stays on the page and the addressed positions are clear |
| TileLayout.TileLayout.NewItem | rk_demo/layout/tile_layout.c:138-170 | the item goes to the row-major least anchor passing the test, is marked there, and becomes a child unless it is padding; NULL exactly when no anchor passes, with nothing changed |
| TileLayout.TileLayout.MarkThenUnmark | rk_demo/layout/tile_layout.c:48-64 | marking a free area and clearing it again leaves the map as it was, byte for byte |
| TileLayout.UnmarkRestores | rk_demo/layout/tile_layout.c:48-64 | clearing a rectangle right after marking it restores every byte whenever the code's own test found it free, on pages of any width |
| Geometry.FirstFitMeaning | rk_demo/layout/tile_layout.c:138-170 | the reference choice is the row-major least anchor of the whole plane at which the rectangle is in the grid and free; none exactly when there is no such anchor |
| Geometry.AllocatePacked | rk_demo/layout/tile_layout.c:138-170 | reference runs never overlap, stay in the grid, and a cell is occupied exactly when a placed rectangle covers it |
| TilePlacement.ChoiceIsFirstFit | rk_demo/layout/tile_layout.c:144-169 | under the soundness condition one request is answered by exact first fit, NULL exactly when nothing fits |
| TilePlacement.ChoiceExactIff | rk_demo/layout/tile_layout.c:144-169 | for a size that fits an empty page, first fit is exact for every map content if and only if the page has at most 8 columns, or one row, or the size is one row high |
| TilePlacement.RunIsReference | rk_demo/layout/tile_layout.c:138-170 | every run of sound requests gives the placements of the reference allocator and the same occupied cells |
| TilePlacement.RunPacked | rk_demo/layout/tile_layout.c:138-170 | sound runs never overlap and stay on the page, and the number of set bits is the sum of the placed areas |
| TilePlacement.WidePageOverlaps | rk_demo/layout/tile_layout.c:34-34 | a concrete run on any page wider than 8 columns with two rows or more puts its second item over its first |
| TilePlacement.SafePages | rk_demo/layout/tile_layout.c:34-170 | every list of requests is placed without overlap and on the page if and only if the page has at most 8 columns or at most one row |
| Paginator.BookShape | rk_demo/smart_home/smart_home_ui.c:143-167 | at every moment the pages partition the apps dealt with, in list order; each granted its whole segment and refused the app after it |
| Paginator.Progress | rk_demo/smart_home/smart_home_ui.c:143-167 | while empty pages take every app, each iteration deals with at least one, so the page count is at most the number of apps dealt with |
| Paginator.Stuck | rk_demo/smart_home/smart_home_ui.c:143-167 | the loop never gets past an app that an empty page refuses |
| Paginator.TerminatesIff | rk_demo/smart_home/smart_home_ui.c:143-167 | for any kind of page that refuses whatever its empty page refuses, the nested loop reaches the end of the list if and only if an empty page takes every app |
| Paging.EmptyPageChoice | rk_demo/layout/tile_layout.c:138-170 | an empty page takes a size exactly when it fits the grid |
| Paging.NeverPlaced | rk_demo/layout/tile_layout.c:138-170 | a size that does not fit an empty page is refused by every page |
| Paging.TilePagingTerminatesIff | rk_demo/smart_home/smart_home_ui.c:143-167 | paging over tile layouts terminates if and only if every app fits an empty page, on pages of any width |
| Paging.GrantedIsPlaced | rk_demo/smart_home/smart_home_ui.c:151-166 | what the inner loop grants on a page is a run of placement requests |
| Paging.PlacedInOrder | rk_demo/smart_home/smart_home_ui.c:143-167 | every app dealt with is placed exactly once, in list order, at its own size |
| Paging.Greedy | rk_demo/smart_home/smart_home_ui.c:143-167 | under the soundness condition no page overlaps, its set bits count its placed area, and the first app of each later page has no room anywhere on the page before it |
| Paging.OneBook | rk_demo/smart_home/smart_home_ui.c:143-167 | the pages are fixed by the grid and the list: every description of how a tile page answers gives the same book |
| Paging.FillPage | rk_demo/smart_home/smart_home_ui.c:151-166 | the inner loop over a real layout computes the specified page; its children are the apps that are not padding |
| Paging.ChildrenOne | rk_demo/smart_home/smart_home_ui.c:153-163 | an app is shown if it is placed and has an init function |
| Paging.ChildrenJoin | rk_demo/smart_home/smart_home_ui.c:151-166 | apps are shown in list order, each on its own account |
| Paging.SmartHomeUiInit | rk_demo/smart_home/smart_home_ui.c:124-168 | the nested loops terminate for every list whose apps fit an empty page, make the one book of the grid and the list, of at most one page per app, and show exactly its non-padding apps |
| UnitTiles.NextTile | rk_demo/intercom_homepage/ui_intercom_homepage.c:152-159 | with the first k cells taken in row-major order, the next one-tile item goes to cell k, or nowhere if the page is full |
| IntercomPaging.UnitStep | rk_demo/intercom_homepage/ui_intercom_homepage.c:152-159 | the invariant of a page of one-tile items of any width: the marked cells are the first k in row-major order |
| IntercomPaging.UnitRun | rk_demo/intercom_homepage/ui_intercom_homepage.c:152-159 | after k one-tile requests the i-th is on cell i |
| IntercomPaging.FillWithUnits | rk_demo/intercom_homepage/ui_intercom_homepage.c:150-159 | the inner loop places min(cols * rows, remaining) items on the first cells of the page |
| IntercomPaging.IntercomHomepageUiInit | rk_demo/intercom_homepage/ui_intercom_homepage.c:144-160 | the page count is the app count divided by the page capacity, rounded up, and page q shows the next items on its first cells |
| IntercomPaging.WhereIsApp | rk_demo/intercom_homepage/ui_intercom_homepage.c:144-160 | app k is on page k / N, in column (k % N) % cols and row (k % N) / cols |
| ButtonMatrix.AreaEmpty | rk_demo/ui_btnmatrix.c:36-49 | over the map from an interior entry on, with a stride: true exactly when no entry of the rectangle is set; every index is inside the map |
| ButtonMatrix.AreaFill | rk_demo/ui_btnmatrix.c:51-61 | sets exactly the entries of the rectangle |
| ButtonMatrix.CountTracks | rk_demo/ui_btnmatrix.c:73-95 | the count up to the terminator if it is at most 100, otherwise failure |
| ButtonMatrix.FindEmpty | rk_demo/ui_btnmatrix.c:124-138 | the restricted search finds the row-major least anchor whose entries are all clear, or reports that there is none |
| ButtonMatrix.PlaceButton | rk_demo/ui_btnmatrix.c:121-144 | one sized button: placed at that anchor and filled in, or dropped with the map unchanged |
| ButtonMatrix.DealWithButton | rk_demo/ui_btnmatrix.c:112-152 | one button of the list: too large, placed, no empty area, or given its explicit area; only a placement changes the map |
| ButtonMatrix.ArrangeButtons | rk_demo/ui_btnmatrix.c:108-189 | the loop over all buttons gives the specified outcomes |
| ButtonMatrix.OutcomeKinds | rk_demo/ui_btnmatrix.c:112-150 | in every list, a button is too large exactly if it exceeds the grid, gets the area between its corners exactly if it has no size, and keeps its size when placed |
| ButtonMatrix.UiBtnmatrixCreate | rk_demo/ui_btnmatrix.c:63-193 | null exactly when a descriptor has more than 100 tracks, otherwise the outcomes of all buttons on the counted grid |
| ButtonMatrix.AnswerIsFirstFit | rk_demo/ui_btnmatrix.c:112-144 | for sizes of at least 1x1 the outcome is exact first fit on the occupied cells; a button is dropped exactly when no free rectangle of its size exists |
| ButtonMatrix.MatrixTakes | rk_demo/ui_btnmatrix.c:112-152 | a placement takes exactly its cells; dropped and explicit-area buttons leave the map unchanged |
| ButtonMatrix.ArrangeIsReference | rk_demo/ui_btnmatrix.c:108-152 | a list of buttons of at least 1x1 is arranged as the reference allocator would |
| ButtonMatrix.ArrangePacked | rk_demo/ui_btnmatrix.c:108-152 | for any list of buttons, automatic placements never overlap and stay in the grid, and the map shows exactly their cells |
| ButtonMatrix.AllocatorsAgree | rk_demo/layout/tile_layout.c:144-169 | both allocators choose the same anchor, or both none, for every size of at least 1x1 that the page handles soundly, whenever their maps show the same cells |
| ButtonMatrix.RunsAgree | rk_demo/ui_btnmatrix.c:108-152 | whole runs of the two allocators give the same placements |
| HomeUi.BuildDescriptor | rk_demo/home/home_ui.c:215-222 | the filled and overwritten array is the track size n times and then the terminator |
| HomeUi.RoundTrip | rk_demo/ui_btnmatrix.c:73-95 | what the counting loops read back from such an array, in every case |
| HomeUi.RoundTripIff | rk_demo/home/home_ui.c:202-226 | the same count is read back if and only if it is at most 100 and the track size is not the terminator (or there is no track) |
| HomeUi.ButtonsInOrder | rk_demo/ui_btnmatrix.c:119-144 | one-tile buttons are placed in row-major order while there are cells |
| HomeUi.NoColumns | rk_demo/ui_btnmatrix.c:112-117 | on a grid without columns every one-tile button is too large |
| HomeUi.HalfRoundedUp | rk_demo/home/home_ui.c:212-212 | the rounded-up half, computed in floating point, is (n + 1) / 2 |
| HomeUi.HomeUiInit | rk_demo/home/home_ui.c:202-226 | on a landscape screen all n buttons are in one row, on a portrait screen button k is at (k mod 2, k / 2), none dropped, if and only if the longer track count is at most 100 and the track size is not the terminator; otherwise the result is null, or every button too large |
| Fade.Approach | rk_demo/main.c:148-170 | one timer step: half the remaining distance rounded down, or the target itself when one away |
| Fade.FadeTime | rk_demo/main.c:147-170 | with the target held, it is reached after n ticks if and only if n >= 1 and the distance is at most 2^(n-1): exactly 1 + ceil(log2 d) ticks, in both directions |
| Fade.NoOvershoot | rk_demo/main.c:147-170 | a fade is monotone and never passes its target |
| Backlight.Controller.constructor | rk_demo/main.c:253-284 | after lvgl_init the screen is on at full brightness, written once if the node is open, with the sensor switch off |
| Backlight.Controller.LevelToBrightness | rk_demo/main.c:98-106 | 45 + 30 * level, levels below 0 counting as 0 |
| Backlight.Controller.UpdateBacklight | rk_demo/main.c:108-138 | writes only a changed value, and switches touch input when the value changes between zero and nonzero |
| Backlight.Controller.TouchpadFeedback | rk_demo/main.c:90-96 | press and release codes set the start tick |
| Backlight.Controller.BacklightCb | rk_demo/main.c:140-225 | one timer callback does what the specified step does: half-way fade, switch-off only when the timeout fires, start tick set or reset, write on change, wake on a pressed device |
| Backlight.Controller.AnyPressed | rk_demo/main.c:199-223 | the device scan reports a press exactly when some device has one |
| Backlight.AlwaysInStep | rk_demo/main.c:108-138 | over every run with the node open: brightness stays in 45..255, cache and hardware both equal the enabled brightness or 0, touch input is on exactly while the screen is, and no write repeats the one before |
| Backlight.InitialState | rk_demo/main.c:253-271 | the controller starts with the screen on at 255, written if the node is open, the sensor switch off, level 7 and a timeout of 5000 ms |
| Backlight.GoesByLatest | rk_demo/main.c:65-68 | over every run the level, the sensor switch and the timeout are the latest reading or setting of each kind, and nothing else changes them |
| Backlight.FadesIn | rk_demo/main.c:147-170 | with the level held over a run of n ticks, whatever else happens, the brightness moves towards 45 + 30 * level, never back and never past it, and has reached it if and only if it started there, or n >= 1 and the distance is at most 2^(n-1) |
| Backlight.ClosedNode | rk_demo/main.c:114-115 | without the node nothing is written and touch input is never switched, and the brightness stays in 45..255 |
| Backlight.StartTick | rk_demo/main.c:172-189 | over every run a nonzero start tick is the tick count of a moment no earlier than any touch feedback |
| Backlight.SwitchOffSafe | rk_demo/main.c:172-189 | over every run, tick wrap-around included: the screen goes off only on a timer tick, with the sensor switch off and a positive timeout, later than the timeout after every touch of code 1 to 8 and after every tick that found the screen as the sensor wants it |
| Backlight.OffInTime | rk_demo/main.c:172-189 | with the switch off, a positive timeout and no touch, the screen is off by the first tick later than the timeout after the first one and within 2^32 ms less the timeout, unless that first one met a screen on, an unset start tick and a wrapped tick count of 0 |
| Backlight.LateAtZero | rk_demo/main.c:178-183 | in that case the screen is still on at the next tick, however late it comes |
| Backlight.OffInTimeIff | rk_demo/main.c:172-189 | the screen goes off in time through every quiet stretch if and only if that is not the case |
| Backlight.OnAfterTick | rk_demo/main.c:172-224 | a tick from any state leaves the screen on exactly if a device is pressed, the sensor asks for it, or it was on and the timeout does not fire |
| Backlight.StepKeepsInStep | rk_demo/main.c:108-225 | every event keeps brightness range, cache, hardware, touch input and write log in step |
| Backlight.Controller.BacklightSetTimeout | rk_demo/main.c:65-68 | sets the timeout, which is the whole of that event |
| Backlight.Controller.LsensorCb | rk_demo/main.c:227-237 | a light reading sets the level and nothing else |
| Backlight.Controller.PsensorCb | rk_demo/main.c:239-250 | a proximity reading sets the sensor switch and nothing else |
| VoiceWake.Asr.AsrUpdate | rk_demo/asr/asr.c:268-284 | sleep, ignored numbers, and the announced command |
| VoiceWake.DoFrame | rk_demo/asr/audio.c:264-291 | one captured frame: the new counter and the calls made, in order |
| VoiceWake.Docap | rk_demo/asr/audio.c:242-295 | over the frames of the successful reads the assistant answers exactly the wake-ups and the commands that get through, in order, the counter is as specified, and the assistant is asleep at the end |
| VoiceWake.CapturedOne | rk_demo/asr/audio.c:250-256 | a failed read gives no frame, every other its own |
| VoiceWake.CapturedJoin | rk_demo/asr/audio.c:250-256 | frames come in the order of the reads |
| VoiceWake.UpdateMeans | rk_demo/asr/asr.c:268-284 | number -1 puts the assistant to sleep, 0 and 3 to 21 wake it, are announced and answered with their reply, any other changes nothing |
| VoiceWake.CountFromReset | rk_demo/asr/audio.c:264-291 | after frame n the counter is max(0, 374 - (n - m)) if the last reset was a wake-up at m and max(0, 500 - (n - m)) if it was a command heard at m |
| VoiceWake.CountWithoutReset | rk_demo/asr/audio.c:264-291 | the counter is 0 as long as there has been no wake-up |
| VoiceWake.DispatchIff | rk_demo/asr/audio.c:272-282 | a command is passed on exactly when it is heard while awake and, for every earlier heard command, a wake-up came after it or at least 21 frames have passed; suppressed commands extend the lock-out |
| VoiceWake.CallIff | rk_demo/asr/audio.c:264-282 | asr_update is called with the command of a frame if and only if it is heard while awake and every earlier heard command has a wake-up after it or lies at least 21 frames back, and with 0 if and only if there is a wake-up |
| VoiceWake.FrameMeans | rk_demo/asr/audio.c:264-291 | what one frame of a history does to the assistant: the wake-up first, then the command that gets through or the sleep report |
| VoiceWake.AssistantSaid | rk_demo/asr/audio.c:264-291 | over every history the assistant answers exactly the wake-ups and the announced commands that get through, in order, and shows the last of them |
| VoiceWake.AwakeExactly | rk_demo/asr/audio.c:264-291 | the assistant is awake if and only if, since some frame that woke it, no frame ran the counter out or let a command of -1 through |
| VoiceWake.SleepIff | rk_demo/asr/audio.c:283-290 | sleep is reported in a frame exactly when the counter reaches 0 in it, or a recogniser command of -1 is passed on |
| VoiceWake.OneSleepPerPeriod | rk_demo/asr/audio.c:264-291 | between two sleep reports there is a wake-up, unless the first was a recogniser command of -1; if the second is one, the wake-up may be in its own frame |
| VoiceWake.AwakeIff | rk_demo/asr/audio.c:264-291 | at every frame boundary the assistant is awake exactly while the counter is positive |
| CommandRecords.StepKeepsOrder | rk_demo/wifibt/bt_server.c:964-1066 | on whole records, every step keeps executed, current and pending records an in-order, duplicate-free selection of those sent |
| CommandRecords.ExecutedInOrder | rk_demo/wifibt/bt_server.c:964-1066 | on whole records, in every interleaving the executed commands are an in-order, duplicate-free subsequence of those sent |
| CommandRecords.WaitOnlyLosesNothing | rk_demo/wifibt/bt_server.c:1039-1053 | on whole records, a client using only waiting calls has everything sent executed, current or pending, and executed between calls |
| CommandPipe.ReadAt | rk_demo/wifibt/bt_server.c:966-968 | a read finds a whole record, the next of the stream, exactly when it starts at a first byte; otherwise it finds bytes of several |
| CommandPipe.StepKeepsPlaced | rk_demo/wifibt/bt_server.c:964-1066 | every step keeps the pipe a suffix of the byte stream of the sent records and what was taken whole an in-order selection of the records before it |
| CommandPipe.RunConserves | rk_demo/wifibt/bt_server.c:964-1066 | over every run, busy server or not: the records sent carry, in order, exactly the commands and wait flags of the calls made while the server listens, each call puts one record into the pipe, each read takes at most 1024 bytes out and leads to one execution, and the semaphore is posted once for every executed flag |
| CommandPipe.SentAreIssued | rk_demo/wifibt/bt_server.c:1039-1066 | from the start, record i is the i-th call made while the server listens |
| CommandPipe.ExecutedInOrder | rk_demo/wifibt/bt_server.c:964-1066 | in every interleaving, reads of an over-full pipe included, the records executed whole are an in-order, duplicate-free subsequence of those sent |
| CommandPipe.FittingStep | rk_demo/wifibt/bt_server.c:964-1066 | a step whose read finds at most 1024 bytes is a step of the protocol on whole records |
| CommandPipe.FittingIsWhole | rk_demo/wifibt/bt_server.c:966-1033 | while no read finds more than 1024 bytes, everything executed is a whole record |
| CommandPipe.ReturnAfterExecution | rk_demo/wifibt/bt_server.c:1039-1053 | while no read finds more than 1024 bytes, a waiting call returns only when its own record is the last executed, and leaves the semaphore at 0 |
| CommandPipe.WaitOnlyLosesNothing | rk_demo/wifibt/bt_server.c:1039-1053 | a client using only waiting calls never has a read find more than 1024 bytes and loses no command: between calls everything sent has been executed whole, in order, the pipe is empty and the semaphore 0 |
| CommandPipe.WaitingStep | rk_demo/wifibt/bt_server.c:964-1053 | while a call waits, each step either returns it or brings the server closer to rest, and keeps whether it will be answered |
| CommandPipe.ServedStep | rk_demo/wifibt/bt_server.c:966-1053 | a call that will be answered always has a step possible |
| CommandPipe.FlaggedAt | rk_demo/wifibt/bt_server.c:966-1035 | the successive reads of what is in the pipe find a set wait flag exactly when the flag byte at some multiple of 1024 is set |
| CommandPipe.WaitReturnsIff | rk_demo/wifibt/bt_server.c:964-1053 | from any state of the pipe, over-full or not, a waiting call on a listening server can return if and only if a post is already owed or the flag byte after some multiple of 1024 bytes of what is then pending is set |
| CommandPipe.FittingWaitReturnsIff | rk_demo/wifibt/bt_server.c:964-1053 | when the call's own bytes still fit one read with what is pending, it can return if and only if the pipe was empty; otherwise it blocks for ever |
| CommandPipe.OwnRecordIff | rk_demo/wifibt/bt_server.c:964-1053 | from any state of the pipe, and whatever is sent afterwards, some run executes the record of a waiting call whole if and only if the bytes pending before it are a multiple of 1024 |
| CommandPipe.NeverExecuted | rk_demo/wifibt/bt_server.c:964-1066 | a record whose first byte is no multiple of 1024 into the pipe is executed whole in no run, calls made after the early return included |
| CommandPipe.OwnCommandIff | rk_demo/wifibt/bt_server.c:964-1053 | in every reachable state, some run from there executes the command of a waiting call whole if and only if the bytes pending before it are a multiple of 1024; otherwise none does |
| CommandPipe.EarlyFlagAt | rk_demo/wifibt/bt_server.c:966-1035 | among arbitrary pending bytes, some read before the one that finds the record whole has its flag byte set exactly when the flag byte after some multiple of 1024 bytes, the record's own start apart, is set |
| CommandPipe.EarlyReturnIff | rk_demo/wifibt/bt_server.c:964-1053 | in every reachable state, a waiting call can return before its own command is executed if and only if a post is already owed or such a flag byte is set in what is then pending |
| CommandPipe.EarlyReturn | rk_demo/wifibt/bt_server.c:966-1053 | a reachable state with 86 plain 12-byte records pending, in which a waiting call can return early and no continuing run ever executes its command whole |
| CommandPipe.Channel.BtQuery | rk_demo/wifibt/bt_server.c:1055-1066 | a plain call appends the bytes of its record, command and cleared flag, whatever the server is doing, or returns -1 when nobody listens |
| CommandPipe.Channel.BtQueryWait | rk_demo/wifibt/bt_server.c:1039-1049 | a waiting call appends the bytes of its record, command and set flag, and waits, or returns -1 when nobody listens |
| CommandPipe.Channel.SemWait | rk_demo/wifibt/bt_server.c:1050-1052 | the semaphore lets the call through; on a channel that has only handled whole records, after its own command and leaving it at 0 |
| CommandPipe.Channel.ReadBatch | rk_demo/wifibt/bt_server.c:967-968 | one read takes up to 1024 bytes of whatever is pending, leaves the rest of a short read's buffer, and finds what lies at its start |
| CommandPipe.Channel.HandleCommand | rk_demo/wifibt/bt_server.c:969-1033 | what was found becomes the last executed |
| CommandPipe.Channel.PostIfWaited | rk_demo/wifibt/bt_server.c:1034-1035 | the semaphore is posted exactly when the flag byte is set |
| CommandPipe.Channel.constructor | rk_demo/wifibt/bt_server.c:1068-1094 | an empty pipe, a semaphore at 0 and a server not yet listening |
| CommandPipe.Channel.StartListening | rk_demo/wifibt/bt_server.c:961-964 | the server thread starts listening |
| AudioStream.Connection.constructor | rk_demo/rockit/audio_server.c:102-113 | an accepted connection of which nothing has been read |
| AudioStream.Connection.IsRunning | rk_demo/rockit/audio_server.c:37-46 | a look at the server state; once stopped it stays stopped |
| AudioStream.Connection.Read | rk_demo/rockit/audio_server.c:39-43 | a read delivers the next bytes of the stream at the given offset, at most as many as asked for, and touches nothing before it |
| AudioStream.Decoder.constructor | rk_demo/rockit/audio_out.c:196-197 | the counters start at 0 |
| AudioStream.AoRead | rk_demo/rockit/audio_server.c:25-50 | under any chunking the buffer holds exactly the next bytes of the stream, or 0 is reported and at most one buffer of bytes was consumed; never 0 while the server runs, reads deliver and enough is left |
| AudioStream.AoPush | rk_demo/rockit/audio_out.c:195-229 | one full block is sent with the next counters, or nothing is sent and -1 returned |
| AudioStream.Decoder.SendStream | rk_demo/rockit/audio_out.c:211-222 | the k-th block ever sent carries sequence k modulo 2^32 and time stamp k - 1 modulo 2^64 |
| AudioStream.NextCounter | rk_demo/rockit/audio_out.c:212-213 | wrapping the 64-bit counter first does not disturb the 32-bit sequence field |
| AudioStream.Session | rk_demo/rockit/audio_server.c:132-141 | in a session of k blocks exactly the first 1024 * k bytes received are handed on, in order, and at most one block of consumed bytes is discarded; no block follows one answered with -1; with the server running and no read failing before the data ends, every whole block is handed on up to the first so answered; the server is seen running three times for each block |
| AudioStream.ChunkingIrrelevant | rk_demo/rockit/audio_server.c:25-50 | two readings of one stream, however chunked, agree on every block both delivered |
| PlayerLatch.StepKeepsInv | rk_demo/intercom_homepage/video_monitor/ui_monitor.c:182-368 | every single read, store and command of the callbacks, the event handler and the play thread keeps the latch invariant |
| PlayerLatch.PauseDiscipline | rk_demo/intercom_homepage/video_monitor/ui_monitor.c:182-368 | in every interleaving of those steps the desired state is nothing, play or pause, and between the own store of a pause command and the next pause command lies a PAUSED, ERROR or STOPPED store, a play store, or the store of a PLAY handler whose test came before; the last is not needed in runs without a pause store between a PLAY handler's test and its store, and the end lies between the two commands in runs without a foreign store between a pause store and its command |
| PlayerLatch.CommandsFollowStores | rk_demo/intercom_homepage/video_monitor/ui_monitor.c:352-359 | at every moment of every run, each pause command has a pause store of its own before it, with no other pause store or command between |
| PlayerLatch.StoresMatchCommands | rk_demo/intercom_homepage/video_monitor/ui_monitor.c:352-359 | at every moment of every run as many pause commands as pause stores have been made, but for the one about to be sent |
| PlayerLatch.RepeatedPause | rk_demo/intercom_homepage/video_monitor/ui_monitor.c:212-217 | a concrete run with a pause click between the PLAY handler's test and its store, and nothing between a pause store and its command: a second pause command with nothing to end the first |
| PlayerLatch.LatePause | rk_demo/intercom_homepage/video_monitor/ui_monitor.c:354-358 | a concrete run with a PAUSED and a PLAY event between a pause store and its command, and no click between a PLAY handler's test and store: a second pause command with nothing between the two |
| PlayerLatch.PauseDisciplineIff | rk_demo/intercom_homepage/video_monitor/ui_monitor.c:182-368 | for the runs that keep out of either, both or none of these two gaps: a PAUSED, ERROR or STOPPED store or a play store always lies between two pause commands if and only if the runs keep out of both |
| PlayerLatch.Monitor.constructor | rk_demo/intercom_homepage/video_monitor/ui_monitor.c:59-61 | no current state, nothing desired, no thread |
| PlayerLatch.EventRuns | rk_demo/intercom_homepage/video_monitor/ui_monitor.c:182-233 | run without interruption, an end, error, play, paused or stopped event sets the current state and ends exactly the requests it answers |
| PlayerLatch.EventMeans | rk_demo/intercom_homepage/video_monitor/ui_monitor.c:182-233 | an end of stream, an error and a stop leave the current state STOP, PLAY leaves PLAY, PAUSED leaves PAUSE; errors and stops end any request, PLAY and PAUSED one of their own kind; other events change nothing |
| PlayerLatch.Monitor.PlayerEventFn | rk_demo/intercom_homepage/video_monitor/ui_monitor.c:182-233 | the uninterrupted handler does what its single steps do, and leaves those states |
| PlayerLatch.ThreadBegins | rk_demo/intercom_homepage/video_monitor/ui_monitor.c:279-293 | a prepared thread stores and sends one play request and goes into its loop; one whose preparation fails returns with its identifier still set |
| PlayerLatch.PollEndsIff | rk_demo/intercom_homepage/video_monitor/ui_monitor.c:294-301 | a thread in its loop, left to itself, returns if and only if the current state is STOP, and then it clears its identifier |
| PlayerLatch.EventEndsPoll | rk_demo/intercom_homepage/video_monitor/ui_monitor.c:182-301 | an event lets the thread out of its loop if and only if it is an end of stream, an error or a stop, or leaves an earlier STOP in place |
| PlayerLatch.OneThread | rk_demo/intercom_homepage/video_monitor/ui_monitor.c:264-340 | in every interleaving a running thread has its identifier set and none is started while one runs |
| PlayerLatch.StopRuns | rk_demo/intercom_homepage/video_monitor/ui_monitor.c:304-312 | with a thread running the player is told to stop and the page waits for the thread; otherwise the restart, if any, happens at once |
| PlayerLatch.Monitor.StopPlayer | rk_demo/intercom_homepage/video_monitor/ui_monitor.c:304-335 | the uninterrupted call does what its single steps do |
| PlayerLatch.StartRuns | rk_demo/intercom_homepage/video_monitor/ui_monitor.c:321-340 | a start click is ignored while a request is outstanding or the network is down |
| PlayerLatch.StopClickMeans | rk_demo/intercom_homepage/video_monitor/ui_monitor.c:314-319 | a stop click tells a running player to stop and waits for its thread, and otherwise does nothing |
| PlayerLatch.StartClickMeans | rk_demo/intercom_homepage/video_monitor/ui_monitor.c:321-340 | a start click does nothing without a network or with a request outstanding; otherwise it stops what plays and starts again |
| PlayerLatch.PauseClickMeans | rk_demo/intercom_homepage/video_monitor/ui_monitor.c:342-368 | a pause click is a start click while no thread is known; otherwise it asks to pause what plays and to play what does not, once per request |
| PlayerLatch.JoinMeans | rk_demo/intercom_homepage/video_monitor/ui_monitor.c:304-335 | once the thread has returned, the waiting page clears its identifier and restarts, if that was asked |
| PlayerLatch.Monitor.RtspPlayStop | rk_demo/intercom_homepage/video_monitor/ui_monitor.c:314-319 | the uninterrupted callback does what its single steps do |
| PlayerLatch.Monitor.RtspPlayStart | rk_demo/intercom_homepage/video_monitor/ui_monitor.c:321-340 | the uninterrupted callback does what its single steps do |
| PlayerLatch.PauseRuns | rk_demo/intercom_homepage/video_monitor/ui_monitor.c:352-359 | a pause click while playing stores and sends one pause unless one is outstanding |
| PlayerLatch.PlayRuns | rk_demo/intercom_homepage/video_monitor/ui_monitor.c:360-367 | otherwise it stores and sends one play unless one is outstanding |
| PlayerLatch.Monitor.RtspPlayPause | rk_demo/intercom_homepage/video_monitor/ui_monitor.c:342-368 | the uninterrupted callback does what its single steps do |

## Left out

- LVGL object creation, styles, labels, images, animations and page switching: an object is recorded
  by the grid cell it is given.
- The column and row descriptors a tile layout builds for itself, and print_map: only the library
  and the log read them.
- Integer overflow of coordinates: columns, rows and sizes are unbounded integers.
- TileLayout.FloorQuotient: the layout's quotients are computed on the reals; `TileLayout.FloatQuotient`
  shows that single-precision rounding gives the same counts below 2^24. Larger sizes are not
  modelled in floating point.
- Paging.SmartHomeUiInit: requires that every app fits an empty page, because the loops do not end
  otherwise; `Paging.TilePagingTerminatesIff` proves that this is exactly the case.
- Explicit-area buttons may overlap anything: the program never marks them in the map.
- Backlight.OffInTime: asks that the tick is within 2^32 ms less the timeout after the first one, because
  tick counts wrap at 32 bits, and keeps out the one case in which `Backlight.OffInTimeIff` shows it to fail.
- Backlight.Controller.LevelToBrightness: requires levels below 8, because the program reads past its
  table otherwise; so does everything that steps the controller.
- Failing writes to the brightness node: the program only logs them; hardware is taken to follow.
- The wait for a release after a press (rk_demo/main.c:205-217): it changes no variable of the
  controller.
- Sensor read errors and repeated-read flags: the callback then changes nothing and is no event.
- VoiceWake.Asr.AsrUpdate: requires a number other than the table size, for which the program reads
  past its table.
- VoiceWake.AwakeIff: assumes the recogniser reports neither -1 nor the table size as a command; the
  first would put the assistant to sleep in mid-countdown, which `VoiceWake.AwakeExactly` covers.
- The on/off switches of backlight and proximity sensor are booleans, and the library's event codes are
  taken to be 1 for pressed and 8 for released.
- The audio clean-up of the recogniser, the wake-up counter that is only printed, and the player
  thread of the voice answers.
- The pipe's own capacity: writes of a record are atomic and never block or fail.
- CommandPipe.ReturnAfterExecution: asks that no read of the run finds more than 1024 bytes, because
  calls can return early otherwise; `CommandPipe.EarlyReturnIff` has the exact condition for one call.
- The command number taken from bytes of several records: what is executed then is recorded as torn,
  with its wait flag. Which bytes of a record are zero, the wait flag apart, is arbitrary.
- What the commands do (vendor Bluetooth and Wi-Fi calls, HCI sockets, configuration files): a
  command is its place in the order sent. More than one client at a time.
- wifi_query, wifi_query_wait and the loop of wifi_server (rk_demo/wifibt/wifi_server.c:113-212) run the
  same protocol with the same code shape; the one model stands for both channels.
- AudioStream.Session: other threads are taken only to stop a running server; the unlocked fields
  shared during connect, disconnect and delete are not modelled, nor is the branch without decoder.
- The player library behind the monitor page is the arbitrary source of events, one handler at a time;
  its set-up and the stop of an old player at the start of the play thread are not modelled. A thread
  is joined once it has returned, whatever its identifier then holds.
- Wallpaper, volume, about and date pages, coffee scroll zoom, toasts, image tables and configuration
  data: no behaviour of their own to prove.
