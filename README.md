# flashcode_mbt tracking core in Dafny

This project models the tracking core of flashcode_mbt. The core is a Boost.MSM state machine
(`Tracker_`) that finds a flashcode or QR marker in a camera frame, computes the pose of the
3-D pattern from the marker's corners, and then follows the pattern frame by frame. After
every tracked frame it runs a health check: a variance limit, six Hinkley change-point
detectors, and checkpoint windows that must stay dark. When the check fails, the tracker
first looks for the marker near the last tracked region and falls back to a full-frame
search if that fails too. The model also covers the parts of `CmdLine` the tracker reads
its configuration through.

The project has six modules:

- `StateMachine` (state_machine.dfy) holds the sixteen-row transition table exactly as
  declared. It picks rows the way the Boost.MSM back-end does: among the rows for a state and
  an event, the last declared row whose guard holds fires. A completion (`msm::front::none`)
  row fires as soon as its state is entered. An event that no row accepts leaves the state
  unchanged, which is what the back-end does once its default `no_transition` assertion is
  compiled out. The table is proved equal to an explicit reference transition function. Lemmas
  prove the lifecycle properties: `Finished` is absorbing, the machine never rests in
  `DetectModel`, and guards in the same state are tried in a fixed priority order.
- `Tracking` (tracking.dfy) holds the `Tracker` class. Its fields are the members of
  `Tracker_` that the guards and actions update, plus the back-end's current state. Each
  guard and action is a method proved against a specification function. `ProcessInputReady`
  and `ProcessControl` run one event through the table, calling the guards in the order the
  back-end calls them. `Tracker.Snap` gathers every field and the detector bank into one
  `Fields` value. `ProcessInputReady` is proved to leave exactly the `Fields`, guard answers
  and exception flag that the specification function `InputReadyStep` gives for the old
  `Fields`. Lemmas about `InputReadyStep` show that it ends in the state that
  `StateMachine.Process` predicts. They also pin down where exceptions stop the machine, when
  the tracking box moves, and what the detector is asked.
- `HealthCheck` (health_check.dfy) defines the three sub-checks of `mbt_success` as values,
  together with the two nested loops that sample a checkpoint window.
- `CommandLine` (command_line.dfy) covers the options bag: its getters, `using_hinkley`, the
  help flag, and the grouping of coordinate lists into points in `loadConfig`.
- `Geometry` and `Collaborators` hold the value types and the outside code: C++ truncation,
  OpenCV's bounding rectangle, the Hinkley detector's observable state, and the ViSP and
  detector functions.

Three facts about the code shape the model:

- `DetectModel` is left by an anonymous completion row (tracking.h:132-134), not by an event
  of its own. So a single `input_ready` with a successful detection and a successful pose goes
  from `DetectFlashcode` through `DetectModel` to `TrackModel`
  (`StateMachine.DetectionThenPoseTracks`).
- `mbt_success` reads its six variances from a default-constructed `vpMatrix` with no rows
  (tracking.cpp:223), not from the tracker's covariance. The six diagonal entries are
  therefore a parameter of the model (`Frame.variances`).
- The terminal event is `finished` (tracking.h:146-152). It is accepted in the four tracking
  states; `WaitingForInput` has no row for it.

## Model

| member | source | states |
|---|---|---|
| StateMachine.LastMatch | libauto_tracker/tracking.h:119-154 | the index found holds a row that matches, no later row matches, and None means no row matches |
| StateMachine.FireIsLastMatch | libauto_tracker/tracking.h:119-154 | a lookup fires the last declared matching row, and nothing exactly when no row matches |
| StateMachine.Fire | libauto_tracker/tracking.h:119-154 | one lookup in `Table`, the sixteen rows of `transition_table` in declaration order: the target and action of the last row whose source, event and guard match, or nothing; `FireIsLastMatch` states this for every input |
| StateMachine.Reference | libauto_tracker/tracking.h:119-154 | the same table written per state and event as explicit priorities (later rows first); `TableIsReference` proves it equal to `Fire` |
| StateMachine.Process | libauto_tracker/tracking.h:119-154 | `process_event`: the event is handled exactly when a row fires; an unhandled event leaves the state and performs no action; a handled one performs the row's action first, then at most one completion, and rests in the row's target when that target has no anonymous row |
| StateMachine.RowsForIsExact | libauto_tracker/tracking.h:119-154 | the rows listed for a state and event are exactly the rows with that source and event |
| StateMachine.TableIsReference | libauto_tracker/tracking.h:119-154 | for every state, event and guard outcome, the table gives the same transition as the explicit priority function |
| StateMachine.InputReadyRows | libauto_tracker/tracking.h:122-144 | the `input_ready` rows give the reference transition: in `WaitingForInput` `input_selected` beats `no_input_selected`, and in `ReDetectFlashcode` `mbt_success` beats `flashcode_redetected`, which beats the default |
| StateMachine.SelectInputRows | libauto_tracker/tracking.h:126 | `select_input` leaves only `WaitingForInput`, for `DetectFlashcode` |
| StateMachine.FinishedRows | libauto_tracker/tracking.h:146-152 | `finished` leaves the four tracking states for `Finished`, and nothing else |
| StateMachine.AnonymousRows | libauto_tracker/tracking.h:132-134 | only `DetectModel` has completion rows: to `TrackModel` when `model_detected` holds, otherwise to `DetectFlashcode` |
| StateMachine.OnlyWaitingLacksDefault | libauto_tracker/tracking.h:122-152 | every state and event with rows has an unguarded row, except `WaitingForInput` on `input_ready` (both directions) |
| StateMachine.DefaultRowFires | libauto_tracker/tracking.h:119-154 | when an unguarded row exists, the event is always handled |
| StateMachine.CompletionSettles | libauto_tracker/tracking.h:132-134 | a completion never lands in a state that has completion rows, so one completion round is enough |
| StateMachine.FinishedIsAbsorbing | libauto_tracker/tracking.h:146-152 | no event is accepted in `Finished`: the state stays and no action runs |
| StateMachine.FinishedEventEndsTracking | libauto_tracker/tracking.h:146-152 | `finished` takes each of the four tracking states to `Finished` with no guard; `WaitingForInput` and `Finished` ignore it |
| StateMachine.SelectInputStartsDetection | libauto_tracker/tracking.h:126 | `select_input` starts detection from `WaitingForInput` and is ignored in every other state |
| StateMachine.WaitingOnInput | libauto_tracker/tracking.h:122-124 | `input_ready` while waiting: `input_selected` goes to detection; otherwise `no_input_selected` handles the event in place; otherwise the event is unhandled |
| StateMachine.DetectFlashcodeOnInput | libauto_tracker/tracking.h:128-134 | a detection runs `find_flashcode_pos` and the completion, ending in `TrackModel` when `model_detected` holds and in `DetectFlashcode` otherwise; a failed detection stays put |
| StateMachine.TrackModelOnInput | libauto_tracker/tracking.h:136-138 | in `TrackModel`, tracking goes on with `track_model` exactly when `mbt_success` holds; otherwise the machine moves to `ReDetectFlashcode` |
| StateMachine.ReDetectOnInput | libauto_tracker/tracking.h:140-144 | in `ReDetectFlashcode`: `mbt_success` resumes tracking; otherwise `flashcode_redetected` goes through `DetectModel`; otherwise full detection starts over |
| StateMachine.NeverRestsInDetectModel | libauto_tracker/tracking.h:132-134 | processing one event from any other state never leaves the machine at rest in `DetectModel` |
| StateMachine.RunAvoidsDetectModel | libauto_tracker/tracking.h:119-154 | no sequence of events ends at rest in `DetectModel` |
| StateMachine.RunStaysFinished | libauto_tracker/tracking.h:146-152 | every sequence of events leaves `Finished` unchanged |
| StateMachine.DetectionFailuresStay | libauto_tracker/tracking.h:128-130 | any number of frames without a detection keep the machine in `DetectFlashcode` |
| StateMachine.DetectionThenPoseTracks | libauto_tracker/tracking.h:124-134 | `select_input` followed by one frame with a detection and a pose ends in `TrackModel` |
| StateMachine.LostTrackingFallsBack | libauto_tracker/tracking.h:136-144 | one failed health check leads to `ReDetectFlashcode`, and a second failure with no re-detection leads to `DetectFlashcode` |
| Tracking.Tracker.ProcessInputReady | libauto_tracker/tracking.h:119-154 | one `input_ready` evaluated guard by guard on the tracker. The new fields, detector bank, guard answers and exception flag are exactly those of `InputReadyStep` on the old fields. Unless a guard throws, the final state is what `StateMachine.Process` gives for the answers observed. `mbt_success`'s answer is the health verdict of the old bank, checkpoints and pose |
| Tracking.Tracker.InputInDetectFlashcode | libauto_tracker/tracking.h:128-134 | the new fields, answers and exception flag are those of `DetectFlashcodeStep`: the full-frame detector answer; on a detection, `find_flashcode_pos` and the completion; nothing else changes but the camera. An exception is possible only after a detection and leaves the machine in `DetectModel` |
| Tracking.Tracker.InputInTrackModel | libauto_tracker/tracking.h:136-138 | the new fields are those of `TrackModelStep`: `mbt_success`'s recorded frame, bank and checkpoints, then either `track_model`'s projections and clipped box or the move to `ReDetectFlashcode` |
| Tracking.Tracker.InputInReDetectFlashcode | libauto_tracker/tracking.h:140-144 | the new fields, answers and exception flag are those of `ReDetectFlashcodeStep`: `mbt_success` first, then `track_model` and `TrackModel`, or the re-detection rows |
| Tracking.Tracker.Redetect | libauto_tracker/tracking.h:140-142 | after a failed `mbt_success`, the new fields are those of `RedetectStep`. An exception comes exactly when the box is outside the frame or the frame is empty, and the state stays `ReDetectFlashcode`. `model_detected` cannot throw after a re-detection, because `find_flashcode_pos` has just made the working and grey images the non-empty frame's size, so a re-detected flashcode always ends in `TrackModel`. Otherwise the detector's answer for the box decides between `find_flashcode_pos` with the completion and `DetectFlashcode` |
| Tracking.Tracker.EnterDetectModel | libauto_tracker/tracking.h:132-134 | entering `DetectModel` runs `model_detected` at once. It throws exactly when an image is empty, changing nothing but leaving the machine in `DetectModel`. Otherwise the fields become those of `AfterModelDetected` in `TrackModel` |
| Tracking.InputReadyFollowsTable | libauto_tracker/tracking.h:119-154 | without an exception, `InputReadyStep` ends in the state `StateMachine.Process` gives for the guard answers it observed, in every state |
| Tracking.AfterFindFlashcodePos | libauto_tracker/tracking.cpp:160-178 | the effect of `find_flashcode_pos`: the flashcode points become `Located` on the detector's polygon, the frame becomes the working image and the grey image is resized to it; nothing else changes |
| Tracking.ModelThrows | libauto_tracker/tracking.cpp:182-185 | `model_detected` throws exactly when the working or the grey image has no columns or no rows |
| Tracking.AfterModelDetected | libauto_tracker/tracking.cpp:187-209 | the effect of `model_detected` when it does not throw: the grey image is the working image, the pose is VIRTUAL_VS started from LAGRANGE on the flashcode points, and the first four outer, inner and (when kept) middle points are projected under it |
| Tracking.EnterDetectModelStep | libauto_tracker/tracking.h:132-134 | entering `DetectModel` and its completion: a throw stops in `DetectModel`; otherwise `AfterModelDetected` and `TrackModel`, with `model_detected` answering true |
| Tracking.WaitingStep | libauto_tracker/tracking.h:122-124 | `input_ready` in `WaitingForInput`: `input_selected` moves to `DetectFlashcode`; otherwise nothing changes |
| Tracking.DetectFlashcodeStep | libauto_tracker/tracking.h:128-130 | `input_ready` in `DetectFlashcode`: the event's camera is taken; a full-frame detection is tried, and on success `find_flashcode_pos` and then `EnterDetectModelStep` |
| Tracking.TrackModelStep | libauto_tracker/tracking.h:136-138 | `input_ready` in `TrackModel`: `MbtStep`, then `AfterTrackModel` when it succeeds, or the move to `ReDetectFlashcode` |
| Tracking.RedetectStep | libauto_tracker/tracking.h:140-142 | the re-detection rows of `ReDetectFlashcode`: a throw, with the state left as it was, when the box is not inside the non-empty frame; otherwise a detection in the box, then `find_flashcode_pos` and `EnterDetectModelStep` on success, or `DetectFlashcode` |
| Tracking.ReDetectFlashcodeStep | libauto_tracker/tracking.h:140-144 | `input_ready` in `ReDetectFlashcode`: `MbtStep`, then `AfterTrackModel` and `TrackModel` when it succeeds, or `RedetectStep` |
| Tracking.InputReadyStep | libauto_tracker/tracking.h:119-154 | one `input_ready` by state: the step of that state, and no change in `DetectModel` or `Finished`, which have no `input_ready` row; its properties are the `InputReady*` lemmas below |
| Tracking.InputReadyThrows | libauto_tracker/tracking.cpp:139-186 | only `DetectFlashcode` and `ReDetectFlashcode` throw. A throw out of `model_detected` (empty frame) stops in `DetectModel`; a box outside the frame stops in `ReDetectFlashcode` |
| Tracking.InputReadyMovesBoxOnlyWhenTracking | libauto_tracker/tracking.h:136-144 | the tracking boxes change only when `mbt_success` holds. Then the machine is in `TrackModel`, both boxes are the same, x and y are non-negative and the right and bottom edges lie within the image; the width or height is negative when the outline lies wholly outside the image |
| Tracking.InputReadyAsksDetector | libauto_tracker/tracking.cpp:115-157 | in `DetectFlashcode` the detection answer is the detector's for the whole frame; in `ReDetectFlashcode` after a failed `mbt_success`, it is the detector's answer for the tracking box with the scaled timeout |
| Tracking.InputReadyLocatesFlashcode | libauto_tracker/tracking.cpp:160-178 | after a detection or re-detection, the flashcode points are located on the detector's polygon and the frame is the working image; otherwise the flashcode points stay |
| Tracking.InputReadyPoseFromFlashcode | libauto_tracker/tracking.cpp:186-194 | a model detection ends in `TrackModel`, with the grey image taken from the frame and the pose computed (LAGRANGE, then VIRTUAL_VS) from the located flashcode |
| Tracking.InputReadyFeedsBankOnlyWhenTracking | libauto_tracker/tracking.cpp:216-241 | only `TrackModel` and `ReDetectFlashcode` feed the detector bank and record the frame number, and there the bank and answer are the health verdict's |
| Tracking.Tracker.ProcessControl | libauto_tracker/tracking.h:126-152 | `select_input` and `finished` change the state exactly as `StateMachine.Process` says |
| Tracking.Tracker.constructor | libauto_tracker/tracking.cpp:17-64 | copies the configured points; builds the checkpoints only under ad-hoc recovery or checkpoint logging; seeds all six detectors with (alpha, delta) only when Hinkley is on; starts in `WaitingForInput` with empty images and identity pose |
| Tracking.MiddlePoints | libauto_tracker/tracking.cpp:28-38 | checkpoint i is (outer i + inner i) * ratio, coordinate by coordinate, with one checkpoint per outer point |
| Tracking.IsMiddle | libauto_tracker/tracking.cpp:28-38 | one checkpoint per outer point, each coordinate (outer + inner) * ratio |
| Tracking.SeededBy | libauto_tracker/tracking.cpp:56-61 | a detector is seeded exactly when Hinkley is on, and then with alpha and delta from the pair |
| Tracking.DefaultRatioGivesMidpoints | libauto_tracker/tracking.cpp:28-38 | with the default ratio 0.5 every checkpoint is the midpoint of its outer and inner points |
| Tracking.Tracker.FlashcodeDetected | libauto_tracker/tracking.cpp:115-133 | takes the frame's camera and answers what the detector says for the whole frame with the configured timeout at origin (0, 0) |
| Tracking.Tracker.FlashcodeRedetected | libauto_tracker/tracking.cpp:139-158 | an error exactly when the box is not inside the frame or the frame is empty; otherwise the detector's answer for the box, at the box's origin, with the scaled timeout |
| Tracking.FullFrameTimeout | libauto_tracker/tracking.cpp:156-157 | a box covering the whole frame gets the full configured timeout |
| Tracking.RedetectTimeoutBounds | libauto_tracker/tracking.cpp:156-157 | for a box inside the frame, the scaled timeout lies between 0 and the configured timeout |
| Tracking.RedetectTimeout | libauto_tracker/tracking.cpp:156-157 | the configured timeout times the box area over the frame area, truncated toward zero: never negative for a non-negative timeout and box, and 0 for an empty box |
| Tracking.QuotientTowardZero | libauto_tracker/tracking.cpp:156-157 | the cast of the exact quotient to an integer: the quotient of the magnitudes, with the sign of the numerator |
| Tracking.RoiInside | libauto_tracker/tracking.cpp:154 | the region-of-interest check of `cv::Mat(cvI, box)`: non-negative origin and size, and right and bottom edges within the frame |
| Tracking.FullFrameRequest | libauto_tracker/tracking.cpp:132 | what `flashcode_detected` asks the detector: the whole frame, the configured timeout unchanged, origin (0, 0) |
| Tracking.RoiRequest | libauto_tracker/tracking.cpp:154-157 | what `flashcode_redetected` asks the detector: the tracking box, the scaled timeout, and the box's corner as origin |
| Tracking.Tracker.FindFlashcodePos | libauto_tracker/tracking.cpp:160-178 | flashcode point i takes the normalised coordinates of polygon corner i (row y, column x), keeping its 3-D part; the frame becomes the working image and the grey image is resized to it |
| Tracking.Located | libauto_tracker/tracking.cpp:166-173 | point i keeps its world coordinates and takes the normalised coordinates of polygon corner i read as (row y, column x); the count is unchanged |
| Tracking.Tracker.ModelDetected | libauto_tracker/tracking.cpp:181-214 | throws exactly when the working or grey image is empty, changing nothing. Otherwise it answers true and the fields become those of `AfterModelDetected`: grey image from the working image, pose = VIRTUAL_VS started from LAGRANGE, and the first four outer, inner and (when kept) middle points projected |
| Tracking.Tracker.ProjectCorners | libauto_tracker/tracking.cpp:198-203 | the first four outer and inner points, and the middle ones when kept, are projected under the pose; the rest stay |
| Tracking.ProjectFirst | libauto_tracker/tracking.cpp:198-202 | the first n points are projected under the pose and the rest are unchanged |
| Tracking.Tracker.MbtSuccess | libauto_tracker/tracking.cpp:216-305 | the new fields are those of `MbtStep`: frame number, grey image and pose recorded; the answer, the detector bank and the checkpoints left behind are those of the health verdict; nothing else changes |
| Tracking.Tracker.BankAndCheckpoints | libauto_tracker/tracking.cpp:233-304 | after the variance limit: the bank verdict, then the checkpoint verdict, on the recorded grey image and pose |
| Tracking.MbtSuccessIffHealthy | libauto_tracker/tracking.cpp:216-305 | `mbt_success` is true exactly when no variance exceeds an enabled limit, no enabled Hinkley detector jumps, and no checkpoint fails under ad-hoc recovery |
| Tracking.MbtVerdictFeedsUpToJump | libauto_tracker/tracking.cpp:229-241 | a variance failure or a disabled bank leaves the detectors untouched; a detector is fed only if no detector before it jumped |
| Tracking.MbtVerdictProjectsUpToFailure | libauto_tracker/tracking.cpp:229-301 | a variance failure or a jump leaves the checkpoints untouched; a checkpoint is re-projected only if none before it failed |
| Tracking.DefaultsAlwaysTrack | libauto_tracker/tracking.cpp:216-305 | with default options `mbt_success` succeeds and changes neither bank nor checkpoints |
| Tracking.MbtVerdict | libauto_tracker/tracking.cpp:229-304 | the verdict of `mbt_success`: false with bank and checkpoints untouched when an enabled variance limit is exceeded, otherwise the verdict of the bank and checkpoints; its properties are those of `MbtSuccessIffHealthy`, `MbtVerdictFeedsUpToJump` and `MbtVerdictProjectsUpToFailure` |
| Tracking.BankVerdict | libauto_tracker/tracking.cpp:233-304 | with Hinkley on, the detectors are fed in order up to and including the first that jumps, and a jump answers false with the checkpoints untouched; when checkpoints are kept they are re-projected up to and including the first failing one, and the answer is true exactly when none fails |
| Tracking.MbtStep | libauto_tracker/tracking.cpp:216-305 | the effect of `mbt_success` on the fields: frame number, grey image and pose taken from the event, bank and checkpoints from `MbtVerdict`, and the guard answer is the verdict's; the state is unchanged |
| HealthCheck.WithinVarianceLimit | libauto_tracker/tracking.cpp:229-232 | passes exactly when all six diagonal entries are at most the limit |
| Tracking.VarianceFails | libauto_tracker/tracking.cpp:229-232 | the variance-limit test of `mbt_success`: the limit is on and some of the six diagonal entries is above it |
| Tracking.Tracker.FeedBank | libauto_tracker/tracking.cpp:233-241 | each detector up to and including the first jump takes its entry; jumped exactly when some detector jumped |
| HealthCheck.FirstJump | libauto_tracker/tracking.cpp:233-241 | the index is the first detector that jumps, or 6 when none does |
| Tracking.FirstJumpIs | libauto_tracker/tracking.cpp:233-241 | the first-jump index is the only index with no jump before it and a jump (or the end) at it |
| Tracking.HinkleyStop | libauto_tracker/tracking.cpp:233-241 | 6 when Hinkley is off; otherwise no detector before the index jumps, and the detector at the index jumps unless it is 6 |
| HealthCheck.FeedFirst | libauto_tracker/tracking.cpp:233-241 | feeding keeps the bank at six detectors |
| HealthCheck.FeedingKeepsSeeds | libauto_tracker/tracking.cpp:233-241 | feeding never re-seeds: parameters stay, histories only grow, detectors past n are untouched, and fed ones gain exactly their entry |
| Tracking.Tracker.CheckCheckpoints | libauto_tracker/tracking.cpp:266-301 | passes exactly when no checkpoint fails; checkpoints up to and including the first failure are re-projected and later ones keep their old projection |
| Tracking.CheckpointFailures | libauto_tracker/tracking.cpp:266-301 | one failure flag per checkpoint, each set exactly when ad-hoc recovery is on and the window's median exceeds the threshold |
| Tracking.FirstFailingCheckpointSpec | libauto_tracker/tracking.cpp:266-301 | the first failing index has no failure before it, and fails unless it is the end |
| Tracking.FirstFailure | libauto_tracker/tracking.cpp:267-301 | the first index from a start on whose flag is set, or the end when none is |
| Tracking.FirstFailingCheckpoint | libauto_tracker/tracking.cpp:266-301 | where the checkpoint loop of `mbt_success` returns false: the first failing checkpoint, or the number of checkpoints when none fails; `FirstFailingCheckpointSpec` and `FirstFailingCheckpointIs` characterise it |
| Tracking.KeepsCheckpoints | libauto_tracker/tracking.cpp:266 | the checkpoints are used (and projected) exactly when ad-hoc recovery or checkpoint logging is on |
| Tracking.FirstFailingCheckpointIs | libauto_tracker/tracking.cpp:266-301 | the first failing index is the only index with that property |
| Tracking.LoggingNeverFails | libauto_tracker/tracking.cpp:297-300 | logging checkpoints without ad-hoc recovery never fails a checkpoint |
| Tracking.CheckpointMedian | libauto_tracker/tracking.cpp:267-296 | the median grey level over the window of one checkpoint: the middle point is projected under the pose, both it and its inner partner are converted to pixels, and the window's cells are read from the image |
| Tracking.CheckpointFails | libauto_tracker/tracking.cpp:299-300 | a checkpoint fails exactly when ad-hoc recovery is on and its median is above the configured threshold |
| HealthCheck.CheckpointWindow | libauto_tracker/tracking.cpp:282-285 | window centre is the truncated pixel; each half-size is the truncated gap times the size factor, but at least 1 |
| HealthCheck.WindowCells | libauto_tracker/tracking.cpp:286-291 | every visited cell lies inside the image |
| HealthCheck.WindowCellsExact | libauto_tracker/tracking.cpp:286-291 | a cell is visited exactly when it lies in both the window and the image |
| HealthCheck.CentreIsSampled | libauto_tracker/tracking.cpp:282-291 | a window centred inside the image samples its centre pixel, even when middle and inner points coincide |
| HealthCheck.Column | libauto_tracker/tracking.cpp:289-291 | the inner loop visits rows jlo up to j of one column, in order |
| HealthCheck.Cells | libauto_tracker/tracking.cpp:286-291 | the nested loops visit only cells of the rectangle |
| HealthCheck.CellsComplete | libauto_tracker/tracking.cpp:286-291 | the nested loops visit every cell of the rectangle |
| HealthCheck.SampleColumn | libauto_tracker/tracking.cpp:289-294 | the samples of one column are the grey levels of its rows, in order |
| HealthCheck.SampleWindow | libauto_tracker/tracking.cpp:286-295 | the samples are the grey levels of the clipped window, column by column |
| Tracking.Grey | libauto_tracker/tracking.cpp:292 | one grey level per cell |
| Tracking.SampledIsGrey | libauto_tracker/tracking.cpp:286-295 | the loop's samples are exactly the grey levels of the visited cells |
| Tracking.Tracker.TrackModel | libauto_tracker/tracking.cpp:307-353 | the new fields are those of `AfterTrackModel`: the frame and camera are taken; all outer points and their inner partners are projected; both boxes become the bounding rectangle of the projected outer pixels clipped to the image: x and y are non-negative and the right and bottom edges lie within the image, and the width or height is negative when the outline lies wholly outside the image; nothing else changes |
| Tracking.AfterProjectOutline | libauto_tracker/tracking.cpp:322-351 | the projection part of `track_model`: every outer point and its inner partner projected under the current pose, and both boxes set to the bounding rectangle of the outer pixels clipped to the working image |
| Tracking.AfterTrackModel | libauto_tracker/tracking.cpp:307-353 | the effect of `track_model`: the event's frame becomes the working and grey image and its camera the tracker's, then `AfterProjectOutline` |
| Tracking.Tracker.ProjectModel | libauto_tracker/tracking.cpp:322-351 | the new fields are those of `AfterProjectOutline`: the outline is projected under the current pose and the boxes become its clipped bounding rectangle |
| Tracking.ProjectOutline | libauto_tracker/tracking.cpp:322-333 | each outer point and the inner point with the same index are projected, and later inner points stay; the pixels are those of the projected outer points |
| Tracking.OuterPixels | libauto_tracker/tracking.cpp:322-329 | one truncated pixel per outer point, in order |
| Tracking.PixelOf | libauto_tracker/tracking.cpp:327-329 | one point converted from metres to pixels with the camera, each coordinate truncated as `cv::Point(u,v)` does |
| Tracking.ClippedBoundingBox | libauto_tracker/tracking.cpp:339-351 | the stored box is the bounding rectangle clipped to the image |
| Tracking.ClipToImage | libauto_tracker/tracking.cpp:340-351 | x and y of the clipped box are non-negative and its right and bottom edges lie within the image; the width or height is negative when the box lies wholly outside the image (`ClipCanGoNegative`); a box already inside is unchanged |
| Tracking.ClipIsIntersection | libauto_tracker/tracking.cpp:340-351 | a pixel is in the clipped box exactly when it is in both the box and the image |
| Tracking.ClipIsIdempotent | libauto_tracker/tracking.cpp:340-351 | clipping twice is clipping once |
| Tracking.ClipCanGoNegative | libauto_tracker/tracking.cpp:340-351 | a box wholly right of the image keeps its left edge and gets a negative width |
| Geometry.BoundingRect | libauto_tracker/tracking.cpp:339 | contains every point; width and height at least 1 for a non-empty set; the empty rectangle for no points |
| Geometry.BoundingRectIsTight | libauto_tracker/tracking.cpp:339 | each of the four edges is touched by a point |
| Geometry.BoundingRectIsSmallest | libauto_tracker/tracking.cpp:339 | every rectangle holding all the points holds the bounding rectangle |
| Geometry.Trunc | libauto_tracker/tracking.cpp:284-285 | C++ `(int)` truncates toward zero |
| Geometry.Blank | libauto_tracker/tracking.cpp:177 | the resized image is well formed with the requested size |
| Geometry.WorldPoint | cmd_line/cmd_line.cpp:69-71 | a fresh point takes the three world coordinates, and its projection is zero |
| Collaborators.Seed | libauto_tracker/tracking.cpp:59-60 | a seeded detector holds (alpha, delta) and an empty history |
| Collaborators.Feed | libauto_tracker/tracking.cpp:235 | testing a value appends it to the history and keeps the parameters |
| Collaborators.Project | libauto_tracker/tracking.cpp:199-200 | projection keeps the world coordinates and replaces the image coordinates |
| CommandLine.GetHinkleyAlpha | cmd_line/cmd_line.cpp:166-170 | succeeds exactly when `using_hinkley`, with the first value of the pair |
| CommandLine.UsingHinkley | cmd_line/cmd_line.cpp:162-164 | `using_hinkley`: "hinkley-range" was given and holds exactly two values |
| CommandLine.UsingVarLimit | cmd_line/cmd_line.cpp:194-196 | `using_var_limit`: "variance-limit" was given |
| CommandLine.UsingAdhocRecovery | cmd_line/cmd_line.cpp:319-321 | `using_adhoc_recovery`: "ad-hoc-recovery" was given |
| CommandLine.LogCheckpoints | cmd_line/cmd_line.cpp:323-325 | `log_checkpoints`: "log-checkpoints" was given |
| CommandLine.GetHinkleyDelta | cmd_line/cmd_line.cpp:172-176 | succeeds exactly when `using_hinkley`, with the second value of the pair |
| CommandLine.HinkleyPairRoundTrip | cmd_line/cmd_line.cpp:162-176 | `using_hinkley` means the option is present with exactly two values; the getters succeed together and give back that pair in order |
| CommandLine.GetDetectorType | cmd_line/cmd_line.cpp:290-295 | ZBAR exactly for "zbar", DTMX for every other string |
| CommandLine.GetTrackerType | cmd_line/cmd_line.cpp:297-304 | MBT exactly for "mbt", KLT exactly for "klt", the hybrid for everything else |
| CommandLine.SelectorFallbacks | cmd_line/cmd_line.cpp:290-304 | "klt_mbt" and "mbt_klt" both give the hybrid; "dtmx" and misspellings of "zbar" give DTMX |
| CommandLine.GetWrlFile | cmd_line/cmd_line.cpp:258-260 | data directory, pattern name and ".wrl" joined with no separator |
| CommandLine.GetXmlFile | cmd_line/cmd_line.cpp:262-264 | data directory, pattern name and ".xml" joined with no separator |
| CommandLine.GetInitFile | cmd_line/cmd_line.cpp:266-268 | data directory, pattern name and ".init" joined with no separator |
| CommandLine.GetSingleImagePath | cmd_line/cmd_line.cpp:274-276 | data directory followed by the image name |
| CommandLine.ModelFilesShareStem | cmd_line/cmd_line.cpp:258-268 | the three model files share the stem and differ only in extension; a data directory without a trailing slash runs into the pattern name |
| CommandLine.DefaultsDisableChecks | cmd_line/cmd_line.cpp:18-57 | with defaults, no health check is on, ZBAR and the hybrid are selected, and the timeout is 1000 with threshold 100 |
| CommandLine.GroupCoordinates | cmd_line/cmd_line.cpp:68-84 | consecutive triples become world points, one per complete triple |
| CommandLine.TrailingValuesIgnored | cmd_line/cmd_line.cpp:68-84 | one or two values after the last complete triple do not change the points |
| CommandLine.CmdLine.LoadConfig | cmd_line/cmd_line.cpp:62-128 | each coordinate list's points are appended to what was there before, and "help" sets the exit flag without clearing it |
| CommandLine.CmdLine.constructor | cmd_line/cmd_line.cpp:129-146 | the exit flag starts false, so after `loadConfig` it is set exactly when "help" was given, and the point lists are the groupings |

## Left out

- Parsing the command line and the configuration file with Boost.program_options. An `Options` value handed to `CmdLine.constructor` stands for the parsed `vm_` and the variables bound to it. Option names are an enumeration, not strings.
- Console output (verbose traces, the help text), the variance log file and `LogFileWriter`, and the running `statistics` accumulators. None of these affects a transition.
- Image format conversions: the RGBA-to-BGR channel mix, `vpImageConvert::convert`, and the copies through `_I`. The grey image after `convert` is taken equal to the frame.
- `vpImage::resize` leaves pixel values unspecified; the model fills the resized grey image with zeros.
- The implementations of the outside code: the marker detector, ViSP projection and pixel/metre conversion, LAGRANGE and VIRTUAL_VS pose computation, the Hinkley jump test, and the P-square median. They are unconstrained function parameters (`Collaborators.Vision`), and the Hinkley detector is reduced to its parameters and input history.
- `input_selected` and `no_input_selected` are declared in tracking.h but defined in a file outside this model. Their answers are parameters of `Tracking.Tracker.ProcessInputReady`.
- `MbtSuccess`: the covariance diagonal is the six-entry `Frame.variances`. The code reads a default-constructed `vpMatrix` with no rows (its covariance is a TODO), which would be an out-of-range read.
- The dynamic-range computation in `track_model` (`using_mbt_dynamic_range`). Its result is unused in the code.
- The polygon centre in `find_flashcode_pos`: it is computed and then overwritten by a conversion of the default centre, and never read.
- Floating point: coordinates are `real`. The scaled re-detection timeout is computed exactly in integers and truncated toward zero, which matches the double expression except for rounding. For a negative configured timeout the code's `(unsigned int)` cast is undefined behaviour; the model truncates instead. The `(int)` casts of pixel coordinates and window sizes (tracking.cpp:282-285) and the conversion in `cv::Point(u,v)` (tracking.cpp:329) are undefined behaviour for values outside the `int` range; `Geometry.Trunc` is total and truncates any real. The full-frame detection (tracking.cpp:132) passes the `int` timeout to an `unsigned int` parameter, which wraps a negative value modulo 2^32; the model passes the configured value unchanged.
- Integer widths: pixel coordinates and box areas are unbounded, so a 32-bit overflow of the `int` products `width*height` (box) and `cols*rows` (frame) is not modelled. The multiplication by the timeout is done in `double` in the code and exactly here.
- Exceptions out of guards (`model_detected`'s `runtime_error`, OpenCV's region-of-interest assertion) are reported as a `thrown` flag or an `Err` result. The contracts state the state at that point: `DetectModel` after a throw out of `model_detected`, and `ReDetectFlashcode` after a region-of-interest error. What the back-end's `exception_caught` does afterwards is not modelled; by default it is a `BOOST_ASSERT(false)`.
- The back-end's default `no_transition` handler is also a `BOOST_ASSERT(false)`, for example for `finished` in `WaitingForInput` or `input_ready` in `DetectModel`. The model treats an unaccepted event as an unhandled event that leaves the state as it was, which is what happens when assertions are compiled out; the assertion itself is not modelled.
- FlashcodeRedetected: an empty frame is an `Err` in the model, by choice. In the code, a box that fits a 0 x 0 frame passes the region-of-interest check, the timeout becomes 0.0/0.0, and casting that NaN to `unsigned int` is undefined behaviour; the detector is then called anyway.
- Display flushing and the getters that only return a member. tracking.h:102 declares a single `Tracker_` constructor, but its tracker and events parameters (`vpMbTracker*`, `EventsBase&`) do not match the definition at tracking.cpp:17 (`EventsBase*`, no tracker parameter); `Tracking.Tracker.constructor` follows the definition.
