# TASS-AI Facenet: gallery scan, warnings and accelerator lifecycle

This project models the decision logic of the two TASS Facenet classifiers and proves properties of it.

- **Static test mode** (`Facenet/Classifier.py`, `main`):
  - every test image with an image extension is counted and inferred;
  - its embedding is then compared with the gallery in listing order;
  - every failed comparison publishes an INTRUDER warning;
  - the first match publishes a RECOGNISED warning, labelled with the test image's name, and ends the walk;
  - at the end the graph is deallocated and the device closed.
- **Live stream** (`Facenet/WebCam.py`, `CamHandler.do_GET`):
  - every detected face is cropped with a 100 px margin, clamped to the row bound 480 and column bound 640 hard-coded in the slice;
  - the crop is walked against the gallery in the same first-match-wins way;
  - here the RECOGNISED warning is labelled with the gallery entry's name;
  - every face runs a walk of its own.
- **Shared helpers**:
  - the case-sensitive extension filter (`.jpg`, `.jpeg`, `.png`, `.gif`);
  - the label `rsplit('.', 1)[0]`.
- **The `Classifier` object**, identical in its accelerator use in both files:
  - it enumerates the Movidius devices and quits when there are none;
  - otherwise it opens the first device and allocates the graph;
  - at shutdown it deallocates the graph and then closes the device.

The modules follow those parts:

- `file_names.dfy`: the filter and the label.
- `crop.dfy`: the face crop window.
- `events.dfy`: the published warnings.
- `gallery.dfy`: the walk as a specification function.
- `lifecycle.dfy`: the `Classifier` class.
- `test_mode.dfy`: `main`'s nested loops.
- `live_stream.dfy`: one frame of `do_GET`.

The `Classifier` class records several things:

- the lifecycle calls made into the device library, as a trace `calls`;
- its `state`, kept equal to the replay of that trace through the lifecycle state machine (`Valid`);
- the inputs the graph is run on (`inferences`);
- the warnings sent on the "Warnings" channel (`published`).

The loops are methods with loop invariants. Each is proved against a specification function:

- `Scan` and `ScanFrom` for one gallery walk;
- `RunEvents`, `RunInputs` and `Identified` for the test mode;
- `FrameEvents` and `FrameInputs` for one frame.

The properties are lemmas about those functions.

The model replaces some parts of the source with parameters:

- **The embedding comparison** `FacenetHelpers.match(infer(entry), infer(probe))` becomes a parameter `isMatch(entry, probe)`. The probe is the test image's name in test mode and the crop window in the live stream. This assumes that `infer` is deterministic on fixed files and frames.
- **Directory listings** are sequences of names.
- **The detector's output** is a sequence of rectangles.
- **Camera 0's ID** is a parameter `origin`.
- **The device listing and the graph file's contents** are constructor parameters.

## Model

| member | source | states |
|---|---|---|
| FileNames.EndsWith | Facenet/Classifier.py:153 | definition: Python's case-sensitive `str.endswith`: the name's last characters are exactly the suffix |
| FileNames.IsEligible | Facenet/Classifier.py:153 | definition: the name ends, case-sensitively, with ".jpg", ".jpeg", ".png" or ".gif" (the same test at Classifier.py:161 and WebCam.py:193) |
| FileNames.EligibleIffExtension | Facenet/Classifier.py:153 | A name passes the filter if and only if it ends in "." followed by one of the four image extensions |
| FileNames.Eligible | Facenet/Classifier.py:151-161 | definition: the entries of a listing that pass the filter, in listing order |
| FileNames.EligibleMembers | Facenet/Classifier.py:151-161 | An entry is kept by the filter exactly when it is in the listing and ends with one of the four image extensions; the kept entries are never more than the listing |
| FileNames.LastDot | Facenet/Classifier.py:176 | Returns the index of the last '.' of the name, or -1 exactly when there is none; no later character is a dot |
| FileNames.Label | Facenet/WebCam.py:199 | `rsplit('.', 1)[0]`: a prefix of the name; when the name has a dot, the prefix ends just before a dot, with no dot after it; otherwise the whole name |
| FileNames.LabelOfStem | Facenet/Classifier.py:176 | Labelling `stem + "." + ext`, where `ext` has no dot, gives back `stem` |
| FileNames.LabelExamples | Facenet/Classifier.py:176 | Only the last extension is dropped ("archive.tar.gz" gives "archive.tar"); a dotless name is its own label |
| FileNames.LabelOfSuffix | Facenet/WebCam.py:199 | A name that ends in "." + a dotless extension equals its label + "." + that extension |
| FileNames.EligibleLabelDropsExtension | Facenet/Classifier.py:153-176 | An eligible name is its label, a dot, and one of the four image extensions |
| Crop.CropWindow | Facenet/WebCam.py:184-186 | The crop has the rows in [max(0, top-100), min(bottom+100, 480)) and the columns in [max(0, left-100), min(right+100, 640)), by an if-and-only-if for every row and every column. It never starts below 0 or ends past the frame. It contains the whole face when the face lies inside the frame |
| Events.Recognised | Facenet/Classifier.py:170-177 | definition: the "Warnings" payload with type CCTV, the camera origin, value RECOGNISED and message label + " Detected" (also WebCam.py:202-210) |
| Events.Intruder | Facenet/Classifier.py:185-192 | definition: the "Warnings" payload with type CCTV, the camera origin, value INTRUDER and message INTRUDER (also WebCam.py:218-225) |
| Events.Intruders | Facenet/Classifier.py:180-193 | definition: the INTRUDER warnings of n failed comparisons, in order |
| Events.IntrudersAreIntruders | Facenet/Classifier.py:185-193 | n failed comparisons publish n warnings, each the INTRUDER warning, and none of them RECOGNISED |
| Events.CountRecognised | Facenet/Classifier.py:170-178 | The count of RECOGNISED warnings is at most the number of warnings, and is 0 exactly when none is RECOGNISED |
| Events.CountRecognisedAppend | Facenet/Classifier.py:170-193 | RECOGNISED warnings of two stretches of the log add up |
| Gallery.Scan | Facenet/Classifier.py:159-179 | The first-match-wins walk; a reported match means at least one entry was compared |
| Gallery.ScanFirstMatch | Facenet/Classifier.py:159-179 | The entries compared are, in order, a prefix of the eligible entries. Among them, exactly the last matches when the walk reports a match, and none matches otherwise. Without a match every eligible entry was compared, so nothing after the first match is compared |
| Gallery.ScanFrom | Facenet/Classifier.py:159-193 | definition: the gallery loop (also WebCam.py:191-229) as a walk with an accumulator: from position j with the entries already compared, skip an ineligible entry, stop at a match with it appended, otherwise append it and go on |
| Gallery.ScanFromResumes | Facenet/WebCam.py:191-211 | The loop's walk resumed at position j after `done` compares `done`, then exactly what the walk of the rest of the listing compares |
| Gallery.ScanFromStart | Facenet/WebCam.py:191-229 | The loop's walk from the start of the listing is `Scan` |
| Gallery.ScanMatchedIff | Facenet/Classifier.py:159-179 | The walk reports a match if and only if some eligible entry matches the probe |
| Lifecycle.Step | Facenet/Classifier.py:83-98 | definition: the legal call in each state: enumerate from the start (quit on an empty list, else choose the first device), open the chosen device, allocate on the open device, deallocate the allocated graph, close after deallocation (Classifier.py:209-210) |
| Lifecycle.Run | Facenet/Classifier.py:83-98 | definition: the state reached by replaying a call trace from the start, or none when some call is illegal |
| Lifecycle.ShapeRuns | Facenet/Classifier.py:83-98 | Every trace of the written-out shape (quit, or enumerate, open the first device, allocate, deallocate, close) is legal and ends in its state |
| Lifecycle.RunsShape | Facenet/Classifier.py:83-98 | Every legal trace has the written-out shape of the state it ends in |
| Lifecycle.RunShape | Facenet/Classifier.py:83-98 | A trace is legal and ends in s if and only if it has the shape written out for s |
| Lifecycle.NoDeviceStopsAll | Facenet/Classifier.py:86-89 | After an empty enumeration, a legal trace has no further call: nothing is opened or allocated |
| Lifecycle.OpenBeforeAllocate | Facenet/Classifier.py:91-98 | In a legal trace the graph is allocated only as the third call, right after the first enumerated device was opened |
| Lifecycle.DeallocateBeforeClose | Facenet/Classifier.py:209-210 | In a legal trace the device is closed only as the fifth call, right after the graph was deallocated, and the state is then Closed |
| Lifecycle.Classifier.constructor | Facenet/Classifier.py:64-77 | With no device, the object quits after one enumeration. Otherwise the trace is enumerate, open the first device, allocate the graph file's contents, and the graph is allocated. Nothing has been inferred or published yet |
| Lifecycle.Classifier.CheckDevices | Facenet/WebCam.py:97-108 | Enumerates; quits on an empty listing; otherwise opens the first device. The trace and the state stay consistent |
| Lifecycle.Classifier.AllocateGraph | Facenet/Classifier.py:96-98 | Legal only on an open device; records the allocation and moves to Allocated |
| Lifecycle.Classifier.LoadRequirements | Facenet/WebCam.py:114-120 | Keeps the graph file's contents and allocates exactly them |
| Lifecycle.Classifier.Infer | Facenet/Classifier.py:156-163 | Legal only while the graph is allocated; records one inference and changes nothing else |
| Lifecycle.Classifier.DeallocateGraph | Facenet/Classifier.py:209 | Moves from Allocated to Released and records the deallocation |
| Lifecycle.Classifier.CloseDevice | Facenet/Classifier.py:210 | Moves from Released to Closed and records the close |
| Lifecycle.Classifier.Publish | Facenet/Classifier.py:170-178 | Appends one warning to the published log and changes nothing else |
| TestMode.GalleryInputs | Facenet/Classifier.py:163 | definition: one gallery-image inference per entry compared, in order |
| TestMode.TestEvents | Facenet/Classifier.py:159-193 | definition: the warnings of one test image: an INTRUDER per failed comparison of the walk, then RECOGNISED with the test image's label if the walk matched |
| TestMode.TestInputs | Facenet/Classifier.py:156-163 | definition: the inferences of one test image: the image itself, then each gallery entry compared |
| TestMode.Identified | Facenet/Classifier.py:151-166 | definition: the number of eligible test images some eligible gallery entry matches |
| TestMode.RunEvents | Facenet/Classifier.py:151-193 | definition: the warnings of every eligible test image, in listing order |
| TestMode.RunInputs | Facenet/Classifier.py:151-163 | definition: the inferences of every eligible test image, in listing order |
| TestMode.WalkGallery | Facenet/Classifier.py:159-193 | After the gallery loop, what it compared and whether it matched are the walk's outcome. It published one INTRUDER per failed comparison and, on a match, one RECOGNISED labelled with the test image. It inferred each entry compared. The lifecycle is untouched |
| TestMode.CompareWithGallery | Facenet/Classifier.py:156-193 | One test image: returns whether some eligible entry matches. It publishes `TestEvents`. It infers the test image, then each entry compared |
| TestMode.RunTestMode | Facenet/Classifier.py:145-210 | `files` is the number of eligible test images. `identified` is the number of them some eligible gallery entry matches. The published log and the inferences are those of all eligible test images in listing order. Ineligible test images add nothing. The run ends with deallocate then close |
| TestMode.IdentifiedAtMostTested | Facenet/Classifier.py:157-179 | `identified <= files` |
| TestMode.TestEventsFirstMatch | Facenet/Classifier.py:159-193 | With a match, the first matching eligible entry e[n] yields n INTRUDER warnings then RECOGNISED with the test image's label. Without one, there is one INTRUDER per eligible entry |
| TestMode.TestEventsShape | Facenet/Classifier.py:165-193 | One warning per entry compared: all INTRUDER, except that the last is RECOGNISED (labelled with the test image) exactly when some eligible entry matches |
| TestMode.TestEventsRecognised | Facenet/Classifier.py:165-179 | A test image publishes one RECOGNISED warning if it is identified and none otherwise |
| TestMode.RecognisedCountIsIdentified | Facenet/Classifier.py:166-179 | The run publishes exactly `identified` RECOGNISED warnings |
| TestMode.GalleryInputsNames | Facenet/Classifier.py:163 | A walk infers only the gallery entries it compared |
| TestMode.TestInputsEligible | Facenet/Classifier.py:156-163 | A test image causes inferences only of itself and of eligible gallery entries |
| TestMode.RunInputsEligible | Facenet/Classifier.py:151-163 | A run infers only eligible test images and eligible gallery entries; ineligible entries are never inferred |
| TestMode.TestEventsFromCamera | Facenet/Classifier.py:170-193 | Every warning of a test image is on "Warnings", of type CCTV, from camera 0 |
| TestMode.RunEventsFromCamera | Facenet/Classifier.py:170-193 | Every warning of a run is on "Warnings", of type CCTV, from camera 0 |
| TestMode.AliceWalk | Facenet/Classifier.py:159-178 | Gallery ["alice.jpg"], test "alice.jpg", matched: exactly one warning, RECOGNISED "alice Detected" |
| TestMode.BobWalk | Facenet/Classifier.py:159-193 | Gallery ["alice.jpg"], test "bob.jpg", not matched: exactly one INTRUDER warning |
| TestMode.AliceAndBob | Facenet/Classifier.py:151-193 | Tests ["alice.jpg", "bob.jpg"] against gallery ["alice.jpg"]: two files tested, one identified, warnings RECOGNISED "alice Detected" then INTRUDER |
| LiveStream.FaceEvents | Facenet/WebCam.py:191-226 | definition: the warnings of one face: an INTRUDER per failed comparison of the walk, then RECOGNISED with the matching gallery entry's label if the walk matched |
| LiveStream.FaceInputs | Facenet/WebCam.py:195-197 | definition: for each gallery entry compared, the inference of the entry and then of the crop |
| LiveStream.FrameEvents | Facenet/WebCam.py:164-226 | definition: the warnings of every detected face of the frame, in detection order, each cropped by CropWindow |
| LiveStream.FrameInputs | Facenet/WebCam.py:164-197 | definition: the inferences of every detected face of the frame, in detection order |
| LiveStream.Recognisable | Facenet/WebCam.py:164-211 | definition: the number of faces of the frame whose crop some eligible gallery entry matches |
| LiveStream.InferPair | Facenet/WebCam.py:195-197 | Infers the gallery entry, then the crop, in argument order |
| LiveStream.WalkFace | Facenet/WebCam.py:191-229 | After the gallery loop for one crop, what it compared and whether it matched are the walk's outcome. It published one INTRUDER per failed comparison and, on a match, one RECOGNISED labelled with the matching gallery entry. Ineligible entries publish nothing |
| LiveStream.ScanFace | Facenet/WebCam.py:191-229 | One face: returns whether some eligible entry matches the crop. It publishes `FaceEvents`. It infers each entry compared together with the crop |
| LiveStream.ProcessFrame | Facenet/WebCam.py:164-229 | One frame: the published log grows by the warnings of each detected face in detection order, each from its own walk, and the lifecycle is untouched |
| LiveStream.FaceEventsFirstMatch | Facenet/WebCam.py:195-226 | With a match, the first matching eligible entry e[n] yields n INTRUDER warnings then RECOGNISED with e[n]'s label. Without one, there is one INTRUDER per eligible entry |
| LiveStream.FaceEventsRecognised | Facenet/WebCam.py:195-211 | One face publishes one RECOGNISED warning if its crop is matched and none otherwise |
| LiveStream.FrameEventsAppend | Facenet/WebCam.py:164-166 | The warnings of a frame are those of its faces taken in order: each face is walked independently |
| LiveStream.FrameRecognisedCount | Facenet/WebCam.py:164-211 | The RECOGNISED warnings of a frame number its matched faces: at most one per face, none for a frame without detections |
| LiveStream.FaceInputsNames | Facenet/WebCam.py:195-197 | A face's walk infers only the crop and the gallery entries it compared |
| LiveStream.FrameInputsEligible | Facenet/WebCam.py:191-197 | A frame infers only crops and eligible gallery entries |
| LiveStream.FaceEventsFromCamera | Facenet/WebCam.py:202-226 | Every warning of a face is on "Warnings", of type CCTV, from camera 0 |
| LiveStream.FrameEventsFromCamera | Facenet/WebCam.py:202-226 | Every warning of a frame is on "Warnings", of type CCTV, from camera 0 |

## Left out

- The Movidius `mvnc` library is modelled only as the recorded lifecycle calls and the state machine. Its hardware behaviour is foreign code.
- `FacenetHelpers.infer` and `FacenetHelpers.match` are not part of this model: they compute float embeddings and distances. Only the inputs `infer` is run on are recorded, and `match` is the `isMatch` parameter.
- dlib face detection and the landmark predictor are left out; the detected rectangles are a parameter.
- OpenCV is left out:
  - `imread`;
  - resizing and colour conversion;
  - flipping;
  - the rectangles and circles drawn on the frame, including the red box on a failed comparison;
  - writing the crop to `test.jpg`.
  
  None of these changes a warning or a count.
- The MQTT connection (`startMQTT`) is left out. A published warning is a value appended to `published`.
- Configuration loading, prints, `time`/`datetime` and the `frameWait`/`fps` counters are left out: they have no observable effect on the logic.
- The HTTP server, its threads, `WebcamVideoStream`, the `.html` page and the MJPEG framing are left out as file, network and concurrency I/O.
- The `while True` loop of `do_GET` is modelled as one pass (`LiveStream.ProcessFrame`), so the infinite stream of frames is not modelled. WebCam.py has no shutdown calls, so none are modelled there.
- Crop.CropWindow models the slice bounds only. A bottom or right below -100 would make the slice end negative, and numpy would count such an end from the frame's far edge; the model does not capture that. The frame height 480 is taken as hard-coded, although only the width is fixed by the resize to 640.
- `KeyboardInterrupt` and exceptions raised by library calls are left out.
- Lifecycle.Classifier.Infer requires an allocated graph. The code has no guard. In both programs the constructor quits or allocates before any inference (Classifier.py:73-76 and :133, before `main`; WebCam.py:82-87 and :266, before the server starts), so the precondition holds at every call site.
- The gallery directory is listed again for every test image (Classifier.py:159) and for every face (WebCam.py:191). `TestMode.RunTestMode` and `LiveStream.ProcessFrame` take one listing `valid`, so the gallery directory is assumed not to change during a run.

## Notes on the code

- `Infer` has no guard against an unallocated graph in the code; the model states the allocated graph as a precondition (see "Left out").
- `quit()` on an empty device list (Classifier.py:86-89, WebCam.py:100-103) becomes the state `Quit`, from which no call is legal.
- Nothing in `do_GET` catches an error raised while a face is processed: only `KeyboardInterrupt` is caught (WebCam.py:245), so such an error ends the request.
- Shutdown calls `DeallocateGraph` and then `CloseDevice` explicitly (Classifier.py:209-210); WebCam.py makes no shutdown calls.
