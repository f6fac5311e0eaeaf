# Animal Detector camera-trap pipeline: a Dafny model

This project models the core of the Animal Detector service in Dafny. The
service takes camera-trap photos and runs a two-stage pipeline on each one.
A YOLO detector finds animal boxes, and a species classifier names each
cropped box when a classifier model is installed. The project covers:

- `ImageProcessor` (`image_processor.dfy`): the two-stage `process_image`.
  This covers the outer loop over detector results, the inner loop over
  boxes, the classifier and fallback branches, and the three result shapes
  (`animal_detected`, `no_animal_detected`, `error`). It also covers the
  lazily created processor singleton.
- `BatchProcessor` (`batch_processor.dfy`): `process_batch`. It fetches the
  processor once, gathers one outcome per path, and aggregates the
  outcomes into the counters and the species tally. It also covers
  `_process_single_image` and the batch singleton.
- `ModelRegistry` (`model_registry.dfy`): the model cache of
  `app/utils/optimizations.py`. This is `get_model`,
  `clear_model_cache` and `get_device_info`.
- `Analysis` (`analysis.dfy`): the upload endpoints. It covers the
  extension allow-list, with POSIX `os.path.splitext` and lower-casing,
  and the decision to re-encode as JPEG. It also covers the image-mode
  table, the responses of `analyze_single_image`, and the per-file
  entries and summary counts of `analyze_batch_images`.
- `Realtime` (`realtime.dfy`): the WebSocket `ConnectionManager`. Its
  project-to-socket dict is kept in insertion order. The model covers
  connect, disconnect, send with drop-on-failure, and the health
  endpoint's counts.
- Shared pieces:
  - `Wrappers`: `Option`, `Attempt` for a value or a raised exception, and `Outcome`.
  - `Seqs`: mapping over sequences, and permutation invariance.
  - `Text`: the decimal text of `str(KeyError(k))` and ASCII lower-casing.
  - `Singleton`: the get-or-create pattern shared by all three singletons.

The foreign code is given to the model as input. This covers YOLO, OpenCV,
PIL, file reads and writes, and socket sends:

- A `Scene` says what the detector returns for one image and whether
  `cv2.imread` produced an image. It also says which crops are empty and
  what the classifier answers for each crop.
- An `Upload` says whether storing the upload, the JPEG conversion and the
  analysis succeeded or raised.
- A send `Outcome` says whether `send_text` raised.

Python exceptions are `Raised(msg)` values, with the message that `str(e)`
would give.

The batch aggregation is modelled as the source writes it, and two of its
effects are proved about the composed pipeline
(`BatchProcessor.AggregateOverPipeline`):

- Images with no animals are never counted as empty. The pipeline reports
  `"no_animal_detected"`, but the loop compares with `"no_animal"`, so
  those images are counted as low quality.
- The species tally only ever holds `"Unknown"`. The pipeline puts species
  names inside `detections`, but the loop reads a top-level `"species"`
  key.

## Model

| member | source | states |
|---|---|---|
| ImageProcessor.NewProcessor | app/pipeline/image_processor.py:8-25 | construction raises FileNotFoundError naming `models/animal_detector.pt` exactly when the detector file is missing; otherwise the classifier is loaded exactly when its file exists |
| ImageProcessor.ImageProcessorSingleton | app/pipeline/image_processor.py:112-119 | an existing instance is returned without constructing; an empty slot is filled exactly when construction succeeds, with the instance returned |
| ImageProcessor.SingletonStable | app/pipeline/image_processor.py:115-119 | after one successful call every later call returns the same instance and leaves the slot alone, even when the model files have changed since |
| ImageProcessor.TruncToInt | app/pipeline/image_processor.py:49 | Python's `int()` on a float truncates toward zero: the result is within one of the input, on the zero side |
| ImageProcessor.TruncReadBack | app/pipeline/image_processor.py:89-94 | each bounding-box corner read back with `float()` is the truncation of the detector's corner |
| ImageProcessor.TopPrediction | app/pipeline/image_processor.py:69-74 | no classifier result or no `probs` keeps `unknown` at 0.0; with `probs`, it raises exactly when the name table lacks `top1` (with that key's KeyError) and otherwise answers the name at `top1` with `top1conf` |
| ImageProcessor.ClassifyCrop | app/pipeline/image_processor.py:56-78 | a failed `imread` raises the TypeError of slicing None; an empty crop keeps `unknown` at 0.0; a classifier fault propagates; a completed classification of a non-empty crop gives exactly the top-1 answer of its results |
| ImageProcessor.DetectorLabel | app/pipeline/image_processor.py:79-83 | without a classifier the species is the detector's name for the truncated class id, with the detection confidence as classification confidence; a missing id raises KeyError with its decimal text |
| ImageProcessor.BuildRecord | app/pipeline/image_processor.py:48-95 | a box's record raises exactly when its species lookup raises, with that message; otherwise it carries the species and its confidence, the box's own confidence, and the truncated corners |
| ImageProcessor.ScanBoxes | app/pipeline/image_processor.py:48-95 | the inner loop completes exactly when every box builds, giving one record per box in order; when it raises, the message is that of the first box, in loop order, that raises |
| ImageProcessor.FirstEmpty | app/pipeline/image_processor.py:35-43 | the position of the first detector result with no boxes: every result before it has boxes, and absence means all results have boxes |
| ImageProcessor.ScanBoxesSpec | app/pipeline/image_processor.py:48-95 | the inner loop over one result agrees with the reference description over that result's boxes: completes iff all build, records in order, a fault is the first failing box's |
| ImageProcessor.ScanResultsOutcome | app/pipeline/image_processor.py:35-95 | the outer loop completes exactly when no box before the first empty result raises, raises with the message of the first such box otherwise, and stops early exactly when some result is empty |
| ImageProcessor.ScanResultsRecords | app/pipeline/image_processor.py:35-101 | when the outer loop runs to the end it has one record per box of every result, result by result, in detector order |
| ImageProcessor.ProcessImage | app/pipeline/image_processor.py:27-109 | the three result shapes: `no_animal_detected` is the fixed empty dict; `error` has no detections, count 0 and an error text; `animal_detected` counts its detections; a detector fault becomes an `error` dict with its message |
| ImageProcessor.ProcessImageSpec | app/pipeline/image_processor.py:27-109 | `error` iff the detector raised or some reached box raises; `no_animal_detected` iff a result is empty and no box before it raises; `animal_detected` only when no result is empty, with one record per box in order |
| ImageProcessor.BoxFaultDiscardsImage | app/pipeline/image_processor.py:103-109 | a fault on any box the loop reaches discards all records and reports `error` with the message of the first failing box |
| ImageProcessor.FirstResultEmpty | app/pipeline/image_processor.py:38-43 | when the first detector result has no boxes the image is `no_animal_detected`, whatever later results hold |
| ImageProcessor.EmptyResultListIsAnimalDetected | app/pipeline/image_processor.py:97-101 | a detector returning no results at all is reported as `animal_detected` with zero detections |
| ImageProcessor.ClassifierLabelsRecords | app/pipeline/image_processor.py:56-95 | with a classifier every record of an `animal_detected` image carries the classifier's answer for its box's truncated crop, name and confidence, and the box's detection confidence |
| ImageProcessor.FallbackWithoutClassifier | app/pipeline/image_processor.py:79-83 | without a classifier every record of an `animal_detected` image is named by the detector for its box, and its two confidences are equal |
| ImageProcessor.ThresholdCarriesThrough | app/pipeline/image_processor.py:31-50 | if every box the detector returns has confidence at least 0.25, so has every record |
| ImageProcessor.TwoDeerWithoutClassifier | app/pipeline/image_processor.py:48-101 | two boxes named deer at 0.8 and 0.6, with no classifier, give two deer records with those confidences and truncated corners |
| Singleton.GetOrCreate | app/pipeline/batch_processor.py:71-76 | a filled slot is returned unchanged; an empty slot yields the construction's outcome and is filled exactly when it succeeds |
| Singleton.ConstructedAtMostOnce | app/pipeline/batch_processor.py:71-76 | after one successful call the constructor is never consulted again |
| BatchProcessor.SpeciesName | app/pipeline/batch_processor.py:47 | a result without a `"species"` key, or whose species dict has no `"name"`, is tallied as `Unknown`; otherwise under that name |
| BatchProcessor.VerdictOf | app/pipeline/batch_processor.py:40-52 | an outcome counts as an animal iff its status is `animal_detected`, as empty iff it is `no_animal`, and as low quality otherwise, exceptions included |
| BatchProcessor.Increment | app/pipeline/batch_processor.py:48 | adding to the species tally adds the key if missing, raises its count by one and leaves every other key alone |
| BatchProcessor.Aggregate | app/pipeline/batch_processor.py:40-52 | every outcome feeds exactly one of the three counters |
| BatchProcessor.AggregateCounters | app/pipeline/batch_processor.py:40-52 | each counter is the number of outcomes with that verdict |
| BatchProcessor.AggregateTally | app/pipeline/batch_processor.py:45-48 | the tally holds exactly the species named by animal outcomes, each with the number of such outcomes |
| BatchProcessor.AggregatePermutation | app/pipeline/batch_processor.py:35-52 | the summary does not depend on the order in which the gathered outcomes arrive |
| BatchProcessor.IncrementTotal | app/pipeline/batch_processor.py:48 | one increment raises the sum of the tally's values by one |
| BatchProcessor.TallySumsToAnimals | app/pipeline/batch_processor.py:45-48 | the values of the species tally add up to `animals_detected` |
| BatchProcessor.ProcessSingleImage | app/pipeline/batch_processor.py:58-64 | a completed run passes its dict through; an exception becomes an `error` dict, which the aggregation counts as low quality |
| BatchProcessor.GetProcessor | app/pipeline/batch_processor.py:13-17 | a held processor is returned unchanged; otherwise the answer and the slot are exactly what fetching the singleton gives, and it raises exactly when neither holds an instance and the detector file is missing; on success both hold the returned processor |
| BatchProcessor.GetProcessorStable | app/pipeline/batch_processor.py:13-17 | once fetched, the processor is returned again and nothing changes, whatever the model files are later |
| BatchProcessor.Gathered | app/pipeline/batch_processor.py:35-37 | one outcome per path in path order, each the per-image task's dict |
| BatchProcessor.ProcessBatch | app/pipeline/batch_processor.py:19-56 | the batch raises exactly when fetching the processor raises; otherwise `total_images` is the number of paths, the three counters add up to it, the tally is the aggregation of every path's outcome on the processor `_get_processor` returned, a fetch fault propagates with its message, and the batch processor and slot are left as the fetch left them |
| BatchProcessor.BatchProcessorSingleton | app/pipeline/batch_processor.py:67-76 | a held instance is returned; otherwise a fresh processor with no image processor, which the slot then holds |
| BatchProcessor.AggregateOverPipeline | app/pipeline/batch_processor.py:45-52 | fed with the pipeline's own dicts, no image is ever counted empty and the tally is empty or holds only `Unknown` with the animal count |
| BatchProcessor.BatchOverPipeline | app/pipeline/batch_processor.py:19-56 | a whole batch run through `process_image` reports no empty images and tallies every animal image under `Unknown` |
| BatchProcessor.ThreeImageBatch | app/pipeline/batch_processor.py:40-52 | an empty image, a classified fox and an unreadable image give one animal under `Unknown`, no empty image and two low-quality images |
| ModelRegistry.SelectDevice | app/utils/optimizations.py:11 | the device is CUDA exactly when CUDA is available |
| ModelRegistry.GetModel | app/utils/optimizations.py:8-21 | a cached entry, even a cached None, is returned and nothing changes; a first request adds exactly that name, holding None for a missing file or the model from that path on the selected device; a load that raises propagates and caches nothing |
| ModelRegistry.ClearModelCache | app/utils/optimizations.py:23-26 | no name is cached afterwards |
| ModelRegistry.GetModelIdempotent | app/utils/optimizations.py:8-21 | after a call that returned, asking again under that name returns the same answer and leaves the cache as the first call left it |
| ModelRegistry.MissingFileSticks | app/utils/optimizations.py:15-17 | once None is cached for a missing file, later requests get None even after the file appears |
| ModelRegistry.LoadFaultRetried | app/utils/optimizations.py:18-19 | a load that raises leaves the cache unchanged, so the next request loads again |
| ModelRegistry.LoadTouchesOnlyName | app/utils/optimizations.py:10-19 | a first request keeps every other entry and adds the requested name exactly when it returns |
| ModelRegistry.NameShadowsPath | app/utils/optimizations.py:10-21 | the cache is keyed by name only: a later request with another path gets the model from the first path |
| ModelRegistry.ClearThenReload | app/utils/optimizations.py:23-26 | after clearing, the next request loads again on the device available then, or raises the load's fault |
| ModelRegistry.GetDeviceInfo | app/utils/optimizations.py:28-34 | without CUDA the count is 0 and there is no current device; with CUDA both are what torch reports |
| ModelRegistry.DeviceInfoAgreesWithSelection | app/utils/optimizations.py:11 | the device info names a current device exactly when models are put on CUDA |
| Text.AsciiLower | app/routes/analysis.py:22 | lower-casing keeps the length and maps each ASCII capital to its small letter, leaving every other character |
| Text.AsciiLowerIdempotent | app/routes/analysis.py:22 | lower-casing twice is lower-casing once, and no ASCII capital remains |
| Analysis.SplitExt | app/routes/analysis.py:22 | `splitext` cuts the name into root and extension that concatenate back to it; the extension is empty or starts with its only `.` and holds no `/` |
| Analysis.SplitExtHasExtension | app/routes/analysis.py:22 | the extension is non-empty exactly when the last path component has a `.` preceded by some character other than `.` |
| Analysis.AcceptedByExtension | app/routes/analysis.py:22-27 | a stem plus a dotted extension splits there, and is accepted exactly when the lower-cased extension is on the allow-list |
| Analysis.UpperCaseJpgAccepted | app/routes/analysis.py:12-23 | `photo.JPG` is accepted |
| Analysis.NoExtensionRejected | app/routes/analysis.py:22-27 | a name whose last component has no `.` is rejected |
| Analysis.DotFileRejected | app/routes/analysis.py:22-27 | a hidden file such as `.png` has no extension and is rejected |
| Analysis.ConvertedFormats | app/routes/analysis.py:12-44 | of the accepted extensions, exactly png, webp, bmp, tiff and gif are re-encoded as JPEG |
| Analysis.NormaliseMode | app/routes/analysis.py:48-53 | RGBA, LA and P are pasted onto white, masked by alpha only for RGBA; RGB is kept; every other mode is converted to RGB |
| Analysis.AnalyzeSingleAsWritten | app/routes/analysis.py:36-93 | the single endpoint as written ends in a server error exactly when an accepted upload cannot be stored, and otherwise replies as the corrected handler does |
| Analysis.StoreFaultEscapesAsWritten | app/routes/analysis.py:36-93 | for an accepted file whose upload cannot be stored, the endpoint as written fails with a server error where the corrected one reports the fault |
| Analysis.AsWrittenAgreesOtherwise | app/routes/analysis.py:15-93 | apart from that fault, the endpoint as written and the corrected one give the same reply |
| Analysis.AnalyzeSingle | app/routes/analysis.py:15-93 | never a server error; a 400 for an invalid format exactly when the name is not allowed; success exactly when allowed, stored, converted when needed and analysed, carrying the result, name, format and byte count |
| Analysis.AfterStore | app/routes/analysis.py:42-80 | once the upload is stored: a 400 carrying the fault exactly when a needed conversion fails; success exactly when no needed conversion failed and the analysis completed, carrying the result, name, format and size; otherwise `success: False` with the analysis fault |
| Analysis.SingleFaultsReported | app/routes/analysis.py:36-80 | a store or analysis fault is `success: False` with its message; a conversion fault is a 400 whose detail carries it |
| Analysis.BatchEntry | app/routes/analysis.py:104-158 | each file's entry names the file; an invalid format is rejected with its extension; success exactly when allowed, stored, converted when needed and analysed, carrying the result and the format; otherwise the error is the first fault's own message, with no prefix on a conversion fault |
| Analysis.AnalyzeBatch | app/routes/analysis.py:96-178 | one entry per file in input order; `processed` and `failed` count the successful and failed entries and add up to `total_files` |
| Analysis.CountSucceeded | app/routes/analysis.py:169-176 | the count of successful entries, with the rest failed |
| Analysis.SummaryOrderFree | app/routes/analysis.py:169-176 | the number of successful entries does not depend on their order |
| Realtime.NewManager | app/routes/realtime.py:10-12 | a new manager has no connections, reports none, and has one socket per project |
| Realtime.Lookup | app/routes/realtime.py:19-25 | a found socket is stored under that project |
| Realtime.LookupListed | app/routes/realtime.py:19-25 | a project is found exactly when it is among the dict's keys |
| Realtime.Put | app/routes/realtime.py:16 | after assigning, the project maps to the new socket |
| Realtime.PutSpec | app/routes/realtime.py:16 | assigning changes no other project's socket; a known project keeps its place in key order and a new one goes last |
| Realtime.PutValid | app/routes/realtime.py:16 | assigning keeps one entry per project |
| Realtime.Delete | app/routes/realtime.py:18-20 | deleting an absent project changes nothing; deleting a present one removes one entry |
| Realtime.DeleteSpec | app/routes/realtime.py:18-20 | deleting changes no other project's socket, and with one entry per project the project is gone |
| Realtime.DeleteRemovesEntry | app/routes/realtime.py:18-20 | deleting a project removes its first entry, and only that entry, keeping the others in order |
| Realtime.DeleteValid | app/routes/realtime.py:18-20 | deleting keeps one entry per project |
| Realtime.Connect | app/routes/realtime.py:14-16 | a failed accept propagates and leaves the registry alone; otherwise the project maps to the new socket |
| Realtime.ConnectTouchesOnlyProject | app/routes/realtime.py:14-16 | connecting one project leaves every other project's socket alone |
| Realtime.Disconnect | app/routes/realtime.py:18-20 | an unknown project changes nothing; a known one loses its entry and is no longer found; no other project changes |
| Realtime.SendResumed | app/routes/realtime.py:25-28 | once the awaited send on a socket ends, a success changes nothing; a failure, whatever other handlers did meanwhile, leaves the project unconnected on a valid table and every other project as it was |
| Realtime.SendToProject | app/routes/realtime.py:22-28 | nothing is sent to an unregistered project; a send goes to the registered socket; the project is dropped exactly when serialising or sending the message raises, and only then does the registry change |
| Realtime.Health | app/routes/realtime.py:69-75 | the connection count is the length of the project list, and a project is listed exactly when it is connected |
| Realtime.OperationsKeepValid | app/routes/realtime.py:10-28 | connect, disconnect and send keep one socket per project |
| Realtime.HealthCountsProjects | app/routes/realtime.py:72-75 | with one socket per project, the connection count is the number of distinct connected projects |
| Realtime.LastConnectionWins | app/routes/realtime.py:14-16 | connecting twice to a project is connecting once with the later socket |
| Realtime.ConnectListing | app/routes/realtime.py:14-16 | a reconnecting project keeps its place in the health listing; a new project is listed last |
| Realtime.ConnectDisconnectRoundTrip | app/routes/realtime.py:14-20 | connecting a new project and then disconnecting it restores the registry |
| Realtime.DisconnectIdempotent | app/routes/realtime.py:18-20 | disconnecting twice is disconnecting once |
| Realtime.StaleDisconnectEvictsNewer | app/routes/realtime.py:34-63 | when a second client connects to a project, the first client's disconnect removes the second client's socket |
| Realtime.StaleSendFailureEvictsNewer | app/routes/realtime.py:22-28 | when a connect for the project runs while a send to its previous socket is awaited and that send then fails, the cleanup removes the newer socket |
| Realtime.SendFailureDropsOnlyThatProject | app/routes/realtime.py:22-28 | a failed send keeps every other project's socket, and a later send to the dropped project sends nothing |

## Left out

- Model inference, image decoding, cropping and file I/O are foreign code (YOLO, OpenCV, PIL, the file system). Their results per image or upload are inputs (`Scene`, `Upload`), not computed.
- The detector's `conf=0.25` filtering happens inside YOLO. The model only carries the threshold through (`ImageProcessor.ThresholdCarriesThrough`).
- Temporary crop files and upload files, and their removal, are not modelled. Neither is the fact that the fixed crop name is left behind when the classifier raises. The only cleanup effect modelled is the one that changes a reply: the unbound `processing_path` in the single endpoint.
- Float corners that are NaN or infinite, which make `int()` raise, are not modelled. Corners are reals.
- `ImageProcessor.NewProcessor`: a YOLO load failure on an existing file is not modelled. Only missing files raise.
- Object identity is modelled as value equality. Two `Processor` values with the same flag count as "the same instance".
- `Text.AsciiLower`: `str.lower` is modelled on ASCII letters only. The only non-ASCII character that lowers to an ASCII letter is the Kelvin sign (to `k`), and no allowed extension contains a `k`. Non-ASCII capitals do show in one reply: the batch rejection text `"Invalid format: " + ext` (analysis.py:111) keeps them, so `x.PNÉ` is reported as `.pnÉ` where Python writes `.pné`.
- `Analysis.AnalyzeSingle`: the invalid-format 400 detail joins a Python set in hash order. The model keeps it as the tag `InvalidFormat`, not as text.
- `BatchProcessor.SpeciesName`: a `"species"` value that is not a dict would raise inside the aggregation loop. That cannot happen with the pipeline's dicts, and it is not modelled.
- `processing_time` and `project_id` of `process_batch` are not modelled. They are clock readings and an unused argument.
- Concurrency of `asyncio.gather` is not modelled. The gathered outcomes are taken in path order, and `BatchProcessor.AggregatePermutation` shows that their order does not matter.
- Exceptions returned by `asyncio.gather` are modelled by `VerdictOf`. `_process_single_image` catches every `Exception`, so only a `BaseException` such as `CancelledError` could be returned. It would fail the `isinstance(result, Exception)` test, and `result.get` would then raise. That case is not modelled.
- `Realtime.SendToProject`: the lookup, the send and the drop are modelled as one step, although `send_text` is awaited and other handlers can run meanwhile. The resumed half is `Realtime.SendResumed`, and `Realtime.StaleSendFailureEvictsNewer` shows what a `connect` during the await leads to. Other interleavings are not modelled.
- The WebSocket route's Redis subscription, message relay, JSON serialisation and logging are I/O and not modelled. Of that route, only its `connect` and `disconnect` calls on the manager are modelled.
- Socket handles are opaque numbers. Sockets are compared by handle.
- The database, the cache module, `main.py`, the other route files and the frontend are not part of this model.

## Findings

| source | as written | input that shows it | evidently intended | confidence | as-written member | corrected member |
|---|---|---|---|---|---|---|
| app/routes/analysis.py:36-93 | `processing_path` is first bound at line 43, but the `finally` block reads it; a fault while opening, reading or writing the upload (lines 38-40) makes the cleanup raise UnboundLocalError, which replaces the `success: False` reply with a server error | an accepted `photo.png` whose temporary copy cannot be written | every non-HTTP fault is reported as `{"success": False, "error": ...}`, as the batch endpoint does by binding `processing_path` first (line 120) | high; not executed | Analysis.AnalyzeSingleAsWritten, Analysis.StoreFaultEscapesAsWritten | Analysis.AnalyzeSingle, Analysis.SingleFaultsReported |
