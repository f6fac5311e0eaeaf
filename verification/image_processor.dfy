/** The two-stage image pipeline of `app/pipeline/image_processor.py`: a
    detector proposes boxes, each box is cropped and (when a species
    classifier is loaded) classified, and everything is folded into one
    normalised result record. The detector, `cv2.imread`, the crop slice and
    the classifier are foreign code; their behaviour on one image is the
    `Scene` input. */
module ImageProcessor {
  import opened Wrappers
  import Text
  import Singleton

  const DetectorPath := "models/animal_detector.pt"
  const ClassifierPath := "models/species_classifier.pt"
  /** The `conf=` argument handed to the detector; the filtering happens inside it. */
  const DetectionThreshold: real := 0.25
  const UnknownSpecies := "unknown"
  /** `str(e)` of the TypeError raised by slicing the `None` that `cv2.imread`
      returns for an unreadable file. */
  const NoneNotSubscriptable := "'NoneType' object is not subscriptable"

  // ---------------------------------------------------------------- inputs

  /** One detector box: corners `xyxy[0]`, confidence `conf[0]`, class `cls[0]`. */
  datatype Box = Box(x1: real, y1: real, x2: real, y2: real, conf: real, cls: real)

  /** One element of the detector's result list: its boxes in detector order
      and the class-id to class-name table. */
  datatype DetectorResult = DetectorResult(boxes: seq<Box>, names: map<int, string>)

  /** Box corners after Python's `int()`. */
  datatype Corners = Corners(x1: int, y1: int, x2: int, y2: int)

  /** `probs.top1` and `probs.top1conf` of a classification result. */
  datatype Probs = Probs(top1: int, top1conf: real)

  /** One element of the classifier's result list. */
  datatype Classification = Classification(probs: Option<Probs>, names: map<int, string>)

  /** What the foreign code does for one image path:
      - `detection`: the detector's result list, or what it raised;
      - `imageLoaded`: `cv2.imread` returned pixels rather than `None`;
      - `cropEmpty(c)`: the slice `img[c.y1:c.y2, c.x1:c.x2]` has size 0;
      - `classify(c)`: writing that crop and running the classifier on it,
        or what either raised. */
  datatype Scene = Scene(
    detection: Attempt<seq<DetectorResult>>,
    imageLoaded: bool,
    cropEmpty: Corners -> bool,
    classify: Corners -> Attempt<seq<Classification>>)

  /** Which model files exist when the processor is constructed:
      `detectorPresent` tests `DetectorPath`, `classifierPresent` tests
      `ClassifierPath`. */
  datatype ModelFiles = ModelFiles(detectorPresent: bool, classifierPresent: bool)

  /** An `ImageProcessor` instance; the detector is always loaded, the
      species classifier only when `classifierLoaded`. */
  datatype Processor = Processor(classifierLoaded: bool)

  // --------------------------------------------------------------- outputs

  datatype Status = NoAnimalDetected | AnimalDetected | Error

  datatype BoundingBox = BoundingBox(x1: real, y1: real, x2: real, y2: real)

  datatype SpeciesLabel = SpeciesLabel(name: string, confidence: real)

  datatype DetectionRecord = DetectionRecord(
    species: string,
    detectionConfidence: real,
    classificationConfidence: real,
    boundingBox: BoundingBox)

  /** The dict `process_image` returns; `error` is present only for `Error`. */
  datatype ImageResult = ImageResult(
    status: Status,
    animalsDetected: nat,
    detections: seq<DetectionRecord>,
    error: Option<string>)

  /** The `"status"` string each status is written as. */
  function StatusText(s: Status): string
  {
    match s
    case NoAnimalDetected => "no_animal_detected"
    case AnimalDetected => "animal_detected"
    case Error => "error"
  }

  const NoAnimalResult := ImageResult(NoAnimalDetected, 0, [], None)

  function ErrorResult(msg: string): ImageResult
  {
    ImageResult(Error, 0, [], Some(msg))
  }

  // ----------------------------------------------------------- construction

  /** `ImageProcessor()`: a missing detector file raises FileNotFoundError; a
      missing classifier file only leaves the classifier unset. */
  function NewProcessor(files: ModelFiles): (r: Attempt<Processor>)
    ensures r.Raised? <==> !files.detectorPresent
    ensures r.Raised? ==> r.msg == "Animal detector not found at " + DetectorPath
    ensures r.Done? ==> (r.value.classifierLoaded <==> files.classifierPresent)
  {
    if !files.detectorPresent then Raised("Animal detector not found at " + DetectorPath)
    else Done(Processor(files.classifierPresent))
  }

  /** `image_processor_singleton()`: `slot` is `_image_processor_instance`. */
  function ImageProcessorSingleton(slot: Option<Processor>, files: ModelFiles): (r: (Attempt<Processor>, Option<Processor>))
    ensures slot.Some? ==> r == (Done(slot.value), slot)
    ensures slot.None? ==> r.0 == NewProcessor(files)
    ensures r.1.Some? <==> r.0.Done?
    ensures r.1.Some? ==> r.1.value == r.0.value
  {
    Singleton.GetOrCreate(slot, NewProcessor(files))
  }

  /** After one successful call, every later call returns the same instance
      and never constructs again, even if the model files have changed. */
  lemma SingletonStable(slot: Option<Processor>, files: ModelFiles, laterFiles: ModelFiles)
    requires ImageProcessorSingleton(slot, files).0.Done?
    ensures var (r1, s1) := ImageProcessorSingleton(slot, files);
            ImageProcessorSingleton(s1, laterFiles) == (r1, s1)
  {
    Singleton.ConstructedAtMostOnce(slot, NewProcessor(files), NewProcessor(laterFiles));
  }

  // ------------------------------------------------------------- one box

  /** Python's `int()` on a float: truncation toward zero. */
  function TruncToInt(x: real): (t: int)
    ensures 0.0 <= x ==> 0 <= t && t as real <= x < t as real + 1.0
    ensures x < 0.0 ==> t <= 0 && t as real - 1.0 < x <= t as real
  {
    if x >= 0.0 then x.Floor else -((-x).Floor)
  }

  function CornersOf(b: Box): Corners
  {
    Corners(TruncToInt(b.x1), TruncToInt(b.y1), TruncToInt(b.x2), TruncToInt(b.y2))
  }

  /** `str(e)` of the KeyError raised by looking up a missing class id. */
  function KeyErrorMessage(key: int): string
  {
    Text.IntToDecimal(key)
  }

  /** `v` is the truncation toward zero of `x`, read back as a float: an
      integer no farther from zero than `x` and less than 1 away from it. */
  predicate TruncatedFrom(v: real, x: real)
  {
    && v == v.Floor as real
    && (0.0 <= x ==> 0.0 <= v <= x < v + 1.0)
    && (x < 0.0 ==> v - 1.0 < x <= v <= 0.0)
  }

  predicate BoxFromCorners(bb: BoundingBox, b: Box)
  {
    && TruncatedFrom(bb.x1, b.x1) && TruncatedFrom(bb.y1, b.y1)
    && TruncatedFrom(bb.x2, b.x2) && TruncatedFrom(bb.y2, b.y2)
  }

  /** Reading the top-1 prediction of the classifier (lines 69-74): no result
      or no `probs` keeps `"unknown"` with confidence 0.0; a top-1 id missing
      from `names` raises KeyError. */
  function TopPrediction(results: seq<Classification>): (a: Attempt<SpeciesLabel>)
    ensures a.Done? && a.value != SpeciesLabel(UnknownSpecies, 0.0) ==>
              && |results| > 0 && results[0].probs.Some?
              && results[0].probs.value.top1 in results[0].names
              && a.value.name == results[0].names[results[0].probs.value.top1]
              && a.value.confidence == results[0].probs.value.top1conf
    ensures (|results| == 0 || results[0].probs.None?) ==> a == Done(SpeciesLabel(UnknownSpecies, 0.0))
    ensures |results| > 0 && results[0].probs.Some? ==>
              (a.Raised? <==> results[0].probs.value.top1 !in results[0].names)
    ensures |results| > 0 && results[0].probs.Some? && results[0].probs.value.top1 in results[0].names ==>
              a == Done(SpeciesLabel(results[0].names[results[0].probs.value.top1], results[0].probs.value.top1conf))
    ensures a.Raised? ==> a.msg == KeyErrorMessage(results[0].probs.value.top1)
  {
    if |results| == 0 then Done(SpeciesLabel(UnknownSpecies, 0.0))
    else match results[0].probs
      case None => Done(SpeciesLabel(UnknownSpecies, 0.0))
      case Some(pr) =>
        if pr.top1 in results[0].names then Done(SpeciesLabel(results[0].names[pr.top1], pr.top1conf))
        else Raised(KeyErrorMessage(pr.top1))
  }

  /** The classifier branch (lines 56-78): crop, skip an empty crop, else
      classify and read the top-1 prediction. The label is either
      `"unknown"` with 0.0 or the classifier's top-1 class and confidence. */
  function ClassifyCrop(scene: Scene, c: Corners): (a: Attempt<SpeciesLabel>)
    ensures !scene.imageLoaded ==> a == Raised(NoneNotSubscriptable)
    ensures scene.imageLoaded && scene.cropEmpty(c) ==> a == Done(SpeciesLabel(UnknownSpecies, 0.0))
    ensures scene.imageLoaded && !scene.cropEmpty(c) && scene.classify(c).Raised? ==> a == Raised(scene.classify(c).msg)
    ensures scene.imageLoaded && !scene.cropEmpty(c) && scene.classify(c).Done? ==> a == TopPrediction(scene.classify(c).value)
    ensures a.Done? ==>
              || a.value == SpeciesLabel(UnknownSpecies, 0.0)
              || (var rs := scene.classify(c).value;
                  && scene.classify(c).Done? && |rs| > 0 && rs[0].probs.Some?
                  && rs[0].probs.value.top1 in rs[0].names
                  && a.value.name == rs[0].names[rs[0].probs.value.top1]
                  && a.value.confidence == rs[0].probs.value.top1conf)
  {
    if !scene.imageLoaded then Raised(NoneNotSubscriptable)
    else if scene.cropEmpty(c) then Done(SpeciesLabel(UnknownSpecies, 0.0))
    else match scene.classify(c)
      case Raised(msg) => Raised(msg)
      case Done(results) => TopPrediction(results)
  }

  /** The fallback branch (lines 79-83): the detector's class name with the
      detector's own confidence. */
  function DetectorLabel(r: DetectorResult, b: Box): (a: Attempt<SpeciesLabel>)
    ensures a.Done? <==> TruncToInt(b.cls) in r.names
    ensures a.Done? ==> a.value == SpeciesLabel(r.names[TruncToInt(b.cls)], b.conf)
    ensures a.Raised? ==> a.msg == KeyErrorMessage(TruncToInt(b.cls))
  {
    var classId := TruncToInt(b.cls);
    if classId in r.names then Done(SpeciesLabel(r.names[classId], b.conf))
    else Raised(KeyErrorMessage(classId))
  }

  /** The species policy for one box: the classifier branch when a classifier
      is loaded, the detector's own class otherwise. */
  function SpeciesFor(p: Processor, scene: Scene, r: DetectorResult, b: Box): Attempt<SpeciesLabel>
  {
    if p.classifierLoaded then ClassifyCrop(scene, CornersOf(b)) else DetectorLabel(r, b)
  }

  /** A corner truncated by `int()` and converted back by `float()`. */
  lemma TruncReadBack(x: real)
    ensures TruncatedFrom(TruncToInt(x) as real, x)
  {
    var t := TruncToInt(x);
    assert (t as real).Floor == t;
  }

  /** The body of the inner loop (lines 49-95): one record for box `b` of
      detector result `r`, or the exception that aborts the image. The
      record carries the species policy's label, the box's confidence
      unchanged and the truncated corners. */
  function BuildRecord(p: Processor, scene: Scene, r: DetectorResult, b: Box): (a: Attempt<DetectionRecord>)
    ensures a.Raised? <==> SpeciesFor(p, scene, r, b).Raised?
    ensures a.Raised? ==> a.msg == SpeciesFor(p, scene, r, b).msg
    ensures a.Done? ==> a.value.species == SpeciesFor(p, scene, r, b).value.name
    ensures a.Done? ==> a.value.classificationConfidence == SpeciesFor(p, scene, r, b).value.confidence
    ensures a.Done? ==> a.value.detectionConfidence == b.conf
    ensures a.Done? ==> BoxFromCorners(a.value.boundingBox, b)
  {
    var c := CornersOf(b);
    TruncReadBack(b.x1); TruncReadBack(b.y1); TruncReadBack(b.x2); TruncReadBack(b.y2);
    match SpeciesFor(p, scene, r, b)
    case Raised(msg) => Raised(msg)
    case Done(l) =>
      Done(DetectionRecord(l.name, b.conf, l.confidence,
                           BoundingBox(c.x1 as real, c.y1 as real, c.x2 as real, c.y2 as real)))
  }

  // ----------------------------------------------------------- the loops

  /** The inner loop over the boxes of one detector result, stopping at the
      first box whose processing raises. */
  function ScanBoxes(p: Processor, scene: Scene, r: DetectorResult, boxes: seq<Box>): (a: Attempt<seq<DetectionRecord>>)
    ensures a.Done? <==> forall i :: 0 <= i < |boxes| ==> BuildRecord(p, scene, r, boxes[i]).Done?
    ensures a.Done? ==> |a.value| == |boxes|
    ensures a.Done? ==> forall i :: 0 <= i < |boxes| ==> BuildRecord(p, scene, r, boxes[i]) == Done(a.value[i])
    // the exception is the one of the first box, in loop order, that raises
    ensures a.Raised? ==> exists i :: && 0 <= i < |boxes| && BuildRecord(p, scene, r, boxes[i]) == Raised(a.msg)
                                      && forall k :: 0 <= k < i ==> BuildRecord(p, scene, r, boxes[k]).Done?
    decreases |boxes|
  {
    if |boxes| == 0 then Done([])
    else match BuildRecord(p, scene, r, boxes[0])
      case Raised(msg) => Raised(msg)
      case Done(record) =>
        match ScanBoxes(p, scene, r, boxes[1..])
        case Raised(msg) =>
          ShiftFirstFailure(p, scene, r, boxes, msg);
          Raised(msg)
        case Done(rest) => Done([record] + rest)
  }

  /** A first failure in the boxes after a box that completes is the first
      failure of all of them, one place later. */
  lemma ShiftFirstFailure(p: Processor, scene: Scene, r: DetectorResult, boxes: seq<Box>, msg: string)
    requires |boxes| > 0 && BuildRecord(p, scene, r, boxes[0]).Done?
    requires exists i :: && 0 <= i < |boxes| - 1 && BuildRecord(p, scene, r, boxes[1..][i]) == Raised(msg)
                         && forall k :: 0 <= k < i ==> BuildRecord(p, scene, r, boxes[1..][k]).Done?
    ensures exists i :: && 0 <= i < |boxes| && BuildRecord(p, scene, r, boxes[i]) == Raised(msg)
                        && forall k :: 0 <= k < i ==> BuildRecord(p, scene, r, boxes[k]).Done?
  {
    var i :| && 0 <= i < |boxes| - 1 && BuildRecord(p, scene, r, boxes[1..][i]) == Raised(msg)
             && forall k :: 0 <= k < i ==> BuildRecord(p, scene, r, boxes[1..][k]).Done?;
    forall k | 0 <= k < i + 1 ensures BuildRecord(p, scene, r, boxes[k]).Done? {
      if k > 0 { assert boxes[k] == boxes[1..][k - 1]; }
    }
    assert boxes[i + 1] == boxes[1..][i];
  }

  /** How the outer loop ends without an exception: it ran off the end with
      these records, or it met a result with no boxes. */
  datatype Scan = Finished(records: seq<DetectionRecord>) | NoBoxes

  /** The outer loop over the detector's results (lines 35-95). */
  function ScanResults(p: Processor, scene: Scene, results: seq<DetectorResult>): Attempt<Scan>
    decreases |results|
  {
    if |results| == 0 then Done(Finished([]))
    else if |results[0].boxes| == 0 then Done(NoBoxes)
    else match ScanBoxes(p, scene, results[0], results[0].boxes)
      case Raised(msg) => Raised(msg)
      case Done(records) =>
        match ScanResults(p, scene, results[1..])
        case Raised(msg) => Raised(msg)
        case Done(NoBoxes) => Done(NoBoxes)
        case Done(Finished(rest)) => Done(Finished(records + rest))
  }

  /** `process_image(image_path)`: every fault is turned into an `error`
      record and nothing propagates. */
  function ProcessImage(p: Processor, scene: Scene): (r: ImageResult)
    ensures r.status == NoAnimalDetected ==> r == NoAnimalResult
    ensures r.status == Error ==> r.animalsDetected == 0 && r.detections == [] && r.error.Some?
    ensures r.status == AnimalDetected ==> r.animalsDetected == |r.detections| && r.error.None?
    ensures scene.detection.Raised? ==> r == ErrorResult(scene.detection.msg)
  {
    match scene.detection
    case Raised(msg) => ErrorResult(msg)
    case Done(results) =>
      match ScanResults(p, scene, results)
      case Raised(msg) => ErrorResult(msg)
      case Done(NoBoxes) => NoAnimalResult
      case Done(Finished(records)) => ImageResult(AnimalDetected, |records|, records, None)
  }

  // ------------------------------------------------- reference description

  /** A detector box together with the result it came from. */
  datatype Located = Located(result: DetectorResult, box: Box)

  /** The boxes of one detector result, each with its result. */
  function BoxesOf(r: DetectorResult): (ls: seq<Located>)
    ensures |ls| == |r.boxes|
    ensures forall i :: 0 <= i < |ls| ==> ls[i] == Located(r, r.boxes[i])
  {
    seq(|r.boxes|, i requires 0 <= i < |r.boxes| => Located(r, r.boxes[i]))
  }

  /** All boxes of `results`, result by result, each in detector order. */
  function Flatten(results: seq<DetectorResult>): seq<Located>
    decreases |results|
  {
    if |results| == 0 then [] else BoxesOf(results[0]) + Flatten(results[1..])
  }

  /** The index of the first result with no boxes, if any. */
  function FirstEmpty(results: seq<DetectorResult>): (j: Option<nat>)
    ensures j.Some? ==> j.value < |results| && |results[j.value].boxes| == 0
    ensures j.Some? ==> forall k :: 0 <= k < j.value ==> |results[k].boxes| > 0
    ensures j.None? ==> forall k :: 0 <= k < |results| ==> |results[k].boxes| > 0
    decreases |results|
  {
    if |results| == 0 then None
    else if |results[0].boxes| == 0 then Some(0)
    else match FirstEmpty(results[1..])
      case None => None
      case Some(j) => Some(j + 1)
  }

  /** The results the loop walks through before it stops at an empty one. */
  function Horizon(results: seq<DetectorResult>): seq<DetectorResult>
  {
    match FirstEmpty(results)
    case None => results
    case Some(j) => results[..j]
  }

  function Build(p: Processor, scene: Scene, l: Located): Attempt<DetectionRecord>
  {
    BuildRecord(p, scene, l.result, l.box)
  }

  /** No box of `ls` raises. */
  predicate AllBuild(p: Processor, scene: Scene, ls: seq<Located>)
  {
    forall i :: 0 <= i < |ls| ==> Build(p, scene, ls[i]).Done?
  }

  /** `records` holds exactly one record per box of `ls`, in order. */
  predicate RecordsOf(p: Processor, scene: Scene, ls: seq<Located>, records: seq<DetectionRecord>)
  {
    && |records| == |ls|
    && forall i :: 0 <= i < |ls| ==> Build(p, scene, ls[i]) == Done(records[i])
  }

  /** The first box of `ls` that raises does so with message `msg`. */
  predicate FirstFailure(p: Processor, scene: Scene, ls: seq<Located>, msg: string)
  {
    exists i :: && 0 <= i < |ls| && Build(p, scene, ls[i]) == Raised(msg)
                && forall k :: 0 <= k < i ==> Build(p, scene, ls[k]).Done?
  }

  lemma HorizonCons(results: seq<DetectorResult>)
    requires |results| > 0 && |results[0].boxes| > 0
    ensures Horizon(results) == [results[0]] + Horizon(results[1..])
  {
    var tail := results[1..];
    match FirstEmpty(tail)
    case None =>
      assert results == [results[0]] + tail;
    case Some(j) =>
      assert results[..j + 1] == [results[0]] + tail[..j];
  }

  lemma ConcatFacts(p: Processor, scene: Scene, a: seq<Located>, b: seq<Located>)
    ensures AllBuild(p, scene, a + b) <==> AllBuild(p, scene, a) && AllBuild(p, scene, b)
    ensures forall ra, rb :: RecordsOf(p, scene, a, ra) && RecordsOf(p, scene, b, rb) ==> RecordsOf(p, scene, a + b, ra + rb)
    ensures forall msg :: FirstFailure(p, scene, a, msg) ==> FirstFailure(p, scene, a + b, msg)
    ensures forall msg :: AllBuild(p, scene, a) && FirstFailure(p, scene, b, msg) ==> FirstFailure(p, scene, a + b, msg)
  {
    forall msg | AllBuild(p, scene, a) && FirstFailure(p, scene, b, msg)
      ensures FirstFailure(p, scene, a + b, msg)
    {
      var i :| && 0 <= i < |b| && Build(p, scene, b[i]) == Raised(msg)
               && forall k :: 0 <= k < i ==> Build(p, scene, b[k]).Done?;
      forall k | 0 <= k < |a| + i ensures Build(p, scene, (a + b)[k]).Done? {
        if k < |a| { assert (a + b)[k] == a[k]; } else { assert (a + b)[k] == b[k - |a|]; }
      }
      assert (a + b)[|a| + i] == b[i];
    }
    forall msg | FirstFailure(p, scene, a, msg)
      ensures FirstFailure(p, scene, a + b, msg)
    {
      var i :| && 0 <= i < |a| && Build(p, scene, a[i]) == Raised(msg)
               && forall k :: 0 <= k < i ==> Build(p, scene, a[k]).Done?;
      forall k | 0 <= k < i ensures Build(p, scene, (a + b)[k]).Done? {
        assert (a + b)[k] == a[k];
      }
      assert (a + b)[i] == a[i];
    }
    if AllBuild(p, scene, a) && AllBuild(p, scene, b) {
      forall i | 0 <= i < |a + b|
        ensures Build(p, scene, (a + b)[i]).Done?
      {
        if i >= |a| { assert (a + b)[i] == b[i - |a|]; }
      }
    }
    if AllBuild(p, scene, a + b) {
      forall i | 0 <= i < |b|
        ensures Build(p, scene, b[i]).Done?
      {
        assert (a + b)[|a| + i] == b[i];
      }
      forall i | 0 <= i < |a|
        ensures Build(p, scene, a[i]).Done?
      {
        assert (a + b)[i] == a[i];
      }
    }
  }

  /** The inner loop against the reference: it covers the boxes of one result. */
  lemma ScanBoxesSpec(p: Processor, scene: Scene, r: DetectorResult)
    ensures var a := ScanBoxes(p, scene, r, r.boxes);
            && (a.Done? <==> AllBuild(p, scene, BoxesOf(r)))
            && (a.Done? ==> RecordsOf(p, scene, BoxesOf(r), a.value))
            && (a.Raised? ==> FirstFailure(p, scene, BoxesOf(r), a.msg))
  {
    var a := ScanBoxes(p, scene, r, r.boxes);
    var ls := BoxesOf(r);
    if a.Raised? {
      var i :| && 0 <= i < |r.boxes| && BuildRecord(p, scene, r, r.boxes[i]) == Raised(a.msg)
               && forall k :: 0 <= k < i ==> BuildRecord(p, scene, r, r.boxes[k]).Done?;
      forall k | 0 <= k < i ensures Build(p, scene, ls[k]).Done? {
        assert ls[k].box == r.boxes[k];
      }
      assert Build(p, scene, ls[i]) == Raised(a.msg);
    }
  }

  /** The outer loop, described without recursion: it completes exactly when
      no box before the first empty result raises, and otherwise raises with
      the message of the first such box. */
  lemma {:induction false} ScanResultsOutcome(p: Processor, scene: Scene, results: seq<DetectorResult>)
    ensures var s := ScanResults(p, scene, results); var ls := Flatten(Horizon(results));
            && (s.Done? <==> AllBuild(p, scene, ls))
            && (s.Raised? ==> FirstFailure(p, scene, ls, s.msg))
            && (s.Done? ==> (s.value.NoBoxes? <==> FirstEmpty(results).Some?))
    decreases |results|
  {
    if |results| == 0 || |results[0].boxes| == 0 {
      assert Horizon(results) == [];
    } else {
      var tail := results[1..];
      ScanResultsOutcome(p, scene, tail);
      ScanBoxesSpec(p, scene, results[0]);
      HorizonCons(results);
      assert Flatten(Horizon(results)) == BoxesOf(results[0]) + Flatten(Horizon(tail));
      ConcatFacts(p, scene, BoxesOf(results[0]), Flatten(Horizon(tail)));
    }
  }

  /** When the outer loop runs to the end, it has built one record per box of
      every result, in detector order. */
  lemma {:induction false} ScanResultsRecords(p: Processor, scene: Scene, results: seq<DetectorResult>)
    ensures var s := ScanResults(p, scene, results);
            s.Done? && s.value.Finished? ==> RecordsOf(p, scene, Flatten(results), s.value.records)
    decreases |results|
  {
    if |results| > 0 && |results[0].boxes| > 0 {
      var tail := results[1..];
      ScanResultsRecords(p, scene, tail);
      ScanBoxesSpec(p, scene, results[0]);
      ConcatFacts(p, scene, BoxesOf(results[0]), Flatten(tail));
    }
  }

  /** `process_image` as a whole, described without the loops: the three
      outcomes are told apart by the detector's fault, the first empty result
      and the boxes before it. */
  lemma ProcessImageSpec(p: Processor, scene: Scene)
    ensures var r := ProcessImage(p, scene);
            && (r.status == Error <==>
                  scene.detection.Raised? || !AllBuild(p, scene, Flatten(Horizon(scene.detection.value))))
            && (r.status == NoAnimalDetected <==>
                  && scene.detection.Done?
                  && FirstEmpty(scene.detection.value).Some?
                  && AllBuild(p, scene, Flatten(Horizon(scene.detection.value))))
            && (r.status == AnimalDetected ==>
                  && scene.detection.Done?
                  && FirstEmpty(scene.detection.value).None?
                  && RecordsOf(p, scene, Flatten(scene.detection.value), r.detections))
  {
    if scene.detection.Done? {
      ScanResultsOutcome(p, scene, scene.detection.value);
      ScanResultsRecords(p, scene, scene.detection.value);
    }
  }

  /** A fault on any box the loop reaches turns the whole image into an
      `error` record carrying the message of the first failing box; the
      records of the other boxes are discarded. */
  lemma BoxFaultDiscardsImage(p: Processor, scene: Scene, i: nat)
    requires scene.detection.Done?
    requires i < |Flatten(Horizon(scene.detection.value))|
    requires Build(p, scene, Flatten(Horizon(scene.detection.value))[i]).Raised?
    ensures var r := ProcessImage(p, scene);
            && r.status == Error && r.detections == [] && r.animalsDetected == 0
            && FirstFailure(p, scene, Flatten(Horizon(scene.detection.value)), r.error.value)
  {
    ProcessImageSpec(p, scene);
    ScanResultsOutcome(p, scene, scene.detection.value);
  }

  /** An early zero-box result: when the first result has no boxes the image
      is reported empty, whatever the later results hold. */
  lemma FirstResultEmpty(p: Processor, scene: Scene)
    requires scene.detection.Done? && |scene.detection.value| > 0
    requires |scene.detection.value[0].boxes| == 0
    ensures ProcessImage(p, scene) == NoAnimalResult
  {
  }

  /** The detector returning an empty list is reported as `animal_detected`
      with no detections, not as `no_animal_detected`. */
  lemma EmptyResultListIsAnimalDetected(p: Processor, scene: Scene)
    requires scene.detection == Done([])
    ensures ProcessImage(p, scene) == ImageResult(AnimalDetected, 0, [], None)
  {
  }

  /** With no classifier every record carries the detector's class name for
      its box and repeats the detection confidence. */
  lemma FallbackWithoutClassifier(p: Processor, scene: Scene)
    requires !p.classifierLoaded
    ensures var r := ProcessImage(p, scene);
            r.status == AnimalDetected ==>
              var ls := Flatten(scene.detection.value);
              && |ls| == |r.detections|
              && forall i :: 0 <= i < |r.detections| ==>
                   && TruncToInt(ls[i].box.cls) in ls[i].result.names
                   && r.detections[i].species == ls[i].result.names[TruncToInt(ls[i].box.cls)]
                   && r.detections[i].classificationConfidence == r.detections[i].detectionConfidence
  {
    ProcessImageSpec(p, scene);
  }

  /** With a classifier every record carries the classifier's answer for the
      crop of its box: the top-1 class name and its confidence, or
      `"unknown"` with 0.0 for an empty crop or no prediction. */
  lemma ClassifierLabelsRecords(p: Processor, scene: Scene)
    requires p.classifierLoaded
    ensures var r := ProcessImage(p, scene);
            r.status == AnimalDetected ==>
              var ls := Flatten(scene.detection.value);
              && |ls| == |r.detections|
              && forall i :: 0 <= i < |r.detections| ==>
                   var answer := ClassifyCrop(scene, CornersOf(ls[i].box));
                   && answer.Done?
                   && r.detections[i].species == answer.value.name
                   && r.detections[i].classificationConfidence == answer.value.confidence
                   && r.detections[i].detectionConfidence == ls[i].box.conf
  {
    ProcessImageSpec(p, scene);
  }

  /** The detector's threshold carries through: if every box it returns has
      confidence at least 0.25, so has every record. */
  lemma ThresholdCarriesThrough(p: Processor, scene: Scene)
    requires scene.detection.Done?
    requires forall l :: l in Flatten(scene.detection.value) ==> l.box.conf >= DetectionThreshold
    ensures forall d :: d in ProcessImage(p, scene).detections ==> d.detectionConfidence >= DetectionThreshold
  {
    ProcessImageSpec(p, scene);
    var r := ProcessImage(p, scene);
    if r.status == AnimalDetected {
      var ls := Flatten(scene.detection.value);
      forall d | d in r.detections
        ensures d.detectionConfidence >= DetectionThreshold
      {
        var i :| 0 <= i < |r.detections| && r.detections[i] == d;
        assert ls[i] in ls;
      }
    }
  }

  /** Two boxes labelled "deer" at 0.8 and 0.6 with no classifier give two
      "deer" records whose classification confidences are 0.8 and 0.6. */
  lemma TwoDeerWithoutClassifier(scene: Scene)
    requires scene.detection == Done([DetectorResult(
               [Box(10.7, 20.2, 110.9, 220.5, 0.8, 0.0), Box(-3.5, 5.0, 40.0, 60.0, 0.6, 0.0)],
               map[0 := "deer"])])
    ensures ProcessImage(Processor(false), scene) == ImageResult(AnimalDetected, 2, [
              DetectionRecord("deer", 0.8, 0.8, BoundingBox(10.0, 20.0, 110.0, 220.0)),
              DetectionRecord("deer", 0.6, 0.6, BoundingBox(-3.0, 5.0, 40.0, 60.0))], None)
  {
    var r := scene.detection.value[0];
    assert TruncToInt(-3.5) == -3;
    assert TruncToInt(10.7) == 10;
    assert BuildRecord(Processor(false), scene, r, r.boxes[1])
        == Done(DetectionRecord("deer", 0.6, 0.6, BoundingBox(-3.0, 5.0, 40.0, 60.0)));
    assert BuildRecord(Processor(false), scene, r, r.boxes[0])
        == Done(DetectionRecord("deer", 0.8, 0.8, BoundingBox(10.0, 20.0, 110.0, 220.0)));
  }
}
