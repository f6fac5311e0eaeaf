/** Batch orchestration of `app/pipeline/batch_processor.py`: every image of
    a batch is run through the pipeline (concurrently in the source; here the
    gathered outcomes are a sequence in path order) and the outcomes are
    folded into counters and a species tally. */
module BatchProcessor {
  import opened Wrappers
  import Seqs
  import Singleton
  import IP = ImageProcessor

  const AnimalDetectedStatus := "animal_detected"
  /** The status the aggregation counts as an empty image. */
  const NoAnimalStatus := "no_animal"
  const UnknownName := "Unknown"

  /** The `"species"` entry of a result dict: absent, or a dict whose
      `"name"` entry may be absent. */
  datatype SpeciesEntry = NoSpeciesKey | SpeciesDict(name: Option<string>)

  /** The two entries of a per-image result dict that the aggregation reads:
      `result.get("status")` and `result.get("species", {})`. */
  datatype ResultDict = ResultDict(status: Option<string>, species: SpeciesEntry)

  /** The counters of the batch summary. */
  datatype Tally = Tally(
    animalsDetected: nat,
    emptyImages: nat,
    lowQuality: nat,
    speciesCount: map<string, nat>)

  /** The dict `process_batch` returns, without `processing_time`. */
  datatype BatchSummary = BatchSummary(totalImages: nat, tally: Tally)

  /** A `BatchProcessor` instance: its lazily fetched image processor. */
  datatype BatchProcessor = BatchProcessor(imageProcessor: Option<IP.Processor>)

  /** Which counter one gathered outcome feeds. */
  datatype Verdict = Animal(species: string) | Empty | LowQuality

  /** `result.get("species", {}).get("name", "Unknown")`. */
  function SpeciesName(d: ResultDict): (name: string)
    ensures d.species.NoSpeciesKey? ==> name == UnknownName
    ensures d.species.SpeciesDict? ==> name == if d.species.name.Some? then d.species.name.value else UnknownName
  {
    match d.species
    case NoSpeciesKey => UnknownName
    case SpeciesDict(None) => UnknownName
    case SpeciesDict(Some(n)) => n
  }

  /** The branches of the aggregation loop (lines 41-52) for one outcome: an
      exception or an unrecognised status is low quality; only the exact
      statuses `"animal_detected"` and `"no_animal"` count otherwise. */
  function VerdictOf(o: Attempt<ResultDict>): (v: Verdict)
    ensures v.Animal? <==> o.Done? && o.value.status == Some(AnimalDetectedStatus)
    ensures v.Animal? ==> v.species == SpeciesName(o.value)
    ensures v.Empty? <==> o.Done? && o.value.status == Some(NoAnimalStatus)
    ensures o.Raised? ==> v == LowQuality
  {
    match o
    case Raised(_) => LowQuality
    case Done(d) =>
      if d.status == Some(AnimalDetectedStatus) then Animal(SpeciesName(d))
      else if d.status == Some(NoAnimalStatus) then Empty
      else LowQuality
  }

  /** `species_count[species] = species_count.get(species, 0) + 1`. */
  function Increment(m: map<string, nat>, k: string): (m': map<string, nat>)
    ensures m'.Keys == m.Keys + {k}
    ensures m'[k] == (if k in m then m[k] else 0) + 1
    ensures forall j :: j in m && j != k ==> m'[j] == m[j]
  {
    m[k := (if k in m then m[k] else 0) + 1]
  }

  /** One iteration of the aggregation loop. */
  function Step(t: Tally, o: Attempt<ResultDict>): Tally
  {
    match VerdictOf(o)
    case Animal(name) => t.(animalsDetected := t.animalsDetected + 1,
                            speciesCount := Increment(t.speciesCount, name))
    case Empty => t.(emptyImages := t.emptyImages + 1)
    case LowQuality => t.(lowQuality := t.lowQuality + 1)
  }

  const Zero := Tally(0, 0, 0, map[])

  /** The aggregation loop after the outcomes `os`, in order. Every outcome
      feeds exactly one of the three counters. */
  function Aggregate(os: seq<Attempt<ResultDict>>): (t: Tally)
    ensures t.animalsDetected + t.emptyImages + t.lowQuality == |os|
    decreases |os|
  {
    if |os| == 0 then Zero else Step(Aggregate(os[..|os| - 1]), os[|os| - 1])
  }

  function Verdicts(os: seq<Attempt<ResultDict>>): seq<Verdict>
  {
    Seqs.Map(VerdictOf, os)
  }

  /** The last outcome's verdict is added to the verdicts of the others. */
  lemma VerdictsSnoc(os: seq<Attempt<ResultDict>>)
    requires |os| > 0
    ensures multiset(Verdicts(os)) == multiset(Verdicts(os[..|os| - 1])) + multiset{VerdictOf(os[|os| - 1])}
  {
    var init := os[..|os| - 1];
    var last := os[|os| - 1];
    assert os == init + [last];
    Seqs.MapAppend(VerdictOf, init, [last]);
    assert Verdicts(os) == Verdicts(init) + [VerdictOf(last)];
  }

  /** The counters are the multiplicities of the outcomes' verdicts: empty
      and low-quality images are counted exactly. */
  lemma {:induction false} AggregateCounters(os: seq<Attempt<ResultDict>>)
    ensures Aggregate(os).emptyImages == multiset(Verdicts(os))[Empty]
    ensures Aggregate(os).lowQuality == multiset(Verdicts(os))[LowQuality]
    decreases |os|
  {
    if |os| > 0 {
      AggregateCounters(os[..|os| - 1]);
      VerdictsSnoc(os);
    }
  }

  /** The tally holds exactly the species named by `animal_detected`
      outcomes, each with the number of such outcomes naming it. */
  lemma {:induction false} AggregateTally(os: seq<Attempt<ResultDict>>)
    ensures var t := Aggregate(os); var vs := multiset(Verdicts(os));
            && (forall k :: k in t.speciesCount <==> vs[Animal(k)] > 0)
            && (forall k :: k in t.speciesCount ==> t.speciesCount[k] == vs[Animal(k)])
    decreases |os|
  {
    if |os| > 0 {
      var init := os[..|os| - 1];
      AggregateTally(init);
      VerdictsSnoc(os);
      var v := VerdictOf(os[|os| - 1]);
      var m := Aggregate(init).speciesCount;
      var vs0 := multiset(Verdicts(init));
      var vs := multiset(Verdicts(os));
      if v.Animal? {
        var m' := Increment(m, v.species);
        assert Aggregate(os).speciesCount == m';
        forall k
          ensures (k in m' <==> vs[Animal(k)] > 0) && (k in m' ==> m'[k] == vs[Animal(k)])
        {
          if k == v.species {
            assert vs[Animal(k)] == vs0[Animal(k)] + 1;
          } else {
            assert vs[Animal(k)] == vs0[Animal(k)];
          }
        }
      } else {
        assert Aggregate(os).speciesCount == m;
        forall k
          ensures vs[Animal(k)] == vs0[Animal(k)]
        {
        }
      }
    }
  }

  /** The order in which the gathered outcomes are aggregated does not
      matter: permuted outcomes give the same counters and the same tally. */
  lemma AggregatePermutation(os: seq<Attempt<ResultDict>>, os': seq<Attempt<ResultDict>>)
    requires multiset(os) == multiset(os')
    ensures Aggregate(os) == Aggregate(os')
  {
    Seqs.MapPermutation(VerdictOf, os, os');
    AggregateCounters(os);
    AggregateCounters(os');
    AggregateTally(os);
    AggregateTally(os');
    assert |os| == |multiset(os)| == |os'|;
    var t, t' := Aggregate(os), Aggregate(os');
    assert t.speciesCount.Keys == t'.speciesCount.Keys;
    assert t.speciesCount == t'.speciesCount;
  }

  /** The sum of the values of `m` at the keys `ks`. */
  ghost function SumOver(m: map<string, nat>, ks: set<string>): nat
    requires ks <= m.Keys
    decreases ks
  {
    if ks == {} then 0 else var k :| k in ks; m[k] + SumOver(m, ks - {k})
  }

  /** The sum of the values of a tally map. */
  ghost function Total(m: map<string, nat>): nat
  {
    SumOver(m, m.Keys)
  }

  /** The sum may be taken starting from any key. */
  lemma {:induction false} SumOverRemove(m: map<string, nat>, ks: set<string>, k: string)
    requires ks <= m.Keys && k in ks
    ensures SumOver(m, ks) == m[k] + SumOver(m, ks - {k})
    decreases ks
  {
    var k' :| k' in ks && SumOver(m, ks) == m[k'] + SumOver(m, ks - {k'});
    if k' != k {
      SumOverRemove(m, ks - {k'}, k);
      SumOverRemove(m, ks - {k}, k');
      assert ks - {k'} - {k} == ks - {k} - {k'};
    }
  }

  /** The sum only depends on the values at the keys summed over. */
  lemma {:induction false} SumOverAgree(m: map<string, nat>, m': map<string, nat>, ks: set<string>)
    requires ks <= m.Keys && ks <= m'.Keys
    requires forall k :: k in ks ==> m[k] == m'[k]
    ensures SumOver(m, ks) == SumOver(m', ks)
    decreases ks
  {
    if ks != {} {
      var k :| k in ks && SumOver(m, ks) == m[k] + SumOver(m, ks - {k});
      SumOverRemove(m', ks, k);
      SumOverAgree(m, m', ks - {k});
    }
  }

  /** Incrementing one entry adds one to the sum. */
  lemma IncrementTotal(m: map<string, nat>, k: string)
    ensures Total(Increment(m, k)) == Total(m) + 1
  {
    var m' := Increment(m, k);
    SumOverRemove(m', m'.Keys, k);
    SumOverAgree(m, m', m.Keys - {k});
    if k in m {
      SumOverRemove(m, m.Keys, k);
      assert m'.Keys - {k} == m.Keys - {k};
    } else {
      assert m'.Keys - {k} == m.Keys - {k} == m.Keys;
    }
  }

  /** The values of the species tally add up to `animals_detected`. */
  lemma {:induction false} TallySumsToAnimals(os: seq<Attempt<ResultDict>>)
    ensures Total(Aggregate(os).speciesCount) == Aggregate(os).animalsDetected
    decreases |os|
  {
    if |os| > 0 {
      var init := os[..|os| - 1];
      TallySumsToAnimals(init);
      var v := VerdictOf(os[|os| - 1]);
      if v.Animal? {
        IncrementTotal(Aggregate(init).speciesCount, v.species);
      }
    }
  }

  // ---------------------------------------------------- per-image outcomes

  /** The dict `process_image` returns, as the aggregation sees it: its
      status string, and no `"species"` key at the top level. */
  function AsDict(r: IP.ImageResult): ResultDict
  {
    ResultDict(Some(IP.StatusText(r.status)), NoSpeciesKey)
  }

  /** `_process_single_image` (lines 58-64): an exception becomes a dict with
      status `"error"`; its `"error"` entry is never read by the aggregation. */
  function ProcessSingleImage(run: Attempt<ResultDict>): (d: ResultDict)
    ensures run.Done? ==> d == run.value
    ensures run.Raised? ==> d.status == Some("error") && VerdictOf(Done(d)) == LowQuality
  {
    match run
    case Done(d) => d
    case Raised(_) => ResultDict(Some("error"), NoSpeciesKey)
  }

  /** `_get_processor`: the first call fetches the image-processor singleton
      (`slot`) and keeps it; later calls return the kept one. Result: what
      the call returns or raises, the batch processor afterwards and the
      singleton slot afterwards. */
  function GetProcessor(bp: BatchProcessor, slot: Option<IP.Processor>, files: IP.ModelFiles)
    : (r: (Attempt<IP.Processor>, BatchProcessor, Option<IP.Processor>))
    ensures bp.imageProcessor.Some? ==> r == (Done(bp.imageProcessor.value), bp, slot)
    ensures r.0.Raised? <==> bp.imageProcessor.None? && slot.None? && !files.detectorPresent
    ensures r.0.Raised? ==> r.1 == bp && r.2 == slot
    ensures r.0.Done? ==> r.1.imageProcessor == Some(r.0.value)
    ensures bp.imageProcessor.None? && r.0.Done? ==> r.2 == Some(r.0.value)
    // with nothing held, the answer is exactly the singleton's
    ensures bp.imageProcessor.None? ==> (r.0, r.2) == IP.ImageProcessorSingleton(slot, files)
  {
    if bp.imageProcessor.Some? then (Done(bp.imageProcessor.value), bp, slot)
    else
      var (fetched, slot') := IP.ImageProcessorSingleton(slot, files);
      var (got, kept) := Singleton.GetOrCreate(bp.imageProcessor, fetched);
      (got, BatchProcessor(kept), slot')
  }

  /** Once `_get_processor` has succeeded it keeps returning the same
      processor and changes nothing, whatever the model files are later. */
  lemma GetProcessorStable(bp: BatchProcessor, slot: Option<IP.Processor>, files: IP.ModelFiles, later: IP.ModelFiles)
    requires GetProcessor(bp, slot, files).0.Done?
    ensures var (p, bp', slot') := GetProcessor(bp, slot, files);
            GetProcessor(bp', slot', later) == (p, bp', slot')
  {
  }

  /** The outcome gathered for each path, in path order: `run(p, path)` is
      what `process_image` returned or raised for that path. */
  function Gathered(p: IP.Processor, paths: seq<string>, run: (IP.Processor, string) -> Attempt<ResultDict>)
    : (os: seq<Attempt<ResultDict>>)
    ensures |os| == |paths|
    ensures forall i :: 0 <= i < |paths| ==> os[i] == Done(ProcessSingleImage(run(p, paths[i])))
  {
    seq(|paths|, i requires 0 <= i < |paths| => Done(ProcessSingleImage(run(p, paths[i]))))
  }

  /** `process_batch(image_paths, project_id)`: fetch the processor (which
      may raise), run every path and aggregate. Result: the summary or the
      exception, the batch processor afterwards and the singleton slot
      afterwards. */
  function ProcessBatch(bp: BatchProcessor, slot: Option<IP.Processor>, files: IP.ModelFiles,
                        paths: seq<string>, run: (IP.Processor, string) -> Attempt<ResultDict>)
    : (r: (Attempt<BatchSummary>, BatchProcessor, Option<IP.Processor>))
    ensures r.0.Raised? <==> GetProcessor(bp, slot, files).0.Raised?
    ensures r.0.Done? ==> r.0.value.totalImages == |paths|
    ensures r.0.Done? ==>
              var t := r.0.value.tally;
              t.animalsDetected + t.emptyImages + t.lowQuality == r.0.value.totalImages
    ensures r.0.Done? ==> r.1.imageProcessor.Some?
    // the batch runs on what `_get_processor` returned and keeps its state
    ensures var g := GetProcessor(bp, slot, files);
            && r.1 == g.1 && r.2 == g.2
            && (g.0.Raised? ==> r.0 == Raised(g.0.msg))
            && (g.0.Done? ==> r.0.Done? && r.1.imageProcessor == Some(g.0.value))
    // the summary folds the outcome of every path, run on the fetched processor
    ensures r.0.Done? ==> r.0.value.tally == Aggregate(Gathered(r.1.imageProcessor.value, paths, run))
  {
    var (got, bp', slot') := GetProcessor(bp, slot, files);
    match got
    case Raised(msg) => (Raised(msg), bp', slot')
    case Done(p) => (Done(BatchSummary(|paths|, Aggregate(Gathered(p, paths, run)))), bp', slot')
  }

  /** `batch_processor_singleton()`: `slot` is `_batch_processor_instance`;
      construction cannot fail. Result: the instance and the slot afterwards. */
  function BatchProcessorSingleton(slot: Option<BatchProcessor>): (r: (BatchProcessor, Option<BatchProcessor>))
    ensures slot.Some? ==> r == (slot.value, slot)
    ensures slot.None? ==> r.0 == BatchProcessor(None)
    ensures r.1 == Some(r.0)
  {
    var (got, slot') := Singleton.GetOrCreate(slot, Done(BatchProcessor(None)));
    (got.value, slot')
  }

  // ------------------------------------------- composed with the pipeline

  /** `process_image` as the per-path task, with `sceneOf` giving what the
      foreign code does for each path. */
  function PipelineRun(sceneOf: string -> IP.Scene): (IP.Processor, string) -> Attempt<ResultDict>
  {
    (p: IP.Processor, path: string) => Done(AsDict(IP.ProcessImage(p, sceneOf(path))))
  }

  /** What every gathered outcome looks like when the tasks are the
      pipeline: a dict with one of the pipeline's three statuses and no
      top-level `"species"` key. */
  predicate FromPipeline(o: Attempt<ResultDict>)
  {
    && o.Done? && o.value.species == NoSpeciesKey
    && o.value.status in {Some("no_animal_detected"), Some("animal_detected"), Some("error")}
  }

  /** Fed with pipeline outcomes, the aggregation never counts an empty
      image (the pipeline says `"no_animal_detected"`, the loop looks for
      `"no_animal"`), and the tally only ever holds `"Unknown"` (the pipeline
      puts species inside `detections`, the loop reads a top-level key). */
  lemma {:induction false} AggregateOverPipeline(os: seq<Attempt<ResultDict>>)
    requires forall i :: 0 <= i < |os| ==> FromPipeline(os[i])
    ensures Aggregate(os).emptyImages == 0
    ensures Aggregate(os).speciesCount ==
              if Aggregate(os).animalsDetected == 0 then map[] else map[UnknownName := Aggregate(os).animalsDetected]
    decreases |os|
  {
    if |os| > 0 {
      AggregateOverPipeline(os[..|os| - 1]);
    }
  }

  /** A whole batch run through the pipeline: no empty images, and every
      image with animals is tallied under `"Unknown"`. */
  lemma BatchOverPipeline(bp: BatchProcessor, slot: Option<IP.Processor>, files: IP.ModelFiles,
                          paths: seq<string>, sceneOf: string -> IP.Scene)
    ensures var r := ProcessBatch(bp, slot, files, paths, PipelineRun(sceneOf)).0;
            r.Done? ==>
              && r.value.tally.emptyImages == 0
              && r.value.tally.speciesCount.Keys <= {UnknownName}
              && (r.value.tally.animalsDetected > 0 ==>
                    && UnknownName in r.value.tally.speciesCount
                    && r.value.tally.speciesCount[UnknownName] == r.value.tally.animalsDetected)
  {
    var (got, _, _) := GetProcessor(bp, slot, files);
    if got.Done? {
      var os := Gathered(got.value, paths, PipelineRun(sceneOf));
      forall i | 0 <= i < |os|
        ensures FromPipeline(os[i])
      {
        var st := IP.ProcessImage(got.value, sceneOf(paths[i])).status;
        assert IP.StatusText(st) in {"no_animal_detected", "animal_detected", "error"};
      }
      AggregateOverPipeline(os);
    }
  }

  /** Three images: one with no boxes, one fox that the classifier names, one
      the detector cannot read. The source reports one animal under
      `"Unknown"`, no empty image and two low-quality images. */
  lemma ThreeImageBatch(empty: IP.Scene, fox: IP.Scene, broken: IP.Scene)
    requires empty.detection == Done([IP.DetectorResult([], map[])])
    requires fox.detection == Done([IP.DetectorResult([IP.Box(1.0, 1.0, 50.0, 40.0, 0.9, 0.0)], map[0 := "animal"])])
    requires fox.imageLoaded && !fox.cropEmpty(IP.Corners(1, 1, 50, 40))
    requires fox.classify(IP.Corners(1, 1, 50, 40)) == Done([IP.Classification(Some(IP.Probs(3, 0.95)), map[3 := "fox"])])
    requires broken.detection.Raised?
    ensures var os := [Done(AsDict(IP.ProcessImage(IP.Processor(true), empty))),
                       Done(AsDict(IP.ProcessImage(IP.Processor(true), fox))),
                       Done(AsDict(IP.ProcessImage(IP.Processor(true), broken)))];
            Aggregate(os) == Tally(1, 0, 2, map[UnknownName := 1])
  {
    var p := IP.Processor(true);
    var r := fox.detection.value[0];
    assert IP.CornersOf(r.boxes[0]) == IP.Corners(1, 1, 50, 40);
    assert IP.BuildRecord(p, fox, r, r.boxes[0]).Done?;
    assert IP.ProcessImage(p, fox).status == IP.AnimalDetected;
    assert IP.ProcessImage(p, empty).status == IP.NoAnimalDetected;
    var os := [Done(AsDict(IP.ProcessImage(p, empty))),
               Done(AsDict(IP.ProcessImage(p, fox))),
               Done(AsDict(IP.ProcessImage(p, broken)))];
    assert VerdictOf(os[0]) == LowQuality;
    assert VerdictOf(os[1]) == Animal(UnknownName);
    assert VerdictOf(os[2]) == LowQuality;
    assert os[..1] == [os[0]];
    assert os[..2][..1] == [os[0]];
    assert os[..2] == [os[0], os[1]];
    assert Aggregate(os[..1]) == Tally(0, 0, 1, map[]);
    assert Aggregate(os[..2]) == Tally(1, 0, 1, map[UnknownName := 1]);
  }
}
