/** The memoising model registry of `app/utils/optimizations.py`: a
    process-wide map from model name to a loaded model, or to `None` when the
    model file was missing at the first request. */
module ModelRegistry {
  import opened Wrappers

  datatype Device = Cuda | Cpu

  /** A loaded model: the file it came from and the device it was moved to. */
  datatype Model = Model(path: string, device: Device)

  /** `_models`: name to loaded model, `None` standing for a missing file. */
  type Cache = map<string, Option<Model>>

  /** `"cuda" if torch.cuda.is_available() else "cpu"`. */
  function SelectDevice(cudaAvailable: bool): (d: Device)
    ensures d == Cuda <==> cudaAvailable
  {
    if cudaAvailable then Cuda else Cpu
  }

  /** `get_model(name, model_path)`: `fileExists` is `os.path.exists(model_path)`,
      `cudaAvailable` is `torch.cuda.is_available()` at the time of the call
      and `load` is how `YOLO(model_path).to(device)` ends. Result: the
      returned model, or the exception that propagates, and the cache
      afterwards. */
  function GetModel(cache: Cache, name: string, path: string, fileExists: bool, cudaAvailable: bool, load: Outcome)
    : (r: (Attempt<Option<Model>>, Cache))
    // a cached entry, even a cached None, is returned and nothing changes
    ensures name in cache ==> r == (Done(cache[name]), cache)
    // only a first request whose load raises fails, and it caches nothing
    ensures r.0.Raised? <==> name !in cache && fileExists && load.Fail?
    ensures r.0.Raised? ==> r == (Raised(load.msg), cache)
    // a completed first request adds exactly the key `name`
    ensures name !in cache && r.0.Done? ==> r.1 == cache[name := r.0.value]
    ensures name !in cache && !fileExists ==> r.0 == Done(None)
    ensures name !in cache && fileExists && load.Pass? ==> r.0 == Done(Some(Model(path, SelectDevice(cudaAvailable))))
    ensures r.0.Done? ==> name in r.1 && r.1[name] == r.0.value
  {
    if name in cache then (Done(cache[name]), cache)
    else if !fileExists then (Done(None), cache[name := None])
    else match load
      case Fail(msg) => (Raised(msg), cache)
      case Pass =>
        var loaded := Some(Model(path, SelectDevice(cudaAvailable)));
        (Done(loaded), cache[name := loaded])
  }

  /** `clear_model_cache()`. */
  function ClearModelCache(cache: Cache): (c: Cache)
    ensures forall name :: name !in c
  {
    map[]
  }

  /** Asking twice is asking once: after a call that returned, a second call
      under the same name returns the same model and leaves the cache as the
      first call left it, whatever the file system and the loader do. */
  lemma GetModelIdempotent(cache: Cache, name: string, path: string, exists1: bool, cuda1: bool, load1: Outcome,
                           path2: string, exists2: bool, cuda2: bool, load2: Outcome)
    requires GetModel(cache, name, path, exists1, cuda1, load1).0.Done?
    ensures var (m1, c1) := GetModel(cache, name, path, exists1, cuda1, load1);
            GetModel(c1, name, path2, exists2, cuda2, load2) == (m1, c1)
  {
  }

  /** A missing file is remembered: once `None` is cached for `name`, later
      calls return `None` even after the file appears. */
  lemma MissingFileSticks(cache: Cache, name: string, path: string, cuda: bool, load: Outcome,
                          later: string, laterExists: bool, laterCuda: bool, laterLoad: Outcome)
    requires name !in cache
    ensures var (_, c1) := GetModel(cache, name, path, false, cuda, load);
            GetModel(c1, name, later, laterExists, laterCuda, laterLoad).0 == Done(None)
  {
  }

  /** A failed load is not remembered: the exception propagates, the cache
      is unchanged, and the next request tries to load again. */
  lemma LoadFaultRetried(cache: Cache, name: string, path: string, cuda: bool, msg: string,
                         later: string, laterCuda: bool)
    requires name !in cache
    ensures var (m1, c1) := GetModel(cache, name, path, true, cuda, Fail(msg));
            && m1 == Raised(msg) && c1 == cache
            && GetModel(c1, name, later, true, laterCuda, Pass).0 == Done(Some(Model(later, SelectDevice(laterCuda))))
  {
  }

  /** A first-time request changes no other entry, and adds `name` exactly
      when it returns. */
  lemma LoadTouchesOnlyName(cache: Cache, name: string, path: string, fileExists: bool, cuda: bool, load: Outcome)
    ensures var (m1, c1) := GetModel(cache, name, path, fileExists, cuda, load);
            && c1.Keys == cache.Keys + (if m1.Done? then {name} else {})
            && forall other :: other in cache && other != name ==> c1[other] == cache[other]
  {
  }

  /** The cache is keyed by name only: a later request under the same name
      with another path gets the model loaded from the first path. */
  lemma NameShadowsPath(cache: Cache, name: string, path: string, cuda: bool,
                        otherPath: string, cuda2: bool, load2: Outcome)
    requires name !in cache
    ensures var (m1, c1) := GetModel(cache, name, path, true, cuda, Pass);
            GetModel(c1, name, otherPath, true, cuda2, load2).0 == Done(Some(Model(path, SelectDevice(cuda))))
  {
  }

  /** After clearing, the next request loads again, on the device available
      at that time. */
  lemma ClearThenReload(cache: Cache, name: string, path: string, fileExists: bool, cuda: bool, load: Outcome)
    ensures GetModel(ClearModelCache(cache), name, path, fileExists, cuda, load).0 ==
            if !fileExists then Done(None)
            else if load.Pass? then Done(Some(Model(path, SelectDevice(cuda))))
            else Raised(load.msg)
  {
  }

  /** The dict `get_device_info` returns. */
  datatype DeviceInfo = DeviceInfo(cudaAvailable: bool, deviceCount: nat, currentDevice: Option<nat>)

  /** `get_device_info()`: `count` and `current` are what torch would report
      when CUDA is available; they are not consulted otherwise. */
  function GetDeviceInfo(cudaAvailable: bool, count: nat, current: nat): (info: DeviceInfo)
    ensures info.cudaAvailable == cudaAvailable
    ensures !cudaAvailable ==> info.deviceCount == 0 && info.currentDevice == None
    ensures cudaAvailable ==> info.deviceCount == count && info.currentDevice == Some(current)
  {
    if cudaAvailable then DeviceInfo(true, count, Some(current)) else DeviceInfo(false, 0, None)
  }

  /** The device info agrees with the device `get_model` picks. */
  lemma DeviceInfoAgreesWithSelection(cudaAvailable: bool, count: nat, current: nat)
    ensures GetDeviceInfo(cudaAvailable, count, current).currentDevice.Some?
            <==> SelectDevice(cudaAvailable) == Cuda
  {
  }
}
