/** The lazily created, process-wide instance pattern used by
    `image_processor_singleton`, `batch_processor_singleton` and
    `BatchProcessor._get_processor`: a slot that is `None` until the first
    successful construction and never changes afterwards. */
module Singleton {
  import opened Wrappers

  /** Returns the instance in `slot`, or tries the construction `make` when the
      slot is empty; a construction that raises leaves the slot empty. Result:
      what the call returns (or raises) and the slot afterwards. */
  function GetOrCreate<T(==)>(slot: Option<T>, make: Attempt<T>): (r: (Attempt<T>, Option<T>))
    ensures slot.Some? ==> r == (Done(slot.value), slot)
    ensures slot.None? ==> r.0 == make
    ensures r.1.Some? <==> r.0.Done?
    ensures r.1.Some? ==> r.1.value == r.0.value
  {
    match slot
    case Some(instance) => (Done(instance), slot)
    case None =>
      match make
      case Done(instance) => (Done(instance), Some(instance))
      case Raised(msg) => (Raised(msg), None)
  }

  /** Once a call has succeeded, every later call returns that same instance
      and leaves the slot alone, whatever the later construction would do:
      the constructor runs at most once. */
  lemma ConstructedAtMostOnce<T>(slot: Option<T>, first: Attempt<T>, later: Attempt<T>)
    requires GetOrCreate(slot, first).0.Done?
    ensures var (r1, s1) := GetOrCreate(slot, first);
            GetOrCreate(s1, later) == (r1, s1)
  {
  }
}
