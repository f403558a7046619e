# Adaptive checkpointer, modelled in Dafny

This project models the checkpoint scheduling and storage engine of the
adaptive checkpointer, a library for optimistic event simulation that decides
at which events to snapshot state and where to keep the snapshots.

- `AdaptiveCheckpointer` (adaptive_checkpointer/core.py) is a class in
  `core.dfy`. It keeps exponentially spaced checkpoint levels, rebuilds them
  from a clamped smoothed rollback depth at most once per `10 * base_interval`
  events, and answers "checkpoint here?" by testing divisibility against the
  levels. It also keeps a sorted list of saved event ids beside a dictionary of
  payloads, with floor lookup (`bisect_right`), a bounded FIFO rollback history
  and window pruning.
- The value-level parts of that class are in `core_spec.dfy`: level
  generation, the smoothed average, truncation, the clamp, the deque append,
  the list filter and `max` are functions with lemmas about them. `bisect_right`
  is a method with a binary-search loop, and `insort` is a method built on it
  without a loop of its own.
- `MemoryStorage` and `TieredBackend` (adaptive_checkpointer/backends.py) are
  classes in `backends.dfy`. Each layer is a map-backed store whose missing ids
  read as `b''`. The tiered backend routes a write to the first layer whose
  threshold is at least the id, falling back to the last layer. A read probes
  the layers in list order and returns the first non-empty payload. `Route`
  states the write policy as a function of the layers' thresholds. `Probe`
  states the read policy as a function of the layers' contents. The two
  methods are proved against them.
- `common.dfy` holds the payload type, `Option` and sortedness.

The state codec (`efficient_serialize_state` / `efficient_deserialize_state`) is
a pair of function values `encode: S -> Bytes` and `decode: Bytes -> S` given to
the constructor. Nothing is assumed about what they compute.

A reader might expect some behaviours that the code does not have. The model
follows the code:

- The sorted id list is not deduplicated. A re-save of an id adds a second copy
  of the id, because `insort` does not deduplicate. The payload dictionary
  still holds one entry per id: the newest.
- The checkpointer keeps payloads in its own dictionary, not in a tiered
  backend.
- There is no corruption reporting. A lookup whose stored payload is missing
  raises no checkpoint-corruption error.
- A non-positive level is not guarded against in the code. The model proves
  that it cannot arise: every level is positive, because the base interval is
  positive and the smoothed interval is clamped to at least 1.
- Pruning does not always keep the checkpoint that a floor lookup of
  `current_event` would have chosen. `PruneKeepsFloor` proves that a floor at
  or above the retention bound is still the floor after pruning. The
  ensures of `KeepFrom` state the other half: an id below the bound is
  removed. `PruneCanLoseFloor` exhibits a case where nothing survives: one
  checkpoint at 0, event 10000, largest level 400.
- The round trip through the tiered backend holds only while the layer list
  stays fixed. After a layer is appended, a re-save of an id that had fallen
  back to the old last layer goes to the new last layer. A load then still
  returns the older copy from the earlier layer (`StaleAfterNewLayer`).

## Model

| member | source | states |
|---|---|---|
| `Core.AdaptiveCheckpointer.constructor` | adaptive_checkpointer/core.py:7-27 | the payload dictionary, the id list and the history start empty; `last_adaptation_event` is 0; the trigger is `10 * base_interval`; the levels are `Levels(base_interval, max_levels)`; the object invariant holds |
| `Core.ConstructedLevels` | adaptive_checkpointer/core.py:27-31 | after construction there are exactly `max_levels` levels, level i is `base_interval * 2^i`, and they strictly increase |
| `CoreSpec.LevelsShape` | adaptive_checkpointer/core.py:29-31 | with a positive base the first level is the base, each level doubles the previous one, and the list is positive and strictly increasing |
| `CoreSpec.Levels` | adaptive_checkpointer/core.py:28-31 | the comprehension over `range(max_levels)` gives exactly `max_levels` levels, the first of them the base; it also builds the rebuilt levels at core.py:53 |
| `CoreSpec.Pow2` | adaptive_checkpointer/core.py:31 | `2 ** i` for a non-negative exponent is at least 1, so every level has the sign of the base; the same power builds the rebuilt levels at core.py:53 |
| `CoreSpec.Pow2StrictlyIncreasing` | adaptive_checkpointer/core.py:31 | `2 ** i < 2 ** j` whenever `i < j` |
| `CoreSpec.InitialLevelsExample` | adaptive_checkpointer/core.py:27-31 | base 100 with three levels gives `[100, 200, 400]` |
| `CoreSpec.MaxOf` | adaptive_checkpointer/core.py:92 | `max` returns an element of the list that no element exceeds |
| `CoreSpec.MaxOfLevels` | adaptive_checkpointer/core.py:92 | the largest level is the last one, `base * 2^(max_levels - 1)` |
| `CoreSpec.Trunc` | adaptive_checkpointer/core.py:40 | `int()` truncates toward zero: the result is within 1 of the value and on the zero side of it |
| `CoreSpec.Sum` | adaptive_checkpointer/core.py:37 | `sum(rollback_depths)` of non-negative depths is non-negative |
| `CoreSpec.SumAppend` | adaptive_checkpointer/core.py:37 | appending a depth to a list adds exactly that depth to its sum |
| `CoreSpec.SumBetween` | adaptive_checkpointer/core.py:37 | a sum of `n` depths, each in `[lo, hi]`, lies in `[n*lo, n*hi]` |
| `CoreSpec.Mean` | adaptive_checkpointer/core.py:37 | a history of identical depths averages to that depth |
| `CoreSpec.MeanWithin` | adaptive_checkpointer/core.py:37 | when every depth lies in `[lo, hi]`, so does the average |
| `CoreSpec.Smoothed` | adaptive_checkpointer/core.py:37-38 | a history of identical depths smooths to that depth times the decay factor |
| `CoreSpec.SmoothedBetween` | adaptive_checkpointer/core.py:37-38 | with a non-negative decay factor and every depth in `[lo, hi]`, the smoothed value lies in `[lo*decay, hi*decay]` |
| `CoreSpec.Clamp` | adaptive_checkpointer/core.py:40 | `max(1, min(t, hi))` is at least 1 and, when `hi >= 1`, at most `hi`; a value inside `[1, hi]` is kept, one below 1 becomes 1, one above `hi` becomes `hi` (or 1 when `hi < 1`) |
| `CoreSpec.DynamicThreshold` | adaptive_checkpointer/core.py:33-40 | an empty history gives the base interval; otherwise a truncated smoothed value inside `[1, 10*base]` is returned as is, one below 1 gives 1, one above gives `10*base` (or 1 when `10*base < 1`); so with a positive base the result always lies in `[1, 10*base]` |
| `Core.AdaptiveCheckpointer.DynamicThresholdNow` | adaptive_checkpointer/core.py:33-40 | on a valid checkpointer the threshold lies in `[1, 10*base_interval]` and is the base interval while no rollback is recorded |
| `CoreSpec.DynamicThresholdExample` | adaptive_checkpointer/core.py:35-40 | history `[10, 20, 30]` with decay 0.9 gives 18 |
| `CoreSpec.DividesAny` | adaptive_checkpointer/core.py:57 | true exactly when the id is a multiple of some level |
| `Core.AdaptiveCheckpointer.ShouldCheckpoint` | adaptive_checkpointer/core.py:42-57 | id 0 returns true and leaves the levels and `last_adaptation_event` alone; otherwise the levels become `Levels(DynamicThreshold(history), max_levels)` and `last_adaptation_event` becomes the id exactly when `id - last_adaptation_event >= 10*base`, else both are unchanged; the result is true iff the id is a multiple of some current level; the invariant (positive, strictly increasing levels) is kept |
| `Core.SchedulingScenario` | adaptive_checkpointer/core.py:47-57 | with base 100 and three levels, ids 0, 100 and 200 checkpoint and 150 does not |
| `CoreSpec.BisectRight` | adaptive_checkpointer/core.py:73 | on a sorted list, the returned position has every element `<= x` before it and every element `> x` from it on |
| `CoreSpec.Insort` | adaptive_checkpointer/core.py:66 | inserting into a sorted list gives a sorted list with exactly one more copy of the id |
| `Core.AdaptiveCheckpointer.SaveCheckpoint` | adaptive_checkpointer/core.py:59-66 | the dictionary maps the id to the newly encoded payload and is otherwise unchanged; the id list gains one copy of the id and stays sorted; list elements and dictionary keys stay equal sets |
| `Core.AdaptiveCheckpointer.GetLastCheckpoint` | adaptive_checkpointer/core.py:68-79 | returns `(-1, None)` exactly when every saved id exceeds the target; otherwise returns the largest saved id `<= target` and the decoding of its latest payload |
| `Core.FloorScenario` | adaptive_checkpointer/core.py:73-79 | with checkpoints at 0, 100 and 200, the floor of 150 is 100 with its payload, and a lookup at -1 finds nothing |
| `CoreSpec.BoundedAppend` | adaptive_checkpointer/core.py:86 | appending to the bounded deque keeps the newest `adaptation_window` elements of the history plus the depth; when the window is positive the depth is the newest element, and with `maxlen=0` the result is empty |
| `CoreSpec.SumBoundedAppend` | adaptive_checkpointer/core.py:86 | after `rollback_depths.append(depth)` the sum grows by the depth, less the oldest depth when the deque was full and evicts it |
| `CoreSpec.AppendAllIsNewest` | adaptive_checkpointer/core.py:17 | after any number of appends, the history is the newest `adaptation_window` of everything recorded, in insertion order |
| `Core.AdaptiveCheckpointer.RecordRollback` | adaptive_checkpointer/core.py:81-86 | the history becomes the bounded append of the depth, and its length stays at most `adaptation_window` |
| `Core.AdaptiveCheckpointer.KeepBound` | adaptive_checkpointer/core.py:92 | the retention bound lies below the current event, by twice the coarsest (last) level, and is no larger than the current event minus twice any level |
| `CoreSpec.KeepFrom` | adaptive_checkpointer/core.py:94-96 | the filtered list holds every copy of each id at or above the bound and nothing below it |
| `CoreSpec.KeepFromSorted` | adaptive_checkpointer/core.py:94-96 | filtering a sorted list leaves it sorted |
| `Core.AdaptiveCheckpointer.OptimizeStorage` | adaptive_checkpointer/core.py:88-100 | the id list is the old list filtered at `current_event - 2*max(levels)`; no remaining id is below that bound; every id at or above it keeps its payload; sortedness and the list-equals-keys invariant are kept |
| `CoreSpec.PruneKeepsFloor` | adaptive_checkpointer/core.py:92-96 | a floor of the target that lies at or above the bound is still the floor after pruning |
| `CoreSpec.PruneCanLoseFloor` | adaptive_checkpointer/core.py:92-96 | a checkpoint that is the floor of the current event can lie below the bound, and pruning then removes it |
| `Backends.MemoryStorage.Save` | adaptive_checkpointer/backends.py:26-27 | the map changes only at the event id, which now holds the payload |
| `Backends.MemoryStorage.Load` | adaptive_checkpointer/backends.py:29-30 | a stored id returns its payload and an unknown id returns `b''` |
| `Backends.Get` | adaptive_checkpointer/backends.py:30 | `dict.get(event_id, b'')`: a stored id reads as its payload, and a non-empty read comes only from a stored id |
| `Backends.MemoryStorage.constructor` | adaptive_checkpointer/backends.py:22-24 | a fresh store holds no entry, so every id reads as `b''` |
| `Backends.MemoryRoundTrip` | adaptive_checkpointer/backends.py:26-30 | load after save returns the saved payload, and every other id reads as before |
| `Backends.MemoryMiss` | adaptive_checkpointer/backends.py:22-30 | a fresh store reads every id as `b''` |
| `Backends.TieredBackend.constructor` | adaptive_checkpointer/backends.py:89-90 | the layer list starts empty |
| `Backends.TieredBackend.AppendLayer` | adaptive_checkpointer/backends.py:93 | the `self.layers.append((max_events, ...))` shared by the four `add_*_layer` methods: exactly one layer with the given threshold and medium and a fresh, empty store is added at the end; earlier layers and their contents are unchanged; every layer keeps a store of its own |
| `Backends.TieredBackend.AddRamLayer` | adaptive_checkpointer/backends.py:92-94 | appends exactly one `(max_events, fresh empty store)` layer at the end, leaves earlier layers and their contents untouched, and returns the same object |
| `Backends.TieredBackend.AddNvmeLayer` | adaptive_checkpointer/backends.py:96-98 | as for the RAM layer, with a disk layer |
| `Backends.TieredBackend.AddRedisLayer` | adaptive_checkpointer/backends.py:100-102 | as for the RAM layer, with a Redis layer |
| `Backends.TieredBackend.AddS3Layer` | adaptive_checkpointer/backends.py:104-106 | as for the RAM layer, with an S3 layer |
| `Backends.FirstFit` | adaptive_checkpointer/backends.py:109-112 | the position of the first threshold `>= id`: every earlier threshold is below the id |
| `Backends.Route` | adaptive_checkpointer/backends.py:108-114 | the chosen layer is the first in list order whose threshold is `>= id`, or the last layer when no threshold is |
| `Backends.TieredBackend.Save` | adaptive_checkpointer/backends.py:108-114 | exactly the routed layer gains the payload at the id; every other layer and the layer list are unchanged |
| `Backends.Probe` | adaptive_checkpointer/backends.py:116-121 | the result is `b''` iff every layer misses; otherwise it is the payload of the first layer, in list order, that holds a non-empty payload |
| `Backends.ProbeStep` | adaptive_checkpointer/backends.py:117-120 | a missing layer passes the probe to the next one, and a hitting layer answers it |
| `Backends.TieredBackend.Load` | adaptive_checkpointer/backends.py:116-121 | returns `Probe` of the layers' current contents |
| `Backends.SavePreservesPartition` | adaptive_checkpointer/backends.py:108-114 | if every stored id sits in the layer it routes to, a routed write keeps it so |
| `Backends.RoundTrip` | adaptive_checkpointer/backends.py:108-121 | with ids written only through routed saves, loading an id right after saving a non-empty payload returns that payload |
| `Backends.ProbeDependsOnReads` | adaptive_checkpointer/backends.py:117-121 | two layer lists that read the same for an id probe to the same result |
| `Backends.EmptyPayloadIsMiss` | adaptive_checkpointer/backends.py:119-121 | a saved `b''` probes the same as an absent entry |
| `Backends.OverflowScenario` | adaptive_checkpointer/backends.py:108-121 | with thresholds 1000 then 5000, id 6000 lands in the second layer only, and a load returns it after the first layer misses |
| `Backends.StaleAfterNewLayer` | adaptive_checkpointer/backends.py:92-121 | after a second layer is appended, a re-save of an id that had fallen back to the first layer lands in the new layer, yet a load still returns the older payload from the first layer |

## Left out

- Codec: the dill and zstandard serializer files are not part of this model. The codec is a pair of opaque function values, and its `RuntimeError` on failure is not modelled.
- CoreSpec.DynamicThreshold: the average (`Mean`) and the decay product (`Smoothed`) use exact reals rather than IEEE doubles. Float rounding could move `int(smoothed)` by one near an integer; the clamp to `[1, 10*base]` holds either way.
- Core.AdaptiveCheckpointer.constructor requires `base_interval > 0` and `max_levels >= 1`, the positive configuration domain. With `max_levels <= 0`, `max` at core.py:92 raises on the empty level list. A zero base does not always raise. The modulo at core.py:57 divides by zero only while the levels in use are zero. That happens for a negative id before any rebuild. It also happens after a rebuild from an empty history, where core.py:35-36 returns the zero base. With base 0 the trigger is 0, so the first positive id rebuilds the levels. If a rollback is recorded by then, the clamp at core.py:40 gives 1, and the levels become `[1, 2, 4, ...]`. A negative base does not raise at all: Python's `%` by a negative divisor is defined, and so is `max` over negative levels. The clamp at core.py:40 lifts a rebuilt interval to at least 1 only once a rollback is recorded. A rebuild from an empty history returns the negative base unclamped (core.py:35-36), and the levels stay negative. The model leaves a zero or negative base out only because it is outside the configuration domain, so it does not describe a checkpointer running with one. `adaptation_window` is a `nat` because `deque` refuses a negative `maxlen`.
- Backends.TieredBackend.Save requires at least one layer. With none, `self.layers[-1]` raises `IndexError`.
- Disk, Redis and S3 storage: file, network and object-store I/O are replaced by the map-backed store with missing reading as `b''`. So the model does not capture their errors, the missing-library `RuntimeError`, or persistence. It also misses aliasing between two layers that share a directory, server or bucket: every layer owns a distinct store. The connection and bucket arguments (`**kwargs` of `add_redis_layer` and `add_s3_layer`, backends.py:100 and :104) are dropped, because they only configure the abstracted medium. So the `TypeError` that `S3Storage` raises when `bucket` is missing is not modelled either.
- The abstract `StorageBackend` base class only raises `NotImplementedError`. It is not modelled.
- The unused `threading` import is not modelled: the model is sequential, with no concurrency.
- The benchmark script and the example simulation are not modelled. They are harnesses built on clocks, randomness and printing.
- Logging is not modelled.

