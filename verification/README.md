# Radar process subnode

A Dafny model of the radar process subnode of a vehicle perception stack
(`RadarProcessSubnode`). The subnode keeps a bounded buffer of GPS fixes and,
for every Continental radar message, corrects the message timestamp by the
sensor latency (0.07 s), resolves the radar-to-world pose, collects HD-map
polygons, looks up the vehicle's linear velocity at the GPS fix nearest to the
corrected time, runs the configured radar detector and publishes the detected
objects into the shared data store, followed by one event per configured
outgoing event.

Files:

- `wrappers.dfy` — `Option` and `Result`.
- `geometry.dfy` — `Vec3`, the pose (opaque except for its translation column) and `Abs`.
- `gps_buffer.dfy` — module `GpsBuffer`: the circular GPS buffer (`SetCapacity`,
  `PushBack`), the backward nearest-timestamp scan (as written, corrected, and
  as a loop) and the velocity lookup `CarLinearSpeed`.
- `radar_process_subnode.dfy` — module `RadarProcessSubnode`: `InitInternal`,
  `OnGps`, `OnRadar` and `PublishDataAndEvent`.

Collaborators the subnode cannot see into are parameters of the model: the
transform lookup (`lookupTransform`, returning an optional pose), the HD-map
ROI query, the ROI merge, the conti id expansion, the radar detector, the
shared-data key producer, and the initialisation helpers. A radar message
returns the new subnode state and the ordered list of effects (`StoreAdd`,
`PublishEvent`) it causes. Timestamps are `real`s.

How the code handles failures, as modelled:

- A failed pose lookup (:115-119) and a failed speed lookup (:144-148)
  publish nothing; a failed pose lookup only sets the subnode's error code to
  the transform error.
- Only a detector failure publishes (:159-161), tagged with the process
  error, carrying whatever objects the detector wrote.
- A failed HD-map ROI query (:130-137) is only logged; processing continues.
- The velocity lookup tolerance is a fixed 0.1 s (:202, :208).

The buffer is modelled with circular-buffer semantics: a push into a full
buffer drops the oldest fix, a push into a buffer of capacity 0 stores
nothing, and lowering the capacity keeps the oldest fixes. The buffer's type
declaration is not part of this model; these are the semantics of the
circular buffer whose `set_capacity`/`push_back` the code calls.

## Model

| member | source | states |
|---|---|---|
| GpsBuffer.SetCapacity | modules/perception/obstacle/onboard/radar_process_subnode.cc:81 | after setting the capacity the buffer is within it, keeps a prefix of the old fixes, and keeps all of them when they fit |
| GpsBuffer.PushBack | modules/perception/obstacle/onboard/radar_process_subnode.cc:185-188 | a push keeps the buffer within capacity and leaves exactly the newest `capacity` of old fixes plus the new one; the new fix is last; nothing is dropped when not full |
| GpsBuffer.PushAll | modules/perception/obstacle/onboard/radar_process_subnode.cc:185-188 | any number of pushes keeps the buffer within its capacity |
| GpsBuffer.PushAllKeepsNewest | modules/perception/obstacle/onboard/radar_process_subnode.cc:81-188 | after pushing any sequence, the buffer holds exactly the newest `capacity` fixes of everything pushed, in arrival order (first-in first-out eviction) |
| GpsBuffer.PushBackKeepsIncreasing | modules/perception/obstacle/onboard/radar_process_subnode.cc:182-188 | pushing a fix newer than all buffered ones keeps the timestamps strictly increasing |
| GpsBuffer.PushAllKeepsIncreasing | modules/perception/obstacle/onboard/radar_process_subnode.cc:182-188 | feeding fixes in strictly increasing time order keeps the buffer strictly increasing, whatever is evicted |
| GpsBuffer.ScanAsWritten | modules/perception/obstacle/onboard/radar_process_subnode.cc:214-225 | the scan starting from the 1e9 sentinel reads index `size()` exactly when the newest fix is at least 1e9 s from the query |
| GpsBuffer.NearestIndex | modules/perception/obstacle/onboard/radar_process_subnode.cc:214-225 | the scan with the newest fix as first candidate always reads an index inside the buffer |
| GpsBuffer.ScanBackStops | modules/perception/obstacle/onboard/radar_process_subnode.cc:217-223 | from a point where every later step improved, the scan stops where the distance stops strictly decreasing |
| GpsBuffer.NearestIndexStops | modules/perception/obstacle/onboard/radar_process_subnode.cc:214-225 | for any buffer order, the returned fix is a local minimum: distances strictly rise from it to the newest fix, and the next older fix is not nearer |
| GpsBuffer.ScanStopUnique | modules/perception/obstacle/onboard/radar_process_subnode.cc:217-225 | a buffer has only one such stopping point, so the stopping condition determines the result |
| GpsBuffer.ScanStopIsNearest | modules/perception/obstacle/onboard/radar_process_subnode.cc:214-225 | with strictly increasing timestamps the stopping point is the nearest fix, and every newer fix is strictly farther (ties go to the newer fix) |
| GpsBuffer.NearestIndexIsNearest | modules/perception/obstacle/onboard/radar_process_subnode.cc:214-225 | with strictly increasing timestamps the scan returns the nearest fix, the newest among equally near ones |
| GpsBuffer.AsWrittenAgreesBelowSentinel | modules/perception/obstacle/onboard/radar_process_subnode.cc:215-225 | when the newest fix is closer than 1e9 s, the scan as written and the corrected scan read the same index |
| GpsBuffer.SentinelOverrun | modules/perception/obstacle/onboard/radar_process_subnode.cc:202-225 | fixes at 0 and 2e9 with query 0 pass both range checks and the scan as written reads one past the end |
| GpsBuffer.EqualTimestampsMissNearest | modules/perception/obstacle/onboard/radar_process_subnode.cc:217-221 | with two equal neighbouring timestamps the `>=` break stops early and misses a strictly nearer older fix |
| GpsBuffer.FindNearest | modules/perception/obstacle/onboard/radar_process_subnode.cc:214-225 | the backward loop stops at the stopping point, equals the functional scan, and finds the nearest fix (newest on ties) when timestamps strictly increase |
| GpsBuffer.CarLinearSpeed | modules/perception/obstacle/onboard/radar_process_subnode.cc:191-230 | the lookup fails with EmptyBuffer exactly on an empty buffer, TooOld exactly when the query is more than 0.1 s before the oldest fix, TooNew exactly when not too old and more than 0.1 s after the newest, and succeeds otherwise |
| GpsBuffer.IsNearestUnique | modules/perception/obstacle/onboard/radar_process_subnode.cc:214-225 | "nearest, newest on ties" names at most one fix |
| GpsBuffer.CarLinearSpeedIsNearest | modules/perception/obstacle/onboard/radar_process_subnode.cc:214-228 | on a strictly increasing buffer a successful lookup returns the velocity of the nearest fix (the newest among equally near fixes) |
| RadarProcessSubnode.InitInternal | modules/perception/obstacle/onboard/radar_process_subnode.cc:48-85 | initialisation succeeds iff already initialised or every step succeeds and the reserve fields hold `device_id`; on success exactly three things change: `inited` is set, the device id comes from that field, and the GPS buffer is re-capacitated by `set_capacity` (keeping its oldest fixes, all when they fit); failure changes nothing |
| RadarProcessSubnode.InitInternalIdempotent | modules/perception/obstacle/onboard/radar_process_subnode.cc:48-51 | initialising twice has the effect of initialising once |
| RadarProcessSubnode.OnGps | modules/perception/obstacle/onboard/radar_process_subnode.cc:182-189 | a GPS message appends (header timestamp, message) to the buffer, keeps it within capacity and changes nothing else |
| RadarProcessSubnode.EventsFor | modules/perception/obstacle/onboard/radar_process_subnode.cc:343-351 | one event per configured event meta, in order, each with that meta's event id, the same timestamp and the device id as reserve |
| RadarProcessSubnode.PublishDataAndEvent | modules/perception/obstacle/onboard/radar_process_subnode.cc:332-352 | no key: no effect at all; a key: one store write under it, then exactly one event per configured event meta in order |
| RadarProcessSubnode.OnRadar | modules/perception/obstacle/onboard/radar_process_subnode.cc:87-180 | an invalid corrected timestamp has no effect; a pose failure publishes nothing and records the transform error; something is published iff pose, speed and key all succeed; the published data is the detector's output at the corrected time, with the radar sensor type, the looked-up pose, and the process error code iff the detector failed |
| RadarProcessSubnode.OnRadarPublishesAtMostOnce | modules/perception/obstacle/onboard/radar_process_subnode.cc:98-170 | a radar message causes at most one store write, and every write and event carries the header timestamp minus 0.07 |
| RadarProcessSubnode.OnRadarIgnoresRoiStatus | modules/perception/obstacle/onboard/radar_process_subnode.cc:127-140 | whether the ROI query reports failure never changes the outcome; only the map structure it leaves behind is merged |

## Findings

| source | as written | input that shows it | evidently intended | confidence | as-written member | corrected member |
|---|---|---|---|---|---|---|
| modules/perception/obstacle/onboard/radar_process_subnode.cc:215-225 | the scan starts with best distance 1e9; when the newest fix is 1e9 s or more from the query, the first comparison breaks and `gps_buffer_[size()]` is read | fixes at t=0 and t=2e9, query t=0: both range checks pass, the scan stops at the newest fix and reads index 2 of a 2-element buffer | 1e9 stands for infinity: the newest fix is always the first candidate | low (needs a fix with a bogus timestamp in the buffer); not executed | GpsBuffer.ScanAsWritten, GpsBuffer.SentinelOverrun | GpsBuffer.NearestIndex |

`CarLinearSpeed`, `FindNearest` and `OnRadar` use the corrected scan; by
`AsWrittenAgreesBelowSentinel` it reads the same index as the code whenever
the code's read is in bounds.

## Left out

- GpsBuffer.CarLinearSpeedIsNearest: promises the nearest fix only for strictly increasing buffer timestamps; with equal neighbouring timestamps the scan can miss it (`EqualTimestampsMissNearest`), and the code does not enforce any order on pushes.
- The null check on the velocity out-parameter of `GetCarLinearSpeed` (:194-197): the model always has somewhere to put the result.
- The mutex around the lookup, the unlocked push in `OnGps`, and callback registration (:78, :80, :188, :193): concurrency is not modelled; each call is atomic.
- Process aborts on missing radar or GPS adapters (:77, :79) are not modelled; `InitInternal` assumes both adapters exist.
- `GetRadarTrans` internals (:293-330): the tf2 buffer, its exceptions and the matrix conversion are one oracle returning an optional pose.
- HD-map `GetROI` and the ROI filter's polygon merge (:130-140): oracles; the HD-map flag and instance check are one boolean.
- The conti id expansion (:103-104): its implementation is not part of this model; it is an oracle on the obstacle list, and its timestamp state is not modelled. The expansion runs even for messages later dropped for their timestamp (:103-106), so such a message still changes the expansion's state, which `OnRadar` does not show.
- The radar detector and the factory/registerer plumbing (:157, :232-235, :267-291): the detector is an oracle returning a verdict and an object list; `InitFrameDependence` and `InitAlgorithmPlugin` are two booleans, and the members they set (shared data, HD-map input, ROI filter, detector) are not part of the subnode state.
- `ParseReserveField` and `ProduceSharedDataKey`: their implementations are not part of this model; they are oracles.
- What the shared data store does on `Add` (including a repeated key) is not visible here; the model records the write as an action.
- The `uint64` conversion of `timestamp * 1e9` into the header's radar timestamp (:101): kept as a real number of nanoseconds.
- A negative configured GPS buffer size: the capacity is a natural number.
- Ordering of published timestamps across messages of one radar: the code does not enforce it, so no such property is stated.
- Floating-point rounding: timestamps and distances are exact reals.
- Logging, performance timers, latency statistics and the wall clock (:88-96, :172-178).
- The object builder and the traffic-light preprocessor subnode are outside this model: cross-frame identity tracking and false-positive filtering are not modelled.
- The `SensorObjects` default error code and the error code's initial value come from headers that are not part of this model; the model uses `Ok` for a successful detection.
