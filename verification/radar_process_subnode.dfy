/** The radar process subnode of the obstacle perception pipeline.

    It keeps a buffer of GPS fixes (filled by the GPS callback) and, for every
    Continental radar message, corrects the message timestamp for the sensor's
    latency, resolves the radar-to-world pose, gathers map polygons, looks up
    the vehicle's speed, runs the configured radar detector and publishes the
    detected objects to the shared data store with one event per configured
    outgoing event.

    Everything outside the subnode (the transform service, the HD map, the
    ROI merge, the detector, the conti id expansion, the shared-data key
    format) is a parameter: a `Collaborators` value of total functions. The
    effects of a radar message are returned as a list of `Action`s in the
    order the subnode performs them. */
module RadarProcessSubnode {
  import opened Wrappers
  import opened Geometry
  import GpsBuffer

  /** Latency (seconds) subtracted from every radar header timestamp. */
  const RadarDelay: real := 0.07

  /** A corrected timestamp closer than this to zero is an invalid message (written 10e-6). */
  const TimestampEpsilon: real := 0.00001

  /** Nanoseconds per second, for the header's radar timestamp. */
  const NanosPerSecond: real := 1000000000.0

  /** The reserve field that names the subnode's device. */
  const DeviceIdField: string := "device_id"

  datatype ErrorCode = Ok | PerceptionErrorTf | PerceptionErrorProcess

  datatype SensorType = UnknownSensorType | Radar

  datatype ContiObstacle = ContiObstacle(obstacleId: int, longitudeDist: real, lateralDist: real)

  datatype RadarHeader = RadarHeader(timestampSec: real, radarTimestamp: real)

  /** One Continental radar message: a header and its raw obstacles. */
  datatype ContiRadar = ContiRadar(header: RadarHeader, obstacles: seq<ContiObstacle>)

  /** A detected object, as produced by the detector; the subnode never looks inside. */
  datatype Object = Object(trackId: int, center: Vec3, velocity: Vec3)

  datatype Polygon = Polygon(points: seq<Vec3>)

  datatype HdmapStruct = HdmapStruct(roadPolygons: seq<Polygon>, junctionPolygons: seq<Polygon>)

  /** A freshly allocated, empty map structure. */
  const EmptyHdmap: HdmapStruct := HdmapStruct([], [])

  /** What a ROI query reports, and the map structure as the query left it. */
  datatype RoiResult = RoiResult(ok: bool, hdmap: HdmapStruct)

  datatype DetectorOptions = DetectorOptions(carLinearSpeed: Vec3, radar2worldPose: Pose)

  /** What the detector returns, and the objects it wrote into the output list. */
  datatype Detection = Detection(ok: bool, objects: seq<Object>)

  /** The published artifact. */
  datatype SensorObjects = SensorObjects(
    timestamp: real,
    sensorType: SensorType,
    sensor2worldPose: Pose,
    objects: seq<Object>,
    errorCode: ErrorCode)

  datatype EventMeta = EventMeta(eventId: int)

  datatype Event = Event(eventId: int, timestamp: real, reserve: string)

  /** An effect on the outside world: a write to the shared data store, or an event. */
  datatype Action = StoreAdd(key: string, data: SensorObjects) | PublishEvent(event: Event)

  /** The subnode's own state. */
  datatype Subnode = Subnode(
    inited: bool,
    reserve: string,
    deviceId: string,
    pubMetaEvents: seq<EventMeta>,
    gpsBuffer: GpsBuffer.Buffer,
    errorCode: ErrorCode)

  /** The services a radar message is processed with. */
  datatype Collaborators = Collaborators(
    lookupTransform: real -> Option<Pose>,          // GetRadarTrans at a query time
    hdmapInput: bool,                               // HD-map input enabled and available
    forwardDistance: real,                          // ROI forward distance (meters)
    getRoi: (Vec3, real) -> RoiResult,
    roiFilter: bool,                                // a ROI filter is installed
    mergePolygons: HdmapStruct -> seq<Polygon>,
    expandIds: seq<ContiObstacle> -> seq<ContiObstacle>,
    detect: (ContiRadar, seq<Polygon>, DetectorOptions) -> Detection,
    produceKey: (real, string) -> Option<string>)   // shared-data key, or failure

  /** The outcomes of the initialisation steps the subnode delegates. */
  datatype InitCollaborators = InitCollaborators(
    frameDependenceOk: bool,
    algorithmPluginOk: bool,
    parseReserveField: string -> Option<map<string, string>>,
    gpsBufferSize: nat)

  datatype InitOutcome = InitOutcome(node: Subnode, ok: bool)

  datatype RadarOutcome = RadarOutcome(node: Subnode, actions: seq<Action>)

  /** The subnode's invariant: its GPS buffer respects its capacity. */
  predicate Valid(node: Subnode) {
    GpsBuffer.Bounded(node.gpsBuffer)
  }

  /** `InitInternal`: a no-op once initialised; otherwise the device id must be
      found in the reserve fields, and on success the GPS buffer gets its
      configured capacity. A failed initialisation leaves the subnode as it was. */
  function InitInternal(node: Subnode, ic: InitCollaborators): (r: InitOutcome)
    ensures node.inited ==> r == InitOutcome(node, true)
    ensures r.ok <==>
              || node.inited
              || (&& ic.frameDependenceOk
                  && ic.algorithmPluginOk
                  && ic.parseReserveField(node.reserve).Some?
                  && DeviceIdField in ic.parseReserveField(node.reserve).value)
    ensures !r.ok ==> r.node == node
    ensures r.ok && !node.inited ==>
              && r.node.inited
              && r.node.deviceId == ic.parseReserveField(node.reserve).value[DeviceIdField]
              && r.node.gpsBuffer.capacity == ic.gpsBufferSize
              && Valid(r.node)
              && r.node.pubMetaEvents == node.pubMetaEvents
              && r.node.errorCode == node.errorCode
              && r.node == node.(inited := true,
                                 deviceId := ic.parseReserveField(node.reserve).value[DeviceIdField],
                                 gpsBuffer := GpsBuffer.SetCapacity(node.gpsBuffer, ic.gpsBufferSize))
  {
    if node.inited then InitOutcome(node, true)
    else if !ic.frameDependenceOk then InitOutcome(node, false)
    else if !ic.algorithmPluginOk then InitOutcome(node, false)
    else match ic.parseReserveField(node.reserve)
      case None => InitOutcome(node, false)
      case Some(fields) =>
        if DeviceIdField !in fields then InitOutcome(node, false)
        else
          var buffer := GpsBuffer.SetCapacity(node.gpsBuffer, ic.gpsBufferSize);
          InitOutcome(node.(deviceId := fields[DeviceIdField], gpsBuffer := buffer, inited := true), true)
  }

  /** Initialising twice has the effect of initialising once. */
  lemma InitInternalIdempotent(node: Subnode, ic: InitCollaborators)
    ensures InitInternal(InitInternal(node, ic).node, ic) == InitInternal(node, ic)
  {
  }

  /** `OnGps`: the fix is appended to the GPS buffer under its header timestamp. */
  function OnGps(node: Subnode, gps: GpsBuffer.Gps): (r: Subnode)
    requires Valid(node)
    ensures Valid(r)
    ensures r == node.(gpsBuffer := r.gpsBuffer)
    ensures r.gpsBuffer.capacity == node.gpsBuffer.capacity
    ensures r.gpsBuffer.samples ==
              GpsBuffer.Newest(node.gpsBuffer.capacity, node.gpsBuffer.samples + [GpsBuffer.Sample(gps.timestampSec, gps)])
  {
    node.(gpsBuffer := GpsBuffer.PushBack(node.gpsBuffer, GpsBuffer.Sample(gps.timestampSec, gps)))
  }

  /** One event per configured outgoing event, in order, all for the same
      timestamp and carrying the device id as their reserve field. */
  function EventsFor(metas: seq<EventMeta>, timestamp: real, deviceId: string): (r: seq<Action>)
    ensures |r| == |metas|
    ensures forall i :: 0 <= i < |metas| ==> r[i] == PublishEvent(Event(metas[i].eventId, timestamp, deviceId))
  {
    if |metas| == 0 then []
    else [PublishEvent(Event(metas[0].eventId, timestamp, deviceId))] + EventsFor(metas[1..], timestamp, deviceId)
  }

  /** `PublishDataAndEvent`: without a key nothing happens; with one, the data
      is added under it, then every configured event is published. */
  function PublishDataAndEvent(node: Subnode, produceKey: (real, string) -> Option<string>,
                               timestamp: real, data: SensorObjects): (r: seq<Action>)
    ensures produceKey(timestamp, node.deviceId).None? ==> r == []
    ensures produceKey(timestamp, node.deviceId).Some? ==>
              && |r| == 1 + |node.pubMetaEvents|
              && r[0] == StoreAdd(produceKey(timestamp, node.deviceId).value, data)
              && forall i :: 0 <= i < |node.pubMetaEvents| ==>
                   r[i + 1] == PublishEvent(Event(node.pubMetaEvents[i].eventId, timestamp, node.deviceId))
  {
    match produceKey(timestamp, node.deviceId)
    case None => []
    case Some(key) => [StoreAdd(key, data)] + EventsFor(node.pubMetaEvents, timestamp, node.deviceId)
  }

  /** The message handed to the detector: header timestamps corrected, ids expanded. */
  function CorrectedMessage(msg: ContiRadar, expandIds: seq<ContiObstacle> -> seq<ContiObstacle>): ContiRadar {
    var t := msg.header.timestampSec - RadarDelay;
    ContiRadar(RadarHeader(t, t * NanosPerSecond), expandIds(msg.obstacles))
  }

  /** The map polygons for a pose: a failed ROI query is not an error, the merge
      simply works on whatever map structure the query left behind. */
  function MapPolygons(sv: Collaborators, pose: Pose): seq<Polygon> {
    var hdmap := if sv.hdmapInput then sv.getRoi(pose.translation, sv.forwardDistance).hdmap else EmptyHdmap;
    if sv.roiFilter then sv.mergePolygons(hdmap) else []
  }

  /** `OnRadar`: process one radar message. */
  function OnRadar(node: Subnode, msg: ContiRadar, sv: Collaborators): (r: RadarOutcome)
    // only the error code can change, and only to the transform error
    ensures r.node == node || r.node == node.(errorCode := PerceptionErrorTf)
    // an invalid corrected timestamp: dropped, no effect at all
    ensures Abs(msg.header.timestampSec - RadarDelay) < TimestampEpsilon ==> r == RadarOutcome(node, [])
    // a failed pose lookup: nothing published, transform error recorded
    ensures Abs(msg.header.timestampSec - RadarDelay) >= TimestampEpsilon ==>
              if sv.lookupTransform(msg.header.timestampSec - RadarDelay).None?
              then r.node == node.(errorCode := PerceptionErrorTf) && r.actions == []
              else r.node == node
    // something is published exactly when every lookup succeeded and a key was produced
    ensures r.actions != [] <==>
              && Abs(msg.header.timestampSec - RadarDelay) >= TimestampEpsilon
              && sv.lookupTransform(msg.header.timestampSec - RadarDelay).Some?
              && GpsBuffer.CarLinearSpeed(node.gpsBuffer.samples, msg.header.timestampSec - RadarDelay).Success?
              && sv.produceKey(msg.header.timestampSec - RadarDelay, node.deviceId).Some?
    // what is published: the detector's objects at the corrected time, tagged by the detector's verdict
    ensures r.actions != [] ==> r.actions[0].StoreAdd?
    ensures r.actions != [] && r.actions[0].StoreAdd? ==>
              var t := msg.header.timestampSec - RadarDelay;
              var pose := sv.lookupTransform(t).value;
              var speed := GpsBuffer.CarLinearSpeed(node.gpsBuffer.samples, t).value;
              var detection := sv.detect(CorrectedMessage(msg, sv.expandIds), MapPolygons(sv, pose),
                                         DetectorOptions(speed, pose));
              var data := r.actions[0].data;
              && r.actions == PublishDataAndEvent(node, sv.produceKey, t, data)
              && data.timestamp == t
              && data.sensorType == Radar
              && data.sensor2worldPose == pose
              && data.objects == detection.objects
              && (data.errorCode == Ok <==> detection.ok)
              && (data.errorCode != Ok ==> data.errorCode == PerceptionErrorProcess)
  {
    var t := msg.header.timestampSec - RadarDelay;
    if Abs(t - 0.0) < TimestampEpsilon then RadarOutcome(node, [])
    else match sv.lookupTransform(t)
      case None => RadarOutcome(node.(errorCode := PerceptionErrorTf), [])
      case Some(pose) =>
        var polygons := MapPolygons(sv, pose);
        match GpsBuffer.CarLinearSpeed(node.gpsBuffer.samples, t)
        case Failure(_) => RadarOutcome(node, [])
        case Success(speed) =>
          var detection := sv.detect(CorrectedMessage(msg, sv.expandIds), polygons, DetectorOptions(speed, pose));
          var data := SensorObjects(t, Radar, pose, detection.objects,
                                    if detection.ok then Ok else PerceptionErrorProcess);
          RadarOutcome(node, PublishDataAndEvent(node, sv.produceKey, t, data))
  }

  /** The timestamp an action is about. */
  function ActionTimestamp(a: Action): real {
    match a
    case StoreAdd(_, data) => data.timestamp
    case PublishEvent(event) => event.timestamp
  }

  /** How many shared-data writes a list of actions performs. */
  function StoreAdds(actions: seq<Action>): nat {
    if |actions| == 0 then 0
    else (if actions[0].StoreAdd? then 1 else 0) + StoreAdds(actions[1..])
  }

  lemma {:induction false} EventsWriteNothing(metas: seq<EventMeta>, timestamp: real, deviceId: string)
    ensures StoreAdds(EventsFor(metas, timestamp, deviceId)) == 0
    decreases |metas|
  {
    if |metas| > 0 {
      var r := EventsFor(metas, timestamp, deviceId);
      assert r[1..] == EventsFor(metas[1..], timestamp, deviceId);
      EventsWriteNothing(metas[1..], timestamp, deviceId);
    }
  }

  /** A radar message leads to at most one shared-data write, and every write
      and event it causes is stamped with the corrected timestamp. */
  lemma OnRadarPublishesAtMostOnce(node: Subnode, msg: ContiRadar, sv: Collaborators)
    ensures StoreAdds(OnRadar(node, msg, sv).actions) <= 1
    ensures forall a :: a in OnRadar(node, msg, sv).actions ==>
              ActionTimestamp(a) == msg.header.timestampSec - RadarDelay
  {
    var r := OnRadar(node, msg, sv);
    if r.actions != [] {
      var t := msg.header.timestampSec - RadarDelay;
      var events := EventsFor(node.pubMetaEvents, t, node.deviceId);
      assert r.actions[1..] == events;
      EventsWriteNothing(node.pubMetaEvents, t, node.deviceId);
    }
  }

  /** Whether the ROI query reported success never changes the outcome:
      only the map structure it leaves behind is used. */
  lemma OnRadarIgnoresRoiStatus(node: Subnode, msg: ContiRadar, sv: Collaborators,
                                getRoi: (Vec3, real) -> RoiResult)
    requires forall p, d :: getRoi(p, d).hdmap == sv.getRoi(p, d).hdmap
    ensures OnRadar(node, msg, sv.(getRoi := getRoi)) == OnRadar(node, msg, sv)
  {
  }
}
