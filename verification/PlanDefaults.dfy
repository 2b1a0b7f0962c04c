/** What reading a plan does with members that are missing, null, repeated or of another version. */
module PlanDefaults {
  import opened Base
  import opened Json
  import opened ExecutionPlan

  function Empty(): J {
    Obj(map[])
  }

  // ---------- members that are missing ----------

  /** A member that is missing or null has its default. */
  lemma MissingAreDefault(key: string, i: int, b: bool, s: string)
    ensures IntOr(Empty(), key, i) == Ok(i) && BoolOr(Empty(), key, b) == Ok(b) && StringOr(Empty(), key, s) == Ok(s)
    ensures var nulls := Obj(map[key := Null]);
      IntOr(nulls, key, i) == Ok(i) && BoolOr(nulls, key, b) == Ok(b) && StringOr(nulls, key, s) == Ok(s)
  {
  }

  /** A target without members is of no kind and of unknown type, for any device. */
  lemma EmptyTarget()
    ensures ReadTarget(Empty()) == Ok(Some(Target("", 99, -1, TargetAttrs("", "0.0", 1, 1, 0))))
    ensures ReadTarget(Obj(map["attrs" := Empty()])) == ReadTarget(Empty())
  {
  }

  lemma EmptyVirtualDevice()
    ensures ReadVd(Empty()) == Ok(Some(VirtualDevice(-1, "", None, None)))
  {
  }

  /** A worker needs its id only: it is in group 0, and its rank is its id. */
  lemma WorkerById(id: int)
    requires INT_MIN <= id <= INT_MAX
    ensures ReadWorker(Obj(map["worker_id" := Int(id)])) == Ok(Worker(id, 0, id, None, None, None))
    ensures ReadWorker(Empty()) == Err(MissingField)
  {
    hide ReadVd;
  }

  /** A worker with a device and no virtual device gets one made from it. */
  lemma WorkerOnDevice(id: int, device: int, deviceId: int)
    requires INT_MIN <= id <= INT_MAX && INT_MIN <= device <= INT_MAX && INT_MIN <= deviceId <= INT_MAX
    ensures var d := Some(Device(device, deviceId));
      var j := Obj(map["device_type" := Int(device), "device_id" := Int(deviceId)]);
      ReadWorker(Obj(map["worker_id" := Int(id), "device" := j]))
      == Ok(Worker(id, 0, id, d, None, Some(VirtualDevice(deviceId, "", d, None))))
  {
    hide ReadVd;
    var j := Obj(map["device_type" := Int(device), "device_id" := Int(deviceId)]);
    assert ReadDevice(j) == Ok(Some(Device(device, deviceId)));
  }

  /** A placement without a group count, or with one that is not positive, has one group. */
  lemma OneGroup(n: int)
    requires INT_MIN <= n <= INT_MAX
    ensures ReadPlacement(Obj(map["workers" := Arr([])])) == Ok(Some(Placement([], 1)))
    ensures ReadPlacement(Obj(map["workers" := Arr([]), "num_groups" := Int(n)]))
         == Ok(Some(Placement([], if n <= 0 then 1 else n)))
  {
  }

  /** Communication without attributes, or with empty ones, is within groups, a sum, and rooted at worker 0. */
  lemma EmptyComm(op: string)
    ensures ReadComm("device.copy", None) == Ok(Copy(None, None, false, true))
    ensures ReadComm("device.copy", Some(Empty())) == ReadComm("device.copy", None)
    ensures op != "device.copy" ==> ReadComm(op, None) == Ok(Collective(op, "sum", true, 0, 0))
    ensures op != "device.copy" ==> ReadComm(op, Some(Empty())) == ReadComm(op, None)
  {
  }

  /** A device and a target that name different types or ids do not go together; unknown ones go with any. */
  lemma MismatchRefused(d: Device, t: Target, scope: string, id: int)
    ensures MakeVd(Some(d), Some(t), scope, id) ==
      if (t.deviceType == 99 || t.deviceType == d.deviceType) && (t.deviceId < 0 || t.deviceId == d.deviceId)
      then Ok(VirtualDevice(if id == -1 then d.deviceId else id, scope, Some(d), Some(t)))
      else Err(DeviceMismatch)
  {
  }

  /** Numbers of a plan are 32-bit, except in shapes, where they are 64-bit. */
  lemma NumberRanges(i: int)
    ensures AsInt(Int(i)) == if -0x8000_0000 <= i <= 0x7fff_ffff then Ok(i) else Err(OutOfRange)
    ensures Int64s([Int(i)]) == Ok([i])
  {
    var one := [Int(i)];
    assert one[0] == Int(i) && one[1..] == [] && Int64s([]) == Ok([]) && [i] + [] == [i];
  }

  // ---------- members that are null or repeated ----------

  function NotNull(a: seq<J>): seq<J> {
    if a == [] then [] else (if a[0].Null? then [] else [a[0]]) + NotNull(a[1..])
  }

  /** Null nodes are skipped. */
  lemma {:induction false} NullNodesSkipped(a: seq<J>)
    ensures ReadNodes(a) == ReadNodes(NotNull(a))
  {
    hide ReadNode;
    if a != [] {
      NullNodesSkipped(a[1..]);
      if a[0].Null? {
        assert NotNull(a) == NotNull(a[1..]);
      } else {
        assert NotNull(a)[0] == a[0] && NotNull(a)[1..] == NotNull(a[1..]);
      }
    }
  }

  /** Of several entries for one value the last one that has a device counts. */
  lemma {:induction false} LastDeviceCounts(a: seq<J>, acc: map<int, Option<VirtualDevice>>, id: int)
    requires ReadDevices(a, acc).Ok?
    ensures var m := ReadDevices(a, acc).value;
      if Entries(a, id) == [] then (id in m <==> id in acc) && (id in m ==> m[id] == acc[id])
      else id in m && m[id] == Entries(a, id)[|Entries(a, id)| - 1]
    decreases |a|
  {
    hide ReadVd;
    if a != [] {
      var v := ReadVd(a[0].o["virtual_device"]).value;
      var more := if v.Some? then acc[a[0].o["value_id"].i := v] else acc;
      LastDeviceCounts(a[1..], more, id);
    }
  }

  /** The devices listed for a value, in order. */
  function Entries(a: seq<J>, id: int): seq<Option<VirtualDevice>> {
    if a == [] then [] else
    var here :=
      if a[0].Obj? && "value_id" in a[0].o && a[0].o["value_id"] == Int(id) && "virtual_device" in a[0].o
         && ReadVd(a[0].o["virtual_device"]).Ok? && ReadVd(a[0].o["virtual_device"]).value.Some?
      then [ReadVd(a[0].o["virtual_device"]).value] else [];
    here + Entries(a[1..], id)
  }

  // ---------- what a plan must have ----------

  /** Another version is refused as such. */
  lemma VersionRefused(j: J, version: int)
    requires j.Obj? && "schema_version" in j.o && j.o["schema_version"] == Int(version)
    requires version != 1 && INT_MIN <= version <= INT_MAX
    ensures ReadPlan(j) == Err(UnsupportedVersion)
  {
  }

  const MEMBERS: set<string> := {
    "schema_version", "num_values", "output_value", "nodes", "value_virtual_devices", "input_value_ids",
    "constant_value_ids", "value_info", "disco_placement", "reserved"}

  /** A plan that can be read is an object of version 1 with all ten members. */
  lemma PlanNeeds(j: J)
    requires ReadPlan(j).Ok?
    ensures j.Obj? && j.o["schema_version"] == Int(1) && j.o["reserved"].Obj?
    ensures forall key :: key in MEMBERS ==> key in j.o
  {
    hide ReadNodes, ReadDevices, ReadInfos, ReadPlacement, Ints;
  }

  /** A node that can be read is of one of the three kinds, and an unknown kind is refused as such. */
  lemma NodeKinds(j: J)
    requires j.Obj? && RequiredInts(j, "input_values").Ok? && RequiredInts(j, "output_values").Ok?
    requires RequiredInts(j, "worker_set").Ok? && "kind" in j.o && j.o["kind"].Str?
    ensures j.o["kind"].s !in {"kernel", "comm", "barrier"} ==> ReadNode(j) == Err(UnsupportedNode)
    ensures ReadNode(j).Ok? ==>
      (ReadNode(j).value.Kernel? <==> j.o["kind"].s == "kernel")
      && (ReadNode(j).value.Comm? <==> j.o["kind"].s == "comm")
      && (ReadNode(j).value.Barrier? <==> j.o["kind"].s == "barrier")
  {
    hide Ints, ReadVd;
  }
}
