/** Execution plans, the document each one is written as, and reading a plan from a JSON value. */
module ExecutionPlan {
  import opened Base
  import opened Json

  datatype Device = Device(deviceType: int, deviceId: int)
  datatype TargetAttrs = TargetAttrs(
    arch: string, computeVersion: string, maxThreads: int, warpSize: int, maxShared: int)
  datatype Target = Target(kind: string, deviceType: int, deviceId: int, attrs: TargetAttrs)
  datatype VirtualDevice = VirtualDevice(id: int, scope: string, device: Option<Device>, target: Option<Target>)

  datatype Worker = Worker(
    workerId: int, groupId: int, localRank: int,
    device: Option<Device>, target: Option<Target>, virtualDevice: Option<VirtualDevice>)

  datatype Placement = Placement(workers: seq<Option<Worker>>, numGroups: int)

  datatype CommAttrs =
    | Copy(src: Option<VirtualDevice>, dst: Option<VirtualDevice>, async: bool, inGroup: bool)
    | Collective(kind: string, reduceKind: string, inGroup: bool, groupId: int, rootWorker: int)

  /** A step of the plan; a missing attribute object is `None`. */
  datatype Node =
    | Kernel(op: string, symbol: string, ins: seq<int>, outs: seq<int>, workers: seq<int>)
    | Comm(op: string, attrs: Option<CommAttrs>, ins: seq<int>, outs: seq<int>, workers: seq<int>)
    | Barrier(tag: string, workers: seq<int>)

  datatype Plan = Plan(
    nodes: seq<Option<Node>>,
    devices: map<int, Option<VirtualDevice>>,
    inputs: seq<int>,
    constants: seq<int>,
    shapes: map<int, seq<int>>,
    dtypes: map<int, string>,
    numValues: int,
    placement: Option<Placement>,
    output: int)

  const UNKNOWN_DEVICE: int := 99
  const INVALID_ID: int := -1
  const INT_MIN: int := -0x8000_0000
  const INT_MAX: int := 0x7fff_ffff

  // ---------- the document of a plan ----------

  function IntDocs(xs: seq<int>): (r: seq<Doc>)
    ensures |r| == |xs| && forall i :: 0 <= i < |xs| ==> r[i] == DInt(xs[i])
  {
    if xs == [] then [] else [DInt(xs[0])] + IntDocs(xs[1..])
  }

  function DeviceDoc(d: Option<Device>): Doc {
    match d
    case None => DNull
    case Some(d) => DObj([Member("device_type", DInt(d.deviceType)), Member("device_id", DInt(d.deviceId))])
  }

  function AttrsMembers(a: TargetAttrs): seq<Member> {
    [Member("arch", DStr(a.arch)),
     Member("compute_version", DStr(a.computeVersion)),
     Member("max_threads_per_block", DInt(a.maxThreads)),
     Member("warp_size", DInt(a.warpSize)),
     Member("max_shared_memory_per_block", DInt(a.maxShared))]
  }

  function TargetMembers(t: Target): seq<Member> {
    [Member("kind", DStr(t.kind)),
     Member("device_type", DInt(t.deviceType)),
     Member("device_id", DInt(t.deviceId)),
     Member("attrs", DObj(AttrsMembers(t.attrs)))]
  }

  function TargetDoc(t: Option<Target>): Doc {
    match t case None => DNull case Some(t) => DObj(TargetMembers(t))
  }

  function VdMembers(v: VirtualDevice): seq<Member> {
    [Member("virtual_device_id", DInt(v.id)),
     Member("memory_scope", DStr(v.scope)),
     Member("device", DeviceDoc(v.device)),
     Member("target", TargetDoc(v.target))]
  }

  function VdDoc(v: Option<VirtualDevice>): Doc {
    match v case None => DNull case Some(v) => DObj(VdMembers(v))
  }

  function WorkerMembers(w: Worker): seq<Member> {
    [Member("worker_id", DInt(w.workerId)),
     Member("group_id", DInt(w.groupId)),
     Member("local_rank", DInt(w.localRank)),
     Member("device", DeviceDoc(w.device)),
     Member("target", TargetDoc(w.target)),
     Member("virtual_device", VdDoc(w.virtualDevice))]
  }

  function WorkerDoc(w: Option<Worker>): Doc {
    match w case None => DNull case Some(w) => DObj(WorkerMembers(w))
  }

  function WorkerDocs(ws: seq<Option<Worker>>): (r: seq<Doc>)
    ensures |r| == |ws| && forall i :: 0 <= i < |ws| ==> r[i] == WorkerDoc(ws[i])
  {
    if ws == [] then [] else [WorkerDoc(ws[0])] + WorkerDocs(ws[1..])
  }

  /** The order workers are written in: by id, missing ones last. */
  predicate Before(a: Option<Worker>, b: Option<Worker>) {
    a.Some? && (b.Some? ==> a.value.workerId < b.value.workerId)
  }

  function Insert(ws: seq<Option<Worker>>, w: Option<Worker>): seq<Option<Worker>> {
    if ws == [] then [w] else if Before(w, ws[0]) then [w] + ws else [ws[0]] + Insert(ws[1..], w)
  }

  function Sort(ws: seq<Option<Worker>>): seq<Option<Worker>> {
    if ws == [] then [] else Insert(Sort(ws[..|ws| - 1]), ws[|ws| - 1])
  }

  function PlacementMembers(p: Placement): seq<Member> {
    [Member("num_groups", DInt(p.numGroups)), Member("workers", DArr(WorkerDocs(Sort(p.workers))))]
  }

  function PlacementDoc(p: Option<Placement>): Doc {
    match p case None => DNull case Some(p) => DObj(PlacementMembers(p))
  }

  function CommMembers(a: CommAttrs): seq<Member> {
    match a
    case Copy(src, dst, async, inGroup) =>
      [Member("src_virtual_device", VdDoc(src)),
       Member("dst_virtual_device", VdDoc(dst)),
       Member("async", DBool(async)),
       Member("in_group", DBool(inGroup))]
    case Collective(kind, reduceKind, inGroup, groupId, rootWorker) =>
      [Member("kind", DStr(kind)),
       Member("reduce_kind", DStr(reduceKind)),
       Member("in_group", DBool(inGroup)),
       Member("group_id", DInt(groupId)),
       Member("root_worker", DInt(rootWorker))]
  }

  function CommDoc(a: Option<CommAttrs>): Doc {
    match a case None => DNull case Some(a) => DObj(CommMembers(a))
  }

  function NodeMembers(n: Node): seq<Member> {
    match n
    case Kernel(op, symbol, ins, outs, workers) =>
      [Member("kind", DStr("kernel")),
       Member("input_values", DArr(IntDocs(ins))),
       Member("output_values", DArr(IntDocs(outs))),
       Member("worker_set", DArr(IntDocs(workers))),
       Member("op_name", DStr(op)),
       Member("kernel_symbol", DStr(symbol))]
    case Comm(op, attrs, ins, outs, workers) =>
      [Member("kind", DStr("comm")),
       Member("input_values", DArr(IntDocs(ins))),
       Member("output_values", DArr(IntDocs(outs))),
       Member("worker_set", DArr(IntDocs(workers))),
       Member("op_name", DStr(op)),
       Member("attrs", CommDoc(attrs))]
    case Barrier(tag, workers) =>
      [Member("kind", DStr("barrier")),
       Member("input_values", DArr([])),
       Member("output_values", DArr([])),
       Member("worker_set", DArr(IntDocs(workers))),
       Member("tag", DStr(tag))]
  }

  function NodeDoc(n: Option<Node>): Doc {
    match n case None => DNull case Some(n) => DObj(NodeMembers(n))
  }

  function NodeDocs(ns: seq<Option<Node>>): (r: seq<Doc>)
    ensures |r| == |ns| && forall i :: 0 <= i < |ns| ==> r[i] == NodeDoc(ns[i])
  {
    if ns == [] then [] else [NodeDoc(ns[0])] + NodeDocs(ns[1..])
  }

  lemma EmptyOrNot(s: set<int>)
    ensures s == {} || exists x :: x in s
  {
    if forall x :: x !in s { assert s == {}; }
  }

  lemma {:induction false} MinExists(s: set<int>)
    requires s != {}
    ensures exists m :: m in s && forall x :: x in s ==> m <= x
  {
    EmptyOrNot(s);
    var a :| a in s;
    if s != {a} {
      var rest := s - {a};
      MinExists(rest);
      var m :| m in rest && forall x :: x in rest ==> m <= x;
      var least := if a < m then a else m;
      forall x | x in s ensures least <= x {
        if x != a { assert x in rest; }
      }
      assert least in s;
    }
  }

  function Least(s: set<int>): (m: int)
    requires s != {}
    ensures m in s && forall x :: x in s ==> m <= x
  {
    MinExists(s);
    var m :| m in s && forall x :: x in s ==> m <= x;
    m
  }

  /** The ids in increasing order. */
  function Ascending(s: set<int>): seq<int> {
    if s == {} then [] else [Least(s)] + Ascending(s - {Least(s)})
  }

  function DeviceEntry(id: int, v: Option<VirtualDevice>): Doc {
    DObj([Member("value_id", DInt(id)), Member("virtual_device", VdDoc(v))])
  }

  function DeviceEntries(ids: seq<int>, devices: map<int, Option<VirtualDevice>>): (r: seq<Doc>)
    requires forall i :: 0 <= i < |ids| ==> ids[i] in devices
    ensures |r| == |ids| && forall i :: 0 <= i < |ids| ==> r[i] == DeviceEntry(ids[i], devices[ids[i]])
  {
    if ids == [] then [] else [DeviceEntry(ids[0], devices[ids[0]])] + DeviceEntries(ids[1..], devices)
  }

  function InfoEntry(id: int, shape: seq<int>, dtype: string): Doc {
    DObj([Member("value_id", DInt(id)), Member("shape", DArr(IntDocs(shape))), Member("dtype", DStr(dtype))])
  }

  /** A value with only a shape gets the empty dtype, one with only a dtype the empty shape. */
  function InfoDoc(id: int, shapes: map<int, seq<int>>, dtypes: map<int, string>): Doc {
    InfoEntry(id, if id in shapes then shapes[id] else [], if id in dtypes then dtypes[id] else "")
  }

  function InfoEntries(ids: seq<int>, shapes: map<int, seq<int>>, dtypes: map<int, string>): (r: seq<Doc>)
    ensures |r| == |ids| && forall i :: 0 <= i < |ids| ==> r[i] == InfoDoc(ids[i], shapes, dtypes)
  {
    if ids == [] then [] else [InfoDoc(ids[0], shapes, dtypes)] + InfoEntries(ids[1..], shapes, dtypes)
  }

  lemma {:induction false} AscendingLists(s: set<int>)
    ensures forall i :: 0 <= i < |Ascending(s)| ==> Ascending(s)[i] in s
    ensures forall x :: x in s ==> x in Ascending(s)
    decreases s
  {
    if s != {} {
      AscendingLists(s - {Least(s)});
    }
  }

  function PlanMembers(p: Plan): seq<Member> {
    AscendingLists(p.devices.Keys);
    [Member("schema_version", DInt(1)),
     Member("num_values", DInt(p.numValues)),
     Member("output_value", DInt(p.output)),
     Member("nodes", DArr(NodeDocs(p.nodes))),
     Member("value_virtual_devices", DArr(DeviceEntries(Ascending(p.devices.Keys), p.devices))),
     Member("input_value_ids", DArr(IntDocs(p.inputs))),
     Member("constant_value_ids", DArr(IntDocs(p.constants))),
     Member("value_info", DArr(InfoEntries(Ascending(p.shapes.Keys + p.dtypes.Keys), p.shapes, p.dtypes))),
     Member("disco_placement", PlacementDoc(p.placement)),
     Member("reserved", DObj([]))]
  }

  /** The text a plan is saved as. */
  function Serialized(p: Plan): string {
    Render(DObj(PlanMembers(p)))
  }

  // ---------- reading a plan ----------

  datatype PlanError =
    | BadJson(problem: Problem)
    | WrongKind
    | MissingField
    | OutOfRange
    | DeviceMismatch
    | UnsupportedVersion
    | UnsupportedNode

  type Read<T> = Result<T, PlanError>

  /** A required member of an object. */
  function Required(j: J, key: string): Read<J> {
    if !j.Obj? then Err(WrongKind) else if key in j.o then Ok(j.o[key]) else Err(MissingField)
  }

  /** A member that may be absent. */
  function Find(j: J, key: string): Option<J> {
    if j.Obj? && key in j.o then Some(j.o[key]) else None
  }

  function AsInt(j: J): Read<int> {
    if !j.Int? then Err(WrongKind) else if INT_MIN <= j.i <= INT_MAX then Ok(j.i) else Err(OutOfRange)
  }

  function AsInt64(j: J): Read<int> {
    if j.Int? then Ok(j.i) else Err(WrongKind)
  }

  function AsBool(j: J): Read<bool> {
    if j.Bool? then Ok(j.b) else Err(WrongKind)
  }

  function AsString(j: J): Read<string> {
    if j.Str? then Ok(j.s) else Err(WrongKind)
  }

  function AsArray(j: J): Read<seq<J>> {
    if j.Arr? then Ok(j.a) else Err(WrongKind)
  }

  function AsObject(j: J): Read<J> {
    if j.Obj? then Ok(j) else Err(WrongKind)
  }

  predicate Absent(v: Option<J>) {
    v.None? || v.value.Null?
  }

  function IntOr(j: J, key: string, d: int): Read<int> {
    if Absent(Find(j, key)) then Ok(d) else AsInt(Find(j, key).value)
  }

  function BoolOr(j: J, key: string, d: bool): Read<bool> {
    if Absent(Find(j, key)) then Ok(d) else AsBool(Find(j, key).value)
  }

  function StringOr(j: J, key: string, d: string): Read<string> {
    if Absent(Find(j, key)) then Ok(d) else AsString(Find(j, key).value)
  }

  function Ints(a: seq<J>): Read<seq<int>> {
    if a == [] then Ok([]) else
    var x :- AsInt(a[0]);
    var xs :- Ints(a[1..]);
    Ok([x] + xs)
  }

  function Int64s(a: seq<J>): Read<seq<int>> {
    if a == [] then Ok([]) else
    var x :- AsInt64(a[0]);
    var xs :- Int64s(a[1..]);
    Ok([x] + xs)
  }

  function RequiredInt(j: J, key: string): Read<int> {
    var v :- Required(j, key);
    AsInt(v)
  }

  function RequiredString(j: J, key: string): Read<string> {
    var v :- Required(j, key);
    AsString(v)
  }

  function RequiredArray(j: J, key: string): Read<seq<J>> {
    var v :- Required(j, key);
    AsArray(v)
  }

  function RequiredInts(j: J, key: string): Read<seq<int>> {
    var a :- RequiredArray(j, key);
    Ints(a)
  }

  function ReadDevice(j: J): Read<Option<Device>> {
    if j.Null? then Ok(None) else
    var t :- RequiredInt(j, "device_type");
    var id :- RequiredInt(j, "device_id");
    Ok(Some(Device(t, id)))
  }

  function ReadAttrs(j: J): Read<TargetAttrs> {
    var obj :- AsObject(j);
    var arch :- StringOr(j, "arch", "");
    var version :- StringOr(j, "compute_version", "0.0");
    var threads :- IntOr(j, "max_threads_per_block", 1);
    var warp :- IntOr(j, "warp_size", 1);
    var shared :- IntOr(j, "max_shared_memory_per_block", 0);
    Ok(TargetAttrs(arch, version, threads, warp, shared))
  }

  /** Attributes of a target written without any. */
  const DEFAULT_ATTRS: TargetAttrs := TargetAttrs("", "0.0", 1, 1, 0)

  function ReadTarget(j: J): Read<Option<Target>> {
    if j.Null? then Ok(None) else
    var obj :- AsObject(j);
    var kind :- StringOr(j, "kind", "");
    var t :- IntOr(j, "device_type", UNKNOWN_DEVICE);
    var id :- IntOr(j, "device_id", -1);
    var attrs :- if Absent(Find(j, "attrs")) then Ok(DEFAULT_ATTRS) else ReadAttrs(Find(j, "attrs").value);
    Ok(Some(Target(kind, t, id, attrs)))
  }

  predicate Compatible(d: Device, t: Option<Target>) {
    t.Some? ==>
      (t.value.deviceType != UNKNOWN_DEVICE ==> t.value.deviceType == d.deviceType)
      && (t.value.deviceId >= 0 ==> t.value.deviceId == d.deviceId)
  }

  /** The constructors of virtual devices: a missing id is taken from the device or the target. */
  function MakeVd(d: Option<Device>, t: Option<Target>, scope: string, id: int): Read<VirtualDevice> {
    match d
    case Some(dev) =>
      if Compatible(dev, t) then
        Ok(VirtualDevice(if id == INVALID_ID then dev.deviceId else id, scope, d, t))
      else Err(DeviceMismatch)
    case None =>
      Ok(VirtualDevice(if id == INVALID_ID && t.Some? then t.value.deviceId else id, scope, None, t))
  }

  function OptionalDevice(j: J): Read<Option<Device>> {
    match Find(j, "device") case None => Ok(None) case Some(d) => ReadDevice(d)
  }

  function OptionalTarget(j: J): Read<Option<Target>> {
    match Find(j, "target") case None => Ok(None) case Some(t) => ReadTarget(t)
  }

  function ReadVd(j: J): Read<Option<VirtualDevice>> {
    if j.Null? then Ok(None) else
    var obj :- AsObject(j);
    var scope :- StringOr(j, "memory_scope", "");
    var id :- IntOr(j, "virtual_device_id", INVALID_ID);
    var d :- OptionalDevice(j);
    var t :- OptionalTarget(j);
    var v :- MakeVd(d, t, scope, id);
    Ok(Some(v))
  }

  function ReadWorker(j: J): Read<Worker> {
    var obj :- AsObject(j);
    var workerId :- RequiredInt(j, "worker_id");
    var groupId :- IntOr(j, "group_id", 0);
    var localRank :- IntOr(j, "local_rank", workerId);
    var d :- OptionalDevice(j);
    var t :- OptionalTarget(j);
    var v :-
      if Find(j, "virtual_device").Some? then ReadVd(Find(j, "virtual_device").value)
      else if d.Some? || t.Some? then
        var made :- MakeVd(d, t, "", INVALID_ID);
        Ok(Some(made))
      else Ok(None);
    Ok(Worker(workerId, groupId, localRank, d, t, v))
  }

  function ReadWorkers(a: seq<J>): Read<seq<Option<Worker>>> {
    if a == [] then Ok([]) else
    var w :- ReadWorker(a[0]);
    var ws :- ReadWorkers(a[1..]);
    Ok([Some(w)] + ws)
  }

  function ReadPlacement(j: J): Read<Option<Placement>> {
    if j.Null? then Ok(None) else
    var obj :- AsObject(j);
    var groups :- IntOr(j, "num_groups", 1);
    var a :- RequiredArray(j, "workers");
    var ws :- ReadWorkers(a);
    Ok(Some(Placement(ws, if groups > 0 then groups else 1)))
  }

  function OptionalVd(j: J, key: string): Read<Option<VirtualDevice>> {
    match Find(j, key) case None => Ok(None) case Some(v) => ReadVd(v)
  }

  function ReadCopy(j: J): Read<CommAttrs> {
    var obj :- AsObject(j);
    var src :- OptionalVd(j, "src_virtual_device");
    var dst :- OptionalVd(j, "dst_virtual_device");
    var async :- BoolOr(j, "async", false);
    var inGroup :- BoolOr(j, "in_group", true);
    Ok(Copy(src, dst, async, inGroup))
  }

  function ReadCollective(op: string, j: J): Read<CommAttrs> {
    var obj :- AsObject(j);
    var kind :- StringOr(j, "kind", op);
    var reduceKind :- StringOr(j, "reduce_kind", "sum");
    var inGroup :- BoolOr(j, "in_group", true);
    var groupId :- IntOr(j, "group_id", 0);
    var root :- IntOr(j, "root_worker", 0);
    Ok(Collective(kind, reduceKind, inGroup, groupId, root))
  }

  const COPY: string := "device.copy"

  function ReadComm(op: string, attrs: Option<J>): Read<CommAttrs> {
    if op == COPY then
      if Absent(attrs) then Ok(Copy(None, None, false, true)) else ReadCopy(attrs.value)
    else
      if Absent(attrs) then Ok(Collective(op, "sum", true, 0, 0)) else ReadCollective(op, attrs.value)
  }

  function ReadNode(j: J): Read<Node> {
    var obj :- AsObject(j);
    var kind :- RequiredString(j, "kind");
    var ins :- RequiredInts(j, "input_values");
    var outs :- RequiredInts(j, "output_values");
    var workers :- RequiredInts(j, "worker_set");
    if kind == "kernel" then
      var op :- RequiredString(j, "op_name");
      var symbol :- StringOr(j, "kernel_symbol", "");
      Ok(Kernel(op, symbol, ins, outs, workers))
    else if kind == "comm" then
      var op :- RequiredString(j, "op_name");
      var attrs :- ReadComm(op, Find(j, "attrs"));
      Ok(Comm(op, Some(attrs), ins, outs, workers))
    else if kind == "barrier" then
      var tag :- RequiredString(j, "tag");
      Ok(Barrier(tag, workers))
    else Err(UnsupportedNode)
  }

  /** Null entries are skipped. */
  function ReadNodes(a: seq<J>): Read<seq<Option<Node>>> {
    if a == [] then Ok([])
    else if a[0].Null? then ReadNodes(a[1..])
    else
      var n :- ReadNode(a[0]);
      var ns :- ReadNodes(a[1..]);
      Ok([Some(n)] + ns)
  }

  /** Entries without a device are skipped; a later entry replaces an earlier one of the same id. */
  function ReadDevices(a: seq<J>, acc: map<int, Option<VirtualDevice>>): Read<map<int, Option<VirtualDevice>>> {
    if a == [] then Ok(acc) else
    var obj :- AsObject(a[0]);
    var id :- RequiredInt(a[0], "value_id");
    var j :- Required(a[0], "virtual_device");
    var v :- ReadVd(j);
    ReadDevices(a[1..], if v.Some? then acc[id := v] else acc)
  }

  datatype Infos = Infos(shapes: map<int, seq<int>>, dtypes: map<int, string>)

  function ReadInfos(a: seq<J>, acc: Infos): Read<Infos> {
    if a == [] then Ok(acc) else
    var obj :- AsObject(a[0]);
    var id :- RequiredInt(a[0], "value_id");
    var shape :- RequiredArray(a[0], "shape");
    var xs :- Int64s(shape);
    var dtype :- RequiredString(a[0], "dtype");
    ReadInfos(a[1..], Infos(acc.shapes[id := xs], acc.dtypes[id := dtype]))
  }

  function ReadPlan(j: J): Read<Plan> {
    var obj :- AsObject(j);
    var version :- RequiredInt(j, "schema_version");
    if version != 1 then Err(UnsupportedVersion) else
    var numValues :- RequiredInt(j, "num_values");
    var output :- RequiredInt(j, "output_value");
    var nodesJ :- RequiredArray(j, "nodes");
    var nodes :- ReadNodes(nodesJ);
    var devicesJ :- RequiredArray(j, "value_virtual_devices");
    var devices :- ReadDevices(devicesJ, map[]);
    var inputs :- RequiredInts(j, "input_value_ids");
    var constants :- RequiredInts(j, "constant_value_ids");
    var infosJ :- RequiredArray(j, "value_info");
    var infos :- ReadInfos(infosJ, Infos(map[], map[]));
    var placementJ :- Required(j, "disco_placement");
    var placement :- ReadPlacement(placementJ);
    var reservedJ :- Required(j, "reserved");
    var reserved :- AsObject(reservedJ);
    Ok(Plan(nodes, devices, inputs, constants, infos.shapes, infos.dtypes, numValues, placement, output))
  }

  /** Reading a saved plan. */
  function Deserialized(text: string): Read<Plan> {
    match Parse(text)
    case Err(e) => Err(BadJson(e))
    case Ok(j) => ReadPlan(j)
  }
}
