/** Saving a plan and reading it back: exactly which plans come back unchanged. */
module PlanRoundTrip {
  import opened Base
  import opened Json
  import opened JsonRoundTrip
  import opened ExecutionPlan

  // ---------- normal form ----------

  predicate Int32(i: int) {
    INT_MIN <= i <= INT_MAX
  }

  predicate AllInt32(xs: seq<int>) {
    forall i :: 0 <= i < |xs| ==> Int32(xs[i])
  }

  predicate AllInt64(xs: seq<int>) {
    forall i :: 0 <= i < |xs| ==> INT64_MIN <= xs[i] <= INT64_MAX
  }

  predicate NormalDevice(d: Option<Device>) {
    d.Some? ==> Int32(d.value.deviceType) && Int32(d.value.deviceId)
  }

  /** The limits are stored as 64-bit integers but read as 32-bit ones. */
  predicate NormalTarget(t: Option<Target>) {
    t.Some? ==>
      Int32(t.value.deviceType) && Int32(t.value.deviceId)
      && Int32(t.value.attrs.maxThreads) && Int32(t.value.attrs.warpSize) && Int32(t.value.attrs.maxShared)
  }

  /** The id is missing only where there is nothing to take it from. */
  predicate NormalVd(v: Option<VirtualDevice>) {
    v.Some? ==>
      var VirtualDevice(id, _, device, target) := v.value;
      Int32(id) && NormalDevice(device) && NormalTarget(target)
      && (device.Some? ==>
            Compatible(device.value, target) && (id == INVALID_ID ==> device.value.deviceId == INVALID_ID))
      && (device.None? && target.Some? && id == INVALID_ID ==> target.value.deviceId == INVALID_ID)
  }

  predicate NormalWorker(w: Option<Worker>) {
    w.Some? && Int32(w.value.workerId) && Int32(w.value.groupId) && Int32(w.value.localRank)
    && NormalDevice(w.value.device) && NormalTarget(w.value.target) && NormalVd(w.value.virtualDevice)
  }

  predicate NormalWorkers(ws: seq<Option<Worker>>) {
    forall i :: 0 <= i < |ws| ==> NormalWorker(ws[i])
  }

  predicate InOrder(ws: seq<Option<Worker>>) {
    forall i, j :: 0 <= i < j < |ws| ==> !Before(ws[j], ws[i])
  }

  predicate NormalComm(op: string, a: Option<CommAttrs>) {
    a.Some? && (op == COPY <==> a.value.Copy?) && match a.value
      case Copy(src, dst, _, _) => NormalVd(src) && NormalVd(dst)
      case Collective(_, _, _, groupId, root) => Int32(groupId) && Int32(root)
  }

  predicate NormalNode(n: Option<Node>) {
    n.Some? && match n.value
      case Kernel(_, _, ins, outs, workers) => AllInt32(ins) && AllInt32(outs) && AllInt32(workers)
      case Comm(op, attrs, ins, outs, workers) =>
        AllInt32(ins) && AllInt32(outs) && AllInt32(workers) && NormalComm(op, attrs)
      case Barrier(_, workers) => AllInt32(workers)
  }

  predicate NormalNodes(ns: seq<Option<Node>>) {
    forall i :: 0 <= i < |ns| ==> NormalNode(ns[i])
  }

  predicate NormalDevices(devices: map<int, Option<VirtualDevice>>) {
    forall id :: id in devices ==> Int32(id) && devices[id].Some? && NormalVd(devices[id])
  }

  predicate NormalInfos(shapes: map<int, seq<int>>, dtypes: map<int, string>) {
    shapes.Keys == dtypes.Keys && forall id :: id in shapes ==> Int32(id) && AllInt64(shapes[id])
  }

  /** Normal form but for the order of the workers. */
  predicate NormalBody(p: Plan) {
    && NormalNodes(p.nodes)
    && NormalDevices(p.devices)
    && AllInt32(p.inputs) && AllInt32(p.constants)
    && NormalInfos(p.shapes, p.dtypes)
    && Int32(p.numValues) && Int32(p.output)
    && (p.placement.Some? ==>
          NormalWorkers(p.placement.value.workers) && 1 <= p.placement.value.numGroups <= INT_MAX)
  }

  predicate NormalPlan(p: Plan) {
    NormalBody(p) && (p.placement.Some? ==> InOrder(p.placement.value.workers))
  }

  // ---------- members of an object ----------

  ghost predicate Apart(ms: seq<Member>) {
    forall i, j :: 0 <= i < j < |ms| ==> ms[i].name != ms[j].name
  }

  ghost predicate AllSound(ms: seq<Member>) {
    forall i :: 0 <= i < |ms| ==> Sound(ms[i].value)
  }

  lemma {:induction false} SoundObject(ms: seq<Member>)
    requires Apart(ms) && AllSound(ms)
    ensures SoundMembers(ms)
  {
    hide Sound;
    if ms != [] { SoundObject(ms[1..]); }
  }

  lemma {:induction false} Lookup(ms: seq<Member>, i: nat)
    requires Apart(ms) && i < |ms|
    ensures ms[i].name in DenoteMembers(ms) && DenoteMembers(ms)[ms[i].name] == Denote(ms[i].value)
  {
    hide Denote;
    if i > 0 { Lookup(ms[1..], i - 1); }
  }

  predicate Has(j: J, name: string, v: J) {
    j.Obj? && Find(j, name) == Some(v)
  }

  /** The value of an object holds every member under its name. */
  lemma ObjectHolds(ms: seq<Member>)
    requires Apart(ms)
    ensures forall i :: 0 <= i < |ms| ==> Has(Denote(DObj(ms)), ms[i].name, Denote(ms[i].value))
  {
    forall i | 0 <= i < |ms| ensures Has(Denote(DObj(ms)), ms[i].name, Denote(ms[i].value)) {
      Lookup(ms, i);
    }
  }

  // ---------- devices, targets and virtual devices ----------

  lemma {:induction false} IntsBack(xs: seq<int>)
    requires AllInt32(xs)
    ensures Ints(DenoteItems(IntDocs(xs))) == Ok(xs) && SoundItems(IntDocs(xs))
  {
    if xs != [] {
      IntsBack(xs[1..]);
      assert DenoteItems(IntDocs(xs))[1..] == DenoteItems(IntDocs(xs[1..]));
      assert [xs[0]] + xs[1..] == xs;
    }
  }

  lemma {:induction false} Int64sBack(xs: seq<int>)
    requires AllInt64(xs)
    ensures Int64s(DenoteItems(IntDocs(xs))) == Ok(xs) && SoundItems(IntDocs(xs))
  {
    if xs != [] {
      Int64sBack(xs[1..]);
      assert DenoteItems(IntDocs(xs))[1..] == DenoteItems(IntDocs(xs[1..]));
      assert [xs[0]] + xs[1..] == xs;
    }
  }

  lemma DeviceBack(d: Option<Device>)
    requires NormalDevice(d)
    ensures ReadDevice(Denote(DeviceDoc(d))) == Ok(d) && Sound(DeviceDoc(d))
  {
    hide DenoteMembers, SoundMembers;
    if d.Some? {
      var ms := DeviceDoc(d).members;
      ObjectHolds(ms);
      SoundObject(ms);
      assert Has(Denote(DeviceDoc(d)), ms[0].name, Int(d.value.deviceType));
      assert Has(Denote(DeviceDoc(d)), ms[1].name, Int(d.value.deviceId));
    }
  }

  lemma AttrsBack(a: TargetAttrs)
    requires Int32(a.maxThreads) && Int32(a.warpSize) && Int32(a.maxShared)
    ensures ReadAttrs(Denote(DObj(AttrsMembers(a)))) == Ok(a) && Sound(DObj(AttrsMembers(a)))
  {
    hide DenoteMembers, SoundMembers;
    var ms := AttrsMembers(a);
    ObjectHolds(ms);
    SoundObject(ms);
    var j := Denote(DObj(ms));
    assert Has(j, ms[0].name, Str(a.arch));
    assert Has(j, ms[1].name, Str(a.computeVersion));
    assert Has(j, ms[2].name, Int(a.maxThreads));
    assert Has(j, ms[3].name, Int(a.warpSize));
    assert Has(j, ms[4].name, Int(a.maxShared));
  }

  lemma TargetBack(t: Option<Target>)
    requires NormalTarget(t)
    ensures ReadTarget(Denote(TargetDoc(t))) == Ok(t) && Sound(TargetDoc(t))
  {
    hide DenoteMembers, SoundMembers, ReadAttrs, AttrsMembers;
    if t.Some? {
      var ms := TargetMembers(t.value);
      AttrsBack(t.value.attrs);
      ObjectHolds(ms);
      SoundObject(ms);
      var j := Denote(DObj(ms));
      assert Has(j, ms[0].name, Str(t.value.kind));
      assert Has(j, ms[1].name, Int(t.value.deviceType));
      assert Has(j, ms[2].name, Int(t.value.deviceId));
      assert Has(j, ms[3].name, Denote(DObj(AttrsMembers(t.value.attrs))));
    }
  }

  lemma VdBack(v: Option<VirtualDevice>)
    requires NormalVd(v)
    ensures ReadVd(Denote(VdDoc(v))) == Ok(v) && Sound(VdDoc(v))
  {
    hide DenoteMembers, SoundMembers, ReadDevice, ReadTarget, DeviceDoc, TargetDoc, NormalTarget, NormalDevice;
    if v.Some? {
      var ms := VdMembers(v.value);
      DeviceBack(v.value.device);
      TargetBack(v.value.target);
      ObjectHolds(ms);
      SoundObject(ms);
      var j := Denote(DObj(ms));
      assert Has(j, ms[0].name, Int(v.value.id));
      assert Has(j, ms[1].name, Str(v.value.scope));
      assert Has(j, ms[2].name, Denote(DeviceDoc(v.value.device)));
      assert Has(j, ms[3].name, Denote(TargetDoc(v.value.target)));
    }
  }

  /** A virtual device that was read is in normal form. */
  lemma VdRead(j: J)
    ensures ReadVd(j).Ok? ==> NormalVd(ReadVd(j).value)
  {
    if ReadVd(j).Ok? && !j.Null? {
      MadeNormal(
        OptionalDevice(j).value, OptionalTarget(j).value,
        StringOr(j, "memory_scope", "").value, IntOr(j, "virtual_device_id", INVALID_ID).value);
    }
  }

  lemma MadeNormal(d: Option<Device>, t: Option<Target>, scope: string, id: int)
    requires NormalDevice(d) && NormalTarget(t) && Int32(id)
    ensures MakeVd(d, t, scope, id).Ok? ==> NormalVd(Some(MakeVd(d, t, scope, id).value))
  {
  }

  // ---------- workers ----------

  lemma WorkerBack(w: Worker)
    requires NormalWorker(Some(w))
    ensures ReadWorker(Denote(DObj(WorkerMembers(w)))) == Ok(w) && Sound(DObj(WorkerMembers(w)))
  {
    hide DenoteMembers, SoundMembers, ReadDevice, ReadTarget, ReadVd, DeviceDoc, TargetDoc, VdDoc, NormalTarget;
    hide NormalDevice, NormalVd;
    var ms := WorkerMembers(w);
    DeviceBack(w.device);
    TargetBack(w.target);
    VdBack(w.virtualDevice);
    ObjectHolds(ms);
    SoundObject(ms);
    var j := Denote(DObj(ms));
    assert Has(j, ms[0].name, Int(w.workerId));
    assert Has(j, ms[1].name, Int(w.groupId));
    assert Has(j, ms[2].name, Int(w.localRank));
    assert Has(j, ms[3].name, Denote(DeviceDoc(w.device)));
    assert Has(j, ms[4].name, Denote(TargetDoc(w.target)));
    assert Has(j, ms[5].name, Denote(VdDoc(w.virtualDevice)));
  }

  lemma {:induction false} WorkersBack(ws: seq<Option<Worker>>)
    requires NormalWorkers(ws)
    ensures ReadWorkers(DenoteItems(WorkerDocs(ws))) == Ok(ws) && SoundItems(WorkerDocs(ws))
  {
    hide ReadWorker, WorkerMembers, NormalWorker, Denote, Sound;
    if ws != [] {
      assert NormalWorker(ws[0]) && ws[0].Some? by { Defined(ws[0]); }
      WorkerBack(ws[0].value);
      assert NormalWorkers(ws[1..]);
      WorkersBack(ws[1..]);
      assert DenoteItems(WorkerDocs(ws))[1..] == DenoteItems(WorkerDocs(ws[1..]));
      assert [ws[0]] + ws[1..] == ws;
    }
  }

  lemma Defined(w: Option<Worker>)
    requires NormalWorker(w)
    ensures w.Some?
  {
  }

  lemma {:induction false} WorkersRead(a: seq<J>)
    ensures ReadWorkers(a).Ok? ==> NormalWorkers(ReadWorkers(a).value)
  {
    hide ReadWorker, NormalWorker;
    if a != [] {
      WorkerRead(a[0]);
      WorkersRead(a[1..]);
    }
  }

  lemma WorkerRead(j: J)
    ensures ReadWorker(j).Ok? ==> NormalWorker(Some(ReadWorker(j).value))
  {
    hide ReadVd, MakeVd, NormalVd;
    if Find(j, "virtual_device").Some? { VdRead(Find(j, "virtual_device").value); }
    if OptionalDevice(j).Ok? && OptionalTarget(j).Ok? {
      assert Int32(INVALID_ID);
      MadeNormal(OptionalDevice(j).value, OptionalTarget(j).value, "", INVALID_ID);
    }
    assert NormalVd(None) by { NoVd(); }
  }

  lemma NoVd()
    ensures NormalVd(None)
  {
  }

  lemma {:induction false} InsertKeeps(ws: seq<Option<Worker>>, w: Option<Worker>)
    requires NormalWorkers(ws) && NormalWorker(w)
    ensures NormalWorkers(Insert(ws, w))
  {
    hide NormalWorker, Before;
    if ws != [] { InsertKeeps(ws[1..], w); }
  }

  lemma {:induction false} InsertOrders(ws: seq<Option<Worker>>, w: Option<Worker>)
    requires InOrder(ws)
    ensures InOrder(Insert(ws, w))
    ensures forall v :: v in Insert(ws, w) ==> v == w || v in ws
  {
    if ws != [] {
      InsertOrders(ws[1..], w);
      var r := Insert(ws, w);
      forall i, j | 0 <= i < j < |r| ensures !Before(r[j], r[i]) {
        if !Before(w, ws[0]) {
          var rest := Insert(ws[1..], w);
          assert r[j] == rest[j - 1] && rest[j - 1] in rest;
          assert i > 0 ==> r[i] == rest[i - 1];
        } else {
          assert r[j] == ws[j - 1];
        }
      }
    }
  }

  lemma {:induction false} InsertLast(ws: seq<Option<Worker>>, w: Option<Worker>)
    requires forall i :: 0 <= i < |ws| ==> !Before(w, ws[i])
    ensures Insert(ws, w) == ws + [w]
  {
    if ws != [] { InsertLast(ws[1..], w); }
  }

  /** Sorting keeps normal workers normal, and changes nothing exactly when they are in order. */
  lemma {:induction false} SortFacts(ws: seq<Option<Worker>>)
    ensures NormalWorkers(ws) ==> NormalWorkers(Sort(ws))
    ensures Sort(ws) == ws <==> InOrder(ws)
    ensures InOrder(Sort(ws))
  {
    hide NormalWorker, Insert, Before;
    if ws != [] {
      var n := |ws| - 1;
      SortFacts(ws[..n]);
      if NormalWorkers(ws) { InsertKeeps(Sort(ws[..n]), ws[n]); }
      InsertOrders(Sort(ws[..n]), ws[n]);
      if InOrder(ws) {
        assert InOrder(ws[..n]);
        InsertLast(ws[..n], ws[n]);
        assert ws[..n] + [ws[n]] == ws;
      }
    }
  }

  /** Workers are written by ascending id, missing ones last, and none is lost or added. */
  lemma SortAscends(ws: seq<Option<Worker>>)
    ensures var r := Sort(ws);
      forall i, j :: 0 <= i < j < |r| && r[j].Some? ==> r[i].Some? && r[i].value.workerId <= r[j].value.workerId
    ensures multiset(Sort(ws)) == multiset(ws)
  {
    hide Sort;
    SortFacts(ws);
    SortKeeps(ws);
    var r := Sort(ws);
    forall i, j | 0 <= i < j < |r| && r[j].Some?
      ensures r[i].Some? && r[i].value.workerId <= r[j].value.workerId
    {
      assert !Before(r[j], r[i]);
    }
  }

  lemma {:induction false} SortKeeps(ws: seq<Option<Worker>>)
    ensures multiset(Sort(ws)) == multiset(ws)
  {
    hide Insert;
    if ws != [] {
      var n := |ws| - 1;
      SortKeeps(ws[..n]);
      InsertAdds(Sort(ws[..n]), ws[n]);
      assert ws == ws[..n] + [ws[n]];
    }
  }

  lemma {:induction false} InsertAdds(ws: seq<Option<Worker>>, w: Option<Worker>)
    ensures multiset(Insert(ws, w)) == multiset(ws) + multiset{w}
  {
    hide Before;
    if ws != [] {
      InsertAdds(ws[1..], w);
      assert ws == [ws[0]] + ws[1..];
    }
  }

  /** The plan with its workers in the order they are written in. */
  function Ordered(p: Option<Placement>): Option<Placement> {
    match p case None => None case Some(q) => Some(q.(workers := Sort(q.workers)))
  }

  predicate NormalPlacement(p: Option<Placement>) {
    p.Some? ==> NormalWorkers(p.value.workers) && 1 <= p.value.numGroups <= INT_MAX
  }

  lemma PlacementBack(p: Option<Placement>)
    requires NormalPlacement(p)
    ensures ReadPlacement(Denote(PlacementDoc(p))) == Ok(Ordered(p)) && Sound(PlacementDoc(p))
  {
    hide DenoteMembers, SoundMembers, ReadWorkers, WorkerDocs, Sort, NormalWorkers;
    if p.Some? {
      var ms := PlacementMembers(p.value);
      SortFacts(p.value.workers);
      WorkersBack(Sort(p.value.workers));
      ObjectHolds(ms);
      SoundObject(ms);
      var j := Denote(DObj(ms));
      assert Has(j, ms[0].name, Int(p.value.numGroups));
      assert Has(j, ms[1].name, Arr(DenoteItems(WorkerDocs(Sort(p.value.workers)))));
    }
  }

  lemma PlacementRead(j: J)
    ensures ReadPlacement(j).Ok? ==> NormalPlacement(ReadPlacement(j).value)
  {
    hide ReadWorkers, NormalWorkers;
    if !j.Null? && RequiredArray(j, "workers").Ok? { WorkersRead(RequiredArray(j, "workers").value); }
  }

  // ---------- nodes ----------

  lemma CommApart(a: CommAttrs)
    ensures Apart(CommMembers(a))
  {
  }

  lemma CommBack(op: string, a: Option<CommAttrs>)
    requires NormalComm(op, a)
    ensures Denote(CommDoc(a)).Obj? && ReadComm(op, Some(Denote(CommDoc(a)))) == Ok(a.value) && Sound(CommDoc(a))
  {
    hide DenoteMembers, SoundMembers, ReadVd, VdDoc, NormalVd, Apart;
    CommApart(a.value);
    var ms := CommMembers(a.value);
    var j := Denote(DObj(ms));
    match a.value
    case Copy(src, dst, async, inGroup) =>
      VdBack(src);
      VdBack(dst);
      ObjectHolds(ms);
      SoundObject(ms);
      assert Has(j, ms[0].name, Denote(VdDoc(src)));
      assert Has(j, ms[1].name, Denote(VdDoc(dst)));
      assert Has(j, ms[2].name, Bool(async));
      assert Has(j, ms[3].name, Bool(inGroup));
    case Collective(kind, reduceKind, inGroup, groupId, root) =>
      ObjectHolds(ms);
      SoundObject(ms);
      assert Has(j, ms[0].name, Str(kind));
      assert Has(j, ms[1].name, Str(reduceKind));
      assert Has(j, ms[2].name, Bool(inGroup));
      assert Has(j, ms[3].name, Int(groupId));
      assert Has(j, ms[4].name, Int(root));
  }

  lemma CommRead(op: string, attrs: Option<J>)
    ensures ReadComm(op, attrs).Ok? ==> NormalComm(op, Some(ReadComm(op, attrs).value))
  {
    hide ReadVd, NormalVd;
    NoVd();
    if !Absent(attrs) && op == COPY {
      if Find(attrs.value, "src_virtual_device").Some? { VdRead(Find(attrs.value, "src_virtual_device").value); }
      if Find(attrs.value, "dst_virtual_device").Some? { VdRead(Find(attrs.value, "dst_virtual_device").value); }
    }
  }

  /** The members every node has. */
  lemma NodeHead(n: Node, ins: seq<int>, outs: seq<int>, workers: seq<int>)
    requires AllInt32(ins) && AllInt32(outs) && AllInt32(workers)
    requires var ms := NodeMembers(n);
      ms[1].value == DArr(IntDocs(ins)) && ms[2].value == DArr(IntDocs(outs)) && ms[3].value == DArr(IntDocs(workers))
    ensures var j := Denote(DObj(NodeMembers(n)));
      RequiredInts(j, "input_values") == Ok(ins) && RequiredInts(j, "output_values") == Ok(outs)
      && RequiredInts(j, "worker_set") == Ok(workers)
  {
    hide DenoteMembers, Ints, IntDocs, AllInt32, Apart;
    IntsBack(ins);
    IntsBack(outs);
    IntsBack(workers);
    NodeApart(n);
    var ms := NodeMembers(n);
    ObjectHolds(ms);
    var j := Denote(DObj(ms));
    assert Has(j, ms[1].name, Arr(DenoteItems(IntDocs(ins))));
    assert Has(j, ms[2].name, Arr(DenoteItems(IntDocs(outs))));
    assert Has(j, ms[3].name, Arr(DenoteItems(IntDocs(workers))));
  }

  lemma NodeBack(n: Node)
    requires NormalNode(Some(n))
    ensures ReadNode(Denote(DObj(NodeMembers(n)))) == Ok(n) && Denote(DObj(NodeMembers(n))).Obj?
  {
    hide DenoteMembers, RequiredInts, IntDocs, AllInt32, ReadComm, NormalComm, CommDoc, Apart;
    NodeApart(n);
    var ms := NodeMembers(n);
    ObjectHolds(ms);
    var j := Denote(DObj(ms));
    match n
    case Kernel(op, symbol, ins, outs, workers) =>
      NodeHead(n, ins, outs, workers);
      assert Has(j, ms[0].name, Str("kernel"));
      assert Has(j, ms[4].name, Str(op));
      assert Has(j, ms[5].name, Str(symbol));
    case Comm(op, attrs, ins, outs, workers) =>
      NodeHead(n, ins, outs, workers);
      CommBack(op, attrs);
      CommDefined(op, attrs);
      assert Has(j, ms[0].name, Str("comm"));
      assert Has(j, ms[4].name, Str(op));
      assert Has(j, ms[5].name, Denote(CommDoc(attrs)));
    case Barrier(tag, workers) =>
      NoInts();
      NodeHead(n, [], [], workers);
      assert Has(j, ms[0].name, Str("barrier"));
      assert Has(j, ms[4].name, Str(tag));
  }

  lemma NoInts()
    ensures AllInt32([]) && IntDocs([]) == []
  {
  }

  lemma CommDefined(op: string, a: Option<CommAttrs>)
    requires NormalComm(op, a)
    ensures a.Some?
  {
  }

  lemma NodeApart(n: Node)
    ensures Apart(NodeMembers(n))
  {
  }

  lemma NodeSound(n: Node)
    requires NormalNode(Some(n))
    ensures Sound(DObj(NodeMembers(n)))
  {
    hide SoundMembers, NormalComm, CommDoc, IntDocs, AllInt32, Apart;
    IntsBack(n.workers);
    if !n.Barrier? {
      IntsBack(n.ins);
      IntsBack(n.outs);
    }
    if n.Comm? { CommBack(n.op, n.attrs); }
    NodeApart(n);
    SoundObject(NodeMembers(n));
  }

  lemma {:induction false} NodesBack(ns: seq<Option<Node>>)
    requires NormalNodes(ns)
    ensures ReadNodes(DenoteItems(NodeDocs(ns))) == Ok(ns) && SoundItems(NodeDocs(ns))
  {
    hide ReadNode, NodeMembers, NormalNode, Denote, Sound;
    if ns != [] {
      assert NormalNode(ns[0]);
      NodeDefined(ns[0]);
      NodeBack(ns[0].value);
      NodeSound(ns[0].value);
      assert NormalNodes(ns[1..]);
      NodesBack(ns[1..]);
      assert DenoteItems(NodeDocs(ns))[1..] == DenoteItems(NodeDocs(ns[1..]));
      assert [ns[0]] + ns[1..] == ns;
    }
  }

  lemma NodeDefined(n: Option<Node>)
    requires NormalNode(n)
    ensures n.Some?
  {
  }

  lemma {:induction false} IntsRead(a: seq<J>)
    ensures Ints(a).Ok? ==> AllInt32(Ints(a).value)
  {
    if a != [] { IntsRead(a[1..]); }
  }

  lemma RequiredIntsRead(j: J, key: string)
    ensures RequiredInts(j, key).Ok? ==> AllInt32(RequiredInts(j, key).value)
  {
    if RequiredArray(j, key).Ok? { IntsRead(RequiredArray(j, key).value); }
  }

  lemma NodeRead(j: J)
    ensures ReadNode(j).Ok? ==> NormalNode(Some(ReadNode(j).value))
  {
    hide RequiredInts, AllInt32, ReadComm, NormalComm;
    RequiredIntsRead(j, "input_values");
    RequiredIntsRead(j, "output_values");
    RequiredIntsRead(j, "worker_set");
    if RequiredString(j, "op_name").Ok? { CommRead(RequiredString(j, "op_name").value, Find(j, "attrs")); }
  }

  lemma {:induction false} NodesRead(a: seq<J>)
    ensures ReadNodes(a).Ok? ==> NormalNodes(ReadNodes(a).value)
  {
    hide ReadNode, NormalNode;
    if a != [] {
      NodeRead(a[0]);
      NodesRead(a[1..]);
    }
  }

  // ---------- integers in a parsed value ----------

  /** The integers found within `n` steps into the value fit in 64 bits. */
  ghost predicate Bounded(j: J, n: nat)
    decreases n, 0
  {
    n > 0 ==> match j
      case Int(i) => INT64_MIN <= i <= INT64_MAX
      case Arr(a) => forall k :: 0 <= k < |a| ==> Bounded(a[k], n - 1)
      case Obj(o) => BoundedMembers(o, n - 1)
      case _ => true
  }

  ghost predicate BoundedMembers(o: map<string, J>, n: nat)
    decreases n, 1
  {
    forall key :: key in o ==> Bounded(o[key], n)
  }

  /** Every integer the parser produces fits in 64 bits. */
  lemma {:induction false} ValueBounded(text: string, n: nat)
    requires Value(text).Ok?
    ensures Bounded(Value(text).value.v, n)
    decreases |text|, 2
  {
    hide StringLiteral, Literal, Object, Array, Members, Elements;
    var s := SkipSpace(text);
    if n > 0 && s[0] == '{' {
      ObjectBounded(s[1..], n);
    } else if n > 0 && s[0] == '[' {
      ArrayBounded(s[1..], n);
    }
  }

  lemma {:induction false} ObjectBounded(text: string, n: nat)
    requires n > 0 && Object(text).Ok?
    ensures Bounded(Object(text).value.v, n)
    decreases |text|, 1
  {
    hide Members;
    var s := SkipSpace(text);
    if !At(s, '}') { MembersBounded(s, map[], n - 1); }
  }

  lemma {:induction false} MembersBounded(s: string, acc: map<string, J>, n: nat)
    requires Members(s, acc).Ok? && BoundedMembers(acc, n)
    ensures Members(s, acc).value.v.Obj? && BoundedMembers(Members(s, acc).value.v.o, n)
    decreases |s|, 0
  {
    hide StringLiteral, Value, Bounded;
    var m := NamedValue(s).value;
    var after := Expect(SkipSpace(StringLiteral(s).value.rest), ':').value;
    ValueBounded(after, n);
    var more := acc[m.v.0 := m.v.1];
    assert BoundedMembers(more, n);
    var t := SkipSpace(m.rest);
    if t[0] != '}' { MembersBounded(SkipSpace(t[1..]), more, n); }
  }

  lemma {:induction false} ArrayBounded(text: string, n: nat)
    requires n > 0 && Array(text).Ok?
    ensures Bounded(Array(text).value.v, n)
    decreases |text|, 4
  {
    hide Elements;
    var s := SkipSpace(text);
    if !At(s, ']') { ElementsBounded(s, [], n - 1); }
  }

  lemma {:induction false} ElementsBounded(s: string, acc: seq<J>, n: nat)
    requires Elements(s, acc).Ok? && forall k :: 0 <= k < |acc| ==> Bounded(acc[k], n)
    ensures Elements(s, acc).value.v.Arr?
    ensures forall k :: 0 <= k < |Elements(s, acc).value.v.a| ==> Bounded(Elements(s, acc).value.v.a[k], n)
    decreases |s|, 3
  {
    hide Value, Bounded;
    ValueBounded(s, n);
    var more := acc + [Value(s).value.v];
    var t := SkipSpace(Value(s).value.rest);
    if t[0] != ']' { ElementsBounded(SkipSpace(t[1..]), more, n); }
  }

  // ---------- maps from value ids ----------

  /** A map whose entries for the given ids are taken from another one. */
  function Filled<T>(acc: map<int, T>, ids: seq<int>, m: map<int, T>): map<int, T>
    requires forall i :: 0 <= i < |ids| ==> ids[i] in m
    decreases |ids|
  {
    if ids == [] then acc else Filled(acc[ids[0] := m[ids[0]]], ids[1..], m)
  }

  lemma {:induction false} FilledEntries<T>(acc: map<int, T>, ids: seq<int>, m: map<int, T>)
    requires forall i :: 0 <= i < |ids| ==> ids[i] in m
    requires forall k :: k in acc ==> k in m && acc[k] == m[k]
    ensures forall k :: k in Filled(acc, ids, m) <==> k in acc || k in ids
    ensures forall k :: k in Filled(acc, ids, m) ==> k in m && Filled(acc, ids, m)[k] == m[k]
    decreases |ids|
  {
    if ids != [] { FilledEntries(acc[ids[0] := m[ids[0]]], ids[1..], m); }
  }

  /** Entering every id in increasing order rebuilds the map. */
  lemma FilledAll<T>(m: map<int, T>, ids: seq<int>)
    requires forall i :: 0 <= i < |ids| ==> ids[i] in m
    requires forall k :: k in m ==> k in ids
    ensures Filled(map[], ids, m) == m
  {
    var none: map<int, T> := map[];
    FilledEntries(none, ids, m);
    var r := Filled(none, ids, m);
    assert forall k :: k in m ==> k in r;
    assert forall k :: k in r ==> k in m && r[k] == m[k];
  }

  lemma DeviceEntryBack(id: int, v: Option<VirtualDevice>)
    requires Int32(id) && NormalVd(v)
    ensures var j := Denote(DeviceEntry(id, v));
      j.Obj? && RequiredInt(j, "value_id") == Ok(id) && Required(j, "virtual_device") == Ok(Denote(VdDoc(v)))
    ensures Sound(DeviceEntry(id, v))
  {
    hide DenoteMembers, SoundMembers, VdDoc, NormalVd;
    var ms := DeviceEntry(id, v).members;
    VdBack(v);
    ObjectHolds(ms);
    SoundObject(ms);
    assert Has(Denote(DObj(ms)), ms[0].name, Int(id));
    assert Has(Denote(DObj(ms)), ms[1].name, Denote(VdDoc(v)));
  }

  lemma {:induction false} DevicesBack(
    ids: seq<int>, devices: map<int, Option<VirtualDevice>>, acc: map<int, Option<VirtualDevice>>)
    requires NormalDevices(devices) && forall i :: 0 <= i < |ids| ==> ids[i] in devices
    ensures ReadDevices(DenoteItems(DeviceEntries(ids, devices)), acc) == Ok(Filled(acc, ids, devices))
    ensures SoundItems(DeviceEntries(ids, devices))
    decreases ids
  {
    hide RequiredInt, Required, ReadVd, VdDoc, NormalVd, Denote, Sound, DeviceEntry;
    if ids != [] {
      var id := ids[0];
      DeviceEntryBack(id, devices[id]);
      VdBack(devices[id]);
      DevicesBack(ids[1..], devices, acc[id := devices[id]]);
      assert DenoteItems(DeviceEntries(ids, devices))[1..] == DenoteItems(DeviceEntries(ids[1..], devices));
    }
  }

  lemma {:induction false} DevicesRead(a: seq<J>, acc: map<int, Option<VirtualDevice>>)
    requires NormalDevices(acc)
    ensures ReadDevices(a, acc).Ok? ==> NormalDevices(ReadDevices(a, acc).value)
    decreases a
  {
    hide ReadVd, NormalVd, Required;
    if a != [] && ReadDevices(a, acc).Ok? {
      var id := RequiredInt(a[0], "value_id").value;
      var j := Required(a[0], "virtual_device").value;
      VdRead(j);
      var v := ReadVd(j).value;
      DevicesRead(a[1..], if v.Some? then acc[id := v] else acc);
    }
  }

  lemma InfoEntryBack(id: int, shape: seq<int>, dtype: string)
    requires Int32(id) && AllInt64(shape)
    ensures var j := Denote(InfoEntry(id, shape, dtype));
      j.Obj? && RequiredInt(j, "value_id") == Ok(id) && RequiredString(j, "dtype") == Ok(dtype)
      && RequiredArray(j, "shape") == Ok(DenoteItems(IntDocs(shape)))
    ensures Sound(InfoEntry(id, shape, dtype))
  {
    hide DenoteMembers, SoundMembers, IntDocs, AllInt64;
    var ms := InfoEntry(id, shape, dtype).members;
    Int64sBack(shape);
    ObjectHolds(ms);
    SoundObject(ms);
    assert Has(Denote(DObj(ms)), ms[0].name, Int(id));
    assert Has(Denote(DObj(ms)), ms[1].name, Arr(DenoteItems(IntDocs(shape))));
    assert Has(Denote(DObj(ms)), ms[2].name, Str(dtype));
  }

  predicate Known(ids: seq<int>, shapes: map<int, seq<int>>, dtypes: map<int, string>) {
    forall i :: 0 <= i < |ids| ==> ids[i] in shapes && ids[i] in dtypes && Int32(ids[i]) && AllInt64(shapes[ids[i]])
  }

  lemma {:induction false} InfosBack(ids: seq<int>, shapes: map<int, seq<int>>, dtypes: map<int, string>, acc: Infos)
    requires Known(ids, shapes, dtypes)
    ensures ReadInfos(DenoteItems(InfoEntries(ids, shapes, dtypes)), acc)
         == Ok(Infos(Filled(acc.shapes, ids, shapes), Filled(acc.dtypes, ids, dtypes)))
    ensures SoundItems(InfoEntries(ids, shapes, dtypes))
    decreases ids
  {
    hide RequiredInt, RequiredArray, RequiredString, Int64s, IntDocs, Denote, Sound, InfoEntry, AllInt64;
    if ids != [] {
      var id := ids[0];
      InfoEntryBack(id, shapes[id], dtypes[id]);
      Int64sBack(shapes[id]);
      InfosBack(ids[1..], shapes, dtypes, Infos(acc.shapes[id := shapes[id]], acc.dtypes[id := dtypes[id]]));
      assert DenoteItems(InfoEntries(ids, shapes, dtypes))[1..] == DenoteItems(InfoEntries(ids[1..], shapes, dtypes));
    }
  }

  lemma {:induction false} Int64sRead(a: seq<J>)
    requires forall k :: 0 <= k < |a| ==> Bounded(a[k], 1)
    ensures Int64s(a).Ok? ==> AllInt64(Int64s(a).value)
  {
    if a != [] {
      assert Bounded(a[0], 1);
      Int64sRead(a[1..]);
    }
  }

  lemma ShapeRead(j: J)
    requires Bounded(j, 3) && RequiredArray(j, "shape").Ok?
    ensures Int64s(RequiredArray(j, "shape").value).Ok? ==> AllInt64(Int64s(RequiredArray(j, "shape").value).value)
  {
    hide AllInt64, Int64s;
    assert BoundedMembers(j.o, 2);
    assert Bounded(j.o["shape"], 2);
    Int64sRead(RequiredArray(j, "shape").value);
  }

  lemma {:induction false} InfosRead(a: seq<J>, acc: Infos)
    requires NormalInfos(acc.shapes, acc.dtypes) && forall k :: 0 <= k < |a| ==> Bounded(a[k], 3)
    ensures ReadInfos(a, acc).Ok? ==> NormalInfos(ReadInfos(a, acc).value.shapes, ReadInfos(a, acc).value.dtypes)
    decreases a
  {
    hide RequiredArray, RequiredString, Int64s, AllInt64, Bounded;
    if a != [] && ReadInfos(a, acc).Ok? {
      var id := RequiredInt(a[0], "value_id").value;
      ShapeRead(a[0]);
      var xs := Int64s(RequiredArray(a[0], "shape").value).value;
      InfosRead(a[1..], Infos(acc.shapes[id := xs], acc.dtypes[id := RequiredString(a[0], "dtype").value]));
    }
  }

  // ---------- plans ----------

  lemma PlanInfosBack(p: Plan)
    requires NormalInfos(p.shapes, p.dtypes)
    ensures var docs := InfoEntries(Ascending(p.shapes.Keys + p.dtypes.Keys), p.shapes, p.dtypes);
      ReadInfos(DenoteItems(docs), Infos(map[], map[])) == Ok(Infos(p.shapes, p.dtypes)) && SoundItems(docs)
  {
    hide AllInt64, Ascending;
    var keys := p.shapes.Keys + p.dtypes.Keys;
    var ids := Ascending(keys);
    AscendingLists(keys);
    assert Known(ids, p.shapes, p.dtypes);
    InfosBack(ids, p.shapes, p.dtypes, Infos(map[], map[]));
    FilledAll(p.shapes, ids);
    FilledAll(p.dtypes, ids);
  }

  lemma PlanDevicesBack(p: Plan)
    requires NormalDevices(p.devices)
    ensures forall i :: 0 <= i < |Ascending(p.devices.Keys)| ==> Ascending(p.devices.Keys)[i] in p.devices
    ensures var docs := DeviceEntries(Ascending(p.devices.Keys), p.devices);
      ReadDevices(DenoteItems(docs), map[]) == Ok(p.devices) && SoundItems(docs)
  {
    hide Ascending, NormalDevices;
    AscendingLists(p.devices.Keys);
    DevicesBack(Ascending(p.devices.Keys), p.devices, map[]);
    FilledAll(p.devices, Ascending(p.devices.Keys));
  }

  lemma PlanApart(p: Plan)
    ensures Apart(PlanMembers(p))
  {
  }

  lemma PlanSound(p: Plan)
    requires NormalBody(p)
    ensures Sound(DObj(PlanMembers(p)))
  {
    hide SoundMembers, NormalNodes, NormalDevices, NormalInfos, NormalWorkers, AllInt32, Ascending,
      InfoEntries, DeviceEntries, IntDocs, NodeDocs, PlacementDoc, Apart;
    NodesBack(p.nodes);
    PlanDevicesBack(p);
    IntsBack(p.inputs);
    IntsBack(p.constants);
    PlanInfosBack(p);
    PlacementBack(p.placement);
    PlanApart(p);
    EmptySound();
    SoundObject(PlanMembers(p));
  }

  lemma EmptySound()
    ensures SoundMembers([])
  {
  }

  lemma PlanNumbersBack(p: Plan)
    requires NormalBody(p)
    ensures var j := Denote(DObj(PlanMembers(p)));
      RequiredInt(j, "schema_version") == Ok(1)
      && RequiredInt(j, "num_values") == Ok(p.numValues)
      && RequiredInt(j, "output_value") == Ok(p.output)
      && RequiredInts(j, "input_value_ids") == Ok(p.inputs)
      && RequiredInts(j, "constant_value_ids") == Ok(p.constants)
  {
    hide DenoteMembers, AllInt32, Ascending, InfoEntries, DeviceEntries, IntDocs, NodeDocs, PlacementDoc, Apart, Ints,
      NormalNodes, NormalDevices, NormalInfos, NormalWorkers;
    IntsBack(p.inputs);
    IntsBack(p.constants);
    PlanApart(p);
    var ms := PlanMembers(p);
    var j := Denote(DObj(ms));
    ObjectHolds(ms);
    assert Has(j, ms[0].name, Int(1));
    assert Has(j, ms[1].name, Int(p.numValues));
    assert Has(j, ms[2].name, Int(p.output));
    assert Has(j, ms[5].name, Arr(DenoteItems(IntDocs(p.inputs))));
    assert Has(j, ms[6].name, Arr(DenoteItems(IntDocs(p.constants))));
  }

  lemma PlanListsBack(p: Plan)
    ensures var j := Denote(DObj(PlanMembers(p)));
      j.Obj?
      && RequiredArray(j, "nodes") == Ok(DenoteItems(NodeDocs(p.nodes)))
      && (forall i :: 0 <= i < |Ascending(p.devices.Keys)| ==> Ascending(p.devices.Keys)[i] in p.devices)
      && RequiredArray(j, "value_virtual_devices") ==
        Ok(DenoteItems(DeviceEntries(Ascending(p.devices.Keys), p.devices)))
      && RequiredArray(j, "value_info")
         == Ok(DenoteItems(InfoEntries(Ascending(p.shapes.Keys + p.dtypes.Keys), p.shapes, p.dtypes)))
      && Required(j, "disco_placement") == Ok(Denote(PlacementDoc(p.placement)))
      && Required(j, "reserved") == Ok(Denote(DObj([])))
  {
    hide DenoteMembers, Ascending, InfoEntries, DeviceEntries, IntDocs, NodeDocs, PlacementDoc, Apart;
    AscendingLists(p.devices.Keys);
    PlanApart(p);
    var ms := PlanMembers(p);
    var j := Denote(DObj(ms));
    ObjectHolds(ms);
    assert Has(j, ms[3].name, Arr(DenoteItems(NodeDocs(p.nodes))));
    assert Has(j, ms[4].name, Arr(DenoteItems(DeviceEntries(Ascending(p.devices.Keys), p.devices))));
    assert Has(j, ms[7].name,
      Arr(DenoteItems(InfoEntries(Ascending(p.shapes.Keys + p.dtypes.Keys), p.shapes, p.dtypes))));
    assert Has(j, ms[8].name, Denote(PlacementDoc(p.placement)));
    assert Has(j, ms[9].name, Denote(DObj([])));
  }

  /** A plan in normal form is read back with its workers in order. */
  lemma PlanBack(p: Plan)
    requires NormalBody(p)
    ensures ReadPlan(Denote(DObj(PlanMembers(p)))) == Ok(p.(placement := Ordered(p.placement)))
  {
    hide DenoteMembers, NormalNodes, NormalDevices, NormalInfos, NormalWorkers, AllInt32, Ascending, PlanMembers,
      InfoEntries, DeviceEntries, IntDocs, NodeDocs, PlacementDoc, RequiredInt, RequiredInts, RequiredArray, Required,
      ReadNodes, ReadDevices, ReadInfos, ReadPlacement, Ordered;
    NodesBack(p.nodes);
    PlanDevicesBack(p);
    PlanInfosBack(p);
    PlacementBack(p.placement);
    PlanNumbersBack(p);
    PlanListsBack(p);
  }

  /** Every plan that can be read at all is in normal form but for the order of its workers. */
  lemma ReadIsNormal(j: J)
    requires ReadPlan(j).Ok? && Bounded(j, 5)
    ensures NormalBody(ReadPlan(j).value)
  {
    hide Bounded, NormalNodes, NormalDevices, NormalInfos, NormalWorkers, AllInt32, ReadNodes, ReadDevices, Ints;
    hide ReadInfos, ReadPlacement;
    NodesRead(RequiredArray(j, "nodes").value);
    NoEntries();
    DevicesRead(RequiredArray(j, "value_virtual_devices").value, map[]);
    RequiredIntsRead(j, "input_value_ids");
    RequiredIntsRead(j, "constant_value_ids");
    InfosBounded(j);
    InfosRead(RequiredArray(j, "value_info").value, Infos(map[], map[]));
    PlacementRead(Required(j, "disco_placement").value);
  }

  lemma InfosBounded(j: J)
    requires Bounded(j, 5) && RequiredArray(j, "value_info").Ok?
    ensures var a := RequiredArray(j, "value_info").value; forall k :: 0 <= k < |a| ==> Bounded(a[k], 3)
  {
    assert BoundedMembers(j.o, 4);
    assert Bounded(j.o["value_info"], 4);
  }

  lemma ParsedBounded(text: string)
    requires Parse(text).Ok?
    ensures Bounded(Parse(text).value, 5)
  {
    hide Value, Bounded;
    ValueBounded(SkipSpace(text), 5);
  }

  lemma NoEntries()
    ensures NormalDevices(map[]) && NormalInfos(map[], map[])
  {
  }

  /** Reading back a saved plan in normal form only puts its workers in order. */
  lemma SavedPlanReads(p: Plan)
    requires NormalBody(p)
    ensures Deserialized(Serialized(p)) == Ok(p.(placement := Ordered(p.placement)))
  {
    hide NormalBody, Parse, Render, ReadPlan, Ordered, Denote, Sound, PlanMembers;
    PlanSound(p);
    ParseRender(DObj(PlanMembers(p)));
    PlanBack(p);
  }

  /** A plan survives saving and reading exactly when it is in normal form. */
  lemma RoundTripExact(p: Plan)
    ensures Deserialized(Serialized(p)) == Ok(p) <==> NormalPlan(p)
  {
    hide NormalBody, Parse, Serialized, ReadPlan, Sort, InOrder;
    if p.placement.Some? { SortFacts(p.placement.value.workers); }
    if NormalBody(p) {
      SavedPlanReads(p);
    } else if Deserialized(Serialized(p)) == Ok(p) {
      ParsedBounded(Serialized(p));
      ReadIsNormal(Parse(Serialized(p)).value);
    }
  }

  /** Saving what was read from any text and reading it again changes nothing but the order of the workers. */
  lemma ReadSaveRead(text: string)
    requires Deserialized(text).Ok?
    ensures var p := Deserialized(text).value;
      Deserialized(Serialized(p)) == Ok(p.(placement := Ordered(p.placement)))
  {
    hide NormalBody, Parse, Serialized, ReadPlan, Ordered;
    ParsedBounded(text);
    ReadIsNormal(Parse(text).value);
    SavedPlanReads(Deserialized(text).value);
  }

  /** A plan whose only value lives on a target with a limit beyond 32 bits. */
  function LargeLimitPlan(): Plan {
    var target := Target("cpu", 1, 0, TargetAttrs("", "0.0", 1, 1, 0x1_0000_0000));
    Plan([], map[0 := Some(VirtualDevice(0, "", None, Some(target)))], [], [], map[], map[], 1, None, 0)
  }

  /** It does not come back, though every field fits its declared type. */
  lemma LargeLimitIsLost()
    ensures Deserialized(Serialized(LargeLimitPlan())) != Ok(LargeLimitPlan())
  {
    hide Serialized, Deserialized;
    var p := LargeLimitPlan();
    assert 0 in p.devices && !NormalVd(p.devices[0]);
    RoundTripExact(p);
  }

  /** A plan with a shape but no dtype for its only value. */
  function UntypedValuePlan(): Plan {
    Plan([], map[], [], [], map[0 := [2]], map[], 1, None, 0)
  }

  lemma UntypedValueIsLost()
    ensures Deserialized(Serialized(UntypedValuePlan())) != Ok(UntypedValuePlan())
  {
    hide Serialized, Deserialized;
    var p := UntypedValuePlan();
    assert 0 in p.shapes.Keys && 0 !in p.dtypes.Keys;
    RoundTripExact(p);
  }
}
