/** The writers, which append to a text, and the readers, which loop over parsed arrays. */
module PlanIo {
  import opened Base
  import opened Decimal
  import opened Json
  import opened JsonParser
  import opened ExecutionPlan

  // ---------- growing an object or an array ----------

  /** A member name as the writers spell it. */
  function Name(k: string): string {
    "\"" + k + "\":"
  }

  /** Lower-case letters and underscores need no escape. */
  predicate Plain(k: string) {
    forall i :: 0 <= i < |k| ==> 'a' <= k[i] <= 'z' || k[i] == '_'
  }

  lemma {:induction false} PlainUnescaped(k: string)
    requires Plain(k)
    ensures Escaped(k) == k
  {
    if k != [] {
      assert EscapeChar(k[0]) == [k[0]];
      PlainUnescaped(k[1..]);
      assert [k[0]] + k[1..] == k;
    }
  }

  lemma NameQuoted(k: string)
    requires Plain(k)
    ensures Name(k) == Quoted(k) + ":"
  {
    hide Escaped;
    PlainUnescaped(k);
  }

  /** An object with its closing brace still missing. */
  ghost function Opened(os: string, ms: seq<Member>): string {
    os + "{" + RenderMembers(ms)
  }

  ghost function OpenedArray(os: string, ds: seq<Doc>): string {
    os + "[" + RenderItems(ds)
  }

  lemma {:induction false} MembersGrow(ms: seq<Member>, m: Member)
    ensures RenderMembers(ms + [m]) == if ms == [] then RenderMember(m) else RenderMembers(ms) + "," + RenderMember(m)
  {
    hide RenderMember;
    if ms == [] {
      assert ms + [m] == [m];
    } else {
      assert (ms + [m])[1..] == ms[1..] + [m];
      MembersGrow(ms[1..], m);
      if |ms| > 1 { Regroup5(RenderMember(ms[0]), ",", RenderMembers(ms[1..]), ",", RenderMember(m)); }
    }
  }

  lemma {:induction false} ItemsGrow(ds: seq<Doc>, d: Doc)
    ensures RenderItems(ds + [d]) == if ds == [] then Render(d) else RenderItems(ds) + "," + Render(d)
  {
    hide Render;
    if ds == [] {
      assert ds + [d] == [d];
    } else {
      assert (ds + [d])[1..] == ds[1..] + [d];
      ItemsGrow(ds[1..], d);
      if |ds| > 1 { Regroup5(Render(ds[0]), ",", RenderItems(ds[1..]), ",", Render(d)); }
    }
  }

  /** Writing the next member of an object. */
  lemma NextMember(os: string, ms: seq<Member>, i: nat)
    requires i < |ms| && Plain(ms[i].name)
    ensures Opened(os, ms[..i + 1]) ==
      Opened(os, ms[..i]) + (if i == 0 then "" else ",") + Name(ms[i].name) + Render(ms[i].value)
  {
    hide Render, Plain, Quoted, RenderMembers;
    NameQuoted(ms[i].name);
    assert ms[..i + 1] == ms[..i] + [ms[i]];
    MembersGrow(ms[..i], ms[i]);
    var q, v := Quoted(ms[i].name), Render(ms[i].value);
    if i == 0 {
      EmptyRender();
      Join(os + "{", "", q, ":", v);
    } else {
      Join(os + "{" + RenderMembers(ms[..i]), ",", q, ":", v);
      Regroup4(os + "{", RenderMembers(ms[..i]), ",", q + ":" + v);
    }
  }

  lemma EmptyRender()
    ensures RenderMembers([]) == "" && RenderItems([]) == ""
  {
  }

  lemma Join(a: string, b: string, c: string, d: string, e: string)
    ensures a + b + (c + d + e) == a + b + (c + d) + e
  {
  }

  /** Writing the next element of an array. */
  lemma NextItem(os: string, ds: seq<Doc>, i: nat)
    requires i < |ds|
    ensures OpenedArray(os, ds[..i + 1]) == OpenedArray(os, ds[..i]) + (if i == 0 then "" else ",") + Render(ds[i])
  {
    hide Render, RenderItems;
    assert ds[..i + 1] == ds[..i] + [ds[i]];
    ItemsGrow(ds[..i], ds[i]);
    if i == 0 {
      EmptyRender();
    } else {
      Regroup4(os + "[", RenderItems(ds[..i]), ",", Render(ds[i]));
    }
  }

  lemma Closed(os: string, ms: seq<Member>)
    ensures Opened(os, ms[..|ms|]) + "}" == os + Render(DObj(ms))
    ensures os + "{" == Opened(os, ms[..0])
  {
    hide RenderMembers;
    assert ms[..|ms|] == ms;
    EmptyRender();
  }

  lemma ClosedArray(os: string, ds: seq<Doc>)
    ensures OpenedArray(os, ds[..|ds|]) + "]" == os + Render(DArr(ds))
    ensures os + "[" == OpenedArray(os, ds[..0])
  {
    hide RenderItems;
    assert ds[..|ds|] == ds;
    EmptyRender();
  }

  // ---------- the names the writers use ----------

  ghost predicate AllPlain(ms: seq<Member>) {
    forall i :: 0 <= i < |ms| ==> Plain(ms[i].name)
  }

  lemma TargetNames()
    ensures Plain("device_type") && Plain("device_id") && Plain("kind") && Plain("attrs")
  {
  }

  lemma LimitNames()
    ensures Plain("arch") && Plain("compute_version") && Plain("max_threads_per_block")
  {
  }

  lemma MoreLimitNames()
    ensures Plain("warp_size") && Plain("max_shared_memory_per_block")
  {
  }

  lemma DeviceNames()
    ensures Plain("virtual_device_id") && Plain("memory_scope") && Plain("device") && Plain("target")
  {
  }

  lemma WorkerNames()
    ensures Plain("worker_id") && Plain("group_id") && Plain("local_rank") && Plain("virtual_device")
  {
  }

  lemma PlacementNames()
    ensures Plain("num_groups") && Plain("workers") && Plain("async") && Plain("in_group")
  {
  }

  lemma CopyNames()
    ensures Plain("src_virtual_device") && Plain("dst_virtual_device")
  {
  }

  lemma CollectiveNames()
    ensures Plain("reduce_kind") && Plain("root_worker") && Plain("tag") && Plain("op_name")
  {
  }

  lemma NodeNames()
    ensures Plain("input_values") && Plain("output_values") && Plain("worker_set") && Plain("kernel_symbol")
  {
  }

  lemma EntryNames()
    ensures Plain("value_id") && Plain("shape") && Plain("dtype") && Plain("reserved") && Plain("nodes")
  {
  }

  lemma CountNames()
    ensures Plain("schema_version") && Plain("num_values") && Plain("output_value")
  {
  }

  lemma ListNames()
    ensures Plain("value_virtual_devices") && Plain("input_value_ids")
  {
  }

  lemma MoreListNames()
    ensures Plain("constant_value_ids") && Plain("value_info") && Plain("disco_placement")
  {
  }

  lemma DevicePlain(d: Option<Device>)
    requires d.Some?
    ensures AllPlain(DeviceDoc(d).members)
  {
    hide Plain;
    TargetNames();
  }

  lemma TargetPlain(t: Target)
    ensures AllPlain(TargetMembers(t))
  {
    hide Plain;
    TargetNames();
  }

  lemma AttrsPlain(a: TargetAttrs)
    ensures AllPlain(AttrsMembers(a))
  {
    hide Plain;
    LimitNames();
    MoreLimitNames();
  }

  lemma VdPlain(v: VirtualDevice)
    ensures AllPlain(VdMembers(v))
  {
    hide Plain;
    DeviceNames();
  }

  lemma WorkerPlain(w: Worker)
    ensures AllPlain(WorkerMembers(w))
  {
    hide Plain;
    WorkerNames();
    DeviceNames();
  }

  lemma PlacementPlain(p: Placement)
    ensures AllPlain(PlacementMembers(p))
  {
    hide Plain;
    PlacementNames();
  }

  lemma CommPlain(a: CommAttrs)
    ensures AllPlain(CommMembers(a))
  {
    hide Plain;
    CopyNames();
    PlacementNames();
    CollectiveNames();
    WorkerNames();
    TargetNames();
  }

  lemma NodePlain(n: Node)
    ensures AllPlain(NodeMembers(n))
  {
    hide Plain;
    TargetNames();
    NodeNames();
    CollectiveNames();
  }

  lemma DeviceEntryPlain(id: int, v: Option<VirtualDevice>)
    ensures AllPlain(DeviceEntry(id, v).members)
  {
    hide Plain;
    EntryNames();
    WorkerNames();
  }

  lemma InfoEntryPlain(id: int, shape: seq<int>, dtype: string)
    ensures AllPlain(InfoEntry(id, shape, dtype).members)
  {
    hide Plain;
    EntryNames();
  }

  lemma PlanPlain(p: Plan)
    ensures AllPlain(PlanMembers(p))
  {
    hide Plain;
    CountNames();
    EntryNames();
    ListNames();
    MoreListNames();
  }

  // ---------- writers ----------

  method WriteInts(os: string, xs: seq<int>) returns (r: string)
    ensures r == os + Render(DArr(IntDocs(xs)))
  {
    hide IntText, RenderItems, OpenedArray;
    ghost var ds := IntDocs(xs);
    ClosedArray(os, ds);
    r := os + "[";
    for i := 0 to |xs|
      invariant r == OpenedArray(os, ds[..i])
    {
      NextItem(os, ds, i);
      r := r + (if i == 0 then "" else ",") + IntText(xs[i]);
    }
    r := r + "]";
  }

  method Quote(s: string) returns (r: string)
    ensures r == Quoted(s)
  {
    hide Escaped;
    var t := Esc(s);
    r := "\"" + t + "\"";
  }

  method WriteDevice(os: string, d: Option<Device>) returns (r: string)
    ensures r == os + Render(DeviceDoc(d))
  {
    hide IntText, Opened, RenderMembers, Name, Plain;
    if d.None? { return os + "null"; }
    ghost var ms := DeviceDoc(d).members;
    DevicePlain(d);
    Closed(os, ms);
    NextMember(os, ms, 0);
    NextMember(os, ms, 1);
    r := os + "{" + "" + Name("device_type") + IntText(d.value.deviceType);
    r := r + "," + Name("device_id") + IntText(d.value.deviceId);
    r := r + "}";
  }

  method WriteTarget(os: string, t: Option<Target>) returns (r: string)
    ensures r == os + Render(TargetDoc(t))
  {
    hide IntText, Opened, RenderMembers, Name, Plain, Quoted, AttrsMembers;
    if t.None? { return os + "null"; }
    ghost var ms := TargetMembers(t.value);
    TargetPlain(t.value);
    Closed(os, ms);
    NextMember(os, ms, 0);
    NextMember(os, ms, 1);
    NextMember(os, ms, 2);
    NextMember(os, ms, 3);
    var kind := Quote(t.value.kind);
    r := os + "{" + "" + Name("kind") + kind;
    r := r + "," + Name("device_type") + IntText(t.value.deviceType);
    r := r + "," + Name("device_id") + IntText(t.value.deviceId);
    r := r + "," + Name("attrs");
    r := WriteAttrs(r, t.value.attrs);
    r := r + "}";
  }

  method WriteAttrs(os: string, a: TargetAttrs) returns (r: string)
    ensures r == os + Render(DObj(AttrsMembers(a)))
  {
    hide IntText, Opened, RenderMembers, Name, Plain, Quoted;
    ghost var ms := AttrsMembers(a);
    AttrsPlain(a);
    Closed(os, ms);
    NextMember(os, ms, 0);
    NextMember(os, ms, 1);
    NextMember(os, ms, 2);
    NextMember(os, ms, 3);
    NextMember(os, ms, 4);
    var arch := Quote(a.arch);
    r := os + "{" + "" + Name("arch") + arch;
    var version := Quote(a.computeVersion);
    r := r + "," + Name("compute_version") + version;
    r := r + "," + Name("max_threads_per_block") + IntText(a.maxThreads);
    r := r + "," + Name("warp_size") + IntText(a.warpSize);
    r := r + "," + Name("max_shared_memory_per_block") + IntText(a.maxShared);
    r := r + "}";
  }


  method WriteVd(os: string, v: Option<VirtualDevice>) returns (r: string)
    ensures r == os + Render(VdDoc(v))
  {
    hide IntText, Opened, RenderMembers, Name, Plain, Quoted, DeviceDoc, TargetDoc;
    if v.None? { return os + "null"; }
    ghost var ms := VdMembers(v.value);
    VdPlain(v.value);
    Closed(os, ms);
    NextMember(os, ms, 0);
    NextMember(os, ms, 1);
    NextMember(os, ms, 2);
    NextMember(os, ms, 3);
    r := os + "{" + "" + Name("virtual_device_id") + IntText(v.value.id);
    var scope := Quote(v.value.scope);
    r := r + "," + Name("memory_scope") + scope;
    r := r + "," + Name("device");
    r := WriteDevice(r, v.value.device);
    r := r + "," + Name("target");
    r := WriteTarget(r, v.value.target);
    r := r + "}";
  }

  method WriteWorker(os: string, w: Option<Worker>) returns (r: string)
    ensures r == os + Render(WorkerDoc(w))
  {
    hide IntText, Opened, RenderMembers, Name, Plain, Quoted, DeviceDoc, TargetDoc, VdDoc;
    if w.None? { return os + "null"; }
    ghost var ms := WorkerMembers(w.value);
    WorkerPlain(w.value);
    Closed(os, ms);
    NextMember(os, ms, 0);
    NextMember(os, ms, 1);
    NextMember(os, ms, 2);
    NextMember(os, ms, 3);
    NextMember(os, ms, 4);
    NextMember(os, ms, 5);
    r := os + "{" + "" + Name("worker_id") + IntText(w.value.workerId);
    r := r + "," + Name("group_id") + IntText(w.value.groupId);
    r := r + "," + Name("local_rank") + IntText(w.value.localRank);
    r := r + "," + Name("device");
    r := WriteDevice(r, w.value.device);
    r := r + "," + Name("target");
    r := WriteTarget(r, w.value.target);
    r := r + "," + Name("virtual_device");
    r := WriteVd(r, w.value.virtualDevice);
    r := r + "}";
  }

  method WriteWorkers(os: string, ws: seq<Option<Worker>>) returns (r: string)
    ensures r == os + Render(DArr(WorkerDocs(ws)))
  {
    hide WorkerDoc, RenderItems, OpenedArray;
    ghost var ds := WorkerDocs(ws);
    ClosedArray(os, ds);
    r := os + "[";
    for i := 0 to |ws|
      invariant r == OpenedArray(os, ds[..i])
    {
      NextItem(os, ds, i);
      r := WriteWorker(r + (if i == 0 then "" else ","), ws[i]);
    }
    r := r + "]";
  }

  method WritePlacement(os: string, p: Option<Placement>) returns (r: string)
    ensures r == os + Render(PlacementDoc(p))
  {
    hide IntText, Opened, RenderMembers, Name, Plain, Quoted, Sort, WorkerDocs;
    if p.None? { return os + "null"; }
    ghost var ms := PlacementMembers(p.value);
    PlacementPlain(p.value);
    Closed(os, ms);
    NextMember(os, ms, 0);
    NextMember(os, ms, 1);
    r := os + "{" + "" + Name("num_groups") + IntText(p.value.numGroups);
    r := r + "," + Name("workers");
    r := WriteWorkers(r, Sort(p.value.workers));
    r := r + "}";
  }

  method WriteBool(os: string, b: bool) returns (r: string)
    ensures r == os + Render(DBool(b))
  {
    r := os + (if b then "true" else "false");
  }

  method WriteComm(os: string, a: Option<CommAttrs>) returns (r: string)
    ensures r == os + Render(CommDoc(a))
  {
    hide IntText, Opened, RenderMembers, Name, Plain, Quoted, VdDoc;
    if a.None? { return os + "null"; }
    ghost var ms := CommMembers(a.value);
    CommPlain(a.value);
    Closed(os, ms);
    NextMember(os, ms, 0);
    NextMember(os, ms, 1);
    NextMember(os, ms, 2);
    NextMember(os, ms, 3);
    match a.value
    case Copy(src, dst, async, inGroup) =>
      r := os + "{" + "" + Name("src_virtual_device");
      r := WriteVd(r, src);
      r := r + "," + Name("dst_virtual_device");
      r := WriteVd(r, dst);
      r := r + "," + Name("async");
      r := WriteBool(r, async);
      r := r + "," + Name("in_group");
      r := WriteBool(r, inGroup);
      r := r + "}";
    case Collective(kind, reduceKind, inGroup, groupId, root) =>
      NextMember(os, ms, 4);
      var kindText := Quote(kind);
      r := os + "{" + "" + Name("kind") + kindText;
      var reduceText := Quote(reduceKind);
      r := r + "," + Name("reduce_kind") + reduceText;
      r := r + "," + Name("in_group");
      r := WriteBool(r, inGroup);
      r := r + "," + Name("group_id") + IntText(groupId);
      r := r + "," + Name("root_worker") + IntText(root);
      r := r + "}";
  }

  /** The members every node starts with. */
  method WriteNodeHead(
    os: string, kind: string, ins: seq<int>, outs: seq<int>, workers: seq<int>, ghost ms: seq<Member>)
    returns (r: string)
    requires |ms| > 3 && AllPlain(ms)
    requires ms[0] == Member("kind", DStr(kind)) && ms[1] == Member("input_values", DArr(IntDocs(ins)))
    requires ms[2] == Member("output_values", DArr(IntDocs(outs)))
      && ms[3] == Member("worker_set", DArr(IntDocs(workers)))
    ensures r == Opened(os, ms[..4])
  {
    hide IntText, Opened, RenderMembers, Name, Plain, Quoted, IntDocs;
    Closed(os, ms);
    NextMember(os, ms, 0);
    NextMember(os, ms, 1);
    NextMember(os, ms, 2);
    NextMember(os, ms, 3);
    var kindText := Quote(kind);
    r := os + "{" + "" + Name("kind") + kindText;
    r := r + "," + Name("input_values");
    r := WriteInts(r, ins);
    r := r + "," + Name("output_values");
    r := WriteInts(r, outs);
    r := r + "," + Name("worker_set");
    r := WriteInts(r, workers);
  }

  method WriteNode(os: string, n: Option<Node>) returns (r: string)
    ensures r == os + Render(NodeDoc(n))
  {
    hide IntText, Opened, RenderMembers, Name, Plain, Quoted, IntDocs, CommDoc;
    if n.None? { return os + "null"; }
    ghost var ms := NodeMembers(n.value);
    NodePlain(n.value);
    Closed(os, ms);
    NextMember(os, ms, 4);
    match n.value
    case Kernel(op, symbol, ins, outs, workers) =>
      NextMember(os, ms, 5);
      r := WriteNodeHead(os, "kernel", ins, outs, workers, ms);
      var opText := Quote(op);
      r := r + "," + Name("op_name") + opText;
      var symbolText := Quote(symbol);
      r := r + "," + Name("kernel_symbol") + symbolText;
      r := r + "}";
    case Comm(op, attrs, ins, outs, workers) =>
      NextMember(os, ms, 5);
      r := WriteNodeHead(os, "comm", ins, outs, workers, ms);
      var opText := Quote(op);
      r := r + "," + Name("op_name") + opText;
      r := r + "," + Name("attrs");
      r := WriteComm(r, attrs);
      r := r + "}";
    case Barrier(tag, workers) =>
      NoIntDocs();
      r := WriteNodeHead(os, "barrier", [], [], workers, ms);
      var tagText := Quote(tag);
      r := r + "," + Name("tag") + tagText;
      r := r + "}";
  }

  lemma NoIntDocs()
    ensures IntDocs([]) == []
  {
  }

  method WriteNodes(os: string, ns: seq<Option<Node>>) returns (r: string)
    ensures r == os + Render(DArr(NodeDocs(ns)))
  {
    hide NodeDoc, RenderItems, OpenedArray;
    ghost var ds := NodeDocs(ns);
    ClosedArray(os, ds);
    r := os + "[";
    for i := 0 to |ns|
      invariant r == OpenedArray(os, ds[..i])
    {
      NextItem(os, ds, i);
      r := WriteNode(r + (if i == 0 then "" else ","), ns[i]);
    }
    r := r + "]";
  }

  method WriteDeviceEntry(os: string, id: int, v: Option<VirtualDevice>) returns (r: string)
    ensures r == os + Render(DeviceEntry(id, v))
  {
    hide IntText, Opened, RenderMembers, Name, Plain, Quoted, VdDoc;
    ghost var ms := DeviceEntry(id, v).members;
    DeviceEntryPlain(id, v);
    Closed(os, ms);
    NextMember(os, ms, 0);
    NextMember(os, ms, 1);
    r := os + "{" + "" + Name("value_id") + IntText(id);
    r := r + "," + Name("virtual_device");
    r := WriteVd(r, v);
    r := r + "}";
  }

  method WriteDeviceEntries(os: string, ids: seq<int>, devices: map<int, Option<VirtualDevice>>) returns (r: string)
    requires forall i :: 0 <= i < |ids| ==> ids[i] in devices
    ensures r == os + Render(DArr(DeviceEntries(ids, devices)))
  {
    hide DeviceEntry, RenderItems, OpenedArray;
    ghost var ds := DeviceEntries(ids, devices);
    ClosedArray(os, ds);
    r := os + "[";
    for i := 0 to |ids|
      invariant r == OpenedArray(os, ds[..i])
    {
      NextItem(os, ds, i);
      r := WriteDeviceEntry(r + (if i == 0 then "" else ","), ids[i], devices[ids[i]]);
    }
    r := r + "]";
  }

  method WriteInfoEntry(os: string, id: int, shape: seq<int>, dtype: string) returns (r: string)
    ensures r == os + Render(InfoEntry(id, shape, dtype))
  {
    hide IntText, Opened, RenderMembers, Name, Plain, Quoted, IntDocs;
    ghost var ms := InfoEntry(id, shape, dtype).members;
    InfoEntryPlain(id, shape, dtype);
    Closed(os, ms);
    NextMember(os, ms, 0);
    NextMember(os, ms, 1);
    NextMember(os, ms, 2);
    r := os + "{" + "" + Name("value_id") + IntText(id);
    r := r + "," + Name("shape");
    r := WriteInts(r, shape);
    var dtypeText := Quote(dtype);
    r := r + "," + Name("dtype") + dtypeText;
    r := r + "}";
  }

  method WriteInfoEntries(
    os: string, ids: seq<int>, shapes: map<int, seq<int>>, dtypes: map<int, string>) returns (r: string)
    ensures r == os + Render(DArr(InfoEntries(ids, shapes, dtypes)))
  {
    hide InfoEntry, RenderItems, OpenedArray;
    ghost var ds := InfoEntries(ids, shapes, dtypes);
    ClosedArray(os, ds);
    r := os + "[";
    for i := 0 to |ids|
      invariant r == OpenedArray(os, ds[..i])
    {
      NextItem(os, ds, i);
      var id := ids[i];
      var shape := if id in shapes then shapes[id] else [];
      var dtype := if id in dtypes then dtypes[id] else "";
      r := WriteInfoEntry(r + (if i == 0 then "" else ","), id, shape, dtype);
    }
    r := r + "]";
  }

  /** The first five members of a plan. */
  method WritePlanHead(p: Plan, ghost ms: seq<Member>) returns (r: string)
    requires ms == PlanMembers(p)
    ensures r == Opened("", ms[..5])
  {
    hide IntText, Opened, RenderMembers, Name, Plain, Quoted, IntDocs, NodeDocs, DeviceEntries, InfoEntries;
    hide Ascending, PlacementDoc;
    PlanPlain(p);
    AscendingLists(p.devices.Keys);
    Closed("", ms);
    NextMember("", ms, 0);
    NextMember("", ms, 1);
    NextMember("", ms, 2);
    NextMember("", ms, 3);
    NextMember("", ms, 4);
    r := "" + "{" + "" + Name("schema_version") + IntText(1);
    r := r + "," + Name("num_values") + IntText(p.numValues);
    r := r + "," + Name("output_value") + IntText(p.output);
    r := r + "," + Name("nodes");
    r := WriteNodes(r, p.nodes);
    r := r + "," + Name("value_virtual_devices");
    r := WriteDeviceEntries(r, Ascending(p.devices.Keys), p.devices);
  }

  method SerializePlan(p: Plan) returns (r: string)
    ensures r == Serialized(p)
  {
    hide IntText, Opened, RenderMembers, Name, Plain, Quoted, IntDocs, NodeDocs, DeviceEntries, InfoEntries;
    hide Ascending, PlacementDoc;
    ghost var ms := PlanMembers(p);
    PlanPlain(p);
    Closed("", ms);
    NextMember("", ms, 5);
    NextMember("", ms, 6);
    NextMember("", ms, 7);
    NextMember("", ms, 8);
    NextMember("", ms, 9);
    r := WritePlanHead(p, ms);
    r := r + "," + Name("input_value_ids");
    r := WriteInts(r, p.inputs);
    r := r + "," + Name("constant_value_ids");
    r := WriteInts(r, p.constants);
    r := r + "," + Name("value_info");
    r := WriteInfoEntries(r, Ascending(p.shapes.Keys + p.dtypes.Keys), p.shapes, p.dtypes);
    r := r + "," + Name("disco_placement");
    r := WritePlacement(r, p.placement);
    r := r + "," + Name("reserved") + "{}";
    r := r + "}";
    EmptyObject();
    NothingBefore(Render(DObj(ms)));
  }

  lemma EmptyObject()
    ensures Render(DObj([])) == "{}"
  {
  }

  lemma NothingBefore(s: string)
    ensures "" + s == s
  {
  }

  // ---------- readers ----------

  /** The elements read so far, followed by what the rest gives. */
  ghost function Then<T>(out: seq<T>, rest: Read<seq<T>>): Read<seq<T>> {
    match rest case Ok(xs) => Ok(out + xs) case Err(e) => Err(e)
  }

  lemma ThenStart<T>(rest: Read<seq<T>>)
    ensures Then([], rest) == rest
  {
    if rest.Ok? { assert [] + rest.value == rest.value; }
  }

  lemma ThenStep<T>(out: seq<T>, x: T, rest: Read<seq<T>>)
    ensures Then(out + [x], rest) == Then(out, Then([x], rest))
  {
    if rest.Ok? { assert out + [x] + rest.value == out + ([x] + rest.value); }
  }

  lemma ThenEnd<T>(out: seq<T>)
    ensures Then(out, Ok([])) == Ok(out)
  {
    assert out + [] == out;
  }

  method ReadIntArray(a: seq<J>) returns (r: Read<seq<int>>)
    ensures r == Ints(a)
  {
    var out := [];
    assert a[0..] == a;
    ThenStart(Ints(a));
    for i := 0 to |a|
      invariant Ints(a) == Then(out, Ints(a[i..]))
    {
      assert a[i..][1..] == a[i + 1..];
      var x := AsInt(a[i]);
      if x.Err? { return Err(x.error); }
      ThenStep(out, x.value, Ints(a[i + 1..]));
      out := out + [x.value];
    }
    ThenEnd(out);
    r := Ok(out);
  }

  method ReadInt64Array(a: seq<J>) returns (r: Read<seq<int>>)
    ensures r == Int64s(a)
  {
    var out := [];
    assert a[0..] == a;
    ThenStart(Int64s(a));
    for i := 0 to |a|
      invariant Int64s(a) == Then(out, Int64s(a[i..]))
    {
      assert a[i..][1..] == a[i + 1..];
      var x := AsInt64(a[i]);
      if x.Err? { return Err(x.error); }
      ThenStep(out, x.value, Int64s(a[i + 1..]));
      out := out + [x.value];
    }
    ThenEnd(out);
    r := Ok(out);
  }

  method ReadRequiredInts(j: J, key: string) returns (r: Read<seq<int>>)
    ensures r == RequiredInts(j, key)
  {
    hide Ints, RequiredArray;
    var a :- RequiredArray(j, key);
    r := ReadIntArray(a);
  }

  /** One node: its integer lists, then what its kind asks for. */
  method ReadNodeObject(j: J) returns (r: Read<Node>)
    ensures r == ReadNode(j)
  {
    hide RequiredInts, RequiredString, StringOr, ReadComm;
    if !j.Obj? { return Err(WrongKind); }
    var kind :- RequiredString(j, "kind");
    var ins :- ReadRequiredInts(j, "input_values");
    var outs :- ReadRequiredInts(j, "output_values");
    var workers :- ReadRequiredInts(j, "worker_set");
    if kind == "kernel" {
      var op :- RequiredString(j, "op_name");
      var symbol :- StringOr(j, "kernel_symbol", "");
      r := Ok(Kernel(op, symbol, ins, outs, workers));
    } else if kind == "comm" {
      var op :- RequiredString(j, "op_name");
      var attrs :- ReadComm(op, Find(j, "attrs"));
      r := Ok(Comm(op, Some(attrs), ins, outs, workers));
    } else if kind == "barrier" {
      var tag :- RequiredString(j, "tag");
      r := Ok(Barrier(tag, workers));
    } else {
      r := Err(UnsupportedNode);
    }
  }

  method ReadNodeArray(a: seq<J>) returns (r: Read<seq<Option<Node>>>)
    ensures r == ReadNodes(a)
  {
    hide ReadNode;
    var out := [];
    assert a[0..] == a;
    ThenStart(ReadNodes(a));
    for i := 0 to |a|
      invariant ReadNodes(a) == Then(out, ReadNodes(a[i..]))
    {
      assert a[i..][1..] == a[i + 1..];
      if a[i].Null? { continue; }
      var n := ReadNodeObject(a[i]);
      if n.Err? { return Err(n.error); }
      ThenStep(out, Some(n.value), ReadNodes(a[i + 1..]));
      out := out + [Some(n.value)];
    }
    ThenEnd(out);
    r := Ok(out);
  }

  method ReadWorkerArray(a: seq<J>) returns (r: Read<seq<Option<Worker>>>)
    ensures r == ReadWorkers(a)
  {
    hide ReadWorker;
    var out := [];
    assert a[0..] == a;
    ThenStart(ReadWorkers(a));
    for i := 0 to |a|
      invariant ReadWorkers(a) == Then(out, ReadWorkers(a[i..]))
    {
      assert a[i..][1..] == a[i + 1..];
      var w := ReadWorker(a[i]);
      if w.Err? { return Err(w.error); }
      ThenStep(out, Some(w.value), ReadWorkers(a[i + 1..]));
      out := out + [Some(w.value)];
    }
    ThenEnd(out);
    r := Ok(out);
  }

  method ReadDeviceArray(a: seq<J>) returns (r: Read<map<int, Option<VirtualDevice>>>)
    ensures r == ReadDevices(a, map[])
  {
    hide ReadVd, Required, RequiredInt;
    var out: map<int, Option<VirtualDevice>> := map[];
    assert a[0..] == a;
    for i := 0 to |a|
      invariant ReadDevices(a, map[]) == ReadDevices(a[i..], out)
    {
      assert a[i..][1..] == a[i + 1..];
      if !a[i].Obj? { return Err(WrongKind); }
      var id := RequiredInt(a[i], "value_id");
      if id.Err? { return Err(id.error); }
      var j := Required(a[i], "virtual_device");
      if j.Err? { return Err(j.error); }
      var v := ReadVd(j.value);
      if v.Err? { return Err(v.error); }
      if v.value.Some? { out := out[id.value := v.value]; }
    }
    r := Ok(out);
  }

  method ReadInfoArray(a: seq<J>) returns (r: Read<Infos>)
    ensures r == ReadInfos(a, Infos(map[], map[]))
  {
    hide RequiredInt, RequiredArray, RequiredString, Int64s;
    var shapes: map<int, seq<int>>, dtypes: map<int, string> := map[], map[];
    assert a[0..] == a;
    for i := 0 to |a|
      invariant ReadInfos(a, Infos(map[], map[])) == ReadInfos(a[i..], Infos(shapes, dtypes))
    {
      assert a[i..][1..] == a[i + 1..];
      if !a[i].Obj? { return Err(WrongKind); }
      var id := RequiredInt(a[i], "value_id");
      if id.Err? { return Err(id.error); }
      var shape := RequiredArray(a[i], "shape");
      if shape.Err? { return Err(shape.error); }
      var xs := ReadInt64Array(shape.value);
      if xs.Err? { return Err(xs.error); }
      var dtype := RequiredString(a[i], "dtype");
      if dtype.Err? { return Err(dtype.error); }
      shapes := shapes[id.value := xs.value];
      dtypes := dtypes[id.value := dtype.value];
    }
    r := Ok(Infos(shapes, dtypes));
  }

  method ReadPlacementObject(j: J) returns (r: Read<Option<Placement>>)
    ensures r == ReadPlacement(j)
  {
    hide ReadWorkers, IntOr, RequiredArray;
    if j.Null? { return Ok(None); }
    if !j.Obj? { return Err(WrongKind); }
    var groups :- IntOr(j, "num_groups", 1);
    var a :- RequiredArray(j, "workers");
    var ws :- ReadWorkerArray(a);
    r := Ok(Some(Placement(ws, if groups > 0 then groups else 1)));
  }

  /** Reads a plan from text: the parser first, then the fields in order. */
  method DeserializePlan(text: string) returns (r: Read<Plan>)
    ensures r == Deserialized(text)
  {
    hide Parse, Required, RequiredInt, RequiredArray, ReadNodes, ReadDevices, ReadInfos, ReadPlacement, Ints;
    var parser := new Parser(text);
    var parsed := parser.ParseAll();
    if parsed.Err? { return Err(BadJson(parsed.error)); }
    var j := parsed.value;
    if !j.Obj? { return Err(WrongKind); }
    var version :- RequiredInt(j, "schema_version");
    if version != 1 { return Err(UnsupportedVersion); }
    var numValues :- RequiredInt(j, "num_values");
    var output :- RequiredInt(j, "output_value");
    var nodesJ :- RequiredArray(j, "nodes");
    var nodes :- ReadNodeArray(nodesJ);
    var devicesJ :- RequiredArray(j, "value_virtual_devices");
    var devices :- ReadDeviceArray(devicesJ);
    var inputsJ :- RequiredArray(j, "input_value_ids");
    var inputs :- ReadIntArray(inputsJ);
    var constantsJ :- RequiredArray(j, "constant_value_ids");
    var constants :- ReadIntArray(constantsJ);
    var infosJ :- RequiredArray(j, "value_info");
    var infos :- ReadInfoArray(infosJ);
    var placementJ :- Required(j, "disco_placement");
    var placement :- ReadPlacementObject(placementJ);
    var reserved :- Required(j, "reserved");
    if !reserved.Obj? { return Err(WrongKind); }
    r := Ok(Plan(nodes, devices, inputs, constants, infos.shapes, infos.dtypes, numValues, placement, output));
  }
}
