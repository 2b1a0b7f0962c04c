/** The text a plan is saved as, spelled out; `Name` puts a member name in quotes and a colon behind it. */
module PlanText {
  import opened Base
  import opened Decimal
  import opened Json
  import opened ExecutionPlan
  import opened PlanIo

  /** The members a plan's text starts with. */
  lemma HeadText(p: Plan)
    ensures Opened("", PlanMembers(p)[..5]) ==
      "{" + Name("schema_version") + "1" + "," + Name("num_values") + IntText(p.numValues)
      + "," + Name("output_value") + IntText(p.output) + "," + Name("nodes") + Render(DArr(NodeDocs(p.nodes)))
      + "," + Name("value_virtual_devices") + Devices(p)
  {
    hide IntText, Opened, RenderMembers, Name, Plain, Quoted, IntDocs, NodeDocs, DeviceEntries, InfoEntries;
    hide Ascending, PlacementDoc;
    var ms := PlanMembers(p);
    PlanPlain(p);
    AscendingLists(p.devices.Keys);
    OneText();
    Closed("", ms);
    FirstText(p, ms);
    NextMember("", ms, 1);
    NextMember("", ms, 2);
    NextMember("", ms, 3);
    NextMember("", ms, 4);
  }

  lemma FirstText(p: Plan, ms: seq<Member>)
    requires ms == PlanMembers(p)
    ensures Opened("", ms[..1]) == "{" + Name("schema_version") + "1"
  {
    hide IntText, Opened, RenderMembers, Name, Plain, Quoted, PlanMembers, PlacementDoc;
    FirstMember(p);
    PlanPlain(p);
    OneText();
    Closed("", ms);
    NextMember("", ms, 0);
    var open := "{";
    assert "" + open == open && open + "" == open;
  }

  lemma FirstMember(p: Plan)
    ensures |PlanMembers(p)| == 10 && PlanMembers(p)[0] == Member("schema_version", DInt(1))
  {
  }

  lemma OneText()
    ensures IntText(1) == "1"
  {
  }

  function Devices(p: Plan): string {
    AscendingLists(p.devices.Keys);
    Render(DArr(DeviceEntries(Ascending(p.devices.Keys), p.devices)))
  }

  function Infos(p: Plan): string {
    Render(DArr(InfoEntries(Ascending(p.shapes.Keys + p.dtypes.Keys), p.shapes, p.dtypes)))
  }

  /** The whole text: ten members in this order, between braces, and no space anywhere. */
  lemma WholeText(p: Plan)
    ensures Serialized(p) ==
      "{" + Name("schema_version") + "1" + "," + Name("num_values") + IntText(p.numValues)
      + "," + Name("output_value") + IntText(p.output) + "," + Name("nodes") + Render(DArr(NodeDocs(p.nodes)))
      + "," + Name("value_virtual_devices") + Devices(p)
      + "," + Name("input_value_ids") + Render(DArr(IntDocs(p.inputs)))
      + "," + Name("constant_value_ids") + Render(DArr(IntDocs(p.constants)))
      + "," + Name("value_info") + Infos(p) + "," + Name("disco_placement") + Render(PlacementDoc(p.placement))
      + "," + Name("reserved") + "{}" + "}"
  {
    hide IntText, Opened, RenderMembers, Name, Plain, Quoted, IntDocs, NodeDocs, DeviceEntries, InfoEntries;
    hide Ascending, PlacementDoc, Devices;
    var ms := PlanMembers(p);
    HeadText(p);
    PlanPlain(p);
    EmptyObject();
    Closed("", ms);
    NextMember("", ms, 5);
    NextMember("", ms, 6);
    NextMember("", ms, 7);
    NextMember("", ms, 8);
    NextMember("", ms, 9);
    NothingBefore(Render(DObj(ms)));
  }
}
