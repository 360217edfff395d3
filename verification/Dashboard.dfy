/** The debug server's view: the newest payload of each type. */
module Dashboard {
  import opened ByteStrings
  import opened Options
  import opened FairBatch

  datatype Item = Item(dataType: Bytes, payload: Bytes)

  /** What a field shows after `items`: the payload of the last item of that type, if there is one.
      `norm` is strings.ToLower after strings.TrimSpace. */
  function LastOf(items: seq<Item>, t: Bytes, norm: Bytes -> Bytes, before: Option<Bytes>): Option<Bytes> {
    if items == [] then before
    else
      var last := items[|items| - 1];
      if norm(last.dataType) == t then Some(last.payload) else LastOf(items[..|items| - 1], t, norm, before)
  }

  /** Item `i` is the last one whose type reads `t`. */
  ghost predicate IsLastOf(items: seq<Item>, t: Bytes, norm: Bytes -> Bytes, i: nat) {
    i < |items| && norm(items[i].dataType) == t && forall j :: i < j < |items| ==> norm(items[j].dataType) != t
  }

  /** The field shows the payload of that item, and what it showed before if there is none. */
  lemma {:induction false} LastOfExactly(items: seq<Item>, t: Bytes, norm: Bytes -> Bytes, before: Option<Bytes>)
    ensures forall i: nat :: IsLastOf(items, t, norm, i) ==> LastOf(items, t, norm, before) == Some(items[i].payload)
    ensures (forall i :: 0 <= i < |items| ==> norm(items[i].dataType) != t) ==> LastOf(items, t, norm, before) == before
  {
    if items == [] {
    } else {
      var init := items[..|items| - 1];
      LastOfExactly(init, t, norm, before);
      forall i: nat | IsLastOf(items, t, norm, i) ensures LastOf(items, t, norm, before) == Some(items[i].payload) {
        if i < |init| { assert IsLastOf(init, t, norm, i); }
      }
    }
  }

  /** Two requests after one another show what their concatenation shows. */
  lemma {:induction false} LastOfConcat(a: seq<Item>, b: seq<Item>, t: Bytes, norm: Bytes -> Bytes,
                                          before: Option<Bytes>)
    ensures LastOf(a + b, t, norm, before) == LastOf(b, t, norm, LastOf(a, t, norm, before))
  {
    if b == [] {
      assert a + b == a;
    } else {
      assert (a + b)[..|a + b| - 1] == a + b[..|b| - 1];
      LastOfConcat(a, b[..|b| - 1], t, norm, before);
    }
  }

  /** The seven fields. */
  datatype View = View(
    hostMetrics: Option<Bytes>,
    hardwareDetails: Option<Bytes>,
    softwareInventory: Option<Bytes>,
    processSnapshot: Option<Bytes>,
    securitySnapshot: Option<Bytes>,
    serviceSnapshot: Option<Bytes>,
    networkConnections: Option<Bytes>
  )
  {
    /** What is shown of a type. */
    function Of(t: Bytes): Option<Bytes> {
      if t == HOST_METRICS then hostMetrics
      else if t == HARDWARE_DETAILS then hardwareDetails
      else if t == PROCESS_SNAPSHOT then processSnapshot
      else if t == SOFTWARE_INVENTORY then softwareInventory
      else if t == SECURITY_SNAPSHOT then securitySnapshot
      else if t == SERVICE_SNAPSHOT then serviceSnapshot
      else if t == NETWORK_CONNECTIONS then networkConnections
      else None
    }
  }

  lemma OfNames(v: View)
    ensures v.Of(HOST_METRICS) == v.hostMetrics && v.Of(HARDWARE_DETAILS) == v.hardwareDetails
    ensures v.Of(PROCESS_SNAPSHOT) == v.processSnapshot && v.Of(SOFTWARE_INVENTORY) == v.softwareInventory
    ensures v.Of(SECURITY_SNAPSHOT) == v.securitySnapshot && v.Of(SERVICE_SNAPSHOT) == v.serviceSnapshot
    ensures v.Of(NETWORK_CONNECTIONS) == v.networkConnections
  {
    NamesDiffer();
  }

  /** Every field shows the last item of its own type. */
  ghost predicate Folded(items: seq<Item>, norm: Bytes -> Bytes, before: View, after: View) {
    && after.hostMetrics == LastOf(items, HOST_METRICS, norm, before.hostMetrics)
    && after.hardwareDetails == LastOf(items, HARDWARE_DETAILS, norm, before.hardwareDetails)
    && after.processSnapshot == LastOf(items, PROCESS_SNAPSHOT, norm, before.processSnapshot)
    && after.softwareInventory == LastOf(items, SOFTWARE_INVENTORY, norm, before.softwareInventory)
    && after.securitySnapshot == LastOf(items, SECURITY_SNAPSHOT, norm, before.securitySnapshot)
    && after.serviceSnapshot == LastOf(items, SERVICE_SNAPSHOT, norm, before.serviceSnapshot)
    && after.networkConnections == LastOf(items, NETWORK_CONNECTIONS, norm, before.networkConnections)
  }

  lemma FoldedByName(items: seq<Item>, norm: Bytes -> Bytes, before: View, after: View)
    requires forall t :: t in ENGINE_TYPES ==> after.Of(t) == LastOf(items, t, norm, before.Of(t))
    ensures Folded(items, norm, before, after)
  {
    OfNames(before);
    OfNames(after);
    hide LastOf;
  }

  class DashboardState {
    var hostMetrics: Option<Bytes>
    var hardwareDetails: Option<Bytes>
    var softwareInventory: Option<Bytes>
    var processSnapshot: Option<Bytes>
    var securitySnapshot: Option<Bytes>
    var serviceSnapshot: Option<Bytes>
    var networkConnections: Option<Bytes>
    var rawBatch: seq<Item>

    constructor ()
      ensures forall t :: Field(t) == None
      ensures rawBatch == []
    {
      hostMetrics, hardwareDetails, softwareInventory, processSnapshot := None, None, None, None;
      securitySnapshot, serviceSnapshot, networkConnections := None, None, None;
      rawBatch := [];
    }

    function Shown(): View
      reads this
    {
      View(hostMetrics, hardwareDetails, softwareInventory, processSnapshot, securitySnapshot, serviceSnapshot,
           networkConnections)
    }

    function Field(t: Bytes): Option<Bytes>
      reads this
    {
      Shown().Of(t)
    }

    method Store(dt: Bytes, payload: Bytes)
      modifies this
      ensures rawBatch == old(rawBatch)
      ensures forall t :: t != dt ==> Field(t) == old(Field(t))
      ensures dt in ENGINE_TYPES ==> Field(dt) == Some(payload)
    {
      if dt == HOST_METRICS { hostMetrics := Some(payload); }
      else if dt == HARDWARE_DETAILS { hardwareDetails := Some(payload); }
      else if dt == PROCESS_SNAPSHOT { processSnapshot := Some(payload); }
      else if dt == SOFTWARE_INVENTORY { softwareInventory := Some(payload); }
      else if dt == SECURITY_SNAPSHOT { securitySnapshot := Some(payload); }
      else if dt == SERVICE_SNAPSHOT { serviceSnapshot := Some(payload); }
      else if dt == NETWORK_CONNECTIONS { networkConnections := Some(payload); }
    }

    /** A body that does not parse is answered 400 and changes nothing. */
    method HandleIngest(body: Option<seq<Item>>, norm: Bytes -> Bytes) returns (status: int)
      modifies this
      ensures status == if body == None then 400 else 200
      ensures rawBatch == if body == None then old(rawBatch) else body.value
      ensures var items := if body == None then [] else body.value;
        && hostMetrics == LastOf(items, HOST_METRICS, norm, old(hostMetrics))
        && hardwareDetails == LastOf(items, HARDWARE_DETAILS, norm, old(hardwareDetails))
        && processSnapshot == LastOf(items, PROCESS_SNAPSHOT, norm, old(processSnapshot))
        && softwareInventory == LastOf(items, SOFTWARE_INVENTORY, norm, old(softwareInventory))
        && securitySnapshot == LastOf(items, SECURITY_SNAPSHOT, norm, old(securitySnapshot))
        && serviceSnapshot == LastOf(items, SERVICE_SNAPSHOT, norm, old(serviceSnapshot))
        && networkConnections == LastOf(items, NETWORK_CONNECTIONS, norm, old(networkConnections))
      ensures forall t :: t in ENGINE_TYPES ==>
                Field(t) == LastOf(if body == None then [] else body.value, t, norm, old(Field(t)))
    {
      hide View.Of;
      if body == None {
        FoldedByName([], norm, old(Shown()), Shown());
        return 400;
      }
      var items := body.value;
      var i := 0;
      while i < |items|
        invariant 0 <= i <= |items|
        invariant forall t :: t in ENGINE_TYPES ==> Field(t) == LastOf(items[..i], t, norm, old(Field(t)))
      {
        assert items[..i + 1][..i] == items[..i];
        Store(norm(items[i].dataType), items[i].payload);
        i := i + 1;
      }
      assert items[..i] == items;
      rawBatch := items;
      FoldedByName(items, norm, old(Shown()), Shown());
      return 200;
    }
  }
}
