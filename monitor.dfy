/**
 * The datapath registry of `_state_change_handler` and what one tick of the
 * statistics monitor asks of the switches, with the priority filter of the flow
 * statistics reply. The registry dictionary maps a datapath id to the datapath
 * of that id, so it is determined by its keys in insertion order, the order in
 * which `self.datapaths.values()` yields them.
 */
module Monitor {
  import opened Outcomes
  import opened OpenFlow
  import opened Topology
  import opened Compilers

  /** The id of the one switch the q3 and q3test monitors ask for port statistics. */
  const MONITORED_SWITCH: nat := 5

  /** No id occurs twice: the keys of a dictionary. */
  predicate Distinct(ds: seq<nat>) {
    forall i, j | 0 <= i < j < |ds| :: ds[i] != ds[j]
  }

  /** The two dispatcher states `_state_change_handler` is registered for. */
  datatype DispatcherState = MainDispatcher | DeadDispatcher

  /** `self.datapaths[id] = datapath` when id is absent: appended at the end. */
  function Register(ds: seq<nat>, id: nat): (r: seq<nat>)
    ensures forall x :: x in r <==> x in ds || x == id
    ensures Distinct(ds) ==> Distinct(r)
    ensures id in ds ==> r == ds
    ensures id !in ds ==> |r| == |ds| + 1 && r[..|ds|] == ds && r[|ds|] == id
  {
    if id in ds then ds else ds + [id]
  }

  /** `del self.datapaths[id]`: the other keys keep their order. */
  function Unregister(ds: seq<nat>, id: nat): (r: seq<nat>)
    ensures forall x :: x in r <==> x in ds && x != id
    ensures |r| <= |ds|
    ensures Distinct(ds) ==> Distinct(r)
    decreases |ds|
  {
    if ds == [] then []
    else if ds[0] == id then Unregister(ds[1..], id)
    else
      assert Distinct(ds) ==> Distinct(ds[1..]) && ds[0] !in ds[1..] by {
        if Distinct(ds) {
          forall k | 0 <= k < |ds[1..]| ensures ds[1..][k] != ds[0] {
            assert ds[1..][k] == ds[k + 1];
          }
        }
      }
      [ds[0]] + Unregister(ds[1..], id)
  }

  /** Removing an id from two registries laid end to end removes it from each part. */
  lemma {:induction false} UnregisterConcat(a: seq<nat>, b: seq<nat>, id: nat)
    ensures Unregister(a + b, id) == Unregister(a, id) + Unregister(b, id)
    decreases |a|
  {
    if a == [] {
      assert a + b == b;
    } else {
      assert (a + b)[0] == a[0] && (a + b)[1..] == a[1..] + b;
      UnregisterConcat(a[1..], b, id);
    }
  }

  /** Deleting a present id from a registry of distinct ids leaves exactly the ids before
      it followed by the ids after it, each in their order. */
  lemma UnregisterPresent(a: seq<nat>, id: nat, b: seq<nat>)
    requires Distinct(a + [id] + b)
    ensures Unregister(a + [id] + b, id) == a + b
  {
    MiddleIdUnique(a, id, b);
    UnregisterConcat(a + [id], b, id);
    UnregisterConcat(a, [id], id);
    UnregisterAbsent(a, id);
    UnregisterAbsent(b, id);
    assert Unregister([id], id) == Unregister([], id);
    assert Unregister(a + [id], id) == a;
  }

  /** In a registry of distinct ids, an id occurs once. */
  lemma MiddleIdUnique(a: seq<nat>, id: nat, b: seq<nat>)
    requires Distinct(a + [id] + b)
    ensures id !in a && id !in b
  {
    var ds := a + [id] + b;
    assert ds[|a|] == id;
    forall k | 0 <= k < |a| ensures a[k] != id {
      assert ds[k] == a[k];
    }
    forall k | 0 <= k < |b| ensures b[k] != id {
      assert ds[|a| + 1 + k] == b[k];
    }
  }

  /** `_state_change_handler`: MAIN registers an absent id, DEAD removes a present one. */
  function StateChange(ds: seq<nat>, id: nat, state: DispatcherState): (r: seq<nat>)
    ensures Distinct(ds) ==> Distinct(r)
    ensures state == MainDispatcher ==> forall x :: x in r <==> x in ds || x == id
    ensures state == DeadDispatcher ==> forall x :: x in r <==> x in ds && x != id
  {
    match state
    case MainDispatcher => Register(ds, id)
    case DeadDispatcher => if id in ds then Unregister(ds, id) else ds
  }

  /** Removing an id that is absent changes nothing. */
  lemma {:induction false} UnregisterAbsent(ds: seq<nat>, id: nat)
    requires id !in ds
    ensures Unregister(ds, id) == ds
    decreases |ds|
  {
    if ds != [] {
      UnregisterAbsent(ds[1..], id);
      assert ds == [ds[0]] + ds[1..];
    }
  }

  /** Removing the id just appended gives back the registry before it. */
  lemma {:induction false} UnregisterAppended(ds: seq<nat>, id: nat)
    requires id !in ds
    ensures Unregister(ds + [id], id) == ds
    decreases |ds|
  {
    if ds == [] {
      assert [id][1..] == [];
    } else {
      assert (ds + [id])[1..] == ds[1..] + [id];
      UnregisterAppended(ds[1..], id);
      assert ds == [ds[0]] + ds[1..];
    }
  }

  /** A switch that connects and then disconnects leaves the registry as it found it. */
  lemma ConnectDisconnectRoundTrip(ds: seq<nat>, id: nat)
    requires id !in ds
    ensures StateChange(StateChange(ds, id, MainDispatcher), id, DeadDispatcher) == ds
  {
    UnregisterAppended(ds, id);
  }

  /** A repeated MAIN event does not move or overwrite an entry. */
  lemma RegisterIdempotent(ds: seq<nat>, id: nat)
    ensures StateChange(StateChange(ds, id, MainDispatcher), id, MainDispatcher) == StateChange(ds, id, MainDispatcher)
  {
  }

  // ---------------------------------------------------------------------------
  // One monitor tick
  // ---------------------------------------------------------------------------

  /** A statistics request: OFPPortStatsRequest (q3, q3test) or OFPFlowStatsRequest (stats). */
  datatype StatsRequest = PortStatsRequest(dpid: nat) | FlowStatsRequest(dpid: nat)

  /** How many requests of reqs go to switch id. */
  function RequestsTo(reqs: seq<StatsRequest>, id: nat): nat
    decreases |reqs|
  {
    if reqs == [] then 0
    else RequestsTo(reqs[..|reqs| - 1], id) + (if reqs[|reqs| - 1].dpid == id then 1 else 0)
  }

  /** A q3 tick: nothing while `self.switches` is empty, else one port-stats request to
      `self.switches[5]`, which raises KeyError when switch 5 has not connected. */
  function Q3Tick(switches: set<nat>): (r: Result<seq<StatsRequest>, Fault>)
    ensures r.Err? <==> switches != {} && MONITORED_SWITCH !in switches
    ensures r.Ok? ==> forall q | q in r.value :: q == PortStatsRequest(MONITORED_SWITCH) && q.dpid in switches
    ensures r.Ok? ==> (r.value != [] <==> switches != {})
    ensures r.Ok? && switches != {} ==> r.value == [PortStatsRequest(MONITORED_SWITCH)]
  {
    if switches == {} then Ok([])
    else if MONITORED_SWITCH in switches then Ok([PortStatsRequest(MONITORED_SWITCH)])
    else Err(NotRegistered(Switch(MONITORED_SWITCH)))
  }

  /** A q3test tick: `for dp in self.switches.values()`, where `_request_stats` sends a
      port-stats request only to the datapath with id 5. */
  method Q3TestTick(switches: set<nat>) returns (reqs: seq<StatsRequest>)
    ensures reqs == if MONITORED_SWITCH in switches then [PortStatsRequest(MONITORED_SWITCH)] else []
  {
    reqs := [];
    var rest := switches;
    while rest != {}
      invariant rest <= switches
      invariant reqs == if MONITORED_SWITCH in switches && MONITORED_SWITCH !in rest then [PortStatsRequest(MONITORED_SWITCH)] else []
      decreases |rest|
    {
      var id :| id in rest;
      if id == MONITORED_SWITCH {
        reqs := reqs + [PortStatsRequest(id)];
      }
      rest := rest - {id};
    }
  }

  /** A stats tick: `for dp in self.datapaths.values()` sends one flow-stats request to
      each registered datapath, in registration order; each registered id gets exactly
      one and no other id gets any. */
  method StatsTick(datapaths: seq<nat>) returns (reqs: seq<StatsRequest>)
    requires Distinct(datapaths)
    ensures |reqs| == |datapaths|
    ensures forall i | 0 <= i < |reqs| :: reqs[i] == FlowStatsRequest(datapaths[i])
    ensures forall id :: RequestsTo(reqs, id) == if id in datapaths then 1 else 0
  {
    reqs := [];
    for i := 0 to |datapaths|
      invariant |reqs| == i
      invariant forall k | 0 <= k < i :: reqs[k] == FlowStatsRequest(datapaths[k])
      invariant forall id :: RequestsTo(reqs, id) == if id in datapaths[..i] then 1 else 0
    {
      assert datapaths[..i + 1] == datapaths[..i] + [datapaths[i]];
      assert (reqs + [FlowStatsRequest(datapaths[i])])[..i] == reqs;
      reqs := reqs + [FlowStatsRequest(datapaths[i])];
    }
    assert datapaths[..|datapaths|] == datapaths;
  }

  /** A switch that disconnects between two ticks gets no request on the next one, and
      every other registered switch still gets exactly one. */
  lemma DisconnectedSkipped(datapaths: seq<nat>, gone: nat, reqs: seq<StatsRequest>)
    requires Distinct(datapaths)
    requires forall id :: RequestsTo(reqs, id) == if id in StateChange(datapaths, gone, DeadDispatcher) then 1 else 0
    ensures RequestsTo(reqs, gone) == 0
    ensures forall id | id in datapaths && id != gone :: RequestsTo(reqs, id) == 1
  {
  }

  // ---------------------------------------------------------------------------
  // The flow-stats reply
  // ---------------------------------------------------------------------------

  /** One OFPFlowStats entry of a reply body, with the fields the handler reads. */
  datatype FlowStat = FlowStat(priority: nat, pattern: Match, instrs: seq<Instruction>, packetCount: nat, byteCount: nat)

  /** The entries `_flow_stats_reply_handler` reports: those of priority 1, in body order. */
  function PriorityOne(body: seq<FlowStat>): (r: seq<FlowStat>)
    ensures |r| <= |body|
    ensures forall s :: s in r <==> s in body && s.priority == 1
    decreases |body|
  {
    if body == [] then []
    else (if body[0].priority == 1 then [body[0]] else []) + PriorityOne(body[1..])
  }

  /** Filtering a body that grows by one entry extends the report by that entry when it
      has priority 1. */
  lemma {:induction false} PriorityOneAppend(body: seq<FlowStat>, s: FlowStat)
    ensures PriorityOne(body + [s]) == PriorityOne(body) + (if s.priority == 1 then [s] else [])
    decreases |body|
  {
    if body == [] {
      assert [s][1..] == [];
    } else {
      assert (body + [s])[1..] == body[1..] + [s];
      PriorityOneAppend(body[1..], s);
    }
  }

  /** The fields of one logged line: `eth_dst`, the out port, packets and bytes. */
  datatype ReportLine = ReportLine(ethDst: string, outPort: nat, packetCount: nat, byteCount: nat)

  /** An entry whose log arguments can be built: it matches on `eth_dst`, and it has a
      first instruction, which applies a list whose first action is an output. */
  predicate Readable(s: FlowStat) {
    && s.pattern.ethDst.Some?
    && s.instrs != []
    && s.instrs[0].Apply? && s.instrs[0].actions != [] && s.instrs[0].actions[0].Output?
  }

  /** The line logged for a priority-1 entry, or the exception raised while its arguments
      are evaluated from left to right: `flow.match['eth_dst']`, then
      `flow.instructions[0].actions[0].port`. */
  function LineOf(s: FlowStat): (r: Result<ReportLine, Fault>)
    ensures r.Ok? <==> Readable(s)
    ensures r.Ok? ==> r.value.ethDst == s.pattern.ethDst.value && r.value.outPort == s.instrs[0].actions[0].port
                      && r.value.packetCount == s.packetCount && r.value.byteCount == s.byteCount
    ensures s.pattern.ethDst.None? ==> r == Err(NoEthDstField)
    ensures s.pattern.ethDst.Some? && s.instrs == [] ==> r == Err(NoFirstInstruction)
  {
    if s.pattern.ethDst.None? then Err(NoEthDstField)
    else if s.instrs == [] then Err(NoFirstInstruction)
    else if s.instrs[0].Goto? then Err(NoActionsField)
    else if s.instrs[0].actions == [] then Err(NoFirstAction)
    else if !s.instrs[0].actions[0].Output? then Err(NoPortField)
    else Ok(ReportLine(s.pattern.ethDst.value, s.instrs[0].actions[0].port, s.packetCount, s.byteCount))
  }

  /** What `_flow_stats_reply_handler` logs: the lines of the priority-1 entries in body
      order, up to the first one whose arguments raise, and that exception. */
  datatype Report = Report(lines: seq<ReportLine>, fault: Option<Fault>)

  function ReportOf(body: seq<FlowStat>): (r: Report)
    ensures |r.lines| <= |PriorityOne(body)|
    ensures r.fault.None? <==> forall s | s in body && s.priority == 1 :: Readable(s)
    decreases |body|
  {
    if body == [] then Report([], None)
    else
      assert forall s | s in body[1..] :: s in body;
      if body[0].priority != 1 then ReportOf(body[1..])
      else match LineOf(body[0])
        case Err(f) => Report([], Some(f))
        case Ok(line) =>
          var rest := ReportOf(body[1..]);
          Report([line] + rest.lines, rest.fault)
  }

  /** When every priority-1 entry is readable, one line is logged per priority-1 entry, in
      body order. */
  lemma {:induction false} ReportAllReadable(body: seq<FlowStat>)
    requires forall s | s in body && s.priority == 1 :: Readable(s)
    ensures ReportOf(body).fault.None?
    ensures |ReportOf(body).lines| == |PriorityOne(body)|
    ensures forall i | 0 <= i < |PriorityOne(body)| :: ReportOf(body).lines[i] == LineOf(PriorityOne(body)[i]).value
    decreases |body|
  {
    if body != [] {
      assert forall s | s in body[1..] :: s in body;
      ReportAllReadable(body[1..]);
      var rest, p := ReportOf(body[1..]), PriorityOne(body[1..]);
      if body[0].priority == 1 {
        var line := LineOf(body[0]).value;
        assert ReportOf(body) == Report([line] + rest.lines, rest.fault);
        assert PriorityOne(body) == [body[0]] + p;
        forall i | 0 <= i < |PriorityOne(body)| ensures ReportOf(body).lines[i] == LineOf(PriorityOne(body)[i]).value {
          if i > 0 {
            assert ReportOf(body).lines[i] == rest.lines[i - 1];
            assert PriorityOne(body)[i] == p[i - 1];
          }
        }
      } else {
        assert PriorityOne(body) == p;
      }
    }
  }

  /** The loop stops at the first unreadable priority-1 entry: the lines are those of the
      entries before it, and its exception is the fault. */
  lemma {:induction false} ReportStopsAt(body: seq<FlowStat>, i: nat)
    requires i < |body| && body[i].priority == 1 && !Readable(body[i])
    requires forall j | 0 <= j < i && body[j].priority == 1 :: Readable(body[j])
    ensures ReportOf(body) == Report(ReportOf(body[..i]).lines, Some(LineOf(body[i]).error))
    decreases i
  {
    if i == 0 {
      assert body[..0] == [];
    } else {
      assert body[1..][..i - 1] == body[..i][1..];
      assert forall j | 0 <= j < i - 1 && body[1..][j].priority == 1 :: Readable(body[1..][j]) by {
        forall j | 0 <= j < i - 1 && body[1..][j].priority == 1 ensures Readable(body[1..][j]) {
          assert body[1..][j] == body[j + 1];
        }
      }
      ReportStopsAt(body[1..], i - 1);
      assert body[..i][0] == body[0];
    }
  }

  /** Entry i of the reply loop: a lower priority is skipped, a readable priority-1 entry
      logs its line, an unreadable one ends the loop. */
  lemma ReportAt(body: seq<FlowStat>, i: nat)
    requires i < |body|
    ensures body[i].priority != 1 ==> ReportOf(body[i..]) == ReportOf(body[i + 1..])
    ensures body[i].priority == 1 && !Readable(body[i]) ==> ReportOf(body[i..]) == Report([], Some(LineOf(body[i]).error))
    ensures body[i].priority == 1 && Readable(body[i]) ==>
              ReportOf(body[i..]) == Report([LineOf(body[i]).value] + ReportOf(body[i + 1..]).lines, ReportOf(body[i + 1..]).fault)
  {
    assert body[i..][0] == body[i] && body[i..][1..] == body[i + 1..];
  }

  /** The reply loop `for flow in body: if flow.priority == 1: self.logger.info(...)`: the
      lines it logs, and the exception that ends it early. */
  method ReportFlows(body: seq<FlowStat>) returns (lines: seq<ReportLine>, fault: Option<Fault>)
    ensures Report(lines, fault) == ReportOf(body)
  {
    lines := [];
    fault := None;
    var i := 0;
    assert body[0..] == body;
    while i < |body|
      invariant 0 <= i <= |body|
      invariant ReportOf(body) == Report(lines + ReportOf(body[i..]).lines, ReportOf(body[i..]).fault)
    {
      ReportAt(body, i);
      if body[i].priority == 1 {
        var line := LineOf(body[i]);
        if line.Err? {
          fault := Some(line.error);
          assert lines + [] == lines;
          return;
        }
        ghost var rest := ReportOf(body[i + 1..]);
        assert lines + ([line.value] + rest.lines) == (lines + [line.value]) + rest.lines;
        lines := lines + [line.value];
      }
      i := i + 1;
    }
    assert body[i..] == [];
    assert lines + [] == lines;
  }
}
