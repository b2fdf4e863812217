/**
 Whether the processes that listen on the ports of a node are the expected ones.
 Tables and lists are kept by reference, as the check keeps a table of the node
 itself for its error message, and extends the lists it is given.
 */
module Ports {
  import opened Results

  datatype Process = Process(pid: int, name: string)

  // The processes that listen on one port, by address.
  type Listeners = map<string, Process>

  class Table {
    var listeners: Listeners

    constructor ()
      ensures listeners == map[]
    {
      listeners := map[];
    }
  }

  // Expected processes, as patterns of their names; `None` expects nothing.
  type Wanted = seq<Option<string>>

  class Patterns {
    var items: Wanted

    constructor (items: Wanted)
      ensures this.items == items
    {
      this.items := items;
    }
  }

  datatype Expected = One(pattern: Option<string>) | Many(list: Patterns)

  datatype Entry = Entry(address: string, expected: Expected, mandatory: bool)

  datatype Planes = Planes(controlPlane: string, workloadPlane: string)

  // An unexpected state of a port: the address, and the processes blamed for it.
  datatype PortError = PortError(address: string, offenders: Listeners)

  type Matcher = (string, string) -> bool

  const ANY := "0.0.0.0"

  // ----- Addresses -----

  datatype Address = Address(ip: string, port: string)

  /** The text before and after the last `:`. */
  function RPartition(text: string): Address {
    if text == "" then Address("", "")
    else
      var n := |text| - 1;
      if text[n] == ':' then Address(text[..n], "")
      else
        var rest := RPartition(text[..n]);
        Address(rest.ip, rest.port + [text[n]])
  }

  function Resolve(planes: Planes, text: string): Address {
    var a := RPartition(text);
    if a.ip == "control_plane_ip" then Address(planes.controlPlane, a.port)
    else if a.ip == "workload_plane_ip" then Address(planes.workloadPlane, a.port)
    else a
  }

  /** The address as errors show it. */
  function Shown(planes: Planes, text: string): string {
    var ip := RPartition(text).ip;
    if ip == "control_plane_ip" || ip == "workload_plane_ip"
    then Resolve(planes, text).ip + ":" + Resolve(planes, text).port
    else text
  }

  lemma {:induction false} RPartitionIsLast(text: string)
    ensures ':' !in RPartition(text).port
    ensures ':' in text ==> text == RPartition(text).ip + [':'] + RPartition(text).port
    ensures ':' !in text ==> RPartition(text) == Address("", text)
  {
    if text != "" {
      var n := |text| - 1;
      assert text == text[..n] + [text[n]];
      if text[n] != ':' {
        RPartitionIsLast(text[..n]);
      }
    }
  }

  lemma {:induction false} RPartitionOf(ip: string, port: string)
    requires ':' !in port
    ensures RPartition(ip + ":" + port) == Address(ip, port)
  {
    var text := ip + ":" + port;
    if port != "" {
      var n := |port| - 1;
      assert text[..|text| - 1] == ip + ":" + port[..n] && text[|text| - 1] == port[n];
      RPartitionOf(ip, port[..n]);
      assert port == port[..n] + [port[n]];
    } else {
      assert text[..|text| - 1] == ip;
    }
  }

  /** The names of the two planes stand for their addresses, for what is checked and for what errors show. */
  lemma ResolveMeans(planes: Planes, ip: string, port: string)
    requires ':' !in port
    ensures Resolve(planes, ip + ":" + port) ==
            Address(if ip == "control_plane_ip" then planes.controlPlane
                    else if ip == "workload_plane_ip" then planes.workloadPlane else ip, port)
    ensures Resolve(planes, port) == Address("", port) && Shown(planes, port) == port
    ensures Shown(planes, ip + ":" + port) == Resolve(planes, ip + ":" + port).ip + ":" + port
  {
    RPartitionOf(ip, port);
    RPartitionIsLast(port);
  }

  // ----- Meaning -----

  /** An address whose listeners matter for this entry: any, or the given one and the one that stands for all. */
  predicate Relevant(ip: string, address: string) {
    ip == "" || address == ip || address == "0.0.0.0"
  }

  predicate Quiet(listeners: Listeners, ip: string) {
    forall address | address in listeners :: !Relevant(ip, address)
  }

  predicate AllMatch(matches: Matcher, pattern: string, listeners: Listeners, ip: string) {
    forall address | address in listeners && Relevant(ip, address) :: matches(pattern, listeners[address].name)
  }

  /** What listens is what is wanted: nothing, or only processes of this pattern. */
  predicate Satisfies(matches: Matcher, want: Option<string>, listeners: Listeners, ip: string) {
    match want
    case None => Quiet(listeners, ip)
    case Some(pattern) => !Quiet(listeners, ip) && AllMatch(matches, pattern, listeners, ip)
  }

  ghost predicate Accepted(matches: Matcher, wanted: Wanted, listeners: Listeners, ip: string) {
    exists i | 0 <= i < |wanted| :: Satisfies(matches, wanted[i], listeners, ip)
  }

  function WithNothing(wanted: Wanted): Wanted {
    if None in wanted then wanted else wanted + [None]
  }

  /**
   The port is as expected if nothing relevant listens and that is allowed, because
   the entry is not mandatory or says so, or if something does and one expected
   pattern describes all of it.
   */
  lemma AcceptedMeans(matches: Matcher, wanted: Wanted, mandatory: bool, listeners: Listeners, ip: string)
    ensures Accepted(matches, if mandatory then wanted else WithNothing(wanted), listeners, ip) <==>
            || (Quiet(listeners, ip) && (!mandatory || None in wanted))
            || (!Quiet(listeners, ip)
                && exists pattern | Some(pattern) in wanted :: AllMatch(matches, pattern, listeners, ip))
  {
    var all := if mandatory then wanted else WithNothing(wanted);
    if Quiet(listeners, ip) {
      if None in all {
        var i :| 0 <= i < |all| && all[i] == None;
        assert Satisfies(matches, all[i], listeners, ip);
      }
    } else {
      forall pattern | Some(pattern) in wanted && AllMatch(matches, pattern, listeners, ip)
        ensures Accepted(matches, all, listeners, ip)
      {
        var i :| 0 <= i < |wanted| && wanted[i] == Some(pattern);
        assert all[i] == wanted[i] && Satisfies(matches, all[i], listeners, ip);
      }
      if Accepted(matches, all, listeners, ip) {
        var i :| 0 <= i < |all| && Satisfies(matches, all[i], listeners, ip);
        assert all[i] in wanted;
      }
    }
  }

  // ----- One entry -----

  ghost function ListenersOf(onPort: Table?): Listeners
    reads onPort
  {
    if onPort == null then map[] else onPort.listeners
  }

  /** Part of a table: every entry of `part` is an entry of `whole` that matters. */
  ghost predicate Blames(part: Listeners, whole: Listeners, ip: string) {
    forall address | address in part :: address in whole && part[address] == whole[address] && Relevant(ip, address)
  }

  /** Does what listens satisfy this one expectation? If not, `offenders` may be given the processes in the way. */
  method CheckOne(matches: Matcher, want: Option<string>, onPort: Table?, ip: string, offenders: Table)
    returns (ok: bool, offenders': Table)
    requires Blames(offenders.listeners, ListenersOf(onPort), ip)
    modifies offenders, if onPort == null then {} else {onPort}
    ensures ok <==> Satisfies(matches, want, ListenersOf(onPort), ip)
    ensures onPort != null ==> onPort.listeners == old(onPort.listeners)
    ensures offenders' == offenders || offenders' == onPort
    ensures Blames(offenders'.listeners, ListenersOf(onPort), ip)
    ensures !ok && !Quiet(ListenersOf(onPort), ip) ==> offenders'.listeners != map[]
    ensures old(offenders.listeners) != map[] ==> offenders'.listeners != map[]
  {
    ok, offenders' := true, offenders;
    match want
    case None =>
      if onPort != null && onPort.listeners != map[] {
        if ip == "" {
          offenders' := onPort;
          ok := false;
        }
        if ANY in onPort.listeners {
          offenders'.listeners := offenders'.listeners[ANY := onPort.listeners[ANY]];
          ok := false;
        }
        if ip in onPort.listeners {
          offenders'.listeners := offenders'.listeners[ip := onPort.listeners[ip]];
          ok := false;
        }
      }
    case Some(pattern) =>
      if onPort == null || onPort.listeners == map[]
         || (ip != "" && ANY !in onPort.listeners && ip !in onPort.listeners)
      {
        ok := false;
      } else if ANY in onPort.listeners && !matches(pattern, onPort.listeners[ANY].name) {
        offenders'.listeners := offenders'.listeners[ANY := onPort.listeners[ANY]];
        ok := false;
      } else if ip != "" && ip in onPort.listeners && !matches(pattern, onPort.listeners[ip].name) {
        offenders'.listeners := offenders'.listeners[ip := onPort.listeners[ip]];
        ok := false;
      } else if ip == "" {
        ok := CheckAll(matches, pattern, onPort, offenders');
      }
  }

  /** Does every process on the port match? Those that do not are added to `offenders`. */
  method CheckAll(matches: Matcher, pattern: string, onPort: Table, offenders: Table) returns (ok: bool)
    requires Blames(offenders.listeners, onPort.listeners, "")
    modifies offenders
    ensures onPort.listeners == old(onPort.listeners)
    ensures Blames(offenders.listeners, onPort.listeners, "")
    ensures ok <==> AllMatch(matches, pattern, onPort.listeners, "")
    ensures !ok || old(offenders.listeners) != map[] ==> offenders.listeners != map[]
  {
    ok := true;
    var todo := onPort.listeners.Keys;
    while todo != {}
      invariant onPort.listeners == old(onPort.listeners)
      invariant todo <= onPort.listeners.Keys
      invariant Blames(offenders.listeners, onPort.listeners, "")
      invariant ok <==> forall address | address in onPort.listeners && address !in todo ::
                          matches(pattern, onPort.listeners[address].name)
      invariant !ok || old(offenders.listeners) != map[] ==> offenders.listeners != map[]
      decreases |todo|
    {
      var address :| address in todo;
      todo := todo - {address};
      if !matches(pattern, onPort.listeners[address].name) {
        offenders.listeners := offenders.listeners[address := onPort.listeners[address]];
        ok := false;
      }
    }
  }

  /** Is any of the expectations satisfied? The processes blamed when none is are listeners that matter. */
  method CheckEntry(matches: Matcher, processes: Patterns, onPort: Table?, ip: string)
    returns (ok: bool, offenders: Listeners)
    modifies if onPort == null then {} else {onPort}
    ensures onPort != null ==> onPort.listeners == old(onPort.listeners)
    ensures ok <==> Accepted(matches, processes.items, ListenersOf(onPort), ip)
    ensures Blames(offenders, ListenersOf(onPort), ip)
    ensures !ok && processes.items != [] ==> (offenders == map[] <==> Quiet(ListenersOf(onPort), ip))
  {
    ok := false;
    var table := new Table();
    ghost var own := table;
    for i := 0 to |processes.items|
      invariant fresh(own) && (table == own || table == onPort)
      invariant processes.items == old(processes.items)
      invariant onPort != null ==> onPort.listeners == old(onPort.listeners)
      invariant !ok && forall j | 0 <= j < i :: !Satisfies(matches, processes.items[j], ListenersOf(onPort), ip)
      invariant Blames(table.listeners, ListenersOf(onPort), ip)
      invariant i > 0 && !Quiet(ListenersOf(onPort), ip) ==> table.listeners != map[]
    {
      ok, table := CheckOne(matches, processes.items[i], onPort, ip, table);
      if ok {
        break;
      }
    }
    offenders := table.listeners;
  }

  // ----- All entries -----

  ghost function Lists(entries: seq<Entry>): set<Patterns> {
    set i | 0 <= i < |entries| && entries[i].expected.Many? :: entries[i].expected.list
  }

  /** Among the first `n` entries, one that is not mandatory uses this list. */
  ghost predicate Extended(entries: seq<Entry>, n: nat, list: Patterns)
    requires n <= |entries|
  {
    exists i | 0 <= i < n :: entries[i].expected == Many(list) && !entries[i].mandatory
  }

  /** What is wanted at the `i`th entry, when `items` is what its list held at first. */
  ghost function WantedAt(entries: seq<Entry>, i: nat, items: Wanted): Wanted
    requires i < |entries|
  {
    match entries[i].expected
    case One(pattern) => if entries[i].mandatory then [pattern] else WithNothing([pattern])
    case Many(list) => if Extended(entries, i + 1, list) then WithNothing(items) else items
  }

  /** A list is shared when another entry before uses it. */
  ghost predicate Unshared(entries: seq<Entry>) {
    forall i, j | 0 <= i < j < |entries| && entries[i].expected.Many? && entries[j].expected.Many? ::
      entries[i].expected.list != entries[j].expected.list
  }

  /** Entries that share no list are judged by their own list, with nothing allowed as well unless mandatory. */
  lemma UnsharedWanted(entries: seq<Entry>, i: nat, items: Wanted)
    requires i < |entries| && Unshared(entries)
    requires entries[i].expected.One? ==> items == [entries[i].expected.pattern]
    ensures WantedAt(entries, i, items) == if entries[i].mandatory then items else WithNothing(items)
  {
    if entries[i].expected.Many? && !entries[i].mandatory {
      assert Extended(entries, i + 1, entries[i].expected.list);
    }
  }

  /**
   The verdict on a mandatory entry is the one that its own list gives, unless an
   earlier entry, not mandatory, extended that list, which expects something, while
   nothing relevant listens: then what should be an error is accepted.
   */
  lemma SharedListExactly(matches: Matcher, entries: seq<Entry>, i: nat, items: Wanted,
                          listeners: Listeners, ip: string)
    requires i < |entries| && entries[i].mandatory && entries[i].expected.Many?
    ensures var misled := Extended(entries, i, entries[i].expected.list) && None !in items && Quiet(listeners, ip);
            Accepted(matches, WantedAt(entries, i, items), listeners, ip) <==>
            misled || Accepted(matches, items, listeners, ip)
    ensures None !in items && Quiet(listeners, ip) ==> !Accepted(matches, items, listeners, ip)
  {
    var list := entries[i].expected.list;
    assert Extended(entries, i + 1, list) <==> Extended(entries, i, list);
    AcceptedMeans(matches, items, false, listeners, ip);
    AcceptedMeans(matches, items, true, listeners, ip);
  }

  ghost function ItemsOf(expected: Expected): Wanted
    reads match expected case One(_) => {} case Many(list) => {list}
  {
    match expected
    case One(pattern) => [pattern]
    case Many(list) => list.items
  }

  // A connection table, port by port.
  type Connections = map<string, Table>

  ghost function Snapshot(connections: Connections): map<string, Listeners>
    reads connections.Values
  {
    map port | port in connections :: connections[port].listeners
  }

  function ListenersAt(listening: map<string, Listeners>, port: string): Listeners {
    if port in listening then listening[port] else map[]
  }

  ghost predicate EntryAccepted(matches: Matcher, planes: Planes, entry: Entry, wanted: Wanted,
                                listening: map<string, Listeners>)
  {
    var a := Resolve(planes, entry.address);
    Accepted(matches, wanted, ListenersAt(listening, a.port), a.ip)
  }

  /** The addresses, in order, of the entries that are not accepted. */
  ghost function Failing(matches: Matcher, planes: Planes, entries: seq<Entry>, wanted: seq<Wanted>,
                         listening: map<string, Listeners>): seq<string>
    requires |wanted| == |entries|
  {
    if entries == [] then []
    else
      var n := |entries| - 1;
      Failing(matches, planes, entries[..n], wanted[..n], listening)
      + if EntryAccepted(matches, planes, entries[n], wanted[n], listening) then []
        else [Shown(planes, entries[n].address)]
  }

  ghost function AddressesOf(errors: seq<PortError>): seq<string> {
    if errors == [] then [] else AddressesOf(errors[..|errors| - 1]) + [errors[|errors| - 1].address]
  }

  /**
   Check every entry. There is an error for each entry that is not accepted, in order;
   `wanted` is what each entry was checked against. The connections are as before, and
   a list keeps its patterns, with nothing allowed as well once an entry that is not
   mandatory used it.
   */
  method Check(matches: Matcher, planes: Planes, entries: seq<Entry>, connections: Connections)
    returns (errors: seq<PortError>, ghost wanted: seq<Wanted>)
    modifies Lists(entries), connections.Values
    ensures Snapshot(connections) == old(Snapshot(connections))
    ensures |wanted| == |entries|
    ensures forall i | 0 <= i < |entries| :: wanted[i] == WantedAt(entries, i, old(ItemsOf(entries[i].expected)))
    ensures AddressesOf(errors) == Failing(matches, planes, entries, wanted, old(Snapshot(connections)))
    ensures forall list | list in Lists(entries) ::
              list.items == if Extended(entries, |entries|, list) then WithNothing(old(list.items)) else old(list.items)
  {
    hide Failing, AddressesOf, EntryAccepted, Resolve, Shown, WantedAt, WithNothing, Quiet, Blames, ListenersAt,
         Relevant, Accepted, Satisfies;
    errors, wanted := [], [];
    ghost var listening := Snapshot(connections);
    FailingStarts(matches, planes, listening);
    for i := 0 to |entries|
      invariant Snapshot(connections) == listening
      invariant |wanted| == i
      invariant forall j | 0 <= j < i :: wanted[j] == WantedAt(entries, j, old(ItemsOf(entries[j].expected)))
      invariant forall list | list in Lists(entries) ::
                  list.items == if Extended(entries, i, list) then WithNothing(old(list.items)) else old(list.items)
      invariant AddressesOf(errors) == Failing(matches, planes, entries[..i], wanted, listening)
    {
      ListsExtended(entries, i);
      ghost var items := ItemsOf(entries[i].expected);
      var error;
      ghost var wants, before := [], errors;
      error, wants := CheckNext(matches, planes, entries[i], connections);
      WantedNow(entries, i, old(ItemsOf(entries[i].expected)), items);
      if error.Some? {
        errors := errors + [error.value];
      }
      FailingGrows(matches, planes, entries[..i], wanted, listening, entries[i], wants, before, errors);
      assert entries[..i + 1] == entries[..i] + [entries[i]];
      wanted := wanted + [wants];
    }
    assert entries[..|entries|] == entries;
  }

  /** Check one entry, and extend its list if it is not mandatory. The processes blamed are listeners that matter. */
  method CheckNext(matches: Matcher, planes: Planes, entry: Entry, connections: Connections)
    returns (error: Option<PortError>, ghost wants: Wanted)
    modifies connections.Values, match entry.expected case One(_) => {} case Many(list) => {list}
    ensures Snapshot(connections) == old(Snapshot(connections))
    ensures wants == if entry.mandatory then old(ItemsOf(entry.expected)) else WithNothing(old(ItemsOf(entry.expected)))
    ensures entry.expected.Many? ==> entry.expected.list.items == wants
    ensures error.None? <==> EntryAccepted(matches, planes, entry, wants, old(Snapshot(connections)))
    ensures error.Some? ==>
              var a := Resolve(planes, entry.address);
              var listeners := ListenersAt(old(Snapshot(connections)), a.port);
              && error.value.address == Shown(planes, entry.address)
              && Blames(error.value.offenders, listeners, a.ip)
              && (wants != [] ==> (error.value.offenders == map[] <==> Quiet(listeners, a.ip)))
  {
    hide Resolve, Shown, Accepted, WithNothing, Quiet, Blames;
    ghost var listening := Snapshot(connections);
    var a := Resolve(planes, entry.address);
    var processes := ProcessesOf(entry);
    wants := processes.items;
    var onPort := if a.port in connections then connections[a.port] else null;
    assert ListenersOf(onPort) == ListenersAt(listening, a.port);
    var ok, offenders := CheckEntry(matches, processes, onPort, a.ip);
    assert forall port | port in connections :: connections[port].listeners == listening[port];
    error := if ok then None else Some(PortError(Shown(planes, entry.address), offenders));
  }

  /** The list to check the entry against: its own list, or a new one for a single pattern. */
  method ProcessesOf(entry: Entry) returns (processes: Patterns)
    modifies match entry.expected case One(_) => {} case Many(list) => {list}
    ensures entry.expected.Many? ==> processes == entry.expected.list
    ensures entry.expected.One? ==> fresh(processes)
    ensures processes.items ==
            if entry.mandatory then old(ItemsOf(entry.expected)) else WithNothing(old(ItemsOf(entry.expected)))
  {
    match entry.expected {
      case One(pattern) => processes := new Patterns([pattern]);
      case Many(list) => processes := list;
    }
    if !entry.mandatory && None !in processes.items {
      processes.items := processes.items + [None];
    }
  }

  lemma FailingStarts(matches: Matcher, planes: Planes, listening: map<string, Listeners>)
    ensures AddressesOf([]) == Failing(matches, planes, [], [], listening)
  {
  }

  lemma FailingGrows(matches: Matcher, planes: Planes, entries: seq<Entry>, wanted: seq<Wanted>,
                     listening: map<string, Listeners>, entry: Entry, wants: Wanted,
                     errors: seq<PortError>, errors': seq<PortError>)
    requires |wanted| == |entries|
    requires AddressesOf(errors) == Failing(matches, planes, entries, wanted, listening)
    requires if EntryAccepted(matches, planes, entry, wants, listening) then errors' == errors
             else errors' != [] && errors'[..|errors'| - 1] == errors
                  && errors'[|errors'| - 1].address == Shown(planes, entry.address)
    ensures AddressesOf(errors') == Failing(matches, planes, entries + [entry], wanted + [wants], listening)
  {
    assert (entries + [entry])[..|entries|] == entries && (wanted + [wants])[..|entries|] == wanted;
  }

  /** What is wanted of the entry, from what its list holds when its turn comes. */
  lemma WantedNow(entries: seq<Entry>, i: nat, items: Wanted, now: Wanted)
    requires i < |entries|
    requires match entries[i].expected
             case One(pattern) => items == [pattern] && now == items
             case Many(list) => now == if Extended(entries, i, list) then WithNothing(items) else items
    ensures WantedAt(entries, i, items) == if entries[i].mandatory then now else WithNothing(now)
    ensures entries[i].expected.Many? ==>
              WantedAt(entries, i, items)
              == if Extended(entries, i + 1, entries[i].expected.list) then WithNothing(items) else items
  {
    match entries[i].expected
    case One(_) =>
    case Many(list) =>
      assert Extended(entries, i + 1, list) <==> Extended(entries, i, list) || !entries[i].mandatory;
  }

  lemma ListsExtended(entries: seq<Entry>, i: nat)
    requires i < |entries|
    ensures forall list: Patterns | list in Lists(entries) ::
              Extended(entries, i + 1, list) <==>
              Extended(entries, i, list) || (entries[i].expected == Many(list) && !entries[i].mandatory)
  {
  }
}
