/**
 Role arbitration and the connected set. The node's shared state is the
 device directory, the role held toward each peer and the connected set, all
 keyed by object path. Each block the source runs under
 `mutex_role_to_device` is one atomic function here, as are the unlocked
 handlers; D-Bus calls enter as parameters (the answer BlueZ gave).
 */
module RoleArbitration {
  import opened Wrappers
  import opened DBusTypes
  import opened DeviceDirectory

  /** The node's role toward one peer: not yet decided, the side that connected, the side connected to. */
  datatype NodeMode = NoRole | Central | Peripheral

  type Roles = map<Path, NodeMode>

  /** Connected peers with the property dictionary recorded when they joined. */
  type ConnectedSet = map<Path, Props>

  datatype Node = Node(found: Directory, roles: Roles, connected: ConnectedSet)

  /** Outbound arbitration may claim a peer whose role is absent or NONE. */
  predicate Unclaimed(roles: Roles, p: Path) {
    p !in roles || roles[p] == NoRole
  }

  /** Reading `devices_found[path]["Address"]` succeeds. */
  predicate HasAddress(found: Directory, p: Path) {
    p in found && "Address" in found[p]
  }

  /** The `Connected` property was read and is false; `answers` holds the reads that succeeded. */
  predicate KnownDisconnected(answers: map<Path, Value>, p: Path) {
    p in answers && !Truthy(answers[p])
  }

  /** The status code `connect` returns; a D-Bus error from `Device1.Connect` is swallowed into it. */
  datatype ConnectStatus = ResultOk | ResultException

  /** `connect`: the paths in `refuses` are those whose `Connect` call raised. */
  function ConnectStatusOf(refuses: set<Path>, p: Path): (s: ConnectStatus)
    ensures s == ResultException <==> p in refuses
  {
    if p in refuses then ResultException else ResultOk
  }

  datatype ConnectAttempt = ConnectAttempt(path: Path, status: ConnectStatus)

  /** What `connect_to_devices` leaves behind: the connected set, the `Connect` calls it issued, whether it raised. */
  datatype ConnectReport = ConnectReport(connected: ConnectedSet, attempts: seq<ConnectAttempt>, raised: bool)

  /** Every entry's peer has an address in the directory, so no entry raises. */
  predicate AllAddressed(found: Directory, entries: seq<(Path, Props)>) {
    forall i :: 0 <= i < |entries| ==> HasAddress(found, entries[i].0)
  }

  /**
   `connect_to_devices` over the dictionary's entries in iteration order. Each
   entry first reads the peer's address from the directory (a missing one
   raises `KeyError` and ends the loop), issues `Connect` only when the
   `Connected` property is known to be false, and then records the peer in the
   connected set unless it is already there.
   */
  function ConnectEntries(found: Directory, connected: ConnectedSet, entries: seq<(Path, Props)>,
                          answers: map<Path, Value>, refuses: set<Path>): (r: ConnectReport)
    ensures forall p :: p in connected ==> p in r.connected && r.connected[p] == connected[p]
    ensures r.raised <==> !AllAddressed(found, entries)
    ensures !r.raised ==> forall i :: 0 <= i < |entries| ==> entries[i].0 in r.connected
    ensures forall p :: p in r.connected && p !in connected ==> HasAddress(found, p) && (p, r.connected[p]) in entries
    decreases |entries|
  {
    if entries == [] then ConnectReport(connected, [], false)
    else
      var path := entries[0].0;
      if !HasAddress(found, path) then ConnectReport(connected, [], true)
      else
        var attempt := if KnownDisconnected(answers, path) then [ConnectAttempt(path, ConnectStatusOf(refuses, path))] else [];
        var connected1 := if path in connected then connected else connected[path := entries[0].1];
        var rest := ConnectEntries(found, connected1, entries[1..], answers, refuses);
        assert forall i :: 0 <= i < |entries[1..]| ==> entries[1..][i] == entries[i + 1];
        assert forall e :: e in entries[1..] ==> e in entries;
        ConnectReport(rest.connected, attempt + rest.attempts, rest.raised)
  }

  /** Index of the first entry whose peer has no address in the directory, or the number of entries. */
  function FirstUnaddressed(found: Directory, entries: seq<(Path, Props)>): (k: nat)
    ensures k <= |entries|
    ensures forall i :: 0 <= i < k ==> HasAddress(found, entries[i].0)
    ensures k < |entries| ==> !HasAddress(found, entries[k].0)
    decreases |entries|
  {
    if entries == [] || !HasAddress(found, entries[0].0) then 0
    else 1 + FirstUnaddressed(found, entries[1..])
  }

  /** The `Connect` calls owed to `entries`: one per entry whose `Connected` read false, in entry order. */
  function AttemptsFor(entries: seq<(Path, Props)>, answers: map<Path, Value>, refuses: set<Path>): seq<ConnectAttempt>
    decreases |entries|
  {
    if entries == [] then []
    else
      (if KnownDisconnected(answers, entries[0].0) then [ConnectAttempt(entries[0].0, ConnectStatusOf(refuses, entries[0].0))] else []) +
      AttemptsFor(entries[1..], answers, refuses)
  }

  /**
   `connect_to_devices` handles the entries before the first one whose peer
   has no address (where `KeyError` ends the loop), and only those: it issues
   `Connect`, in entry order, exactly for those whose `Connected` property was
   read as false, each carrying the status `connect` returned, and every one
   of those entries ends up in the connected set; no later entry joins it.
   */
  lemma ConnectEntriesAttempts(found: Directory, connected: ConnectedSet, entries: seq<(Path, Props)>,
                               answers: map<Path, Value>, refuses: set<Path>)
    ensures var r := ConnectEntries(found, connected, entries, answers, refuses);
            var k := FirstUnaddressed(found, entries);
            (r.attempts == AttemptsFor(entries[..k], answers, refuses)) &&
            (forall i :: 0 <= i < k ==> entries[i].0 in r.connected) &&
            (forall p :: p in r.connected && p !in connected ==> exists i :: 0 <= i < k && entries[i] == (p, r.connected[p]))
    ensures var r := ConnectEntries(found, connected, entries, answers, refuses);
            (forall a :: a in r.attempts ==>
               KnownDisconnected(answers, a.path) && a.status == ConnectStatusOf(refuses, a.path) && a.path in r.connected) &&
            (AllAddressed(found, entries) ==>
               forall i :: 0 <= i < |entries| && KnownDisconnected(answers, entries[i].0) ==>
                 ConnectAttempt(entries[i].0, ConnectStatusOf(refuses, entries[i].0)) in r.attempts)
  {
    AttemptsBeforeKeyError(found, connected, entries, answers, refuses);
    JoinedBeforeKeyError(found, connected, entries, answers, refuses);
    AttemptsAreOwed(found, connected, entries, answers, refuses);
  }

  /** The `Connect` calls issued are those owed to the entries before the first `KeyError`, in order. */
  lemma {:induction false} AttemptsBeforeKeyError(found: Directory, connected: ConnectedSet, entries: seq<(Path, Props)>,
                                                  answers: map<Path, Value>, refuses: set<Path>)
    ensures ConnectEntries(found, connected, entries, answers, refuses).attempts ==
            AttemptsFor(entries[..FirstUnaddressed(found, entries)], answers, refuses)
    decreases |entries|
  {
    var k := FirstUnaddressed(found, entries);
    if entries == [] || !HasAddress(found, entries[0].0) {
      assert entries[..k] == [];
    } else {
      var path := entries[0].0;
      var connected1 := if path in connected then connected else connected[path := entries[0].1];
      AttemptsBeforeKeyError(found, connected1, entries[1..], answers, refuses);
      var k' := FirstUnaddressed(found, entries[1..]);
      assert entries[..k][0] == entries[0];
      assert entries[..k][1..] == entries[1..][..k'];
    }
  }

  /** The entries before the first `KeyError` are connected afterwards, and no other entry joined. */
  lemma {:induction false} JoinedBeforeKeyError(found: Directory, connected: ConnectedSet, entries: seq<(Path, Props)>,
                                                answers: map<Path, Value>, refuses: set<Path>)
    ensures var r := ConnectEntries(found, connected, entries, answers, refuses);
            var k := FirstUnaddressed(found, entries);
            (forall i :: 0 <= i < k ==> entries[i].0 in r.connected) &&
            (forall p :: p in r.connected && p !in connected ==> exists i :: 0 <= i < k && entries[i] == (p, r.connected[p]))
    decreases |entries|
  {
    if entries != [] && HasAddress(found, entries[0].0) {
      var r := ConnectEntries(found, connected, entries, answers, refuses);
      var k := FirstUnaddressed(found, entries);
      var path := entries[0].0;
      var connected1 := if path in connected then connected else connected[path := entries[0].1];
      JoinedBeforeKeyError(found, connected1, entries[1..], answers, refuses);
      var rest := ConnectEntries(found, connected1, entries[1..], answers, refuses);
      var k' := FirstUnaddressed(found, entries[1..]);
      assert r.connected == rest.connected;
      forall i | 0 <= i < k
        ensures entries[i].0 in r.connected
      {
        if i > 0 {
          assert entries[i] == entries[1..][i - 1];
        }
      }
      forall p | p in r.connected && p !in connected
        ensures exists i :: 0 <= i < k && entries[i] == (p, r.connected[p])
      {
        if p !in connected1 {
          var j :| 0 <= j < k' && entries[1..][j] == (p, rest.connected[p]);
          assert entries[j + 1] == (p, r.connected[p]);
        } else {
          assert p == path && entries[0] == (p, r.connected[p]);
        }
      }
    }
  }

  /**
   Every `Connect` issued went to an entry whose `Connected` read false, with
   the status `connect` returned, and that peer is connected afterwards; when
   every entry has an address, every such entry got its `Connect`.
   */
  lemma {:induction false} AttemptsAreOwed(found: Directory, connected: ConnectedSet, entries: seq<(Path, Props)>,
                                           answers: map<Path, Value>, refuses: set<Path>)
    ensures var r := ConnectEntries(found, connected, entries, answers, refuses);
            (forall a :: a in r.attempts ==>
               KnownDisconnected(answers, a.path) && a.status == ConnectStatusOf(refuses, a.path) && a.path in r.connected) &&
            (AllAddressed(found, entries) ==>
               forall i :: 0 <= i < |entries| && KnownDisconnected(answers, entries[i].0) ==>
                 ConnectAttempt(entries[i].0, ConnectStatusOf(refuses, entries[i].0)) in r.attempts)
    decreases |entries|
  {
    if entries != [] && HasAddress(found, entries[0].0) {
      var path := entries[0].0;
      var connected1 := if path in connected then connected else connected[path := entries[0].1];
      AttemptsAreOwed(found, connected1, entries[1..], answers, refuses);
      var r := ConnectEntries(found, connected, entries, answers, refuses);
      assert forall i :: 0 <= i < |entries[1..]| ==> entries[1..][i] == entries[i + 1];
      if AllAddressed(found, entries) {
        assert AllAddressed(found, entries[1..]);
        assert path in r.connected;
        forall i | 0 <= i < |entries| && KnownDisconnected(answers, entries[i].0)
          ensures ConnectAttempt(entries[i].0, ConnectStatusOf(refuses, entries[i].0)) in r.attempts
        {
          if i > 0 {
            assert entries[i] == entries[1..][i - 1];
          }
        }
      }
    }
  }

  /** `connect_to_devices` on a one-entry dictionary whose peer has an address. */
  lemma ConnectSingle(found: Directory, connected: ConnectedSet, path: Path, props: Props,
                      answers: map<Path, Value>, refuses: set<Path>)
    requires HasAddress(found, path)
    ensures ConnectEntries(found, connected, [(path, props)], answers, refuses) ==
            ConnectReport(if path in connected then connected else connected[path := props],
                          if KnownDisconnected(answers, path) then [ConnectAttempt(path, ConnectStatusOf(refuses, path))] else [],
                          false)
  {
    assert [(path, props)][1..] == [];
  }

  /** `connect_to_devices` on a dictionary: its entries in the order the dictionary yields them. */
  function ConnectToDevices(found: Directory, connected: ConnectedSet, devices: map<Path, Props>, order: seq<Path>,
                            answers: map<Path, Value>, refuses: set<Path>): (r: ConnectReport)
    requires forall p :: p in devices <==> p in order
    ensures forall p :: p in connected ==> p in r.connected && r.connected[p] == connected[p]
    ensures r.raised <==> exists p :: p in devices && !HasAddress(found, p)
    ensures !r.raised ==> devices.Keys <= r.connected.Keys
    ensures forall p :: p in r.connected && p !in connected ==> p in devices && r.connected[p] == devices[p]
  {
    var entries := Entries(devices, order);
    EntriesCover(devices, order);
    ConnectEntries(found, connected, entries, answers, refuses)
  }

  /** A dictionary's items in iteration order. */
  function Entries(devices: map<Path, Props>, order: seq<Path>): (e: seq<(Path, Props)>)
    requires forall p :: p in order ==> p in devices
    ensures |e| == |order|
    ensures forall i :: 0 <= i < |e| ==> e[i] == (order[i], devices[order[i]])
  {
    seq(|order|, i requires 0 <= i < |order| => (order[i], devices[order[i]]))
  }

  lemma EntriesCover(devices: map<Path, Props>, order: seq<Path>)
    requires forall p :: p in devices <==> p in order
    ensures forall p :: p in devices ==> exists i :: 0 <= i < |order| && Entries(devices, order)[i].0 == p
    ensures forall e :: e in Entries(devices, order) ==> e.0 in devices && e.1 == devices[e.0]
  {
    forall p | p in devices
      ensures exists i :: 0 <= i < |order| && Entries(devices, order)[i].0 == p
    {
      var i :| 0 <= i < |order| && order[i] == p;
      assert Entries(devices, order)[i].0 == p;
    }
  }

  /**
   One matching peer visited by the outbound worker
   (`thread_connect_discover_and_advertise`), under the role mutex: only an
   unclaimed peer is touched; `connect_to_devices` runs on it alone and the
   role becomes CENTRAL unless that call raised. `answer` is the peer's
   `Connected` read, `refused` says whether `Connect` itself failed.
   */
  function ClaimStep(n: Node, path: Path, answer: Option<Value>, refused: bool): (r: (Node, seq<ConnectAttempt>))
    requires path in n.found
    ensures r.0.found == n.found
    ensures !Unclaimed(n.roles, path) || !HasAddress(n.found, path) ==> r == (n, [])
    ensures Unclaimed(n.roles, path) && HasAddress(n.found, path) ==>
              r.0.roles == n.roles[path := Central] &&
              path in r.0.connected &&
              (path in n.connected ==> r.0.connected == n.connected) &&
              (path !in n.connected ==> r.0.connected == n.connected[path := n.found[path]])
    ensures |r.1| <= 1
    ensures |r.1| > 0 ==> Unclaimed(n.roles, path) && r.0.roles[path] == Central
    ensures |r.1| > 0 <==>
              Unclaimed(n.roles, path) && HasAddress(n.found, path) && answer.Some? && !Truthy(answer.value)
    ensures forall a :: a in r.1 ==> a == ConnectAttempt(path, if refused then ResultException else ResultOk)
  {
    if !Unclaimed(n.roles, path) then (n, [])
    else
      var answers := if answer.Some? then map[path := answer.value] else map[];
      var refuses := if refused then {path} else {};
      var rep := ConnectEntries(n.found, n.connected, [(path, n.found[path])], answers, refuses);
      if !HasAddress(n.found, path) then
        // `connect_to_devices` raises `KeyError` on its only entry, so the role is not set
        assert rep.raised;
        (n, [])
      else
        ConnectSingle(n.found, n.connected, path, n.found[path], answers, refuses);
        assert KnownDisconnected(answers, path) <==> answer.Some? && !Truthy(answer.value);
        (n.(connected := rep.connected, roles := n.roles[path := Central]), rep.attempts)
  }

  /** Body of the inbound handlers' critical section for a `Connected` that became true. */
  function InboundConnected(n: Node, path: Path, props: Props): (r: Node)
    ensures r.found == n.found
    ensures path in n.connected ==> r == n
    ensures path !in n.connected ==> r.connected == n.connected[path := props]
    ensures path !in n.connected && Unclaimed(n.roles, path) ==> r.roles == n.roles[path := Peripheral]
    ensures !Unclaimed(n.roles, path) ==> r.roles == n.roles
    ensures forall p :: p != path ==> Lookup(r.roles, p) == Lookup(n.roles, p)
  {
    if path in n.connected then n
    else
      var roles := if Unclaimed(n.roles, path) then n.roles[path := Peripheral] else n.roles;
      n.(connected := n.connected[path := props], roles := roles)
  }

  /** Body of the inbound handlers' critical section for a `Connected` that became false. */
  function InboundDisconnected(n: Node, path: Path): (r: Node)
    ensures r.found == n.found
    ensures path !in n.connected ==> r == n
    ensures path in n.connected ==> r.connected.Keys == n.connected.Keys - {path} && r.roles == n.roles[path := NoRole]
    ensures forall p :: p in r.connected ==> p in n.connected && r.connected[p] == n.connected[p]
  {
    if path !in n.connected then n
    else n.(connected := n.connected - {path}, roles := n.roles[path := NoRole])
  }

  /** `handle_connection_monitor_interfaces_added`: acts only on a device interface that carries `Connected`. */
  function MonitorInterfacesAdded(n: Node, path: Path, ifaces: Interfaces): (r: Node)
    ensures r.found == n.found
    ensures DeviceInterface !in ifaces || "Connected" !in ifaces[DeviceInterface] ==> r == n
    ensures DeviceInterface in ifaces && "Connected" in ifaces[DeviceInterface] ==>
              (path in r.connected <==> Truthy(ifaces[DeviceInterface]["Connected"]))
    ensures DeviceInterface in ifaces && "Connected" in ifaces[DeviceInterface] &&
            Truthy(ifaces[DeviceInterface]["Connected"]) && path !in n.connected ==>
              r.connected[path] == ifaces[DeviceInterface] &&
              (Unclaimed(n.roles, path) ==> Lookup(r.roles, path) == Some(Peripheral))
    ensures DeviceInterface in ifaces && "Connected" in ifaces[DeviceInterface] &&
            !Truthy(ifaces[DeviceInterface]["Connected"]) && path in n.connected ==>
              Lookup(r.roles, path) == Some(NoRole)
    ensures forall p :: p != path ==> (p in r.connected <==> p in n.connected) && Lookup(r.roles, p) == Lookup(n.roles, p)
  {
    if DeviceInterface in ifaces && "Connected" in ifaces[DeviceInterface] then
      var props := ifaces[DeviceInterface];
      if Truthy(props["Connected"]) then InboundConnected(n, path, props)
      else InboundDisconnected(n, path)
    else n
  }

  /** State of `mutex_role_to_device` when a handler returns. */
  datatype MutexState = Released | Held

  datatype HandlerOutcome = HandlerOutcome(node: Node, mutex: MutexState)

  /**
   `handle_connection_monitor_properties_changed` as written: for a newly
   connected peer it fetches the peer's properties with `GetAll` between
   `acquire` and `release`; `fetched` is `None` when that call raised, and the
   exception leaves the handler with the mutex still held.
   */
  function MonitorPropertiesChangedAsWritten(n: Node, iface: string, changed: Props, path: Path,
                                             fetched: Option<Props>): (r: HandlerOutcome)
    ensures r.node.found == n.found
    ensures r.mutex == Held <==> iface == DeviceInterface && "Connected" in changed &&
                                 Truthy(changed["Connected"]) && path !in n.connected && fetched.None?
    ensures r.mutex == Held ==> r.node == n
  {
    if iface == DeviceInterface && "Connected" in changed then
      if Truthy(changed["Connected"]) then
        if path in n.connected then HandlerOutcome(n, Released)
        else if fetched.None? then HandlerOutcome(n, Held)
        else HandlerOutcome(InboundConnected(n, path, fetched.value), Released)
      else HandlerOutcome(InboundDisconnected(n, path), Released)
    else HandlerOutcome(n, Released)
  }

  /** A peer whose `GetAll` fails right after it connects leaves the role mutex held for good. */
  lemma MutexLeakWitness()
    ensures MonitorPropertiesChangedAsWritten(Node(map[], map[], map[]), DeviceInterface,
              map["Connected" := Flag(true)], "/org/bluez/hci0/dev_00_11_22_33_44_55", None).mutex == Held
  {
  }

  /**
   The same handler with the critical section released on every exit (a
   `try`/`finally` around it): a failed `GetAll` changes nothing; otherwise it
   behaves as written.
   */
  function MonitorPropertiesChanged(n: Node, iface: string, changed: Props, path: Path,
                                    fetched: Option<Props>): (r: HandlerOutcome)
    ensures r.mutex == Released
    ensures r.node.found == n.found
    ensures fetched.None? ==> r.node.connected.Keys <= n.connected.Keys
    ensures fetched.Some? ==> r == MonitorPropertiesChangedAsWritten(n, iface, changed, path, fetched)
    ensures iface != DeviceInterface || "Connected" !in changed ==> r.node == n
    ensures iface == DeviceInterface && "Connected" in changed && !Truthy(changed["Connected"]) ==>
              path !in r.node.connected &&
              (path in n.connected ==> Lookup(r.node.roles, path) == Some(NoRole))
    ensures iface == DeviceInterface && "Connected" in changed && Truthy(changed["Connected"]) ==>
              (path in r.node.connected <==> path in n.connected || fetched.Some?)
    ensures iface == DeviceInterface && "Connected" in changed && Truthy(changed["Connected"]) &&
            path !in n.connected && fetched.Some? ==>
              r.node.connected[path] == fetched.value &&
              (Unclaimed(n.roles, path) ==> Lookup(r.node.roles, path) == Some(Peripheral))
    ensures fetched.None? && path !in n.connected ==> r.node == n
    ensures forall p :: p != path ==> (p in r.node.connected <==> p in n.connected) &&
                                      Lookup(r.node.roles, p) == Lookup(n.roles, p)
  {
    if iface == DeviceInterface && "Connected" in changed then
      if Truthy(changed["Connected"]) then
        if path in n.connected || fetched.None? then HandlerOutcome(n, Released)
        else HandlerOutcome(InboundConnected(n, path, fetched.value), Released)
      else HandlerOutcome(InboundDisconnected(n, path), Released)
    else HandlerOutcome(n, Released)
  }

  /**
   `handle_advertisement_interfaces_added` (peripheral mode): the same
   connected-set bookkeeping without the mutex and without touching roles.
   */
  function AdvertisementInterfacesAdded(connected: ConnectedSet, path: Path, ifaces: Interfaces): (r: ConnectedSet)
    ensures DeviceInterface !in ifaces || "Connected" !in ifaces[DeviceInterface] ==> r == connected
    ensures DeviceInterface in ifaces && "Connected" in ifaces[DeviceInterface] ==>
              (path in r <==> Truthy(ifaces[DeviceInterface]["Connected"]))
    ensures forall p :: p != path ==> (p in r <==> p in connected)
    ensures forall p :: p in r && p in connected ==> r[p] == connected[p]
  {
    if DeviceInterface in ifaces && "Connected" in ifaces[DeviceInterface] then
      var props := ifaces[DeviceInterface];
      if Truthy(props["Connected"]) && path !in connected then connected[path := props]
      else if !Truthy(props["Connected"]) && path in connected then connected - {path}
      else connected
    else connected
  }

  /**
   `handle_advertisement_properties_changed` (peripheral mode): a new peer is
   recorded with what `GetAll` returned; when `GetAll` raises (`fetched` is
   `None`) the exception leaves the set unchanged.
   */
  function AdvertisementPropertiesChanged(connected: ConnectedSet, iface: string, changed: Props, path: Path,
                                          fetched: Option<Props>): (r: ConnectedSet)
    ensures iface != DeviceInterface || "Connected" !in changed ==> r == connected
    ensures iface == DeviceInterface && "Connected" in changed && !Truthy(changed["Connected"]) ==> path !in r
    ensures iface == DeviceInterface && "Connected" in changed && Truthy(changed["Connected"]) && fetched.Some? ==> path in r
    ensures iface == DeviceInterface && "Connected" in changed && Truthy(changed["Connected"]) ==>
              (path in r <==> path in connected || fetched.Some?)
    ensures iface == DeviceInterface && "Connected" in changed && Truthy(changed["Connected"]) &&
            path !in connected && fetched.Some? ==>
              r[path] == fetched.value
    ensures fetched.None? && path !in connected ==> r == connected
    ensures forall p :: p != path ==> (p in r <==> p in connected)
    ensures forall p :: p in r && p in connected ==> r[p] == connected[p]
  {
    if iface == DeviceInterface && "Connected" in changed then
      if Truthy(changed["Connected"]) && path !in connected then
        if fetched.Some? then connected[path := fetched.value] else connected
      else if !Truthy(changed["Connected"]) && path in connected then connected - {path}
      else connected
    else connected
  }

  /**
   `disconnect_from_all_devices` with its log line unable to fail: `Disconnect`
   is called on every connected peer (its status is ignored) and the connected
   set is emptied; roles are not touched. The program as written can stop
   early (`DisconnectAllAsWritten`).
   */
  function DisconnectAll(n: Node): (r: (Node, set<Path>))
    ensures r.0.connected == map[]
    ensures r.1 == n.connected.Keys
    ensures r.0.roles == n.roles && r.0.found == n.found
  {
    (n.(connected := map[]), n.connected.Keys)
  }

  /** What `disconnect_from_all_devices` leaves behind: the node, the peers it disconnected, whether it raised. */
  datatype DisconnectReport = DisconnectReport(node: Node, gone: set<Path>, raised: bool)

  /** The peers of `order` whose log line succeeds before the first one that raises. */
  function Printed(found: Directory, order: seq<Path>): set<Path>
    decreases |order|
  {
    if order == [] || !HasInfoName(found, order[0]) then {} else {order[0]} + Printed(found, order[1..])
  }

  /**
   The loop of `disconnect_from_all_devices` over the connected peers in
   `order`, as written: each peer's log line looks it up in the device
   directory before `Disconnect` and the delete, so the first peer without a
   printable directory entry raises `KeyError` and it and every later peer
   stay connected.
   */
  function DisconnectEach(n: Node, order: seq<Path>): (r: DisconnectReport)
    ensures r.gone == Printed(n.found, order)
    ensures r.node.found == n.found && r.node.roles == n.roles
    ensures r.node.connected.Keys == n.connected.Keys - r.gone
    ensures forall p :: p in r.node.connected ==> r.node.connected[p] == n.connected[p]
    ensures forall p :: p in r.gone ==> p in order && HasInfoName(n.found, p)
    ensures r.raised <==> exists p :: p in order && !HasInfoName(n.found, p)
    ensures !r.raised ==> forall p :: p in order ==> p in r.gone
    decreases |order|
  {
    if order == [] then DisconnectReport(n, {}, false)
    else if !HasInfoName(n.found, order[0]) then DisconnectReport(n, {}, true)
    else
      assert order == [order[0]] + order[1..];
      var rest := DisconnectEach(n.(connected := n.connected - {order[0]}), order[1..]);
      DisconnectReport(rest.node, {order[0]} + rest.gone, rest.raised)
  }

  /**
   `disconnect_from_all_devices` as written, iterating a copy of the connected
   set in `order`: it empties the set only when every connected peer has a
   printable directory entry, and raises otherwise.
   */
  function DisconnectAllAsWritten(n: Node, order: seq<Path>): (r: DisconnectReport)
    requires forall p :: p in n.connected <==> p in order
    ensures r.raised <==> exists p :: p in n.connected && !HasInfoName(n.found, p)
    ensures !r.raised ==> r.node.connected == map[] && r.gone == n.connected.Keys
    ensures r.raised ==> exists p :: p in r.node.connected && !HasInfoName(n.found, p)
    ensures r.node.roles == n.roles && r.node.found == n.found
  {
    var r := DisconnectEach(n, order);
    DisconnectEachCovers(n, order, r);
    r
  }

  /** Over an enumeration of the connected set, the loop empties it or leaves an unprintable peer connected. */
  lemma DisconnectEachCovers(n: Node, order: seq<Path>, r: DisconnectReport)
    requires forall p :: p in n.connected <==> p in order
    requires r == DisconnectEach(n, order)
    ensures !r.raised ==> r.node.connected == map[]
    ensures r.raised ==> exists p :: p in r.node.connected && !HasInfoName(n.found, p)
  {
    if r.raised {
      var p :| p in order && !HasInfoName(n.found, p);
      assert p in r.node.connected;
    } else {
      assert r.node.connected.Keys == {};
    }
  }

  /** A connected peer the directory does not know (one that joined inbound) stops the loop and stays connected. */
  lemma UnknownPeerBlocksDisconnect()
    ensures var peer := "/org/bluez/hci0/dev_00_11_22_33_44_55";
            var r := DisconnectAllAsWritten(Node(map[], map[], map[peer := map[]]), [peer]);
            r.raised && peer in r.node.connected
  {
    var peer := "/org/bluez/hci0/dev_00_11_22_33_44_55";
    assert !HasInfoName(map[], peer);
  }

  /** When every connected peer has a printable entry, the loop as written is `DisconnectAll`. */
  lemma DisconnectAllAgrees(n: Node, order: seq<Path>)
    requires forall p :: p in n.connected <==> p in order
    requires forall p :: p in n.connected ==> HasInfoName(n.found, p)
    ensures var r := DisconnectAllAsWritten(n, order);
            !r.raised && (r.node, r.gone) == DisconnectAll(n)
  {
  }

  /** The events the auto-mode node reacts to while discovering, advertising and monitoring. */
  datatype Event =
    | DeviceAdded(path: Path, ifaces: Interfaces)
    | DeviceRemoved(path: Path, ifaceNames: seq<string>)
    | DevicePropertiesChanged(iface: string, changed: Props, path: Path)
    | Claim(path: Path, answer: Option<Value>, refused: bool)
    | PeerInterfacesAdded(path: Path, ifaces: Interfaces)
    | PeerPropertiesChanged(iface: string, changed: Props, path: Path, fetched: Option<Props>)

  /** The effect of one event; the outbound worker only claims matching peers of the directory. */
  function Step(n: Node, e: Event): (r: Node)
    ensures e.DeviceAdded? || e.DeviceRemoved? || e.DevicePropertiesChanged? ==>
              r.roles == n.roles && r.connected == n.connected
    ensures e.Claim? || e.PeerInterfacesAdded? || e.PeerPropertiesChanged? ==> r.found == n.found
  {
    match e
    case DeviceAdded(path, ifaces) => n.(found := InterfaceAdded(n.found, path, ifaces))
    case DeviceRemoved(path, names) => n.(found := InterfaceRemoved(n.found, path, names))
    case DevicePropertiesChanged(iface, changed, path) => n.(found := PropertiesChanged(n.found, iface, changed, path))
    case Claim(path, answer, refused) =>
      if path in n.found && IsDeviceMatching(n.found[path], DeviceFind) then ClaimStep(n, path, answer, refused).0
      else n
    case PeerInterfacesAdded(path, ifaces) => MonitorInterfacesAdded(n, path, ifaces)
    case PeerPropertiesChanged(iface, changed, path, fetched) =>
      MonitorPropertiesChanged(n, iface, changed, path, fetched).node
  }

  /** The events raised by BlueZ's object manager during discovery. */
  predicate IsDiscoveryEvent(e: Event) {
    e.DeviceAdded? || e.DeviceRemoved? || e.DevicePropertiesChanged?
  }

  /**
   The node after a trace of events applied in order: discovery events alone
   never touch roles or the connected set, and the other events alone never
   touch the directory.
   */
  function Run(n: Node, trace: seq<Event>): (r: Node)
    ensures (forall i :: 0 <= i < |trace| ==> IsDiscoveryEvent(trace[i])) ==>
              r.roles == n.roles && r.connected == n.connected
    ensures (forall i :: 0 <= i < |trace| ==> !IsDiscoveryEvent(trace[i])) ==> r.found == n.found
    decreases |trace|
  {
    if trace == [] then n else Run(Step(n, trace[0]), trace[1..])
  }

  /** A peer is in the connected set exactly when a role other than NONE is held toward it. */
  ghost predicate RolesMatchConnected(n: Node) {
    forall p :: p in n.connected <==> !Unclaimed(n.roles, p)
  }

  /** The agreement survives a change confined to one path that leaves that path in agreement. */
  lemma AgreementAtOnePath(n: Node, r: Node, path: Path)
    requires RolesMatchConnected(n)
    requires forall p :: p != path ==> (p in r.connected <==> p in n.connected)
    requires forall p :: p != path ==> Lookup(r.roles, p) == Lookup(n.roles, p)
    requires path in r.connected <==> !Unclaimed(r.roles, path)
    ensures RolesMatchConnected(r)
  {
    forall p ensures p in r.connected <==> !Unclaimed(r.roles, p) {
      if p != path {
        assert Lookup(r.roles, p) == Lookup(n.roles, p);
      }
    }
  }

  lemma ClaimKeepsAgreement(n: Node, path: Path, answer: Option<Value>, refused: bool)
    requires RolesMatchConnected(n) && path in n.found
    ensures RolesMatchConnected(ClaimStep(n, path, answer, refused).0)
  {
    var r := ClaimStep(n, path, answer, refused).0;
    if Unclaimed(n.roles, path) && HasAddress(n.found, path) {
      AgreementAtOnePath(n, r, path);
    }
  }

  lemma InboundConnectedKeepsAgreement(n: Node, path: Path, props: Props)
    requires RolesMatchConnected(n)
    ensures RolesMatchConnected(InboundConnected(n, path, props))
  {
    if path !in n.connected {
      AgreementAtOnePath(n, InboundConnected(n, path, props), path);
    }
  }

  lemma InboundDisconnectedKeepsAgreement(n: Node, path: Path)
    requires RolesMatchConnected(n)
    ensures RolesMatchConnected(InboundDisconnected(n, path))
  {
    if path in n.connected {
      AgreementAtOnePath(n, InboundDisconnected(n, path), path);
    }
  }

  /** Every event keeps the connected set and the role map in agreement. */
  lemma StepKeepsRolesMatchConnected(n: Node, e: Event)
    requires RolesMatchConnected(n)
    ensures RolesMatchConnected(Step(n, e))
  {
    match e
    case Claim(path, answer, refused) =>
      if path in n.found && IsDeviceMatching(n.found[path], DeviceFind) {
        ClaimKeepsAgreement(n, path, answer, refused);
      }
    case PeerInterfacesAdded(path, ifaces) =>
      if DeviceInterface in ifaces && "Connected" in ifaces[DeviceInterface] {
        InboundConnectedKeepsAgreement(n, path, ifaces[DeviceInterface]);
        InboundDisconnectedKeepsAgreement(n, path);
      }
    case PeerPropertiesChanged(iface, changed, path, fetched) =>
      if fetched.Some? {
        InboundConnectedKeepsAgreement(n, path, fetched.value);
      }
      InboundDisconnectedKeepsAgreement(n, path);
    case _ =>
  }

  /** From a start where no peer is connected and no role is held, the agreement lasts along every trace. */
  lemma {:induction false} RunKeepsRolesMatchConnected(n: Node, trace: seq<Event>)
    requires RolesMatchConnected(n)
    ensures RolesMatchConnected(Run(n, trace))
    decreases |trace|
  {
    if trace != [] {
      StepKeepsRolesMatchConnected(n, trace[0]);
      RunKeepsRolesMatchConnected(Step(n, trace[0]), trace[1..]);
    }
  }

  /** The initial state satisfies the agreement. */
  lemma InitialRolesMatchConnected(found: Directory)
    ensures RolesMatchConnected(Node(found, map[], map[]))
  {
  }

  /** True when `e` is an inbound disconnect of `p` (the only event that can take a role back to NONE). */
  predicate DisconnectsPeer(e: Event, p: Path) {
    match e
    case PeerInterfacesAdded(path, ifaces) =>
      path == p && DeviceInterface in ifaces && "Connected" in ifaces[DeviceInterface] &&
      !Truthy(ifaces[DeviceInterface]["Connected"])
    case PeerPropertiesChanged(iface, changed, path, _) =>
      path == p && iface == DeviceInterface && "Connected" in changed && !Truthy(changed["Connected"])
    case _ => false
  }

  /** A CENTRAL role is never overwritten with PERIPHERAL, and only an inbound disconnect of that peer resets it. */
  lemma CentralIsKept(n: Node, e: Event, p: Path)
    requires p in n.roles && n.roles[p] == Central
    ensures p in Step(n, e).roles
    ensures Step(n, e).roles[p] == Central || (DisconnectsPeer(e, p) && Step(n, e).roles[p] == NoRole)
  {
    match e
    case Claim(path, answer, refused) =>
    case PeerInterfacesAdded(path, ifaces) =>
      if path == p {
        if DeviceInterface in ifaces && "Connected" in ifaces[DeviceInterface] {
          var props := ifaces[DeviceInterface];
          if Truthy(props["Connected"]) {
            assert Step(n, e) == InboundConnected(n, path, props);
          }
        }
      } else {
        assert Lookup(Step(n, e).roles, p) == Lookup(n.roles, p);
      }
    case PeerPropertiesChanged(iface, changed, path, fetched) =>
      if path != p {
        assert Lookup(Step(n, e).roles, p) == Lookup(n.roles, p);
      }
    case _ =>
  }

  /** A CENTRAL role survives every trace that does not disconnect the peer. */
  lemma {:induction false} CentralKeptAlongTrace(n: Node, trace: seq<Event>, p: Path)
    requires p in n.roles && n.roles[p] == Central
    requires forall i :: 0 <= i < |trace| ==> !DisconnectsPeer(trace[i], p)
    ensures p in Run(n, trace).roles && Run(n, trace).roles[p] == Central
    decreases |trace|
  {
    if trace != [] {
      CentralIsKept(n, trace[0], p);
      assert !DisconnectsPeer(trace[0], p);
      assert forall i :: 0 <= i < |trace[1..]| ==> trace[1..][i] == trace[i + 1];
      CentralKeptAlongTrace(Step(n, trace[0]), trace[1..], p);
    }
  }

  /** Of two claims on one peer, once the first took it the second issues no `Connect` and changes nothing. */
  lemma SecondClaimIsNoOp(n: Node, path: Path, a1: Option<Value>, f1: bool, a2: Option<Value>, f2: bool)
    requires path in n.found
    requires HasAddress(n.found, path)
    ensures var first := ClaimStep(n, path, a1, f1).0;
            ClaimStep(first, path, a2, f2) == (first, [])
  {
    var first := ClaimStep(n, path, a1, f1).0;
    assert !Unclaimed(first.roles, path);
  }

  /** The claim does not depend on whether `Connect` succeeded: a failed connect keeps the CENTRAL role. */
  lemma ClaimIgnoresConnectFailure(n: Node, path: Path, answer: Option<Value>)
    requires path in n.found
    ensures ClaimStep(n, path, answer, true).0 == ClaimStep(n, path, answer, false).0
  {
  }

  /**
   A peer that connected inbound before the outbound worker reached it becomes
   PERIPHERAL, joins the connected set, and is then skipped by the worker: no
   `Connect` is issued and nothing changes.
   */
  lemma InboundBeforeProbe(n: Node, path: Path, props: Props, answer: Option<Value>, refused: bool)
    requires path !in n.connected && Unclaimed(n.roles, path)
    ensures var m := MonitorInterfacesAdded(n, path, map[DeviceInterface := props["Connected" := Flag(true)]]);
            path in m.connected && m.roles[path] == Peripheral &&
            (path in m.found ==> ClaimStep(m, path, answer, refused) == (m, []))
  {
    var m := MonitorInterfacesAdded(n, path, map[DeviceInterface := props["Connected" := Flag(true)]]);
    assert m == InboundConnected(n, path, props["Connected" := Flag(true)]);
  }

  /** A peer the outbound worker would claim: a known, matching, unclaimed peer with an address. */
  predicate Claimable(n: Node, p: Path) {
    p in n.found && IsDeviceMatching(n.found[p], DeviceFind) && Unclaimed(n.roles, p) && HasAddress(n.found, p)
  }

  /**
   What the outbound worker's round has achieved after visiting `visited`,
   relative to the state `n` it started from.
   */
  ghost predicate RoundSoFar(n: Node, cur: Node, visited: seq<Path>, attempts: seq<ConnectAttempt>) {
    && cur.found == n.found
    && (forall p :: p in visited && Claimable(n, p) ==> p in cur.roles && cur.roles[p] == Central && p in cur.connected)
    && (forall p :: !(p in visited && Claimable(n, p)) ==> Lookup(cur.roles, p) == Lookup(n.roles, p))
    && (forall p :: p in n.connected ==> p in cur.connected && cur.connected[p] == n.connected[p])
    && (forall p :: p in cur.connected && p !in n.connected ==> p in n.found && cur.connected[p] == n.found[p])
    && (forall p :: p in cur.connected && p !in n.connected ==> p in visited && Claimable(n, p))
    && (forall a :: a in attempts ==> Claimable(n, a.path) && a.path in cur.roles && cur.roles[a.path] == Central)
  }

  /**
   One wake-up of the outbound worker: every matching peer of the directory
   is visited in `order` and claimed as in `ClaimStep`; afterwards the goal
   test compares the connected set's size with `goal`.
   */
  method ProbeRound(n: Node, order: seq<Path>, answers: map<Path, Value>, refuses: set<Path>, goal: nat)
    returns (n': Node, attempts: seq<ConnectAttempt>, goalReached: bool)
    requires forall p :: p in n.found <==> p in order
    ensures n'.found == n.found
    ensures forall p :: Claimable(n, p) ==> p in n'.roles && n'.roles[p] == Central && p in n'.connected
    ensures forall p :: !Claimable(n, p) ==> Lookup(n'.roles, p) == Lookup(n.roles, p)
    ensures forall p :: p in n.connected ==> p in n'.connected && n'.connected[p] == n.connected[p]
    ensures forall p :: p in n'.connected && p !in n.connected ==> p in n.found && n'.connected[p] == n.found[p]
    ensures forall p :: p in n'.connected && p !in n.connected ==> Claimable(n, p)
    ensures forall a :: a in attempts ==> Claimable(n, a.path) && n'.roles[a.path] == Central
    ensures goalReached <==> |n'.connected| >= goal
  {
    n' := n;
    attempts := [];
    var i := 0;
    while i < |order|
      invariant 0 <= i <= |order|
      invariant RoundSoFar(n, n', order[..i], attempts)
    {
      var path := order[i];
      var step := VisitPeer(n', path, Lookup(answers, path), path in refuses);
      ProbeVisit(n, n', order[..i], attempts, path, step.0, step.1, Lookup(answers, path), path in refuses);
      PrefixGrows(order, i);
      n' := step.0;
      attempts := attempts + step.1;
      i := i + 1;
    }
    assert order[..i] == order;
    RoundComplete(n, n', order, attempts);
    goalReached := |n'.connected| >= goal;
  }

  lemma PrefixGrows(order: seq<Path>, i: nat)
    requires i < |order|
    ensures order[..i + 1] == order[..i] + [order[i]]
  {
  }

  /** Once every directory path has been visited, the round has claimed every claimable peer. */
  lemma RoundComplete(n: Node, cur: Node, visited: seq<Path>, attempts: seq<ConnectAttempt>)
    requires RoundSoFar(n, cur, visited, attempts)
    requires forall p :: p in n.found ==> p in visited
    ensures cur.found == n.found
    ensures forall p :: Claimable(n, p) ==> p in cur.roles && cur.roles[p] == Central && p in cur.connected
    ensures forall p :: !Claimable(n, p) ==> Lookup(cur.roles, p) == Lookup(n.roles, p)
    ensures forall p :: p in n.connected ==> p in cur.connected && cur.connected[p] == n.connected[p]
    ensures forall p :: p in cur.connected && p !in n.connected ==> p in n.found && cur.connected[p] == n.found[p]
    ensures forall p :: p in cur.connected && p !in n.connected ==> Claimable(n, p)
    ensures forall a :: a in attempts ==> Claimable(n, a.path) && cur.roles[a.path] == Central
  {
  }

  /** The outbound worker's visit of one path: only a known peer with a matching name is claimed. */
  function VisitPeer(cur: Node, path: Path, answer: Option<Value>, refused: bool): (Node, seq<ConnectAttempt>) {
    if path in cur.found && IsDeviceMatching(cur.found[path], DeviceFind) then ClaimStep(cur, path, answer, refused)
    else (cur, [])
  }

  /** One visit of the outbound worker extends what its round has achieved by the visited peer. */
  lemma ProbeVisit(n: Node, cur: Node, visited: seq<Path>, attempts: seq<ConnectAttempt>, path: Path,
                   next: Node, issued: seq<ConnectAttempt>, answer: Option<Value>, refused: bool)
    requires RoundSoFar(n, cur, visited, attempts)
    requires (next, issued) == VisitPeer(cur, path, answer, refused)
    ensures RoundSoFar(n, next, visited + [path], attempts + issued)
  {
    if !(path in n.found && IsDeviceMatching(n.found[path], DeviceFind)) {
      assert (next, issued) == (cur, []);
      assert attempts + issued == attempts;
      assert !Claimable(n, path);
    } else if !Unclaimed(cur.roles, path) || !HasAddress(cur.found, path) {
      assert (next, issued) == (cur, []);
      assert attempts + issued == attempts;
      ProbeVisitSkips(n, cur, visited, attempts, path);
    } else {
      ProbeVisitClaims(n, cur, visited, attempts, path, next, issued, answer, refused);
    }
  }

  lemma ProbeVisitSkips(n: Node, cur: Node, visited: seq<Path>, attempts: seq<ConnectAttempt>, path: Path)
    requires RoundSoFar(n, cur, visited, attempts)
    requires path in n.found
    requires !Unclaimed(cur.roles, path) || !HasAddress(cur.found, path)
    ensures RoundSoFar(n, cur, visited + [path], attempts)
  {
  }

  lemma ProbeVisitClaims(n: Node, cur: Node, visited: seq<Path>, attempts: seq<ConnectAttempt>, path: Path,
                         next: Node, issued: seq<ConnectAttempt>, answer: Option<Value>, refused: bool)
    requires RoundSoFar(n, cur, visited, attempts)
    requires path in n.found && IsDeviceMatching(n.found[path], DeviceFind)
    requires Unclaimed(cur.roles, path) && HasAddress(cur.found, path)
    requires (next, issued) == ClaimStep(cur, path, answer, refused)
    ensures RoundSoFar(n, next, visited + [path], attempts + issued)
  {
    assert Lookup(cur.roles, path) == Lookup(n.roles, path);
    assert Claimable(n, path);
    ClaimRolesGrow(n, cur, visited, attempts, path, next, issued);
    ClaimConnectedGrows(n, cur, visited, attempts, path, next);
  }

  /** The claimed peer's CENTRAL role and its `Connect` calls extend the round's roles and attempts. */
  lemma ClaimRolesGrow(n: Node, cur: Node, visited: seq<Path>, attempts: seq<ConnectAttempt>, path: Path,
                       next: Node, issued: seq<ConnectAttempt>)
    requires RoundSoFar(n, cur, visited, attempts)
    requires Claimable(n, path) && path in next.connected
    requires next.roles == cur.roles[path := Central]
    requires forall a :: a in issued ==> a.path == path
    ensures forall p :: p in visited + [path] && Claimable(n, p) ==> p in next.roles && next.roles[p] == Central
    ensures forall p :: !(p in visited + [path] && Claimable(n, p)) ==> Lookup(next.roles, p) == Lookup(n.roles, p)
    ensures forall a :: a in attempts + issued ==> Claimable(n, a.path) && a.path in next.roles && next.roles[a.path] == Central
  {
    forall p | p in visited + [path] && Claimable(n, p)
      ensures p in next.roles && next.roles[p] == Central
    {
      if p != path {
        assert p in visited;
      }
    }
    forall p | !(p in visited + [path] && Claimable(n, p))
      ensures Lookup(next.roles, p) == Lookup(n.roles, p)
    {
      assert p != path;
      assert Lookup(next.roles, p) == Lookup(cur.roles, p);
    }
    forall a | a in attempts + issued
      ensures Claimable(n, a.path) && a.path in next.roles && next.roles[a.path] == Central
    {
      if a in issued {
        assert a.path == path;
      }
    }
  }

  /** The claimed peer joins the connected set with its directory entry; nothing else changes there. */
  lemma ClaimConnectedGrows(n: Node, cur: Node, visited: seq<Path>, attempts: seq<ConnectAttempt>, path: Path,
                            next: Node)
    requires RoundSoFar(n, cur, visited, attempts)
    requires Claimable(n, path) && next.found == cur.found
    requires path in cur.connected ==> next.connected == cur.connected
    requires path !in cur.connected ==> next.connected == cur.connected[path := cur.found[path]]
    ensures forall p :: p in n.connected ==> p in next.connected && next.connected[p] == n.connected[p]
    ensures forall p :: p in next.connected && p !in n.connected ==> p in n.found && next.connected[p] == n.found[p]
    ensures forall p :: p in next.connected && p !in n.connected ==> p in visited + [path] && Claimable(n, p)
  {
    forall p | p in next.connected && p !in n.connected
      ensures p in visited + [path] && Claimable(n, p)
    {
      if p != path {
        assert p in cur.connected;
      }
    }
  }
}
