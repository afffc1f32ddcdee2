/** The Kubernetes operator's NodePort service resource
  * (node_port_service.go): the service built for a cluster or one of its
  * brokers, its names, the copy of the node ports Kubernetes already
  * assigned, and the reconciliation step `Ensure`. */
module NodePortService {
  import opened Common

  // ---------------------------------------------------------------------------
  // Go's int32.

  newtype int32 = x: int | -0x8000_0000 <= x < 0x8000_0000

  /** Go's conversion `int32(x)`: the value congruent to `x` modulo 2^32
    * in the int32 range, which is `x` itself when it fits. */
  function Wrap32(x: int): (r: int32)
    ensures (x - r as int) % 0x1_0000_0000 == 0
    ensures -0x8000_0000 <= x < 0x8000_0000 ==> r as int == x
  {
    ((x + 0x8000_0000) % 0x1_0000_0000 - 0x8000_0000) as int32
  }

  /** Two int32 values that wrap to the same value are equal. */
  lemma Wrap32Injective(a: int32, b: int32)
    requires Wrap32(a as int - 1) == Wrap32(b as int - 1)
    ensures a == b
  {
    var ra, rb := Wrap32(a as int - 1), Wrap32(b as int - 1);
    assert ((a as int - 1) - ra as int) % 0x1_0000_0000 == 0;
    assert ((b as int - 1) - rb as int) % 0x1_0000_0000 == 0;
    assert ((a as int) - (b as int)) % 0x1_0000_0000 == 0;
  }

  // ---------------------------------------------------------------------------
  // Data model.

  datatype Protocol = TCP | UDP

  /** corev1.ServicePort, with the fields this resource sets; a zero node
    * port means "let Kubernetes choose". The target port is the integer
    * given to intstr.FromInt. */
  datatype ServicePort = ServicePort(name: string, protocol: Protocol, port: int32,
                                     targetPort: int, nodePort: int32)

  /** The operator's NamedServicePort: Go ints. */
  datatype NamedServicePort = NamedServicePort(name: string, port: int, nodePort: int)

  datatype NamespacedName = NamespacedName(namespace: string, name: string)

  /** The redpanda Cluster custom resource, as far as this resource reads it. */
  datatype Cluster = Cluster(namespace: string, name: string, hasExternalListener: bool)

  /** corev1.Service as this resource builds it: always of type NodePort,
    * with the Local external traffic policy. */
  datatype Service = Service(meta: NamespacedName, labels: map<string, string>,
                             serviceType: string, externalTrafficPolicy: string,
                             ports: seq<ServicePort>, selector: map<string, string>)

  const PodNameLabel := "statefulset.kubernetes.io/pod-name"

  // ---------------------------------------------------------------------------
  // Key and brokerKey.

  /** Key: the cluster's shared service is `<cluster>-external`. */
  function Key(c: Cluster): (k: NamespacedName)
    ensures k.namespace == c.namespace
    ensures k.name == c.name + "-external"
  {
    NamespacedName(c.namespace, c.name + "-external")
  }

  /** brokerKey: the per-broker service is `<cluster>-<broker-1>`, with the
    * subtraction done in int32. */
  function BrokerKey(c: Cluster, broker: int32): (k: NamespacedName)
    ensures k.namespace == c.namespace
    ensures k.name == c.name + "-" + IntToString(Wrap32(broker as int - 1) as int)
  {
    NamespacedName(c.namespace, c.name + "-" + IntToString(Wrap32(broker as int - 1) as int))
  }

  /** Distinct decimal spellings for distinct integers. */
  lemma IntToStringInjective(a: int, b: int)
    requires IntToString(a) == IntToString(b)
    ensures a == b
  {
    IntToStringSign(a);
    IntToStringSign(b);
    if a < 0 {
      NegativeDigits(a);
      NegativeDigits(b);
      NatToStringInjective(-a, -b);
    } else {
      NatToStringInjective(a, b);
    }
  }

  /** After the sign, a negative integer is spelled as its magnitude. */
  lemma NegativeDigits(x: int)
    requires x < 0
    ensures IntToString(x)[1..] == NatToString(-x)
  {
  }

  /** A decimal spelling starts with '-' exactly for negative integers. */
  lemma IntToStringSign(i: int)
    ensures |IntToString(i)| >= 1
    ensures IntToString(i)[0] == '-' <==> i < 0
    ensures IntToString(i)[0] == '-' || IsDigit(IntToString(i)[0])
  {
    NatToStringDigits(if i < 0 then -i else i);
  }

  /** Different brokers of one cluster get different services, and none of
    * them is the cluster's shared service. */
  lemma BrokerKeysDistinct(c: Cluster, b1: int32, b2: int32)
    ensures BrokerKey(c, b1) == BrokerKey(c, b2) <==> b1 == b2
    ensures BrokerKey(c, b1) != Key(c)
  {
    var n := |c.name| + 1;
    var s1 := IntToString(Wrap32(b1 as int - 1) as int);
    var s2 := IntToString(Wrap32(b2 as int - 1) as int);
    if BrokerKey(c, b1) == BrokerKey(c, b2) {
      assert (c.name + "-" + s1)[n..] == s1;
      assert (c.name + "-" + s2)[n..] == s2;
      IntToStringInjective(Wrap32(b1 as int - 1) as int, Wrap32(b2 as int - 1) as int);
      Wrap32Injective(b1, b2);
    }
    IntToStringSign(Wrap32(b1 as int - 1) as int);
    assert (c.name + "-" + s1)[n] == s1[0];
    assert (c.name + "-external")[n] == 'e';
  }

  // ---------------------------------------------------------------------------
  // obj.

  /** The service port for one NamedServicePort. */
  function PortOf(p: NamedServicePort): (sp: ServicePort)
    ensures sp.name == p.name && sp.protocol == TCP
    ensures sp.targetPort == p.port
    ensures -0x8000_0000 <= p.port < 0x8000_0000 ==> sp.port as int == p.port
    ensures sp.nodePort != 0 ==> p.nodePort > 0
    ensures 0 < p.nodePort < 0x8000_0000 ==> sp.nodePort as int == p.nodePort
  {
    ServicePort(p.name, TCP, Wrap32(p.port), p.port,
                if p.nodePort > 0 then Wrap32(p.nodePort) else 0)
  }

  /** The loop of `obj`: one TCP port per NamedServicePort, in order. */
  method ObjPorts(svcPorts: seq<NamedServicePort>) returns (ports: seq<ServicePort>)
    ensures |ports| == |svcPorts|
    ensures forall i :: 0 <= i < |svcPorts| ==> ports[i] == PortOf(svcPorts[i])
  {
    ports := [];
    for i := 0 to |svcPorts|
      invariant |ports| == i
      invariant forall k :: 0 <= k < i ==> ports[k] == PortOf(svcPorts[k])
    {
      var svcPort := svcPorts[i];
      var port := ServicePort(svcPort.name, TCP, Wrap32(svcPort.port), svcPort.port, 0);
      if svcPort.nodePort > 0 {
        port := port.(nodePort := Wrap32(svcPort.nodePort));
      }
      ports := ports + [port];
    }
  }

  /** The name of the service: the broker's when a broker is given (a
    * non-negative broker), the cluster's shared one otherwise. */
  function ServiceName(c: Cluster, broker: int32): (k: NamespacedName)
    ensures broker >= 0 ==> k == BrokerKey(c, broker)
    ensures broker < 0 ==> k == Key(c)
  {
    if broker >= 0 then BrokerKey(c, broker) else Key(c)
  }

  /** The selector of the service: the cluster's selector, narrowed to the
    * broker's pod when a broker is given. */
  function SelectorOf(c: Cluster, broker: int32, clusterSelector: map<string, string>): (s: map<string, string>)
    ensures broker >= 0 ==> s.Keys == clusterSelector.Keys + {PodNameLabel}
    ensures broker >= 0 ==> s[PodNameLabel] == BrokerKey(c, broker).name
    ensures broker < 0 ==> s == clusterSelector
    ensures forall l :: l in clusterSelector && l != PodNameLabel ==> l in s && s[l] == clusterSelector[l]
  {
    if broker >= 0 then clusterSelector[PodNameLabel := BrokerKey(c, broker).name] else clusterSelector
  }

  /** obj: the service this resource wants. The cluster's labels and its
    * selector come from the labels package and are parameters here, and so
    * is the outcome of setting the controller reference. */
  method Obj(c: Cluster, broker: int32, svcPorts: seq<NamedServicePort>,
             clusterLabels: map<string, string>, clusterSelector: map<string, string>,
             ownerRefErr: Option<string>)
    returns (r: Result<Service, string>)
    ensures r.Err? <==> ownerRefErr.Some?
    ensures r.Err? ==> r.error == ownerRefErr.value
    ensures r.Ok? ==> r.value.meta == ServiceName(c, broker)
    ensures r.Ok? ==> r.value.labels == clusterLabels
    ensures r.Ok? ==> r.value.serviceType == "NodePort" && r.value.externalTrafficPolicy == "Local"
    ensures r.Ok? ==> r.value.selector == SelectorOf(c, broker, clusterSelector)
    ensures r.Ok? ==> (|r.value.ports| == |svcPorts| &&
      forall i :: 0 <= i < |svcPorts| ==> r.value.ports[i] == PortOf(svcPorts[i]))
  {
    var ports := ObjPorts(svcPorts);
    var selectorLabels := clusterSelector;
    var name := Key(c);
    if broker >= 0 {
      name := BrokerKey(c, broker);
      selectorLabels := selectorLabels[PodNameLabel := name.name];
    }
    var svc := Service(name, clusterLabels, "NodePort", "Local", ports, selectorLabels);
    if ownerRefErr.Some? {
      return Err(ownerRefErr.value);
    }
    r := Ok(svc);
  }

  // ---------------------------------------------------------------------------
  // copyPorts.

  /** The first index of a port numbered `p`, if any. */
  function FirstWithPort(ports: seq<ServicePort>, p: int32): (r: Option<nat>)
    ensures r.Some? ==> (r.value < |ports| && ports[r.value].port == p &&
      forall k :: 0 <= k < r.value ==> ports[k].port != p)
    ensures r.None? ==> forall k :: 0 <= k < |ports| ==> ports[k].port != p
  {
    if ports == [] then None
    else if ports[0].port == p then Some(0)
    else
      match FirstWithPort(ports[1..], p)
      case None => None
      case Some(j) => Some(j + 1)
  }

  /** One pass of the outer loop: the current port's node port goes to the
    * first new port with the same number. */
  function CopyOne(ports: seq<ServicePort>, current: ServicePort): seq<ServicePort>
  {
    match FirstWithPort(ports, current.port)
    case None => ports
    case Some(j) => ports[j := ports[j].(nodePort := current.nodePort)]
  }

  /** The new ports after copying from each current port in order. */
  function Copied(ports: seq<ServicePort>, current: seq<ServicePort>): seq<ServicePort>
  {
    if current == [] then ports
    else
      var n := |current| - 1;
      CopyOne(Copied(ports, current[..n]), current[n])
  }

  /** copyPorts, on the new service's ports. */
  method CopyPorts(newPorts: array<ServicePort>, current: seq<ServicePort>)
    modifies newPorts
    ensures newPorts[..] == Copied(old(newPorts[..]), current)
  {
    for i := 0 to |current|
      invariant newPorts[..] == Copied(old(newPorts[..]), current[..i])
    {
      assert current[..i + 1][..i] == current[..i];
      ghost var before := newPorts[..];
      var j := 0;
      while j < newPorts.Length
        invariant 0 <= j <= newPorts.Length
        invariant newPorts[..] == before
        invariant forall k :: 0 <= k < j ==> before[k].port != current[i].port
      {
        if newPorts[j].port == current[i].port {
          newPorts[j] := newPorts[j].(nodePort := current[i].nodePort);
          assert FirstWithPort(before, current[i].port) == Some(j);
          break;
        }
        j := j + 1;
      }
      assert newPorts[..] == CopyOne(before, current[i]);
    }
    assert current[..|current|] == current;
  }

  /** Copying changes node ports only: numbers, names, protocols and
    * target ports stay as they were. */
  lemma {:induction false} CopiedKeepsOtherFields(ports: seq<ServicePort>, current: seq<ServicePort>)
    ensures |Copied(ports, current)| == |ports|
    ensures forall j :: 0 <= j < |ports| ==>
      Copied(ports, current)[j] == ports[j].(nodePort := Copied(ports, current)[j].nodePort)
  {
    if current != [] {
      CopiedKeepsOtherFields(ports, current[..|current| - 1]);
    }
  }

  /** The last index of a current port numbered `p`, if any. */
  function LastWithPort(current: seq<ServicePort>, p: int32): (r: Option<nat>)
    ensures r.Some? ==> (r.value < |current| && current[r.value].port == p &&
      forall k :: r.value < k < |current| ==> current[k].port != p)
    ensures r.None? ==> forall k :: 0 <= k < |current| ==> current[k].port != p
  {
    if current == [] then None
    else if current[|current| - 1].port == p then Some(|current| - 1)
    else LastWithPort(current[..|current| - 1], p)
  }

  /** The node port of a new port after copying: when it is the first new
    * port with its number and some current port has that number, it takes
    * the node port of the last such current port; any other new port
    * keeps its node port. */
  lemma {:induction false} CopiedMeaning(ports: seq<ServicePort>, current: seq<ServicePort>, j: nat)
    requires j < |ports|
    ensures |Copied(ports, current)| == |ports|
    ensures Copied(ports, current)[j] ==
      var p := ports[j].port;
      if FirstWithPort(ports, p) == Some(j) && LastWithPort(current, p).Some?
      then ports[j].(nodePort := current[LastWithPort(current, p).value].nodePort)
      else ports[j]
  {
    CopiedKeepsOtherFields(ports, current);
    if current != [] {
      var n := |current| - 1;
      var front := current[..n];
      CopiedMeaning(ports, front, j);
      CopiedKeepsOtherFields(ports, front);
      var before := Copied(ports, front);
      // Copying keeps the port numbers, so the first new port with a number
      // is the same before and after each pass.
      assert forall k :: 0 <= k < |ports| ==> before[k].port == ports[k].port;
      SamePortsSameFirst(before, ports, current[n].port);
    }
  }

  /** Sequences with the same port numbers have the same first index for
    * every number. */
  lemma {:induction false} SamePortsSameFirst(a: seq<ServicePort>, b: seq<ServicePort>, p: int32)
    requires |a| == |b| && forall k :: 0 <= k < |a| ==> a[k].port == b[k].port
    ensures FirstWithPort(a, p) == FirstWithPort(b, p)
  {
    if a != [] {
      SamePortsSameFirst(a[1..], b[1..], p);
    }
  }

  // ---------------------------------------------------------------------------
  // Ensure.

  /** What the calls to the Kubernetes API return, in the order Ensure
    * makes them. */
  datatype Calls = Calls(ownerRefErr: Option<string>, createErr: Option<string>, created: bool,
                         fetched: Result<Service, string>, updateErr: Option<string>)

  /** What Ensure did: its error, whether it tried to create the service,
    * the name it fetched and the (current, desired) pair it updated. */
  datatype EnsureRun = EnsureRun(err: Option<string>, createCalled: bool,
                                 fetchedName: Option<NamespacedName>,
                                 updated: Option<(Service, Service)>)

  /** Ensure: create the service, or update the existing one with the node
    * ports Kubernetes already assigned. */
  method Ensure(c: Cluster, broker: int32, svcPorts: seq<NamedServicePort>,
                clusterLabels: map<string, string>, clusterSelector: map<string, string>,
                calls: Calls)
    returns (run: EnsureRun)
    ensures !c.hasExternalListener ==> run == EnsureRun(None, false, None, None)
    ensures run.createCalled <==> c.hasExternalListener && calls.ownerRefErr.None?
    ensures c.hasExternalListener && calls.ownerRefErr.Some? ==>
      run.err == Some("unable to construct object: " + calls.ownerRefErr.value)
    ensures run.createCalled && (calls.createErr.Some? || calls.created) ==>
      run.err == calls.createErr && run.fetchedName.None?
    ensures run.fetchedName.Some? <==>
      run.createCalled && calls.createErr.None? && !calls.created
    ensures run.fetchedName.Some? ==> run.fetchedName.value == ServiceName(c, broker)
    ensures run.fetchedName.Some? && calls.fetched.Err? ==>
      run.err == Some("error while fetching Service resource: " + calls.fetched.error) &&
      run.updated.None?
    ensures run.updated.Some? <==> run.fetchedName.Some? && calls.fetched.Ok?
    ensures run.updated.Some? ==>
      var (cur, want) := run.updated.value;
      cur == calls.fetched.value &&
      want.meta == ServiceName(c, broker) &&
      want.selector == SelectorOf(c, broker, clusterSelector) &&
      |want.ports| == |svcPorts| &&
      want.ports == Copied(seq(|svcPorts|, i requires 0 <= i < |svcPorts| => PortOf(svcPorts[i])), cur.ports) &&
      run.err == calls.updateErr
  {
    if !c.hasExternalListener {
      return EnsureRun(None, false, None, None);
    }
    var obj := Obj(c, broker, svcPorts, clusterLabels, clusterSelector, calls.ownerRefErr);
    if obj.Err? {
      return EnsureRun(Some("unable to construct object: " + obj.error), false, None, None);
    }
    if calls.createErr.Some? || calls.created {
      return EnsureRun(calls.createErr, true, None, None);
    }
    var name := Key(c);
    if broker >= 0 {
      name := BrokerKey(c, broker);
    }
    if calls.fetched.Err? {
      return EnsureRun(Some("error while fetching Service resource: " + calls.fetched.error),
                       true, Some(name), None);
    }
    var svc := calls.fetched.value;
    var newPorts := new ServicePort[|obj.value.ports|](i requires 0 <= i < |obj.value.ports| => obj.value.ports[i]);
    assert newPorts[..] == obj.value.ports;
    CopyPorts(newPorts, svc.ports);
    CopiedKeepsOtherFields(obj.value.ports, svc.ports);
    assert obj.value.ports == seq(|svcPorts|, i requires 0 <= i < |svcPorts| => PortOf(svcPorts[i]));
    var want := obj.value.(ports := newPorts[..]);
    run := EnsureRun(calls.updateErr, true, Some(name), Some((svc, want)));
  }
}
