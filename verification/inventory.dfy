/** Inventory assembly of kubespray/generate_inventory.py: reading the four
    address lists out of the Terraform outputs (lines 32-38), and building the
    nested Ansible inventory (lines 57-121) that is then written as YAML. */
module InventoryBuilder {
  import opened Wrappers
  import opened Numerals
  import opened IPv4
  import opened Routing

  /** The SSH login every host entry carries (`ssh_user`, line 12). */
  const SshUser: string := "ubuntu"
  /** The API server port (`api_server_target_port`, line 13). */
  const ApiServerTargetPort: nat := 6443

  /** The names of the four Terraform outputs, in the order the script reads them. */
  const OutputNames: seq<string> :=
    ["private_master_ips", "external_master_ips", "private_worker_ips", "external_worker_ips"]

  /** The parsed `terraform output -json`: each output name maps to an object
      whose "value" key holds a list of address strings. */
  type TerraformOutput = map<string, map<string, seq<string>>>

  /** Why a run stops before the inventory is written. */
  datatype Error =
    | MissingKey(key: string)         // `KeyError`, lines 32-35
    | EmptyList(output: string)       // `IndexError` on `[0]`, lines 37-38
    | InvalidAddress(text: string)    // `ValueError` from `get_subnet`, line 47

  /** The four lists, in the script's names. */
  datatype Outputs = Outputs(
    masterPrivate: seq<string>,
    masterPublic: seq<string>,
    workerPrivate: seq<string>,
    workerPublic: seq<string>)

  predicate HasOutput(tf: TerraformOutput, name: string) {
    name in tf && "value" in tf[name]
  }

  /** Output `OutputNames[k]` is the first one that cannot be read. */
  predicate FirstMissing(tf: TerraformOutput, k: int) {
    0 <= k < |OutputNames| && !HasOutput(tf, OutputNames[k])
    && forall j :: 0 <= j < k ==> HasOutput(tf, OutputNames[j])
  }

  /** `tf_output[name]["value"]`: a `KeyError` names the key that was absent. */
  function OutputValue(tf: TerraformOutput, name: string): (r: Result<seq<string>, Error>)
    ensures r.Ok? <==> HasOutput(tf, name)
    ensures r.Ok? ==> r.value == tf[name]["value"]
    ensures r.Err? ==> r.error == MissingKey(if name in tf then "value" else name)
  {
    if name !in tf then Err(MissingKey(name))
    else if "value" !in tf[name] then Err(MissingKey("value"))
    else Ok(tf[name]["value"])
  }

  /** Lines 32-35: the four lists, or the `KeyError` of the first output that
      cannot be read. */
  function ReadOutputs(tf: TerraformOutput): (r: Result<Outputs, Error>)
    ensures r.Ok? <==> forall k :: 0 <= k < |OutputNames| ==> HasOutput(tf, OutputNames[k])
    ensures r.Ok? ==> r.value == Outputs(
      tf[OutputNames[0]]["value"], tf[OutputNames[1]]["value"],
      tf[OutputNames[2]]["value"], tf[OutputNames[3]]["value"])
    ensures r.Err? ==> exists k :: (FirstMissing(tf, k)
      && r.error == MissingKey(if OutputNames[k] in tf then "value" else OutputNames[k]))
  {
    var masterPrivate :- OutputValue(tf, OutputNames[0]);
    var masterPublic :- OutputValue(tf, OutputNames[1]);
    var workerPrivate :- OutputValue(tf, OutputNames[2]);
    var workerPublic :- OutputValue(tf, OutputNames[3]);
    Ok(Outputs(masterPrivate, masterPublic, workerPrivate, workerPublic))
  }

  /** `all_ips` (line 46): the master private addresses, then the worker ones. */
  function AllPrivate(out: Outputs): seq<string> {
    out.masterPrivate + out.workerPrivate
  }

  /** What the script knows once nothing can fail any more: the outputs, the
      subnet of each address of `all_ips` in order, and `all_subnets`. The
      subnets of the master and of each worker (lines 48 and 106) are taken
      from `addressSubnets`: `get_subnet` gives the same value every time. */
  datatype Plan = Plan(outputs: Outputs, addressSubnets: seq<Network>, subnets: seq<Network>)

  /** Both master lists have an entry 0, and there is a subnet per private address. */
  predicate Indexable(p: Plan) {
    && p.outputs.masterPrivate != [] && p.outputs.masterPublic != []
    && |p.addressSubnets| == |AllPrivate(p.outputs)|
  }

  /** A plan the script can go on with: it is `Indexable`, and `subnets` is
      sorted and holds exactly the subnets of the private addresses. */
  predicate WellFormed(p: Plan) {
    && Indexable(p)
    && Sorted(p.subnets)
    && (forall i :: 0 <= i < |p.addressSubnets| ==> p.addressSubnets[i] in p.subnets)
    && (forall m :: m in p.subnets ==> m in p.addressSubnets)
  }

  /** Each entry of `addressSubnets` is `get_subnet` of the address at that position. */
  predicate Derived(p: Plan) {
    && |p.addressSubnets| == |AllPrivate(p.outputs)|
    && forall i :: 0 <= i < |p.addressSubnets| ==> SubnetOf(AllPrivate(p.outputs)[i]) == Some(p.addressSubnets[i])
  }

  /** Everything in lines 32-48 that can fail, in the order the script meets
      it: missing outputs, an empty master list, a private string that is
      not an address. */
  function Prepare(tf: TerraformOutput): (r: Result<Plan, Error>)
    ensures ReadOutputs(tf).Err? ==> r == Err(ReadOutputs(tf).error)
    ensures (ReadOutputs(tf).Ok? && ReadOutputs(tf).value.masterPrivate == []) ==>
              r == Err(EmptyList(OutputNames[0]))
    ensures (ReadOutputs(tf).Ok? && ReadOutputs(tf).value.masterPrivate != []
             && ReadOutputs(tf).value.masterPublic == []) ==> r == Err(EmptyList(OutputNames[1]))
    ensures (ReadOutputs(tf).Ok? && ReadOutputs(tf).value.masterPrivate != []
             && ReadOutputs(tf).value.masterPublic != []
             && exists k :: FirstInvalid(AllPrivate(ReadOutputs(tf).value), k)) ==>
              r.Err? && r.error.InvalidAddress?
    ensures r.Err? && r.error.InvalidAddress? ==>
              exists k :: FirstInvalid(AllPrivate(ReadOutputs(tf).value), k)
                && r.error.text == AllPrivate(ReadOutputs(tf).value)[k]
    ensures r.Ok? <==> (ReadOutputs(tf).Ok?
              && ReadOutputs(tf).value.masterPrivate != [] && ReadOutputs(tf).value.masterPublic != []
              && forall i :: 0 <= i < |AllPrivate(ReadOutputs(tf).value)| ==>
                   SubnetOf(AllPrivate(ReadOutputs(tf).value)[i]).Some?)
    ensures r.Ok? ==> r.value.outputs == ReadOutputs(tf).value && WellFormed(r.value) && Derived(r.value)
  {
    var out :- ReadOutputs(tf);
    if out.masterPrivate == [] then Err(EmptyList(OutputNames[0]))
    else if out.masterPublic == [] then Err(EmptyList(OutputNames[1]))
    else
      match SubnetsInOrder(AllPrivate(out))
      case Err(bad) =>
        assert exists k :: FirstInvalid(AllPrivate(out), k);
        Err(InvalidAddress(bad))
      case Ok(nets) =>
        var subnets := SortedDistinct(nets);
        assert forall i :: 0 <= i < |nets| ==> nets[i] in nets;
        Ok(Plan(out, nets, subnets))
  }

  /** `master_subnet`, line 48. */
  function MasterSubnet(p: Plan): Network
    requires Indexable(p)
  {
    p.addressSubnets[0]
  }

  /** The subnet of the worker at position `i` of `worker_private_ips`, line 106. */
  function WorkerSubnet(p: Plan, i: nat): Network
    requires Indexable(p) && i < |p.outputs.workerPrivate|
  {
    p.addressSubnets[|p.outputs.masterPrivate| + i]
  }

  /** The attributes of one host, in the order the YAML lists them. Only the
      master carries `ansible_ssh_common_args` (line 97). */
  datatype HostEntry = HostEntry(
    ansibleHost: string,
    ip: string,
    accessIp: string,
    ansibleUser: string,
    routesToAdd: seq<Route>,
    subnet: string,
    sshCommonArgs: Option<string>)

  /** The address and port under `loadbalancer_apiserver`. */
  datatype Endpoint = Endpoint(address: string, port: nat)

  /** `all.vars`, lines 60-73. */
  datatype ClusterVars = ClusterVars(
    ansiblePythonInterpreter: string,
    kubeNetworkPlugin: string,
    ansibleBecome: bool,
    apiServerPort: nat,
    publicApiIp: string,
    loadbalancerApiserver: Endpoint,
    kubeadmConfigApiFqdn: string,
    controlPlaneEndpoint: string,
    kubeadmInitRetryTimeout: nat)

  /** `all.vars` for a master reachable at `masterPublicIp` whose API server
      listens on `masterPrivateIp` (lines 42-43 and 60-73). */
  function VarsFor(masterPublicIp: string, masterPrivateIp: string): (v: ClusterVars)
    ensures v.kubeadmConfigApiFqdn == masterPrivateIp && v.apiServerPort == ApiServerTargetPort
    ensures v.publicApiIp == masterPublicIp
    ensures v.loadbalancerApiserver == Endpoint(v.kubeadmConfigApiFqdn, v.apiServerPort)
    ensures v.controlPlaneEndpoint == v.kubeadmConfigApiFqdn + ":" + Decimal(v.apiServerPort)
  {
    ClusterVars(
      "/usr/bin/python3", "calico", true, ApiServerTargetPort, masterPublicIp,
      Endpoint(masterPrivateIp, ApiServerTargetPort), masterPrivateIp,
      masterPrivateIp + ":" + Decimal(ApiServerTargetPort), 600)
  }

  /** The hosts of one group, a Python dict: name/entry pairs in insertion order. */
  type Hosts = seq<(string, HostEntry)>

  /** `d.get(name)`. */
  function Lookup(d: Hosts, name: string): Option<HostEntry>
    decreases |d|
  {
    if d == [] then None
    else if d[0].0 == name then Some(d[0].1)
    else Lookup(d[1..], name)
  }

  /** `d[name] = entry`: a new key goes last, an existing one keeps its place. */
  function Assign(d: Hosts, name: string, entry: HostEntry): (r: Hosts)
    ensures Lookup(d, name).None? ==> r == d + [(name, entry)]
    decreases |d|
  {
    if d == [] then [(name, entry)]
    else if d[0].0 == name then [(name, entry)] + d[1..]
    else
      var r := [d[0]] + Assign(d[1..], name, entry);
      assert Lookup(d, name).None? ==> d == [d[0]] + d[1..];
      r
  }

  /** After `d[name] = entry`, `name` gives `entry`, every other key what it
      gave before, and the dict grew only if `name` is new. */
  lemma {:induction false} AssignLookup(d: Hosts, name: string, entry: HostEntry, k: string)
    ensures Lookup(Assign(d, name, entry), k) == if k == name then Some(entry) else Lookup(d, k)
    ensures |Assign(d, name, entry)| == if Lookup(d, name).Some? then |d| else |d| + 1
    decreases |d|
  {
    if d != [] && d[0].0 != name {
      AssignLookup(d[1..], name, entry, k);
      var r := [d[0]] + Assign(d[1..], name, entry);
      assert r[1..] == Assign(d[1..], name, entry);
    }
  }

  /** The host groups under `all`: its own `hosts` and the `hosts` of its children. */
  datatype Group = All | KubeControlPlane | KubeNode | Etcd | CalicoRr

  /** The `inventory` dict of lines 57-87, filled in place by lines 99-121. */
  class Inventory {
    var hosts: Hosts                  // all.hosts
    var vars: ClusterVars             // all.vars
    var controlPlaneHosts: Hosts      // all.children.kube_control_plane.hosts
    var nodeHosts: Hosts              // all.children.kube_node.hosts
    var etcdHosts: Hosts              // all.children.etcd.hosts
    var clusterChildren: seq<string>  // all.children.k8s_cluster.children
    var calicoRrHosts: Hosts          // all.children.calico_rr.hosts

    /** Lines 57-87: every group empty; `k8s_cluster` only names its two children. */
    constructor (masterPublicIp: string, masterPrivateIp: string)
      ensures vars == VarsFor(masterPublicIp, masterPrivateIp)
      ensures hosts == [] && controlPlaneHosts == [] && nodeHosts == [] && etcdHosts == [] && calicoRrHosts == []
      ensures clusterChildren == ["kube_control_plane", "kube_node"]
    {
      hosts := [];
      vars := VarsFor(masterPublicIp, masterPrivateIp);
      controlPlaneHosts := [];
      nodeHosts := [];
      etcdHosts := [];
      clusterChildren := ["kube_control_plane", "kube_node"];
      calicoRrHosts := [];
    }

    /** `inventory[...][g]["hosts"][name] = entry`; no other group changes. */
    method SetHost(g: Group, name: string, entry: HostEntry)
      modifies this
      ensures hosts == if g == All then Assign(old(hosts), name, entry) else old(hosts)
      ensures controlPlaneHosts ==
        if g == KubeControlPlane then Assign(old(controlPlaneHosts), name, entry) else old(controlPlaneHosts)
      ensures nodeHosts == if g == KubeNode then Assign(old(nodeHosts), name, entry) else old(nodeHosts)
      ensures etcdHosts == if g == Etcd then Assign(old(etcdHosts), name, entry) else old(etcdHosts)
      ensures calicoRrHosts == if g == CalicoRr then Assign(old(calicoRrHosts), name, entry) else old(calicoRrHosts)
      ensures vars == old(vars) && clusterChildren == old(clusterChildren)
    {
      match g
      case All => hosts := Assign(hosts, name, entry);
      case KubeControlPlane => controlPlaneHosts := Assign(controlPlaneHosts, name, entry);
      case KubeNode => nodeHosts := Assign(nodeHosts, name, entry);
      case Etcd => etcdHosts := Assign(etcdHosts, name, entry);
      case CalicoRr => calicoRrHosts := Assign(calicoRrHosts, name, entry);
    }
  }

  /** `f"worker{i}"`. */
  function WorkerName(i: nat): string {
    "worker" + Decimal(i)
  }

  /** `zip` stops at the shorter list. */
  function WorkerCount(out: Outputs): nat {
    if |out.workerPrivate| <= |out.workerPublic| then |out.workerPrivate| else |out.workerPublic|
  }

  /** `master_entry`, lines 90-98. */
  function MasterEntry(p: Plan): HostEntry
    requires Indexable(p)
  {
    var ip := p.outputs.masterPrivate[0];
    var own := MasterSubnet(p);
    HostEntry(p.outputs.masterPublic[0], ip, ip, SshUser, RoutesExcept(p.subnets, own), SubnetText(own), Some(""))
  }

  /** `worker_entry` for the worker at position `i` of both lists, lines 112-119. */
  function WorkerEntry(p: Plan, i: nat): HostEntry
    requires Indexable(p) && i < WorkerCount(p.outputs)
  {
    var ip := p.outputs.workerPrivate[i];
    var own := WorkerSubnet(p, i);
    HostEntry(p.outputs.workerPublic[i], ip, ip, SshUser, RoutesExcept(p.subnets, own), SubnetText(own), None)
  }

  /** The first `n` workers as the worker loop (lines 104-121) enters them. */
  function Workers(p: Plan, n: nat): Hosts
    requires Indexable(p) && n <= WorkerCount(p.outputs)
  {
    if n == 0 then [] else Workers(p, n - 1) + [(WorkerName(n), WorkerEntry(p, n - 1))]
  }

  /** The inventory the script writes for plan `p`. */
  predicate Assembled(inv: Inventory, p: Plan)
    requires Indexable(p)
    reads inv
  {
    var master := [("master", MasterEntry(p))];
    && inv.vars == VarsFor(p.outputs.masterPublic[0], p.outputs.masterPrivate[0])
    && inv.controlPlaneHosts == master
    && inv.etcdHosts == master
    && inv.nodeHosts == Workers(p, WorkerCount(p.outputs))
    && inv.hosts == master + Workers(p, WorkerCount(p.outputs))
    && inv.calicoRrHosts == []
    && inv.clusterChildren == ["kube_control_plane", "kube_node"]
  }

  lemma {:induction false} WorkerNameInjective(i: nat, j: nat)
    ensures WorkerName(i) == WorkerName(j) ==> i == j
  {
    if WorkerName(i) == WorkerName(j) {
      assert Decimal(i) == WorkerName(i)[6..] && Decimal(j) == WorkerName(j)[6..];
      DecimalInjective(i, j);
    }
  }

  /** The names already entered are worker1..workerN, so the next one is new. */
  lemma {:induction false} WorkersLookup(p: Plan, n: nat, k: nat)
    requires Indexable(p) && n <= WorkerCount(p.outputs)
    ensures Lookup(Workers(p, n), WorkerName(k)) == if 1 <= k <= n then Some(WorkerEntry(p, k - 1)) else None
    decreases n
  {
    if n > 0 {
      WorkersLookup(p, n - 1, k);
      assert Workers(p, n) == Workers(p, n - 1) + [(WorkerName(n), WorkerEntry(p, n - 1))];
      LookupAppend(Workers(p, n - 1), WorkerName(n), WorkerEntry(p, n - 1), WorkerName(k));
      if k != n {
        WorkerNameInjective(n, k);
        assert WorkerName(k) != WorkerName(n);
      }
    }
  }

  /** No worker is called `master`. */
  lemma {:induction false} WorkersNoMaster(p: Plan, n: nat)
    requires Indexable(p) && n <= WorkerCount(p.outputs)
    ensures Lookup(Workers(p, n), "master") == None
    decreases n
  {
    if n > 0 {
      WorkersNoMaster(p, n - 1);
      LookupAppend(Workers(p, n - 1), WorkerName(n), WorkerEntry(p, n - 1), "master");
      assert WorkerName(n)[0] == 'w';
    }
  }

  lemma {:induction false} LookupAppend(d: Hosts, name: string, entry: HostEntry, k: string)
    ensures Lookup(d + [(name, entry)], k) ==
      if Lookup(d, k).Some? then Lookup(d, k) else if k == name then Some(entry) else None
    decreases |d|
  {
    if d != [] {
      LookupAppend(d[1..], name, entry, k);
      assert (d + [(name, entry)])[1..] == d[1..] + [(name, entry)];
    }
  }

  /** Lines 21-121 with the I/O taken out: fails exactly when `Prepare` does,
      before any inventory exists; otherwise builds the inventory. */
  method Generate(tf: TerraformOutput) returns (result: Result<Inventory, Error>)
    ensures result.Err? <==> Prepare(tf).Err?
    ensures result.Err? ==> result.error == Prepare(tf).error
    ensures result.Ok? ==> fresh(result.value) && Indexable(Prepare(tf).value)
                           && Assembled(result.value, Prepare(tf).value)
  {
    var prepared := Prepare(tf);
    if prepared.Err? {
      return Err(prepared.error);
    }
    var inv := Assemble(prepared.value);
    return Ok(inv);
  }

  /** Lines 48-121: the inventory with the master in place, then each worker
      entered by one pass of the worker loop. */
  method Assemble(p: Plan) returns (inv: Inventory)
    requires Indexable(p)
    ensures fresh(inv) && Assembled(inv, p)
  {
    inv := WithMaster(p);
    ghost var masters := [("master", MasterEntry(p))];
    MasterIsNoWorker(MasterEntry(p));
    assert inv.hosts == masters + Workers(p, 0);
    for i := 0 to WorkerCount(p.outputs)
      invariant inv.nodeHosts == Workers(p, i) && inv.hosts == masters + Workers(p, i)
      invariant inv.controlPlaneHosts == masters && inv.etcdHosts == masters && inv.calicoRrHosts == []
      invariant inv.vars == VarsFor(p.outputs.masterPublic[0], p.outputs.masterPrivate[0])
      invariant inv.clusterChildren == ["kube_control_plane", "kube_node"]
    {
      AddWorker(inv, p, i, masters);
    }
  }

  /** Lines 48-102: the master's routes (lines 49-54) and entry, the empty
      inventory of lines 57-87, and the master entry in `kube_control_plane`,
      `etcd` and `all`. */
  method WithMaster(p: Plan) returns (inv: Inventory)
    requires Indexable(p)
    ensures fresh(inv)
    ensures inv.vars == VarsFor(p.outputs.masterPublic[0], p.outputs.masterPrivate[0])
    ensures inv.clusterChildren == ["kube_control_plane", "kube_node"]
    ensures inv.controlPlaneHosts == [("master", MasterEntry(p))]
    ensures inv.etcdHosts == [("master", MasterEntry(p))]
    ensures inv.hosts == [("master", MasterEntry(p))]
    ensures inv.nodeHosts == [] && inv.calicoRrHosts == []
  {
    var masterPrivIp := p.outputs.masterPrivate[0];
    var masterPubIp := p.outputs.masterPublic[0];
    var masterSubnet := MasterSubnet(p);
    var masterRoutes := RoutesFor(p.subnets, masterSubnet);
    inv := new Inventory(masterPubIp, masterPrivIp);
    var masterEntry := HostEntry(masterPubIp, masterPrivIp, masterPrivIp, SshUser, masterRoutes,
                                 SubnetText(masterSubnet), Some(""));
    inv.SetHost(KubeControlPlane, "master", masterEntry);
    inv.SetHost(Etcd, "master", masterEntry);
    inv.SetHost(All, "master", masterEntry);
  }

  /** One pass of the worker loop, lines 105-121: the worker at position `i`
      goes into `kube_node` and `all`, after the ones before it. */
  method AddWorker(inv: Inventory, p: Plan, i: nat, ghost masters: Hosts)
    requires Indexable(p) && i < WorkerCount(p.outputs)
    requires forall k: nat :: Lookup(masters, WorkerName(k)).None?
    requires inv.nodeHosts == Workers(p, i) && inv.hosts == masters + Workers(p, i)
    modifies inv
    ensures inv.nodeHosts == Workers(p, i + 1) && inv.hosts == masters + Workers(p, i + 1)
    ensures inv.controlPlaneHosts == old(inv.controlPlaneHosts) && inv.etcdHosts == old(inv.etcdHosts)
    ensures inv.calicoRrHosts == old(inv.calicoRrHosts)
    ensures inv.vars == old(inv.vars) && inv.clusterChildren == old(inv.clusterChildren)
  {
    var name := WorkerName(i + 1);
    var entry := WorkerEntryFor(p, i);
    NextWorkerIsNew(p, i, masters);
    inv.SetHost(KubeNode, name, entry);
    inv.SetHost(All, name, entry);
    WorkersStep(p, i, masters);
  }

  /** Lines 105-119 for the worker at position `i`: its routes come from the
      loop of lines 107-111. */
  method WorkerEntryFor(p: Plan, i: nat) returns (entry: HostEntry)
    requires Indexable(p) && i < WorkerCount(p.outputs)
    ensures entry == WorkerEntry(p, i)
  {
    var privIp, pubIp := p.outputs.workerPrivate[i], p.outputs.workerPublic[i];
    var subnet := WorkerSubnet(p, i);
    var workerRoutes := RoutesFor(p.subnets, subnet);
    entry := HostEntry(pubIp, privIp, privIp, SshUser, workerRoutes, SubnetText(subnet), None);
  }

  /** The name of the next worker is not yet a key of `all.hosts`. */
  lemma {:induction false} NextWorkerIsNew(p: Plan, i: nat, masters: Hosts)
    requires Indexable(p) && i < WorkerCount(p.outputs)
    requires Lookup(masters, WorkerName(i + 1)).None?
    ensures Lookup(masters + Workers(p, i), WorkerName(i + 1)).None?
    ensures Lookup(Workers(p, i), WorkerName(i + 1)).None?
  {
    WorkersLookup(p, i, i + 1);
    LookupConcat(masters, Workers(p, i), WorkerName(i + 1));
  }

  /** `master` never clashes with a worker's name. */
  lemma MasterIsNoWorker(entry: HostEntry)
    ensures forall k: nat :: Lookup([("master", entry)], WorkerName(k)).None?
  {
    forall k: nat
      ensures Lookup([("master", entry)], WorkerName(k)).None?
    {
      assert WorkerName(k)[0] == 'w';
    }
  }

  lemma WorkersStep(p: Plan, i: nat, before: Hosts)
    requires Indexable(p) && i < WorkerCount(p.outputs)
    ensures before + Workers(p, i + 1) == (before + Workers(p, i)) + [(WorkerName(i + 1), WorkerEntry(p, i))]
  {
  }

  lemma {:induction false} LookupConcat(d: Hosts, e: Hosts, k: string)
    ensures Lookup(d + e, k) == if Lookup(d, k).Some? then Lookup(d, k) else Lookup(e, k)
    decreases |d|
  {
    if d == [] {
      assert d + e == e;
    } else {
      LookupConcat(d[1..], e, k);
      assert (d + e)[1..] == d[1..] + e;
    }
  }
}
