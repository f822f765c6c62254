/** What the generated inventory promises as a whole: the shape of the host
    groups, the routes every host receives, and the independence of
    `all_subnets` from the order of the addresses. */
module InventoryFacts {
  import opened Wrappers
  import opened Text
  import opened IPv4
  import opened Routing
  import opened InventoryBuilder

  /** The worker loop enters `worker1`, `worker2`, ... in list order, one per
      pair that `zip` yields. */
  lemma {:induction false} WorkersShape(p: Plan, n: nat)
    requires Indexable(p) && n <= WorkerCount(p.outputs)
    ensures |Workers(p, n)| == n
    ensures forall k :: 0 <= k < n ==> Workers(p, n)[k] == (WorkerName(k + 1), WorkerEntry(p, k))
    decreases n
  {
    if n > 0 {
      WorkersShape(p, n - 1);
      var before := Workers(p, n - 1);
      assert Workers(p, n) == before + [(WorkerName(n), WorkerEntry(p, n - 1))];
      forall k | 0 <= k < n ensures Workers(p, n)[k] == (WorkerName(k + 1), WorkerEntry(p, k)) {
        if k < n - 1 {
          assert Workers(p, n)[k] == before[k];
        }
      }
    }
  }

  /** `zip` pairs as many workers as the shorter list holds. */
  lemma WorkerCountIsMin(out: Outputs)
    ensures WorkerCount(out) <= |out.workerPrivate| && WorkerCount(out) <= |out.workerPublic|
    ensures WorkerCount(out) == |out.workerPrivate| || WorkerCount(out) == |out.workerPublic|
  {
  }

  /** The finished inventory: `master` is one and the same entry under
      `kube_control_plane`, `etcd` and `all.hosts`; each worker is one and the
      same entry under `kube_node` and `all.hosts`; `all.hosts` lists the
      master first and then every worker in order; nothing else is there. */
  lemma AssembledGroups(inv: Inventory, p: Plan)
    requires Indexable(p) && Assembled(inv, p)
    ensures Lookup(inv.hosts, "master") == Some(MasterEntry(p))
    ensures Lookup(inv.controlPlaneHosts, "master") == Some(MasterEntry(p))
    ensures Lookup(inv.etcdHosts, "master") == Some(MasterEntry(p))
    ensures Lookup(inv.nodeHosts, "master") == None && inv.calicoRrHosts == []
    ensures forall k: nat :: Lookup(inv.nodeHosts, WorkerName(k)) == Lookup(inv.hosts, WorkerName(k))
    ensures forall k: nat :: Lookup(inv.nodeHosts, WorkerName(k)) ==
              if 1 <= k <= WorkerCount(p.outputs) then Some(WorkerEntry(p, k - 1)) else None
    ensures |inv.nodeHosts| == WorkerCount(p.outputs) && |inv.hosts| == WorkerCount(p.outputs) + 1
    ensures inv.hosts[0] == ("master", MasterEntry(p))
    ensures forall j :: 1 <= j < |inv.hosts| ==> inv.hosts[j] == (WorkerName(j), WorkerEntry(p, j - 1))
  {
    var n := WorkerCount(p.outputs);
    var master := [("master", MasterEntry(p))];
    WorkersShape(p, n);
    WorkersNoMaster(p, n);
    forall k: nat ensures Lookup(inv.nodeHosts, WorkerName(k)) == Lookup(inv.hosts, WorkerName(k))
      && Lookup(inv.nodeHosts, WorkerName(k)) == if 1 <= k <= n then Some(WorkerEntry(p, k - 1)) else None
    {
      WorkersLookup(p, n, k);
      LookupConcat(master, Workers(p, n), WorkerName(k));
      assert WorkerName(k)[0] == 'w';
    }
    forall j | 1 <= j < |inv.hosts| ensures inv.hosts[j] == (WorkerName(j), WorkerEntry(p, j - 1)) {
      assert inv.hosts[j] == Workers(p, n)[j - 1];
    }
  }

  /** The routes a host with subnet `own` receives, when `own` is one of the
      sorted `all_subnets`: one per other subnet, |all_subnets| - 1 of them,
      in the order of `all_subnets`, and none to its own subnet. */
  lemma HostRoutes(subnets: seq<Network>, own: Network)
    requires Sorted(subnets) && own in subnets
    ensures |RoutesExcept(subnets, own)| == |subnets| - 1
    ensures Ascending(RoutesExcept(subnets, own))
    ensures forall r :: r in RoutesExcept(subnets, own) ==> r.to != SubnetText(own)
    ensures forall n :: n in subnets && n != own ==> RouteTo(n) in RoutesExcept(subnets, own)
  {
    RoutesExceptCount(subnets, own);
    RoutesExceptOrdered(subnets, own);
    RoutesExceptMembers(subnets, own);
    forall n | n in subnets && n != own ensures RouteTo(n) in RoutesExcept(subnets, own) {
      SubnetTextInjective(n, own);
    }
  }

  /** Each route leads to one of `subnets` through the first address after
      that subnet's network address. */
  lemma HostGateways(subnets: seq<Network>, own: Network)
    ensures forall r :: r in RoutesExcept(subnets, own) ==>
              exists n :: n in subnets && r.to == SubnetText(n) && Parse(r.via) == Some(Gateway(n))
  {
    var rs := RoutesExcept(subnets, own);
    forall r | r in rs
      ensures exists n :: n in subnets && r.to == SubnetText(n) && Parse(r.via) == Some(Gateway(n))
    {
      var i :| 0 <= i < |rs| && rs[i] == r;
      var k := RouteOrigin(subnets, own, i);
      RouteToGateway(subnets[k]);
    }
  }

  /** The master's `routes_to_add` (lines 49-54). */
  lemma MasterRoutes(p: Plan)
    requires WellFormed(p)
    ensures |MasterEntry(p).routesToAdd| == |p.subnets| - 1
    ensures Ascending(MasterEntry(p).routesToAdd)
    ensures forall r :: r in MasterEntry(p).routesToAdd ==> r.to != MasterEntry(p).subnet
  {
    HostRoutes(p.subnets, MasterSubnet(p));
  }

  /** A worker's `routes_to_add` (lines 107-111). */
  lemma WorkerRoutes(p: Plan, i: nat)
    requires WellFormed(p) && i < WorkerCount(p.outputs)
    ensures |WorkerEntry(p, i).routesToAdd| == |p.subnets| - 1
    ensures Ascending(WorkerEntry(p, i).routesToAdd)
    ensures forall r :: r in WorkerEntry(p, i).routesToAdd ==> r.to != WorkerEntry(p, i).subnet
  {
    HostRoutes(p.subnets, WorkerSubnet(p, i));
  }

  /** `subnet` of each entry is `get_subnet` of the host's own private
      address: the network that holds that address. */
  lemma EntrySubnets(p: Plan)
    requires Indexable(p) && Derived(p)
    ensures SubnetOf(MasterEntry(p).ip) == Some(MasterSubnet(p))
    ensures MasterEntry(p).subnet == SubnetText(MasterSubnet(p))
    ensures forall i :: 0 <= i < WorkerCount(p.outputs) ==>
              SubnetOf(WorkerEntry(p, i).ip) == Some(WorkerSubnet(p, i))
              && WorkerEntry(p, i).subnet == SubnetText(WorkerSubnet(p, i))
  {
    var all := AllPrivate(p.outputs);
    var m := |p.outputs.masterPrivate|;
    assert all[0] == MasterEntry(p).ip;
    forall i | 0 <= i < WorkerCount(p.outputs)
      ensures SubnetOf(WorkerEntry(p, i).ip) == Some(WorkerSubnet(p, i))
    {
      assert all[m + i] == WorkerEntry(p, i).ip;
    }
  }

  /** When every private address lies in the same /24 network, no host gets
      a route. */
  lemma SingleSubnetNoRoutes(p: Plan, n: Network)
    requires WellFormed(p) && Derived(p)
    requires forall i :: 0 <= i < |AllPrivate(p.outputs)| ==> SubnetOf(AllPrivate(p.outputs)[i]) == Some(n)
    ensures p.subnets == [n]
    ensures MasterEntry(p).routesToAdd == []
    ensures forall i :: 0 <= i < WorkerCount(p.outputs) ==> WorkerEntry(p, i).routesToAdd == []
  {
    assert p.addressSubnets[0] == n;
    forall m ensures m in p.subnets <==> m in [n] {
      if m in p.subnets {
        var i :| 0 <= i < |p.addressSubnets| && p.addressSubnets[i] == m;
      }
    }
    SortedUnique(p.subnets, [n]);
    MasterRoutes(p);
    forall i | 0 <= i < WorkerCount(p.outputs) ensures WorkerEntry(p, i).routesToAdd == [] {
      WorkerRoutes(p, i);
    }
  }

  /** `sorted(set(...))`: `all_subnets`, and with it every route list,
      depends only on which private addresses occur, not on their order or
      repetition. */
  lemma SubnetsOrderFree(p: Plan, q: Plan)
    requires WellFormed(p) && Derived(p) && WellFormed(q) && Derived(q)
    requires forall ip :: ip in AllPrivate(p.outputs) <==> ip in AllPrivate(q.outputs)
    ensures p.subnets == q.subnets
  {
    forall m ensures m in p.subnets <==> m in q.subnets {
      if m in p.subnets {
        SubnetFromOther(p, q, m);
      }
      if m in q.subnets {
        SubnetFromOther(q, p, m);
      }
    }
    SortedUnique(p.subnets, q.subnets);
  }

  lemma SubnetFromOther(p: Plan, q: Plan, m: Network)
    requires WellFormed(p) && Derived(p) && WellFormed(q) && Derived(q)
    requires forall ip :: ip in AllPrivate(p.outputs) ==> ip in AllPrivate(q.outputs)
    requires m in p.subnets
    ensures m in q.subnets
  {
    var i :| 0 <= i < |p.addressSubnets| && p.addressSubnets[i] == m;
    var ip := AllPrivate(p.outputs)[i];
    assert ip in AllPrivate(q.outputs);
    var j :| 0 <= j < |AllPrivate(q.outputs)| && AllPrivate(q.outputs)[j] == ip;
    assert q.addressSubnets[j] == m;
  }
}
