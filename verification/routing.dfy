/** Route derivation of kubespray/generate_inventory.py: the sorted list of
    distinct /24 subnets of all private addresses (`all_subnets`, lines
    46-47) and, per node, one static route to every other subnet (the loops
    at lines 49-54 and 107-111). */
module Routing {
  import opened Wrappers
  import opened Text
  import opened IPv4

  /** One entry of a node's `routes_to_add`: `{"to": <subnet>, "via": <gateway>}`. */
  datatype Route = Route(to: string, via: string)

  /** The route to subnet `n` through its gateway. */
  function RouteTo(n: Network): Route {
    Route(SubnetText(n), Format(Gateway(n)))
  }

  /** A route's `via` reads back as the address after the network address,
      inside the network it leads to. */
  lemma RouteToGateway(n: Network)
    ensures Parse(RouteTo(n).via) == Some(Gateway(n))
    ensures Value(Gateway(n)) == Value(n) + 1 && Contains(n, Gateway(n))
  {
    ParseFormat(Gateway(n));
  }

  /** The subnets' CIDR texts strictly increase in Python string order, so no
      text occurs twice. This is the order `sorted` leaves `all_subnets` in. */
  predicate Sorted(s: seq<Network>) {
    forall i, j :: 0 <= i < j < |s| ==> Less(SubnetText(s[i]), SubnetText(s[j]))
  }

  lemma {:induction false} SortedPrepend(n: Network, s: seq<Network>)
    requires Sorted(s)
    requires forall m :: m in s ==> Less(SubnetText(n), SubnetText(m))
    ensures Sorted([n] + s)
  {
    var r := [n] + s;
    forall i, j | 0 <= i < j < |r|
      ensures Less(SubnetText(r[i]), SubnetText(r[j]))
    {
      if i > 0 {
        assert r[i] == s[i - 1] && r[j] == s[j - 1];
      } else {
        assert r[j] == s[j - 1];
      }
    }
  }

  /** Dropping the head of a sorted list leaves it sorted and removes exactly the head. */
  lemma {:induction false} SortedTail(s: seq<Network>)
    requires Sorted(s) && s != []
    ensures Sorted(s[1..])
    ensures forall m :: m in s[1..] <==> m in s && m != s[0]
  {
    forall m | m in s[1..] ensures m != s[0] {
      var j :| 1 <= j < |s| && s[j] == m;
      LessIrreflexive(SubnetText(m));
    }
    assert s == [s[0]] + s[1..];
  }

  /** Adds `n` to a sorted list of subnets unless its text is already there. */
  function Insert(s: seq<Network>, n: Network): (r: seq<Network>)
    requires Sorted(s)
    ensures Sorted(r)
    ensures forall m :: m in r <==> m in s || m == n
    decreases |s|
  {
    if s == [] then [n]
    else if SubnetText(n) == SubnetText(s[0]) then
      SubnetTextInjective(n, s[0]);
      s
    else if Less(SubnetText(n), SubnetText(s[0])) then
      InsertFront(s, n);
      [n] + s
    else
      SortedTail(s);
      var rest := Insert(s[1..], n);
      InsertBehind(s, n, rest);
      [s[0]] + rest
  }

  lemma {:induction false} InsertFront(s: seq<Network>, n: Network)
    requires Sorted(s) && s != [] && Less(SubnetText(n), SubnetText(s[0]))
    ensures Sorted([n] + s)
  {
    forall m | m in s ensures Less(SubnetText(n), SubnetText(m)) {
      var j :| 0 <= j < |s| && s[j] == m;
      if j > 0 {
        LessTransitive(SubnetText(n), SubnetText(s[0]), SubnetText(m));
      }
    }
    SortedPrepend(n, s);
  }

  lemma {:induction false} InsertBehind(s: seq<Network>, n: Network, rest: seq<Network>)
    requires Sorted(s) && s != [] && Sorted(rest)
    requires SubnetText(n) != SubnetText(s[0]) && !Less(SubnetText(n), SubnetText(s[0]))
    requires forall m :: m in rest <==> m in s[1..] || m == n
    ensures Sorted([s[0]] + rest)
  {
    LessTotal(SubnetText(n), SubnetText(s[0]));
    forall m | m in rest ensures Less(SubnetText(s[0]), SubnetText(m)) {
      if m != n {
        var j :| 1 <= j < |s| && s[j] == m;
      }
    }
    SortedPrepend(s[0], rest);
  }

  /** `sorted(set(nets))` on the subnets' texts (line 47): every subnet of
      `nets` once, in Python string order. */
  function SortedDistinct(nets: seq<Network>): (r: seq<Network>)
    ensures Sorted(r)
    ensures forall m :: m in r <==> m in nets
    decreases |nets|
  {
    if nets == [] then []
    else
      var r := Insert(SortedDistinct(nets[1..]), nets[0]);
      assert nets == [nets[0]] + nets[1..];
      r
  }

  /** Position `k` holds the first string of `ips` that is not an address. */
  predicate FirstInvalid(ips: seq<string>, k: int) {
    0 <= k < |ips| && SubnetOf(ips[k]).None? && forall i :: 0 <= i < k ==> SubnetOf(ips[i]).Some?
  }

  /** The generator `get_subnet(ip) for ip in ips` of line 47, run to the end
      by `set`: the subnet of each string in turn, or the first string that
      is not an address (Python raises `ValueError` there). */
  function SubnetsInOrder(ips: seq<string>): (r: Result<seq<Network>, string>)
    ensures r.Ok? ==> |r.value| == |ips| && forall i :: 0 <= i < |ips| ==> SubnetOf(ips[i]) == Some(r.value[i])
    ensures r.Err? ==> exists k :: FirstInvalid(ips, k) && ips[k] == r.error
    decreases |ips|
  {
    if ips == [] then Ok([])
    else
      match SubnetOf(ips[0])
      case None =>
        assert FirstInvalid(ips, 0);
        Err(ips[0])
      case Some(n) =>
        var rest := SubnetsInOrder(ips[1..]);
        if rest.Err? then
          var k :| FirstInvalid(ips[1..], k) && ips[1..][k] == rest.error;
          FirstInvalidShift(ips, k);
          Err(rest.error)
        else
          var r := [n] + rest.value;
          assert forall i :: 0 < i < |ips| ==> ips[i] == ips[1..][i - 1] && r[i] == rest.value[i - 1];
          Ok(r)
  }

  lemma {:induction false} FirstInvalidShift(ips: seq<string>, k: int)
    requires ips != [] && SubnetOf(ips[0]).Some? && FirstInvalid(ips[1..], k)
    ensures FirstInvalid(ips, k + 1) && ips[k + 1] == ips[1..][k]
  {
    forall i | 0 <= i < k + 1 ensures SubnetOf(ips[i]).Some? {
      if i > 0 {
        assert ips[i] == ips[1..][i - 1];
      }
    }
  }

  /** Two sorted lists with the same members are the same list: the order of
      `all_subnets` depends only on which subnets occur, not on the order or
      repetition of the addresses they came from. */
  lemma {:induction false} SortedUnique(s: seq<Network>, t: seq<Network>)
    requires Sorted(s) && Sorted(t)
    requires forall m :: m in s <==> m in t
    ensures s == t
    decreases |s|
  {
    assert t != [] ==> t[0] in s;
    if s != [] {
      assert s[0] in t;
      assert t[0] in s;
      if s[0] != t[0] {
        var j :| 0 < j < |s| && s[j] == t[0];
        var k :| 0 < k < |t| && t[k] == s[0];
        LessTransitive(SubnetText(s[0]), SubnetText(t[0]), SubnetText(s[0]));
        LessIrreflexive(SubnetText(s[0]));
        assert false;
      }
      SortedTail(s);
      SortedTail(t);
      SortedUnique(s[1..], t[1..]);
      assert s == [s[0]] + s[1..] && t == [t[0]] + t[1..];
    }
  }

  /** What a node's `routes_to_add` holds: a route to each subnet of
      `subnets` whose text differs from that of the node's own subnet, in the
      order of `subnets`. */
  function RoutesExcept(subnets: seq<Network>, own: Network): seq<Route>
    decreases |subnets|
  {
    if subnets == [] then []
    else
      var last := subnets[|subnets| - 1];
      RoutesExcept(subnets[..|subnets| - 1], own)
        + (if SubnetText(last) != SubnetText(own) then [RouteTo(last)] else [])
  }

  /** The route loop run for the master (lines 49-54) and again for each
      worker (lines 107-111). */
  method RoutesFor(subnets: seq<Network>, own: Network) returns (routes: seq<Route>)
    ensures routes == RoutesExcept(subnets, own)
  {
    routes := [];
    for i := 0 to |subnets|
      invariant routes == RoutesExcept(subnets[..i], own)
    {
      var sn := subnets[i];
      assert subnets[..i + 1][..i] == subnets[..i];
      if SubnetText(sn) != SubnetText(own) {
        var gw := Gateway(sn);
        routes := routes + [Route(SubnetText(sn), Format(gw))];
      }
    }
    assert subnets[..|subnets|] == subnets;
  }

  /** `sorted` compares the CIDR texts, not the networks: 10.0.10.0/24 comes
      before 10.0.2.0/24 although its network address is the larger one. */
  lemma TextOrderNotNumeric()
    ensures Less(SubnetText(Address(10, 0, 10, 0)), SubnetText(Address(10, 0, 2, 0)))
    ensures Value(Address(10, 0, 2, 0)) < Value(Address(10, 0, 10, 0))
  {
    assert SubnetText(Address(10, 0, 10, 0)) == "10.0." + "10.0/24";
    assert SubnetText(Address(10, 0, 2, 0)) == "10.0." + "2.0/24";
    LessAfterPrefix("10.0.", "10.0/24", "2.0/24");
  }

  /** Every route goes to a subnet of `subnets` other than the node's own,
      and every other subnet gets one. */
  lemma {:induction false} RoutesExceptMembers(subnets: seq<Network>, own: Network)
    ensures forall i :: 0 <= i < |RoutesExcept(subnets, own)| ==>
              RoutesExcept(subnets, own)[i].to != SubnetText(own)
              && exists n :: n in subnets && RoutesExcept(subnets, own)[i] == RouteTo(n)
    ensures forall n :: n in subnets && SubnetText(n) != SubnetText(own) ==> RouteTo(n) in RoutesExcept(subnets, own)
    decreases |subnets|
  {
    if subnets != [] {
      var init, last := subnets[..|subnets| - 1], subnets[|subnets| - 1];
      var before, rs := RoutesExcept(init, own), RoutesExcept(subnets, own);
      RoutesExceptMembers(init, own);
      assert subnets == init + [last];
      forall i | 0 <= i < |rs|
        ensures rs[i].to != SubnetText(own) && exists n :: n in subnets && rs[i] == RouteTo(n)
      {
        if i < |before| {
          assert rs[i] == before[i];
          var n :| n in init && before[i] == RouteTo(n);
          assert n in subnets;
        } else {
          assert rs[i] == RouteTo(last);
        }
      }
    }
  }

  /** Route destinations strictly increasing in string order. */
  predicate Ascending(rs: seq<Route>) {
    forall i, j :: 0 <= i < j < |rs| ==> Less(rs[i].to, rs[j].to)
  }

  lemma {:induction false} AscendingAppend(rs: seq<Route>, r: Route)
    requires Ascending(rs)
    requires forall i :: 0 <= i < |rs| ==> Less(rs[i].to, r.to)
    ensures Ascending(rs + [r])
  {
    var t := rs + [r];
    forall i, j | 0 <= i < j < |t| ensures Less(t[i].to, t[j].to) {
      if j == |rs| {
        assert t[i] == rs[i] && t[j] == r;
      } else {
        assert t[i] == rs[i] && t[j] == rs[j];
      }
    }
  }

  /** The position in `subnets` that route `i` was made from. */
  lemma {:induction false} RouteOrigin(subnets: seq<Network>, own: Network, i: nat) returns (k: nat)
    requires i < |RoutesExcept(subnets, own)|
    ensures k < |subnets| && RoutesExcept(subnets, own)[i] == RouteTo(subnets[k])
    ensures SubnetText(subnets[k]) != SubnetText(own)
    decreases |subnets|
  {
    var init := subnets[..|subnets| - 1];
    var before := RoutesExcept(init, own);
    if i < |before| {
      k := RouteOrigin(init, own, i);
      assert init[k] == subnets[k];
    } else {
      k := |subnets| - 1;
    }
  }

  /** Routes follow the order of a sorted subnet list. */
  lemma {:induction false} RoutesExceptOrdered(subnets: seq<Network>, own: Network)
    requires Sorted(subnets)
    ensures Ascending(RoutesExcept(subnets, own))
    decreases |subnets|
  {
    if subnets != [] {
      var init, last := subnets[..|subnets| - 1], subnets[|subnets| - 1];
      var before := RoutesExcept(init, own);
      assert Sorted(init);
      RoutesExceptOrdered(init, own);
      if SubnetText(last) != SubnetText(own) {
        forall i | 0 <= i < |before| ensures Less(before[i].to, RouteTo(last).to) {
          var k := RouteOrigin(init, own, i);
          assert init[k] == subnets[k];
        }
        AscendingAppend(before, RouteTo(last));
      }
    }
  }

  /** With the node's own subnet among the sorted subnets, there is exactly
      one route fewer than there are subnets. */
  lemma {:induction false} RoutesExceptCount(subnets: seq<Network>, own: Network)
    requires Sorted(subnets)
    ensures |RoutesExcept(subnets, own)| == if own in subnets then |subnets| - 1 else |subnets|
    decreases |subnets|
  {
    if subnets != [] {
      var init, last := subnets[..|subnets| - 1], subnets[|subnets| - 1];
      assert subnets == init + [last];
      RoutesExceptCount(init, own);
      SubnetTextInjective(last, own);
      if last == own {
        if own in init {
          var k :| 0 <= k < |init| && init[k] == own;
          assert subnets[k] == own;
          LessIrreflexive(SubnetText(own));
        }
      }
    }
  }

  /** When every subnet is the node's own, it gets an empty route list. */
  lemma {:induction false} RoutesExceptEmpty(subnets: seq<Network>, own: Network)
    requires forall n :: n in subnets ==> SubnetText(n) == SubnetText(own)
    ensures RoutesExcept(subnets, own) == []
    decreases |subnets|
  {
    if subnets != [] {
      var init := subnets[..|subnets| - 1];
      assert forall n :: n in init ==> n in subnets;
      RoutesExceptEmpty(init, own);
    }
  }
}
