# Kubespray inventory generation, modelled in Dafny

This project models the core of `kubespray/generate_inventory.py`. The script
reads the Terraform outputs of a cluster (the private and public addresses of
its masters and workers). It then writes the Ansible inventory that Kubespray
deploys from. The model covers these parts of the script:

- **Reading the outputs.** Four named outputs are looked up, each with its
  `"value"` list. A missing key stops the run with a `KeyError`, and an empty
  master list stops it with an `IndexError`. Both happen after `terraform-output.json` is
  written (lines 26-27) but before the inventory is written (lines 124-126).
- **`get_subnet`.** It gives the /24 network of an address as the text
  `a.b.c.0/24`. A string that is not an address stops the run with a
  `ValueError`.
- **`all_subnets`.** This is the sorted, duplicate-free list of the subnets of
  all private addresses. `sorted` compares the CIDR texts, so `10.0.10.0/24`
  comes before `10.0.2.0/24`.
- **The route loops.** Each node gets one route to every other subnet. The
  gateway is the network address plus one.
- **The inventory.** This is a nested dict that the script fills in place:
  - the cluster variables;
  - the master, entered as one and the same entry under `kube_control_plane`,
    `etcd` and `all.hosts`;
  - each `worker<i>`, paired by `zip`, under `kube_node` and `all.hosts`.

The model is built from these files:

- `wrappers.dfy`: `Option` and `Result`.
- `numerals.dfy`: decimal numerals, as Python's `str(int)` writes them.
- `text.dfy`: the `<` on strings that `sorted` uses, and `split` on one
  character.
- `ipv4.dfy`: addresses, their text form, /24 networks and the `+ 1` on an
  address. Only canonical dotted quads are accepted: one to three digits per
  octet, no leading zero, at most 255. Python's `ipaddress` accepts exactly
  these since version 3.9.5.
- `routing.dfy`: `all_subnets` and the route loop.
- `inventory.dfy`:
  - the Terraform outputs and the error order;
  - the `Inventory` class, whose groups are dicts. They are modelled as
    sequences of name/entry pairs in insertion order, the order `yaml.dump`
    writes them with `sort_keys=False`;
  - the two loops that fill it.
- `properties.dfy`: what the finished inventory promises as a whole.

How the model is organised:

- `Prepare` is a function that does everything in lines 32-48 that can fail.
  The imperative part then starts from its `Plan` and cannot fail:
  - `Assemble`, with `WithMaster` and `AddWorker`;
  - the route loop `RoutesFor`.
- `Generate` joins the two parts. It fails exactly when `Prepare` does, and
  with the same error. Otherwise it returns a fresh `Inventory` that satisfies
  `Assembled`, the specification of the whole document.

## Model

| member | source | states |
|---|---|---|
| Numerals.Decimal | kubespray/generate_inventory.py:22 | the text of a number is a canonical numeral: digits only, no leading zero, a single digit exactly for values below 10 |
| Numerals.DecValueOfDecimal | kubespray/generate_inventory.py:22 | reading back the numeral of `n` gives `n` |
| Numerals.DecimalOfDecValue | kubespray/generate_inventory.py:22 | a canonical numeral is exactly what `Decimal` writes for its value |
| Numerals.DecimalInjective | kubespray/generate_inventory.py:105 | different numbers have different numerals |
| Numerals.DecimalLength | kubespray/generate_inventory.py:22 | numbers below 1000 have at most three digits |
| Text.Less | kubespray/generate_inventory.py:47 | the `<` on `str` that `sorted` uses: code point by code point, a proper prefix before the longer string; `LessIrreflexive`, `LessTransitive`, `LessTotal` and `LessAfterPrefix` prove it a strict total order |
| Text.LessIrreflexive | kubespray/generate_inventory.py:47 | no string sorts before itself |
| Text.LessTransitive | kubespray/generate_inventory.py:47 | string order is transitive |
| Text.LessTotal | kubespray/generate_inventory.py:47 | any two different strings are ordered one way or the other |
| Text.LessAfterPrefix | kubespray/generate_inventory.py:47 | after a common prefix the first differing character decides the order |
| Text.Split | kubespray/generate_inventory.py:22 | `split('.')` gives at least one piece, no piece holds the separator, and joining the pieces gives the input back |
| Text.SplitCons | kubespray/generate_inventory.py:22 | text before the first separator is the first piece |
| Text.SplitNone | kubespray/generate_inventory.py:22 | text without a separator is a single piece |
| IPv4.Value | kubespray/generate_inventory.py:53 | an address is a 32-bit number whose low byte is the last octet |
| IPv4.Format | kubespray/generate_inventory.py:53 | `str` of an address: its four octets as decimal numerals joined by dots; `ParseFormat` reads it back and `FormatInjective` keeps addresses apart |
| IPv4.ParseOctet | kubespray/generate_inventory.py:22 | one octet as `ipaddress` reads it: one to three digits, no leading zero, at most 255, otherwise refused; `ParseOctetCanonical` and `ParseOctetDecimal` give its contract |
| IPv4.Parse | kubespray/generate_inventory.py:22 | an address as `ipaddress` reads it: exactly four dot-separated octets, otherwise refused; `ParseCanonical` and `ParseFormat` give its contract |
| IPv4.ParseOctetCanonical | kubespray/generate_inventory.py:22 | an accepted octet is written exactly as its value's numeral |
| IPv4.ParseOctetDecimal | kubespray/generate_inventory.py:22 | every octet value is accepted in its numeral form |
| IPv4.ParseCanonical | kubespray/generate_inventory.py:22 | only the canonical text of an address is accepted: what is read back prints as the input |
| IPv4.SplitFormat | kubespray/generate_inventory.py:22 | the text of an address splits into its four octet numerals |
| IPv4.ParseFormat | kubespray/generate_inventory.py:53 | reading the text of an address gives the address back (the round trip of `str` and `ip_network`) |
| IPv4.FormatInjective | kubespray/generate_inventory.py:53 | different addresses have different texts |
| IPv4.JoinFour | kubespray/generate_inventory.py:22 | four pieces joined with dots are the dotted quad |
| IPv4.NetworkOf | kubespray/generate_inventory.py:21-22 | the /24 network of an address is its value with the low 8 bits cleared, and it holds the address |
| IPv4.ContainsIsNetworkOf | kubespray/generate_inventory.py:21-22 | a network holds an address exactly when it is that address's network |
| IPv4.SubnetText | kubespray/generate_inventory.py:22 | `str` of a /24 network: its address text followed by `/24`; `SubnetTextInjective` proves it one-to-one |
| IPv4.SubnetTextInjective | kubespray/generate_inventory.py:47 | equal CIDR texts mean equal networks, so `set` of texts removes exactly the duplicate networks |
| IPv4.SubnetOf | kubespray/generate_inventory.py:21-22 | `get_subnet(ip)`: the /24 network that holds `ip`, or a refusal (the `ValueError`) when `ip` is not an address; its contract is stated by `SubnetOfContains` and `SubnetOfFormat` |
| IPv4.SubnetOfContains | kubespray/generate_inventory.py:21-22 | `get_subnet` fails exactly on text that is not an address; otherwise its result holds the address, and it is the only network that does |
| IPv4.SubnetOfFormat | kubespray/generate_inventory.py:21-22 | `get_subnet` of an address's own text is its network |
| IPv4.Succ | kubespray/generate_inventory.py:53 | `address + 1` exists exactly below 255.255.255.255 and is the next 32-bit value |
| IPv4.Gateway | kubespray/generate_inventory.py:53 | the gateway is the network address plus one without overflow, and lies inside the network |
| Routing.RouteTo | kubespray/generate_inventory.py:53-54 | the `{"to", "via"}` dict for one subnet: its CIDR text and the text of its network address plus one; `RouteToGateway` states what `via` is |
| Routing.RouteToGateway | kubespray/generate_inventory.py:53-54 | a route's `via` reads back as the address after the network address, inside the subnet it leads to |
| Routing.SortedPrepend | kubespray/generate_inventory.py:47 | a subnet sorting below every member can go in front of a sorted list |
| Routing.SortedTail | kubespray/generate_inventory.py:47 | the tail of a sorted list is sorted and holds every member but the head |
| Routing.Insert | kubespray/generate_inventory.py:47 | inserting into a sorted list keeps it sorted and adds exactly the new subnet |
| Routing.InsertFront | kubespray/generate_inventory.py:47 | a smaller subnet goes in front |
| Routing.InsertBehind | kubespray/generate_inventory.py:47 | a larger subnet goes behind the head |
| Routing.SortedDistinct | kubespray/generate_inventory.py:47 | `sorted(set(...))`: strictly ascending in string order, holding exactly the given subnets |
| Routing.SubnetsInOrder | kubespray/generate_inventory.py:47 | the subnet of each private address in order, or the first address that `get_subnet` rejects |
| Routing.FirstInvalidShift | kubespray/generate_inventory.py:47 | a first invalid address in the tail is the first invalid address of the whole list when the head is valid |
| Routing.SortedUnique | kubespray/generate_inventory.py:47 | two sorted lists with the same members are equal |
| Routing.TextOrderNotNumeric | kubespray/generate_inventory.py:47 | `10.0.10.0/24` sorts before `10.0.2.0/24` although its network address is larger |
| Routing.RoutesExcept | kubespray/generate_inventory.py:49-54 | `routes_to_add` of a host: one `RouteTo` per subnet whose text differs from the host's own, in the order of `all_subnets`; `RoutesExceptMembers`, `RoutesExceptOrdered`, `RoutesExceptCount` and `RoutesExceptEmpty` give its contract |
| Routing.RoutesFor | kubespray/generate_inventory.py:49-54 | the route loop builds exactly the routes `RoutesExcept` describes |
| Routing.RoutesExceptMembers | kubespray/generate_inventory.py:51-54 | no route leads to the node's own subnet, each leads to one of the subnets, and every other subnet gets one |
| Routing.AscendingAppend | kubespray/generate_inventory.py:54 | appending a route above all earlier ones keeps the list ascending |
| Routing.RouteOrigin | kubespray/generate_inventory.py:51-54 | each route comes from a subnet at a known position that is not the node's own |
| Routing.RoutesExceptOrdered | kubespray/generate_inventory.py:51-54 | over sorted subnets, route destinations are strictly ascending |
| Routing.RoutesExceptCount | kubespray/generate_inventory.py:51-54 | over sorted subnets there are `|all_subnets| - 1` routes when the node's subnet is among them, `|all_subnets|` otherwise |
| Routing.RoutesExceptEmpty | kubespray/generate_inventory.py:51-54 | when every subnet is the node's own, the route list is empty |
| InventoryBuilder.OutputValue | kubespray/generate_inventory.py:32 | `tf_output[name]["value"]` succeeds exactly when both keys are present; otherwise the `KeyError` names the missing key |
| InventoryBuilder.ReadOutputs | kubespray/generate_inventory.py:32-35 | the four lists when all four outputs are readable; otherwise the `KeyError` of the first output that is not |
| InventoryBuilder.Prepare | kubespray/generate_inventory.py:32-48 | the failures in the script's order (`KeyError`, `IndexError` on either master list, `ValueError` naming the first invalid private address); on success a plan whose `all_subnets` is sorted and holds exactly the subnets of the private addresses |
| InventoryBuilder.VarsFor | kubespray/generate_inventory.py:60-73 | `kubeadm_config_api_fqdn` is the master's private address, `api_server_port` is 6443 and `public_api_ip` is the master's public address; the load balancer and `control_plane_endpoint` point at that private address and port |
| InventoryBuilder.Lookup | kubespray/generate_inventory.py:99-101 | `d[name]` on a dict kept as name/entry pairs in insertion order: the entry of the first pair with that name, or none; `AssignLookup`, `LookupAppend` and `LookupConcat` give its contract |
| InventoryBuilder.Assign | kubespray/generate_inventory.py:99 | assigning a new key to a dict appends it last |
| InventoryBuilder.AssignLookup | kubespray/generate_inventory.py:99-101 | after `d[name] = entry`, `name` maps to `entry`, other keys are unchanged, and the dict grows only for a new key |
| InventoryBuilder.Inventory.constructor | kubespray/generate_inventory.py:57-87 | every host group starts empty, with the cluster variables and `k8s_cluster`'s two children |
| InventoryBuilder.Inventory.SetHost | kubespray/generate_inventory.py:99-101 | assigning into one group's hosts leaves every other part of the document unchanged |
| InventoryBuilder.WorkerName | kubespray/generate_inventory.py:105 | `f"worker{i}"`; `WorkerNameInjective` and `WorkersNoMaster` prove the names distinct and never `master` |
| InventoryBuilder.WorkerCount | kubespray/generate_inventory.py:104 | the number of pairs `zip` yields; `WorkerCountIsMin` proves it the shorter list's length |
| InventoryBuilder.MasterEntry | kubespray/generate_inventory.py:90-98 | `master_entry`: the master's public and private addresses, the SSH user, its routes from `RoutesExcept` and its subnet text; `MasterRoutes` and `EntrySubnets` give its contract |
| InventoryBuilder.WorkerEntry | kubespray/generate_inventory.py:112-119 | `worker_entry` of the i-th `zip` pair: the same fields without `ansible_ssh_common_args`; `WorkerRoutes` and `EntrySubnets` give its contract |
| InventoryBuilder.Workers | kubespray/generate_inventory.py:104-121 | the hosts the worker loop has entered after n passes: `worker1` .. `worker<n>` with their entries; `WorkersLookup`, `WorkersStep` and `WorkersShape` give its contract |
| InventoryBuilder.Assembled | kubespray/generate_inventory.py:57-121 | the finished document: the vars, the master alone in `kube_control_plane` and `etcd`, the workers in `kube_node`, master then workers in `all.hosts`, `calico_rr` empty; `Generate` establishes it and `AssembledGroups` states what it promises |
| InventoryBuilder.WorkerNameInjective | kubespray/generate_inventory.py:105 | different worker numbers give different names |
| InventoryBuilder.WorkersLookup | kubespray/generate_inventory.py:104-121 | after `n` workers, `worker<k>` is present exactly for `1 <= k <= n`, with the entry of list position `k - 1` |
| InventoryBuilder.WorkersNoMaster | kubespray/generate_inventory.py:105 | no worker is named `master` |
| InventoryBuilder.LookupAppend | kubespray/generate_inventory.py:120-121 | a lookup after appending a key |
| InventoryBuilder.LookupConcat | kubespray/generate_inventory.py:101 | a lookup in two dicts joined one after the other |
| InventoryBuilder.Generate | kubespray/generate_inventory.py:32-121 | fails exactly when `Prepare` fails, with its error and before any inventory exists; otherwise returns a fresh inventory that satisfies `Assembled` |
| InventoryBuilder.Assemble | kubespray/generate_inventory.py:89-121 | the master step followed by the worker loop gives the `Assembled` document |
| InventoryBuilder.WithMaster | kubespray/generate_inventory.py:48-101 | the master's single entry sits under `kube_control_plane`, `etcd` and `all.hosts`, and nothing else is in the document yet |
| InventoryBuilder.AddWorker | kubespray/generate_inventory.py:104-121 | one pass of the worker loop appends `worker<i+1>` to `kube_node` and `all.hosts` and changes nothing else |
| InventoryBuilder.WorkerEntryFor | kubespray/generate_inventory.py:105-119 | the worker's entry, with its routes computed by the route loop |
| InventoryBuilder.NextWorkerIsNew | kubespray/generate_inventory.py:120-121 | the next worker name is not yet a key, so assigning it appends |
| InventoryBuilder.MasterIsNoWorker | kubespray/generate_inventory.py:101 | `master` never clashes with a worker name |
| InventoryBuilder.WorkersStep | kubespray/generate_inventory.py:104-121 | one more pass appends one more worker |
| InventoryFacts.WorkersShape | kubespray/generate_inventory.py:104-105 | the loop enters `worker1`, `worker2`, ... in list order, one per pair |
| InventoryFacts.WorkerCountIsMin | kubespray/generate_inventory.py:104 | `zip` yields as many workers as the shorter list holds |
| InventoryFacts.AssembledGroups | kubespray/generate_inventory.py:99-121 | `master` is the same entry under `kube_control_plane`, `etcd` and `all.hosts`; each worker is the same entry under `kube_node` and `all.hosts`; `all.hosts` is the master followed by the workers in order; `calico_rr` is empty |
| InventoryFacts.HostRoutes | kubespray/generate_inventory.py:49-54 | a host whose subnet is in `all_subnets` gets `|all_subnets| - 1` routes, ascending, none to its own subnet, one to every other subnet |
| InventoryFacts.HostGateways | kubespray/generate_inventory.py:53-54 | every route goes to a subnet through the first address after its network address |
| InventoryFacts.MasterRoutes | kubespray/generate_inventory.py:49-54 | the master's route count, order and exclusion of its own subnet |
| InventoryFacts.WorkerRoutes | kubespray/generate_inventory.py:107-111 | a worker's route count, order and exclusion of its own subnet |
| InventoryFacts.EntrySubnets | kubespray/generate_inventory.py:106-118 | each entry's `subnet` is `get_subnet` of that host's own private address |
| InventoryFacts.SingleSubnetNoRoutes | kubespray/generate_inventory.py:46-54 | when all private addresses lie in one /24, `all_subnets` has one element and every host's route list is empty (present, not absent) |
| InventoryFacts.SubnetsOrderFree | kubespray/generate_inventory.py:46-47 | `all_subnets` depends only on which private addresses occur, not on their order or repetition |
| InventoryFacts.SubnetFromOther | kubespray/generate_inventory.py:46-47 | a subnet of one address list is a subnet of any list holding the same addresses |

## Left out

- Running `terraform output -json`, writing and reading `terraform-output.json`, and JSON parsing: the model starts from the parsed value, as a map from output names to maps from keys to string lists. Outputs of any other JSON shape are not modelled. The `TypeError` such shapes would raise is not modelled either.
- The `print` of the master's public address (line 39), writing `hosts.yaml` with `yaml.dump`, `etcd.yml`, the `ansible-playbook` runs and copying the kubeconfig. These are I/O and external processes. The document they write is modelled as the `Inventory` object.
- `setdns.py` is not part of this model.
- Python's `ipaddress` module is replaced by `IPv4.Parse`, `IPv4.NetworkOf`, `IPv4.Succ` and `IPv4.Format`. They follow the rules of Python 3.9.5 and later: octets of one to three digits, no leading zeros, at most 255. Exotic inputs that older versions accepted are not modelled.
- InventoryBuilder.Assemble: `get_subnet` is not called again at lines 48 and 106. The subnets come from `Plan.addressSubnets`, computed once at line 47. `get_subnet` is a pure function, so the values are the same.
- Routing.RoutesFor: the gateway text is computed from the network value, not by parsing the subnet text again. `Routing.RouteToGateway` proves that reading the text back gives the same network address plus one.
- Sharing: each host dict is one object shared by its groups. The master entry sits under `kube_control_plane`, `etcd` and `all.hosts` (lines 99-101), and each worker entry under `kube_node` and `all.hosts` (lines 120-121). `yaml.dump` writes a shared dict once with an anchor and then refers to it with aliases. The model keeps equal values in each group instead, so it does not capture this sharing or the anchors and aliases in the written YAML. `yaml.dump` itself is left out as well.
