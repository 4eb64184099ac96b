# Netkit lab generator: interface bookkeeping, router identities and Quagga text

This project models the per-node logic of the Netkit lab generator in Dafny:

- **`NetkitComponent`** (module `Components`): the interface bookkeeping every lab node carries.
  - The interface list `IF`.
  - The maps from interface to zone (`map_IF_zone`), neighbour (`map_IF_neighbor`) and weight (`map_weight`).
  - The expected interface count `nbr_IF`.
  - The operations `set_interface`, `get_next_interface`, `get_interface_used_between` and `__cmp__`.
- **`Router`** (module `Routers`): a component that draws a router id and an AS number from two counters shared by every router of a run.
  - Python's class attributes `Router.Rid` and `Router.As` become an explicit `Allocator` object.
  - `Router` holds its `NetkitComponent` part as `node`.
- **The text each router writes** (module `QuaggaConf`), one string per line:
  - the `<name>.startup` script;
  - the Quagga `daemons` file;
  - `zebra.conf`, `ospf6d.conf`, `ripngd.conf` and `bgpd.conf`.
- **Router ids** (module `RouterIds`): a router id is a dotted quad. It is advanced by the source's octet-carry rule and kept as the text the source stores.
- **Decimal text** (module `Decimal`): `str`, `int`, `split` and `join` as the id code uses them.

## How the model reads the code

- **Dictionary order.** Python dictionaries are walked in ascending key order: `SortedKeys` gives the order of `map_weight`, `map_IF_neighbor` and `.items()`. This is the order CPython 2 gives small non-negative integer keys. The model fixes it so that the emitted text is a function of the state.
- **Router-id successor.** The successor of a router id follows the code, not a base-256 counter.
  - The carries are checked on octets 1, 2 and 3, in that order. Each check sees the value left by the previous one, and the last octet only increases when it does not carry.
  - So `0.0.255.255` is followed by `0.1.1.0`, and `0.255.1.0` by `1.0.1.1` (`RouterIds.SuccSamples`).
  - This is not a base-256 counter. The model follows the code.
  - Every step still moves strictly forward, so the ids of one run are all different (`RouterIds.NthDistinct`).
- **Exhausted ids.** When the first octet is already 255, the guard calls `printf`. That name is not defined in Python, so the step stops with a `NameError`.
  - This happens after the router has taken the id and before the shared id moves. The `exit()` that follows is never reached.
  - The model returns `Failure(NameError)` in this state.
- **Repeated calls.** Each `create_*_dir` call draws a new id and a new AS number, however often it is called for the same router. The calls are not idempotent, and the model does the same.
- **The `router bgp` line.** It prints the shared AS counter, which right after allocation is this router's own AS number plus one. `Routers.Router.CreateBgpDir` states this.
- **Inputs set by code outside this model.** A router's IPv6 addresses (`map_IF_ipv6`), its weights and `nbr_IF` are state set by the lab builder.
- **Neighbours in BGP.** `create_bgp_dir` reads, for each neighbour, its address on the interface back to this router and its AS number. It reads them at the moment the file is written.
  - In the model, the neighbour routers come as a map from this router's interface to the `Router` behind it.
  - `CreateBgpDir` requires that map to hold the routers of the component's own neighbour map (`RoutersBehind`). `ViewsOfNeighbors` shows that the BGP views then cover exactly this router's interfaces, each with the neighbour's own neighbour names.

## Model

| member | source | states |
|---|---|---|
| Components.NetkitComponent.constructor | labs/stp_lab/lab_creation_script/netkit_component.py:14-23 | a fresh component has the given name, no interfaces, empty zone, neighbour and weight maps, nbr_IF 0, and its list and maps agree |
| Components.NetkitComponent.Cmp | labs/stp_lab/lab_creation_script/netkit_component.py:25-26 | the comparison is -1, 0 or 1 and follows nbr_IF alone: negative exactly when this count is smaller, zero exactly when equal |
| Components.CmpIsOrdering | labs/stp_lab/lab_creation_script/netkit_component.py:25-26 | the comparison is antisymmetric and transitive, so it orders components |
| Components.NetkitComponent.SetInterface | labs/stp_lab/lab_creation_script/netkit_component.py:29-33 | interface i now maps to the zone and the neighbour, every other entry is unchanged, i is appended to the interface list, weights and count are untouched, and agreement of list and maps is kept |
| Components.NetkitComponent.GetNextInterface | labs/stp_lab/lab_creation_script/netkit_component.py:35-44 | answers 0 for an empty list, otherwise max+1 when that is below nbr_IF and None otherwise; a non-empty list is left sorted descending with the same elements, and nothing else changes |
| Components.NextInterface | labs/stp_lab/lab_creation_script/netkit_component.py:35-44 | 0 for a node without interfaces; on a node with interfaces, an answer exists exactly when max+1 < nbr_IF, and it is below nbr_IF, above every existing interface and not already used |
| Components.SortDescending | labs/stp_lab/lab_creation_script/netkit_component.py:39 | sort(reverse=True) gives a descending list with the same multiset of elements |
| Components.DescendingCons | labs/stp_lab/lab_creation_script/netkit_component.py:39 | a head no smaller than any later element keeps a descending list descending |
| Components.InsertedBelow | labs/stp_lab/lab_creation_script/netkit_component.py:39 | inserting a value below the head of a descending list leaves every element of the rest at most that head |
| Components.DescendingPermutationUnique | labs/stp_lab/lab_creation_script/netkit_component.py:39 | two descending lists with the same elements are equal, so the sorted list is fully determined |
| Components.SortedHeadIsMax | labs/stp_lab/lab_creation_script/netkit_component.py:39-41 | after the descending sort, L[0] is the largest interface and the list keeps its length |
| Components.SameElements | labs/stp_lab/lab_creation_script/netkit_component.py:39 | sorting keeps the set of interfaces, so the list and the maps still agree |
| Components.NetkitComponent.GetInterfaceUsedBetween | labs/stp_lab/lab_creation_script/netkit_component.py:46-50 | the loop returns the first interface, in key order, whose neighbour has the name; that interface leads to a neighbour of that name, and None comes back exactly when no neighbour has it |
| Components.InterfaceTowards | labs/stp_lab/lab_creation_script/netkit_component.py:46-50 | the answer is an interface whose neighbour has the name and no lower interface has one; None exactly when no neighbour has the name |
| Components.FirstNamed | labs/stp_lab/lab_creation_script/netkit_component.py:47-50 | over keys in ascending order, the first key whose neighbour has the name is the lowest such key; None exactly when none has it |
| Components.LeastMatch | labs/stp_lab/lab_creation_script/netkit_component.py:46-50 | the lowest interface leading to the name is the one the search picks |
| Components.FoundInOrder | labs/stp_lab/lab_creation_script/netkit_component.py:47-49 | a walk in key order whose first match is at position i returns that key |
| Components.NotFoundInOrder | labs/stp_lab/lab_creation_script/netkit_component.py:47-50 | a walk over every key without a match returns None |
| Components.SearchFound | labs/stp_lab/lab_creation_script/netkit_component.py:47-49 | on a neighbour map, a walk whose first match is at position i answers the key at i |
| Components.SearchMissed | labs/stp_lab/lab_creation_script/netkit_component.py:47-50 | on a neighbour map, a walk without a match answers None |
| Components.NamedNeighbor | labs/stp_lab/lab_creation_script/netkit_component.py:46-50 | the answer on a neighbour map leads to a neighbour of that name, and None means no neighbour has the name |
| Components.SortedKeys | labs/stp_lab/lab_creation_script/netkit_component.py:47 | the dictionary walk visits every key once and nothing else |
| Components.SortedKeysAscending | labs/stp_lab/lab_creation_script/netkit_component.py:47 | the dictionary walk visits the keys in strictly ascending order |
| Components.Least | labs/stp_lab/lab_creation_script/netkit_component.py:47 | the first key visited is the smallest key of the dictionary |
| Routers.Allocator.constructor | labs/static_routing_lab/lab_creation_script/router.py:8-9 | the shared counters start at AS 1 and at the text of the first id (which FirstIds shows is "0.0.0.1"), and that text reads back as the first quad |
| RouterIds.FirstIds | labs/static_routing_lab/lab_creation_script/router.py:9-35 | the first router of a run receives 0.0.0.1 and the second 0.0.0.2 |
| Routers.FirstTwoOspfRouters | labs/static_routing_lab/lab_creation_script/router.py:8-56 | two routers of a fresh run set up by create_ospf_dir get ids 0.0.0.1 and 0.0.0.2 and AS numbers 1 and 2 |
| Routers.Router.constructor | labs/static_routing_lab/lab_creation_script/router.py:11-14 | a fresh router is a fresh component of that name with AS 0, an empty router id and no addresses |
| Routers.Router.DefineRouterId | labs/static_routing_lab/lab_creation_script/router.py:16-35 | the router takes the current shared id; if the first octet is full the step fails with NameError and the shared id stays, otherwise the shared id becomes the successor of the old one, written out again; the allocator stays valid |
| RouterIds.Parse | labs/static_routing_lab/lab_creation_script/router.py:18 | a text reads as an id only when it splits into exactly four fields |
| RouterIds.ParseFormat | labs/static_routing_lab/lab_creation_script/router.py:18-35 | reading back the text written for an id gives the same four octets |
| RouterIds.Format | labs/static_routing_lab/lab_creation_script/router.py:34-35 | the id text splits on "." into exactly the four decimal octets, so no octet text runs into another |
| RouterIds.FormatInjective | labs/static_routing_lab/lab_creation_script/router.py:34-35 | different ids are written as different text |
| Decimal.SplitJoin | labs/static_routing_lab/lab_creation_script/router.py:18-35 | splitting on the separator undoes joining parts that do not contain it |
| Decimal.ParseNatToString | labs/static_routing_lab/lab_creation_script/router.py:18-34 | int(str(n)) == n for every natural n |
| Decimal.Split | labs/static_routing_lab/lab_creation_script/router.py:18 | str.split on one character gives at least one part and no part contains the separator |
| Decimal.ParseNat | labs/static_routing_lab/lab_creation_script/router.py:18 | a decimal text reads as a number exactly when it is non-empty and all digits |
| Decimal.NatToString | labs/static_routing_lab/lab_creation_script/router.py:34 | str(n) is a non-empty string of digits, with no leading zero unless n is 0 |
| RouterIds.Succ | labs/static_routing_lab/lab_creation_script/router.py:19-35 | the octet-carry successor of an id; whatever carries happen, the next id comes strictly after the current one |
| RouterIds.SuccWithoutCarry | labs/static_routing_lab/lab_creation_script/router.py:22-32 | when octets 1 to 3 are below 255, only the last octet moves, by one |
| RouterIds.SuccLastCarry | labs/static_routing_lab/lab_creation_script/router.py:28-30 | a full last octet becomes 0 and the third octet increases by one |
| RouterIds.SuccSamples | labs/static_routing_lab/lab_creation_script/router.py:22-32 | 0.0.0.254 to 0.0.0.255, 0.0.0.255 to 0.0.1.0, 0.0.255.255 to 0.1.1.0 and 0.255.1.0 to 1.0.1.1 |
| RouterIds.SuccBounded | labs/static_routing_lab/lab_creation_script/router.py:19-32 | when the first octet is not full, advancing keeps every octet at most 255 |
| RouterIds.NthAdvances | labs/static_routing_lab/lab_creation_script/router.py:16-35 | an id handed out later comes strictly after one handed out earlier |
| RouterIds.NthDistinct | labs/static_routing_lab/lab_creation_script/router.py:16-35 | no two routers of a run receive the same id text |
| Routers.Router.DefineAs | labs/static_routing_lab/lab_creation_script/router.py:37-39 | the router takes the current AS counter and the counter moves up by exactly one; the id counter and the router's id are untouched |
| Routers.Router.FillStartupFile | labs/static_routing_lab/lab_creation_script/router.py:41-48 | the loop over IF writes the startup text: it fails with KeyError exactly when some interface has no address, and otherwise yields the startup lines |
| QuaggaConf.StartupShape | labs/static_routing_lab/lab_creation_script/router.py:43-48 | the startup text has 2·\|IF\|+2 lines: "ifconfig ethN up" then "ifconfig ethN add addr/64" for each interface in list order, then the forwarding comment and the sysctl line; KeyError exactly when an address is missing |
| QuaggaConf.Startup | labs/static_routing_lab/lab_creation_script/router.py:43-48 | defines the startup text as the lookup of every interface's address, two lines per interface, then the forwarding lines; no contract of its own, its lines are stated by StartupShape |
| QuaggaConf.LookupAllShape | labs/static_routing_lab/lab_creation_script/router.py:43-45 | looking up every interface succeeds exactly when each has an entry, then gives the entries in order; the only failure is a KeyError |
| QuaggaConf.LookupAllSnoc | labs/static_routing_lab/lab_creation_script/router.py:43-45 | one more interface with an address appends exactly its entry |
| QuaggaConf.PairLinesShape | labs/static_routing_lab/lab_creation_script/router.py:43-45 | a loop writing two lines per element writes 2n lines, element i at 2i and 2i+1 |
| QuaggaConf.PairLinesSnoc | labs/static_routing_lab/lab_creation_script/router.py:43-45 | one more element appends exactly its two lines |
| QuaggaConf.EachLineShape | labs/static_routing_lab/lab_creation_script/router.py:81-82 | a loop writing one line per element writes n lines, element i at i |
| QuaggaConf.Daemons | labs/static_routing_lab/lab_creation_script/router.py:62-64 | every daemons file (router.py lines 64, 97 and 121) lists the same six daemons and turns on zebra and exactly the one daemon of its protocol |
| QuaggaConf.ZebraConf | labs/static_routing_lab/lab_creation_script/router.py:67-70 | the fixed zebra.conf text shared by the three protocols (router.py lines 69, 102 and 126); no contract of its own |
| Routers.Router.CreateOspfDir | labs/static_routing_lab/lab_creation_script/router.py:54-85 | draws a new id and AS number on every call (NameError and no AS drawn when ids are exhausted), then yields the OSPF daemons file, zebra.conf and ospf6d.conf written with the id just taken; the shared id is left as the text of its successor |
| QuaggaConf.Ospf6dHeadShape | labs/static_routing_lab/lab_creation_script/router.py:73-79 | ospf6d.conf opens with hostname and password, then an interface line and a cost line for every weight in interface order, then "router ospf6" and the router-id line with the router's id |
| QuaggaConf.Ospf6dCostAt | labs/static_routing_lab/lab_creation_script/router.py:75-77 | the i-th weighted interface, in ascending order, gets its interface line and its cost line at 2+2i and 3+2i |
| QuaggaConf.Ospf6dConfShape | labs/static_routing_lab/lab_creation_script/router.py:72-85 | ospf6d.conf is the head, one area line per interface in list order, then the log line: 5 + 2·weights + interfaces lines |
| QuaggaConf.Ospf6dAreaAt | labs/static_routing_lab/lab_creation_script/router.py:81-82 | the i-th interface of IF gets its "area 0.0.0.0" line right after the head |
| QuaggaConf.Ospf6dConf | labs/static_routing_lab/lab_creation_script/router.py:72-85 | defines ospf6d.conf as the head, the area lines and the log line; no contract of its own, its lines are stated by Ospf6dHeadShape and Ospf6dConfShape |
| Routers.Router.CreateRipngDir | labs/static_routing_lab/lab_creation_script/router.py:87-108 | draws a new id and AS number on every call (NameError when exhausted), then yields the RIPng daemons file, zebra.conf and ripngd.conf; the shared id is left as the text of its successor |
| QuaggaConf.RipngdConf | labs/static_routing_lab/lab_creation_script/router.py:105-108 | the fixed ripngd.conf text; no contract of its own |
| Routers.Router.CreateBgpDir | labs/static_routing_lab/lab_creation_script/router.py:110-150 | draws a new id and AS number on every call (NameError when exhausted); the "router bgp" line shows the router's own AS + 1; the shared id is left as the text of its successor; given the routers behind map_IF_neighbor, the text covers exactly this router's neighbour interfaces, each neighbour read after this router's allocation |
| Routers.ViewsOfNeighbors | labs/static_routing_lab/lab_creation_script/router.py:135-136 | when the peers are the routers behind map_IF_neighbor, there is one view per neighbour interface and each view carries that neighbour's own neighbour names |
| QuaggaConf.PeerAddress | labs/static_routing_lab/lab_creation_script/router.py:136 | the neighbour's address on the interface get_interface_used_between finds; an address found is on one of its interfaces that leads back to this router, and there is none if no such interface exists |
| QuaggaConf.EntriesShape | labs/static_routing_lab/lab_creation_script/router.py:135-136 | resolving the neighbours fails, with KeyError, exactly when one has no address back; otherwise entry i holds the address and AS of the neighbour behind the i-th interface in ascending order |
| QuaggaConf.BgpTextShape | labs/static_routing_lab/lab_creation_script/router.py:130-150 | 13 + 4n lines: header with the AS and router id, then each of the three loops writes its lines once per neighbour in the same order, with the address-family lines between them |
| QuaggaConf.BgpTextAt | labs/static_routing_lab/lab_creation_script/router.py:135-146 | neighbour i gets its remote-as line and the route-map reminder in the first loop, its "no neighbor … activate" line in the second and its "neighbor … activate" line in the third |
| QuaggaConf.BgpConfShape | labs/static_routing_lab/lab_creation_script/router.py:129-150 | bgpd.conf is the text for the resolved neighbours; KeyError exactly when a neighbour has no address back to this router |
| QuaggaConf.BgpConf | labs/static_routing_lab/lab_creation_script/router.py:129-150 | defines bgpd.conf as the text for the neighbours resolved in interface order, or the KeyError of the first that has no address back; no contract of its own, stated by BgpConfShape |
| QuaggaConf.BgpConfAsWritten | labs/static_routing_lab/lab_creation_script/router.py:135 | the loops as written: a TypeError as soon as the neighbour map is non-empty; no contract of its own, stated by BgpAsWrittenFailsWithNeighbors |
| QuaggaConf.BgpAsWrittenFailsWithNeighbors | labs/static_routing_lab/lab_creation_script/router.py:135 | as written, any router with a neighbour gets a TypeError instead of a bgpd.conf, while the corrected loops succeed whenever every neighbour has an address back |

## Left out

- Filesystem effects are not modelled.
  - This covers `os.makedirs`, the `OSError` handling and its warning print, and the `open`/`write`/`close` calls.
  - It also covers `create_dir` and `create_startup` in netkit_component.py.
  - Files are modelled as their lines. Whether the last line ends in a newline is not modelled.
  - Neither is what a file holds when an exception stops it half-written.
- `set_bandwidth` and `set_delay`, called at the end of `fill_startup_file`, are defined outside these files and are not part of this model.
- The unused class-wide `reminder` list and the `ipv6` attribute (always `None`) of `NetkitComponent` are not modelled.
- `labs/stp_lab/lab_creation_script/create_stp_lab.py`, the command-line driver, is not part of this model.
  - The lab builder that fills `map_IF_ipv6`, `map_weight` and `nbr_IF` is not part of this model either.
  - Those values are plain state that the model starts empty or zero.
- Dictionary iteration order is taken as ascending key order. The model does not capture CPython's hash-table order for keys that would be visited out of order.
- Routers.Router.CreateBgpDir: the neighbours come as a separate map of `Router` objects, required to be the routers behind `map_IF_neighbor` (`RoutersBehind`), because a component's neighbour map holds components and the BGP text also reads each neighbour's `as` and `map_IF_ipv6`.
  - Python's duck typing, where a neighbour that is not a router fails with a `KeyError` on `as` or `map_IF_ipv6`, is not modelled.
- Routers.Router.CreateBgpDir: the bgpd.conf text uses the corrected neighbour loops (see Findings).
- Python's `int()` also accepts signs and surrounding blanks, and the model's reading of an id does not. Only ids the allocator itself wrote are read back, so this makes no difference.
- Components.NetkitComponent.GetNextInterface: `list.sort` works in place on the list object. The model assigns the sorted list to the field, so other references to the same list object are not modelled.
- `get_next_interface` answers 0 for a node without interfaces even when `nbr_IF` is 0. The model keeps this: the freshness clauses of `NextInterface` speak only of nodes that already have interfaces.

## Findings

| source | as written | input that shows it | evidently intended | confidence | as-written member | corrected member |
|---|---|---|---|---|---|---|
| labs/static_routing_lab/lab_creation_script/router.py:135 | the three BGP loops unpack each element of `map_IF_neighbor` into `(IF, neighbor)`, but iterating a dictionary yields its integer keys, so unpacking raises TypeError | any router with one neighbour, e.g. `map_IF_neighbor = {0: r2}` | iterate the (interface, neighbour) pairs, as `.items()` gives them | not executed | QuaggaConf.BgpAsWrittenFailsWithNeighbors | QuaggaConf.BgpConfShape |
