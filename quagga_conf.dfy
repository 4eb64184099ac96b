/** The text a router's configuration files hold, one string per line:
    the Netkit startup script and the Quagga files daemons, zebra.conf,
    ospf6d.conf, ripngd.conf and bgpd.conf. Each is a function of state the
    lab builder has already bound. */
module QuaggaConf {
  import opened Outcomes
  import opened Decimal
  import opened Components

  // ---------------------------------------------------------------------------
  // Loops that write lines
  // ---------------------------------------------------------------------------

  /** `for x in xs: write f(x)` */
  function EachLine<T>(xs: seq<T>, f: T -> string): seq<string>
  {
    if xs == [] then [] else [f(xs[0])] + EachLine(xs[1..], f)
  }

  /** `for x in xs: write f(x); write g(x)` */
  function PairLines<T>(xs: seq<T>, f: T -> string, g: T -> string): seq<string>
  {
    if xs == [] then [] else [f(xs[0]), g(xs[0])] + PairLines(xs[1..], f, g)
  }

  /** A dictionary lookup for every key, in order; the first key without an
      entry stops the loop with a KeyError. */
  function LookupAll<K, V>(keys: seq<K>, lookup: K -> Option<V>): Result<seq<V>>
  {
    if keys == [] then Success([])
    else match lookup(keys[0])
      case None => Failure(KeyError)
      case Some(v) =>
        match LookupAll(keys[1..], lookup)
        case Failure(f) => Failure(f)
        case Success(rest) => Success([v] + rest)
  }

  /** One line per element, in order. */
  lemma {:induction false} EachLineShape<T>(xs: seq<T>, f: T -> string)
    ensures |EachLine(xs, f)| == |xs|
    ensures forall i :: 0 <= i < |xs| ==> EachLine(xs, f)[i] == f(xs[i])
  {
    if xs != [] {
      EachLineShape(xs[1..], f);
      assert forall i :: 1 <= i < |xs| ==> xs[1..][i - 1] == xs[i];
    }
  }

  /** Two lines per element, in order: first f's, then g's. */
  lemma {:induction false} PairLinesShape<T>(xs: seq<T>, f: T -> string, g: T -> string)
    ensures |PairLines(xs, f, g)| == 2 * |xs|
    ensures forall i :: 0 <= i < |xs| ==>
      PairLines(xs, f, g)[2 * i] == f(xs[i]) && PairLines(xs, f, g)[2 * i + 1] == g(xs[i])
  {
    if xs != [] {
      var tl := xs[1..];
      PairLinesShape(tl, f, g);
      var r := PairLines(xs, f, g);
      var rest := PairLines(tl, f, g);
      assert r == [f(xs[0]), g(xs[0])] + rest;
      forall i | 1 <= i < |xs|
        ensures r[2 * i] == f(xs[i]) && r[2 * i + 1] == g(xs[i])
      {
        assert tl[i - 1] == xs[i];
        assert r[2 * i] == rest[2 * (i - 1)];
        assert r[2 * i + 1] == rest[2 * (i - 1) + 1];
      }
    }
  }

  /** The two lines of element i. */
  lemma PairLinesAt<T>(xs: seq<T>, f: T -> string, g: T -> string, i: int)
    requires 0 <= i < |xs|
    ensures |PairLines(xs, f, g)| == 2 * |xs|
    ensures PairLines(xs, f, g)[2 * i] == f(xs[i]) && PairLines(xs, f, g)[2 * i + 1] == g(xs[i])
  {
    PairLinesShape(xs, f, g);
  }

  /** The line of element i. */
  lemma EachLineAt<T>(xs: seq<T>, f: T -> string, i: int)
    requires 0 <= i < |xs|
    ensures |EachLine(xs, f)| == |xs| && EachLine(xs, f)[i] == f(xs[i])
  {
    EachLineShape(xs, f);
  }

  /** One more element appends exactly its two lines. */
  lemma {:induction false} PairLinesSnoc<T>(xs: seq<T>, x: T, f: T -> string, g: T -> string)
    ensures PairLines(xs + [x], f, g) == PairLines(xs, f, g) + [f(x), g(x)]
  {
    if xs == [] {
      assert xs + [x] == [x] && [x][1..] == [];
      assert PairLines([x], f, g) == [f(x), g(x)] + [];
    } else {
      var s := xs + [x];
      assert s[0] == xs[0] && s[1..] == xs[1..] + [x];
      PairLinesSnoc(xs[1..], x, f, g);
      var head := [f(xs[0]), g(xs[0])];
      var rest := PairLines(xs[1..], f, g);
      var last := [f(x), g(x)];
      assert PairLines(s, f, g) == head + (rest + last);
      assert head + (rest + last) == (head + rest) + last;
    }
  }

  /** The lookups succeed exactly when every key has an entry, and then give
      the entries in key order; the only failure is a KeyError. */
  lemma {:induction false} LookupAllShape<K, V>(keys: seq<K>, lookup: K -> Option<V>)
    ensures LookupAll(keys, lookup).Success? <==> forall i :: 0 <= i < |keys| ==> lookup(keys[i]).Some?
    ensures LookupAll(keys, lookup).Failure? ==> LookupAll(keys, lookup).fault == KeyError
    ensures LookupAll(keys, lookup).Success? ==> |LookupAll(keys, lookup).value| == |keys|
    ensures LookupAll(keys, lookup).Success? ==>
      forall i :: 0 <= i < |keys| ==> LookupAll(keys, lookup).value[i] == lookup(keys[i]).value
  {
    if keys != [] {
      var tl := keys[1..];
      LookupAllShape(tl, lookup);
      assert forall i :: 1 <= i < |keys| ==> tl[i - 1] == keys[i];
      if LookupAll(keys, lookup).Success? {
        var r := LookupAll(keys, lookup).value;
        var rest := LookupAll(tl, lookup).value;
        assert r == [lookup(keys[0]).value] + rest;
        forall i | 1 <= i < |keys| ensures r[i] == lookup(keys[i]).value {
          assert r[i] == rest[i - 1];
        }
      }
    }
  }

  /** Looking up one more key that has an entry appends that entry. */
  lemma {:induction false} LookupAllSnoc<K, V>(keys: seq<K>, x: K, lookup: K -> Option<V>)
    requires LookupAll(keys, lookup).Success? && lookup(x).Some?
    ensures LookupAll(keys + [x], lookup) == Success(LookupAll(keys, lookup).value + [lookup(x).value])
  {
    if keys == [] {
      assert keys + [x] == [x] && [x][1..] == [];
      assert [x][1..] == [] && LookupAll([x][1..], lookup) == Success([]);
      assert LookupAll([x], lookup) == Success([lookup(x).value] + []);
      assert LookupAll(keys, lookup).value + [lookup(x).value] == [lookup(x).value] + [];
    } else {
      var s := keys + [x];
      assert s[0] == keys[0] && s[1..] == keys[1..] + [x];
      LookupAllSnoc(keys[1..], x, lookup);
      var head := [lookup(keys[0]).value];
      var rest := LookupAll(keys[1..], lookup).value;
      var last := [lookup(x).value];
      assert LookupAll(s, lookup).value == head + (rest + last);
      assert head + (rest + last) == (head + rest) + last;
    }
  }

  /** Where the lines sit in two lines, a middle part and two more lines. */
  lemma Bracketed<T>(a: T, b: T, mid: seq<T>, c: T, d: T)
    ensures var r := [a, b] + (mid + [c, d]);
      |r| == |mid| + 4 && r[0] == a && r[1] == b && r[|mid| + 2] == c && r[|mid| + 3] == d &&
      forall j :: 0 <= j < |mid| ==> r[j + 2] == mid[j]
  {
  }

  /** Where the lines sit in a head, a middle part and one last line. */
  lemma Closed<T>(head: seq<T>, mid: seq<T>, last: T)
    ensures var r := head + (mid + [last]);
      |r| == |head| + |mid| + 1 && r[..|head|] == head && r[|head| + |mid|] == last &&
      forall j :: 0 <= j < |mid| ==> r[|head| + j] == mid[j]
  {
  }

  /** Where the lines sit in some lines followed by two more. */
  lemma Followed<T>(lines: seq<T>, c: T, d: T)
    ensures var r := lines + [c, d];
      |r| == |lines| + 2 && r[|lines|] == c && r[|lines| + 1] == d &&
      forall j :: 0 <= j < |lines| ==> r[j] == lines[j]
  {
  }

  // ---------------------------------------------------------------------------
  // Names
  // ---------------------------------------------------------------------------

  /** The routing protocol a router directory is generated for. */
  datatype Protocol = Ospf6 | Ripng | Bgp

  /** The Quagga daemon that runs the protocol. */
  function DaemonOf(p: Protocol): string
  {
    match p
    case Ospf6 => "ospf6d"
    case Ripng => "ripngd"
    case Bgp => "bgpd"
  }

  /** "ethN": the Linux name of interface N. */
  function Eth(i: int): string
  {
    "eth" + IntToString(i)
  }

  // ---------------------------------------------------------------------------
  // Startup script
  // ---------------------------------------------------------------------------

  /** An interface with its IPv6 address. */
  datatype Addressed = Addressed(iface: int, addr: string)

  /** map_IF_ipv6[IF], or None where the map has no entry. */
  function AddressOf(ipv6: map<int, string>): int -> Option<Addressed>
  {
    i => if i in ipv6 then Some(Addressed(i, ipv6[i])) else None
  }

  function IfUpLine(a: Addressed): string
  {
    "ifconfig " + Eth(a.iface) + " up"
  }

  function IfAddLine(a: Addressed): string
  {
    "ifconfig " + Eth(a.iface) + " add " + a.addr + "/64"
  }

  const ForwardingLines: seq<string> := ["# Active ipv6 forwarding", "sysctl -w net.ipv6.conf.all.forwarding=1"]

  /** The <name>.startup script: every interface in list order, then IPv6 forwarding. */
  function Startup(ifaces: seq<int>, ipv6: map<int, string>): Result<seq<string>>
  {
    match LookupAll(ifaces, AddressOf(ipv6))
    case Failure(f) => Failure(f)
    case Success(up) => Success(PairLines(up, IfUpLine, IfAddLine) + ForwardingLines)
  }

  /** The startup script has two lines per interface, in the order of the
      interface list, then the forwarding comment and the sysctl line; it is a
      KeyError exactly when some interface has no IPv6 address. */
  lemma StartupShape(ifaces: seq<int>, ipv6: map<int, string>)
    ensures Startup(ifaces, ipv6).Success? <==> forall i :: 0 <= i < |ifaces| ==> ifaces[i] in ipv6
    ensures Startup(ifaces, ipv6).Failure? ==> Startup(ifaces, ipv6).fault == KeyError
    ensures Startup(ifaces, ipv6).Success? ==> |Startup(ifaces, ipv6).value| == 2 * |ifaces| + 2
    ensures Startup(ifaces, ipv6).Success? ==> forall i :: 0 <= i < |ifaces| ==>
      Startup(ifaces, ipv6).value[2 * i] == "ifconfig " + Eth(ifaces[i]) + " up" &&
      Startup(ifaces, ipv6).value[2 * i + 1] == "ifconfig " + Eth(ifaces[i]) + " add " + ipv6[ifaces[i]] + "/64"
    ensures Startup(ifaces, ipv6).Success? ==>
      Startup(ifaces, ipv6).value[2 * |ifaces|] == "# Active ipv6 forwarding" &&
      Startup(ifaces, ipv6).value[2 * |ifaces| + 1] == "sysctl -w net.ipv6.conf.all.forwarding=1"
  {
    var lookup := AddressOf(ipv6);
    LookupAllShape(ifaces, lookup);
    assert forall i :: 0 <= i < |ifaces| ==> (lookup(ifaces[i]).Some? <==> ifaces[i] in ipv6);
    if LookupAll(ifaces, lookup).Success? {
      var up := LookupAll(ifaces, lookup).value;
      var lines := PairLines(up, IfUpLine, IfAddLine);
      PairLinesShape(up, IfUpLine, IfAddLine);
      Followed(lines, "# Active ipv6 forwarding", "sysctl -w net.ipv6.conf.all.forwarding=1");
      forall i | 0 <= i < |ifaces|
        ensures lines[2 * i] == "ifconfig " + Eth(ifaces[i]) + " up"
        ensures lines[2 * i + 1] == "ifconfig " + Eth(ifaces[i]) + " add " + ipv6[ifaces[i]] + "/64"
      {
        assert up[i] == Addressed(ifaces[i], ipv6[ifaces[i]]);
      }
    }
  }

  // ---------------------------------------------------------------------------
  // daemons and zebra.conf
  // ---------------------------------------------------------------------------

  /** The six daemons every daemons file lists, in file order. */
  const DaemonNames: seq<string> := ["zebra", "bgpd", "ospfd", "ospf6d", "ripd", "ripngd"]

  /** One line of a daemons file. */
  function Setting(daemon: string, on: bool): string
  {
    daemon + "=" + (if on then "yes" else "no")
  }

  /** The daemons file: which Quagga daemons start. Every daemons file lists
      the same six daemons and switches on zebra and exactly one routing
      daemon, the one for the protocol. */
  function Daemons(p: Protocol): (lines: seq<string>)
    ensures |lines| == |DaemonNames|
    ensures forall i :: 0 <= i < |DaemonNames| ==>
      lines[i] == Setting(DaemonNames[i], DaemonNames[i] == "zebra" || DaemonNames[i] == DaemonOf(p))
  {
    match p
    case Ospf6 => ["zebra=yes", "bgpd=no", "ospfd=no", "ospf6d=yes", "ripd=no", "ripngd=no"]
    case Ripng => ["zebra=yes", "bgpd=no", "ospfd=no", "ospf6d=no", "ripd=no", "ripngd=yes"]
    case Bgp => ["zebra=yes", "bgpd=yes", "ospfd=no", "ospf6d=no", "ripd=no", "ripngd=no"]
  }

  /** zebra.conf, the same for every protocol. */
  function ZebraConf(): seq<string>
  {
    ["hostname Router", "password zebra", "log file /var/log/quagga/zebra.log"]
  }

  // ---------------------------------------------------------------------------
  // ospf6d.conf
  // ---------------------------------------------------------------------------

  /** An interface with its link weight. */
  datatype Weighted = Weighted(iface: int, weight: string)

  /** The entries of map_weight, in key order. */
  function WeightItems(weights: map<int, string>): (items: seq<Weighted>)
    ensures |items| == |weights|
    ensures forall i :: 0 <= i < |items| ==>
      items[i].iface == SortedKeys(weights.Keys)[i] && items[i].iface in weights &&
      items[i].weight == weights[items[i].iface]
  {
    var keys := SortedKeys(weights.Keys);
    assert forall i :: 0 <= i < |keys| ==> keys[i] in weights;
    seq(|keys|, i requires 0 <= i < |keys| => Weighted(keys[i], weights[keys[i]]))
  }

  function InterfaceLine(w: Weighted): string
  {
    "interface " + Eth(w.iface)
  }

  function CostLine(w: Weighted): string
  {
    "ipv6 ospf6 cost " + w.weight
  }

  function AreaLine(i: int): string
  {
    "interface " + Eth(i) + " area 0.0.0.0"
  }

  /** Everything of ospf6d.conf up to and including the router-id line. */
  function Ospf6dHead(weights: map<int, string>, routerId: string): seq<string>
  {
    ["hostname ospf6d", "password zebra"]
    + (PairLines(WeightItems(weights), InterfaceLine, CostLine)
    + ["router ospf6", "router-id " + routerId])
  }

  function Ospf6dConf(weights: map<int, string>, routerId: string, ifaces: seq<int>): seq<string>
  {
    Ospf6dHead(weights, routerId) + (EachLine(ifaces, AreaLine) + ["log file /var/log/zebra/ospf6d.log"])
  }

  /** The head of ospf6d.conf: a cost stanza for every weight, interfaces in
      ascending order, then the router-id line with the router's id. */
  lemma Ospf6dHeadShape(weights: map<int, string>, routerId: string)
    ensures |Ospf6dHead(weights, routerId)| == 4 + 2 * |weights|
    ensures Ospf6dHead(weights, routerId)[0] == "hostname ospf6d"
    ensures Ospf6dHead(weights, routerId)[1] == "password zebra"
    ensures forall i :: 0 <= i < |weights| ==>
      var k := SortedKeys(weights.Keys)[i];
      k in weights &&
      Ospf6dHead(weights, routerId)[2 + 2 * i] == "interface " + Eth(k) &&
      Ospf6dHead(weights, routerId)[3 + 2 * i] == "ipv6 ospf6 cost " + weights[k]
    ensures Ospf6dHead(weights, routerId)[2 + 2 * |weights|] == "router ospf6"
    ensures Ospf6dHead(weights, routerId)[3 + 2 * |weights|] == "router-id " + routerId
  {
    var items := WeightItems(weights);
    var costs := PairLines(items, InterfaceLine, CostLine);
    assert |costs| == 2 * |weights| by { PairLinesShape(items, InterfaceLine, CostLine); }
    Bracketed("hostname ospf6d", "password zebra", costs, "router ospf6", "router-id " + routerId);
    forall i | 0 <= i < |weights|
      ensures var k := SortedKeys(weights.Keys)[i];
        k in weights &&
        Ospf6dHead(weights, routerId)[2 + 2 * i] == "interface " + Eth(k) &&
        Ospf6dHead(weights, routerId)[3 + 2 * i] == "ipv6 ospf6 cost " + weights[k]
    {
      Ospf6dCostAt(weights, routerId, i);
    }
  }

  /** The cost stanza of the i-th weighted interface. */
  lemma Ospf6dCostAt(weights: map<int, string>, routerId: string, i: int)
    requires 0 <= i < |weights|
    ensures |Ospf6dHead(weights, routerId)| == 4 + 2 * |weights|
    ensures var k := SortedKeys(weights.Keys)[i];
      k in weights &&
      Ospf6dHead(weights, routerId)[2 + 2 * i] == "interface " + Eth(k) &&
      Ospf6dHead(weights, routerId)[3 + 2 * i] == "ipv6 ospf6 cost " + weights[k]
  {
    var items := WeightItems(weights);
    PairLinesAt(items, InterfaceLine, CostLine, i);
    Bracketed("hostname ospf6d", "password zebra", PairLines(items, InterfaceLine, CostLine),
              "router ospf6", "router-id " + routerId);
  }

  /** ospf6d.conf: the head, then one area 0.0.0.0 line per interface in the
      order of the interface list, then the log line. */
  lemma Ospf6dConfShape(weights: map<int, string>, routerId: string, ifaces: seq<int>)
    ensures |Ospf6dConf(weights, routerId, ifaces)| == 5 + 2 * |weights| + |ifaces|
    ensures Ospf6dConf(weights, routerId, ifaces)[..4 + 2 * |weights|] == Ospf6dHead(weights, routerId)
    ensures forall i :: 0 <= i < |ifaces| ==>
      Ospf6dConf(weights, routerId, ifaces)[4 + 2 * |weights| + i] == "interface " + Eth(ifaces[i]) + " area 0.0.0.0"
    ensures Ospf6dConf(weights, routerId, ifaces)[4 + 2 * |weights| + |ifaces|] == "log file /var/log/zebra/ospf6d.log"
  {
    var head := Ospf6dHead(weights, routerId);
    var areas := EachLine(ifaces, AreaLine);
    assert |head| == 4 + 2 * |weights| by { Ospf6dHeadShape(weights, routerId); }
    assert |areas| == |ifaces| by { EachLineShape(ifaces, AreaLine); }
    assert Ospf6dConf(weights, routerId, ifaces) == head + (areas + ["log file /var/log/zebra/ospf6d.log"]);
    Closed(head, areas, "log file /var/log/zebra/ospf6d.log");
    forall i | 0 <= i < |ifaces|
      ensures Ospf6dConf(weights, routerId, ifaces)[4 + 2 * |weights| + i] == "interface " + Eth(ifaces[i]) + " area 0.0.0.0"
    {
      Ospf6dAreaAt(weights, routerId, ifaces, i);
    }
  }

  /** The area line of the i-th interface. */
  lemma Ospf6dAreaAt(weights: map<int, string>, routerId: string, ifaces: seq<int>, i: int)
    requires 0 <= i < |ifaces|
    ensures |Ospf6dConf(weights, routerId, ifaces)| == 5 + 2 * |weights| + |ifaces|
    ensures Ospf6dConf(weights, routerId, ifaces)[4 + 2 * |weights| + i] == "interface " + Eth(ifaces[i]) + " area 0.0.0.0"
  {
    var head := Ospf6dHead(weights, routerId);
    var areas := EachLine(ifaces, AreaLine);
    assert |head| == 4 + 2 * |weights| by { Ospf6dHeadShape(weights, routerId); }
    EachLineAt(ifaces, AreaLine, i);
    Closed(head, areas, "log file /var/log/zebra/ospf6d.log");
  }

  // ---------------------------------------------------------------------------
  // ripngd.conf
  // ---------------------------------------------------------------------------

  /** ripngd.conf: RIPng on every network. */
  function RipngdConf(): seq<string>
  {
    ["router ripng", "network ::/0"]
  }

  // ---------------------------------------------------------------------------
  // bgpd.conf
  // ---------------------------------------------------------------------------

  /** What the BGP emitter reads of a neighbouring router. */
  datatype Peer = Peer(asNumber: int, ipv6: map<int, string>, neighborNames: map<int, string>)

  /** The neighbour's address on its interface back to the router called selfName:
      the interface get_interface_used_between finds, looked up in its address
      map; None when either lookup has no entry (a KeyError). An address found
      is on an interface that leads back to selfName, and there is none when
      no interface of the neighbour does. */
  function PeerAddress(p: Peer, selfName: string): (r: Option<string>)
    ensures r.Some? ==>
      exists j :: j in p.ipv6 && j in p.neighborNames && p.neighborNames[j] == selfName && r.value == p.ipv6[j]
    ensures (forall j :: j in p.neighborNames ==> p.neighborNames[j] != selfName) ==> r == None
  {
    match InterfaceTowards(p.neighborNames, selfName)
    case None => None
    case Some(j) => if j in p.ipv6 then Some(p.ipv6[j]) else None
  }

  /** One resolved neighbour: its address and its AS number. */
  datatype Entry = Entry(addr: string, remoteAs: int)

  /** The neighbour behind interface k, resolved; None (a KeyError) when it
      has no address back to selfName. */
  function EntryOf(peers: map<int, Peer>, selfName: string): int -> Option<Entry>
  {
    k => if k !in peers then None
         else match PeerAddress(peers[k], selfName)
           case None => None
           case Some(addr) => Some(Entry(addr, peers[k].asNumber))
  }

  /** What EntryOf gives for a neighbour of the map. */
  lemma EntryOfAt(peers: map<int, Peer>, selfName: string, k: int)
    requires k in peers
    ensures EntryOf(peers, selfName)(k).Some? <==> PeerAddress(peers[k], selfName).Some?
    ensures EntryOf(peers, selfName)(k).Some? ==>
      EntryOf(peers, selfName)(k).value == Entry(PeerAddress(peers[k], selfName).value, peers[k].asNumber)
  {
  }

  function RemoteAsLine(e: Entry): string
  {
    "neighbor " + e.addr + " remote-as " + IntToString(e.remoteAs)
  }

  const RouteMapReminder := "!add routemap if it's needed."

  function RouteMapLine(e: Entry): string
  {
    RouteMapReminder
  }

  function DeactivateLine(e: Entry): string
  {
    "no neighbor " + e.addr + " activate"
  }

  function ActivateLine(e: Entry): string
  {
    "neighbor " + e.addr + " activate"
  }

  /** The header lines of bgpd.conf. */
  function BgpHead(headerAs: int, routerId: string): seq<string>
  {
    ["hostname bgpd", "password zebra", "router bgp " + IntToString(headerAs), "!", "bgp router-id " + routerId]
  }

  /** The lines that open the IPv6 address family. */
  const BgpFamilyOpen: seq<string> := ["!", "address-family ipv6", "!add the network that the router must share below", "!"]

  /** The closing lines of bgpd.conf. */
  const BgpTail: seq<string> := ["exit-address-family", "!", "!make your community list and route map below"]

  /** bgpd.conf for resolved neighbours es: the header, then the three
      neighbour loops with the fixed lines between them. */
  function BgpText(headerAs: int, routerId: string, es: seq<Entry>): seq<string>
  {
    BgpHead(headerAs, routerId)
    + (PairLines(es, RemoteAsLine, RouteMapLine)
    + (["!"]
    + (EachLine(es, DeactivateLine)
    + (BgpFamilyOpen
    + (EachLine(es, ActivateLine)
    + BgpTail)))))
  }

  /** The neighbours resolved in interface order; a KeyError at the first
      one without an address back to selfName. */
  function Entries(peers: map<int, Peer>, selfName: string): Result<seq<Entry>>
  {
    LookupAll(SortedKeys(peers.Keys), EntryOf(peers, selfName))
  }

  /** bgpd.conf with the neighbour loops walking the (interface, neighbour)
      pairs of the neighbour map. headerAs is the number printed on the
      "router bgp" line. */
  function BgpConf(headerAs: int, routerId: string, selfName: string, peers: map<int, Peer>): Result<seq<string>>
  {
    match Entries(peers, selfName)
    case Failure(f) => Failure(f)
    case Success(es) => Success(BgpText(headerAs, routerId, es))
  }

  /** bgpd.conf as the source's loops `for (IF, neighbor) in map_IF_neighbor`
      run them: iterating a dictionary yields its integer keys, and unpacking
      an integer into a pair is a TypeError, raised as soon as there is one
      neighbour. */
  function BgpConfAsWritten(headerAs: int, routerId: string, selfName: string, peers: map<int, Peer>): Result<seq<string>>
  {
    if peers != map[] then Failure(TypeError) else BgpConf(headerAs, routerId, selfName, peers)
  }

  /** Where the seven sections of a bgpd.conf text sit, for n neighbours. */
  lemma Layout<T>(head: seq<T>, nl: seq<T>, bang: seq<T>, dl: seq<T>, open: seq<T>, al: seq<T>, tail: seq<T>, n: nat)
    requires |head| == 5 && |nl| == 2 * n && |bang| == 1 && |dl| == n && |open| == 4 && |al| == n && |tail| == 3
    ensures var r := head + (nl + (bang + (dl + (open + (al + tail)))));
      |r| == 13 + 4 * n && r[2] == head[2] && r[4] == head[4] &&
      r[7 + 3 * n] == open[1] && r[10 + 4 * n] == tail[0]
  {
  }

  /** The lines of neighbour i in a bgpd.conf text. */
  lemma LayoutAt<T>(head: seq<T>, nl: seq<T>, bang: seq<T>, dl: seq<T>, open: seq<T>, al: seq<T>, tail: seq<T>, n: nat, i: nat)
    requires |head| == 5 && |nl| == 2 * n && |bang| == 1 && |dl| == n && |open| == 4 && |al| == n && |tail| == 3
    requires i < n
    ensures var r := head + (nl + (bang + (dl + (open + (al + tail)))));
      r[5 + 2 * i] == nl[2 * i] && r[6 + 2 * i] == nl[2 * i + 1] &&
      r[6 + 2 * n + i] == dl[i] && r[10 + 3 * n + i] == al[i]
  {
  }

  /** The text of bgpd.conf for resolved neighbours es: the header names
      headerAs and the router id, and each of the three neighbour loops writes
      its lines once per neighbour, in order. */
  lemma BgpTextShape(headerAs: int, routerId: string, es: seq<Entry>)
    ensures |BgpText(headerAs, routerId, es)| == 13 + 4 * |es|
    ensures BgpText(headerAs, routerId, es)[2] == "router bgp " + IntToString(headerAs)
    ensures BgpText(headerAs, routerId, es)[4] == "bgp router-id " + routerId
    ensures BgpText(headerAs, routerId, es)[7 + 3 * |es|] == "address-family ipv6"
    ensures BgpText(headerAs, routerId, es)[10 + 4 * |es|] == "exit-address-family"
    ensures forall i :: 0 <= i < |es| ==>
      BgpText(headerAs, routerId, es)[5 + 2 * i] == RemoteAsLine(es[i]) &&
      BgpText(headerAs, routerId, es)[6 + 2 * i] == RouteMapReminder
    ensures forall i :: 0 <= i < |es| ==> BgpText(headerAs, routerId, es)[6 + 2 * |es| + i] == DeactivateLine(es[i])
    ensures forall i :: 0 <= i < |es| ==> BgpText(headerAs, routerId, es)[10 + 3 * |es| + i] == ActivateLine(es[i])
  {
    BgpTextFixed(headerAs, routerId, es);
    forall i | 0 <= i < |es|
      ensures BgpText(headerAs, routerId, es)[5 + 2 * i] == RemoteAsLine(es[i])
      ensures BgpText(headerAs, routerId, es)[6 + 2 * i] == RouteMapReminder
      ensures BgpText(headerAs, routerId, es)[6 + 2 * |es| + i] == DeactivateLine(es[i])
      ensures BgpText(headerAs, routerId, es)[10 + 3 * |es| + i] == ActivateLine(es[i])
    {
      BgpTextAt(headerAs, routerId, es, i);
    }
  }

  /** The lines of a bgpd.conf text that do not depend on the neighbours. */
  lemma BgpTextFixed(headerAs: int, routerId: string, es: seq<Entry>)
    ensures |BgpText(headerAs, routerId, es)| == 13 + 4 * |es|
    ensures BgpText(headerAs, routerId, es)[2] == "router bgp " + IntToString(headerAs)
    ensures BgpText(headerAs, routerId, es)[4] == "bgp router-id " + routerId
    ensures BgpText(headerAs, routerId, es)[7 + 3 * |es|] == "address-family ipv6"
    ensures BgpText(headerAs, routerId, es)[10 + 4 * |es|] == "exit-address-family"
  {
    var n := |es|;
    var nl := PairLines(es, RemoteAsLine, RouteMapLine);
    var dl := EachLine(es, DeactivateLine);
    var al := EachLine(es, ActivateLine);
    assert |nl| == 2 * n by { PairLinesShape(es, RemoteAsLine, RouteMapLine); }
    assert |dl| == n by { EachLineShape(es, DeactivateLine); }
    assert |al| == n by { EachLineShape(es, ActivateLine); }
    Layout(BgpHead(headerAs, routerId), nl, ["!"], dl, BgpFamilyOpen, al, BgpTail, n);
  }

  /** The three lines neighbour i contributes to a bgpd.conf text. */
  lemma BgpTextAt(headerAs: int, routerId: string, es: seq<Entry>, i: int)
    requires 0 <= i < |es|
    ensures |BgpText(headerAs, routerId, es)| == 13 + 4 * |es|
    ensures BgpText(headerAs, routerId, es)[5 + 2 * i] == RemoteAsLine(es[i])
    ensures BgpText(headerAs, routerId, es)[6 + 2 * i] == RouteMapReminder
    ensures BgpText(headerAs, routerId, es)[6 + 2 * |es| + i] == DeactivateLine(es[i])
    ensures BgpText(headerAs, routerId, es)[10 + 3 * |es| + i] == ActivateLine(es[i])
  {
    PairLinesAt(es, RemoteAsLine, RouteMapLine, i);
    EachLineAt(es, DeactivateLine, i);
    EachLineAt(es, ActivateLine, i);
    LayoutAt(BgpHead(headerAs, routerId), PairLines(es, RemoteAsLine, RouteMapLine), ["!"],
             EachLine(es, DeactivateLine), BgpFamilyOpen, EachLine(es, ActivateLine), BgpTail, |es|, i);
  }

  /** Resolving the neighbours in interface order succeeds exactly when
      every neighbour has an address back to selfName, and then gives, for
      each one, that address and its AS number. */
  lemma EntriesShape(peers: map<int, Peer>, selfName: string)
    ensures var found := Entries(peers, selfName);
      found.Success? <==> forall k :: k in peers ==> PeerAddress(peers[k], selfName).Some?
    ensures var found := Entries(peers, selfName);
      found.Failure? ==> found.fault == KeyError
    ensures var keys := SortedKeys(peers.Keys);
      var found := Entries(peers, selfName);
      found.Success? ==> |found.value| == |keys|
    ensures var keys := SortedKeys(peers.Keys);
      var found := Entries(peers, selfName);
      found.Success? ==> forall i :: 0 <= i < |found.value| ==>
        keys[i] in peers &&
        PeerAddress(peers[keys[i]], selfName) == Some(found.value[i].addr) &&
        found.value[i].remoteAs == peers[keys[i]].asNumber
  {
    var keys := SortedKeys(peers.Keys);
    var lookup := EntryOf(peers, selfName);
    var found := LookupAll(keys, lookup);
    LookupAllShape(keys, lookup);
    forall i | 0 <= i < |keys|
      ensures keys[i] in peers
      ensures lookup(keys[i]).Some? <==> PeerAddress(peers[keys[i]], selfName).Some?
      ensures lookup(keys[i]).Some? ==>
        lookup(keys[i]).value == Entry(PeerAddress(peers[keys[i]], selfName).value, peers[keys[i]].asNumber)
    {
      EntryOfAt(peers, selfName, keys[i]);
    }
    if found.Success? {
      forall k | k in peers ensures PeerAddress(peers[k], selfName).Some? {
        assert k in keys;
        var i :| 0 <= i < |keys| && keys[i] == k;
        assert lookup(keys[i]).Some?;
      }
    } else {
      var i :| 0 <= i < |keys| && lookup(keys[i]).None?;
      var k := keys[i];
      assert k in peers && PeerAddress(peers[k], selfName).None?;
    }
  }

  /** bgpd.conf is the text for the neighbours resolved in interface order
      (what each entry holds is EntriesShape's); it fails with a KeyError
      exactly when some neighbour has no address back to this router. */
  lemma BgpConfShape(headerAs: int, routerId: string, selfName: string, peers: map<int, Peer>)
    ensures BgpConf(headerAs, routerId, selfName, peers).Success? <==>
      forall k :: k in peers ==> PeerAddress(peers[k], selfName).Some?
    ensures BgpConf(headerAs, routerId, selfName, peers).Failure? ==>
      BgpConf(headerAs, routerId, selfName, peers).fault == KeyError
    ensures BgpConf(headerAs, routerId, selfName, peers).Success? ==>
      Entries(peers, selfName).Success? &&
      BgpConf(headerAs, routerId, selfName, peers).value == BgpText(headerAs, routerId, Entries(peers, selfName).value)
  {
    EntriesShape(peers, selfName);
  }

  /** As written, a router with at least one neighbour never gets a
      bgpd.conf, while the corrected loops give one whenever every neighbour
      has an address back to it. */
  lemma BgpAsWrittenFailsWithNeighbors(headerAs: int, routerId: string, selfName: string, peers: map<int, Peer>)
    requires peers != map[]
    ensures BgpConfAsWritten(headerAs, routerId, selfName, peers) == Failure(TypeError)
    ensures (forall k :: k in peers ==> PeerAddress(peers[k], selfName).Some?) ==>
            BgpConf(headerAs, routerId, selfName, peers).Success?
  {
    BgpConfShape(headerAs, routerId, selfName, peers);
  }
}
