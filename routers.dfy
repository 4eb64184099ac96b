/** The routers of a lab: the counters every router shares, and a router
    that draws its id and AS number from them and writes its files. */
module Routers {
  import opened Outcomes
  import opened Components
  import opened RouterIds
  import opened QuaggaConf

  /** Router.As and Router.Rid, the class-wide counters shared by every
      router of a run. */
  class Allocator {
    /** The AS number the next router receives. */
    var nextAs: int
    /** The router id the next router receives, as text. */
    var rid: string

    /** The id text always reads back as four octets of at most Full, and
        AS numbers start at 1. */
    ghost predicate Valid()
      reads this
    {
      Parse(rid).Some? && Bounded(Parse(rid).value) && nextAs >= 1
    }

    /** The four octets of the id the next router receives. */
    function Current(): Quad
      reads this
      requires Valid()
    {
      Parse(rid).value
    }

    constructor ()
      ensures nextAs == 1 && rid == Format(First)
      ensures Valid() && Current() == First
    {
      var text := Format(First);
      ParseFormat(First);
      nextAs := 1;
      rid := text;
    }
  }

  /** The three files of an etc/quagga directory: daemons, zebra.conf and
      the protocol's own configuration file. */
  datatype QuaggaDir = QuaggaDir(daemons: seq<string>, zebra: seq<string>, conf: seq<string>)

  /** What the BGP emitter reads of a neighbouring router. */
  function PeerOf(r: Router): Peer
    reads r, r.node
  {
    Peer(r.asNumber, r.ipv6, NamesOf(r.node.ifNeighbor))
  }

  /** The routers of peers are the nodes of the neighbour map, interface by
      interface. */
  predicate RoutersBehind(peers: map<int, Router>, neighbors: map<int, NetkitComponent>)
  {
    (map k | k in peers :: peers[k].node) == neighbors
  }

  /** The BGP view of every neighbour, keyed by this router's interface. */
  function PeerViews(peers: map<int, Router>): (views: map<int, Peer>)
    reads set k | k in peers :: peers[k]
    reads set k | k in peers :: peers[k].node
    ensures views.Keys == peers.Keys
    ensures forall k :: k in peers ==> views[k].asNumber == peers[k].asNumber && views[k].ipv6 == peers[k].ipv6
  {
    map k | k in peers :: PeerOf(peers[k])
  }

  /** When peers holds the routers of a neighbour map, the BGP views cover
      exactly its interfaces and read each neighbour's own names of its
      neighbours. */
  lemma ViewsOfNeighbors(peers: map<int, Router>, neighbors: map<int, NetkitComponent>)
    requires RoutersBehind(peers, neighbors)
    ensures PeerViews(peers).Keys == neighbors.Keys
    ensures forall k :: k in neighbors ==> PeerViews(peers)[k].neighborNames == NamesOf(neighbors[k].ifNeighbor)
  {
    forall k | k in neighbors ensures k in peers && peers[k].node == neighbors[k] {
      assert (map k | k in peers :: peers[k].node)[k] == neighbors[k];
    }
  }

  /** The directory of a BGP router, or the KeyError its emitter raises. */
  function BgpDir(headerAs: int, routerId: string, selfName: string, peers: map<int, Peer>): Result<QuaggaDir>
  {
    match BgpConf(headerAs, routerId, selfName, peers)
    case Failure(f) => Failure(f)
    case Success(conf) => Success(QuaggaDir(Daemons(Bgp), ZebraConf(), conf))
  }

  class Router {
    /** The NetkitComponent part of the router: name, interfaces, neighbours, weights. */
    const node: NetkitComponent
    /** attr['as']: 0 until define_as runs. */
    var asNumber: int
    /** attr['router-id']: empty until define_router_id runs. */
    var routerId: string
    /** attr['map_IF_ipv6']: interface to IPv6 address, bound by the lab builder. */
    var ipv6: map<int, string>

    constructor (name: string)
      ensures fresh(node) && node.name == name
      ensures node.ifaces == [] && node.ifZone == map[] && node.ifNeighbor == map[]
      ensures node.weights == map[] && node.nbrIf == 0 && node.Consistent()
      ensures asNumber == 0 && routerId == "" && ipv6 == map[]
    {
      node := new NetkitComponent(name);
      asNumber := 0;
      routerId := "";
      ipv6 := map[];
    }

    /** Takes the shared id for this router and advances the shared id by
        the carry rule. When the first octet is already full the guard calls
        printf, which is not a Python name, so the step stops with a NameError
        after the router has taken the id and before the shared id moves. */
    method DefineRouterId(alloc: Allocator) returns (r: Result<()>)
      requires alloc.Valid()
      modifies this, alloc
      ensures alloc.Valid()
      ensures routerId == old(alloc.rid)
      ensures asNumber == old(asNumber) && ipv6 == old(ipv6) && alloc.nextAs == old(alloc.nextAs)
      ensures r.Failure? <==> old(alloc.Current()).o0 >= Full
      ensures r.Failure? ==> r.fault == NameError && alloc.rid == old(alloc.rid)
      ensures r.Success? ==> alloc.Current() == Succ(old(alloc.Current()))
      ensures r.Success? ==> alloc.rid == Format(alloc.Current())
    {
      var text := alloc.rid;
      routerId := text;
      var q := Parse(text).value;
      var temp := [q.o0, q.o1, q.o2, q.o3];
      if temp[0] >= Full {
        return Failure(NameError);
      }
      if temp[1] >= Full {
        temp := temp[1 := 0];
        temp := temp[0 := temp[0] + 1];
      }
      if temp[2] >= Full {
        temp := temp[2 := 0];
        temp := temp[1 := temp[1] + 1];
      }
      if temp[3] >= Full {
        temp := temp[3 := 0];
        temp := temp[2 := temp[2] + 1];
      } else {
        temp := temp[3 := temp[3] + 1];
      }
      var next := Quad(temp[0], temp[1], temp[2], temp[3]);
      assert next == Succ(q);
      SuccBounded(q);
      ParseFormat(next);
      var nextText := Format(next);
      alloc.rid := nextText;
      r := Success(());
    }

    /** Takes the shared AS number for this router and advances it by one. */
    method DefineAs(alloc: Allocator)
      requires alloc.Valid()
      modifies this, alloc
      ensures alloc.Valid()
      ensures asNumber == old(alloc.nextAs) && alloc.nextAs == old(alloc.nextAs) + 1
      ensures alloc.rid == old(alloc.rid)
      ensures routerId == old(routerId) && ipv6 == old(ipv6)
    {
      asNumber := alloc.nextAs;
      alloc.nextAs := alloc.nextAs + 1;
    }

    /** The startup script: two lines per interface in list order, then the
        forwarding lines; a KeyError at the first interface without an address. */
    method FillStartupFile() returns (r: Result<seq<string>>)
      ensures r.Success? <==> forall i :: 0 <= i < |node.ifaces| ==> node.ifaces[i] in ipv6
      ensures r.Failure? ==> r.fault == KeyError
      ensures r.Success? ==> Startup(node.ifaces, ipv6) == r
    {
      var ifaces := node.ifaces;
      var lines: seq<string> := [];
      ghost var up: seq<Addressed> := [];
      var i := 0;
      while i < |ifaces|
        invariant 0 <= i <= |ifaces|
        invariant LookupAll(ifaces[..i], AddressOf(ipv6)) == Success(up)
        invariant lines == PairLines(up, IfUpLine, IfAddLine)
      {
        var iface := ifaces[i];
        if iface !in ipv6 {
          StartupShape(ifaces, ipv6);
          return Failure(KeyError);
        }
        var a := Addressed(iface, ipv6[iface]);
        LookupAllSnoc(ifaces[..i], iface, AddressOf(ipv6));
        PairLinesSnoc(up, a, IfUpLine, IfAddLine);
        assert ifaces[..i + 1] == ifaces[..i] + [iface];
        up := up + [a];
        lines := lines + [IfUpLine(a), IfAddLine(a)];
        i := i + 1;
      }
      assert ifaces[..i] == ifaces;
      StartupShape(ifaces, ipv6);
      lines := lines + ForwardingLines;
      r := Success(lines);
    }

    /** create_ospf_dir: draws an id and an AS number, then writes daemons
        (ospf6d on), zebra.conf and ospf6d.conf with the new router id. */
    method CreateOspfDir(alloc: Allocator) returns (r: Result<QuaggaDir>)
      requires alloc.Valid()
      modifies this, alloc
      ensures alloc.Valid()
      ensures routerId == old(alloc.rid) && ipv6 == old(ipv6)
      ensures r.Failure? <==> old(alloc.Current()).o0 >= Full
      ensures r.Failure? ==> r.fault == NameError && alloc.rid == old(alloc.rid)
      ensures r.Failure? ==> asNumber == old(asNumber) && alloc.nextAs == old(alloc.nextAs)
      ensures r.Success? ==> asNumber == old(alloc.nextAs) && alloc.nextAs == asNumber + 1
      ensures r.Success? ==> alloc.Current() == Succ(old(alloc.Current()))
      ensures r.Success? ==> alloc.rid == Format(alloc.Current())
      ensures r.Success? ==>
        r.value == QuaggaDir(Daemons(Ospf6), ZebraConf(), Ospf6dConf(node.weights, routerId, node.ifaces))
    {
      var status := DefineRouterId(alloc);
      if status.Failure? {
        return Failure(status.fault);
      }
      DefineAs(alloc);
      r := Success(QuaggaDir(Daemons(Ospf6), ZebraConf(), Ospf6dConf(node.weights, routerId, node.ifaces)));
    }

    /** create_ripng_dir: draws an id and an AS number, then writes daemons
        (ripngd on), zebra.conf and ripngd.conf. */
    method CreateRipngDir(alloc: Allocator) returns (r: Result<QuaggaDir>)
      requires alloc.Valid()
      modifies this, alloc
      ensures alloc.Valid()
      ensures routerId == old(alloc.rid) && ipv6 == old(ipv6)
      ensures r.Failure? <==> old(alloc.Current()).o0 >= Full
      ensures r.Failure? ==> r.fault == NameError && alloc.rid == old(alloc.rid)
      ensures r.Failure? ==> asNumber == old(asNumber) && alloc.nextAs == old(alloc.nextAs)
      ensures r.Success? ==> asNumber == old(alloc.nextAs) && alloc.nextAs == asNumber + 1
      ensures r.Success? ==> alloc.Current() == Succ(old(alloc.Current()))
      ensures r.Success? ==> alloc.rid == Format(alloc.Current())
      ensures r.Success? ==> r.value == QuaggaDir(Daemons(Ripng), ZebraConf(), RipngdConf())
    {
      var status := DefineRouterId(alloc);
      if status.Failure? {
        return Failure(status.fault);
      }
      DefineAs(alloc);
      r := Success(QuaggaDir(Daemons(Ripng), ZebraConf(), RipngdConf()));
    }

    /** create_bgp_dir: draws an id and an AS number, then writes daemons
        (bgpd on), zebra.conf and bgpd.conf. The "router bgp" line prints the
        shared counter, which by then is one past this router's own AS
        number. peers holds the Router behind each neighbour interface
        (RoutersBehind), each read as it is when the file is written, so the
        BGP views cover exactly this router's neighbour interfaces. */
    method CreateBgpDir(alloc: Allocator, peers: map<int, Router>) returns (r: Result<QuaggaDir>)
      requires alloc.Valid()
      requires RoutersBehind(peers, node.ifNeighbor)
      modifies this, alloc
      ensures alloc.Valid()
      ensures routerId == old(alloc.rid) && ipv6 == old(ipv6)
      ensures old(alloc.Current()).o0 >= Full ==> r == Failure(NameError)
      ensures old(alloc.Current()).o0 >= Full ==>
        asNumber == old(asNumber) && alloc.nextAs == old(alloc.nextAs) && alloc.rid == old(alloc.rid)
      ensures old(alloc.Current()).o0 < Full ==>
        asNumber == old(alloc.nextAs) && alloc.nextAs == asNumber + 1 &&
        alloc.Current() == Succ(old(alloc.Current()))
      ensures old(alloc.Current()).o0 < Full ==> alloc.rid == Format(alloc.Current())
      ensures old(alloc.Current()).o0 < Full ==>
        r == BgpDir(asNumber + 1, routerId, node.name, PeerViews(peers))
      ensures PeerViews(peers).Keys == node.ifNeighbor.Keys
    {
      var status := DefineRouterId(alloc);
      if status.Failure? {
        r := Failure(status.fault);
      } else {
        DefineAs(alloc);
        var header := alloc.nextAs;
        assert header == asNumber + 1;
        r := BgpDir(header, routerId, node.name, PeerViews(peers));
      }
      assert PeerViews(peers).Keys == node.ifNeighbor.Keys by {
        ViewsOfNeighbors(peers, node.ifNeighbor);
      }
    }
  }

  /** Two routers of a fresh run, each set up by create_ospf_dir, receive the
      ids 0.0.0.1 and 0.0.0.2 and the AS numbers 1 and 2. */
  method FirstTwoOspfRouters() returns (first: Router, second: Router)
    ensures first.routerId == "0.0.0.1" && first.asNumber == 1
    ensures second.routerId == "0.0.0.2" && second.asNumber == 2
  {
    var alloc := new Allocator();
    first := new Router("r1");
    second := new Router("r2");
    var r1 := first.CreateOspfDir(alloc);
    assert first.routerId == Format(First) && alloc.Current() == Succ(First);
    var r2 := second.CreateOspfDir(alloc);
    assert second.routerId == Format(Succ(First));
    FirstIds();
  }
}
