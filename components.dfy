/** The interface bookkeeping shared by every node of a Netkit lab: which
    interface numbers a node has, and for each one the zone (collision domain)
    and the neighbouring node it leads to. */
module Components {
  import opened Outcomes

  // ---------------------------------------------------------------------------
  // Sorting the interface list: list.sort(reverse=True) on integers
  // ---------------------------------------------------------------------------

  predicate Descending(s: seq<int>)
  {
    forall i, j :: 0 <= i < j < |s| ==> s[i] >= s[j]
  }

  /** A head no smaller than any later element keeps a list descending. */
  lemma DescendingCons(h: int, t: seq<int>)
    requires Descending(t)
    requires forall k :: 0 <= k < |t| ==> t[k] <= h
    ensures Descending([h] + t)
  {
    var r := [h] + t;
    forall i, j | 0 <= i < j < |r| ensures r[i] >= r[j] {
      assert r[j] == t[j - 1];
      if i > 0 { assert r[i] == t[i - 1]; }
    }
  }

  /** Inserting x below the head of a descending list puts nothing above that head. */
  lemma InsertedBelow(x: int, s: seq<int>, rest: seq<int>)
    requires Descending(s) && s != [] && x < s[0]
    requires multiset(rest) == multiset(s[1..]) + multiset{x}
    ensures forall k :: 0 <= k < |rest| ==> rest[k] <= s[0]
  {
    forall k | 0 <= k < |rest| ensures rest[k] <= s[0] {
      assert rest[k] in multiset(rest);
      if rest[k] != x {
        assert rest[k] in multiset(s[1..]);
        var j :| 1 <= j < |s| && s[j] == rest[k] by {
          var j' :| 0 <= j' < |s[1..]| && s[1..][j'] == rest[k];
          assert s[j' + 1] == rest[k];
        }
      }
    }
  }

  /** Places x into a descending list. */
  function Insert(x: int, s: seq<int>): (r: seq<int>)
    requires Descending(s)
    ensures Descending(r)
    ensures multiset(r) == multiset(s) + multiset{x}
  {
    if s == [] || x >= s[0] then [x] + s
    else
      var rest := Insert(x, s[1..]);
      assert s == [s[0]] + s[1..];
      assert multiset(s) == multiset{s[0]} + multiset(s[1..]);
      InsertedBelow(x, s, rest);
      DescendingCons(s[0], rest);
      assert multiset([s[0]] + rest) == multiset{s[0]} + multiset(rest);
      [s[0]] + rest
  }

  /** The list sorted in descending order. */
  function SortDescending(s: seq<int>): (r: seq<int>)
    ensures Descending(r)
    ensures multiset(r) == multiset(s)
  {
    if s == [] then []
    else
      assert s == [s[0]] + s[1..];
      Insert(s[0], SortDescending(s[1..]))
  }

  /** A descending permutation of a list of integers is unique, so
      SortDescending returns exactly what any correct sort returns. */
  lemma {:induction false} DescendingPermutationUnique(a: seq<int>, b: seq<int>)
    requires Descending(a) && Descending(b)
    requires multiset(a) == multiset(b)
    ensures a == b
  {
    if a != [] {
      assert |b| == |a| by { assert |multiset(a)| == |multiset(b)|; }
      assert a[0] in multiset(b);
      assert b[0] in multiset(a);
      assert a[0] == b[0];
      assert multiset(a) == multiset{a[0]} + multiset(a[1..]) by { assert a == [a[0]] + a[1..]; }
      assert multiset(b) == multiset{b[0]} + multiset(b[1..]) by { assert b == [b[0]] + b[1..]; }
      assert multiset(a[1..]) == multiset(b[1..]) by {
        assert multiset(a[1..]) == multiset(a) - multiset{a[0]};
        assert multiset(b[1..]) == multiset(b) - multiset{b[0]};
      }
      DescendingPermutationUnique(a[1..], b[1..]);
    } else {
      assert |b| == 0 by { assert |multiset(a)| == |multiset(b)|; }
    }
  }

  /** max(s). */
  function MaxOf(s: seq<int>): (m: int)
    requires |s| > 0
    ensures m in s
    ensures forall x :: x in s ==> x <= m
  {
    if |s| == 1 then s[0]
    else
      var rest := MaxOf(s[1..]);
      assert forall x :: x in s ==> x == s[0] || x in s[1..];
      if s[0] >= rest then s[0] else rest
  }

  /** After sorting in descending order the first element is the largest. */
  lemma SortedHeadIsMax(s: seq<int>)
    requires |s| > 0
    ensures |SortDescending(s)| == |s|
    ensures SortDescending(s)[0] == MaxOf(s)
  {
    var r := SortDescending(s);
    assert |r| == |s| by { assert |multiset(r)| == |multiset(s)|; }
    var m := MaxOf(s);
    assert r[0] <= m by {
      assert r[0] in multiset(s);
      assert r[0] in s;
    }
    assert m <= r[0] by {
      assert m in multiset(r);
      var j :| 0 <= j < |r| && r[j] == m;
      if j > 0 { assert r[0] >= r[j]; }
    }
  }

  /** Two lists holding the same elements with the same multiplicities hold the same set. */
  lemma SameElements(a: seq<int>, b: seq<int>)
    requires multiset(a) == multiset(b)
    ensures (set x | x in a) == (set x | x in b)
  {
    assert forall x :: x in a <==> x in multiset(a);
    assert forall x :: x in b <==> x in multiset(b);
  }

  /** What get_next_interface answers for a given interface list and expected
      interface count: 0 for a node without interfaces, otherwise one more than
      the largest interface if that is still below the count, else None. On a
      node that already has interfaces, an answer is new, above every existing
      interface and below the count, and None means the count is used up. */
  function NextInterface(ifaces: seq<int>, count: int): (r: Option<int>)
    ensures ifaces == [] ==> r == Some(0)
    ensures ifaces != [] ==> (r.Some? <==> MaxOf(ifaces) + 1 < count)
    ensures ifaces != [] && r.Some? ==>
      r.value < count && r.value !in ifaces && forall x :: x in ifaces ==> x < r.value
  {
    if ifaces == [] then Some(0)
    else if MaxOf(ifaces) + 1 < count then Some(MaxOf(ifaces) + 1)
    else None
  }

  // ---------------------------------------------------------------------------
  // Iterating a dictionary keyed by interface number
  // ---------------------------------------------------------------------------

  /** Every non-empty set has a member. */
  lemma Inhabited(s: set<int>)
    requires s != {}
    ensures exists y :: y in s
  {
    if forall y :: y !in s {
      assert false;
    }
  }

  predicate IsLeast(m: int, s: set<int>)
  {
    m in s && forall x :: x in s ==> m <= x
  }

  lemma {:induction false} LeastElement(s: set<int>) returns (m: int)
    requires s != {}
    ensures IsLeast(m, s)
    decreases |s|
  {
    Inhabited(s);
    var y :| y in s;
    var rest := s - {y};
    assert forall x :: x in s ==> x == y || x in rest;
    if rest == {} {
      m := y;
    } else {
      var n := LeastElement(rest);
      m := if y < n then y else n;
    }
  }

  lemma LeastExists(s: set<int>)
    requires s != {}
    ensures exists m :: IsLeast(m, s)
  {
    var m := LeastElement(s);
  }

  /** min(s) of a non-empty set of integers. */
  function Least(s: set<int>): (m: int)
    requires s != {}
    ensures IsLeast(m, s)
  {
    LeastExists(s);
    var m :| IsLeast(m, s);
    m
  }

  /** The keys of an integer-keyed dictionary in the order the loops of the
      generator visit them: ascending. */
  function SortedKeys(s: set<int>): (r: seq<int>)
    ensures |r| == |s|
    ensures forall x :: x in s <==> x in r
    decreases s
  {
    if s == {} then []
    else
      var m := Least(s);
      var tail := SortedKeys(s - {m});
      assert forall x :: x in s <==> x == m || x in s - {m};
      [m] + tail
  }

  /** SortedKeys lists the keys in strictly ascending order. */
  lemma {:induction false} SortedKeysAscending(s: set<int>)
    ensures forall i, j :: 0 <= i < j < |SortedKeys(s)| ==> SortedKeys(s)[i] < SortedKeys(s)[j]
    decreases s
  {
    if s != {} {
      var m := Least(s);
      var tail := SortedKeys(s - {m});
      SortedKeysAscending(s - {m});
      var r := SortedKeys(s);
      assert r == [m] + tail;
      forall i, j | 0 <= i < j < |r| ensures r[i] < r[j] {
        assert r[j] == tail[j - 1];
        assert tail[j - 1] in s - {m};
        if i > 0 {
          assert r[i] == tail[i - 1];
        }
      }
    }
  }

  /** The first key of keys (in that order) whose neighbour is called name. */
  function FirstNamed(keys: seq<int>, names: map<int, string>, name: string): (r: Option<int>)
    requires forall i :: 0 <= i < |keys| ==> keys[i] in names
    requires forall i, j :: 0 <= i < j < |keys| ==> keys[i] < keys[j]
    ensures r.Some? ==> r.value in keys && names[r.value] == name
    ensures r.Some? ==> forall i :: 0 <= i < |keys| && names[keys[i]] == name ==> r.value <= keys[i]
    ensures r.None? <==> forall i :: 0 <= i < |keys| ==> names[keys[i]] != name
  {
    if keys == [] then None
    else if names[keys[0]] == name then Some(keys[0])
    else FirstNamed(keys[1..], names, name)
  }

  /** The interface whose neighbour is called name, as get_interface_used_between
      finds it: the lowest such interface, or None when no neighbour has that name. */
  function InterfaceTowards(names: map<int, string>, name: string): (r: Option<int>)
    ensures r.Some? ==> r.value in names && names[r.value] == name
    ensures r.Some? ==> forall k :: k in names && names[k] == name ==> r.value <= k
    ensures r.None? <==> forall k :: k in names ==> names[k] != name
  {
    var keys := SortedKeys(names.Keys);
    assert forall k :: k in names ==> k in keys;
    SortedKeysAscending(names.Keys);
    FirstNamed(keys, names, name)
  }

  /** Any interface that is the lowest among those leading to name is the one
      InterfaceTowards picks. */
  lemma LeastMatch(names: map<int, string>, name: string, k: int)
    requires k in names && names[k] == name
    requires forall j :: j in names && names[j] == name ==> k <= j
    ensures InterfaceTowards(names, name) == Some(k)
  {
    var r := InterfaceTowards(names, name);
    assert r.Some?;
    assert r.value <= k && k <= r.value;
  }

  /** Walking the keys in order, the first match is InterfaceTowards' answer. */
  lemma FoundInOrder(names: map<int, string>, name: string, i: nat)
    requires i < |SortedKeys(names.Keys)|
    requires names[SortedKeys(names.Keys)[i]] == name
    requires forall j :: 0 <= j < i ==> names[SortedKeys(names.Keys)[j]] != name
    ensures InterfaceTowards(names, name) == Some(SortedKeys(names.Keys)[i])
  {
    var keys := SortedKeys(names.Keys);
    forall k | k in names && names[k] == name ensures keys[i] <= k {
      assert k in keys;
      var j :| 0 <= j < |keys| && keys[j] == k;
      assert !(j < i);
      if i < j { SortedKeysAscending(names.Keys); }
    }
    LeastMatch(names, name, keys[i]);
  }

  /** Walking all keys in order without a match means there is none. */
  lemma NotFoundInOrder(names: map<int, string>, name: string)
    requires forall j :: 0 <= j < |SortedKeys(names.Keys)| ==> names[SortedKeys(names.Keys)[j]] != name
    ensures InterfaceTowards(names, name) == None
  {
    var keys := SortedKeys(names.Keys);
    forall k | k in names ensures names[k] != name {
      assert k in keys;
      var j :| 0 <= j < |keys| && keys[j] == k;
    }
  }

  /** The name of the neighbour behind each interface of a neighbour map. */
  function NamesOf(m: map<int, NetkitComponent>): (names: map<int, string>)
    ensures names.Keys == m.Keys
    ensures forall k :: k in m ==> names[k] == m[k].name
  {
    map k | k in m :: m[k].name
  }

  /** A walk over the interfaces of m in key order that first meets a
      neighbour called name at position i finds InterfaceTowards' answer. */
  lemma SearchFound(m: map<int, NetkitComponent>, name: string, i: nat)
    requires i < |SortedKeys(m.Keys)| && SortedKeys(m.Keys)[i] in m
    requires m[SortedKeys(m.Keys)[i]].name == name
    requires forall j :: 0 <= j < i ==> SortedKeys(m.Keys)[j] in m && m[SortedKeys(m.Keys)[j]].name != name
    ensures InterfaceTowards(NamesOf(m), name) == Some(SortedKeys(m.Keys)[i])
  {
    var names := NamesOf(m);
    assert SortedKeys(names.Keys) == SortedKeys(m.Keys);
    FoundInOrder(names, name, i);
  }

  /** A walk over all interfaces of m without meeting name finds nothing. */
  lemma SearchMissed(m: map<int, NetkitComponent>, name: string)
    requires forall j :: 0 <= j < |SortedKeys(m.Keys)| ==> SortedKeys(m.Keys)[j] in m && m[SortedKeys(m.Keys)[j]].name != name
    ensures InterfaceTowards(NamesOf(m), name) == None
  {
    var names := NamesOf(m);
    assert SortedKeys(names.Keys) == SortedKeys(m.Keys);
    NotFoundInOrder(names, name);
  }

  /** InterfaceTowards on the names of a neighbour map speaks about the
      neighbours themselves. */
  lemma NamedNeighbor(m: map<int, NetkitComponent>, names: map<int, string>, name: string, r: Option<int>)
    requires names.Keys == m.Keys && forall k :: k in m ==> names[k] == m[k].name
    requires r == InterfaceTowards(names, name)
    ensures r.Some? ==> r.value in m && m[r.value].name == name
    ensures r.None? <==> forall k :: k in m ==> m[k].name != name
  {
  }

  // ---------------------------------------------------------------------------
  // The component itself
  // ---------------------------------------------------------------------------

  class NetkitComponent {
    /** The node's name; it never changes. */
    const name: string
    /** The interface numbers, in the order they were added (or last sorted). */
    var ifaces: seq<int>
    /** Interface number to zone, a collision-domain name such as "A0". */
    var ifZone: map<int, string>
    /** Interface number to the node at the other end of the link. */
    var ifNeighbor: map<int, NetkitComponent>
    /** Interface number to link weight, as text; filled in by the lab builder. */
    var weights: map<int, string>
    /** The number of interfaces the node is expected to have; set by the lab builder. */
    var nbrIf: int

    /** The interface list and both maps talk about the same interfaces. */
    ghost predicate Consistent()
      reads this
    {
      (set i | i in ifaces) == ifZone.Keys && ifZone.Keys == ifNeighbor.Keys
    }

    constructor (name: string)
      ensures this.name == name
      ensures ifaces == [] && ifZone == map[] && ifNeighbor == map[] && weights == map[]
      ensures nbrIf == 0
      ensures Consistent()
    {
      this.name := name;
      ifaces := [];
      ifZone := map[];
      ifNeighbor := map[];
      weights := map[];
      nbrIf := 0;
    }

    /** __cmp__: components compare by their expected interface count alone,
        with Python's cmp result -1, 0 or 1. */
    function Cmp(other: NetkitComponent): (r: int)
      reads this, other
      ensures r == -1 || r == 0 || r == 1
      ensures r < 0 <==> nbrIf < other.nbrIf
      ensures r == 0 <==> nbrIf == other.nbrIf
    {
      if nbrIf < other.nbrIf then -1 else if nbrIf == other.nbrIf then 0 else 1
    }

    /** Records one end of a link: interface i lies in zone and leads to neighbor. */
    method SetInterface(i: int, zone: string, neighbor: NetkitComponent)
      modifies this
      ensures ifZone == old(ifZone)[i := zone]
      ensures ifNeighbor == old(ifNeighbor)[i := neighbor]
      ensures ifaces == old(ifaces) + [i]
      ensures weights == old(weights) && nbrIf == old(nbrIf)
      ensures old(Consistent()) ==> Consistent()
    {
      ifZone := ifZone[i := zone];
      ifNeighbor := ifNeighbor[i := neighbor];
      ifaces := ifaces + [i];
    }

    /** The next interface number to hand out, bounded by nbrIf. As a side
        effect a non-empty interface list is left sorted in descending order. */
    method GetNextInterface() returns (r: Option<int>)
      modifies this`ifaces
      ensures r == NextInterface(old(ifaces), nbrIf)
      ensures old(ifaces) == [] ==> ifaces == []
      ensures old(ifaces) != [] ==> ifaces == SortDescending(old(ifaces))
      ensures multiset(ifaces) == multiset(old(ifaces))
      ensures old(Consistent()) ==> Consistent()
    {
      var current := ifaces;
      if current == [] {
        return Some(0);
      }
      var sorted := SortDescending(current);
      SortedHeadIsMax(current);
      SameElements(current, sorted);
      var top := sorted[0];
      if top + 1 < nbrIf {
        r := Some(top + 1);
      } else {
        r := None;
      }
      ifaces := sorted;
    }

    /** The interface that leads to the neighbour called neighborName, looked up
        by walking the neighbour map in key order and stopping at the first match. */
    method GetInterfaceUsedBetween(neighborName: string) returns (r: Option<int>)
      ensures r == InterfaceTowards(NamesOf(ifNeighbor), neighborName)
      ensures r.Some? ==> r.value in ifNeighbor && ifNeighbor[r.value].name == neighborName
      ensures r.None? <==> forall k :: k in ifNeighbor ==> ifNeighbor[k].name != neighborName
      ensures Consistent() && r.Some? ==> r.value in ifaces
    {
      var m := ifNeighbor;
      var keys := SortedKeys(m.Keys);
      var i := 0;
      while i < |keys|
        invariant 0 <= i <= |keys|
        invariant forall j :: 0 <= j < i ==> keys[j] in m && m[keys[j]].name != neighborName
      {
        var key := keys[i];
        assert key in m;
        if m[key].name == neighborName {
          SearchFound(m, neighborName, i);
          assert Consistent() ==> key in ifaces by {
            if Consistent() {
              assert key in (set x | x in ifaces);
            }
          }
          r := Some(key);
          NamedNeighbor(m, NamesOf(m), neighborName, r);
          return;
        }
        i := i + 1;
      }
      SearchMissed(m, neighborName);
      r := None;
      NamedNeighbor(m, NamesOf(m), neighborName, r);
    }
  }

  /** __cmp__ is antisymmetric and transitive, so it orders components. */
  lemma CmpIsOrdering(a: NetkitComponent, b: NetkitComponent, c: NetkitComponent)
    ensures a.Cmp(b) == -b.Cmp(a)
    ensures a.Cmp(b) <= 0 && b.Cmp(c) <= 0 ==> a.Cmp(c) <= 0
  {
  }
}
