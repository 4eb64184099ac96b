/** Router identifiers: dotted quads such as "0.0.0.1", handed out one after
    the other by an octet-carry successor rule. */
module RouterIds {
  import opened Outcomes
  import opened Decimal

  /** The four integers of a router id, o0 being the leftmost. */
  datatype Quad = Quad(o0: nat, o1: nat, o2: nat, o3: nat)

  /** The id given to the first router of a run. */
  const First: Quad := Quad(0, 0, 0, 1)

  /** The value at which an octet counts as full. */
  const Full: nat := 255

  /** ".".join(map(str, q)): splitting the text on '.' gives back the four
      decimal octets. */
  function Format(q: Quad): (s: string)
    ensures Split(s, '.') == [NatToString(q.o0), NatToString(q.o1), NatToString(q.o2), NatToString(q.o3)]
  {
    var parts := [NatToString(q.o0), NatToString(q.o1), NatToString(q.o2), NatToString(q.o3)];
    DigitsHaveNoDot(q.o0);
    DigitsHaveNoDot(q.o1);
    DigitsHaveNoDot(q.o2);
    DigitsHaveNoDot(q.o3);
    SplitJoin(parts, '.');
    Join(parts, '.')
  }

  /** map(int, s.split(".")) read as four integers; None when s does not split
      into exactly four decimal fields. */
  function Parse(s: string): (r: Option<Quad>)
    ensures r.Some? ==> |Split(s, '.')| == 4
  {
    var parts := Split(s, '.');
    if |parts| != 4 then None
    else match (ParseNat(parts[0]), ParseNat(parts[1]), ParseNat(parts[2]), ParseNat(parts[3]))
      case (Some(a), Some(b), Some(c), Some(d)) => Some(Quad(a, b, c, d))
      case _ => None
  }

  lemma DigitsHaveNoDot(n: nat)
    ensures '.' !in NatToString(n)
  {
  }

  /** Reading back a formatted id gives the same four octets. */
  lemma ParseFormat(q: Quad)
    ensures Parse(Format(q)) == Some(q)
  {
    ParseNatToString(q.o0);
    ParseNatToString(q.o1);
    ParseNatToString(q.o2);
    ParseNatToString(q.o3);
  }

  /** Different ids are written differently. */
  lemma FormatInjective(p: Quad, q: Quad)
    requires p != q
    ensures Format(p) != Format(q)
  {
    ParseFormat(p);
    ParseFormat(q);
  }

  /** The id that follows q. The carries are checked in the order o1, o2, o3,
      each against the value left by the previous check, and the last octet
      is increased only when it does not itself carry. Whatever carries
      happen, the step moves strictly forward. */
  function Succ(q: Quad): (r: Quad)
    ensures Before(q, r)
  {
    var (a1, b1) := if q.o1 >= Full then (q.o0 + 1, 0) else (q.o0, q.o1);
    var (b2, c2) := if q.o2 >= Full then (b1 + 1, 0) else (b1, q.o2);
    var (c3, d3) := if q.o3 >= Full then (c2 + 1, 0) else (c2, q.o3 + 1);
    Quad(a1, b2, c3, d3)
  }

  /** Strictly before, reading the octets left to right. */
  predicate Before(p: Quad, q: Quad)
  {
    p.o0 < q.o0
    || (p.o0 == q.o0 && p.o1 < q.o1)
    || (p.o0 == q.o0 && p.o1 == q.o1 && p.o2 < q.o2)
    || (p.o0 == q.o0 && p.o1 == q.o1 && p.o2 == q.o2 && p.o3 < q.o3)
  }

  lemma BeforeTransitive(p: Quad, q: Quad, r: Quad)
    requires Before(p, q) && Before(q, r)
    ensures Before(p, r)
  {
  }

  /** Without any full octet only the last one moves. */
  lemma SuccWithoutCarry(q: Quad)
    requires q.o1 < Full && q.o2 < Full && q.o3 < Full
    ensures Succ(q) == q.(o3 := q.o3 + 1)
  {
  }

  /** A full last octet wraps to 0 and carries into the third. */
  lemma SuccLastCarry(q: Quad)
    requires q.o1 < Full && q.o2 < Full && q.o3 == Full
    ensures Succ(q) == q.(o2 := q.o2 + 1, o3 := 0)
  {
  }

  /** Carries seen on concrete ids; the last one shows that the rule is not a
      base-256 counter: the third octet wraps to 0 and is then raised again
      by the carry out of the fourth. */
  lemma SuccSamples()
    ensures Succ(Quad(0, 0, 0, 254)) == Quad(0, 0, 0, 255)
    ensures Succ(Quad(0, 0, 0, 255)) == Quad(0, 0, 1, 0)
    ensures Succ(Quad(0, 0, 255, 255)) == Quad(0, 1, 1, 0)
    ensures Succ(Quad(0, 255, 1, 0)) == Quad(1, 0, 1, 1)
  {
  }

  /** The first two routers of a run are 0.0.0.1 and 0.0.0.2. */
  lemma FirstIds()
    ensures Format(First) == "0.0.0.1"
    ensures Format(Succ(First)) == "0.0.0.2"
  {
    assert NatToString(0) == "0" && NatToString(1) == "1" && NatToString(2) == "2";
    JoinFour("0", "0", "0", "1", '.');
    JoinFour("0", "0", "0", "2", '.');
  }

  /** Every octet is at most Full. */
  predicate Bounded(q: Quad)
  {
    q.o0 <= Full && q.o1 <= Full && q.o2 <= Full && q.o3 <= Full
  }

  /** Advancing an id whose first octet is not full keeps every octet within bounds. */
  lemma SuccBounded(q: Quad)
    requires Bounded(q) && q.o0 < Full
    ensures Bounded(Succ(q))
  {
  }

  /** The id after n steps from q. */
  function Nth(q: Quad, n: nat): Quad
  {
    if n == 0 then q else Succ(Nth(q, n - 1))
  }

  /** Ids handed out later come strictly later. */
  lemma {:induction false} NthAdvances(q: Quad, i: nat, j: nat)
    requires i < j
    ensures Before(Nth(q, i), Nth(q, j))
    decreases j
  {
    if i < j - 1 {
      NthAdvances(q, i, j - 1);
      BeforeTransitive(Nth(q, i), Nth(q, j - 1), Nth(q, j));
    }
  }

  /** No two routers of a run receive the same id text. */
  lemma {:induction false} NthDistinct(q: Quad, i: nat, j: nat)
    requires i != j
    ensures Format(Nth(q, i)) != Format(Nth(q, j))
  {
    if i < j { NthAdvances(q, i, j); } else { NthAdvances(q, j, i); }
    FormatInjective(Nth(q, i), Nth(q, j));
  }
}
