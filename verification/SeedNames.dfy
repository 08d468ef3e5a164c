/**
 The names of racks and of seed nodes. The name of a rack in the cluster joins the names of its datacenter
 and of the rack, and is empty when that is not a DNS label; the name of a seed adds the ordinal of the pod.
 */
module SeedNames {

  /** A datacenter: its racks, and its own number of nodes in a rack, if it has one. */
  datatype DC = DC(name: string, racks: seq<string>, nodesPerRacks: Option<int>)

  datatype Cluster = Cluster(name: string, namespace: string, nodesPerRacks: int, dcs: seq<DC>)

  import opened Options

  predicate IsAlphanumeric(x: char) {
    'a' <= x <= 'z' || '0' <= x <= '9'
  }

  /** A letter, then letters, digits and dashes, and no dash at the end. */
  predicate IsLabel(s: string) {
    && s != ""
    && 'a' <= s[0] <= 'z'
    && (forall i :: 0 <= i < |s| ==> IsAlphanumeric(s[i]) || s[i] == '-')
    && s[|s| - 1] != '-'
  }

  function DCRackName(dc: string, rack: string): string {
    var name := dc + "-" + rack;
    if IsLabel(name) then name else ""
  }

  function Decimal(n: nat): (s: string)
    ensures |s| > 0
    ensures forall k :: 0 <= k < |s| ==> '0' <= s[k] <= '9'
  {
    var digit := ["0123456789"[n % 10]];
    if n < 10 then digit else Decimal(n / 10) + digit
  }

  function SeedName(c: Cluster, dc: string, rack: string, ordinal: nat): string {
    c.name + "-" + DCRackName(dc, rack) + "-" + Decimal(ordinal) + "." + c.name + "." + c.namespace
  }

  /** Names that the cluster accepts have no dash; here they also make a DNS label together. */
  predicate WellNamedDC(dc: DC) {
    && '-' !in dc.name
    && (forall r :: 0 <= r < |dc.racks| ==> '-' !in dc.racks[r] && IsLabel(dc.name + "-" + dc.racks[r]))
    && (forall r, q :: 0 <= r < q < |dc.racks| ==> dc.racks[r] != dc.racks[q])
  }

  /** Every datacenter has racks, and its name and theirs are valid and distinct. */
  predicate WellNamed(c: Cluster) {
    && (forall d :: 0 <= d < |c.dcs| ==> c.dcs[d].racks != [] && WellNamedDC(c.dcs[d]))
    && (forall d, e :: 0 <= d < e < |c.dcs| ==> c.dcs[d].name != c.dcs[e].name)
  }

  // Names can be taken apart.

  lemma CutAtDash(a: string, x: string, b: string, y: string)
    requires '-' !in a && '-' !in b
    requires a + "-" + x == b + "-" + y
    ensures a == b && x == y
  {
    var s := a + "-" + x;
    assert s[|a|] == '-' && s[|b|] == '-';
    assert forall k :: 0 <= k < |a| ==> s[k] == a[k];
    assert forall k :: 0 <= k < |b| ==> s[k] == b[k];
    assert |a| == |b|;
    assert a == s[..|a|] && b == s[..|b|];
    assert x == s[|a| + 1..] && y == s[|b| + 1..];
  }

  lemma DropEnd(a: string, b: string, end: string)
    requires a + end == b + end
    ensures a == b
  {
    assert |a| == |b|;
    assert a == (a + end)[..|a|] && b == (b + end)[..|b|];
  }

  lemma {:induction false} DecimalIsExact(n: nat, m: nat)
    requires Decimal(n) == Decimal(m)
    ensures n == m
    decreases n
  {
    var s := Decimal(n);
    assert s[|s| - 1] == "0123456789"[n % 10] == "0123456789"[m % 10];
    assert n % 10 == m % 10;
    if n >= 10 {
      assert m >= 10;
      DropEnd(Decimal(n / 10), Decimal(m / 10), ["0123456789"[n % 10]]);
      DecimalIsExact(n / 10, m / 10);
    }
  }

  lemma RackNameIsExact(dc: string, rack: string, dc': string, rack': string)
    requires '-' !in dc && '-' !in dc' && IsLabel(dc + "-" + rack)
    requires DCRackName(dc, rack) == DCRackName(dc', rack')
    ensures dc == dc' && rack == rack'
  {
    CutAtDash(dc, rack, dc', rack');
  }

  lemma SeedNameParts(c: Cluster, dc: string, rack: string, i: nat)
    requires IsLabel(dc + "-" + rack)
    ensures SeedName(c, dc, rack, i) == ((c.name + "-") + (dc + "-" + (rack + "-" + Decimal(i)))) + ("." + c.name + "." + c.namespace)
  {
    hide Decimal, IsLabel;
    var digits := Decimal(i);
    assert dc + "-" + (rack + "-" + digits) == (dc + "-" + rack) + "-" + digits;
    assert ((c.name + "-") + ((dc + "-" + rack) + "-" + digits)) + ("." + c.name + "." + c.namespace)
        == c.name + "-" + (dc + "-" + rack) + "-" + digits + "." + c.name + "." + c.namespace;
  }

  /** The name of a seed tells its datacenter, its rack and its ordinal. */
  lemma SeedNameIsExact(c: Cluster, dc: string, rack: string, i: nat, dc': string, rack': string, i': nat)
    requires '-' !in dc && '-' !in rack && '-' !in dc' && '-' !in rack'
    requires IsLabel(dc + "-" + rack) && IsLabel(dc' + "-" + rack')
    requires SeedName(c, dc, rack, i) == SeedName(c, dc', rack', i')
    ensures dc == dc' && rack == rack' && i == i'
  {
    hide Decimal, SeedName, IsLabel;
    var start, end := c.name + "-", "." + c.name + "." + c.namespace;
    var x, y := rack + "-" + Decimal(i), rack' + "-" + Decimal(i');
    var p, q := dc + "-" + x, dc' + "-" + y;
    SeedNameParts(c, dc, rack, i);
    SeedNameParts(c, dc', rack', i');
    DropEnd(start + p, start + q, end);
    assert p == (start + p)[|start|..] == q;
    CutAtDash(dc, x, dc', y);
    CutAtDash(rack, Decimal(i), rack', Decimal(i'));
    DecimalIsExact(i, i');
  }

  lemma SeedHasNoComma(c: Cluster, dc: string, rack: string, i: nat)
    requires ',' !in c.name && ',' !in c.namespace
    ensures ',' !in SeedName(c, dc, rack, i)
  {
    assert ',' !in DCRackName(dc, rack);
  }
}
