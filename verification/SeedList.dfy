/** Choosing the seed nodes of a cluster: three in every datacenter, spread over its racks. */
module SeedList {
  import opened SeedNames

  const DEFAULT_DC := "dc1"
  const DEFAULT_RACK := "rack1"

  function Min(a: int, b: int): int {
    if a < b then a else b
  }

  /** The nodes in each rack of a datacenter: its own number, or that of the cluster. */
  function OwnNodes(c: Cluster, d: nat): int
    requires d < |c.dcs|
  {
    match c.dcs[d].nodesPerRacks
    case None => c.nodesPerRacks
    case Some(n) => n
  }

  /** A rack of the datacenter has this name. */
  predicate Names(c: Cluster, d: nat, name: string)
    requires d < |c.dcs|
  {
    exists r :: 0 <= r < |c.dcs[d].racks| && DCRackName(c.dcs[d].name, c.dcs[d].racks[r]) == name
  }

  /** The nodes of the named rack, looked for from datacenter d on; a datacenter without racks ends the search. */
  function NodesFound(c: Cluster, name: string, d: nat): int
    requires d <= |c.dcs|
    decreases |c.dcs| - d
  {
    if d == |c.dcs| || c.dcs[d].racks == [] then c.nodesPerRacks
    else if Names(c, d, name) then OwnNodes(c, d)
    else NodesFound(c, name, d + 1)
  }

  method GetNodesPerRacks(c: Cluster, name: string) returns (n: int)
    ensures n == NodesFound(c, name, 0)
  {
    for d := 0 to |c.dcs|
      invariant NodesFound(c, name, 0) == NodesFound(c, name, d)
    {
      var racks := c.dcs[d].racks;
      if |racks| < 1 {
        return c.nodesPerRacks;
      }
      for r := 0 to |racks|
        invariant forall q :: 0 <= q < r ==> DCRackName(c.dcs[d].name, racks[q]) != name
      {
        if name == DCRackName(c.dcs[d].name, racks[r]) {
          return OwnNodes(c, d);
        }
      }
    }
    n := c.nodesPerRacks;
  }

  /** With valid names the search finds the number of the datacenter itself. */
  lemma {:induction false} NodesFoundAreOwn(c: Cluster, d: nat, r: nat, from: nat)
    requires WellNamed(c) && from <= d < |c.dcs| && r < |c.dcs[d].racks|
    ensures NodesFound(c, DCRackName(c.dcs[d].name, c.dcs[d].racks[r]), from) == OwnNodes(c, d)
    decreases d - from
  {
    var name := DCRackName(c.dcs[d].name, c.dcs[d].racks[r]);
    if from == d {
      assert Names(c, d, name);
    } else {
      assert WellNamedDC(c.dcs[d]) && WellNamedDC(c.dcs[from]);
      if q :| 0 <= q < |c.dcs[from].racks| && DCRackName(c.dcs[from].name, c.dcs[from].racks[q]) == name {
        RackNameIsExact(c.dcs[d].name, c.dcs[d].racks[r], c.dcs[from].name, c.dcs[from].racks[q]);
      }
      assert !Names(c, from, name);
      NodesFoundAreOwn(c, d, r, from + 1);
    }
  }

  // The seeds, rack by rack.

  /** The first ordinals of a rack, as seeds. */
  function Ordinals(c: Cluster, dc: string, rack: string, n: nat): (s: seq<string>)
    ensures |s| == n
  {
    seq(n, i requires 0 <= i < n => SeedName(c, dc, rack, i))
  }

  /** How many seeds a rack gives, when its datacenter has `racks` racks and gave `count` seeds before. */
  function Share(racks: nat, nodes: int, count: nat): nat
    requires count <= 3
  {
    if racks > 2 then (if count < 3 then 1 else 0)
    else if nodes < 0 then 0
    else Min(nodes, Min(4 - racks, 3 - count))
  }

  function RackNodes(c: Cluster, d: nat, r: nat): int
    requires d < |c.dcs| && r < |c.dcs[d].racks|
  {
    NodesFound(c, DCRackName(c.dcs[d].name, c.dcs[d].racks[r]), 0)
  }

  function RackSeeds(c: Cluster, d: nat, r: nat, count: nat): seq<string>
    requires d < |c.dcs| && r <= |c.dcs[d].racks| && count <= 3
    decreases |c.dcs[d].racks| - r
  {
    var racks := c.dcs[d].racks;
    if r == |racks| then []
    else
      var k := Share(|racks|, RackNodes(c, d, r), count);
      Ordinals(c, c.dcs[d].name, racks[r], k) + RackSeeds(c, d, r + 1, count + k)
  }

  /** The seeds in a rack that was not asked for by name. */
  function DefaultSeeds(c: Cluster, dc: string): seq<string> {
    Ordinals(c, dc, DEFAULT_RACK, if c.nodesPerRacks < 0 then 0 else Min(c.nodesPerRacks, 3))
  }

  function DCSeeds(c: Cluster, d: nat): seq<string>
    requires d < |c.dcs|
  {
    if c.dcs[d].racks == [] then DefaultSeeds(c, c.dcs[d].name) else RackSeeds(c, d, 0, 0)
  }

  function SeedsFrom(c: Cluster, d: nat): seq<string>
    requires d <= |c.dcs|
    decreases |c.dcs| - d
  {
    if d == |c.dcs| then [] else DCSeeds(c, d) + SeedsFrom(c, d + 1)
  }

  function Seeds(c: Cluster): seq<string> {
    if c.dcs == [] then DefaultSeeds(c, DEFAULT_DC) else SeedsFrom(c, 0)
  }

  // The loops that choose them.

  method AddDefaultSeeds(c: Cluster, seeds: seq<string>, dc: string) returns (all: seq<string>)
    ensures all == seeds + DefaultSeeds(c, dc)
  {
    all := seeds;
    var i := 0;
    while i < c.nodesPerRacks && i < 3
      invariant 0 <= i <= 3 && (i <= c.nodesPerRacks || i == 0)
      invariant all == seeds + Ordinals(c, dc, DEFAULT_RACK, i)
    {
      all := all + [SeedName(c, dc, DEFAULT_RACK, i)];
      i := i + 1;
    }
  }

  method AddRackSeeds(c: Cluster, seeds: seq<string>, d: nat, r: nat, count: nat) returns (all: seq<string>, count': nat)
    requires d < |c.dcs| && r < |c.dcs[d].racks| && count <= 3
    ensures count' == count + Share(|c.dcs[d].racks|, RackNodes(c, d, r), count)
    ensures all == seeds + Ordinals(c, c.dcs[d].name, c.dcs[d].racks[r], count' - count)
  {
    all, count' := seeds, count;
    var dc, rack, size := c.dcs[d].name, c.dcs[d].racks[r], |c.dcs[d].racks|;
    var nodes := GetNodesPerRacks(c, DCRackName(dc, rack));
    if size == 1 || size == 2 {
      var i := 0;
      while i < nodes && i < 4 - size && count' < 3
        invariant 0 <= i <= 4 - size && (i <= nodes || i == 0) && count' == count + i <= 3
        invariant all == seeds + Ordinals(c, dc, rack, i)
      {
        all := all + [SeedName(c, dc, rack, i)];
        count' := count' + 1;
        i := i + 1;
      }
    } else {
      if count' < 3 {
        all := all + [SeedName(c, dc, rack, 0)];
        count' := count' + 1;
      }
    }
  }

  method AddDCSeeds(c: Cluster, seeds: seq<string>, d: nat) returns (all: seq<string>)
    requires d < |c.dcs|
    ensures all == seeds + DCSeeds(c, d)
  {
    hide NodesFound, Ordinals, DefaultSeeds;
    if |c.dcs[d].racks| < 1 {
      all := AddDefaultSeeds(c, seeds, c.dcs[d].name);
    } else {
      all := seeds;
      var count := 0;
      for r := 0 to |c.dcs[d].racks|
        invariant count <= 3
        invariant all + RackSeeds(c, d, r, count) == seeds + DCSeeds(c, d)
      {
        all, count := AddRackSeeds(c, all, d, r, count);
      }
    }
  }

  method InitSeedList(c: Cluster) returns (seeds: seq<string>)
    ensures seeds == Seeds(c)
  {
    hide DCSeeds;
    seeds := [];
    if |c.dcs| < 1 {
      seeds := AddDefaultSeeds(c, seeds, DEFAULT_DC);
      return;
    }
    for d := 0 to |c.dcs|
      invariant seeds + SeedsFrom(c, d) == Seeds(c)
    {
      seeds := AddDCSeeds(c, seeds, d);
    }
  }

  // Every datacenter gets as many seeds as it can, up to three.

  /** The seed names a pod of the datacenter, in a rack from r on. */
  ghost predicate NamesPod(c: Cluster, d: nat, from: nat, seed: string)
    requires d < |c.dcs|
  {
    exists r: nat, i: nat :: from <= r < |c.dcs[d].racks| && i < OwnNodes(c, d) && seed == SeedName(c, c.dcs[d].name, c.dcs[d].racks[r], i)
  }

  ghost predicate Distinct(s: seq<string>) {
    forall i, j :: 0 <= i < j < |s| ==> s[i] != s[j]
  }

  lemma DistinctTogether(s: seq<string>, t: seq<string>)
    requires Distinct(s) && Distinct(t) && forall x :: x in t ==> x !in s
    ensures Distinct(s + t)
  {
    forall i, j | 0 <= i < j < |s + t| ensures (s + t)[i] != (s + t)[j] {
      if i < |s| <= j { assert t[j - |s|] in t; }
    }
  }

  /** How many seeds the racks from r on give. */
  function Total(racks: nat, nodes: int, r: nat, count: nat): nat
    requires r <= racks && count <= 3
    decreases racks - r
  {
    if r == racks then 0
    else var k := Share(racks, nodes, count); k + Total(racks, nodes, r + 1, count + k)
  }

  lemma {:induction false} RackSeedsTotal(c: Cluster, d: nat, r: nat, count: nat)
    requires WellNamed(c) && d < |c.dcs| && r <= |c.dcs[d].racks| && count <= 3
    ensures |RackSeeds(c, d, r, count)| == Total(|c.dcs[d].racks|, OwnNodes(c, d), r, count)
    decreases |c.dcs[d].racks| - r
  {
    if r < |c.dcs[d].racks| {
      NodesFoundAreOwn(c, d, r, 0);
      RackSeedsTotal(c, d, r + 1, count + Share(|c.dcs[d].racks|, OwnNodes(c, d), count));
    }
  }

  lemma {:induction false} ManyRacksTotal(racks: nat, nodes: int, r: nat, count: nat)
    requires racks > 2 && r <= racks && count <= 3
    ensures Total(racks, nodes, r, count) == Min(3 - count, racks - r)
    decreases racks - r
  {
    if r < racks { ManyRacksTotal(racks, nodes, r + 1, count + Share(racks, nodes, count)); }
  }

  lemma FewRacksTotal(racks: nat, nodes: int)
    requires 1 <= racks <= 2
    ensures Total(racks, nodes, 0, 0) == Min(3, racks * (if nodes < 0 then 0 else nodes))
  {
    if racks == 2 {
      var k := Share(2, nodes, 0);
      assert Total(2, nodes, 1, k) == Share(2, nodes, k) + Total(2, nodes, 2, k + Share(2, nodes, k));
    } else {
      assert Total(1, nodes, 1, Share(1, nodes, 0)) == 0;
    }
  }

  /** The number of seeds of a datacenter: all its nodes, up to three, unless it has three racks without nodes. */
  lemma SeedsPerDC(c: Cluster, d: nat)
    requires WellNamed(c) && d < |c.dcs|
    ensures var racks, nodes := |c.dcs[d].racks|, OwnNodes(c, d);
            (|DCSeeds(c, d)| == Min(3, racks * (if nodes < 0 then 0 else nodes))) <==> (nodes >= 1 || racks < 3)
  {
    var racks, nodes := |c.dcs[d].racks|, OwnNodes(c, d);
    RackSeedsTotal(c, d, 0, 0);
    if racks > 2 {
      ManyRacksTotal(racks, nodes, 0, 0);
      if nodes >= 1 { assert racks * nodes >= racks; }
    } else {
      FewRacksTotal(racks, nodes);
    }
  }

  /** How many seeds rack r of a datacenter gives: one each of the first three; of two racks the first gives two; a single one gives three. */
  function GivenBy(racks: nat, nodes: int, r: nat): int {
    if racks > 2 then (if r < 3 then 1 else 0)
    else if racks == 2 then (if r == 0 then Min(nodes, 2) else Min(nodes, 3 - Min(nodes, 2)))
    else Min(nodes, 3)
  }

  /** The racks share the seeds: each rack with nodes gives its first ones, and the first three racks all give some. */
  lemma {:induction false} RacksShare(c: Cluster, d: nat, r: nat)
    requires WellNamed(c) && d < |c.dcs| && r < |c.dcs[d].racks| && OwnNodes(c, d) >= 1
    ensures r < 3 ==> GivenBy(|c.dcs[d].racks|, OwnNodes(c, d), r) >= 1
    ensures forall i: nat :: i < GivenBy(|c.dcs[d].racks|, OwnNodes(c, d), r) ==> SeedName(c, c.dcs[d].name, c.dcs[d].racks[r], i) in DCSeeds(c, d)
    ensures |c.dcs[d].racks| == 2 ==>
              DCSeeds(c, d) == Ordinals(c, c.dcs[d].name, c.dcs[d].racks[0], GivenBy(2, OwnNodes(c, d), 0))
                               + Ordinals(c, c.dcs[d].name, c.dcs[d].racks[1], GivenBy(2, OwnNodes(c, d), 1))
  {
    hide SeedName, NodesFound, OwnNodes, RackSeeds;
    var racks, nodes := c.dcs[d].racks, OwnNodes(c, d);
    if |racks| > 2 {
      ManyRacksShare(c, d, 0, r);
    } else {
      FewRacksShare(c, d);
      forall i: nat | i < GivenBy(|racks|, nodes, r)
        ensures SeedName(c, c.dcs[d].name, racks[r], i) in DCSeeds(c, d)
      {
        assert Ordinals(c, c.dcs[d].name, racks[r], GivenBy(|racks|, nodes, r))[i] == SeedName(c, c.dcs[d].name, racks[r], i);
      }
    }
  }

  lemma {:induction false} FewRacksShare(c: Cluster, d: nat)
    requires WellNamed(c) && d < |c.dcs| && |c.dcs[d].racks| <= 2 && OwnNodes(c, d) >= 1
    ensures var dc, racks, nodes := c.dcs[d].name, c.dcs[d].racks, OwnNodes(c, d);
            DCSeeds(c, d) == Ordinals(c, dc, racks[0], GivenBy(|racks|, nodes, 0))
                             + if |racks| == 2 then Ordinals(c, dc, racks[1], GivenBy(2, nodes, 1)) else []
  {
    hide SeedName, NodesFound, OwnNodes;
    var racks, nodes := c.dcs[d].racks, OwnNodes(c, d);
    NodesFoundAreOwn(c, d, 0, 0);
    var k := Share(|racks|, nodes, 0);
    if |racks| == 2 {
      NodesFoundAreOwn(c, d, 1, 0);
      assert RackSeeds(c, d, 2, k + Share(2, nodes, k)) == [];
      assert RackSeeds(c, d, 1, k) == Ordinals(c, c.dcs[d].name, racks[1], Share(2, nodes, k));
    } else {
      assert RackSeeds(c, d, 1, k) == [];
    }
  }

  lemma {:induction false} ManyRacksShare(c: Cluster, d: nat, from: nat, r: nat)
    requires WellNamed(c) && d < |c.dcs| && from <= r < |c.dcs[d].racks| && |c.dcs[d].racks| > 2
    ensures r < 3 ==> SeedName(c, c.dcs[d].name, c.dcs[d].racks[r], 0) in RackSeeds(c, d, from, Min(from, 3))
    decreases r - from
  {
    hide SeedName, NodesFound;
    if r < 3 {
      if from < r {
        ManyRacksShare(c, d, from + 1, r);
      } else {
        assert Ordinals(c, c.dcs[d].name, c.dcs[d].racks[r], 1)[0] == SeedName(c, c.dcs[d].name, c.dcs[d].racks[r], 0);
      }
    }
  }

  /** The seeds of the racks from r on are different pods of these racks. */
  lemma {:induction false} RackSeedsAreSound(c: Cluster, d: nat, r: nat, count: nat)
    requires WellNamed(c) && d < |c.dcs| && r <= |c.dcs[d].racks| && count <= 3
    requires OwnNodes(c, d) >= 1
    ensures forall x :: x in RackSeeds(c, d, r, count) ==> NamesPod(c, d, r, x)
    ensures Distinct(RackSeeds(c, d, r, count))
    decreases |c.dcs[d].racks| - r
  {
    var racks := c.dcs[d].racks;
    if r < |racks| {
      NodesFoundAreOwn(c, d, r, 0);
      var k := Share(|racks|, OwnNodes(c, d), count);
      RackSeedsAreSound(c, d, r + 1, count + k);
      var here, rest := Ordinals(c, c.dcs[d].name, racks[r], k), RackSeeds(c, d, r + 1, count + k);
      OrdinalsAreSound(c, d, r, k);
      forall x | x in rest ensures NamesPod(c, d, r, x) && x !in here {
        Elsewhere(c, d, r, k, x);
      }
      DistinctTogether(here, rest);
    }
  }

  lemma OrdinalsAreSound(c: Cluster, d: nat, r: nat, k: nat)
    requires WellNamed(c) && d < |c.dcs| && r < |c.dcs[d].racks| && k <= OwnNodes(c, d)
    ensures forall x :: x in Ordinals(c, c.dcs[d].name, c.dcs[d].racks[r], k) ==> NamesPod(c, d, r, x)
    ensures Distinct(Ordinals(c, c.dcs[d].name, c.dcs[d].racks[r], k))
  {
    assert WellNamedDC(c.dcs[d]);
    var dc, rack := c.dcs[d].name, c.dcs[d].racks[r];
    forall i, j | 0 <= i < j < k ensures SeedName(c, dc, rack, i) != SeedName(c, dc, rack, j) {
      if SeedName(c, dc, rack, i) == SeedName(c, dc, rack, j) { SeedNameIsExact(c, dc, rack, i, dc, rack, j); }
    }
    var here := Ordinals(c, dc, rack, k);
    forall x | x in here ensures NamesPod(c, d, r, x) {
      var i :| 0 <= i < k && here[i] == x;
      assert x == SeedName(c, dc, c.dcs[d].racks[r], i);
    }
  }

  /** A pod of a later rack is not among those of this one. */
  lemma Elsewhere(c: Cluster, d: nat, r: nat, k: nat, x: string)
    requires WellNamed(c) && d < |c.dcs| && r < |c.dcs[d].racks|
    requires NamesPod(c, d, r + 1, x)
    ensures NamesPod(c, d, r, x)
    ensures x !in Ordinals(c, c.dcs[d].name, c.dcs[d].racks[r], k)
  {
    assert WellNamedDC(c.dcs[d]);
    var dc, racks := c.dcs[d].name, c.dcs[d].racks;
    var q: nat, j: nat :| r + 1 <= q < |racks| && j < OwnNodes(c, d) && x == SeedName(c, dc, racks[q], j);
    var here := Ordinals(c, dc, racks[r], k);
    if x in here {
      var i :| 0 <= i < k && here[i] == x;
      SeedNameIsExact(c, dc, racks[r], i, dc, racks[q], j);
    }
  }

  lemma DCSeedsAreSound(c: Cluster, d: nat)
    requires WellNamed(c) && d < |c.dcs| && OwnNodes(c, d) >= 1
    ensures forall x :: x in DCSeeds(c, d) ==> NamesPod(c, d, 0, x)
    ensures Distinct(DCSeeds(c, d))
  {
    RackSeedsAreSound(c, d, 0, 0);
  }

  /** A seed of one datacenter from d on. */
  ghost predicate NamesSomePod(c: Cluster, d: nat, seed: string) {
    exists e :: d <= e < |c.dcs| && NamesPod(c, e, 0, seed)
  }

  lemma {:induction false} SeedsFromAreSound(c: Cluster, d: nat)
    requires WellNamed(c) && d <= |c.dcs|
    requires forall e :: 0 <= e < |c.dcs| ==> OwnNodes(c, e) >= 1
    ensures forall x :: x in SeedsFrom(c, d) ==> NamesSomePod(c, d, x)
    ensures Distinct(SeedsFrom(c, d))
    decreases |c.dcs| - d
  {
    hide NamesPod, DCSeeds, OwnNodes, WellNamed;
    if d < |c.dcs| {
      SeedsFromAreSound(c, d + 1);
      DCSeedsAreSound(c, d);
      var here, rest := DCSeeds(c, d), SeedsFrom(c, d + 1);
      forall x | x in rest ensures NamesSomePod(c, d, x) && x !in here {
        var e :| d + 1 <= e < |c.dcs| && NamesPod(c, e, 0, x);
        if x in here { OneDatacenter(c, d, e, x); }
      }
      assert forall x :: x in here ==> NamesPod(c, d, 0, x);
      DistinctTogether(here, rest);
    }
  }

  lemma OneDatacenter(c: Cluster, d: nat, e: nat, x: string)
    requires WellNamed(c) && d < |c.dcs| && e < |c.dcs|
    requires NamesPod(c, d, 0, x) && NamesPod(c, e, 0, x)
    ensures d == e
  {
    assert WellNamedDC(c.dcs[d]) && WellNamedDC(c.dcs[e]);
    var r: nat, i: nat :| r < |c.dcs[d].racks| && i < OwnNodes(c, d) && x == SeedName(c, c.dcs[d].name, c.dcs[d].racks[r], i);
    var q: nat, j: nat :| q < |c.dcs[e].racks| && j < OwnNodes(c, e) && x == SeedName(c, c.dcs[e].name, c.dcs[e].racks[q], j);
    SeedNameIsExact(c, c.dcs[d].name, c.dcs[d].racks[r], i, c.dcs[e].name, c.dcs[e].racks[q], j);
  }

  /** All seeds of a cluster are different, and each names a pod that the cluster has. */
  lemma SeedsAreSound(c: Cluster)
    requires WellNamed(c) && c.dcs != []
    requires forall e :: 0 <= e < |c.dcs| ==> OwnNodes(c, e) >= 1
    ensures Distinct(Seeds(c)) && forall x :: x in Seeds(c) ==> NamesSomePod(c, 0, x)
  {
    SeedsFromAreSound(c, 0);
  }
}
