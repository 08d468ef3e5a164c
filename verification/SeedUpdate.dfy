/**
 Keeping the seed list of a rack up to date: the wanted seeds are merged into the stored ones, the StatefulSet
 stores the merged list as one string, and the rack is asked to change until the two agree.
 */
module SeedUpdate {
  import opened Options
  import opened RackActions
  import opened SeedNames
  import opened SeedList

  // Merging lists.

  /** The elements of s that are in `other`, or those that are not. */
  function Filtered(s: seq<string>, other: seq<string>, inside: bool): (f: seq<string>)
    ensures forall x :: x in f <==> x in s && ((x in other) == inside)
  {
    if s == [] then []
    else
      var n := |s| - 1;
      Filtered(s[..n], other, inside) + if (s[n] in other) == inside then [s[n]] else []
  }

  function Merged(before: seq<string>, wanted: seq<string>): seq<string> {
    Filtered(before, wanted, true) + Filtered(wanted, before, false)
  }

  method Contains(s: seq<string>, e: string) returns (found: bool)
    ensures found <==> e in s
  {
    for i := 0 to |s|
      invariant e !in s[..i]
    {
      if s[i] == e {
        return true;
      }
    }
    found := false;
  }

  method MergeSlice(before: seq<string>, wanted: seq<string>) returns (result: seq<string>)
    ensures result == Merged(before, wanted)
  {
    result := [];
    for i := 0 to |before|
      invariant result == Filtered(before[..i], wanted, true)
    {
      assert before[..i + 1][..i] == before[..i];
      var found := Contains(wanted, before[i]);
      if found {
        result := result + [before[i]];
      }
    }
    assert before[..|before|] == before;
    for i := 0 to |wanted|
      invariant result == Filtered(before, wanted, true) + Filtered(wanted[..i], before, false)
    {
      assert wanted[..i + 1][..i] == wanted[..i];
      var found := Contains(before, wanted[i]);
      if !found {
        result := result + [wanted[i]];
      }
    }
    assert wanted[..|wanted|] == wanted;
  }

  /** Filtering with nothing to drop changes nothing. */
  lemma {:induction false} FilteredAll(s: seq<string>, other: seq<string>, inside: bool)
    requires forall x :: x in s ==> ((x in other) == inside)
    ensures Filtered(s, other, inside) == s
  {
    if s != [] {
      var n := |s| - 1;
      assert s[n] in s;
      FilteredAll(s[..n], other, inside);
      assert s == s[..n] + [s[n]];
    }
  }

  lemma {:induction false} FilteredNone(s: seq<string>, other: seq<string>, inside: bool)
    requires forall x :: x in s ==> ((x in other) != inside)
    ensures Filtered(s, other, inside) == []
  {
    if s != [] {
      var n := |s| - 1;
      assert s[n] in s;
      FilteredNone(s[..n], other, inside);
    }
  }

  lemma {:induction false} FilteredDistinct(s: seq<string>, other: seq<string>, inside: bool)
    requires Distinct(s)
    ensures Distinct(Filtered(s, other, inside))
  {
    if s != [] {
      var n := |s| - 1;
      FilteredDistinct(s[..n], other, inside);
      DistinctTogether(Filtered(s[..n], other, inside), if (s[n] in other) == inside then [s[n]] else []);
    }
  }

  lemma {:induction false} FilteredTogether(s: seq<string>, t: seq<string>, other: seq<string>, inside: bool)
    ensures Filtered(s + t, other, inside) == Filtered(s, other, inside) + Filtered(t, other, inside)
  {
    if t == [] {
      assert s + t == s;
    } else {
      var n := |t| - 1;
      assert (s + t)[..|s + t| - 1] == s + t[..n];
      FilteredTogether(s, t[..n], other, inside);
    }
  }

  /** In the merged list the old elements come first. */
  lemma OldComeFirst(before: seq<string>, wanted: seq<string>, i: int)
    requires 0 <= i < |Merged(before, wanted)|
    ensures Merged(before, wanted)[i] in before <==> i < |Filtered(before, wanted, true)|
  {
    hide Filtered;
    var kept, more := Filtered(before, wanted, true), Filtered(wanted, before, false);
    if i < |kept| {
      assert kept[i] in kept;
    } else {
      assert more[i - |kept|] in more;
    }
  }

  /** Filtering the merged list by the old one takes it apart again. */
  lemma MergedApart(before: seq<string>, wanted: seq<string>)
    ensures Filtered(Merged(before, wanted), before, true) == Filtered(before, wanted, true)
    ensures Filtered(Merged(before, wanted), before, false) == Filtered(wanted, before, false)
  {
    hide Filtered;
    var kept, more := Filtered(before, wanted, true), Filtered(wanted, before, false);
    FilteredTogether(kept, more, before, true);
    FilteredAll(kept, before, true);
    FilteredNone(more, before, true);
    assert kept + [] == kept;
    FilteredTogether(kept, more, before, false);
    FilteredNone(kept, before, false);
    FilteredAll(more, before, false);
    assert [] + more == more;
  }

  /** Merging gives the wanted elements: the old ones in their order, then the new ones in theirs; and it repeats none. */
  lemma MergedIsWanted(before: seq<string>, wanted: seq<string>)
    ensures forall x :: x in Merged(before, wanted) <==> x in wanted
    ensures Filtered(Merged(before, wanted), before, true) == Filtered(before, wanted, true)
    ensures Filtered(Merged(before, wanted), before, false) == Filtered(wanted, before, false)
    ensures var m := Merged(before, wanted); forall i, j :: 0 <= i < j < |m| && m[j] in before ==> m[i] in before
    ensures Distinct(before) && Distinct(wanted) ==> Distinct(Merged(before, wanted))
  {
    hide Filtered, Distinct;
    MergedApart(before, wanted);
    var m := Merged(before, wanted);
    forall i, j | 0 <= i < j < |m| && m[j] in before
      ensures m[i] in before
    {
      OldComeFirst(before, wanted, i);
      OldComeFirst(before, wanted, j);
    }
    if Distinct(before) && Distinct(wanted) {
      FilteredDistinct(before, wanted, true);
      FilteredDistinct(wanted, before, false);
      DistinctTogether(Filtered(before, wanted, true), Filtered(wanted, before, false));
    }
  }

  /** A list that already has the wanted elements stays as it is. */
  lemma MergedAlready(before: seq<string>, wanted: seq<string>)
    requires forall x :: x in before <==> x in wanted
    ensures Merged(before, wanted) == before
  {
    FilteredAll(before, wanted, true);
    FilteredNone(wanted, before, false);
  }

  // The list as one string.

  function Join(list: seq<string>): string {
    if list == [] then ""
    else if |list| == 1 then list[0]
    else list[0] + "," + Join(list[1..])
  }

  function Split(s: string): (list: seq<string>)
    ensures |list| > 0
  {
    if s == "" then [""]
    else if s[0] == ',' then [""] + Split(s[1..])
    else var rest := Split(s[1..]); [[s[0]] + rest[0]] + rest[1..]
  }

  lemma {:induction false} JoinOfSplit(s: string)
    ensures Join(Split(s)) == s
  {
    if s != "" {
      var rest := Split(s[1..]);
      JoinOfSplit(s[1..]);
      if s[0] == ',' {
        assert Split(s)[1..] == rest;
      } else {
        assert Split(s)[1..] == rest[1..];
      }
      assert s == [s[0]] + s[1..];
    }
  }

  lemma {:induction false} SplitFirst(a: string, b: string)
    requires ',' !in a
    ensures Split(a) == [a]
    ensures Split(a + "," + b) == [a] + Split(b)
  {
    if a == "" {
      assert ("," + b)[1..] == b;
      assert a + "," + b == "," + b;
    } else {
      SplitFirst(a[1..], b);
      assert (a + "," + b)[1..] == a[1..] + "," + b;
      assert a == [a[0]] + a[1..];
    }
  }

  /** A list of names without commas is read back from its string, except the empty list. */
  lemma {:induction false} SplitOfJoin(list: seq<string>)
    requires forall x :: x in list ==> ',' !in x
    ensures Split(Join(list)) == list <==> list != []
  {
    if list != [] {
      assert list[0] in list;
      SplitFirst(list[0], Join(list[1..]));
      if |list| > 1 {
        SplitOfJoin(list[1..]);
        assert list == [list[0]] + list[1..];
      } else {
        assert list == [list[0]];
      }
    }
  }

  // What the StatefulSet stores.

  datatype Env = Env(name: string, value: string)
  datatype Container = Container(name: string, env: seq<Env>)

  predicate FirstEnv(env: seq<Env>, i: int) {
    0 <= i < |env| && env[i].name == "CASSANDRA_SEEDS" && forall j :: 0 <= j < i ==> env[j].name != "CASSANDRA_SEEDS"
  }

  predicate FirstBootstrap(containers: seq<Container>, i: int) {
    0 <= i < |containers| && containers[i].name == "bootstrap" && forall j :: 0 <= j < i ==> containers[j].name != "bootstrap"
  }

  method GetStoredSeedList(containers: seq<Container>) returns (list: seq<string>)
    ensures (exists i, k :: FirstBootstrap(containers, i) && FirstEnv(containers[i].env, k) && list == Split(containers[i].env[k].value))
         || (list == [] && forall i, k :: FirstBootstrap(containers, i) ==> !FirstEnv(containers[i].env, k))
  {
    for i := 0 to |containers|
      invariant forall j :: 0 <= j < i ==> containers[j].name != "bootstrap"
    {
      if containers[i].name == "bootstrap" {
        var env := containers[i].env;
        for k := 0 to |env|
          invariant forall j :: 0 <= j < k ==> env[j].name != "CASSANDRA_SEEDS"
        {
          if env[k].name == "CASSANDRA_SEEDS" {
            assert FirstBootstrap(containers, i) && FirstEnv(containers[i].env, k);
            return Split(env[k].value);
          }
        }
        assert forall j :: FirstBootstrap(containers, j) ==> j == i;
        return [];
      }
    }
    list := [];
  }

  // The status of the rack.

  datatype ActionName = UpdateSeedList | OtherAction

  /** The seeds wanted after a look at the stored ones; `changed` says that the two lists were found to differ. */
  function NextSeeds(seeds: seq<string>, stored: seq<string>, wanted: seq<string>, auto: bool, changed: bool): seq<string> {
    if auto && changed then Merged(stored, wanted) else seeds
  }

  class RackStatus {
    var seeds: seq<string>
    var action: ActionName
    var progress: Progress
    var start: Option<int>
    var end: Option<int>

    method UpdateStatusIfSeedListHasChanged(c: Cluster, stored: seq<string>, auto: bool, changed: bool) returns (asked: bool)
      modifies this
      ensures seeds == NextSeeds(old(seeds), stored, Seeds(c), auto, changed)
      ensures !auto || !changed ==> seeds == old(seeds)
      ensures auto && changed ==> forall x :: x in seeds <==> x in Seeds(c)
      ensures asked <==> seeds != stored
      ensures asked ==> action == UpdateSeedList && progress == Configuring && start == None && end == None
      ensures !asked ==> unchanged(`action, `progress, `start, `end)
    {
      if auto {
        var wanted := InitSeedList(c);
        if changed {
          seeds := MergeSlice(stored, wanted);
        }
      }
      MergedIsWanted(stored, Seeds(c));
      asked := seeds != stored;
      if asked {
        progress := Configuring;
        action := UpdateSeedList;
        start := None;
        end := None;
      }
    }
  }

  // The update comes to rest.

  predicate SameElements(s: seq<string>, t: seq<string>) {
    (forall x :: x in s ==> x in t) && (forall x :: x in t ==> x in s)
  }

  /** Lists that do not have the same elements are found to differ. */
  predicate Notices(changed: bool, stored: seq<string>, wanted: seq<string>) {
    SameElements(stored, wanted) || changed
  }

  /** The looks at a rack: each may report a difference, and after it the StatefulSet may store the seeds of the status. */
  datatype Look = Look(changed: bool, store: bool)

  datatype Rack = Rack(seeds: seq<string>, stored: seq<string>)

  function Looked(r: Rack, wanted: seq<string>, auto: bool, l: Look): Rack {
    var seeds := NextSeeds(r.seeds, r.stored, wanted, auto, l.changed);
    Rack(seeds, if l.store then Split(Join(seeds)) else r.stored)
  }

  function Run(r: Rack, wanted: seq<string>, auto: bool, looks: seq<Look>): Rack {
    if looks == [] then r else Looked(Run(r, wanted, auto, looks[..|looks| - 1]), wanted, auto, looks[|looks| - 1])
  }

  /** Every look of the run notices lists with different elements. */
  predicate Attentive(r: Rack, wanted: seq<string>, auto: bool, looks: seq<Look>) {
    looks != [] ==>
      var n := |looks| - 1;
      Attentive(r, wanted, auto, looks[..n]) && Notices(looks[n].changed, Run(r, wanted, auto, looks[..n]).stored, wanted)
  }

  /** The rack stores the list of its status, and it has the wanted seeds. */
  predicate AtRest(r: Rack, wanted: seq<string>) {
    r.seeds == r.stored && SameElements(r.stored, wanted)
  }

  predicate WithoutCommas(list: seq<string>) {
    forall x :: x in list ==> ',' !in x
  }

  /** Once the merged list is stored, no later look asks for a change. */
  lemma {:induction false} RestLasts(r: Rack, wanted: seq<string>, looks: seq<Look>)
    requires AtRest(r, wanted) && WithoutCommas(wanted) && wanted != []
    ensures Run(r, wanted, true, looks) == r
  {
    if looks != [] {
      RestLasts(r, wanted, looks[..|looks| - 1]);
      MergedAlready(r.stored, wanted);
      assert wanted[0] in wanted;
      SplitOfJoin(r.seeds);
    }
  }

  /** Without a reported difference, or with seeds set by hand, no look changes the seeds of the status. */
  lemma {:induction false} SeedsStay(r: Rack, wanted: seq<string>, auto: bool, looks: seq<Look>)
    requires auto ==> forall k :: 0 <= k < |looks| ==> !looks[k].changed
    ensures Run(r, wanted, auto, looks).seeds == r.seeds
  {
    if looks != [] {
      SeedsStay(r, wanted, auto, looks[..|looks| - 1]);
    }
  }

  /** Some look of the run was followed by storing the list. */
  predicate Stores(looks: seq<Look>) {
    exists k :: 0 <= k < |looks| && looks[k].store
  }

  lemma StoresLast(looks: seq<Look>)
    requires looks != []
    ensures Stores(looks) <==> Stores(looks[..|looks| - 1]) || looks[|looks| - 1].store
  {
    var n := |looks| - 1;
    if k :| 0 <= k < |looks| && looks[k].store {
      if k < n { assert looks[..n][k].store; }
    }
    if k :| 0 <= k < n && looks[..n][k].store { assert looks[k].store; }
  }

  /** The first list stored after a difference was reported brings the rack to rest; nothing changes before that. */
  lemma {:induction false} UpdateSettles(r: Rack, wanted: seq<string>, looks: seq<Look>)
    requires WithoutCommas(wanted) && wanted != []
    requires !SameElements(r.stored, wanted) && Attentive(r, wanted, true, looks)
    ensures var after := Run(r, wanted, true, looks);
            if Stores(looks) then after == Rack(Merged(r.stored, wanted), Merged(r.stored, wanted))
            else after.stored == r.stored && (looks != [] ==> after.seeds == Merged(r.stored, wanted))
  {
    hide Split, Join, Merged, Filtered, SameElements;
    if looks != [] {
      hide Stores;
      UpdateSettles(r, wanted, looks[..|looks| - 1]);
      StoresLast(looks);
      MergedReadsBack(r.stored, wanted);
    }
  }

  lemma MergedReadsBack(stored: seq<string>, wanted: seq<string>)
    requires WithoutCommas(wanted) && wanted != []
    ensures Split(Join(Merged(stored, wanted))) == Merged(stored, wanted)
    ensures Merged(Merged(stored, wanted), wanted) == Merged(stored, wanted)
  {
    hide Split, Join;
    MergedIsWanted(stored, wanted);
    MergedAlready(Merged(stored, wanted), wanted);
    assert wanted[0] in Merged(stored, wanted);
    SplitOfJoin(Merged(stored, wanted));
  }

  /** An empty list is never stored as such: whatever later looks report, the rack is asked to change for ever. */
  lemma {:induction false} EmptyListNeverRests(r: Rack, looks: seq<Look>)
    requires r == Rack([], Split(Join([])))
    ensures Run(r, [], true, looks) == r && r.seeds != r.stored
  {
    if looks != [] {
      EmptyListNeverRests(r, looks[..|looks| - 1]);
      FilteredNone(r.stored, [], true);
    }
  }

  /** For a cluster with nodes, any run of looks that stores its list once ends with the seeds of the cluster, each once. */
  lemma SeedsSettle(c: Cluster, r: Rack, looks: seq<Look>)
    requires WellNamed(c) && c.dcs != [] && ',' !in c.name && ',' !in c.namespace
    requires forall e :: 0 <= e < |c.dcs| ==> OwnNodes(c, e) >= 1
    requires !SameElements(r.stored, Seeds(c)) && Distinct(r.stored)
    requires Attentive(r, Seeds(c), true, looks) && Stores(looks)
    ensures var after := Run(r, Seeds(c), true, looks);
            AtRest(after, Seeds(c)) && Distinct(after.stored) && Filtered(after.stored, r.stored, true) == Filtered(r.stored, Seeds(c), true)
  {
    hide Run, Attentive, Filtered, WellNamed;
    SeedsAreSound(c);
    SeedsHaveNoCommas(c);
    SomeSeed(c);
    UpdateSettles(r, Seeds(c), looks);
    MergedIsWanted(r.stored, Seeds(c));
  }

  lemma SeedsHaveNoCommas(c: Cluster)
    requires ',' !in c.name && ',' !in c.namespace
    requires forall x :: x in Seeds(c) ==> NamesSomePod(c, 0, x)
    ensures WithoutCommas(Seeds(c))
  {
    hide Seeds, SeedName;
    forall x | x in Seeds(c) ensures ',' !in x {
      var d :| 0 <= d < |c.dcs| && NamesPod(c, d, 0, x);
      var q: nat, i: nat :| q < |c.dcs[d].racks| && i < OwnNodes(c, d) && x == SeedName(c, c.dcs[d].name, c.dcs[d].racks[q], i);
      SeedHasNoComma(c, c.dcs[d].name, c.dcs[d].racks[q], i);
    }
  }

  lemma SomeSeed(c: Cluster)
    requires WellNamed(c) && c.dcs != [] && OwnNodes(c, 0) >= 1
    ensures Seeds(c) != []
  {
    SeedsPerDC(c, 0);
    assert |c.dcs[0].racks| >= 1;
    assert |c.dcs[0].racks| * OwnNodes(c, 0) >= 1;
    assert Seeds(c) == DCSeeds(c, 0) + SeedsFrom(c, 1);
  }
}
