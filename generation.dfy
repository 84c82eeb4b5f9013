/**
 * Candidate path enumeration (generate_possible_paths, api/index.py, lines 48-78). Each ordered
 * product is resolved to the first center stocking it; for each start C1, C2, C3 the generator
 * emits one hub-bouncing path per ordering of the other needed centers, and one direct chain
 * through them when there are any.
 */
module Generation {
  import opened Options
  import opened Catalog
  import opened Orders
  import opened Costing
  import opened Orderings

  predicate Distinct(xs: seq<CenterId>) {
    forall i, j | 0 <= i < j < |xs| :: xs[i] != xs[j]
  }

  /** `xs` lists the elements of `s`, each once, in some order. */
  predicate IsListing(xs: seq<CenterId>, s: set<CenterId>) {
    Distinct(xs) && forall c :: c in xs <==> c in s
  }

  /** The set of needed centers: the first stocker of each ordered product. */
  function NeededSet(order: Order): set<CenterId> {
    if |order| == 0 then {}
    else
      var init := order[..|order| - 1];
      var last := order[|order| - 1];
      NeededSet(init) + match FirstStocker(last.product) { case Some(c) => {c} case None => {} }
  }

  /** A center is needed exactly when it is the first stocker of some ordered product. */
  lemma {:induction false} NeededSetMembers(order: Order)
    ensures forall c :: c in NeededSet(order) <==>
      exists i | 0 <= i < |order| :: FirstStocker(order[i].product) == Some(c)
  {
    if |order| > 0 {
      var n := |order| - 1;
      var init := order[..n];
      NeededSetMembers(init);
      forall c ensures c in NeededSet(order) <==> exists i | 0 <= i < |order| :: FirstStocker(order[i].product) == Some(c) {
        if c in NeededSet(init) {
          var i :| 0 <= i < |init| && FirstStocker(init[i].product) == Some(c);
          assert order[i] == init[i];
        }
        if i :| 0 <= i < |order| && FirstStocker(order[i].product) == Some(c) {
          if i < n {
            assert order[i] == init[i];
          }
        }
      }
    }
  }

  /** The multiplicity of each center in a list without repetition is at most one. */
  lemma {:induction false} DistinctMultiset(xs: seq<CenterId>)
    ensures Distinct(xs) <==> forall c :: multiset(xs)[c] <= 1
  {
    if |xs| > 0 {
      var init := xs[..|xs| - 1];
      var x := xs[|xs| - 1];
      assert xs == init + [x];
      DistinctMultiset(init);
      if Distinct(xs) {
        assert Distinct(init) by {
          forall i, j | 0 <= i < j < |init| ensures init[i] != init[j] {
            assert init[i] == xs[i] && init[j] == xs[j];
          }
        }
        assert x !in init;
      } else {
        var i, j :| 0 <= i < j < |xs| && xs[i] == xs[j];
        if j < |xs| - 1 {
          assert init[i] == init[j];
          assert !Distinct(init);
          var c :| multiset(init)[c] > 1;
          assert multiset(xs)[c] >= multiset(init)[c];
        } else {
          assert init[i] == x;
          assert multiset(init)[x] >= 1;
          assert multiset(xs)[x] >= 2;
        }
      }
    }
  }

  /** The needed centers other than the start, in the order of `needed`. */
  function Others(needed: seq<CenterId>, start: CenterId): (r: seq<CenterId>)
    ensures |r| <= |needed|
  {
    if |needed| == 0 then []
    else
      var init := needed[..|needed| - 1];
      var last := needed[|needed| - 1];
      var rest := Others(init, start);
      if last == start then rest else rest + [last]
  }

  /** The other centers are the needed ones, each as often as in `needed`, with every occurrence of
      the start removed. */
  lemma {:induction false} OthersMultiset(needed: seq<CenterId>, start: CenterId)
    ensures multiset(Others(needed, start)) == multiset(needed)[start := 0]
  {
    if |needed| > 0 {
      var init := needed[..|needed| - 1];
      var last := needed[|needed| - 1];
      assert needed == init + [last];
      OthersMultiset(init, start);
    }
  }

  lemma OthersListing(needed: seq<CenterId>, start: CenterId)
    requires Distinct(needed)
    ensures Distinct(Others(needed, start))
    ensures forall c :: c in Others(needed, start) <==> c in needed && c != start
    ensures |Others(needed, start)| == |needed| - (if start in needed then 1 else 0)
  {
    var r := Others(needed, start);
    OthersMultiset(needed, start);
    forall c ensures c in r <==> c in needed && c != start {
      assert c in r <==> c in multiset(r);
      assert c in needed <==> c in multiset(needed);
    }
    OthersDistinct(needed, start);
    OthersLength(needed, start);
  }

  lemma OthersDistinct(needed: seq<CenterId>, start: CenterId)
    requires Distinct(needed)
    ensures Distinct(Others(needed, start))
  {
    var r := Others(needed, start);
    OthersMultiset(needed, start);
    DistinctMultiset(needed);
    DistinctMultiset(r);
    assert forall c :: multiset(r)[c] <= multiset(needed)[c];
  }

  lemma {:induction false} OthersLength(needed: seq<CenterId>, start: CenterId)
    requires Distinct(needed)
    ensures |Others(needed, start)| == |needed| - (if start in needed then 1 else 0)
  {
    if |needed| > 0 {
      var init := needed[..|needed| - 1];
      var last := needed[|needed| - 1];
      assert Distinct(init) by {
        assert forall i | 0 <= i < |init| :: init[i] == needed[i];
      }
      OthersLength(init, start);
      assert needed == init + [last];
      assert start in needed <==> start in init || start == last;
      if last == start {
        assert start !in init by {
          assert forall i | 0 <= i < |init| :: init[i] == needed[i];
        }
      }
    }
  }

  /** [c1, L1, c2, L1, ..., cn, L1]. */
  function HubTour(cs: seq<CenterId>): (r: Path)
    ensures |r| == 2 * |cs|
  {
    if |cs| == 0 then []
    else HubTour(cs[..|cs| - 1]) + [Center(cs[|cs| - 1]), Hub]
  }

  /** The tour has the i-th center at position 2i and the hub at every odd position. */
  lemma {:induction false} TourIndices(cs: seq<CenterId>)
    ensures forall k | 0 <= k < |HubTour(cs)| :: HubTour(cs)[k] == if k % 2 == 0 then Center(cs[k / 2]) else Hub
  {
    if |cs| > 0 {
      var init := cs[..|cs| - 1];
      TourIndices(init);
      var r := HubTour(cs);
      var n := |HubTour(init)|;
      forall k | 0 <= k < |r| ensures r[k] == if k % 2 == 0 then Center(cs[k / 2]) else Hub {
        if k < n {
          assert r[k] == HubTour(init)[k];
          assert k / 2 < |init| && init[k / 2] == cs[k / 2];
        } else if k == n {
          assert k / 2 == |cs| - 1 && k % 2 == 0;
        } else {
          assert k == n + 1 && k % 2 == 1;
        }
      }
    }
  }

  /** [c1, c2, ..., cn]. */
  function Visit(cs: seq<CenterId>): (r: Path)
    ensures |r| == |cs|
    ensures forall k | 0 <= k < |r| :: r[k] == Center(cs[k])
  {
    if |cs| == 0 then [] else Visit(cs[..|cs| - 1]) + [Center(cs[|cs| - 1])]
  }

  /** The hub-bouncing path for one ordering of the other centers. */
  function BouncePath(start: CenterId, perm: seq<CenterId>): Path {
    HubTour([start] + perm)
  }

  /** The direct-chain path: the start, the other centers in their listed order, then the hub. */
  function DirectPath(start: CenterId, others: seq<CenterId>): Path {
    Visit([start] + others) + [Hub]
  }

  function BouncePaths(start: CenterId, perms: seq<seq<CenterId>>): (r: seq<Path>)
    ensures |r| == |perms|
    ensures forall k | 0 <= k < |r| :: r[k] == BouncePath(start, perms[k])
  {
    seq(|perms|, k requires 0 <= k < |perms| => BouncePath(start, perms[k]))
  }

  /** The paths emitted for one start. */
  function StartPaths(start: CenterId, needed: seq<CenterId>): seq<Path> {
    var others := Others(needed, start);
    BouncePaths(start, Permutations(others)) + if |others| > 0 then [DirectPath(start, others)] else []
  }

  /** The paths emitted for each of `starts` in turn. */
  function PathsFor(needed: seq<CenterId>, starts: seq<CenterId>): seq<Path> {
    if |starts| == 0 then []
    else PathsFor(needed, starts[..|starts| - 1]) + StartPaths(starts[|starts| - 1], needed)
  }

  /** Everything the generator emits, for a given listing of the needed centers. */
  function CandidatePaths(needed: seq<CenterId>): seq<Path> {
    PathsFor(needed, Centers)
  }

  /** Building the set of needed centers: for each product the catalog is scanned in declared
      order and the scan stops at the first center that stocks it. */
  method CollectNeeded(order: Order) returns (centersNeeded: set<CenterId>)
    ensures centersNeeded == NeededSet(order)
  {
    centersNeeded := {};
    for i := 0 to |order|
      invariant centersNeeded == NeededSet(order[..i])
    {
      var product := order[i].product;
      var k := 0;
      while k < |Centers|
        invariant 0 <= k <= |Centers|
        invariant forall m | 0 <= m < k :: product !in Stock(Centers[m])
        invariant centersNeeded == NeededSet(order[..i])
      {
        if product in Stock(Centers[k]) {
          assert FirstStocker(product) == Some(Centers[k]);
          centersNeeded := centersNeeded + {Centers[k]};
          break;
        }
        k := k + 1;
      }
      assert k == |Centers| ==> FirstStocker(product).None?;
      assert order[..i + 1][..i] == order[..i];
      assert order[..i + 1][i] == order[i];
    }
    assert order[..|order|] == order;
  }

  /** Turning the set into a list; the order of the list is left open, as a hash set's is. */
  method ListOf(s: set<CenterId>) returns (xs: seq<CenterId>)
    ensures IsListing(xs, s)
  {
    xs := [];
    var rest := s;
    while rest != {}
      invariant rest <= s
      invariant Distinct(xs)
      invariant forall c :: c in xs <==> c in s && c !in rest
      decreases rest
    {
      var c :| c in rest;
      xs := xs + [c];
      rest := rest - {c};
    }
  }

  /** One hub-bouncing path: the start, then the hub after each center of the ordering. */
  method BuildBouncePath(start: CenterId, perm: seq<CenterId>) returns (path: Path)
    ensures path == BouncePath(start, perm)
  {
    path := [Center(start), Hub];
    for j := 0 to |perm|
      invariant path == HubTour([start] + perm[..j])
    {
      assert ([start] + perm[..j + 1])[..j + 1] == [start] + perm[..j];
      path := path + [Center(perm[j]), Hub];
    }
    assert perm[..|perm|] == perm;
  }

  /** The direct chain: the start, each other center in turn, then the hub. */
  method BuildDirectPath(start: CenterId, others: seq<CenterId>) returns (path: Path)
    ensures path == DirectPath(start, others)
  {
    path := [Center(start)];
    for j := 0 to |others|
      invariant path == Visit([start] + others[..j])
    {
      assert ([start] + others[..j + 1])[..j + 1] == [start] + others[..j];
      path := path + [Center(others[j])];
    }
    assert others[..|others|] == others;
    path := path + [Hub];
  }

  /** The paths of one start, in the order they are appended. */
  method BuildStartPaths(start: CenterId, needed: seq<CenterId>) returns (paths: seq<Path>)
    ensures paths == StartPaths(start, needed)
  {
    var others := Others(needed, start);
    var perms := Permutations(others);
    paths := [];
    for q := 0 to |perms|
      invariant paths == BouncePaths(start, perms[..q])
    {
      var path := BuildBouncePath(start, perms[q]);
      assert BouncePaths(start, perms[..q + 1]) == BouncePaths(start, perms[..q]) + [path];
      paths := paths + [path];
    }
    assert perms[..|perms|] == perms;
    if |others| > 0 {
      var path := BuildDirectPath(start, others);
      paths := paths + [path];
    }
  }

  /** The generator. `needed` is the listing of the needed centers the run happened to use. */
  method GeneratePaths(order: Order) returns (paths: seq<Path>, ghost needed: seq<CenterId>)
    ensures IsListing(needed, NeededSet(order))
    ensures paths == CandidatePaths(needed)
    ensures |paths| >= 3
    ensures forall k | 0 <= k < |paths| :: Costable(paths[k]) && paths[k][|paths[k]| - 1] == Hub
  {
    var centersNeeded := CollectNeeded(order);
    var list := ListOf(centersNeeded);
    needed := list;
    paths := [];
    var starts := [C1, C2, C3];
    for s := 0 to |starts|
      invariant paths == PathsFor(list, starts[..s])
    {
      var startPaths := BuildStartPaths(starts[s], list);
      assert starts[..s + 1][..s] == starts[..s];
      paths := paths + startPaths;
    }
    assert starts[..3] == Centers;
    CandidatesWellShaped(list);
    CandidatesNonEmpty(list);
  }

  /** The centers a path visits. */
  function CentersOf(path: Path): set<CenterId> {
    set k | 0 <= k < |path| && path[k].Center? :: path[k].id
  }

  function Elements(xs: seq<CenterId>): set<CenterId> {
    set c | c in xs
  }

  /** No center occurs twice in the path. */
  predicate NoRepeatedCenter(path: Path) {
    forall i, j | 0 <= i < j < |path| && path[i].Center? :: path[i] != path[j]
  }

  /** The shape of every generated path: it starts at a center and ends at the hub, has no
      hub-to-hub leg, visits no center twice, and visits exactly its start and the needed centers. */
  predicate WellShaped(path: Path, needed: seq<CenterId>) {
    && |path| >= 2
    && path[0].Center?
    && path[|path| - 1] == Hub
    && NoHubPair(path)
    && NoRepeatedCenter(path)
    && CentersOf(path) == {path[0].id} + Elements(needed)
  }

  lemma TourShape(cs: seq<CenterId>)
    requires |cs| >= 1 && Distinct(cs)
    ensures var r := HubTour(cs);
      |r| >= 2 && r[0] == Center(cs[0]) && r[|r| - 1] == Hub &&
      NoHubPair(r) && NoRepeatedCenter(r) && CentersOf(r) == Elements(cs)
  {
    var r := HubTour(cs);
    TourIndices(cs);
    assert r[0] == Center(cs[0]);
    forall c | c in Elements(cs) ensures c in CentersOf(r) {
      var m :| 0 <= m < |cs| && cs[m] == c;
      assert r[2 * m] == Center(c);
    }
  }

  lemma ChainShape(cs: seq<CenterId>)
    requires |cs| >= 1 && Distinct(cs)
    ensures var r := Visit(cs) + [Hub];
      |r| >= 2 && r[0] == Center(cs[0]) && r[|r| - 1] == Hub &&
      NoHubPair(r) && NoRepeatedCenter(r) && CentersOf(r) == Elements(cs)
  {
    var r := Visit(cs) + [Hub];
    assert forall k | 0 <= k < |cs| :: r[k] == Center(cs[k]);
    forall c | c in Elements(cs) ensures c in CentersOf(r) {
      var m :| 0 <= m < |cs| && cs[m] == c;
      assert r[m] == Center(c);
    }
  }

  /** The start followed by an ordering of the other needed centers lists the start and the needed
      centers, each once. */
  lemma StartAndOrdering(start: CenterId, needed: seq<CenterId>, perm: seq<CenterId>)
    requires Distinct(needed)
    requires multiset(perm) == multiset(Others(needed, start))
    ensures Distinct([start] + perm)
    ensures Elements([start] + perm) == {start} + Elements(needed)
  {
    var xs := [start] + perm;
    OthersMultiset(needed, start);
    assert multiset(xs) == multiset{start} + multiset(perm);
    DistinctMultiset(needed);
    DistinctMultiset(xs);
    assert forall c :: c in needed <==> c in multiset(needed);
    assert forall c :: c in xs <==> c in multiset(xs);
  }

  lemma BounceShape(start: CenterId, needed: seq<CenterId>, perm: seq<CenterId>)
    requires Distinct(needed)
    requires multiset(perm) == multiset(Others(needed, start))
    ensures BouncePath(start, perm)[0] == Center(start) && WellShaped(BouncePath(start, perm), needed)
  {
    StartAndOrdering(start, needed, perm);
    TourShape([start] + perm);
  }

  lemma DirectShape(start: CenterId, needed: seq<CenterId>)
    requires Distinct(needed)
    ensures DirectPath(start, Others(needed, start))[0] == Center(start)
    ensures WellShaped(DirectPath(start, Others(needed, start)), needed)
  {
    StartAndOrdering(start, needed, Others(needed, start));
    ChainShape([start] + Others(needed, start));
  }

  lemma StartPathsShape(start: CenterId, needed: seq<CenterId>)
    requires Distinct(needed)
    ensures forall k | 0 <= k < |StartPaths(start, needed)| ::
      StartPaths(start, needed)[k][0] == Center(start) && WellShaped(StartPaths(start, needed)[k], needed)
  {
    var others := Others(needed, start);
    var perms := Permutations(others);
    var ps := StartPaths(start, needed);
    forall k | 0 <= k < |ps| ensures ps[k][0] == Center(start) && WellShaped(ps[k], needed) {
      if k < |perms| {
        BounceAt(start, needed, k);
      } else {
        DirectAt(start, needed, k);
      }
    }
  }

  /** The k-th path of a start, for k below the number of orderings, is a well-shaped bounce. */
  lemma BounceAt(start: CenterId, needed: seq<CenterId>, k: nat)
    requires Distinct(needed) && k < |Permutations(Others(needed, start))|
    ensures k < |StartPaths(start, needed)|
    ensures StartPaths(start, needed)[k][0] == Center(start) && WellShaped(StartPaths(start, needed)[k], needed)
  {
    var others := Others(needed, start);
    var perms := Permutations(others);
    var bounces := BouncePaths(start, perms);
    var ps := StartPaths(start, needed);
    assert ps == bounces + if |others| > 0 then [DirectPath(start, others)] else [];
    assert ps[k] == bounces[k] == BouncePath(start, perms[k]);
    PermutationsSound(others, perms[k]);
    BounceShape(start, needed, perms[k]);
  }

  /** The path of a start after its bounces is the well-shaped direct chain. */
  lemma DirectAt(start: CenterId, needed: seq<CenterId>, k: nat)
    requires Distinct(needed) && |Permutations(Others(needed, start))| <= k < |StartPaths(start, needed)|
    ensures StartPaths(start, needed)[k][0] == Center(start) && WellShaped(StartPaths(start, needed)[k], needed)
  {
    var others := Others(needed, start);
    var perms := Permutations(others);
    var bounces := BouncePaths(start, perms);
    var ps := StartPaths(start, needed);
    assert ps == bounces + if |others| > 0 then [DirectPath(start, others)] else [];
    assert ps[k] == DirectPath(start, others);
    DirectShape(start, needed);
  }

  lemma {:induction false} PathsForShape(needed: seq<CenterId>, starts: seq<CenterId>)
    requires Distinct(needed)
    ensures forall k | 0 <= k < |PathsFor(needed, starts)| :: WellShaped(PathsFor(needed, starts)[k], needed)
  {
    if |starts| > 0 {
      PathsForShape(needed, starts[..|starts| - 1]);
      StartPathsShape(starts[|starts| - 1], needed);
    }
  }

  /** Every generated path has the shape above; in particular each can be costed. */
  lemma CandidatesWellShaped(needed: seq<CenterId>)
    requires Distinct(needed)
    ensures forall k | 0 <= k < |CandidatePaths(needed)| ::
      WellShaped(CandidatePaths(needed)[k], needed) && Costable(CandidatePaths(needed)[k])
  {
    PathsForShape(needed, Centers);
  }

  /** A start contributes k! hub-bouncing paths and, when k > 0, one direct chain, where k is the
      number of needed centers other than the start. */
  lemma StartPathsCount(start: CenterId, needed: seq<CenterId>)
    requires Distinct(needed)
    ensures var k := |needed| - (if start in needed then 1 else 0);
      |StartPaths(start, needed)| == Factorial(k) + (if k > 0 then 1 else 0)
  {
    OthersListing(needed, start);
    PermutationsCount(Others(needed, start));
  }

  lemma {:induction false} PathsForCount(needed: seq<CenterId>, starts: seq<CenterId>)
    ensures |PathsFor(needed, starts)| >= |starts|
  {
    if |starts| > 0 {
      PathsForCount(needed, starts[..|starts| - 1]);
      PermutationsCount(Others(needed, starts[|starts| - 1]));
    }
  }

  /** The generator never comes back empty: each start yields at least one path. */
  lemma CandidatesNonEmpty(needed: seq<CenterId>)
    ensures |CandidatePaths(needed)| >= 3
  {
    PathsForCount(needed, Centers);
  }

  lemma {:induction false} PathsForIncludes(needed: seq<CenterId>, starts: seq<CenterId>, i: nat, k: nat)
    requires i < |starts| && k < |StartPaths(starts[i], needed)|
    ensures StartPaths(starts[i], needed)[k] in PathsFor(needed, starts)
  {
    var init := starts[..|starts| - 1];
    var base := PathsFor(needed, init);
    var sp := StartPaths(starts[|starts| - 1], needed);
    assert PathsFor(needed, starts) == base + sp;
    if i < |init| {
      assert init[i] == starts[i];
      PathsForIncludes(needed, init, i, k);
      assert StartPaths(starts[i], needed)[k] in base;
    } else {
      assert sp[k] in sp;
    }
  }

  /** Every ordering of the other needed centers is tried from every start. */
  lemma EveryOrderingTried(start: CenterId, needed: seq<CenterId>, perm: seq<CenterId>)
    requires multiset(perm) == multiset(Others(needed, start))
    ensures BouncePath(start, perm) in CandidatePaths(needed)
  {
    var others := Others(needed, start);
    var perms := Permutations(others);
    PermutationsComplete(others, perm);
    var k :| 0 <= k < |perms| && perms[k] == perm;
    var bounces := BouncePaths(start, perms);
    var sp := StartPaths(start, needed);
    assert sp == bounces + if |others| > 0 then [DirectPath(start, others)] else [];
    assert sp[k] == bounces[k] == BouncePath(start, perm);
    PathsForIncludes(needed, Centers, Rank(start), k);
  }
}
