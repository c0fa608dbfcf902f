/** `CarService.top_models_by_sales` (`src/bibip_car_service.py`): count the
    sales of each model name, rank the names by count (a stable sort, so ties
    keep the order in which the names were first met), keep the first three
    and attach to each the brand of the first model line with that name. */
module SalesRanking {
  import opened Wrappers
  import opened Fields
  import opened Seqs
  import opened Sorting
  import opened Models
  import opened CarService
  import opened CarQueries

  /** The model name `get_car_info` reports for a vin, when it reports a car. */
  function ModelNameOf(s: Service, vin: string): Option<string>
  {
    match GetCarInfo(s, vin)
    case Ok(Some(info)) => Some(info.carModelName)
    case _ => None
  }

  /** `get_car_info(vin).car_model_name` as a function of the vin. */
  function Resolver(s: Service): string -> Option<string> {
    (vin: string) => ModelNameOf(s, vin)
  }

  /** The names the counting loop sees: one per sale line, in file order, up
      to the first line whose vin field is missing or whose vin `resolve`
      maps to nothing (`get_car_info` returns `None` or raises); the `try`
      around the loop ends the count there. */
  function SoldNames(resolve: string -> Option<string>, lines: seq<Line>): (r: seq<string>)
    ensures |r| <= |lines|
    ensures forall i :: 0 <= i < |r| ==> |lines[i]| >= 2 && resolve(lines[i][1]) == Some(r[i])
    ensures |r| < |lines| ==> |lines[|r|]| < 2 || resolve(lines[|r|][1]).None?
    decreases |lines|
  {
    if |lines| == 0 || |lines[0]| < 2 then []
    else
      match resolve(lines[0][1])
      case None => []
      case Some(name) => [name] + SoldNames(resolve, lines[1..])
  }

  /** The names `top_models_by_sales` counts for the store. */
  function SoldNamesOf(s: Service): seq<string> {
    SoldNames(Resolver(s), s.sales)
  }

  /** One item of the `sales_count` dictionary. */
  datatype NameCount = NameCount(name: string, count: nat)

  function NameOf(e: NameCount): string {
    e.name
  }

  function NameIs(n: string): NameCount -> bool {
    (e: NameCount) => e.name == n
  }

  /** `sales_count[name] += 1` on a `defaultdict(int)`, as the list of
      items in insertion order: the item with that name is counted up in
      place, or a new item with count one is appended when there is none. */
  function Bump(t: seq<NameCount>, name: string): seq<NameCount> {
    match FirstWhere(t, NameIs(name))
    case Some(j) => t[j := t[j].(count := t[j].count + 1)]
    case None => t + [NameCount(name, 1)]
  }

  /** The `sales_count` items after counting `names` one after another. */
  function Tally(names: seq<string>): seq<NameCount>
    decreases |names|
  {
    if |names| == 0 then []
    else Bump(Tally(names[..|names| - 1]), names[|names| - 1])
  }

  function IsName(n: string): string -> bool {
    (x: string) => x == n
  }

  /** Where `n` first occurs in `names` (`|names|` when it does not). */
  function FirstAt(names: seq<string>, n: string): nat {
    match FirstWhere(names, IsName(n))
    case Some(i) => i
    case None => |names|
  }

  /** The names of the items, in order. */
  function Names(t: seq<NameCount>): (r: seq<string>)
    ensures |r| == |t|
    ensures forall i :: 0 <= i < |t| ==> r[i] == t[i].name
    decreases |t|
  {
    if |t| == 0 then [] else Names(t[..|t| - 1]) + [t[|t| - 1].name]
  }

  /** `t` is the tally of `names`: one item per distinct name, the name's
      number of occurrences as its count, and an item for every name that
      occurs. */
  ghost predicate CountsOf(t: seq<NameCount>, names: seq<string>) {
    && DistinctBy(t, NameOf)
    && (forall i :: 0 <= i < |t| ==> t[i].count == multiset(names)[t[i].name] >= 1)
    && (forall n :: multiset(names)[n] > 0 ==> n in Names(t))
  }

  /** Counting a name that already has item `j`. */
  lemma BumpCounted(t: seq<NameCount>, names: seq<string>, x: string, j: nat, t': seq<NameCount>)
    requires CountsOf(t, names) && IsFirst(t, NameIs(x), j)
    requires t' == t[j := t[j].(count := t[j].count + 1)]
    ensures CountsOf(t', names + [x])
  {
    BumpedCounts(t, names, x, j, t');
    BumpedCovers(t, names, x, j, t');
    forall a, b | 0 <= a < b < |t'|
      ensures NameOf(t'[a]) != NameOf(t'[b])
    {
      assert NameOf(t[a]) != NameOf(t[b]);
    }
  }

  /** Bumping item `j` adds one to the count of `x` and to nothing else. */
  lemma BumpedCounts(t: seq<NameCount>, names: seq<string>, x: string, j: nat, t': seq<NameCount>)
    requires CountsOf(t, names) && IsFirst(t, NameIs(x), j)
    requires t' == t[j := t[j].(count := t[j].count + 1)]
    ensures forall i :: 0 <= i < |t'| ==> t'[i].count == multiset(names + [x])[t'[i].name] >= 1
  {
    var names' := names + [x];
    forall i | 0 <= i < |t'|
      ensures t'[i].count == multiset(names')[t'[i].name] >= 1
    {
      if i < j {
        assert NameOf(t[i]) != NameOf(t[j]);
      } else if j < i {
        assert NameOf(t[j]) != NameOf(t[i]);
      }
    }
  }

  /** Bumping an item keeps every counted name listed. */
  lemma BumpedCovers(t: seq<NameCount>, names: seq<string>, x: string, j: nat, t': seq<NameCount>)
    requires CountsOf(t, names) && IsFirst(t, NameIs(x), j)
    requires t' == t[j := t[j].(count := t[j].count + 1)]
    ensures forall n :: multiset(names + [x])[n] > 0 ==> n in Names(t')
  {
    var names' := names + [x];
    assert Names(t') == Names(t);
    forall n | multiset(names')[n] > 0
      ensures n in Names(t')
    {
      if n == x {
        assert Names(t)[j] == x;
      } else {
        assert multiset(names)[n] > 0;
      }
    }
  }

  /** Counting a name that has no item yet. */
  lemma BumpNew(t: seq<NameCount>, names: seq<string>, x: string, t': seq<NameCount>)
    requires CountsOf(t, names) && NoneMatch(t, NameIs(x))
    requires t' == t + [NameCount(x, 1)]
    ensures CountsOf(t', names + [x])
  {
    var names' := names + [x];
    assert Names(t') == Names(t) + [x];
    forall i | 0 <= i < |t|
      ensures t[i].name != x
    {
      assert !NameIs(x)(t[i]);
    }
    assert x !in Names(t);
  }

  /** Counting one more name keeps the tally exact. */
  lemma BumpCounts(t: seq<NameCount>, init: seq<string>, x: string, names: seq<string>)
    requires CountsOf(t, init) && names == init + [x]
    ensures CountsOf(Bump(t, x), names)
  {
    match FirstWhere(t, NameIs(x))
    case Some(j) => BumpCounted(t, init, x, j, Bump(t, x));
    case None => BumpNew(t, init, x, Bump(t, x));
  }

  /** `Tally(names)` is the tally of `names`. */
  lemma {:induction false} TallyCounts(names: seq<string>)
    ensures CountsOf(Tally(names), names)
    decreases |names|
  {
    if |names| > 0 {
      var init := names[..|names| - 1];
      TallyCounts(init);
      assert names == init + [names[|names| - 1]];
      BumpCounts(Tally(init), init, names[|names| - 1], names);
    }
  }

  /** The items of `t` follow the first occurrences of their names in `names`. */
  ghost predicate InFirstOrder(t: seq<NameCount>, names: seq<string>) {
    forall i, j :: 0 <= i < j < |t| ==> FirstAt(names, t[i].name) < FirstAt(names, t[j].name)
  }

  /** A name that occurs keeps its first occurrence when more names follow. */
  lemma FirstAtKept(init: seq<string>, x: string, n: string)
    requires n in init
    ensures FirstAt(init + [x], n) == FirstAt(init, n) < |init|
  {
    FirstWhereAppend(init, x, IsName(n));
    var k :| 0 <= k < |init| && init[k] == n;
    assert IsName(n)(init[k]);
  }

  /** Every tallied name keeps its first occurrence when one more name is counted. */
  lemma FirstAtsKept(t: seq<NameCount>, init: seq<string>, x: string)
    requires CountsOf(t, init)
    ensures forall i :: 0 <= i < |t| ==> FirstAt(init + [x], t[i].name) == FirstAt(init, t[i].name) < |init|
  {
    forall i | 0 <= i < |t|
      ensures FirstAt(init + [x], t[i].name) == FirstAt(init, t[i].name) < |init|
    {
      assert multiset(init)[t[i].name] >= 1;
      FirstAtKept(init, x, t[i].name);
    }
  }

  /** Counting a name that is not new renames nothing, so the order stays. */
  lemma OrderCounted(t: seq<NameCount>, init: seq<string>, x: string, j: nat, t': seq<NameCount>)
    requires CountsOf(t, init) && InFirstOrder(t, init) && j < |t|
    requires t' == t[j := t[j].(count := t[j].count + 1)]
    ensures InFirstOrder(t', init + [x])
  {
    FirstAtsKept(t, init, x);
  }

  /** A new name is appended, and its first occurrence is the last position. */
  lemma OrderNew(t: seq<NameCount>, init: seq<string>, x: string, t': seq<NameCount>)
    requires CountsOf(t, init) && InFirstOrder(t, init) && NoneMatch(t, NameIs(x))
    requires t' == t + [NameCount(x, 1)]
    ensures InFirstOrder(t', init + [x])
  {
    FirstAtsKept(t, init, x);
    assert x !in Names(t);
    assert x !in init;
    FirstWhereAppend(init, x, IsName(x));
    assert FirstAt(init + [x], x) == |init|;
  }

  /** Counting one more name keeps the items in first-occurrence order. */
  lemma BumpOrder(t: seq<NameCount>, init: seq<string>, x: string, names: seq<string>)
    requires CountsOf(t, init) && InFirstOrder(t, init) && names == init + [x]
    ensures InFirstOrder(Bump(t, x), names)
  {
    match FirstWhere(t, NameIs(x))
    case Some(j) => OrderCounted(t, init, x, j, Bump(t, x));
    case None => OrderNew(t, init, x, Bump(t, x));
  }

  /** The tally lists names in the order in which they first occur: the
      insertion order of a Python dictionary. */
  lemma {:induction false} TallyOrder(names: seq<string>)
    ensures InFirstOrder(Tally(names), names)
    decreases |names|
  {
    if |names| > 0 {
      var init := names[..|names| - 1];
      TallyOrder(init);
      TallyCounts(init);
      assert names == init + [names[|names| - 1]];
      BumpOrder(Tally(init), init, names[|names| - 1], names);
    }
  }

  // ----------------------------------------------------------- ranking

  /** The sort key `-count`: the larger count first. */
  function ByCountDesc(a: NameCount, b: NameCount): bool {
    a.count >= b.count
  }

  lemma ByCountDescIsTotalPreorder()
    ensures TotalPreorder(ByCountDesc)
  {
  }

  /** `sorted(sales_count.items(), key=lambda item: -item[1])`. */
  function Ranked(names: seq<string>): seq<NameCount> {
    Sort(Tally(names), ByCountDesc)
  }

  /** `xs[:3]`: the first three elements, or all of them when there are fewer. */
  function FirstThree<T>(xs: seq<T>): (r: seq<T>)
    ensures |r| <= 3 && |r| <= |xs| && r == xs[..|r|]
    ensures |r| < 3 ==> r == xs
  {
    if |xs| <= 3 then xs else xs[..3]
  }

  /** A model line whose name field is `n`. */
  function ModelNamed(n: string): Line -> bool {
    (l: Line) => |l| > 1 && l[1] == n
  }

  /** Where the brand scan for name `n` stops: the first model line with
      that name, or an earlier one without a name field (reading
      `model_data[1]` raises). */
  function NameStop(n: string): Line -> bool {
    (l: Line) => |l| < 2 || l[1] == n
  }

  /** The brand scan for the item stops at some line. */
  function Listed(models: seq<Line>): NameCount -> bool {
    (e: NameCount) => FirstWhere(models, NameStop(e.name)).Some?
  }

  /** The brand scan for the item stops at a line without a brand field, so
      the handler around the second loop ends it. */
  function Aborts(models: seq<Line>): NameCount -> bool {
    (e: NameCount) =>
      match FirstWhere(models, NameStop(e.name))
      case None => false
      case Some(m) => |models[m]| < 3
  }

  /** How many of the items the second loop gets through. */
  function AttachEnd(top: seq<NameCount>, models: seq<Line>): (r: nat)
    ensures r <= |top|
    ensures forall i :: 0 <= i < r ==> !Aborts(models)(top[i])
    ensures r < |top| ==> Aborts(models)(top[r])
  {
    match FirstWhere(top, Aborts(models))
    case None => |top|
    case Some(i) => i
  }

  /** Every model line has a name and a brand field. */
  predicate BrandsReadable(models: seq<Line>) {
    forall i :: 0 <= i < |models| ==> |models[i]| >= 3
  }

  /** The statistic reports the item's name and count and the brand of the
      first model line with that name. */
  ghost predicate StatsFor(st: ModelSaleStats, e: NameCount, models: seq<Line>) {
    && st.carModelName == e.name && st.salesNumber == e.count
    && exists m :: IsFirst(models, ModelNamed(e.name), m) && |models[m]| >= 3 && st.brand == models[m][2]
  }

  /** The second loop of `top_models_by_sales` over items none of which
      aborts it: for each item, the first model line with its name supplies
      the brand; an item whose name no model line carries is skipped. */
  function AttachAll(top: seq<NameCount>, models: seq<Line>): (r: seq<ModelSaleStats>)
    requires forall i :: 0 <= i < |top| ==> !Aborts(models)(top[i])
    ensures |r| == |Filter(top, Listed(models))|
    ensures forall k :: 0 <= k < |r| ==> StatsFor(r[k], Filter(top, Listed(models))[k], models)
    decreases |top|
  {
    if |top| == 0 then []
    else
      var e := top[|top| - 1];
      var found := FirstWhere(models, NameStop(e.name));
      assert !Aborts(models)(e);
      if found.Some? then
        assert IsFirst(models, ModelNamed(e.name), found.value);
        AttachAll(top[..|top| - 1], models) + [ModelSaleStats(e.name, models[found.value][2], e.count)]
      else
        AttachAll(top[..|top| - 1], models)
  }

  /** The items the brand loop gets through: of the first three ranked
      names, those before the first whose brand scan raises. */
  function ReportItems(names: seq<string>, models: seq<Line>): (r: seq<NameCount>)
    ensures forall i :: 0 <= i < |r| ==> !Aborts(models)(r[i])
  {
    var top := FirstThree(Ranked(names));
    top[..AttachEnd(top, models)]
  }

  /** The report on the counted `names`. */
  function Report(names: seq<string>, models: seq<Line>): (r: seq<ModelSaleStats>)
    ensures |r| <= 3
  {
    AttachAll(ReportItems(names, models), models)
  }

  /** `top_models_by_sales`: count the names the sales resolve to, rank
      them, keep the first three and attach brands to them until the brand
      scan first raises. */
  function TopModels(s: Service): seq<ModelSaleStats> {
    Report(SoldNamesOf(s), s.models)
  }

  /** With a name and a brand on every model line, the brand loop never
      raises and a name's scan finds the first line carrying it. */
  lemma AttachReadsAll(top: seq<NameCount>, models: seq<Line>)
    requires BrandsReadable(models)
    ensures AttachEnd(top, models) == |top|
    ensures forall i :: 0 <= i < |top| ==>
              (Listed(models)(top[i]) <==> FirstWhere(models, ModelNamed(top[i].name)).Some?)
  {
    forall i | 0 <= i < |top|
      ensures !Aborts(models)(top[i])
      ensures Listed(models)(top[i]) <==> FirstWhere(models, ModelNamed(top[i].name)).Some?
    {
      var n := top[i].name;
      match FirstWhere(models, NameStop(n))
      case None =>
        assert NoneMatch(models, ModelNamed(n));
      case Some(m) =>
        assert ModelNamed(n)(models[m]);
    }
  }

  /** Every ranked item counts its name's occurrences. */
  lemma RankedCounts(names: seq<string>)
    ensures forall i :: 0 <= i < |Ranked(names)| ==>
              Ranked(names)[i].count == multiset(names)[Ranked(names)[i].name] >= 1
  {
    TallyCounts(names);
    var t := Tally(names);
    var ranked := Ranked(names);
    forall i | 0 <= i < |ranked|
      ensures ranked[i].count == multiset(names)[ranked[i].name] >= 1
    {
      assert ranked[i] in multiset(t);
      var j :| 0 <= j < |t| && t[j] == ranked[i];
    }
  }

  /** How two items stand in the ranking: the earlier has at least the
      later's count, another name, and when the counts tie, a name that
      occurs first. */
  function RankedBefore(names: seq<string>): (NameCount, NameCount) -> bool {
    (a: NameCount, b: NameCount) =>
      && a.count >= b.count && a.name != b.name
      && (a.count == b.count ==> FirstAt(names, a.name) < FirstAt(names, b.name))
  }

  /** The ranking is by count, largest first, with one item per name and
      ties in first-occurrence order (the sort is stable). */
  lemma RankedOrder(names: seq<string>)
    ensures forall i, j :: 0 <= i < j < |Ranked(names)| ==> RankedBefore(names)(Ranked(names)[i], Ranked(names)[j])
  {
    var t := Tally(names);
    ByCountDescIsTotalPreorder();
    TallyCounts(names);
    TallyOrder(names);
    var before := (a: NameCount, b: NameCount) => FirstAt(names, a.name) < FirstAt(names, b.name);
    assert TiesOrdered(t, ByCountDesc, before);
    SortSorted(t, ByCountDesc);
    SortKeepsTies(t, ByCountDesc, before);
    SortKeepsDistinct(t, ByCountDesc, NameOf);
  }

  /** Each reported model counts every occurrence of its name. */
  lemma ReportCounts(names: seq<string>, models: seq<Line>)
    ensures forall k :: 0 <= k < |Report(names, models)| ==>
              Report(names, models)[k].salesNumber == multiset(names)[Report(names, models)[k].carModelName] >= 1
  {
    var read := ReportItems(names, models);
    RankedCounts(names);
    var counted := (e: NameCount) => e.count == multiset(names)[e.name] >= 1;
    assert forall i :: 0 <= i < |read| ==> counted(read[i]);
    FilterKeeps(read, Listed(models), counted);
  }

  /** Each statistic carries the brand of the first model line with its name. */
  lemma AttachAllBrands(top: seq<NameCount>, models: seq<Line>)
    requires forall i :: 0 <= i < |top| ==> !Aborts(models)(top[i])
    ensures forall k :: 0 <= k < |AttachAll(top, models)| ==>
              exists m :: IsFirst(models, ModelNamed(AttachAll(top, models)[k].carModelName), m)
                          && AttachAll(top, models)[k].brand == models[m][2]
  {
    var listed := Filter(top, Listed(models));
    var r := AttachAll(top, models);
    forall k | 0 <= k < |r|
      ensures exists m :: IsFirst(models, ModelNamed(r[k].carModelName), m) && r[k].brand == models[m][2]
    {
      assert StatsFor(r[k], listed[k], models);
    }
  }

  /** Each reported brand is that of the first model line with the reported name. */
  lemma ReportBrands(names: seq<string>, models: seq<Line>)
    ensures forall k :: 0 <= k < |Report(names, models)| ==>
              exists m :: IsFirst(models, ModelNamed(Report(names, models)[k].carModelName), m)
                          && Report(names, models)[k].brand == models[m][2]
  {
    AttachAllBrands(ReportItems(names, models), models);
  }

  /** The statistics report the kept items' names and counts, in order. */
  lemma AttachAllItems(top: seq<NameCount>, models: seq<Line>)
    requires forall i :: 0 <= i < |top| ==> !Aborts(models)(top[i])
    ensures forall i :: 0 <= i < |AttachAll(top, models)| ==>
              ItemOf(AttachAll(top, models)[i]) == Filter(top, Listed(models))[i]
  {
    var listed := Filter(top, Listed(models));
    var r := AttachAll(top, models);
    forall i | 0 <= i < |r|
      ensures ItemOf(r[i]) == listed[i]
    {
      assert StatsFor(r[i], listed[i], models);
    }
  }

  /** The report is ordered by count, largest first, names no model twice,
      and lists models with equal counts in the order their names first occur. */
  lemma ReportOrdered(names: seq<string>, models: seq<Line>)
    ensures forall i, j :: 0 <= i < j < |Report(names, models)| ==>
              RankedBefore(names)(ItemOf(Report(names, models)[i]), ItemOf(Report(names, models)[j]))
  {
    var ranked := Ranked(names);
    var read := ReportItems(names, models);
    RankedOrder(names);
    assert forall i :: 0 <= i < |read| ==> read[i] == ranked[i];
    FilterPairs(read, Listed(models), RankedBefore(names));
    AttachAllItems(read, models);
  }

  /** The count item a statistic reports. */
  function ItemOf(st: ModelSaleStats): NameCount {
    NameCount(st.carModelName, st.salesNumber)
  }

  /** Every name that occurs has an item in the ranking. */
  lemma RankedCovers(names: seq<string>, n: string)
    requires multiset(names)[n] > 0
    ensures exists q :: 0 <= q < |Ranked(names)| && Ranked(names)[q].name == n
  {
    var t := Tally(names);
    TallyCounts(names);
    var j :| 0 <= j < |Names(t)| && Names(t)[j] == n;
    assert t[j] in multiset(Ranked(names));
  }

  /** A name that occurs more often than the item at place `p` of the
      ranking is ranked before it. */
  lemma RankedComplete(names: seq<string>, p: nat, n: string)
    requires p < |Ranked(names)|
    requires multiset(names)[n] > Ranked(names)[p].count
    ensures exists q :: 0 <= q < p && Ranked(names)[q].name == n
  {
    var ranked := Ranked(names);
    RankedCovers(names, n);
    var q :| 0 <= q < |ranked| && ranked[q].name == n;
    RankedCounts(names);
    ByCountDescIsTotalPreorder();
    SortSorted(Tally(names), ByCountDesc);
    assert p < q ==> ByCountDesc(ranked[p], ranked[q]);
  }

  /** Each statistic comes from one of the items, with its count. */
  lemma AttachAllFrom(top: seq<NameCount>, models: seq<Line>, k: nat) returns (p: nat)
    requires forall i :: 0 <= i < |top| ==> !Aborts(models)(top[i])
    requires k < |AttachAll(top, models)|
    ensures p < |top| && top[p].count == AttachAll(top, models)[k].salesNumber
  {
    var listed := Filter(top, Listed(models));
    FilterMembers(top, Listed(models));
    assert StatsFor(AttachAll(top, models)[k], listed[k], models);
    assert listed[k] in top;
    p :| 0 <= p < |top| && top[p] == listed[k];
  }

  /** An item whose brand scan finds a line gets a statistic. */
  lemma AttachAllKeeps(top: seq<NameCount>, models: seq<Line>, q: nat)
    requires forall i :: 0 <= i < |top| ==> !Aborts(models)(top[i])
    requires q < |top| && Listed(models)(top[q])
    ensures exists i :: 0 <= i < |AttachAll(top, models)| && AttachAll(top, models)[i].carModelName == top[q].name
  {
    var listed := Filter(top, Listed(models));
    FilterMembers(top, Listed(models));
    var i :| 0 <= i < |listed| && listed[i] == top[q];
    assert StatsFor(AttachAll(top, models)[i], listed[i], models);
  }

  /** Over model lines that all carry a name and a brand, every one of the
      first three ranked items goes through the brand loop. */
  lemma ReportReadsAll(names: seq<string>, models: seq<Line>)
    requires BrandsReadable(models)
    ensures Report(names, models) == AttachAll(FirstThree(Ranked(names)), models)
  {
    var top := FirstThree(Ranked(names));
    AttachReadsAll(top, models);
    assert top[..|top|] == top;
  }

  /** Over model lines that all carry a name and a brand, the report on
      `names` lists every name counted more often than a listed one, unless
      no model line carries it. */
  lemma ReportComplete(names: seq<string>, models: seq<Line>, k: nat, n: string)
    requires BrandsReadable(models)
    requires k < |Report(names, models)|
    requires multiset(names)[n] > Report(names, models)[k].salesNumber
    requires FirstWhere(models, ModelNamed(n)).Some?
    ensures exists i :: 0 <= i < |Report(names, models)| && Report(names, models)[i].carModelName == n
  {
    var ranked := Ranked(names);
    var top := FirstThree(ranked);
    ReportReadsAll(names, models);
    var p := AttachAllFrom(top, models, k);
    assert top[p] == ranked[p];
    RankedComplete(names, p, n);
    var q :| 0 <= q < p && ranked[q].name == n;
    assert top[q] == ranked[q];
    assert Listed(models)(top[q]) by {
      AttachReadsAll(top, models);
    }
    AttachAllKeeps(top, models, q);
  }

  /** Each model `top_models_by_sales` reports counts the occurrences of
      its name among the names resolved from sales.txt before the first sale
      line that fails to resolve. */
  lemma TopModelsCounts(s: Service)
    ensures forall k :: 0 <= k < |TopModels(s)| ==>
              TopModels(s)[k].salesNumber == multiset(SoldNamesOf(s))[TopModels(s)[k].carModelName] >= 1
  {
    assert TopModels(s) == Report(SoldNamesOf(s), s.models);
    ReportCounts(SoldNamesOf(s), s.models);
  }

  /** `top_models_by_sales` is ordered by sales, largest first, names no
      model twice, and lists models with equal sales in the order their
      names are first resolved from sales.txt. */
  lemma TopModelsOrdered(s: Service)
    ensures |TopModels(s)| <= 3
    ensures forall i, j :: 0 <= i < j < |TopModels(s)| ==>
              RankedBefore(SoldNamesOf(s))(ItemOf(TopModels(s)[i]), ItemOf(TopModels(s)[j]))
  {
    assert TopModels(s) == Report(SoldNamesOf(s), s.models);
    ReportOrdered(SoldNamesOf(s), s.models);
  }

  /** Each brand `top_models_by_sales` reports is that of the first line of
      models.txt with the reported name. */
  lemma TopModelsBrands(s: Service)
    ensures forall k :: 0 <= k < |TopModels(s)| ==>
              exists m :: IsFirst(s.models, ModelNamed(TopModels(s)[k].carModelName), m)
                          && TopModels(s)[k].brand == s.models[m][2]
  {
    assert TopModels(s) == Report(SoldNamesOf(s), s.models);
    ReportBrands(SoldNamesOf(s), s.models);
  }

  /** Over a models.txt whose every line has a name and a brand,
      `top_models_by_sales` leaves out no model name that sells more than a
      reported one and that some line of models.txt carries. */
  lemma TopModelsComplete(s: Service, k: nat, n: string)
    requires BrandsReadable(s.models)
    requires k < |TopModels(s)|
    requires multiset(SoldNamesOf(s))[n] > TopModels(s)[k].salesNumber
    requires FirstWhere(s.models, ModelNamed(n)).Some?
    ensures exists i :: 0 <= i < |TopModels(s)| && TopModels(s)[i].carModelName == n
  {
    assert TopModels(s) == Report(SoldNamesOf(s), s.models);
    ReportComplete(SoldNamesOf(s), s.models, k, n);
  }

}
