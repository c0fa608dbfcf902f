/** `CarService` (`src/bibip_car_service.py`): three record stores (models,
    cars, sales), each a data file of comma-separated lines and an in-memory
    index of (key, position) entries that is re-sorted by key after every
    change and written out wholesale to its index file, so the index file
    always mirrors the in-memory list and is not modelled separately.

    The model follows the code as written: no insert checks for a duplicate
    key, `sell_car` does not check whether the car is already sold, lookups
    are linear first-match scans, a new entry's position is the index length
    (not the data file's length), and `revert_sale` deletes sale lines without
    touching the sales index. A data file is kept as the lines it reads back
    as (see `Fields.Store`); the 50-column padding of the index lines is
    formatting only, since no read seeks by offset. */
module CarService {
  import opened Wrappers
  import opened Fields
  import opened Numerals
  import opened Seqs
  import opened Sorting
  import opened Models
  import opened Index

  /** The store: `models.txt`, `cars.txt`, `sales.txt` as split lines, and the
      three in-memory indexes (model ids are sorted as integers, vins and
      sales numbers as strings). */
  datatype Service = Service(models: seq<Line>, modelIndex: seq<Entry<int>>,
                             cars: seq<Line>, carIndex: seq<Entry<string>>,
                             sales: seq<Line>, salesIndex: seq<Entry<string>>)

  /** Why a call raises. `UnknownCar`, `UnknownSale` and `UnknownModel` are
      the service's own `ValueError`s (and the `TypeError` of `update_vin`'s
      `car_lines[None]`); `BadPosition` is the `IndexError` of reading a line
      number the data file does not have; `Malformed` is any error raised
      while picking fields out of a split line or converting them. */
  datatype Error =
    | UnknownCar(vin: string)
    | UnknownSale(salesNumber: string)
    | UnknownModel(modelId: int)
    | BadPosition(position: nat)
    | Malformed

  /** A mutating call: the store as it is left, and the value returned or the error raised. */
  datatype Outcome<T> = Outcome(after: Service, result: Result<T, Error>)

  /** Field 4 of a car line: the status. */
  const StatusField := 4

  /** The key a car or sale line carries: its first field (vin, sales number). */
  function FirstField(l: Line): Option<string> {
    Some(l[0])
  }

  /** The key a model line carries: `int` of its first field. */
  function ModelIdOf(l: Line): Option<int> {
    ParseInt(l[0])
  }

  /** A car line the service can rebuild a `Car` from. */
  predicate CarsOk(cars: seq<Line>) {
    forall i :: 0 <= i < |cars| ==> DecodeCar(cars[i]).Some?
  }

  /** Model lines have an integer id, a name and a brand. */
  predicate ModelsOk(models: seq<Line>) {
    forall i :: 0 <= i < |models| ==> |models[i]| >= 3 && ParseInt(models[i][0]).Some?
  }

  /** Sale lines have a number, a vin, a date and a cost. */
  predicate SalesOk(sales: seq<Line>) {
    forall i :: 0 <= i < |sales| ==> |sales[i]| >= 4
  }

  /** An insert appended its record at the end and left the earlier lines
      alone: at least one line, exactly one when no field holds a line
      break, and that line holds the written fields when they form a clean
      line (no comma, no line break, no blank at either end). */
  ghost predicate AppendsRecord(before: seq<Line>, after: seq<Line>, fields: seq<string>) {
    && |after| > |before|
    && after[..|before|] == before
    && (AllOnOneLine(fields) ==> |after| == |before| + 1)
    && (IsLine(fields) ==> after[|before|] == fields)
  }

  lemma StoreAppends(before: seq<Line>, fields: seq<string>)
    ensures AppendsRecord(before, before + Store(fields), fields)
  {
    if AllOnOneLine(fields) {
      StoreOneLine(fields);
    }
    if IsLine(fields) {
      StoreKeeps(fields);
    }
  }

  lemma StoreKey(fields: seq<string>)
    requires |fields| > 1
    ensures KeyField(fields[0]) ==> Store(fields)[0][0] == fields[0]
  {
    if KeyField(fields[0]) {
      StoreHead(fields);
    }
  }

  /** Line `p` replaced by the lines a rewrite of it reads back as: the
      lines before stay, the lines after move up or down. */
  function Splice(lines: seq<Line>, p: nat, written: seq<Line>): (r: seq<Line>)
    requires p < |lines|
    ensures |r| == |lines| - 1 + |written|
    ensures r[..p] == lines[..p] && r[p..p + |written|] == written && r[p + |written|..] == lines[p + 1..]
    ensures |written| == 1 ==> r == lines[p := written[0]]
  {
    lines[..p] + written + lines[p + 1..]
  }

  /** A line with one field replaced by a value holding no comma and no
      line break, and no blank where the line ends, is written back and
      read again as the same single line. */
  lemma RewriteKept(l: Line, f: nat, v: string)
    requires f < |l| && NoComma(v) && OnOneLine(v)
    requires f == 0 ==> LeadTrimmed(v)
    requires f == |l| - 1 ==> TailTrimmed(v)
    ensures IsLine(l[f := v]) && Store(l[f := v]) == [l[f := v]]
  {
    var line := l[f := v];
    assert AllNoComma(line) && AllOnOneLine(line) by {
      forall g | 0 <= g < |line|
        ensures NoComma(line[g]) && OnOneLine(line[g])
      {
        if g != f {
          assert line[g] == l[g];
        }
      }
    }
    StoreKeeps(line);
  }

  lemma RewriteOneLine(l: Line, f: nat, v: string)
    requires f < |l| && OnOneLine(v)
    ensures AllOnOneLine(l[f := v])
  {
    var line := l[f := v];
    forall g | 0 <= g < |line|
      ensures OnOneLine(line[g])
    {
      if g != f {
        assert line[g] == l[g];
      }
    }
  }

  /** Setting the status field of a line reads back as the same single line. */
  lemma StatusKept(l: Line, st: CarStatus)
    requires |l| > StatusField
    ensures IsLine(l[StatusField := st.Value()]) && Store(l[StatusField := st.Value()]) == [l[StatusField := st.Value()]]
  {
    var v := st.Value();
    assert NoComma(v) && OnOneLine(v) && TailTrimmed(v) by {
      match st
      case Available =>
      case Reserve =>
      case Sold =>
      case Delivery =>
    }
    RewriteKept(l, StatusField, v);
  }

  /** Model ids are written as decimal text, which needs no cleaning. */
  lemma IdIsKey(i: int)
    ensures KeyField(IntToString(i)) && TailTrimmed(IntToString(i))
  {
    IntToStringChars(i);
  }

  /** Field `f` of line `p` became `v`; every other line and every other field is unchanged. */
  ghost predicate FieldRewritten(before: seq<Line>, after: seq<Line>, p: nat, f: nat, v: string) {
    && |after| == |before|
    && p < |before| && f < |before[p]|
    && (forall q :: 0 <= q < |before| && q != p ==> after[q] == before[q])
    && after[p] == before[p][f := v]
  }

  /** The index gained one entry, keyed `k` at position `|before|`, and is sorted again. */
  ghost predicate IndexGains<K>(before: seq<Entry<K>>, after: seq<Entry<K>>, k: K, keyLe: (K, K) -> bool) {
    && multiset(after) == multiset(before) + multiset{Entry(k, |before|)}
    && SortedBy(after, ByKey(keyLe))
  }

  // ---------------------------------------------------------------- inserts

  /** The fields `add_model` writes: `id,name,brand`. */
  function ModelFields(m: Model): seq<string> {
    [IntToString(m.id), m.name, m.brand]
  }

  /** The fields `add_car` writes: `vin,model,price,date_start,status` (no `is_deleted`). */
  function CarFields(c: Car): seq<string> {
    [c.vin, IntToString(c.model), c.price, c.dateStart, c.status.Value()]
  }

  /** The fields `sell_car` writes: `sales_number,car_vin,sales_date,cost` (no `is_deleted`). */
  function SaleFields(sale: Sale): seq<string> {
    [sale.salesNumber, sale.carVin, sale.salesDate, sale.cost]
  }

  /** `add_model`: append the model line, index it at the old index length, re-sort by id. */
  function AddModel(s: Service, m: Model): (r: Service)
    ensures AppendsRecord(s.models, r.models, ModelFields(m))
    ensures ModelIdOf(r.models[|s.models|]) == Some(m.id)
    ensures IndexGains(s.modelIndex, r.modelIndex, m.id, IntLe)
    ensures |s.modelIndex| == |s.models| ==>
              Entry(m.id, |s.models|) in r.modelIndex && PointsAt(Entry(m.id, |s.models|), r.models, ModelIdOf)
    ensures r.cars == s.cars && r.carIndex == s.carIndex && r.sales == s.sales && r.salesIndex == s.salesIndex
  {
    var fields := ModelFields(m);
    StoreAppends(s.models, fields);
    IdIsKey(m.id);
    StoreHead(fields);
    ParseIntOfString(m.id);
    IntLeIsTotalPreorder();
    AddEntrySorted(s.modelIndex, m.id, IntLe);
    assert Entry(m.id, |s.modelIndex|) in multiset(AddEntry(s.modelIndex, m.id, IntLe));
    s.(models := s.models + Store(fields), modelIndex := AddEntry(s.modelIndex, m.id, IntLe))
  }

  /** The car store with `c` appended, as far as one line is concerned. */
  lemma CarAppended(cars: seq<Line>, c: Car)
    ensures AppendsRecord(cars, cars + Store(CarFields(c)), CarFields(c))
    ensures KeyField(c.vin) ==> FirstField((cars + Store(CarFields(c)))[|cars|]) == Some(c.vin)
    ensures IsLine(CarFields(c)) ==> DecodeCar((cars + Store(CarFields(c)))[|cars|]) == Some(c.(isDeleted := false))
  {
    var fields := CarFields(c);
    StoreAppends(cars, fields);
    StoreKey(fields);
    ParseIntOfString(c.model);
    StatusValues(c.status);
  }

  /** `add_car`: append the car line, index it at the old index length, re-sort by vin. */
  function AddCar(s: Service, c: Car): (r: Service)
    ensures AppendsRecord(s.cars, r.cars, CarFields(c))
    ensures KeyField(c.vin) ==> FirstField(r.cars[|s.cars|]) == Some(c.vin)
    ensures IsLine(CarFields(c)) ==> DecodeCar(r.cars[|s.cars|]) == Some(c.(isDeleted := false))
    ensures IndexGains(s.carIndex, r.carIndex, c.vin, StrLe)
    ensures |s.carIndex| == |s.cars| && KeyField(c.vin) ==>
              Entry(c.vin, |s.cars|) in r.carIndex && PointsAt(Entry(c.vin, |s.cars|), r.cars, FirstField)
    ensures r.models == s.models && r.modelIndex == s.modelIndex && r.sales == s.sales && r.salesIndex == s.salesIndex
  {
    var fields := CarFields(c);
    CarAppended(s.cars, c);
    StrLeIsTotalPreorder();
    AddEntrySorted(s.carIndex, c.vin, StrLe);
    assert Entry(c.vin, |s.carIndex|) in multiset(AddEntry(s.carIndex, c.vin, StrLe));
    s.(cars := s.cars + Store(fields), carIndex := AddEntry(s.carIndex, c.vin, StrLe))
  }

  /** The keys the stores are indexed by, against the `index()` accessors:
      a car line carries `Car.index()` and a model line `Model.index()` read
      as an integer, but a sale line is indexed by its sales number while
      `Sale.index()` is the car's vin, so the two agree only when they are
      the same text. */
  lemma StoreKeys(c: Car, m: Model, sale: Sale)
    ensures KeyField(c.vin) ==> FirstField(Store(CarFields(c))[0]) == Some(CarKey(c))
    ensures ModelIdOf(Store(ModelFields(m))[0]) == ParseInt(ModelKey(m)) == Some(m.id)
    ensures KeyField(sale.salesNumber) ==>
              (FirstField(Store(SaleFields(sale))[0]) == Some(SaleKey(sale)) <==> sale.salesNumber == sale.carVin)
  {
    if KeyField(c.vin) {
      StoreHead(CarFields(c));
    }
    IdIsKey(m.id);
    StoreHead(ModelFields(m));
    ParseIntOfString(m.id);
    if KeyField(sale.salesNumber) {
      StoreHead(SaleFields(sale));
    }
  }

  // ---------------------------------------------------------------- sell_car

  /** The field list of line `p` with field `f` set to `v`, as
      `car_lines[p].strip().split(",")` followed by `car_data[f] = v`, or
      the `IndexError` of either subscript. */
  function SetField(lines: seq<Line>, p: nat, f: nat, v: string): (r: Result<seq<string>, Error>)
    ensures r.Ok? <==> p < |lines| && f < |lines[p]|
    ensures r.Err? ==> r.error == (if p < |lines| then Malformed else BadPosition(p))
    ensures r.Ok? ==> |r.value| == |lines[p]| && r.value[f] == v
                      && forall g :: 0 <= g < |r.value| && g != f ==> r.value[g] == lines[p][g]
  {
    if p >= |lines| then Err(BadPosition(p))
    else if f >= |lines[p]| then Err(Malformed)
    else Ok(lines[p][f := v])
  }

  /** The first half of `sell_car`: append the sale line, index it at the
      old index length and re-sort by sales number. */
  function RecordSale(s: Service, sale: Sale): (r: Service)
    ensures AppendsRecord(s.sales, r.sales, SaleFields(sale))
    ensures IndexGains(s.salesIndex, r.salesIndex, sale.salesNumber, StrLe)
    ensures |s.salesIndex| == |s.sales| && KeyField(sale.salesNumber) ==>
              && Entry(sale.salesNumber, |s.sales|) in r.salesIndex
              && PointsAt(Entry(sale.salesNumber, |s.sales|), r.sales, FirstField)
    ensures r.models == s.models && r.modelIndex == s.modelIndex && r.cars == s.cars && r.carIndex == s.carIndex
  {
    var fields := SaleFields(sale);
    StoreAppends(s.sales, fields);
    StoreKey(fields);
    StrLeIsTotalPreorder();
    AddEntrySorted(s.salesIndex, sale.salesNumber, StrLe);
    assert Entry(sale.salesNumber, |s.salesIndex|) in multiset(AddEntry(s.salesIndex, sale.salesNumber, StrLe));
    s.(sales := s.sales + Store(fields), salesIndex := AddEntry(s.salesIndex, sale.salesNumber, StrLe))
  }

  /** `sell_car`: record the sale (always), then look the vin up in the car
      index, set field 4 of that car's line to `sold`, write `cars.txt` back
      and return the car rebuilt from the in-memory fields. Every failure
      after the sale write leaves the sale behind. */
  function SellCar(s: Service, sale: Sale): (r: Outcome<Car>)
    ensures r.after.sales == RecordSale(s, sale).sales && r.after.salesIndex == RecordSale(s, sale).salesIndex
    ensures r.after.models == s.models && r.after.modelIndex == s.modelIndex && r.after.carIndex == s.carIndex
    ensures Lookup(s.carIndex, sale.carVin).None? ==> r.result == Err(UnknownCar(sale.carVin)) && r.after.cars == s.cars
    ensures r.result.Ok? ==> Lookup(s.carIndex, sale.carVin).Some? && r.result.value.status == Sold
  {
    var half := RecordSale(s, sale);
    match Lookup(s.carIndex, sale.carVin)
    case None => Outcome(half, Err(UnknownCar(sale.carVin)))
    case Some(p) =>
      match SetField(s.cars, p, StatusField, Sold.Value())
      case Err(e) => Outcome(half, Err(e))
      case Ok(line) =>
        var written := half.(cars := Splice(half.cars, p, Store(line)));
        match DecodeCar(line)
        case None => Outcome(written, Err(Malformed))
        case Some(car) => Outcome(written, Ok(car))
  }

  /** A vin the car index sends to a line `cars.txt` does not have, or to a
      line without a status field, raises before `cars.txt` is written. */
  lemma SellCarBadLine(s: Service, sale: Sale, p: nat)
    requires Lookup(s.carIndex, sale.carVin) == Some(p)
    requires p >= |s.cars| || |s.cars[p]| <= StatusField
    ensures SellCar(s, sale).after.cars == s.cars
    ensures SellCar(s, sale).result == Err(if p < |s.cars| then Malformed else BadPosition(p))
  {
  }

  /** A sale of a car whose line has a status field rewrites that field to
      `sold`, leaves every other car line and field alone, and returns the
      stored car with status `Sold` whenever the line decodes; only a
      non-integer model field makes the call raise, after the write. */
  lemma SellCarMarksSold(s: Service, sale: Sale, p: nat)
    requires Lookup(s.carIndex, sale.carVin) == Some(p)
    requires p < |s.cars| && |s.cars[p]| > StatusField
    ensures var r := SellCar(s, sale);
      && FieldRewritten(s.cars, r.after.cars, p, StatusField, Sold.Value())
      && (r.result.Ok? <==> ParseInt(s.cars[p][1]).Some?)
      && (r.result.Err? ==> r.result.error == Malformed)
      && (DecodeCar(s.cars[p]).Some? ==> r.result == Ok(DecodeCar(s.cars[p]).value.(status := Sold)))
  {
    StatusKept(s.cars[p], Sold);
  }

  // --------------------------------------------------------------- update_vin

  /** `update_vin`: find the first car-index entry with the old vin (raising
      before any write when there is none), set field 0 of its line to the
      new vin, give that entry the new key with the same position, re-sort,
      write both files, and rebuild the car from the in-memory fields. */
  function UpdateVin(s: Service, vin: string, newVin: string): (r: Outcome<Car>)
    ensures Lookup(s.carIndex, vin).None? ==> r == Outcome(s, Err(UnknownCar(vin)))
    ensures r.after.models == s.models && r.after.modelIndex == s.modelIndex
    ensures r.after.sales == s.sales && r.after.salesIndex == s.salesIndex
    ensures r.result.Ok? ==> Lookup(s.carIndex, vin).Some? && r.result.value.vin == newVin
  {
    match LookupSlot(s.carIndex, vin)
    case None => Outcome(s, Err(UnknownCar(vin)))
    case Some(i) =>
      var p := s.carIndex[i].position;
      match SetField(s.cars, p, 0, newVin)
      case Err(e) => Outcome(s, Err(e))
      case Ok(line) =>
        var after := s.(cars := Splice(s.cars, p, Store(line)), carIndex := Rekey(s.carIndex, i, newVin, StrLe));
        match DecodeCar(line)
        case None => Outcome(after, Err(Malformed))
        case Some(car) => Outcome(after, Ok(car))
  }

  /** A first car-index entry for the old vin whose position `cars.txt` does
      not have raises before anything is written. */
  lemma UpdateVinStale(s: Service, vin: string, newVin: string, i: nat)
    requires LookupSlot(s.carIndex, vin) == Some(i)
    requires s.carIndex[i].position >= |s.cars|
    ensures UpdateVin(s, vin, newVin) == Outcome(s, Err(BadPosition(s.carIndex[i].position)))
  {
  }

  lemma UpdateVinWrites(s: Service, vin: string, newVin: string, i: nat)
    requires LookupSlot(s.carIndex, vin) == Some(i)
    requires s.carIndex[i].position < |s.cars|
    ensures var p := s.carIndex[i].position;
      && UpdateVin(s, vin, newVin).after.cars == Splice(s.cars, p, Store(s.cars[p][0 := newVin]))
      && UpdateVin(s, vin, newVin).after.carIndex == Rekey(s.carIndex, i, newVin, StrLe)
  {
  }

  /** Rewriting field 0 of line `p` to `v`, spliced in as the lines it reads back as. */
  lemma RenameSpliced(cars: seq<Line>, p: nat, v: string, after: seq<Line>)
    requires p < |cars| && after == Splice(cars, p, Store(cars[p][0 := v]))
    ensures OnOneLine(v) ==> |after| == |cars|
    ensures KeyField(v) && (|cars[p]| > 1 || TailTrimmed(v)) ==> FieldRewritten(cars, after, p, 0, v)
  {
    if OnOneLine(v) {
      RewriteOneLine(cars[p], 0, v);
      StoreOneLine(cars[p][0 := v]);
    }
    if KeyField(v) && (|cars[p]| > 1 || TailTrimmed(v)) {
      RewriteKept(cars[p], 0, v);
    }
  }

  /** Renaming a vin whose first car-index entry sits in slot `i` and points
      into `cars.txt`: the lines before that line stay, the lines after it
      follow the lines the rewritten record reads back as (just one unless
      the new vin holds a line break), and when the new vin is a clean key
      field only field 0 of that line changes. */
  lemma UpdateVinRenames(s: Service, vin: string, newVin: string, i: nat)
    requires LookupSlot(s.carIndex, vin) == Some(i)
    requires s.carIndex[i].position < |s.cars|
    ensures var p := s.carIndex[i].position;
      var after := UpdateVin(s, vin, newVin).after;
      var written := Store(s.cars[p][0 := newVin]);
      && |after.cars| == |s.cars| - 1 + |written|
      && after.cars[..p] == s.cars[..p]
      && after.cars[p..p + |written|] == written
      && after.cars[p + |written|..] == s.cars[p + 1..]
      && (OnOneLine(newVin) ==> |after.cars| == |s.cars|)
      && (KeyField(newVin) && (|s.cars[p]| > 1 || TailTrimmed(newVin)) ==>
            FieldRewritten(s.cars, after.cars, p, 0, newVin))
  {
    var p := s.carIndex[i].position;
    UpdateVinWrites(s, vin, newVin, i);
    RenameSpliced(s.cars, p, newVin, UpdateVin(s, vin, newVin).after.cars);
  }

  /** The same rename returns the stored car under the new vin exactly when
      its line decodes, and raises `Malformed` (after the write) otherwise. */
  lemma UpdateVinReturns(s: Service, vin: string, newVin: string, i: nat)
    requires LookupSlot(s.carIndex, vin) == Some(i)
    requires s.carIndex[i].position < |s.cars|
    ensures var p := s.carIndex[i].position;
      var r := UpdateVin(s, vin, newVin);
      && (r.result.Ok? <==> DecodeCar(s.cars[p]).Some?)
      && (r.result.Ok? ==> r.result.value == DecodeCar(s.cars[p]).value.(vin := newVin))
      && (r.result.Err? ==> r.result.error == Malformed)
  {
  }

  /** The same rename in the car index: the entry (old vin, p) is swapped for
      (new vin, p) and the index is sorted by vin again. */
  lemma UpdateVinRekeys(s: Service, vin: string, newVin: string, i: nat)
    requires LookupSlot(s.carIndex, vin) == Some(i)
    requires s.carIndex[i].position < |s.cars|
    ensures var p := s.carIndex[i].position;
      var r := UpdateVin(s, vin, newVin);
      && multiset(r.after.carIndex) == multiset(s.carIndex) - multiset{Entry(vin, p)} + multiset{Entry(newVin, p)}
      && SortedBy(r.after.carIndex, ByKey(StrLe))
  {
    var p := s.carIndex[i].position;
    UpdateVinWrites(s, vin, newVin, i);
    assert s.carIndex[i] == Entry(vin, p);
    StrLeIsTotalPreorder();
    RekeySorted(s.carIndex, i, newVin, StrLe);
  }

  // -------------------------------------------------------------- revert_sale

  function NumberIs(n: string): Line -> bool {
    (l: Line) => l[0] == n
  }

  function NumberIsNot(n: string): Line -> bool {
    (l: Line) => l[0] != n
  }

  /** A sale line numbered `n` without a vin field: reading its `sale_data[1]` raises. */
  function ShortSale(n: string): Line -> bool {
    (l: Line) => l[0] == n && |l| < 2
  }

  /** `revert_sale`: scan every sale line, remembering the vin of the last
      one numbered `n` and keeping the others in order; look that vin up in
      the car index, set field 4 of its line to `available`, write the kept
      sale lines (unpadded) and `cars.txt`, and rebuild the car. The sales
      index is left as it was, in memory and on file. */
  function RevertSale(s: Service, n: string): (r: Outcome<Car>)
    ensures NoneMatch(s.sales, NumberIs(n)) ==> r == Outcome(s, Err(UnknownSale(n)))
    ensures r.after == s || (r.after.sales == Filter(s.sales, NumberIsNot(n)) && |r.after.cars| == |s.cars|)
    ensures r.after.salesIndex == s.salesIndex
    ensures r.after.models == s.models && r.after.modelIndex == s.modelIndex && r.after.carIndex == s.carIndex
    ensures r.result.Ok? ==> r.result.value.status == Available && r.after.sales == Filter(s.sales, NumberIsNot(n))
  {
    if FirstWhere(s.sales, ShortSale(n)).Some? then Outcome(s, Err(Malformed))
    else
      match LastWhere(s.sales, NumberIs(n))
      case None => Outcome(s, Err(UnknownSale(n)))
      case Some(k) =>
        assert !ShortSale(n)(s.sales[k]);
        var vin := s.sales[k][1];
        match Lookup(s.carIndex, vin)
        case None => Outcome(s, Err(UnknownCar(vin)))
        case Some(p) =>
          match SetField(s.cars, p, StatusField, Available.Value())
          case Err(e) => Outcome(s, Err(e))
          case Ok(line) =>
            StatusKept(s.cars[p], Available);
            var after := s.(sales := Filter(s.sales, NumberIsNot(n)), cars := Splice(s.cars, p, Store(line)));
            match DecodeCar(line)
            case None => Outcome(after, Err(Malformed))
            case Some(car) => Outcome(after, Ok(car))
  }

  /** A sale line numbered `n` with no vin field makes the scan raise before anything is written. */
  lemma RevertSaleShortLine(s: Service, n: string, i: nat)
    requires i < |s.sales| && s.sales[i][0] == n && |s.sales[i]| < 2
    ensures RevertSale(s, n) == Outcome(s, Err(Malformed))
  {
    assert ShortSale(n)(s.sales[i]);
  }

  /** When the last sale line numbered `n` names a vin, the car index and
      `cars.txt` decide: an unknown vin, a stale position or a line without a
      status field raises with nothing written. */
  lemma RevertSaleCarErrors(s: Service, n: string, k: nat)
    requires NoneMatch(s.sales, ShortSale(n))
    requires IsLast(s.sales, NumberIs(n), k)
    ensures var vin := s.sales[k][1];
      && (Lookup(s.carIndex, vin).None? ==> RevertSale(s, n) == Outcome(s, Err(UnknownCar(vin))))
      && (Lookup(s.carIndex, vin).Some? && Lookup(s.carIndex, vin).value >= |s.cars| ==>
            RevertSale(s, n) == Outcome(s, Err(BadPosition(Lookup(s.carIndex, vin).value))))
      && (Lookup(s.carIndex, vin).Some? && Lookup(s.carIndex, vin).value < |s.cars|
          && |s.cars[Lookup(s.carIndex, vin).value]| <= StatusField ==>
            RevertSale(s, n) == Outcome(s, Err(Malformed)))
  {
    assert !ShortSale(n)(s.sales[k]);
    LastWhereFinds(s.sales, NumberIs(n), k);
  }

  /** The car named by the last sale line numbered `n`, found through the car
      index at a line with a status field: that field becomes `available`,
      nothing else in `cars.txt` changes, the sale lines numbered `n` go, and
      the stored car comes back with status `Available` whenever its line
      decodes. */
  lemma RevertSaleReverts(s: Service, n: string, k: nat, p: nat)
    requires NoneMatch(s.sales, ShortSale(n))
    requires IsLast(s.sales, NumberIs(n), k)
    requires Lookup(s.carIndex, s.sales[k][1]) == Some(p)
    requires p < |s.cars| && |s.cars[p]| > StatusField
    ensures var r := RevertSale(s, n);
      && FieldRewritten(s.cars, r.after.cars, p, StatusField, Available.Value())
      && r.after.sales == Filter(s.sales, NumberIsNot(n))
      && (r.result.Ok? <==> ParseInt(s.cars[p][1]).Some?)
      && (DecodeCar(s.cars[p]).Some? ==> r.result == Ok(DecodeCar(s.cars[p]).value.(status := Available)))
  {
    assert !ShortSale(n)(s.sales[k]);
    LastWhereFinds(s.sales, NumberIs(n), k);
    StatusKept(s.cars[p], Available);
  }

  /** After a revert that got as far as writing, no sale line is numbered
      `n` and every other sale line is still there. */
  lemma RevertSaleDropsSales(s: Service, n: string)
    requires RevertSale(s, n).after != s
    ensures NoneMatch(RevertSale(s, n).after.sales, NumberIs(n))
    ensures forall i :: 0 <= i < |s.sales| && s.sales[i][0] != n ==> s.sales[i] in RevertSale(s, n).after.sales
  {
    var kept := Filter(s.sales, NumberIsNot(n));
    FilterMembers(s.sales, NumberIsNot(n));
    forall j | 0 <= j < |kept|
      ensures !NumberIs(n)(kept[j])
    {
      assert NumberIsNot(n)(kept[j]);
    }
  }

  // ----------------------------------------------------- index consistency

  /** Every index agrees with its data file: one entry per line, each entry
      pointing at its own line, and that line carrying the entry's key. */
  ghost predicate Indexed(s: Service) {
    && Consistent(s.modelIndex, s.models, ModelIdOf)
    && Consistent(s.carIndex, s.cars, FirstField)
    && Consistent(s.salesIndex, s.sales, FirstField)
  }

  /** `add_model` keeps every index consistent when neither the name nor
      the brand holds a line break: the model is indexed at the one line it
      was appended on, and that line starts with its id. */
  lemma AddModelIndexed(s: Service, m: Model)
    requires Indexed(s)
    requires OnOneLine(m.name) && OnOneLine(m.brand)
    ensures Indexed(AddModel(s, m))
  {
    var fields := ModelFields(m);
    IdIsKey(m.id);
    StoreOneLine(fields);
    StoreHead(fields);
    ParseIntOfString(m.id);
    assert Store(fields) == [Store(fields)[0]];
    AddEntryConsistent(s.modelIndex, s.models, ModelIdOf, Store(fields)[0], m.id, IntLe);
  }

  /** A line break in a model name is not escaped: the record is written
      across two lines while the index gains one entry, so a consistent
      store stops being consistent. */
  lemma AddModelNameBreak(s: Service, m: Model, a: string, b: string)
    requires m.name == a + "\n" + b && OnOneLine(a)
    ensures |AddModel(s, m).models| >= |s.models| + 2
    ensures Indexed(s) ==> !Indexed(AddModel(s, m))
  {
    var fields := ModelFields(m);
    var id := IntToString(m.id);
    IdIsKey(m.id);
    var j := Join(fields);
    var pad := Padded(j)[|j|..];
    assert Padded(j) == j + pad;
    var x := id + "," + a;
    var w := b + "," + m.brand + pad + "\n";
    assert fields[1..] == [m.name, m.brand];
    assert Join([m.name, m.brand]) == m.name + "," + m.brand by {
      assert [m.name, m.brand][1..] == [m.brand];
    }
    assert RecordText(fields) == x + ("\n" + w);
    OnOneLineConcat(id, ",");
    OnOneLineConcat(id + ",", a);
    TextLinesPrefix(x, "\n" + w);
    assert TextLines("\n" + w) == [""] + TextLines(w);
    assert |Store(fields)| >= 2;
  }

  /** `add_car` keeps every index consistent when the vin is a clean key
      field and no other field holds a line break. */
  lemma AddCarIndexed(s: Service, c: Car)
    requires Indexed(s)
    requires KeyField(c.vin) && OnOneLine(c.price) && OnOneLine(c.dateStart)
    ensures Indexed(AddCar(s, c))
  {
    var fields := CarFields(c);
    IdIsKey(c.model);
    StatusValues(c.status);
    assert AllOnOneLine(fields);
    StoreOneLine(fields);
    StoreHead(fields);
    assert Store(fields) == [Store(fields)[0]];
    AddEntryConsistent(s.carIndex, s.cars, FirstField, Store(fields)[0], c.vin, StrLe);
  }

  /** Recording a sale keeps every index consistent when the sales number
      is a clean key field and no sale field holds a line break. */
  lemma RecordSaleIndexed(s: Service, sale: Sale)
    requires Indexed(s)
    requires KeyField(sale.salesNumber)
    requires OnOneLine(sale.carVin) && OnOneLine(sale.salesDate) && OnOneLine(sale.cost)
    ensures Indexed(RecordSale(s, sale))
  {
    var fields := SaleFields(sale);
    assert AllOnOneLine(fields);
    StoreOneLine(fields);
    StoreHead(fields);
    assert Store(fields) == [Store(fields)[0]];
    AddEntryConsistent(s.salesIndex, s.sales, FirstField, Store(fields)[0], sale.salesNumber, StrLe);
  }

  /** The car line `sell_car` rewrites keeps its vin, so the car index
      stays consistent whether the call returns or raises. */
  lemma SellCarKeepsCarIndex(s: Service, sale: Sale)
    requires Consistent(s.carIndex, s.cars, FirstField)
    ensures Consistent(SellCar(s, sale).after.carIndex, SellCar(s, sale).after.cars, FirstField)
  {
    var after := SellCar(s, sale).after;
    match Lookup(s.carIndex, sale.carVin)
    case None =>
    case Some(p) =>
      if p < |s.cars| && |s.cars[p]| > StatusField {
        SellCarMarksSold(s, sale, p);
        var line := s.cars[p][StatusField := Sold.Value()];
        StatusKept(s.cars[p], Sold);
        assert after.cars == s.cars[p := line];
        ReplaceConsistent(s.carIndex, s.cars, FirstField, p, line);
      } else {
        SellCarBadLine(s, sale, p);
      }
  }

  /** `sell_car` keeps every index consistent, whether it returns or raises,
      under the same conditions as recording the sale. */
  lemma SellCarIndexed(s: Service, sale: Sale)
    requires Indexed(s)
    requires KeyField(sale.salesNumber)
    requires OnOneLine(sale.carVin) && OnOneLine(sale.salesDate) && OnOneLine(sale.cost)
    ensures Indexed(SellCar(s, sale).after)
  {
    RecordSaleIndexed(s, sale);
    SellCarKeepsCarIndex(s, sale);
  }

  /** `update_vin` keeps every index consistent when the new vin is a clean
      key field (and has no trailing blank, unless every car line has a
      field after the vin): the re-keyed entry still points at the line
      that now carries the new vin. */
  lemma UpdateVinIndexed(s: Service, vin: string, newVin: string)
    requires Indexed(s)
    requires KeyField(newVin)
    requires TailTrimmed(newVin) || forall q :: 0 <= q < |s.cars| ==> |s.cars[q]| > 1
    ensures Indexed(UpdateVin(s, vin, newVin).after)
  {
    match LookupSlot(s.carIndex, vin)
    case None =>
    case Some(i) =>
      var p := s.carIndex[i].position;
      if p < |s.cars| {
        var line := s.cars[p][0 := newVin];
        var after := UpdateVin(s, vin, newVin).after;
        UpdateVinWrites(s, vin, newVin, i);
        RewriteKept(s.cars[p], 0, newVin);
        assert after.cars == s.cars[p := line];
        RekeyConsistent(s.carIndex, s.cars, FirstField, i, line, newVin, StrLe);
      } else {
        UpdateVinStale(s, vin, newVin, i);
      }
  }

  /** `revert_sale` keeps the model and car indexes consistent. */
  lemma RevertSaleKeepsCarIndex(s: Service, n: string)
    requires Indexed(s)
    ensures Consistent(RevertSale(s, n).after.modelIndex, RevertSale(s, n).after.models, ModelIdOf)
    ensures Consistent(RevertSale(s, n).after.carIndex, RevertSale(s, n).after.cars, FirstField)
  {
    if FirstWhere(s.sales, ShortSale(n)).None? {
      match LastWhere(s.sales, NumberIs(n))
      case None =>
      case Some(k) =>
        assert !ShortSale(n)(s.sales[k]);
        match Lookup(s.carIndex, s.sales[k][1])
        case None =>
        case Some(p) =>
          if p < |s.cars| && |s.cars[p]| > StatusField {
            var line := s.cars[p][StatusField := Available.Value()];
            StatusKept(s.cars[p], Available);
            assert RevertSale(s, n).after.cars == s.cars[p := line];
            ReplaceConsistent(s.carIndex, s.cars, FirstField, p, line);
          }
    }
  }

  /** One car, sold twice: two sale lines for vin `V`, both indexed. */
  function TwoSales(): Service {
    Service([], [], [["V", "1", "p", "d", "sold"]], [Entry("V", 0)],
            [["S1", "V", "d", "c"], ["S2", "V", "d", "c"]], [Entry("S1", 0), Entry("S2", 1)])
  }

  lemma TwoSalesIndexed()
    ensures Indexed(TwoSales())
  {
    var s := TwoSales();
    assert PointsAt(s.salesIndex[0], s.sales, FirstField) && PointsAt(s.salesIndex[1], s.sales, FirstField);
    assert Position(s.salesIndex[0]) != Position(s.salesIndex[1]);
    assert PointsAt(s.carIndex[0], s.cars, FirstField);
  }

  /** The sales index is not: reverting the first of two consistently
      indexed sales leaves a two-entry index over a one-line `sales.txt`,
      whose second entry points past its end. */
  lemma RevertSaleLeavesSalesIndexStale()
    ensures Indexed(TwoSales())
    ensures |RevertSale(TwoSales(), "S1").after.sales| == 1
    ensures RevertSale(TwoSales(), "S1").after.salesIndex == TwoSales().salesIndex
    ensures !Indexed(RevertSale(TwoSales(), "S1").after)
  {
    TwoSalesIndexed();
    var s := TwoSales();
    assert !ShortSale("S1")(s.sales[0]) && !ShortSale("S1")(s.sales[1]);
    assert IsLast(s.sales, NumberIs("S1"), 0);
    assert Lookup(s.carIndex, "V") == Some(0);
    RevertSaleReverts(s, "S1", 0, 0);
    assert Filter(s.sales, NumberIsNot("S1")) == [s.sales[1]];
  }


}
