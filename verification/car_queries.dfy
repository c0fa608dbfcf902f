/** The read-side queries of `CarService` (`src/bibip_car_service.py`):
    `get_cars`, a status filter over `cars.txt`, and `get_car_info`, a join
    of the first car line with a vin, its model line and its first sale
    line. Both read the data files directly, not the indexes. */
module CarQueries {
  import opened Wrappers
  import opened Fields
  import opened Numerals
  import opened Seqs
  import opened Models
  import opened CarService

  // ----------------------------------------------------------------- get_cars

  function StatusIs(status: CarStatus): Line -> bool {
    (l: Line) => |l| > StatusField && l[StatusField] == status.Value()
  }

  /** A line at which the `get_cars` loop raises, so that its catch-all
      handler ends the scan: a line without a status field, or a line with
      the wanted status whose model field `int` rejects. */
  function Breaks(status: CarStatus): Line -> bool {
    (l: Line) => |l| <= StatusField || (l[StatusField] == status.Value() && ParseInt(l[1]).None?)
  }

  /** How many lines of `cars.txt` the `get_cars` loop gets through. */
  function ScanEnd(cars: seq<Line>, status: CarStatus): (r: nat)
    ensures r <= |cars|
    ensures forall i :: 0 <= i < r ==> !Breaks(status)(cars[i])
    ensures r < |cars| ==> Breaks(status)(cars[r])
  {
    match FirstWhere(cars, Breaks(status))
    case None => |cars|
    case Some(i) => i
  }

  /** A line the service can rebuild a `Car` from. */
  predicate Decodes(l: Line) {
    DecodeCar(l).Some?
  }

  /** The cars rebuilt from decodable lines, in line order. */
  function DecodeAll(lines: seq<Line>): (r: seq<Car>)
    requires CarsOk(lines)
    ensures |r| == |lines|
    ensures forall k :: 0 <= k < |r| ==> Some(r[k]) == DecodeCar(lines[k])
    decreases |lines|
  {
    if |lines| == 0 then []
    else DecodeAll(lines[..|lines| - 1]) + [DecodeCar(lines[|lines| - 1]).value]
  }

  /** One more line of the `get_cars` scan. */
  lemma DecodeStep(cars: seq<Line>, i: nat, p: Line -> bool)
    requires i < |cars|
    requires CarsOk(Filter(cars[..i], p))
    requires p(cars[i]) ==> Decodes(cars[i])
    ensures CarsOk(Filter(cars[..i + 1], p))
    ensures DecodeAll(Filter(cars[..i + 1], p))
         == DecodeAll(Filter(cars[..i], p)) + (if p(cars[i]) then [DecodeCar(cars[i]).value] else [])
  {
    FilterStep(cars, i, p);
    var seen := Filter(cars[..i], p);
    if p(cars[i]) {
      assert (seen + [cars[i]])[..|seen|] == seen;
    }
  }

  /** After `i` lines the scan has not raised and has rebuilt, in order,
      the cars of the lines with the wanted status. */
  ghost predicate ScannedTo(cars: seq<Line>, status: CarStatus, i: nat, r: seq<Car>) {
    && i <= |cars|
    && (forall j :: 0 <= j < i ==> !Breaks(status)(cars[j]))
    && CarsOk(Filter(cars[..i], StatusIs(status)))
    && r == DecodeAll(Filter(cars[..i], StatusIs(status)))
  }

  /** A line the scan gets past adds its car exactly when it has the wanted status. */
  lemma ScanStep(cars: seq<Line>, status: CarStatus, i: nat, r: seq<Car>)
    requires ScannedTo(cars, status, i, r)
    requires i < |cars| && !Breaks(status)(cars[i])
    ensures StatusIs(status)(cars[i]) ==> Decodes(cars[i])
    ensures ScannedTo(cars, status, i + 1,
                      r + if StatusIs(status)(cars[i]) then [DecodeCar(cars[i]).value] else [])
  {
    StatusValues(status);
    DecodeStep(cars, i, StatusIs(status));
  }

  /** Where the scan stopped, and that every car it rebuilt has the wanted status. */
  lemma ScanEnds(cars: seq<Line>, status: CarStatus, i: nat, r: seq<Car>)
    requires ScannedTo(cars, status, i, r)
    requires i < |cars| ==> Breaks(status)(cars[i])
    ensures ScanEnd(cars, status) == i
    ensures var read := Filter(cars[..i], StatusIs(status));
      && |r| == |read|
      && (forall k :: 0 <= k < |r| ==> Some(r[k]) == DecodeCar(read[k]))
      && (forall k :: 0 <= k < |r| ==> r[k].status == status)
  {
    if i < |cars| {
      FirstWhereFinds(cars, Breaks(status), i);
    }
    var read := Filter(cars[..i], StatusIs(status));
    forall k | 0 <= k < |r|
      ensures r[k].status == status
    {
      assert StatusIs(status)(read[k]);
      StatusValues(status);
      StatusValues(r[k].status);
    }
  }

  /** `get_cars`: rebuild a car from every line whose status field is
      `status`, in file order. The loop runs inside a catch-all handler, so
      the first line it raises on ends the scan and the cars found so far are
      returned. */
  method GetCars(s: Service, status: CarStatus) returns (r: seq<Car>)
    ensures var read := Filter(s.cars[..ScanEnd(s.cars, status)], StatusIs(status));
      && |r| == |read|
      && forall k :: 0 <= k < |r| ==> Some(r[k]) == DecodeCar(read[k])
    ensures forall k :: 0 <= k < |r| ==> r[k].status == status
  {
    r := [];
    var i := 0;
    assert s.cars[..0] == [];
    while i < |s.cars|
      invariant ScannedTo(s.cars, status, i, r)
    {
      var line := s.cars[i];
      if Breaks(status)(line) {
        break;
      }
      ScanStep(s.cars, status, i, r);
      if StatusIs(status)(line) {
        r := r + [DecodeCar(line).value];
      }
      i := i + 1;
    }
    ScanEnds(s.cars, status, i, r);
  }

  /** On well-formed car lines nothing raises and `get_cars` reads the whole file. */
  lemma GetCarsReadsAll(cars: seq<Line>, status: CarStatus)
    requires CarsOk(cars)
    ensures ScanEnd(cars, status) == |cars|
    ensures cars[..ScanEnd(cars, status)] == cars
  {
  }

  // ------------------------------------------------------------- get_car_info

  function VinIs(vin: string): Line -> bool {
    (l: Line) => l[0] == vin
  }

  /** A model line with id `id`. */
  function ModelIdIs(id: int): Line -> bool {
    (l: Line) => ParseInt(l[0]) == Some(id)
  }

  /** Where the model scan stops: the first line whose id is `id`, or an
      earlier one whose id field `int` rejects (it raises). */
  function ModelStop(id: int): Line -> bool {
    (l: Line) => ParseInt(l[0]).None? || ParseInt(l[0]) == Some(id)
  }

  /** A sale line of the car with this vin. */
  function SoldCarIs(vin: string): Line -> bool {
    (l: Line) => |l| > 1 && l[1] == vin
  }

  /** Where the sale scan stops: the first line of the car, or an earlier
      one without a vin field (reading `sale_data[1]` raises). */
  function SaleStop(vin: string): Line -> bool {
    (l: Line) => |l| < 2 || l[1] == vin
  }

  /** The joined view carries the car line's own fields and the model line's name and brand. */
  ghost predicate JoinedFrom(info: CarFullInfo, car: Line, model: Line) {
    && |car| > StatusField && |model| >= 3
    && info.vin == car[0] && info.price == car[2] && info.dateStart == car[3]
    && info.status.Value() == car[StatusField]
    && info.carModelName == model[1] && info.carModelBrand == model[2]
  }

  /** `get_car_info`: the first car line with the vin (a scan of `cars.txt`,
      not an index lookup), then the first model line whose id is the car's
      model (none raises), then the first sale line for the vin, if any; the
      status is validated when the view is built, after all three scans. */
  function GetCarInfo(s: Service, vin: string): (r: Result<Option<CarFullInfo>, Error>)
    ensures r == Ok(None) <==> NoneMatch(s.cars, VinIs(vin))
    ensures r.Ok? && r.value.Some? ==> r.value.value.vin == vin
  {
    match FirstWhere(s.cars, VinIs(vin))
    case None => Ok(None)
    case Some(c) =>
      var car := s.cars[c];
      if |car| <= StatusField || ParseInt(car[1]).None? then Err(Malformed)
      else
        var modelId := ParseInt(car[1]).value;
        match FirstWhere(s.models, ModelStop(modelId))
        case None => Err(UnknownModel(modelId))
        case Some(m) =>
          var model := s.models[m];
          if ParseInt(model[0]).None? || |model| < 3 then Err(Malformed)
          else
            var sale := FirstWhere(s.sales, SaleStop(vin));
            if sale.Some? && |s.sales[sale.value]| < 4 then Err(Malformed)
            else
              match ParseStatus(car[StatusField])
              case None => Err(Malformed)
              case Some(status) =>
                Ok(Some(CarFullInfo(car[0], model[1], model[2], car[2], car[3], status,
                                    if sale.Some? then Some(s.sales[sale.value][2]) else None,
                                    if sale.Some? then Some(s.sales[sale.value][3]) else None)))
  }

  /** The first car line with the vin lacks a field the view needs, or its
      model field is not an integer: the call raises. */
  lemma GetCarInfoBadCar(s: Service, vin: string, c: nat)
    requires IsFirst(s.cars, VinIs(vin), c)
    requires |s.cars[c]| <= StatusField || ParseInt(s.cars[c][1]).None?
    ensures GetCarInfo(s, vin) == Err(Malformed)
  {
    FirstWhereFinds(s.cars, VinIs(vin), c);
  }

  /** The first car line with the vin names a model id that no model line
      before the first unreadable one has: the call raises `UnknownModel`. */
  lemma GetCarInfoUnknownModel(s: Service, vin: string, c: nat, id: int)
    requires IsFirst(s.cars, VinIs(vin), c)
    requires |s.cars[c]| > StatusField && ParseInt(s.cars[c][1]) == Some(id)
    requires NoneMatch(s.models, ModelStop(id))
    ensures GetCarInfo(s, vin) == Err(UnknownModel(id))
  {
    FirstWhereFinds(s.cars, VinIs(vin), c);
  }

  /** With `c` the first car line carrying the vin, well-formed, and `m` the
      first model line with its model id, on well-formed model and sale
      lines the view joins those two lines, and it has sale fields exactly
      when some sale line names the vin. */
  lemma GetCarInfoJoined(s: Service, vin: string, c: nat, m: nat)
    requires ModelsOk(s.models) && SalesOk(s.sales)
    requires IsFirst(s.cars, VinIs(vin), c) && Decodes(s.cars[c])
    requires IsFirst(s.models, ModelIdIs(DecodeCar(s.cars[c]).value.model), m)
    ensures var r := GetCarInfo(s, vin);
      && r.Ok? && r.value.Some?
      && JoinedFrom(r.value.value, s.cars[c], s.models[m])
      && (r.value.value.salesDate.None? <==> NoneMatch(s.sales, SoldCarIs(vin)))
      && (r.value.value.salesCost.None? <==> NoneMatch(s.sales, SoldCarIs(vin)))
  {
    var id := DecodeCar(s.cars[c]).value.model;
    FirstWhereFinds(s.cars, VinIs(vin), c);
    assert IsFirst(s.models, ModelStop(id), m);
    FirstWhereFinds(s.models, ModelStop(id), m);
    match FirstWhere(s.sales, SaleStop(vin))
    case None =>
      assert NoneMatch(s.sales, SoldCarIs(vin));
    case Some(k) =>
      assert SoldCarIs(vin)(s.sales[k]);
  }

  /** The sale date and cost of a view come from the first sale line naming the vin. */
  lemma GetCarInfoSale(s: Service, vin: string, k: nat)
    requires SalesOk(s.sales)
    requires IsFirst(s.sales, SoldCarIs(vin), k)
    requires GetCarInfo(s, vin).Ok? && GetCarInfo(s, vin).value.Some?
    ensures GetCarInfo(s, vin).value.value.salesDate == Some(s.sales[k][2])
    ensures GetCarInfo(s, vin).value.value.salesCost == Some(s.sales[k][3])
  {
    assert IsFirst(s.sales, SaleStop(vin), k);
    FirstWhereFinds(s.sales, SaleStop(vin), k);
  }
}
