/** The entities of the dealership ledger (`src/models.py`): car statuses,
    cars, models, sales, the joined car view and the per-model sales
    statistic, with the two serialisers and the `index()` key accessors.
    Prices, costs and timestamps are kept as the text the service writes and
    reads; no arithmetic is done on them. */
module Models {
  import opened Wrappers
  import opened Numerals
  import opened Fields

  /** `CarStatus`, a string enum. */
  datatype CarStatus = Available | Reserve | Sold | Delivery {

    /** The enum member's string value. */
    function Value(): string {
      match this
      case Available => "available"
      case Reserve => "reserve"
      case Sold => "sold"
      case Delivery => "delivery"
    }
  }

  /** `CarStatus(s)`: the member whose value is `s`, or the `ValueError` case. */
  function ParseStatus(s: string): (r: Option<CarStatus>)
    ensures r.Some? ==> r.value.Value() == s
    ensures r.None? <==> s !in {"available", "reserve", "sold", "delivery"}
  {
    if s == "available" then Some(Available)
    else if s == "reserve" then Some(Reserve)
    else if s == "sold" then Some(Sold)
    else if s == "delivery" then Some(Delivery)
    else None
  }

  /** The enum has exactly the four values, each read back as itself. */
  lemma StatusValues(st: CarStatus)
    ensures st.Value() in {"available", "reserve", "sold", "delivery"}
    ensures ParseStatus(st.Value()) == Some(st)
  {
  }

  datatype Car = Car(vin: string, model: int, price: string, dateStart: string,
                     status: CarStatus, isDeleted: bool := false)

  datatype Model = Model(id: int, name: string, brand: string)

  datatype Sale = Sale(salesNumber: string, carVin: string, salesDate: string,
                       cost: string, isDeleted: bool := false)

  datatype CarFullInfo = CarFullInfo(vin: string, carModelName: string, carModelBrand: string,
                                     price: string, dateStart: string, status: CarStatus,
                                     salesDate: Option<string>, salesCost: Option<string>)

  datatype ModelSaleStats = ModelSaleStats(carModelName: string, brand: string, salesNumber: nat)

  /** `int(is_deleted)` as text. */
  function DeletedFlag(b: bool): string {
    if b then "1" else "0"
  }

  /** `Car.to_string`. The start date is kept as the text the caller
      supplies: `add_car` writes `str(date_start)` (a blank between date and
      time) where `to_string` writes `date_start.isoformat()` (a `T`), so the
      same car can carry two different texts in the two writings. */
  function CarToString(c: Car): string {
    Join([c.vin, IntToString(c.model), c.price, c.dateStart, c.status.Value(), DeletedFlag(c.isDeleted)])
  }

  /** `Sale.to_string`. */
  function SaleToString(s: Sale): string {
    Join([s.salesNumber, s.carVin, s.salesDate, s.cost, DeletedFlag(s.isDeleted)])
  }

  /** The car a comma-split line describes when the service rebuilds it:
      `vin`, `int(model)`, price, start date and `CarStatus(status)` from the
      first five fields, with `is_deleted` left at its default. */
  function DecodeCar(fields: seq<string>): (r: Option<Car>)
    ensures r.Some? <==> |fields| >= 5 && ParseInt(fields[1]).Some? && ParseStatus(fields[4]).Some?
    ensures r.Some? ==> r.value.vin == fields[0] && Some(r.value.model) == ParseInt(fields[1])
                        && r.value.price == fields[2]
                        && r.value.dateStart == fields[3] && r.value.status.Value() == fields[4]
                        && !r.value.isDeleted
  {
    if |fields| >= 5 && ParseInt(fields[1]).Some? && ParseStatus(fields[4]).Some? then
      Some(Car(fields[0], ParseInt(fields[1]).value, fields[2], fields[3], ParseStatus(fields[4]).value))
    else None
  }

  /** `Car.to_string` emits six fields in the order vin, model, price,
      date_start, status, is_deleted; when no text field holds a comma,
      splitting recovers them, the first five decode back to the car and the
      sixth is `0` or `1` as the flag. */
  lemma CarToStringFields(c: Car)
    requires NoComma(c.vin) && NoComma(c.price) && NoComma(c.dateStart)
    ensures var f := Split(CarToString(c));
      && |f| == 6
      && f == [c.vin, IntToString(c.model), c.price, c.dateStart, c.status.Value(), DeletedFlag(c.isDeleted)]
      && DecodeCar(f[..5]) == Some(c.(isDeleted := false))
      && (f[5] == "1" <==> c.isDeleted) && (f[5] == "0" <==> !c.isDeleted)
  {
    var fields := [c.vin, IntToString(c.model), c.price, c.dateStart, c.status.Value(), DeletedFlag(c.isDeleted)];
    assert AllNoComma(fields);
    SplitJoin(fields);
    ParseIntOfString(c.model);
    StatusValues(c.status);
  }

  /** `Sale.to_string` emits five fields in the order sales_number, car_vin,
      sales_date, cost, is_deleted, the last one `0` or `1`. */
  lemma SaleToStringFields(s: Sale)
    requires NoComma(s.salesNumber) && NoComma(s.carVin) && NoComma(s.salesDate) && NoComma(s.cost)
    ensures var f := Split(SaleToString(s));
      && |f| == 5
      && f == [s.salesNumber, s.carVin, s.salesDate, s.cost, DeletedFlag(s.isDeleted)]
      && (f[4] == "1" <==> s.isDeleted) && (f[4] == "0" <==> !s.isDeleted)
  {
    var fields := [s.salesNumber, s.carVin, s.salesDate, s.cost, DeletedFlag(s.isDeleted)];
    assert AllNoComma(fields);
    SplitJoin(fields);
  }

  /** Both flags default to false when the constructor is not given them. */
  lemma DeletedDefaultsFalse(vin: string, model: int, price: string, date: string, status: CarStatus,
                             number: string, when: string, cost: string)
    ensures !Car(vin, model, price, date, status).isDeleted
    ensures !Sale(number, vin, when, cost).isDeleted
  {
  }

  /** `Car.index()`. */
  function CarKey(c: Car): string {
    c.vin
  }

  /** `Model.index()`: the id as text, which parses back to the id. */
  function ModelKey(m: Model): (r: string)
    ensures ParseInt(r) == Some(m.id)
  {
    ParseIntOfString(m.id);
    IntToString(m.id)
  }

  /** `Sale.index()`: the car's vin, not the sales number. */
  function SaleKey(s: Sale): string {
    s.carVin
  }
}
