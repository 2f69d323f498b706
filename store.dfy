// The entity store: the six tables of the rental database as in-memory
// keyed tables with identity keys. Entities carry no key field; a table
// maps each key to its row.

module Store {
  import opened Optional
  import opened Numerals

  /** A calendar date (DateOnly), as a day number. */
  datatype DateOnly = DateOnly(dayNumber: int)

  /** A row together with its key, as a query over a table yields it. */
  datatype Entry<T> = Entry(id: int, row: T)

  datatype Car = Car(
    carClassId: int,
    brand: string,
    model: string,
    licensePlate: string,
    year: Int32,
    rentalCostPerDay: Decimal,
    status: string)

  datatype CarClass = CarClass(name: string, description: string)

  /** Client's text columns are nullable. */
  datatype Client = Client(fullName: Option<string>, licenseNumber: Option<string>, phoneNumber: Option<string>)

  datatype Maintenance = Maintenance(carId: int, maintenanceDate: DateOnly, description: string, cost: Decimal)

  datatype RentalAgreement = RentalAgreement(
    clientId: int,
    carId: int,
    startDateTime: DateOnly,
    plannedEndDateTime: DateOnly,
    actualEndDateTime: DateOnly,
    totalAmount: Decimal)

  datatype RentalHistory = RentalHistory(
    clientId: int,
    startDateTime: DateOnly,
    actualEndDateTime: DateOnly,
    totalAmount: Decimal)

  /** `s` without the occurrences of `x`. */
  function Without(s: seq<int>, x: int): (r: seq<int>)
    ensures forall y :: y in r <==> y in s && y != x
    ensures |r| <= |s|
  {
    if s == [] then [] else (if s[0] == x then [] else [s[0]]) + Without(s[1..], x)
  }

  /** Strictly increasing: the keys of a table in enumeration order. */
  ghost predicate StrictlyIncreasing(s: seq<int>) {
    forall i, j :: 0 <= i < j < |s| ==> s[i] < s[j]
  }

  lemma {:induction false} WithoutIncreasing(s: seq<int>, x: int)
    requires StrictlyIncreasing(s)
    ensures StrictlyIncreasing(Without(s, x))
  {
    if s != [] {
      var tail := s[1..];
      WithoutIncreasing(tail, x);
      var rest := Without(tail, x);
      if s[0] != x {
        forall j | 0 <= j < |rest| ensures s[0] < rest[j] {
          assert rest[j] in tail;
          var k :| 0 <= k < |tail| && tail[k] == rest[j];
          assert s[k + 1] == rest[j];
        }
        ConsIncreasing(s[0], rest);
        assert Without(s, x) == [s[0]] + rest;
      } else {
        assert Without(s, x) == rest;
      }
    }
  }

  lemma ConsIncreasing(a: int, r: seq<int>)
    requires StrictlyIncreasing(r) && forall j :: 0 <= j < |r| ==> a < r[j]
    ensures StrictlyIncreasing([a] + r)
  {
    var c := [a] + r;
    forall i, j | 0 <= i < j < |c| ensures c[i] < c[j] {
      assert c[j] == r[j - 1];
      if i > 0 {
        assert c[i] == r[i - 1];
      }
    }
  }

  function EntriesOf<T>(keys: seq<int>, rows: map<int, T>): (r: seq<Entry<T>>)
    requires forall i :: 0 <= i < |keys| ==> keys[i] in rows
    ensures |r| == |keys| && forall i :: 0 <= i < |r| ==> r[i] == Entry(keys[i], rows[keys[i]])
  {
    if keys == [] then [] else [Entry(keys[0], rows[keys[0]])] + EntriesOf(keys[1..], rows)
  }

  /**
   * A table with an identity key: `rows` maps keys to rows, `keys` lists the
   * keys in ascending order (the order a query enumerates them in), and
   * `nextId` is the next identity value.
   */
  class Table<T> {
    var rows: map<int, T>
    var keys: seq<int>
    var nextId: int

    ghost predicate Valid()
      reads this
    {
      && nextId >= 1
      && StrictlyIncreasing(keys)
      && (forall i :: 0 <= i < |keys| ==> 1 <= keys[i] < nextId)
      && (forall k :: k in rows <==> k in keys)
    }

    constructor ()
      ensures Valid() && rows == map[] && keys == [] && nextId == 1
    {
      rows, keys, nextId := map[], [], 1;
    }

    /** `Find(id)` / `SingleOrDefault(m => m.Id == id)`: the row with that key, if any. */
    function Find(id: int): (r: Option<T>)
      reads this
      ensures r.Some? <==> id in rows
      ensures r.Some? ==> r.value == rows[id]
    {
      if id in rows then Some(rows[id]) else None
    }

    /**
     * The whole table as a query enumerates it: every stored row exactly
     * once, with its key, in ascending key order.
     */
    function Entries(): (r: seq<Entry<T>>)
      reads this
      requires Valid()
      ensures |r| == |rows|
      ensures forall i :: 0 <= i < |r| ==> r[i].id in rows && r[i].row == rows[r[i].id]
      ensures forall i, j :: 0 <= i < j < |r| ==> r[i].id < r[j].id
      ensures forall k :: k in rows ==> exists i :: 0 <= i < |r| && r[i].id == k
    {
      CountKeys();
      var r := EntriesOf(keys, rows);
      EntriesCover(r);
      r
    }

    /** Every stored key is listed, so it has an entry. */
    lemma EntriesCover(r: seq<Entry<T>>)
      requires Valid() && r == EntriesOf(keys, rows)
      ensures forall k :: k in rows ==> exists i :: 0 <= i < |r| && r[i].id == k
    {
      forall k | k in rows ensures exists i :: 0 <= i < |r| && r[i].id == k {
        var i :| 0 <= i < |keys| && keys[i] == k;
        assert r[i].id == k;
      }
    }

    lemma CountKeys()
      requires Valid()
      ensures |rows| == |keys|
    {
      var ks := set i | 0 <= i < |keys| :: keys[i];
      forall k | k in rows ensures k in ks {
        var i :| 0 <= i < |keys| && keys[i] == k;
      }
      assert rows.Keys == ks;
      DistinctCount(keys);
    }

    static lemma {:induction false} DistinctCount(s: seq<int>)
      requires StrictlyIncreasing(s)
      ensures |set i | 0 <= i < |s| :: s[i]| == |s|
    {
      if s != [] {
        var last := s[|s| - 1];
        var init := s[..|s| - 1];
        DistinctCount(init);
        var a := set i | 0 <= i < |init| :: init[i];
        var b := set i | 0 <= i < |s| :: s[i];
        assert b == a + {last};
        assert last !in a;
      }
    }

    /** `Add` + `SaveChanges`: inserts `row` under the next identity key. */
    method Add(row: T) returns (id: int)
      requires Valid()
      modifies this
      ensures Valid()
      ensures id == old(nextId) && id !in old(rows)
      ensures rows == old(rows)[id := row] && |rows| == |old(rows)| + 1
      ensures keys == old(keys) + [id] && nextId == id + 1
    {
      id := nextId;
      rows := rows[id := row];
      keys := keys + [id];
      nextId := nextId + 1;
    }

    /** Overwrites the row under an existing key; the key is kept. */
    method Update(id: int, row: T)
      requires Valid() && id in rows
      modifies this
      ensures Valid()
      ensures rows == old(rows)[id := row] && |rows| == |old(rows)|
      ensures keys == old(keys) && nextId == old(nextId)
    {
      rows := rows[id := row];
    }

    /** `Remove` + `SaveChanges` of an existing row. */
    method Remove(id: int)
      requires Valid() && id in rows
      modifies this
      ensures Valid()
      ensures rows == old(rows) - {id} && |rows| == |old(rows)| - 1
      ensures keys == Without(old(keys), id) && nextId == old(nextId)
    {
      WithoutIncreasing(keys, id);
      rows := rows - {id};
      keys := Without(keys, id);
      forall i | 0 <= i < |keys| ensures 1 <= keys[i] < nextId {
        assert keys[i] in old(keys);
      }
      assert old(rows).Keys == rows.Keys + {id};
    }
  }

  /** The database context: one table per entity. */
  class Db {
    const cars: Table<Car>
    const carClasses: Table<CarClass>
    const clients: Table<Client>
    const maintenances: Table<Maintenance>
    const rentalAgreements: Table<RentalAgreement>
    const rentalHistory: Table<RentalHistory>

    ghost predicate Valid()
      reads this, cars, carClasses, clients, maintenances, rentalAgreements, rentalHistory
    {
      && cars.Valid() && carClasses.Valid() && clients.Valid()
      && maintenances.Valid() && rentalAgreements.Valid() && rentalHistory.Valid()
    }

    constructor ()
      ensures Valid()
      ensures fresh(cars) && fresh(carClasses) && fresh(clients)
      ensures fresh(maintenances) && fresh(rentalAgreements) && fresh(rentalHistory)
      ensures cars.rows == map[] && carClasses.rows == map[] && clients.rows == map[]
      ensures maintenances.rows == map[] && rentalAgreements.rows == map[] && rentalHistory.rows == map[]
    {
      cars := new Table();
      carClasses := new Table();
      clients := new Table();
      maintenances := new Table();
      rentalAgreements := new Table();
      rentalHistory := new Table();
    }
  }
}
