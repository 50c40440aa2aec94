/**
 * The storage facade. The browser's key/value store is a `Store` object with
 * one field per key; a field is `None` while its key has never been written.
 * Encoding a collection to JSON text and decoding it again is taken as the
 * identity, so each field holds the decoded collection. Every write is also
 * recorded in the ghost log `writes`, in the order the facade issues them.
 */
module DataService {
  import opened Wrappers
  import opened Records
  import opened Lists
  import opened Visits

  /** One `setItem` call: the key written and the collection stored under it. */
  datatype Write = SetCustomers(customers: seq<Customer>) | SetRegions(regions: seq<Region>)

  /** The collection last written under `crm_customers`, if any. */
  ghost function LastCustomers(w: seq<Write>): Option<seq<Customer>>
  {
    if w == [] then None
    else if w[|w| - 1].SetCustomers? then Some(w[|w| - 1].customers)
    else LastCustomers(w[..|w| - 1])
  }

  /** The collection last written under `crm_regions`, if any. */
  ghost function LastRegions(w: seq<Write>): Option<seq<Region>>
  {
    if w == [] then None
    else if w[|w| - 1].SetRegions? then Some(w[|w| - 1].regions)
    else LastRegions(w[..|w| - 1])
  }

  class Store {
    /** The collection under `crm_customers`. */
    var customers: Option<seq<Customer>>
    /** The collection under `crm_regions`. */
    var regions: Option<seq<Region>>
    /** Every write made so far, oldest first. */
    ghost var writes: seq<Write>

    /** Each key holds what was last written to it (last write wins). */
    ghost predicate Valid()
      reads this
    {
      customers == LastCustomers(writes) && regions == LastRegions(writes)
    }

    /** A store in which neither key has been written. */
    constructor ()
      ensures Valid() && customers == None && regions == None && writes == []
    {
      customers, regions := None, None;
      writes := [];
    }

    /** The customers a read returns: the stored collection, or the seed when the key is absent. */
    function CurrentCustomers(): seq<Customer>
      reads this
    {
      customers.GetOr(InitialCustomers)
    }

    /** The regions a read returns: the stored collection, or the seed when the key is absent. */
    function CurrentRegions(): seq<Region>
      reads this
    {
      regions.GetOr(InitialRegions)
    }

    /** The seed write a read of the customers makes first when the key is absent. */
    ghost function CustomerSeeding(): seq<Write>
      reads this
    {
      if customers.None? then [SetCustomers(InitialCustomers)] else []
    }

    /** The seed write a read of the regions makes first when the key is absent. */
    ghost function RegionSeeding(): seq<Write>
      reads this
    {
      if regions.None? then [SetRegions(InitialRegions)] else []
    }

    /** Writes `cs` under `crm_customers`. */
    method PutCustomers(cs: seq<Customer>)
      requires Valid()
      modifies this`customers, this`writes
      ensures Valid()
      ensures customers == Some(cs) && writes == old(writes) + [SetCustomers(cs)]
    {
      customers := Some(cs);
      writes := writes + [SetCustomers(cs)];
    }

    /** Writes `rs` under `crm_regions`. */
    method PutRegions(rs: seq<Region>)
      requires Valid()
      modifies this`regions, this`writes
      ensures Valid()
      ensures regions == Some(rs) && writes == old(writes) + [SetRegions(rs)]
    {
      regions := Some(rs);
      writes := writes + [SetRegions(rs)];
    }

    /**
     * `getCustomers`: on an absent key, writes the seed and returns it; otherwise
     * returns the stored collection and writes nothing.
     */
    method GetCustomers() returns (cs: seq<Customer>)
      requires Valid()
      modifies this`customers, this`writes
      ensures Valid()
      ensures cs == old(CurrentCustomers()) && customers == Some(cs)
      ensures writes == old(writes) + old(CustomerSeeding())
    {
      if customers.None? {
        PutCustomers(InitialCustomers);
        return InitialCustomers;
      }
      cs := customers.value;
    }

    /** `getRegions`: as `GetCustomers`, on the regions key. */
    method GetRegions() returns (rs: seq<Region>)
      requires Valid()
      modifies this`regions, this`writes
      ensures Valid()
      ensures rs == old(CurrentRegions()) && regions == Some(rs)
      ensures writes == old(writes) + old(RegionSeeding())
    {
      if regions.None? {
        PutRegions(InitialRegions);
        return InitialRegions;
      }
      rs := regions.value;
    }

    /**
     * `saveCustomer`: loads the customers (seeding them first when absent),
     * overwrites the first one with the same id in place or appends, and writes
     * the whole collection back.
     */
    method SaveCustomer(customer: Customer)
      requires Valid()
      modifies this`customers, this`writes
      ensures Valid()
      ensures customers == Some(Upsert(old(CurrentCustomers()), customer, CustomerId))
      ensures writes == old(writes) + old(CustomerSeeding()) + [SetCustomers(customers.value)]
    {
      var cs := GetCustomers();
      var existingIndex := FindIndex(cs, CustomerId, customer.id);
      if existingIndex >= 0 {
        cs := cs[existingIndex := customer];
      } else {
        cs := cs + [customer];
      }
      PutCustomers(cs);
    }

    /** `deleteCustomer`: loads (seeding when absent), drops every customer with that id, writes back. */
    method DeleteCustomer(id: string)
      requires Valid()
      modifies this`customers, this`writes
      ensures Valid()
      ensures customers == Some(Without(old(CurrentCustomers()), CustomerId, id))
      ensures writes == old(writes) + old(CustomerSeeding()) + [SetCustomers(customers.value)]
    {
      var cs := GetCustomers();
      var newCustomers := Without(cs, CustomerId, id);
      PutCustomers(newCustomers);
    }

    /** `saveRegion`: as `SaveCustomer`, on the regions key, matching numeric ids. */
    method SaveRegion(region: Region)
      requires Valid()
      modifies this`regions, this`writes
      ensures Valid()
      ensures regions == Some(Upsert(old(CurrentRegions()), region, RegionId))
      ensures writes == old(writes) + old(RegionSeeding()) + [SetRegions(regions.value)]
    {
      var rs := GetRegions();
      var existingIndex := FindIndex(rs, RegionId, region.id);
      if existingIndex >= 0 {
        rs := rs[existingIndex := region];
      } else {
        rs := rs + [region];
      }
      PutRegions(rs);
    }

    /**
     * `deleteRegion`: drops every region whose id is strictly equal to the
     * argument, a number or a string; a string never equals a numeric id.
     */
    method DeleteRegion(id: Primitive)
      requires Valid()
      modifies this`regions, this`writes
      ensures Valid()
      ensures regions == Some(Without(old(CurrentRegions()), RegionIdValue, id))
      ensures writes == old(writes) + old(RegionSeeding()) + [SetRegions(regions.value)]
    {
      var rs := GetRegions();
      var newRegions := Without(rs, RegionIdValue, id);
      PutRegions(newRegions);
    }

    /** `bulkImportCustomers`: loads (seeding when absent), appends the list unchanged, writes back. */
    method BulkImportCustomers(newCustomers: seq<Customer>)
      requires Valid()
      modifies this`customers, this`writes
      ensures Valid()
      ensures customers == Some(old(CurrentCustomers()) + newCustomers)
      ensures |customers.value| == |old(CurrentCustomers())| + |newCustomers|
      ensures customers.value[..|old(CurrentCustomers())|] == old(CurrentCustomers())
      ensures writes == old(writes) + old(CustomerSeeding()) + [SetCustomers(customers.value)]
    {
      var current := GetCustomers();
      var updated := current + newCustomers;
      PutCustomers(updated);
    }

    /**
     * `resetWeeklyVisits`: reads the stored customers, falling back to the seed
     * WITHOUT writing it, sets every status to NOT_DONE and writes the result:
     * a single write, even on an empty store.
     */
    method ResetWeeklyVisits()
      requires Valid()
      modifies this`customers, this`writes
      ensures Valid()
      ensures customers == Some(ResetStatuses(old(CurrentCustomers())))
      ensures writes == old(writes) + [SetCustomers(customers.value)]
    {
      var cs: seq<Customer>;
      if customers.None? {
        cs := InitialCustomers;
      } else {
        cs := customers.value;
      }
      var updatedCustomers := ResetStatuses(cs);
      PutCustomers(updatedCustomers);
    }
  }

  // ------------------------------------------------------------ properties

  /** `deleteRegion` with a string argument leaves the regions unchanged. */
  lemma DeleteRegionByString(rs: seq<Region>, s: string)
    ensures Without(rs, RegionIdValue, Str(s)) == rs
  {
  }

  /** `deleteRegion` with a number removes exactly the regions with that numeric id. */
  lemma {:induction false} DeleteRegionByNumber(rs: seq<Region>, n: int)
    ensures Without(rs, RegionIdValue, Num(n)) == Without(rs, RegionId, n)
  {
    if rs != [] {
      DeleteRegionByNumber(rs[1..], n);
    }
  }

  /**
   * A bulk import keeps the id invariant exactly when both parts have unique
   * ids and no id of the imported list is already stored; otherwise the
   * appended collection holds a duplicate id.
   */
  lemma BulkImportUniqueIff<T, K>(a: seq<T>, b: seq<T>, key: T -> K)
    ensures UniqueKeys(a + b, key) <==>
      UniqueKeys(a, key) && UniqueKeys(b, key) &&
      forall i, j :: 0 <= i < |a| && 0 <= j < |b| ==> key(a[i]) != key(b[j])
  {
    var ab := a + b;
    assert forall i :: 0 <= i < |a| ==> ab[i] == a[i];
    assert forall j :: 0 <= j < |b| ==> ab[|a| + j] == b[j];
    if UniqueKeys(ab, key) {
      forall i, j | 0 <= i < |a| && 0 <= j < |b| ensures key(a[i]) != key(b[j]) {
        assert key(ab[i]) != key(ab[|a| + j]);
      }
      forall i, j | 0 <= i < j < |b| ensures key(b[i]) != key(b[j]) {
        assert key(ab[|a| + i]) != key(ab[|a| + j]);
      }
    }
  }

  /** Importing a seed customer again breaks the id invariant. */
  lemma BulkImportKeepsDuplicates()
    ensures UniqueKeys(InitialCustomers, CustomerId)
    ensures !UniqueKeys(InitialCustomers + [InitialCustomers[0]], CustomerId)
  {
    BulkImportUniqueIff(InitialCustomers, [InitialCustomers[0]], CustomerId);
  }

  // ------------------------------------------------------------- scenarios

  /**
   * On a fresh store: the first read returns the three seed customers, customer
   * "1" DONE; after the weekly reset a read returns three customers, customer
   * "1" NOT_DONE with its shop name kept.
   */
  method WeeklyResetScenario() returns (before: seq<Customer>, after: seq<Customer>)
    ensures before == InitialCustomers && |before| == 3
    ensures before[0].id == "1" && before[0].visitStatus == Done
    ensures |after| == 3 && after[0].id == "1" && after[0].visitStatus == NotDone
    ensures after[0].shopName == "صيدلية الورد"
  {
    var store := new Store();
    before := store.GetCustomers();
    store.ResetWeeklyVisits();
    after := store.GetCustomers();
    ResetSeed();
  }

  /**
   * On a fresh store, saving a customer and reading back finds it under its id:
   * in place of the seed customer with that id, or appended as a fourth record.
   */
  method SaveThenGetScenario(customer: Customer) returns (cs: seq<Customer>)
    ensures 0 <= FindIndex(cs, CustomerId, customer.id) && cs[FindIndex(cs, CustomerId, customer.id)] == customer
    ensures customer.id in {"1", "2", "3"} ==> |cs| == 3
    ensures customer.id !in {"1", "2", "3"} ==> |cs| == 4 && cs[3] == customer
  {
    var store := new Store();
    store.SaveCustomer(customer);
    cs := store.GetCustomers();
    UpsertThenFind(InitialCustomers, customer, CustomerId);
    if customer.id !in {"1", "2", "3"} {
      UpsertNew(InitialCustomers, customer, CustomerId);
    }
  }
}
