/**
 * The two record types of the store, the visit status enumeration, the seed
 * collections written on first use, and the key functions the facade matches on.
 */
module Records {

  /** The weekly visit status of a customer. */
  datatype VisitStatus = Done | NotDone | Postponed

  /** A customer record; `id` is a caller-assigned string. */
  datatype Customer = Customer(
    id: string,
    shopName: string,
    managerName: string,
    phone: string,
    mainRegion: string,
    subRegion: string,
    whatsappLink: string,
    mapLink: string,
    visitStatus: VisitStatus)

  /** A region record; `id` is numeric. */
  datatype Region = Region(id: int, name: string, subregions: seq<string>)

  /**
   * A primitive JavaScript value as far as the facade compares ids: a number or
   * a string. Strict equality (`===`) on two primitives holds exactly when they
   * have the same type and the same value, which is equality of this datatype.
   */
  datatype Primitive = Num(n: int) | Str(s: string)

  function CustomerId(c: Customer): string { c.id }

  function RegionId(r: Region): int { r.id }

  /** A region's id as the primitive that `deleteRegion` compares its argument with. */
  function RegionIdValue(r: Region): Primitive
  {
    Num(r.id)
  }

  /** No two elements of `xs` have the same key: the id invariant of both collections. */
  predicate UniqueKeys<T, K(==)>(xs: seq<T>, key: T -> K)
  {
    forall i, j :: 0 <= i < j < |xs| ==> key(xs[i]) != key(xs[j])
  }

  /** Two customers agree on every field except `visitStatus`. */
  predicate SameDetails(a: Customer, b: Customer)
  {
    a.id == b.id && a.shopName == b.shopName && a.managerName == b.managerName &&
    a.phone == b.phone && a.mainRegion == b.mainRegion && a.subRegion == b.subRegion &&
    a.whatsappLink == b.whatsappLink && a.mapLink == b.mapLink
  }

  // Storage keys of the two collections.
  const CustomersKey: string := "crm_customers"
  const RegionsKey: string := "crm_regions"

  /** The regions written on first read of an empty store. */
  const InitialRegions: seq<Region> := [
    Region(1, "دهوك", ["ملا عيدان", "مالطا", "نوهدرا سنتر", "السياحية", "حي العسكري"]),
    Region(2, "دوميز", ["مجمع دوميز 1", "مجمع دوميز 2", "الحي الصناعي"]),
    Region(3, "سيميل", ["سيميل سنتر", "كيستي", "شاريا"]),
    Region(4, "شيلادزي", ["سنتر", "افرخى", "بازيفى"])
  ]

  /** The customers written on first read of an empty store. */
  const InitialCustomers: seq<Customer> := [
    Customer("1", "صيدلية الورد", "أحمد علي", "9647700123456", "دهوك", "حي العسكري",
             "https://wa.me/9647700123456", "http://maps.google.com/?q=36.8,42.9", Done),
    Customer("2", "صيدلية النور", "سارة محمود", "9647700654321", "دهوك", "مالطا",
             "https://wa.me/9647700654321", "http://maps.google.com/?q=36.8,42.9", NotDone),
    Customer("3", "مكتبة العلم", "خالد حسن", "9647700987654", "سيميل", "شاريا",
             "https://wa.me/9647700987654", "http://maps.google.com/?q=36.8,42.9", Postponed)
  ]

  /** Both seed collections satisfy the id invariant. */
  lemma SeedsHaveUniqueIds()
    ensures |InitialCustomers| == 3 && |InitialRegions| == 4
    ensures UniqueKeys(InitialCustomers, CustomerId)
    ensures UniqueKeys(InitialRegions, RegionId)
  {
  }
}
