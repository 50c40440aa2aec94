/**
 * The transform of the weekly reset: every customer's visit status becomes
 * NOT_DONE and every other field is copied.
 */
module Visits {
  import opened Records
  import opened Lists

  /** `cs.map(c => ({...c, visitStatus: NOT_DONE}))`. */
  function ResetStatuses(cs: seq<Customer>): (r: seq<Customer>)
    ensures |r| == |cs|
    ensures forall i :: 0 <= i < |r| ==> r[i].visitStatus == NotDone && SameDetails(r[i], cs[i])
  {
    if cs == [] then [] else [cs[0].(visitStatus := NotDone)] + ResetStatuses(cs[1..])
  }

  /** A second reset changes nothing. */
  lemma ResetIdempotent(cs: seq<Customer>)
    ensures ResetStatuses(ResetStatuses(cs)) == ResetStatuses(cs)
  {
  }

  /** A reset leaves the collection unchanged exactly when every status is already NOT_DONE. */
  lemma ResetUnchangedIff(cs: seq<Customer>)
    ensures ResetStatuses(cs) == cs <==> forall i :: 0 <= i < |cs| ==> cs[i].visitStatus == NotDone
  {
  }

  /** Resetting a bulk-extended collection resets both parts. */
  lemma ResetConcat(a: seq<Customer>, b: seq<Customer>)
    ensures ResetStatuses(a + b) == ResetStatuses(a) + ResetStatuses(b)
  {
  }

  /** A reset keeps the customer ids, so it keeps the id invariant. */
  lemma ResetKeepsUnique(cs: seq<Customer>)
    requires UniqueKeys(cs, CustomerId)
    ensures UniqueKeys(ResetStatuses(cs), CustomerId)
  {
  }

  /** Deleting a customer and resetting the visits can be done in either order. */
  lemma {:induction false} ResetCommutesWithDelete(cs: seq<Customer>, id: string)
    ensures ResetStatuses(Without(cs, CustomerId, id)) == Without(ResetStatuses(cs), CustomerId, id)
  {
    if cs != [] {
      ResetCommutesWithDelete(cs[1..], id);
      var r := ResetStatuses(cs);
      assert r == [cs[0].(visitStatus := NotDone)] + ResetStatuses(cs[1..]);
      assert r[1..] == ResetStatuses(cs[1..]);
      if cs[0].id != id {
        assert Without(cs, CustomerId, id) == [cs[0]] + Without(cs[1..], CustomerId, id);
        ResetConcat([cs[0]], Without(cs[1..], CustomerId, id));
      }
    }
  }

  /**
   * The reset of the seed: first customer "1" was DONE and becomes NOT_DONE,
   * with its shop name kept.
   */
  lemma ResetSeed()
    ensures var r := ResetStatuses(InitialCustomers);
      |r| == 3 && InitialCustomers[0].visitStatus == Done &&
      r[0].id == "1" && r[0].visitStatus == NotDone && r[0].shopName == "صيدلية الورد" &&
      forall i :: 0 <= i < 3 ==> r[i] == InitialCustomers[i].(visitStatus := NotDone)
  {
  }
}
