/**
 * The array operations the facade applies to a loaded collection, generic over
 * the record type and over the function that gives a record's key:
 * `findIndex` with a key-equality callback, the replace-or-append of a save,
 * and `filter` with a key-inequality callback.
 */
module Lists {
  import opened Records

  /**
   * `xs.findIndex(y => key(y) === k)`: the index of the first element whose key
   * is `k`, or -1 when there is none.
   */
  function FindIndex<T, K(==)>(xs: seq<T>, key: T -> K, k: K): (r: int)
    ensures -1 <= r < |xs|
    ensures 0 <= r ==> key(xs[r]) == k && forall j :: 0 <= j < r ==> key(xs[j]) != k
    ensures r == -1 <==> forall j :: 0 <= j < |xs| ==> key(xs[j]) != k
  {
    if xs == [] then -1
    else if key(xs[0]) == k then 0
    else
      var i := FindIndex(xs[1..], key, k);
      if i < 0 then -1 else i + 1
  }

  /**
   * A save: the first element with the same key as `x` is replaced by `x` in
   * place; when there is none, `x` is appended.
   */
  function Upsert<T, K(==)>(xs: seq<T>, x: T, key: T -> K): (r: seq<T>)
    ensures x in r
    ensures (exists j :: 0 <= j < |xs| && key(xs[j]) == key(x)) ==> |r| == |xs|
    ensures (forall j :: 0 <= j < |xs| ==> key(xs[j]) != key(x)) ==> |r| == |xs| + 1
  {
    var i := FindIndex(xs, key, key(x));
    if i >= 0 then assert xs[i := x][i] == x; xs[i := x]
    else assert (xs + [x])[|xs|] == x; xs + [x]
  }

  /** `xs.filter(y => key(y) !== k)`: the elements whose key is not `k`, in order. */
  function Without<T, K(==)>(xs: seq<T>, key: T -> K, k: K): (r: seq<T>)
    ensures |r| <= |xs|
    ensures forall j :: 0 <= j < |r| ==> key(r[j]) != k && r[j] in xs
  {
    if xs == [] then []
    else if key(xs[0]) == k then Without(xs[1..], key, k)
    else [xs[0]] + Without(xs[1..], key, k)
  }

  // ---------------------------------------------------------------- Upsert

  /**
   * Saving a record whose key is present replaces exactly the first record with
   * that key, at its index; length, order and every other record (later records
   * with the same key included) are unchanged.
   */
  lemma UpsertExisting<T, K>(xs: seq<T>, x: T, key: T -> K, j: int)
    requires 0 <= j < |xs| && key(xs[j]) == key(x)
    ensures var i := FindIndex(xs, key, key(x));
      0 <= i <= j &&
      (forall m :: 0 <= m < i ==> key(xs[m]) != key(x)) &&
      |Upsert(xs, x, key)| == |xs| &&
      Upsert(xs, x, key)[i] == x &&
      forall m :: 0 <= m < |xs| && m != i ==> Upsert(xs, x, key)[m] == xs[m]
  {
  }

  /**
   * Saving a record whose key is absent appends it as the last element: length
   * grows by one and the old collection is a prefix of the new one.
   */
  lemma UpsertNew<T, K>(xs: seq<T>, x: T, key: T -> K)
    requires forall m :: 0 <= m < |xs| ==> key(xs[m]) != key(x)
    ensures |Upsert(xs, x, key)| == |xs| + 1
    ensures Upsert(xs, x, key)[..|xs|] == xs && Upsert(xs, x, key)[|xs|] == x
  {
  }

  /**
   * A read after a save finds the saved record under its key: at the index the
   * replaced record had, or at the end when the key was new.
   */
  lemma {:induction false} UpsertThenFind<T, K>(xs: seq<T>, x: T, key: T -> K)
    ensures var i := FindIndex(xs, key, key(x));
      var r := Upsert(xs, x, key);
      FindIndex(r, key, key(x)) == (if i >= 0 then i else |xs|) &&
      r[FindIndex(r, key, key(x))] == x
  {
    var i := FindIndex(xs, key, key(x));
    var r := Upsert(xs, x, key);
    var e := if i >= 0 then i else |xs|;
    assert r[e] == x;
    assert forall m :: 0 <= m < e ==> r[m] == xs[m];
    var f := FindIndex(r, key, key(x));
    assert f != -1 by { assert key(r[e]) == key(x); }
  }

  /** A save leaves the lookup of every other key as it was. */
  lemma UpsertOtherKey<T, K>(xs: seq<T>, x: T, key: T -> K, k: K)
    requires k != key(x)
    ensures FindIndex(Upsert(xs, x, key), key, k) == FindIndex(xs, key, k)
    ensures var f := FindIndex(xs, key, k); f >= 0 ==> Upsert(xs, x, key)[f] == xs[f]
  {
  }

  /** Saving the same record twice is the same as saving it once. */
  lemma {:induction false} UpsertIdempotent<T, K>(xs: seq<T>, x: T, key: T -> K)
    ensures Upsert(Upsert(xs, x, key), x, key) == Upsert(xs, x, key)
  {
    var r := Upsert(xs, x, key);
    UpsertThenFind(xs, x, key);
    var f := FindIndex(r, key, key(x));
    assert r[f := x] == r;
  }

  /** A save keeps the id invariant: it never introduces a duplicate key. */
  lemma UpsertKeepsUnique<T, K>(xs: seq<T>, x: T, key: T -> K)
    requires UniqueKeys(xs, key)
    ensures UniqueKeys(Upsert(xs, x, key), key)
  {
  }

  // --------------------------------------------------------------- Without

  /**
   * `f` lists, in increasing order, the indices of `xs` that `r` was taken from:
   * `r` is `xs` with the other elements dropped and nothing reordered.
   */
  ghost predicate Embeds<T>(r: seq<T>, xs: seq<T>, f: seq<int>)
  {
    |f| == |r| &&
    (forall m :: 0 <= m < |f| ==> 0 <= f[m] < |xs| && r[m] == xs[f[m]]) &&
    (forall m, n :: 0 <= m < n < |f| ==> f[m] < f[n])
  }

  /** Every index of `g` moved one place to the right. */
  ghost function Shift(g: seq<int>): seq<int>
  {
    seq(|g|, m requires 0 <= m < |g| => g[m] + 1)
  }

  /** An embedding into the tail of `xs` is one into `xs`, with or without its head. */
  lemma EmbedsTail<T>(r: seq<T>, xs: seq<T>, g: seq<int>)
    requires xs != [] && Embeds(r, xs[1..], g)
    ensures Embeds(r, xs, Shift(g))
    ensures Embeds([xs[0]] + r, xs, [0] + Shift(g))
  {
  }

  /**
   * A delete keeps every element whose key differs, in its original relative
   * order, and drops exactly the elements whose key matches.
   */
  lemma {:induction false} WithoutKeepsOrder<T, K>(xs: seq<T>, key: T -> K, k: K)
    returns (f: seq<int>)
    ensures Embeds(Without(xs, key, k), xs, f)
    ensures forall j :: 0 <= j < |xs| && key(xs[j]) != k ==> j in f
  {
    if xs == [] {
      f := [];
    } else {
      var rest := Without(xs[1..], key, k);
      var g := WithoutKeepsOrder(xs[1..], key, k);
      EmbedsTail(rest, xs, g);
      var s := Shift(g);
      TailIndices(xs, key, k, g);
      if key(xs[0]) == k {
        assert Without(xs, key, k) == rest;
        f := s;
      } else {
        assert Without(xs, key, k) == [xs[0]] + rest;
        f := [0] + s;
      }
    }
  }

  /** The tail's kept indices, shifted, are the kept indices of `xs` after its head. */
  lemma TailIndices<T, K>(xs: seq<T>, key: T -> K, k: K, g: seq<int>)
    requires xs != []
    requires forall j :: 0 <= j < |xs[1..]| && key(xs[1..][j]) != k ==> j in g
    ensures forall j :: 0 < j < |xs| && key(xs[j]) != k ==> j in Shift(g)
  {
    var s := Shift(g);
    forall j | 0 < j < |xs| && key(xs[j]) != k ensures j in s {
      assert xs[1..][j - 1] == xs[j];
      var m :| 0 <= m < |g| && g[m] == j - 1;
      assert s[m] == j;
    }
  }

  /** A delete leaves the collection unchanged exactly when no element has the key. */
  lemma {:induction false} WithoutUnchangedIff<T, K>(xs: seq<T>, key: T -> K, k: K)
    ensures Without(xs, key, k) == xs <==> forall j :: 0 <= j < |xs| ==> key(xs[j]) != k
  {
    if xs != [] && forall j :: 0 <= j < |xs| ==> key(xs[j]) != k {
      WithoutUnchangedIff(xs[1..], key, k);
      assert forall j :: 0 <= j < |xs[1..]| ==> key(xs[1..][j]) != k by {
        forall j | 0 <= j < |xs[1..]| ensures key(xs[1..][j]) != k { assert xs[1..][j] == xs[j + 1]; }
      }
      assert [xs[0]] + xs[1..] == xs;
    }
  }

  /** Deleting the same key twice is the same as deleting it once. */
  lemma WithoutIdempotent<T, K>(xs: seq<T>, key: T -> K, k: K)
    ensures Without(Without(xs, key, k), key, k) == Without(xs, key, k)
  {
  }

  /** Filtering distributes over concatenation (a delete after a bulk append). */
  lemma {:induction false} WithoutConcat<T, K>(a: seq<T>, b: seq<T>, key: T -> K, k: K)
    ensures Without(a + b, key, k) == Without(a, key, k) + Without(b, key, k)
  {
    if a != [] {
      WithoutConcat(a[1..], b, key, k);
      assert (a + b)[1..] == a[1..] + b;
    } else {
      assert a + b == b;
    }
  }

  /** A delete keeps the id invariant. */
  lemma {:induction false} WithoutKeepsUnique<T, K>(xs: seq<T>, key: T -> K, k: K)
    requires UniqueKeys(xs, key)
    ensures UniqueKeys(Without(xs, key, k), key)
  {
    if xs != [] {
      assert UniqueKeys(xs[1..], key) by {
        forall a, b | 0 <= a < b < |xs[1..]| ensures key(xs[1..][a]) != key(xs[1..][b]) {
          assert xs[1..][a] == xs[a + 1] && xs[1..][b] == xs[b + 1];
        }
      }
      WithoutKeepsUnique(xs[1..], key, k);
      var rest := Without(xs[1..], key, k);
      if key(xs[0]) != k {
        forall m | 0 <= m < |rest| ensures key(rest[m]) != key(xs[0]) {
          var j :| 0 <= j < |xs[1..]| && xs[1..][j] == rest[m];
          assert xs[1..][j] == xs[j + 1];
        }
        var r := Without(xs, key, k);
        assert r == [xs[0]] + rest;
        forall a, b | 0 <= a < b < |r| ensures key(r[a]) != key(r[b]) {
          if a == 0 { assert r[b] == rest[b - 1]; } else { assert r[a] == rest[a - 1] && r[b] == rest[b - 1]; }
        }
      }
    }
  }
}
