/** The deterministic fallback-photo selector of `utils/restaurant-photos.ts`. */
module RestaurantPhotos {
  import opened Wrappers
  import opened Text
  import opened JsNumber
  import opened RestaurantTypes

  /** The curated pool for sit-down restaurants, also the pool of last resort. */
  const RestaurantPool: seq<string> := [
    "https://images.unsplash.com/photo-1517248135467-4c7edcad34c4?w=600&q=80",
    "https://images.unsplash.com/photo-1414235077428-338989a2e8c0?w=600&q=80",
    "https://images.unsplash.com/photo-1537047902294-62a40c20a6ae?w=600&q=80",
    "https://images.unsplash.com/photo-1550966871-3ed3cdb5ed0c?w=600&q=80",
    "https://images.unsplash.com/photo-1559339352-11d035aa65de?w=600&q=80",
    "https://images.unsplash.com/photo-1466978913421-dad2ebd01d17?w=600&q=80",
    "https://images.unsplash.com/photo-1544025162-d76694265947?w=600&q=80"
  ]

  /** The curated pool for cafes. */
  const CafePool: seq<string> := [
    "https://images.unsplash.com/photo-1501339847302-ac426a4a7cbb?w=600&q=80",
    "https://images.unsplash.com/photo-1445116572660-236099ec97a0?w=600&q=80",
    "https://images.unsplash.com/photo-1495474472287-4d71bcdd2085?w=600&q=80",
    "https://images.unsplash.com/photo-1559925393-8be0ec4767c8?w=600&q=80",
    "https://images.unsplash.com/photo-1509042239860-f550ce710b93?w=600&q=80"
  ]

  /** The curated pool for fast food. */
  const FastFoodPool: seq<string> := [
    "https://images.unsplash.com/photo-1568901346375-23c9450c58cd?w=600&q=80",
    "https://images.unsplash.com/photo-1551782450-a2132b4ba21d?w=600&q=80",
    "https://images.unsplash.com/photo-1565299507177-b0ac66763828?w=600&q=80",
    "https://images.unsplash.com/photo-1549515604-6a21b4dc7f5c?w=600&q=80"
  ]

  /** The pool a restaurant type selects. The source's `?? RESTAURANT_PHOTOS` fallback cannot
      fire, as every type has a pool. */
  function Pool(t: RestaurantType): (p: seq<string>)
    ensures |p| > 0
  {
    match t
    case Dining => RestaurantPool
    case Cafe => CafePool
    case FastFood => FastFoodPool
  }

  /** One iteration of the hash loop: `((h * 31) + c) & 0xffffff`. */
  function HashStep(h: int, c: CodeUnit): (r: int)
    ensures 0 <= r < TWO_24
  {
    MaskIsMod(h * 31 + c);
    BitAnd(h * 31 + c, 0xFF_FFFF)
  }

  /** A hash step is `(h * 31 + c) mod 2^24`: the mask takes the residue modulo 2^24. */
  lemma HashStepIsMod(h: int, c: CodeUnit)
    ensures HashStep(h, c) == (h * 31 + c) % TWO_24
  {
    MaskIsMod(h * 31 + c);
  }

  /** The loop variable `h` after the loop has consumed `units`, starting from 0. */
  function HashUnits(units: seq<CodeUnit>): (h: int)
    ensures 0 <= h < TWO_24
    decreases |units|
  {
    if |units| == 0 then 0
    else HashStep(HashUnits(units[..|units| - 1]), units[|units| - 1])
  }

  /** `hashString`: the loop over the string's UTF-16 code units, then `Math.abs`. */
  function HashString(s: string): (h: nat)
    ensures h < TWO_24
    ensures s == "" ==> h == 0
  {
    Abs(HashUnits(Utf16(s)))
  }

  /** `Math.abs` leaves the loop's result as it is: the mask already made it non-negative. */
  lemma AbsIsNoOp(s: string)
    ensures HashString(s) == HashUnits(Utf16(s))
  {
  }

  /** 31 to the power `n`. */
  function Pow31(n: nat): (p: nat)
    ensures p > 0
  {
    if n == 0 then 1 else 31 * Pow31(n - 1)
  }

  /** The polynomial `u[0]*31^(n-1) + u[1]*31^(n-2) + ... + u[n-1]`, in exact integers. */
  function Polynomial(units: seq<CodeUnit>): nat
  {
    if |units| == 0 then 0 else units[0] * Pow31(|units| - 1) + Polynomial(units[1..])
  }

  /** Appending a code unit multiplies the polynomial by 31 and adds the unit. */
  lemma {:induction false} PolynomialSnoc(p: seq<CodeUnit>, c: CodeUnit)
    ensures Polynomial(p + [c]) == 31 * Polynomial(p) + c
    decreases |p|
  {
    if |p| == 0 {
      assert p + [c] == [c];
      assert [c][1..] == [];
    } else {
      var q := p + [c];
      assert q[0] == p[0] && q[1..] == p[1..] + [c];
      PolynomialSnoc(p[1..], c);
      assert Pow31(|q| - 1) == 31 * Pow31(|p| - 1);
      assert p[0] * Pow31(|q| - 1) == 31 * (p[0] * Pow31(|p| - 1));
    }
  }

  /** The hash is the polynomial rolling hash with base 31 reduced modulo 2^24. */
  lemma {:induction false} HashIsPolynomialMod(units: seq<CodeUnit>)
    ensures HashUnits(units) == Polynomial(units) % TWO_24
    decreases |units|
  {
    if |units| > 0 {
      var p := units[..|units| - 1];
      var c := units[|units| - 1];
      assert units == p + [c];
      HashIsPolynomialMod(p);
      HashStepIsMod(HashUnits(p), c);
      PolynomialSnoc(p, c);
      var a := Polynomial(p);
      assert a == (a / TWO_24) * TWO_24 + a % TWO_24;
      assert 31 * a + c == (31 * (a / TWO_24)) * TWO_24 + (31 * (a % TWO_24) + c);
      ModAddMultiple(31 * (a % TWO_24) + c, 31 * (a / TWO_24), TWO_24);
    }
  }

  /** The index `pickFrom` reads: the hash of `id` modulo the pool size, always in bounds. */
  function PickIndex(size: nat, id: string): (i: nat)
    requires size > 0
    ensures i < size
  {
    HashString(id) % size
  }

  /** `pickFrom`: the pool entry at the hash of `id` modulo the pool size. An empty pool gives
      `undefined`, as indexing with `x % 0` (NaN) does. */
  function PickFrom(pool: seq<string>, id: string): (r: Option<string>)
    ensures r.None? <==> |pool| == 0
    ensures r.Some? ==> r.value in pool
  {
    if |pool| == 0 then None else Some(pool[PickIndex(|pool|, id)])
  }

  /** Identifiers whose hashes fall in the same bucket pick the same entry. */
  lemma PickFromSameBucket(pool: seq<string>, id1: string, id2: string)
    ensures |pool| > 0 && PickIndex(|pool|, id1) == PickIndex(|pool|, id2) ==>
              PickFrom(pool, id1) == PickFrom(pool, id2)
  {
  }

  /** The provider URL is used when it is present and not the empty string (JavaScript truthiness). */
  predicate HasProviderPhoto(r: Restaurant)
  {
    r.imageUrl.Some? && r.imageUrl.value != ""
  }

  /** `getRestaurantPhoto`: the provider photo when there is one, otherwise the entry of the
      type's pool chosen by the hash of the place identifier. */
  function GetRestaurantPhoto(r: Restaurant): (url: string)
    ensures HasProviderPhoto(r) ==> url == r.imageUrl.value
    ensures !HasProviderPhoto(r) ==> url in Pool(r.kind)
    ensures !HasProviderPhoto(r) ==> PickFrom(Pool(r.kind), r.id) == Some(url)
  {
    if HasProviderPhoto(r) then r.imageUrl.value
    else
      match PickFrom(Pool(r.kind), r.id)
      case Some(u) => u
      case None => assert false; ""
  }

  /** A missing URL and an empty URL give the same fallback photo. */
  lemma MissingAndEmptyUrlAgree(r: Restaurant)
    ensures GetRestaurantPhoto(r.(imageUrl := None)) == GetRestaurantPhoto(r.(imageUrl := Some("")))
  {
  }

  /** Two restaurants without a provider photo, of the same type, whose identifiers hash to the
      same bucket of that type's pool, get the same photo. */
  lemma SameBucketSamePhoto(r1: Restaurant, r2: Restaurant)
    requires !HasProviderPhoto(r1) && !HasProviderPhoto(r2) && r1.kind == r2.kind
    ensures PickIndex(|Pool(r1.kind)|, r1.id) == PickIndex(|Pool(r1.kind)|, r2.id) ==>
              GetRestaurantPhoto(r1) == GetRestaurantPhoto(r2)
  {
    PickFromSameBucket(Pool(r1.kind), r1.id, r2.id);
  }

  /** A worked value: "ab" hashes to 97 * 31 + 98 = 3105, so a cafe with identifier "ab" and no
      photo gets the first cafe photo (3105 mod 5 = 0). */
  lemma HashExample(id: string)
    requires id == "ab"
    ensures HashString(id) == 3105
    ensures GetRestaurantPhoto(Restaurant(id, Cafe, None)) == CafePool[0]
  {
    assert id[0] == 'a' && id[1..] == "b" && "b"[1..] == "";
    assert Utf16(id) == [97, 98];
    var u := Utf16(id);
    assert Polynomial(u) == 3105 by {
      assert u[1..] == [98] && [98][1..] == [];
    }
    HashIsPolynomialMod(u);
    assert 3105 % TWO_24 == 3105;
    assert HashUnits(u) == 3105;
    assert HashString(id) == 3105;
    assert PickIndex(|CafePool|, id) == 0;
  }
}
