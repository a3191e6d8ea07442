/** The product record of the pharmacy inventory, its category tags and its derived
    stock and expiration predicates. Instants are whole microseconds (the resolution
    of Python's `datetime`) on one time line, and the clock is an explicit `now`. */
module Products {
  import opened Wrappers

  /** `ProductCategory`: the closed set of ten classification tags. */
  datatype Category =
    | Ortomolecular | Dermocosmetica | Homeopatia | Alopatica | Fitoterapia
    | Florales | Probioticos | Hormonas | MateriaPrima | Otros

  /** The categories in declaration order, the order `for category in ProductCategory` visits. */
  const AllCategories: seq<Category> :=
    [Ortomolecular, Dermocosmetica, Homeopatia, Alopatica, Fitoterapia,
     Florales, Probioticos, Hormonas, MateriaPrima, Otros]

  /** Characters a tag is written with: lower-case ASCII letters and `_`. */
  predicate IsTagChar(ch: char) {
    'a' <= ch <= 'z' || ch == '_'
  }

  /** `category.value`: the tag string a category is saved as. Tags are non-empty and
      lower-case, so a member name such as "OTROS" is no tag. */
  function Tag(c: Category): (r: string)
    ensures r != []
    ensures forall i :: 0 <= i < |r| ==> IsTagChar(r[i])
  {
    match c
    case Ortomolecular => "ortomolecular"
    case Dermocosmetica => "dermocosmetica"
    case Homeopatia => "homeopatia"
    case Alopatica => "alopatica"
    case Fitoterapia => "fitoterapia"
    case Florales => "florales"
    case Probioticos => "probioticos"
    case Hormonas => "hormonas"
    case MateriaPrima => "materia_prima"
    case Otros => "otros"
  }

  /** The first category of `cats` whose tag is `s`. */
  function FindTag(cats: seq<Category>, s: string): (r: Option<Category>)
    ensures r.Some? ==> r.value in cats && Tag(r.value) == s
    ensures r.None? ==> forall c :: c in cats ==> Tag(c) != s
  {
    if cats == [] then None
    else if Tag(cats[0]) == s then Some(cats[0])
    else FindTag(cats[1..], s)
  }

  /** `ProductCategory(s)`: the category whose tag is `s`, looked up among the members;
      `None` where Python raises `ValueError` for an unknown tag. */
  function ParseTag(s: string): (r: Option<Category>)
    ensures r.Some? ==> Tag(r.value) == s
  {
    FindTag(AllCategories, s)
  }

  /** No two categories share a tag. */
  lemma TagInjective(c1: Category, c2: Category)
    ensures Tag(c1) == Tag(c2) ==> c1 == c2
  {
  }

  /** Parsing accepts exactly the ten tags and gives back the category each names. */
  lemma ParseTagIff(s: string, c: Category)
    ensures ParseTag(s) == Some(c) <==> Tag(c) == s
  {
    AllCategoriesOnce(c);
    FindTagIff(AllCategories, s, c);
  }

  /** Lookup in a list finds `c` exactly when `c` is listed and has tag `s`. */
  lemma {:induction false} FindTagIff(cats: seq<Category>, s: string, c: Category)
    ensures FindTag(cats, s) == Some(c) <==> c in cats && Tag(c) == s
  {
    if cats != [] {
      FindTagIff(cats[1..], s, c);
      TagInjective(cats[0], c);
    }
  }

  /** A string that is no category's tag is rejected. */
  lemma ParseTagRejectsUnknown(s: string)
    requires forall c: Category :: Tag(c) != s
    ensures ParseTag(s) == None
  {
  }

  /** Every category occurs in `AllCategories` exactly once. */
  lemma AllCategoriesOnce(c: Category)
    ensures c in AllCategories
    ensures forall i, j :: 0 <= i < j < |AllCategories| ==> AllCategories[i] != AllCategories[j]
  {
  }

  /** Microseconds in a day: `timedelta.days` counts these. */
  const MicrosPerDay: int := 86_400_000_000

  /** Default `days_threshold` of the near-expiration queries. */
  const DefaultNearThreshold: int := 30

  /** `Product`. `unitPrice` is carried unchanged and never computed with. */
  datatype Product = Product(
    id: string,
    name: string,
    category: Category,
    description: string,
    stockQuantity: int,
    minStock: int,
    unitPrice: real,
    expirationDate: Option<int>,
    batchNumber: Option<string>,
    supplier: Option<string>,
    storageLocation: Option<string>)
  {
    /** `is_low_stock`: the stock is at or below the minimum, so a product that is not low
        has at least one unit more than its minimum. */
    predicate IsLowStock()
      ensures IsLowStock() <==> stockQuantity <= minStock
      ensures !IsLowStock() <==> stockQuantity >= minStock + 1
    {
      stockQuantity <= minStock
    }

    /** `is_expired`: false without a date, otherwise whether the clock is past it; that is,
        a date exists and fewer than zero whole days remain. */
    predicate IsExpired(now: int)
      ensures IsExpired(now) <==>
        DaysUntilExpiration(now).Some? && DaysUntilExpiration(now).value < 0
    {
      match expirationDate
      case None => false
      case Some(date) => now > date
    }

    /** `days_until_expiration`: `(expiration_date - now).days`, the floor of the
        difference in days (negative once the date has passed). */
    function DaysUntilExpiration(now: int): (r: Option<int>)
      ensures r.Some? <==> expirationDate.Some?
      ensures r.Some? ==>
        r.value * MicrosPerDay <= expirationDate.value - now < (r.value + 1) * MicrosPerDay
    {
      match expirationDate
      case None => None
      case Some(date) => Some((date - now) / MicrosPerDay)
    }

    /** `is_near_expiration(days_threshold)`: a date exists and it lies at least one day
        and less than `threshold + 1` days ahead. */
    predicate IsNearExpiration(now: int, threshold: int)
      ensures IsNearExpiration(now, threshold) <==>
        expirationDate.Some? &&
        MicrosPerDay <= expirationDate.value - now < (threshold + 1) * MicrosPerDay
    {
      match DaysUntilExpiration(now)
      case None => false
      case Some(days) =>
        WholeDaysWindow(expirationDate.value - now, threshold);
        0 < days <= threshold
    }
  }

  /** `delta` microseconds hold between one and `threshold` whole days exactly when
      `delta` is at least one day and less than `threshold + 1` days. */
  lemma WholeDaysWindow(delta: int, threshold: int)
    ensures 0 < delta / MicrosPerDay <= threshold <==>
      MicrosPerDay <= delta < (threshold + 1) * MicrosPerDay
  {
    var days := delta / MicrosPerDay;
    assert days * MicrosPerDay <= delta < (days + 1) * MicrosPerDay;
    if 0 < days <= threshold {
      assert MicrosPerDay <= days * MicrosPerDay;
      assert (days + 1) * MicrosPerDay <= (threshold + 1) * MicrosPerDay;
    }
  }

  /** Expired and near-expiration exclude each other, whatever the threshold. */
  lemma ExpiredIsNeverNear(p: Product, now: int, threshold: int)
    ensures p.IsExpired(now) ==> !p.IsNearExpiration(now, threshold)
    ensures p.IsNearExpiration(now, threshold) ==> !p.IsExpired(now)
  {
  }

  /** A larger threshold keeps every product a smaller one reports. */
  lemma NearExpirationMonotone(p: Product, now: int, t1: int, t2: int)
    requires t1 <= t2
    ensures p.IsNearExpiration(now, t1) ==> p.IsNearExpiration(now, t2)
  {
  }

  /** A product whose date is a day or more in the past is expired and not near expiration. */
  lemma ExpiredDayAgo(p: Product, now: int, threshold: int)
    requires p.expirationDate.Some? && p.expirationDate.value <= now - MicrosPerDay
    ensures p.IsExpired(now)
    ensures !p.IsNearExpiration(now, threshold)
    ensures p.DaysUntilExpiration(now).value <= -1
  {
    ExpiredIsNeverNear(p, now, threshold);
  }

  /** A product expiring exactly ten days ahead is near expiration for threshold 30
      but not for threshold 5. */
  lemma TenDaysAhead(p: Product, now: int)
    requires p.expirationDate == Some(now + 10 * MicrosPerDay)
    ensures p.DaysUntilExpiration(now) == Some(10)
    ensures p.IsNearExpiration(now, 30) && !p.IsNearExpiration(now, 5)
  {
  }

  /** The mapping `to_dict` gives a product: the category as its tag string. */
  datatype ProductRecord = ProductRecord(
    id: string,
    name: string,
    category: string,
    description: string,
    stockQuantity: int,
    minStock: int,
    unitPrice: real,
    expirationDate: Option<int>,
    batchNumber: Option<string>,
    supplier: Option<string>,
    storageLocation: Option<string>)

  /** `to_dict`. */
  function ToRecord(p: Product): (r: ProductRecord)
    ensures ParseTag(r.category) == Some(p.category)
  {
    ParseTagIff(Tag(p.category), p.category);
    ProductRecord(p.id, p.name, Tag(p.category), p.description, p.stockQuantity, p.minStock,
                  p.unitPrice, p.expirationDate, p.batchNumber, p.supplier, p.storageLocation)
  }

  /** Whether a record's category tag parses, so that the record converts. */
  predicate Converts(r: ProductRecord) {
    ParseTag(r.category).Some?
  }

  /** The loop body of `load_from_file`: `Product(**product_data)` after the category tag
      is parsed; `None` where the tag is unknown. */
  function FromRecord(r: ProductRecord): (p: Option<Product>)
    ensures p.Some? <==> Converts(r)
    ensures p.Some? ==> p.value.id == r.id && Tag(p.value.category) == r.category
  {
    match ParseTag(r.category)
    case None => None
    case Some(c) =>
      Some(Product(r.id, r.name, c, r.description, r.stockQuantity, r.minStock, r.unitPrice,
                   r.expirationDate, r.batchNumber, r.supplier, r.storageLocation))
  }

  /** Reading back a saved product gives the same product. */
  lemma RecordRoundTrip(p: Product)
    ensures FromRecord(ToRecord(p)) == Some(p)
  {
  }
}
