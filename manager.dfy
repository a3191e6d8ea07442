/** `InventoryManager`: the products dict, the append-only transaction log, the guarded
    mutations, the queries, the report counts, and the save/load conversion of products. */
module Manager {
  import opened Wrappers
  import opened Collections
  import opened Text
  import opened Products

  /** The `action` field of a logged transaction. */
  datatype Action = Add | Remove | Update

  /** One entry of `transactions`, as `_log_transaction` builds it; `timestamp` is the clock
      reading at the time of the call. */
  datatype Transaction = Transaction(
    timestamp: int, action: Action, productId: string, quantity: int, reason: string)

  // ---------------------------------------------------------------------------------------
  // The products dict

  /** The products stored under `keys`, in that order. */
  function Lookup(keys: seq<string>, m: map<string, Product>): (r: seq<Product>)
    requires forall k :: k in keys ==> k in m
    ensures |r| == |keys|
    ensures forall i :: 0 <= i < |keys| ==> r[i] == m[keys[i]]
  {
    if keys == [] then [] else [m[keys[0]]] + Lookup(keys[1..], m)
  }

  /** Sum of the stock quantities, `sum(p.stock_quantity for p in ps)`. When no quantity is
      negative, the sum is non-negative and no product holds more than it. */
  function TotalStock(ps: seq<Product>): (r: int)
    ensures (forall i :: 0 <= i < |ps| ==> ps[i].stockQuantity >= 0) ==>
              r >= 0 && forall i :: 0 <= i < |ps| ==> ps[i].stockQuantity <= r
  {
    if ps == [] then 0 else ps[0].stockQuantity + TotalStock(ps[1..])
  }

  /** `self.products`. A Python dict iterates in insertion order, and every query returns its
      products in that order: `order` holds the keys as they were first inserted, `entries`
      the product stored under each. */
  datatype Table = Table(order: seq<string>, entries: map<string, Product>) {

    /** Every key is listed once, and each product is stored under its own id. */
    ghost predicate Valid() {
      && Distinct(order)
      && (forall id :: id in entries <==> id in order)
      && (forall id :: id in entries ==> entries[id].id == id)
    }

    /** No stored product has a negative stock quantity. */
    ghost predicate StockNonNegative() {
      forall id :: id in entries ==> entries[id].stockQuantity >= 0
    }

    /** `products.values()`. */
    function Values(): (r: seq<Product>)
      requires Valid()
      ensures |r| == |entries|
    {
      DistinctCardinality(order);
      assert entries.Keys == set k | k in order;
      Lookup(order, entries)
    }

    /** `products[p.id] = p`: a new key goes to the end of the order, an existing one keeps
        its place. */
    function Put(p: Product): (t: Table)
      requires Valid()
      ensures t.Valid()
      ensures t.entries == entries[p.id := p]
      ensures t.order == if p.id in entries then order else order + [p.id]
    {
      var t := Table(if p.id in entries then order else order + [p.id], entries[p.id := p]);
      assert t.Valid() by {
        if p.id !in entries {
          forall i, j | 0 <= i < j < |t.order| ensures t.order[i] != t.order[j] {
            if j == |order| {
              assert t.order[i] == order[i];
            }
          }
        }
      }
      t
    }

    /** `del products[id]`. */
    function Delete(id: string): (t: Table)
      requires Valid() && id in entries
      ensures t.Valid()
      ensures t.order == Filter(order, (k: string) => k != id)
      ensures t.entries == entries - {id}
    {
      FilterDistinct(order, (k: string) => k != id);
      Table(Filter(order, (k: string) => k != id), entries - {id})
    }

    /** `products[id].stock_quantity = quantity`: the product keeps its place and every other
        field. */
    function SetStock(id: string, quantity: int): (t: Table)
      requires Valid() && id in entries
      ensures t.Valid()
      ensures t.order == order
      ensures t.entries == entries[id := entries[id].(stockQuantity := quantity)]
    {
      Table(order, entries[id := entries[id].(stockQuantity := quantity)])
    }
  }

  /** Deleting a key drops exactly its product, and that product's stock, from the values. */
  lemma DeleteValues(t: Table, id: string)
    requires t.Valid() && id in t.entries
    ensures t.Delete(id).Values() == Filter(t.Values(), (p: Product) => p.id != id)
    ensures TotalStock(t.Delete(id).Values()) == TotalStock(t.Values()) - t.entries[id].stockQuantity
  {
    LookupDelete(t.order, t.entries, id);
    LookupDeleteStock(t.order, t.entries, id);
  }

  /** Setting one product's stock moves the total by the difference. */
  lemma SetStockTotal(t: Table, id: string, quantity: int)
    requires t.Valid() && id in t.entries
    ensures TotalStock(t.SetStock(id, quantity).Values())
         == TotalStock(t.Values()) - t.entries[id].stockQuantity + quantity
  {
    var u := t.SetStock(id, quantity);
    LookupReplace(t.order, t.entries, u.entries, id);
  }

  /** Putting a product under a new id appends it to the values. */
  lemma PutNewValues(t: Table, p: Product)
    requires t.Valid() && p.id !in t.entries
    ensures t.Put(p).Values() == t.Values() + [p]
  {
    var u := t.Put(p);
    assert u.order == t.order + [p.id];
    assert u.Values() == Lookup(t.order + [p.id], u.entries);
    LookupAppend(t.order, [p.id], u.entries);
    assert Lookup([p.id], u.entries) == [p];
    LookupUnchanged(t.order, t.entries, p);
    assert t.Values() == Lookup(t.order, t.entries);
  }

  /** The values are exactly the products stored under their own ids. */
  lemma ValuesMembership(t: Table)
    requires t.Valid()
    ensures forall p :: p in t.Values() <==> p.id in t.entries && t.entries[p.id] == p
  {
    var vs := t.Values();
    forall p | p in vs ensures p.id in t.entries && t.entries[p.id] == p {
      var i :| 0 <= i < |vs| && vs[i] == p;
      assert p == t.entries[t.order[i]];
    }
    forall p: Product | p.id in t.entries && t.entries[p.id] == p ensures p in vs {
      var i :| 0 <= i < |t.order| && t.order[i] == p.id;
      assert vs[i] == p;
    }
  }

  /** Storing a product with a non-negative quantity keeps every quantity non-negative. */
  lemma PutKeepsNonNegative(t: Table, p: Product)
    requires t.Valid() && t.StockNonNegative() && p.stockQuantity >= 0
    ensures t.Put(p).StockNonNegative()
  {
    var u := t.Put(p);
    forall id | id in u.entries ensures u.entries[id].stockQuantity >= 0 {
      if id != p.id {
        assert u.entries[id] == t.entries[id];
      }
    }
  }

  /** Deleting a product keeps every remaining quantity non-negative. */
  lemma DeleteKeepsNonNegative(t: Table, id: string)
    requires t.Valid() && t.StockNonNegative() && id in t.entries
    ensures t.Delete(id).StockNonNegative()
  {
    var u := t.Delete(id);
    forall k | k in u.entries ensures u.entries[k].stockQuantity >= 0 {
      assert u.entries[k] == t.entries[k];
    }
  }

  /** Setting one quantity to a non-negative value keeps every quantity non-negative. */
  lemma SetStockKeepsNonNegative(t: Table, id: string, quantity: int)
    requires t.Valid() && t.StockNonNegative() && id in t.entries && quantity >= 0
    ensures t.SetStock(id, quantity).StockNonNegative()
  {
    var u := t.SetStock(id, quantity);
    forall k | k in u.entries ensures u.entries[k].stockQuantity >= 0 {
      if k != id {
        assert u.entries[k] == t.entries[k];
      }
    }
  }

  /** Non-negative quantities in the dict give a non-negative total over its values. */
  lemma ValuesNonNegative(t: Table)
    requires t.Valid() && t.StockNonNegative()
    ensures TotalStock(t.Values()) >= 0
  {
    var vs := t.Values();
    forall i | 0 <= i < |vs| ensures vs[i].stockQuantity >= 0 {
      assert vs[i] == t.entries[t.order[i]];
    }
  }

  /** The dict of a new manager. */
  const EmptyTable: Table := Table([], map[])

  /** Looking up keys other than `p.id` does not see an insertion under `p.id`. */
  lemma LookupUnchanged(keys: seq<string>, m: map<string, Product>, p: Product)
    requires forall k :: k in keys ==> k in m
    requires p.id !in keys
    ensures Lookup(keys, m[p.id := p]) == Lookup(keys, m)
  {
    var m' := m[p.id := p];
    assert forall i :: 0 <= i < |keys| ==> Lookup(keys, m')[i] == Lookup(keys, m)[i];
  }

  /** Looking up a concatenation concatenates the lookups. */
  lemma LookupAppend(a: seq<string>, b: seq<string>, m: map<string, Product>)
    requires forall k :: k in a + b ==> k in m
    ensures Lookup(a + b, m) == Lookup(a, m) + Lookup(b, m)
  {
    var l, r := Lookup(a + b, m), Lookup(a, m) + Lookup(b, m);
    forall i | 0 <= i < |l| ensures l[i] == r[i] {
      if i >= |a| {
        assert (a + b)[i] == b[i - |a|];
      }
    }
  }

  /** Deleting a key drops exactly its product from the dict's values. */
  lemma {:induction false} LookupDelete(keys: seq<string>, m: map<string, Product>, id: string)
    requires forall k :: k in keys ==> k in m
    requires forall k :: k in m ==> m[k].id == k
    ensures Lookup(Filter(keys, (k: string) => k != id), m - {id})
         == Filter(Lookup(keys, m), (p: Product) => p.id != id)
  {
    if keys != [] {
      assert Lookup(keys, m) == [m[keys[0]]] + Lookup(keys[1..], m);
      LookupDelete(keys[1..], m, id);
    }
  }

  /** Dropping the one product under a key drops its stock from the total. */
  lemma {:induction false} LookupDeleteStock(keys: seq<string>, m: map<string, Product>, id: string)
    requires forall k :: k in keys ==> k in m
    requires forall k :: k in m ==> m[k].id == k
    requires Distinct(keys)
    ensures TotalStock(Filter(Lookup(keys, m), (p: Product) => p.id != id))
         == TotalStock(Lookup(keys, m)) - (if id in keys then m[id].stockQuantity else 0)
  {
    if keys != [] {
      var vs := Lookup(keys, m);
      assert vs == [m[keys[0]]] + Lookup(keys[1..], m);
      assert Distinct(keys[1..]);
      LookupDeleteStock(keys[1..], m, id);
      if keys[0] == id {
        assert id !in keys[1..];
      }
    }
  }

  /** Replacing the product stored under one key moves the total by the difference of the
      two stocks. */
  lemma {:induction false} LookupReplace(keys: seq<string>, m: map<string, Product>,
                                         m': map<string, Product>, id: string)
    requires forall k :: k in keys ==> k in m && k in m'
    requires forall k :: k in keys && k != id ==> m'[k] == m[k]
    requires Distinct(keys)
    ensures TotalStock(Lookup(keys, m'))
         == TotalStock(Lookup(keys, m)) + (if id in keys then m'[id].stockQuantity - m[id].stockQuantity else 0)
  {
    if keys != [] {
      assert Lookup(keys, m) == [m[keys[0]]] + Lookup(keys[1..], m);
      assert Lookup(keys, m') == [m'[keys[0]]] + Lookup(keys[1..], m');
      assert Distinct(keys[1..]);
      LookupReplace(keys[1..], m, m', id);
      if keys[0] == id {
        assert id !in keys[1..];
      }
    }
  }

  /** Appending one product adds its stock to the total. */
  lemma {:induction false} TotalStockAppend(ps: seq<Product>, p: Product)
    ensures TotalStock(ps + [p]) == TotalStock(ps) + p.stockQuantity
  {
    if ps != [] {
      assert (ps + [p])[1..] == ps[1..] + [p];
      TotalStockAppend(ps[1..], p);
    }
  }

  // ---------------------------------------------------------------------------------------
  // Search and the report counts

  /** The test of `search_products`: the lower-cased query occurs in the lower-cased name or
      the lower-cased description. */
  predicate Matches(p: Product, query: string)
    ensures Matches(p, query) <==>
      OccursIn(Lower(p.name), Lower(query)) || OccursIn(Lower(p.description), Lower(query))
    ensures query == [] ==> Matches(p, query)
  {
    var name, description, pattern := Lower(p.name), Lower(p.description), Lower(query);
    ContainsIffOccurs(name, pattern);
    ContainsIffOccurs(description, pattern);
    Contains(name, pattern) || Contains(description, pattern)
  }

  /** `len(get_products_by_category(c))` over the products `ps`: positive exactly when some
      product has category `c`. */
  function CategoryCount(ps: seq<Product>, c: Category): (n: nat)
    ensures n <= |ps|
    ensures n > 0 <==> exists i :: 0 <= i < |ps| && ps[i].category == c
  {
    FilterNonEmpty(ps, (p: Product) => p.category == c);
    |Filter(ps, (p: Product) => p.category == c)|
  }

  /** Sum of the category counts over `cats`. */
  function CountAll(ps: seq<Product>, cats: seq<Category>): nat
  {
    if cats == [] then 0 else CategoryCount(ps, cats[0]) + CountAll(ps, cats[1..])
  }

  /** The line of the report for category `c`: present only when it has products. */
  function CategoryLine(ps: seq<Product>, c: Category): seq<(Category, nat)> {
    if CategoryCount(ps, c) > 0 then [(c, CategoryCount(ps, c))] else []
  }

  /** The per-category lines of the report: each category of `cats` that has products, with
      its count, in the order of `cats`. */
  function Breakdown(ps: seq<Product>, cats: seq<Category>): (r: seq<(Category, nat)>)
    ensures |r| <= |cats|
    ensures forall i :: 0 <= i < |r| ==>
              r[i].0 in cats && r[i].1 > 0 && r[i].1 == CategoryCount(ps, r[i].0)
    ensures forall c :: c in cats && CategoryCount(ps, c) > 0 ==> (c, CategoryCount(ps, c)) in r
  {
    if cats == [] then [] else CategoryLine(ps, cats[0]) + Breakdown(ps, cats[1..])
  }

  /** Sum of the counts of report lines. */
  function SumCounts(rows: seq<(Category, nat)>): nat
  {
    if rows == [] then 0 else rows[0].1 + SumCounts(rows[1..])
  }

  /** The lines for `cats + [c]` are those for `cats` followed by the line for `c`. */
  lemma {:induction false} BreakdownSnoc(ps: seq<Product>, cats: seq<Category>, c: Category)
    ensures Breakdown(ps, cats + [c]) == Breakdown(ps, cats) + CategoryLine(ps, c)
  {
    if cats == [] {
      assert [c][1..] == [];
    } else {
      assert (cats + [c])[1..] == cats[1..] + [c];
      BreakdownSnoc(ps, cats[1..], c);
    }
  }

  /** Dropping the categories without products loses nothing from the sum, and every line
      that remains has a positive count. */
  lemma {:induction false} BreakdownSum(ps: seq<Product>, cats: seq<Category>)
    ensures SumCounts(Breakdown(ps, cats)) == CountAll(ps, cats)
    ensures forall i :: 0 <= i < |Breakdown(ps, cats)| ==> Breakdown(ps, cats)[i].1 > 0
  {
    if cats != [] {
      var line, rest := CategoryLine(ps, cats[0]), Breakdown(ps, cats[1..]);
      BreakdownSum(ps, cats[1..]);
      if line != [] {
        assert (line + rest)[1..] == rest;
      } else {
        assert line + rest == rest;
      }
    }
  }

  /** How often `c` occurs in `cats`. */
  function Occurrences(cats: seq<Category>, c: Category): nat
  {
    if cats == [] then 0 else (if cats[0] == c then 1 else 0) + Occurrences(cats[1..], c)
  }

  /** One more product raises the summed counts by the number of times its category is listed. */
  lemma {:induction false} CountAllCons(p: Product, ps: seq<Product>, cats: seq<Category>)
    ensures CountAll([p] + ps, cats) == CountAll(ps, cats) + Occurrences(cats, p.category)
  {
    if cats != [] {
      CountAllCons(p, ps, cats[1..]);
      assert ([p] + ps)[1..] == ps;
    }
  }

  /** A category listed once, in a list without repetitions, occurs exactly once. */
  lemma {:induction false} OccursOnce(cats: seq<Category>, c: Category)
    requires Distinct(cats)
    ensures Occurrences(cats, c) == if c in cats then 1 else 0
  {
    if cats != [] {
      assert Distinct(cats[1..]);
      OccursOnce(cats[1..], c);
      if cats[0] == c {
        assert c !in cats[1..];
      }
    }
  }

  /** Every product falls in exactly one category, so the per-category counts add up to the
      number of products. */
  lemma {:induction false} CategoryCountsCoverAll(ps: seq<Product>)
    ensures CountAll(ps, AllCategories) == |ps|
  {
    if ps == [] {
      CountAllEmpty(AllCategories);
    } else {
      assert ps == [ps[0]] + ps[1..];
      CountAllCons(ps[0], ps[1..], AllCategories);
      AllCategoriesOnce(ps[0].category);
      OccursOnce(AllCategories, ps[0].category);
      CategoryCountsCoverAll(ps[1..]);
    }
  }

  /** No products, no counts. */
  lemma {:induction false} CountAllEmpty(cats: seq<Category>)
    ensures CountAll([], cats) == 0
  {
    if cats != [] {
      CountAllEmpty(cats[1..]);
    }
  }

  /** The numbers `generate_stock_report` prints: its text layout is not modelled. */
  datatype StockReport = StockReport(
    totalProducts: nat,
    totalStock: int,
    lowStock: nat,
    expired: nat,
    nearExpiration: nat,
    byCategory: seq<(Category, nat)>)

  // ---------------------------------------------------------------------------------------
  // Persistence: the products part of the saved document

  /** The JSON document `save_to_file` writes and `load_from_file` reads, as values. */
  datatype Document = Document(products: seq<ProductRecord>, transactions: seq<Transaction>)

  /** `[product.to_dict() for product in ps]`. */
  function ToRecords(ps: seq<Product>): (rs: seq<ProductRecord>)
    ensures |rs| == |ps|
    ensures forall i :: 0 <= i < |ps| ==> rs[i] == ToRecord(ps[i])
  {
    seq(|ps|, i requires 0 <= i < |ps| => ToRecord(ps[i]))
  }

  /** How many leading records load converts before it meets an unknown category tag. */
  function ParsedPrefix(records: seq<ProductRecord>): (k: nat)
    ensures k <= |records|
    ensures forall i :: 0 <= i < k ==> Converts(records[i])
    ensures k < |records| ==> !Converts(records[k])
  {
    ConvertsBefore(records, 0);
    FirstUnconverted(records, 0)
  }

  /** The first position from `start` on whose record does not convert, or the length. */
  function FirstUnconverted(records: seq<ProductRecord>, start: nat): (k: nat)
    requires start <= |records|
    ensures start <= k <= |records|
    ensures k < |records| ==> !Converts(records[k])
    decreases |records| - start
  {
    if start == |records| || !Converts(records[start]) then start
    else FirstUnconverted(records, start + 1)
  }

  /** Every record from `start` up to the first unconverted one converts. */
  lemma ConvertsBefore(records: seq<ProductRecord>, start: nat)
    requires start <= |records|
    ensures forall i :: start <= i < FirstUnconverted(records, start) ==> Converts(records[i])
  {
    forall i | start <= i < FirstUnconverted(records, start) {
      ConvertsAt(records, start, i);
    }
  }

  lemma {:induction false} ConvertsAt(records: seq<ProductRecord>, start: nat, i: nat)
    requires start <= |records| && start <= i < FirstUnconverted(records, start)
    ensures Converts(records[i])
    decreases i - start
  {
    if i > start {
      ConvertsAt(records, start + 1, i);
    }
  }

  /** A record that converts, right after the converted prefix, extends it. */
  lemma ParsedPrefixStep(records: seq<ProductRecord>, i: nat)
    requires i <= ParsedPrefix(records) && i < |records| && Converts(records[i])
    ensures i + 1 <= ParsedPrefix(records)
  {
  }

  /** A record that does not convert, right after the converted prefix, ends it. */
  lemma ParsedPrefixStop(records: seq<ProductRecord>, i: nat)
    requires i <= ParsedPrefix(records) && i < |records| && !Converts(records[i])
    ensures ParsedPrefix(records) == i
  {
  }

  /** The dict load rebuilds from records whose tags all parse: each product stored under its
      id in record order, a later record with the same id replacing the earlier one. */
  function BuildTable(records: seq<ProductRecord>): (t: Table)
    requires forall i :: 0 <= i < |records| ==> Converts(records[i])
    ensures t.Valid()
    decreases |records|
  {
    if records == [] then EmptyTable
    else BuildTable(records[..|records| - 1]).Put(FromRecord(records[|records| - 1]).value)
  }

  /** One more record: the table built so far, with that record's product put in. */
  lemma BuildTableSnoc(records: seq<ProductRecord>, r: ProductRecord)
    requires forall i :: 0 <= i < |records| ==> Converts(records[i])
    requires Converts(r)
    ensures forall i :: 0 <= i < |records + [r]| ==> Converts((records + [r])[i])
    ensures BuildTable(records + [r]) == BuildTable(records).Put(FromRecord(r).value)
  {
    var s := records + [r];
    assert s[..|s| - 1] == records;
  }

  /** `t` is the dict load has built after storing the first `k` records, all of which
      convert. */
  ghost predicate LoadedPrefix(t: Table, records: seq<ProductRecord>, k: nat) {
    k <= ParsedPrefix(records) && t == BuildTable(records[..k])
  }

  /** Storing the next record's product extends the loaded prefix by one. */
  lemma LoadedStep(t: Table, records: seq<ProductRecord>, k: nat)
    requires LoadedPrefix(t, records, k)
    requires k < |records| && Converts(records[k])
    ensures t.Valid()
    ensures LoadedPrefix(t.Put(FromRecord(records[k]).value), records, k + 1)
  {
    ParsedPrefixStep(records, k);
    SlicePrefix(records, k + 1);
    BuildTableSnoc(records[..k], records[k]);
  }

  /** Load stops at the end of the records or at the first one that does not convert. */
  lemma LoadedStop(t: Table, records: seq<ProductRecord>, k: nat)
    requires LoadedPrefix(t, records, k)
    requires k == |records| || !Converts(records[k])
    ensures k == ParsedPrefix(records)
    ensures t == BuildTable(records[..ParsedPrefix(records)])
  {
    if k < |records| {
      ParsedPrefixStop(records, k);
    }
  }

  /** `built` holds exactly the first `i` entries of `t`, in `t`'s order. */
  ghost predicate HoldsPrefix(built: Table, t: Table, i: nat)
    requires i <= |t.order|
  {
    && built.order == t.order[..i]
    && (forall k :: k in built.entries <==> k in t.order[..i])
    && (forall k :: k in built.entries ==> k in t.entries && built.entries[k] == t.entries[k])
  }

  /** Rebuilding from records that convert, position by position, to the first entries of
      `t` restores those entries of the dict. */
  lemma {:induction false} BuildTableHolds(t: Table, rs: seq<ProductRecord>)
    requires t.Valid() && |rs| <= |t.order|
    requires forall j :: 0 <= j < |rs| ==> Converts(rs[j])
    requires forall j :: 0 <= j < |rs| ==> FromRecord(rs[j]) == Some(t.entries[t.order[j]])
    ensures HoldsPrefix(BuildTable(rs), t, |rs|)
  {
    if rs != [] {
      var n := |rs|;
      var front := rs[..n - 1];
      assert forall j :: 0 <= j < |front| ==> front[j] == rs[j];
      BuildTableHolds(t, front);
      var prev := BuildTable(front);
      var id := t.order[n - 1];
      var p := FromRecord(rs[n - 1]).value;
      assert p == t.entries[id];
      assert id !in prev.entries by {
        DistinctPrefix(t.order, n);
      }
      var built := prev.Put(p);
      assert BuildTable(rs) == built;
      SlicePrefix(t.order, n);
      assert built.order == t.order[..n];
      forall k | k in built.entries ensures k in t.entries && built.entries[k] == t.entries[k] {
        if k != id {
          assert built.entries[k] == prev.entries[k];
        }
      }
      forall k ensures k in built.entries <==> k in t.order[..n] {
        assert k in t.order[..n] <==> k in t.order[..n - 1] || k == id;
      }
    }
  }

  /** A table holding every entry of `t`, in `t`'s order, is `t`. */
  lemma HoldsAll(built: Table, t: Table)
    requires t.Valid() && HoldsPrefix(built, t, |t.order|)
    ensures built == t
  {
    assert t.order[..|t.order|] == t.order;
    assert built.entries == t.entries;
  }

  /** Records that all convert are converted to the end. */
  lemma ParsedPrefixAll(records: seq<ProductRecord>)
    requires forall j :: 0 <= j < |records| ==> Converts(records[j])
    ensures ParsedPrefix(records) == |records|
  {
  }

  /** Each saved record converts back to the product saved from that position. */
  lemma SavedRecordsConvert(t: Table, rs: seq<ProductRecord>)
    requires t.Valid() && rs == ToRecords(t.Values())
    ensures |rs| == |t.order|
    ensures forall j :: 0 <= j < |rs| ==> FromRecord(rs[j]) == Some(t.entries[t.order[j]])
  {
    var vs := t.Values();
    forall j | 0 <= j < |rs| ensures FromRecord(rs[j]) == Some(t.entries[t.order[j]]) {
      assert vs[j] == t.entries[t.order[j]];
      assert rs[j] == ToRecord(vs[j]);
      RecordRoundTrip(vs[j]);
    }
  }

  /** Records that convert, position by position, to the entries of `t` all convert. */
  lemma SavedConvert(t: Table, rs: seq<ProductRecord>)
    requires t.Valid() && |rs| == |t.order|
    requires forall j :: 0 <= j < |rs| ==> FromRecord(rs[j]) == Some(t.entries[t.order[j]])
    ensures forall j :: 0 <= j < |rs| ==> Converts(rs[j])
  {
    forall j | 0 <= j < |rs| ensures Converts(rs[j]) {
      assert FromRecord(rs[j]).Some?;
    }
  }

  /** Records that convert, position by position, to the entries of `t` rebuild `t`. */
  lemma RebuildSaved(t: Table, rs: seq<ProductRecord>)
    requires t.Valid() && |rs| == |t.order|
    requires forall j :: 0 <= j < |rs| ==> FromRecord(rs[j]) == Some(t.entries[t.order[j]])
    requires forall j :: 0 <= j < |rs| ==> Converts(rs[j])
    ensures BuildTable(rs) == t
  {
    BuildTableHolds(t, rs);
    HoldsAll(BuildTable(rs), t);
  }

  /** What `save_to_file` writes for the products loads back as the same dict. */
  lemma SaveLoadRoundTrip(t: Table)
    requires t.Valid()
    ensures ParsedPrefix(ToRecords(t.Values())) == |t.entries|
    ensures BuildTable(ToRecords(t.Values())) == t
  {
    var rs := ToRecords(t.Values());
    SavedRecordsConvert(t, rs);
    SavedConvert(t, rs);
    RebuildSaved(t, rs);
    ParsedPrefixAll(rs);
  }

  // ---------------------------------------------------------------------------------------
  // The manager

  class InventoryManager {
    /** `self.products`. */
    var products: Table
    /** `self.transactions`, oldest first. */
    var transactions: seq<Transaction>

    ghost predicate Valid()
      reads this
    {
      products.Valid()
    }

    /** The quantity invariant `update_stock` protects. */
    ghost predicate StockNonNegative()
      reads this
    {
      products.StockNonNegative()
    }

    /** `__init__`: no products, no transactions. */
    constructor ()
      ensures Valid()
      ensures products == EmptyTable && transactions == []
    {
      products := EmptyTable;
      transactions := [];
    }

    /** `_log_transaction`. */
    method LogTransaction(now: int, action: Action, productId: string, quantity: int, reason: string)
      modifies this`transactions
      ensures transactions == old(transactions) + [Transaction(now, action, productId, quantity, reason)]
    {
      transactions := transactions + [Transaction(now, action, productId, quantity, reason)];
    }

    /** `add_product`: refuses an id already present; otherwise stores the product at the end
        of the order and logs an ADD of its initial stock. */
    method AddProduct(now: int, product: Product) returns (ok: bool)
      requires Valid()
      modifies this
      ensures Valid()
      ensures ok <==> product.id !in old(products.entries)
      ensures !ok ==> products == old(products) && transactions == old(transactions)
      ensures ok ==> products.entries == old(products.entries)[product.id := product]
      ensures ok ==> products.Values() == old(products.Values()) + [product]
      ensures ok ==> transactions == old(transactions) + [Transaction(now, Add, product.id, product.stockQuantity, "")]
      ensures ok ==> TotalStock(products.Values()) == old(TotalStock(products.Values())) + product.stockQuantity
      ensures old(StockNonNegative()) && product.stockQuantity >= 0 ==> StockNonNegative()
    {
      if product.id in products.entries {
        return false;
      }
      TotalStockAppend(products.Values(), product);
      PutNewValues(products, product);
      if products.StockNonNegative() && product.stockQuantity >= 0 {
        PutKeepsNonNegative(products, product);
      }
      products := products.Put(product);
      LogTransaction(now, Add, product.id, product.stockQuantity, "");
      ok := true;
    }

    /** `remove_product`: refuses an absent id; otherwise deletes it and logs a REMOVE with
        quantity 0. */
    method RemoveProduct(now: int, productId: string) returns (ok: bool)
      requires Valid()
      modifies this
      ensures Valid()
      ensures ok <==> productId in old(products.entries)
      ensures !ok ==> products == old(products) && transactions == old(transactions)
      ensures ok ==> products.entries == old(products.entries) - {productId}
      ensures ok ==> products.Values() == Filter(old(products.Values()), (p: Product) => p.id != productId)
      ensures ok ==> transactions == old(transactions) + [Transaction(now, Remove, productId, 0, "")]
      ensures ok ==> (TotalStock(products.Values())
                      == old(TotalStock(products.Values())) - old(products.entries[productId].stockQuantity))
      ensures old(StockNonNegative()) ==> StockNonNegative()
    {
      if productId !in products.entries {
        return false;
      }
      DeleteValues(products, productId);
      if products.StockNonNegative() {
        DeleteKeepsNonNegative(products, productId);
      }
      products := products.Delete(productId);
      LogTransaction(now, Remove, productId, 0, "");
      ok := true;
    }

    /** `update_stock`: refuses an absent id and a change that would take the stock below
        zero; otherwise sets the new stock, logs an UPDATE of the change with its reason, and
        raises the low-stock alert when the product is now at or below its minimum. */
    method UpdateStock(now: int, productId: string, quantityChange: int, reason: string)
      returns (ok: bool, lowStockAlert: bool)
      requires Valid()
      modifies this
      ensures Valid()
      ensures ok <==> (productId in old(products.entries)
                       && old(products.entries[productId].stockQuantity) + quantityChange >= 0)
      ensures !ok ==> products == old(products) && transactions == old(transactions) && !lowStockAlert
      ensures ok ==> products.order == old(products.order)
      ensures ok ==> products.entries == old(products.entries)[productId :=
                       old(products.entries[productId]).(stockQuantity :=
                         old(products.entries[productId].stockQuantity) + quantityChange)]
      ensures ok ==> transactions == old(transactions) + [Transaction(now, Update, productId, quantityChange, reason)]
      ensures ok ==> products.entries[productId].stockQuantity >= 0
      ensures ok ==> (lowStockAlert <==> products.entries[productId].IsLowStock())
      ensures ok ==> TotalStock(products.Values()) == old(TotalStock(products.Values())) + quantityChange
      ensures old(StockNonNegative()) ==> StockNonNegative()
    {
      if productId !in products.entries {
        return false, false;
      }
      var newQuantity := products.entries[productId].stockQuantity + quantityChange;
      if newQuantity < 0 {
        return false, false;
      }
      SetStockTotal(products, productId, newQuantity);
      if products.StockNonNegative() {
        SetStockKeepsNonNegative(products, productId, newQuantity);
      }
      products := products.SetStock(productId, newQuantity);
      LogTransaction(now, Update, productId, quantityChange, reason);
      lowStockAlert := products.entries[productId].IsLowStock();
      ok := true;
    }

    /** `get_product`. */
    function GetProduct(productId: string): (r: Option<Product>)
      reads this
      requires Valid()
      ensures r.Some? <==> productId in products.entries
      ensures r.Some? ==> r.value == products.entries[productId] && r.value.id == productId
    {
      if productId in products.entries then Some(products.entries[productId]) else None
    }

    /** `search_products`: the stored products whose name or description contains the query,
        ignoring case. */
    function SearchProducts(query: string): (r: seq<Product>)
      reads this
      requires Valid()
      ensures forall id :: id in products.entries ==>
                (products.entries[id] in r <==> Matches(products.entries[id], query))
      ensures forall p :: p in r ==> p.id in products.entries && products.entries[p.id] == p
      ensures IsSubsequence(r, products.Values())
    {
      ValuesMembership(products);
      Filter(products.Values(), (p: Product) => Matches(p, query))
    }

    /** `get_products_by_category`. */
    function ProductsByCategory(category: Category): (r: seq<Product>)
      reads this
      requires Valid()
      ensures forall id :: id in products.entries ==>
                (products.entries[id] in r <==> products.entries[id].category == category)
      ensures forall p :: p in r ==> p.id in products.entries && products.entries[p.id] == p
      ensures IsSubsequence(r, products.Values())
    {
      ValuesMembership(products);
      Filter(products.Values(), (p: Product) => p.category == category)
    }

    /** `get_low_stock_products`. */
    function LowStockProducts(): (r: seq<Product>)
      reads this
      requires Valid()
      ensures forall id :: id in products.entries ==>
                (products.entries[id] in r <==> products.entries[id].stockQuantity <= products.entries[id].minStock)
      ensures forall p :: p in r ==> p.id in products.entries && products.entries[p.id] == p
      ensures IsSubsequence(r, products.Values())
    {
      ValuesMembership(products);
      Filter(products.Values(), (p: Product) => p.IsLowStock())
    }

    /** `get_expired_products`. */
    function ExpiredProducts(now: int): (r: seq<Product>)
      reads this
      requires Valid()
      ensures forall id :: id in products.entries ==>
                (products.entries[id] in r <==> products.entries[id].IsExpired(now))
      ensures forall p :: p in r ==> p.id in products.entries && products.entries[p.id] == p
      ensures IsSubsequence(r, products.Values())
    {
      ValuesMembership(products);
      Filter(products.Values(), (p: Product) => p.IsExpired(now))
    }

    /** `get_near_expiration_products`. */
    function NearExpirationProducts(now: int, threshold: int): (r: seq<Product>)
      reads this
      requires Valid()
      ensures forall id :: id in products.entries ==>
                (products.entries[id] in r <==> products.entries[id].IsNearExpiration(now, threshold))
      ensures forall p :: p in r ==> p.id in products.entries && products.entries[p.id] == p
      ensures IsSubsequence(r, products.Values())
    {
      ValuesMembership(products);
      Filter(products.Values(), (p: Product) => p.IsNearExpiration(now, threshold))
    }

    /** The empty query matches every product, so it returns all of them in order. */
    lemma SearchEmptyReturnsAll()
      requires Valid()
      ensures SearchProducts("") == products.Values()
    {
      forall p | p in products.Values() ensures Matches(p, "") {
        ContainsEmpty(Lower(p.name));
      }
      FilterKeepsAll(products.Values(), (p: Product) => Matches(p, ""));
    }

    /** Searching is blind to the case of the query. */
    lemma SearchIgnoresQueryCase(query: string)
      requires Valid()
      ensures SearchProducts(Lower(query)) == SearchProducts(query)
    {
      LowerIdempotent(query);
      FilterCongruent(products.Values(), (p: Product) => Matches(p, Lower(query)),
                      (p: Product) => Matches(p, query));
    }

    /** The counts of `generate_stock_report`; the per-category lines come from its loop over
        the categories in declaration order. */
    method GenerateStockReport(now: int) returns (report: StockReport)
      requires Valid()
      ensures report.totalProducts == |products.entries|
      ensures report.totalStock == TotalStock(products.Values())
      ensures report.lowStock == |LowStockProducts()|
      ensures report.expired == |ExpiredProducts(now)|
      ensures report.nearExpiration == |NearExpirationProducts(now, DefaultNearThreshold)|
      ensures report.byCategory == Breakdown(products.Values(), AllCategories)
      ensures forall i :: 0 <= i < |report.byCategory| ==> report.byCategory[i].1 > 0
      ensures SumCounts(report.byCategory) == report.totalProducts
      ensures report.expired + report.nearExpiration <= report.totalProducts
      ensures StockNonNegative() ==> report.totalStock >= 0
    {
      var values := products.Values();
      var byCategory: seq<(Category, nat)> := [];
      for i := 0 to |AllCategories|
        invariant byCategory == Breakdown(values, AllCategories[..i])
      {
        var category := AllCategories[i];
        var count := |ProductsByCategory(category)|;
        SlicePrefix(AllCategories, i + 1);
        BreakdownSnoc(values, AllCategories[..i], category);
        if count > 0 {
          byCategory := byCategory + [(category, count)];
        }
      }
      assert AllCategories[..|AllCategories|] == AllCategories;
      BreakdownSum(values, AllCategories);
      CategoryCountsCoverAll(values);
      forall p: Product ensures !(p.IsExpired(now) && p.IsNearExpiration(now, DefaultNearThreshold)) {
        ExpiredIsNeverNear(p, now, DefaultNearThreshold);
      }
      FilterDisjointSize(values, (p: Product) => p.IsExpired(now),
                         (p: Product) => p.IsNearExpiration(now, DefaultNearThreshold));
      if StockNonNegative() {
        ValuesNonNegative(products);
      }
      report := StockReport(|products.entries|, TotalStock(values), |LowStockProducts()|,
                            |ExpiredProducts(now)|,
                            |NearExpirationProducts(now, DefaultNearThreshold)|, byCategory);
    }

    /** The document `save_to_file` writes. Every saved category tag parses again, and the
        products rebuild into the same dict. */
    function Snapshot(): (d: Document)
      reads this
      requires Valid()
      ensures |d.products| == |products.entries|
      ensures ParsedPrefix(d.products) == |d.products|
      ensures BuildTable(d.products) == products
      ensures d.transactions == transactions
    {
      SaveLoadRoundTrip(products);
      Document(ToRecords(products.Values()), transactions)
    }

    /** `load_from_file` as written. `file` is the parsed document, `None` when the file does
        not exist. The dict is emptied first and rebuilt record by record; at an unknown
        category tag the error is caught and `false` returned, leaving the products read so
        far in place and the old transactions beside them. */
    method LoadFromFile(file: Option<Document>) returns (ok: bool)
      requires Valid()
      modifies this
      ensures Valid()
      ensures file.None? ==> !ok && products == old(products) && transactions == old(transactions)
      ensures file.Some? ==> (ok <==> ParsedPrefix(file.value.products) == |file.value.products|)
      ensures file.Some? ==>
                products == BuildTable(file.value.products[..ParsedPrefix(file.value.products)])
      ensures ok ==> transactions == file.value.transactions
      ensures !ok ==> transactions == old(transactions)
    {
      if file.None? {
        return false;
      }
      var records := file.value.products;
      var k := ReadProducts(records);
      if k < |records| {
        return false;
      }
      assert records[..k] == records;
      transactions := file.value.transactions;
      ok := true;
    }

    /** The loop of `load_from_file`: the dict is emptied, then each record's product is
        stored in turn until a record's tag does not parse. Returns how many were stored. */
    method ReadProducts(records: seq<ProductRecord>) returns (k: nat)
      modifies this`products
      ensures k == ParsedPrefix(records)
      ensures products == BuildTable(records[..k])
    {
      products := EmptyTable;
      k := 0;
      while k < |records| && Converts(records[k])
        invariant LoadedPrefix(products, records, k)
      {
        LoadedStep(products, records, k);
        products := products.Put(FromRecord(records[k]).value);
        k := k + 1;
      }
      LoadedStop(products, records, k);
    }

    /** `load_from_file` with all-or-nothing replacement: the dict is rebuilt aside and the
        state replaced only when every record converts. */
    method LoadFromFileAtomic(file: Option<Document>) returns (ok: bool)
      requires Valid()
      modifies this
      ensures Valid()
      ensures ok <==> file.Some? && ParsedPrefix(file.value.products) == |file.value.products|
      ensures !ok ==> products == old(products) && transactions == old(transactions)
      ensures ok ==> products == BuildTable(file.value.products)
      ensures ok ==> transactions == file.value.transactions
    {
      if file.None? {
        return false;
      }
      var records := file.value.products;
      var rebuilt, k := RebuildTable(records);
      if k < |records| {
        return false;
      }
      assert records[..k] == records;
      products := rebuilt;
      transactions := file.value.transactions;
      ok := true;
    }
  }

  /** The dict rebuilt from the leading records that convert, built aside from any manager;
      also returns how many records went in. */
  method RebuildTable(records: seq<ProductRecord>) returns (t: Table, k: nat)
    ensures k == ParsedPrefix(records)
    ensures t == BuildTable(records[..k])
  {
    t := EmptyTable;
    k := 0;
    while k < |records| && Converts(records[k])
      invariant LoadedPrefix(t, records, k)
    {
      LoadedStep(t, records, k);
      t := t.Put(FromRecord(records[k]).value);
      k := k + 1;
    }
    LoadedStop(t, records, k);
  }

  /** A document whose first record converts and whose second does not: load as written
      stops after the first, and the dict it leaves holds that first product alone. */
  lemma PartialLoadKeepsFirst(good: ProductRecord, bad: ProductRecord)
    requires Converts(good) && !Converts(bad)
    ensures ParsedPrefix([good, bad]) == 1
    ensures BuildTable([good, bad][..ParsedPrefix([good, bad])])
            == Table([FromRecord(good).value.id], map[FromRecord(good).value.id := FromRecord(good).value])
  {
    var records := [good, bad];
    ParsedPrefixStep(records, 0);
    ParsedPrefixStop(records, 1);
    assert records[..1] == [] + [good];
    BuildTableSnoc([], good);
  }

  /** A failed load as written can leave products behind: a document whose first record is
      good and whose second carries the unknown tag "OTROS" (tags are matched by exact value)
      leaves that first product in the dict, so a manager that was empty does not stay
      empty. */
  lemma PartialLoadCounterexample(p: Product)
    ensures var records := [ToRecord(p), ToRecord(p).(category := "OTROS")];
            ParsedPrefix(records) == 1
            && BuildTable(records[..ParsedPrefix(records)]) == Table([p.id], map[p.id := p])
            && BuildTable(records[..ParsedPrefix(records)]) != EmptyTable
  {
    var good := ToRecord(p);
    var bad := good.(category := "OTROS");
    assert FromRecord(good) == Some(p) by { RecordRoundTrip(p); }
    assert !Converts(bad) by { ParseTagRejectsUnknown(bad.category); }
    PartialLoadKeepsFirst(good, bad);
    assert Table([p.id], map[p.id := p]).order != EmptyTable.order;
  }

  /** The add / sell / oversell / remove scenario: P1 enters with stock 50 and minimum 10;
      selling 45 succeeds with the low-stock alert, selling 10 more is refused and leaves 5,
      and after removal P1 is not found. */
  method StockScenario(now: int, p: Product)
    returns (added: bool, sold: bool, alert: bool, oversold: bool, stockLeft: int, removed: bool, found: bool)
    requires p.id == "P1" && p.stockQuantity == 50 && p.minStock == 10
    ensures added && sold && alert && !oversold && stockLeft == 5 && removed && !found
  {
    var inventory := new InventoryManager();
    added := inventory.AddProduct(now, p);
    sold, alert := inventory.UpdateStock(now, "P1", -45, "Venta");
    var secondAlert;
    oversold, secondAlert := inventory.UpdateStock(now, "P1", -10, "Venta");
    stockLeft := inventory.products.entries["P1"].stockQuantity;
    removed := inventory.RemoveProduct(now, "P1");
    found := inventory.GetProduct("P1").Some?;
  }
}
