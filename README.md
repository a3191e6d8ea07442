# Pharmacy inventory (Farmacia Nieto) — Dafny model

This project models the in-memory inventory of a pharmacy. The core is `inventory_manager.py`. It covers:

- the closed set of ten product categories and their tag strings;
- the `Product` record and its derived stock and expiration predicates;
- the `InventoryManager`. It holds a dict from product id to product and an append-only transaction log. It offers guarded add, remove and stock-update operations, read-only query filters and the counts behind the stock report. Saving and loading convert products to and from records whose category is a tag string.

Files:

- `wrappers.dfy`: `Option`, used for Python's `None`-or-value.
- `collections.dfy`: `Filter`, a list comprehension `[x for x in s if keep(x)]`, and its lemmas.
- `text.dfy`: `str.lower` and the substring test `in`.
- `products.dfy`: `Category`, the tags and their parse, `Product` and its predicates, and the saved record.
- `manager.dfy`: the dict as an insertion-ordered `Table`, the `InventoryManager` class, the report counts and load/save.

Time is an explicit `now: int` parameter. It counts whole microseconds, the resolution of Python's `datetime`. `days_until_expiration` is `timedelta.days`: the floor of the difference divided by 86 400 000 000. A Python dict iterates in insertion order, and every query returns products in that order. So the dict is a value `Table(order, entries)`: the keys in first-insertion order, and the product stored under each key. The manager is a class whose `products` and `transactions` fields are reassigned by its methods.

## Model

| member | source | states |
|---|---|---|
| `Products.Tag` | inventory_manager.py:16-27 | `category.value`: every tag is non-empty and written in lower-case letters and `_`, so a member name such as `OTROS` is no tag |
| `Products.FindTag` | inventory_manager.py:16-27 | the category found has the looked-up tag and is listed; `None` only when no listed category has that tag |
| `Products.ParseTag` | inventory_manager.py:282 | a category that `ProductCategory(s)` returns has tag `s` |
| `Products.ParseTagIff` | inventory_manager.py:282 | parsing gives `c` exactly when `s` is `c`'s tag: the tag round trip holds for all ten categories, and nothing else parses to `c` |
| `Products.ParseTagRejectsUnknown` | inventory_manager.py:282 | a string that is no category's tag is rejected |
| `Products.TagInjective` | inventory_manager.py:16-27 | no two categories share a tag |
| `Products.FindTagIff` | inventory_manager.py:16-27 | lookup in a list of categories finds `c` exactly when `c` is listed and has the tag |
| `Products.AllCategoriesOnce` | inventory_manager.py:16-27 | the category enumeration lists every category, each exactly once |
| `Products.Product.IsLowStock` | inventory_manager.py:45-47 | low exactly when stock ≤ minimum, so a product that is not low has at least one unit above its minimum; `LowStockProducts` and the alert of `UpdateStock` use it |
| `Products.Product.IsExpired` | inventory_manager.py:49-53 | expired exactly when a date exists and fewer than zero whole days remain (the clock is past the date); no date, never expired |
| `Products.Product.IsNearExpiration` | inventory_manager.py:62-67 | near expiration exactly when a date exists and it is at least one day and less than threshold+1 days ahead; no date, never near |
| `Products.Product.DaysUntilExpiration` | inventory_manager.py:55-60 | `None` exactly when there is no date; otherwise the whole number of days `d` with `d` days ≤ date − now < `d`+1 days (the floor, negative once past) |
| `Products.ExpiredIsNeverNear` | inventory_manager.py:49-67 | expired and near-expiration exclude each other for every threshold |
| `Products.WholeDaysWindow` | inventory_manager.py:59-67 | a span holds between 1 and `threshold` whole days (floored) exactly when it is at least one day and less than threshold+1 days |
| `Products.NearExpirationMonotone` | inventory_manager.py:62-67 | a larger threshold keeps every product a smaller threshold reports |
| `Products.ExpiredDayAgo` | inventory_manager.py:49-67 | a date a day or more in the past is expired, is at −1 days or less, and is never near expiration |
| `Products.TenDaysAhead` | inventory_manager.py:55-67 | a date ten days ahead gives 10 days, near expiration at threshold 30 and not at threshold 5 |
| `Products.ToRecord` | inventory_manager.py:69-75 | the saved record's category tag parses back to the product's category |
| `Products.FromRecord` | inventory_manager.py:281-288 | a record converts exactly when its tag parses; the product keeps the record's id and has the category named by the tag |
| `Products.RecordRoundTrip` | inventory_manager.py:69-75 | converting a saved product record back gives the same product, all fields included |
| `Collections.Filter` | inventory_manager.py:172-175 | a list comprehension keeps exactly the elements passing the test, in their order (a subsequence), and no more of them than the input has |
| `Collections.FilterNonEmpty` | inventory_manager.py:229-230 | a comprehension keeps something exactly when some element passes its test |
| `Collections.FilterKeepsAll` | inventory_manager.py:172-175 | a test that every element passes keeps the whole list |
| `Text.LowerChar` | inventory_manager.py:171 | the result is never a capital, and it differs from the input exactly when the input is a capital |
| `Text.Lower` | inventory_manager.py:171 | lower-casing keeps the length and lower-cases each character in place |
| `Text.LowerIdempotent` | inventory_manager.py:171 | lower-casing twice is lower-casing once |
| `Text.Contains` | inventory_manager.py:174 | `pattern in text`: a contained pattern is no longer than the text, and every prefix of the text, the empty string included, is contained |
| `Text.ContainsIffOccurs` | inventory_manager.py:174 | `pattern in text` holds exactly when the pattern occurs at some position of the text |
| `Text.ContainsEmpty` | inventory_manager.py:174 | the empty string is in every string |
| `Manager.TotalStock` | inventory_manager.py:209 | `sum(p.stock_quantity ...)`: when no quantity is negative the sum is non-negative and no single product's stock exceeds it |
| `Manager.Matches` | inventory_manager.py:174 | the search test holds exactly when the lower-cased query occurs at some position of the lower-cased name or description; the empty query matches every product |
| `Manager.CategoryCount` | inventory_manager.py:229 | `len(get_products_by_category(c))`: at most the number of products, and positive exactly when some product has that category |
| `Manager.Breakdown` | inventory_manager.py:228-231 | the per-category report lines: each names a listed category with its positive count, and every listed category with products has its line |
| `Manager.ToRecords` | inventory_manager.py:266 | `[product.to_dict() for ...]`: one record per product, in order, each the product's own record |
| `Manager.Table.Values` | inventory_manager.py:173 | `products.values()` has one product per key |
| `Manager.Table.Put` | inventory_manager.py:99 | storing under `p.id` maps that id to `p` and keeps the dict well formed; a new key goes last, an existing key keeps its place |
| `Manager.Table.Delete` | inventory_manager.py:119 | `del` drops exactly that key from the map and from the iteration order |
| `Manager.Table.SetStock` | inventory_manager.py:147 | only that product's quantity changes; the order and every other entry and field stay |
| `Manager.PutNewValues` | inventory_manager.py:99 | inserting a new id appends its product to the values |
| `Manager.DeleteValues` | inventory_manager.py:119 | deleting an id removes exactly its product from the values and its stock from the total |
| `Manager.SetStockTotal` | inventory_manager.py:147 | setting one quantity moves the total stock by the difference |
| `Manager.ValuesMembership` | inventory_manager.py:173 | the values are exactly the products stored under their own ids |
| `Manager.PutKeepsNonNegative` | inventory_manager.py:99 | storing a product with non-negative stock keeps every stock non-negative |
| `Manager.DeleteKeepsNonNegative` | inventory_manager.py:119 | deleting keeps every remaining stock non-negative |
| `Manager.SetStockKeepsNonNegative` | inventory_manager.py:143-147 | setting a non-negative quantity keeps every stock non-negative |
| `Manager.ValuesNonNegative` | inventory_manager.py:209 | non-negative stocks give a non-negative total |
| `Manager.TotalStockAppend` | inventory_manager.py:209 | one more product adds its stock to the total |
| `Manager.InventoryManager.constructor` | inventory_manager.py:81-83 | a new manager has no products and no transactions |
| `Manager.InventoryManager.LogTransaction` | inventory_manager.py:252-261 | exactly one record with the given clock, action, id, quantity and reason is appended |
| `Manager.InventoryManager.AddProduct` | inventory_manager.py:85-102 | succeeds exactly when the id is absent; on failure nothing changes; on success the id maps to the product, the others are unchanged, the product comes last in the values, one ADD with the initial stock is logged, the total grows by that stock, and non-negative stocks stay non-negative |
| `Manager.InventoryManager.RemoveProduct` | inventory_manager.py:104-122 | succeeds exactly when the id is present; on failure nothing changes; on success the key is gone, the other entries are unchanged, the values lose exactly that product, one REMOVE with quantity 0 is logged, and the total drops by its stock |
| `Manager.InventoryManager.UpdateStock` | inventory_manager.py:124-155 | succeeds exactly when the id is present and stock + change ≥ 0; on failure nothing changes and nothing is logged; on success the stock is exactly stock + change, every other product and field is untouched, one UPDATE with the change and reason is logged, the total moves by the change, and the alert is raised exactly when the product is now low on stock |
| `Manager.InventoryManager.GetProduct` | inventory_manager.py:157-159 | the product stored under the id, or `None` exactly when the id is absent |
| `Manager.InventoryManager.SearchProducts` | inventory_manager.py:161-176 | a stored product is returned exactly when its lower-cased name or description contains the lower-cased query; only stored products, in dict order |
| `Manager.InventoryManager.ProductsByCategory` | inventory_manager.py:178-183 | exactly the stored products of that category, in dict order |
| `Manager.InventoryManager.LowStockProducts` | inventory_manager.py:185-190 | exactly the stored products with stock ≤ minimum, in dict order |
| `Manager.InventoryManager.ExpiredProducts` | inventory_manager.py:192-197 | exactly the stored products that are expired at `now`, in dict order |
| `Manager.InventoryManager.NearExpirationProducts` | inventory_manager.py:199-204 | exactly the stored products near expiration at `now` for the threshold, in dict order |
| `Manager.InventoryManager.SearchEmptyReturnsAll` | inventory_manager.py:171-175 | `search_products("")` returns every stored product, in order |
| `Manager.InventoryManager.SearchIgnoresQueryCase` | inventory_manager.py:171-174 | searching a lower-cased query gives the same result as the query itself |
| `Manager.BreakdownSum` | inventory_manager.py:228-231 | leaving out the categories with no products loses nothing from the sum, and every remaining line has a positive count |
| `Manager.CategoryCountsCoverAll` | inventory_manager.py:228-229 | the per-category counts over the ten categories sum to the number of products |
| `Manager.InventoryManager.GenerateStockReport` | inventory_manager.py:206-231 | the report counts are the number of products, the summed stock and the sizes of the three filters; the category lines are those with products, in declaration order; they sum to the product count; expired + near-expiration ≤ total; and the total stock is non-negative when every stock is |
| `Manager.SaveLoadRoundTrip` | inventory_manager.py:263-291 | the records saved from a dict all convert and rebuild that same dict, order included |
| `Manager.InventoryManager.Snapshot` | inventory_manager.py:263-268 | the saved document has one record per product; loading its records rebuilds the manager's dict; it carries the transaction log |
| `Manager.BuildTable` | inventory_manager.py:279-289 | the dict rebuilt from records is well formed |
| `Manager.ParsedPrefix` | inventory_manager.py:280-282 | every record before the returned position converts, and the record at that position (if any) does not |
| `Manager.InventoryManager.ReadProducts` | inventory_manager.py:279-289 | the loop stores records in turn until the first unknown tag and leaves the dict built from exactly those records |
| `Manager.InventoryManager.LoadFromFile` | inventory_manager.py:273-299 | a missing file changes nothing and fails; otherwise it succeeds exactly when every tag parses, the dict is the one rebuilt from the records before the first bad tag, and the log is replaced only on success |
| `Manager.RebuildTable` | inventory_manager.py:279-289 | the same loop run on a local dict, returning the dict built from the leading convertible records |
| `Manager.InventoryManager.LoadFromFileAtomic` | inventory_manager.py:273-299 | succeeds exactly when the file exists and every tag parses; on failure nothing changes; on success the products and log are both replaced |
| `Manager.PartialLoadKeepsFirst` | inventory_manager.py:279-289 | with a good record followed by a bad one, load as written stops after one record and keeps that product |
| `Manager.PartialLoadCounterexample` | inventory_manager.py:279-299 | a failed load as written, with a second record tagged `"OTROS"`, leaves a product in the dict |
| `Manager.StockScenario` | inventory_manager.py:124-159 | P1 with stock 50 and minimum 10: selling 45 succeeds and raises the alert, selling 10 more is refused and leaves 5, and after removal P1 is not found |

## Left out

- File I/O, JSON encoding and printing are not modelled. `open`, `json.dump` and `json.load` are replaced by a `Document` value. A missing file is `None` (`FileNotFoundError`). A file `json.load` cannot parse also leaves the state unchanged, and it is covered by the same case.
- Timestamps are not modelled as text. `datetime.now()` is a `now` parameter, and the ISO-8601 `isoformat`/`fromisoformat` strings are integer microseconds. So a bad timestamp string, a missing field and other `Product(**data)` schema errors on load are not modelled. The only load error modelled is an unknown category tag.
- `unit_price` is an opaque `real` field that is carried unchanged. Floating-point behaviour is not modelled.
- The printed messages are left out. The low-stock alert text of `update_stock` is modelled only as the boolean `lowStockAlert`. The layout of the report string is left out. Only its counts and the per-category lines are modelled. The itemised listings are the three filter results.
- `example_usage` is a demo driver and is not modelled.
- Text.LowerChar: lowers only the ASCII capitals and the Latin-1 capitals U+00C0–U+00DE (except U+00D7). Python lowers every Unicode capital, for example `'Ā'.lower()` is `'ā'`, but `LowerChar('Ā')` is `'Ā'`.
- Text.Lower: inherits the restriction of `Text.LowerChar`. It also keeps the length, and Python's length-changing mappings (such as U+0130) are not modelled.
- Manager.Matches: inherits the restriction of `Text.Lower`, so a query and a name that differ only in a capital outside ASCII and Latin-1 do not match here, while they do in Python.
- Manager.InventoryManager.SearchProducts: inherits the same restriction through `Manager.Matches`.
- Aliasing is not modelled. Products are values, so the caller's `Product` object and the stored one are not the same object. In Python, `update_stock` also changes a product object the caller still holds.
- Manager.InventoryManager.AddProduct: stock stays non-negative only for a product added with non-negative stock, because `add_product` does not check the initial quantity.
- The log entries of a loaded document are taken as given. Their JSON fields are not checked.

## Findings

| source | as written | input that shows it | evidently intended | confidence | as-written member | corrected member |
|---|---|---|---|---|---|---|
| inventory_manager.py:279-299 | `load_from_file` empties `self.products` and rebuilds it in place. An unknown category tag raises inside the loop, and the exception handler returns `False` with the products read so far still stored. | An empty manager loads a document whose first record is valid and whose second has category `"OTROS"`. It returns `False` but now holds the first product. | A failed load leaves the manager unchanged, so the dict is replaced only when every record converts. | medium, not executed | `Manager.PartialLoadCounterexample` | `Manager.InventoryManager.LoadFromFileAtomic` |
