/** The views the renderer derives from the state: the product list that
    `ProductCards` shows (tab filter, then search), its "no matches" notice,
    the bag total of `BagModal`, and the "NEW!" label rule. */
module Catalog {
  import opened Types
  import opened Filters
  import opened Bag

  // ---------------------------------------------------------------- tab and search

  /** Whether the tab lets an item through: `Girls`/`Guys` compare the
      category, `Sale` wants a truthy (non-zero) discounted price, and every
      other tab keeps everything. */
  predicate KeptByTab(tab: Tab, item: Item)
  {
    match tab
    case Girls => item.category == "Girls"
    case Guys => item.category == "Guys"
    case Sale => item.discountedPrice != 0
    case _ => true
  }

  /** The tab step of src/main.ts:296-311: each catalog item passes as often
      as it occurs when the tab keeps it, and not at all otherwise. */
  function TabFiltered(store: seq<Item>, tab: Tab): (r: seq<Item>)
    ensures |r| <= |store|
    ensures forall x :: multiset(r)[x] == if KeptByTab(tab, x) then multiset(store)[x] else 0
  {
    match tab
    case Girls =>
      FilterCount(store, (x: Item) => x.category == "Girls");
      Filter(store, (x: Item) => x.category == "Girls")
    case Guys =>
      FilterCount(store, (x: Item) => x.category == "Guys");
      Filter(store, (x: Item) => x.category == "Guys")
    case Sale =>
      FilterCount(store, (x: Item) => x.discountedPrice != 0);
      Filter(store, (x: Item) => x.discountedPrice != 0)
    case _ => store
  }

  /** `toLowerCase`, ASCII letters only: same length, each upper-case ASCII
      letter mapped to its lower-case letter, every other character kept. */
  function LowerCase(s: string): (r: string)
    ensures |r| == |s|
    ensures forall i :: 0 <= i < |s| && 'A' <= s[i] <= 'Z' ==> r[i] == (s[i] as int + 32) as char
    ensures forall i :: 0 <= i < |r| ==> !('A' <= r[i] <= 'Z')
    ensures forall i :: 0 <= i < |s| && !('A' <= s[i] <= 'Z') ==> r[i] == s[i]
  {
    seq(|s|, i requires 0 <= i < |s| => LowerChar(s[i]))
  }

  /** `toLowerCase` on one character. */
  function LowerChar(c: char): char
  {
    if 'A' <= c <= 'Z' then (c as int + 32) as char else c
  }

  /** `hay.includes(needle)`: the needle occurs somewhere in the hay. */
  predicate Contains(hay: string, needle: string)
    ensures Contains(hay, needle) ==> |needle| <= |hay|
    ensures needle == [] ==> Contains(hay, needle)
    ensures needle == hay ==> Contains(hay, needle)
  {
    assert hay[0..] == hay;
    exists i :: 0 <= i <= |hay| && needle <= hay[i..]
  }

  /** The case-insensitive substring test of src/main.ts:315: the empty search
      matches every name, a match is never longer than the name, and a name
      matches itself in any letter case. */
  predicate MatchesSearch(item: Item, search: string)
    ensures search == "" ==> MatchesSearch(item, search)
    ensures MatchesSearch(item, search) ==> |search| <= |item.name|
    ensures LowerCase(search) == LowerCase(item.name) ==> MatchesSearch(item, search)
  {
    Contains(LowerCase(item.name), LowerCase(search))
  }

  /** The search step of src/main.ts:313-317: an empty search keeps all,
      otherwise each matching item is kept as often as it occurs. */
  function SearchFiltered(items: seq<Item>, search: string): (r: seq<Item>)
    ensures |r| <= |items|
    ensures forall x :: multiset(r)[x] ==
                        if search == "" || MatchesSearch(x, search) then multiset(items)[x] else 0
  {
    if search == "" then items
    else
      FilterCount(items, (x: Item) => MatchesSearch(x, search));
      Filter(items, (x: Item) => MatchesSearch(x, search))
  }

  /** Whether an item is on screen: it passes the tab and then the search. */
  predicate Shown(tab: Tab, search: string, item: Item)
  {
    KeptByTab(tab, item) && (search == "" || MatchesSearch(item, search))
  }

  /** The list of products `ProductCards` renders: every shown item of the
      catalog, as often as it occurs there. */
  function ProductsToRender(store: seq<Item>, tab: Tab, search: string): (r: seq<Item>)
    ensures |r| <= |store|
    ensures forall x :: multiset(r)[x] == if Shown(tab, search, x) then multiset(store)[x] else 0
  {
    SearchFiltered(TabFiltered(store, tab), search)
  }

  /** Whether `ProductCards` shows "No products matched your search.": exactly
      when the search is non-empty and no catalog item is shown. */
  predicate ShowsNoMatches(store: seq<Item>, tab: Tab, search: string)
    ensures ShowsNoMatches(store, tab, search) <==>
      search != "" && forall x :: x in store ==> !Shown(tab, search, x)
  {
    var r := ProductsToRender(store, tab, search);
    assert |r| != 0 ==> r[0] in multiset(r);
    search != "" && |r| == 0
  }

  /** The tab step is the `filter` by `KeptByTab`, so it keeps catalog order. */
  lemma TabFilteredSpec(store: seq<Item>, tab: Tab)
    ensures TabFiltered(store, tab) == Filter(store, (x: Item) => KeptByTab(tab, x))
    ensures forall x :: x in TabFiltered(store, tab) <==> x in store && KeptByTab(tab, x)
    ensures IsSubsequence(TabFiltered(store, tab), store)
  {
    TabFilteredIsFilter(store, tab);
    FilterIsSubsequence(store, (x: Item) => KeptByTab(tab, x));
  }

  /** Each tab's own `filter` agrees with the filter by `KeptByTab`. */
  lemma TabFilteredIsFilter(store: seq<Item>, tab: Tab)
    ensures TabFiltered(store, tab) == Filter(store, (x: Item) => KeptByTab(tab, x))
  {
    var kept := (x: Item) => KeptByTab(tab, x);
    if tab == Girls {
      FilterAgree(store, (x: Item) => x.category == "Girls", kept);
    } else if tab == Guys {
      FilterAgree(store, (x: Item) => x.category == "Guys", kept);
    } else if tab == Sale {
      FilterAgree(store, (x: Item) => x.discountedPrice != 0, kept);
    } else {
      FilterKeepsAll(store, kept);
    }
  }

  /** The search step is the `filter` by the search test (by nothing for the
      empty search), so it keeps order. */
  lemma SearchFilteredSpec(items: seq<Item>, search: string)
    ensures SearchFiltered(items, search) ==
      Filter(items, (x: Item) => search == "" || MatchesSearch(x, search))
    ensures forall x :: x in SearchFiltered(items, search) <==>
      x in items && (search == "" || MatchesSearch(x, search))
    ensures IsSubsequence(SearchFiltered(items, search), items)
  {
    SearchFilteredIsFilter(items, search);
    FilterIsSubsequence(items, (x: Item) => search == "" || MatchesSearch(x, search));
  }

  /** Both branches of the search step agree with one `filter`. */
  lemma SearchFilteredIsFilter(items: seq<Item>, search: string)
    ensures SearchFiltered(items, search) ==
      Filter(items, (x: Item) => search == "" || MatchesSearch(x, search))
  {
    var test := (x: Item) => search == "" || MatchesSearch(x, search);
    if search == "" {
      FilterKeepsAll(items, test);
    } else {
      FilterAgree(items, (x: Item) => MatchesSearch(x, search), test);
    }
  }

  /** The rendered list is the catalog filtered once by `Shown`: an
      order-preserving subsequence of the catalog holding every shown item. */
  lemma ProductsToRenderSpec(store: seq<Item>, tab: Tab, search: string)
    ensures ProductsToRender(store, tab, search) == Filter(store, (x: Item) => Shown(tab, search, x))
    ensures forall x :: x in ProductsToRender(store, tab, search) <==>
      x in store && KeptByTab(tab, x) && (search == "" || MatchesSearch(x, search))
    ensures IsSubsequence(ProductsToRender(store, tab, search), store)
  {
    ProductsToRenderIsFilter(store, tab, search);
    FilterIsSubsequence(store, (x: Item) => Shown(tab, search, x));
  }

  /** The tab step followed by the search step is one `filter` by `Shown`. */
  lemma ProductsToRenderIsFilter(store: seq<Item>, tab: Tab, search: string)
    ensures ProductsToRender(store, tab, search) == Filter(store, (x: Item) => Shown(tab, search, x))
  {
    var kept := (x: Item) => KeptByTab(tab, x);
    var test := (x: Item) => search == "" || MatchesSearch(x, search);
    TabFilteredIsFilter(store, tab);
    SearchFilteredIsFilter(TabFiltered(store, tab), search);
    FilterThenFilter(store, kept, test, (x: Item) => Shown(tab, search, x));
  }

  /** An empty search leaves the tab-filtered list as it is. */
  lemma EmptySearchIsIdentity(store: seq<Item>, tab: Tab)
    ensures ProductsToRender(store, tab, "") == TabFiltered(store, tab)
  {
  }

  /** Re-applying the same tab and search to the rendered list changes nothing. */
  lemma ProductsToRenderIdempotent(store: seq<Item>, tab: Tab, search: string)
    ensures ProductsToRender(ProductsToRender(store, tab, search), tab, search)
         == ProductsToRender(store, tab, search)
  {
    var r := ProductsToRender(store, tab, search);
    ProductsToRenderSpec(store, tab, search);
    TabKeepsAll(r, tab);
    if search != "" {
      FilterKeepsAll(r, (x: Item) => MatchesSearch(x, search));
    }
  }

  /** The tab step is the identity on a list the tab already accepts. */
  lemma TabKeepsAll(items: seq<Item>, tab: Tab)
    requires forall x :: x in items ==> KeptByTab(tab, x)
    ensures TabFiltered(items, tab) == items
  {
    match tab
    case Girls => FilterKeepsAll(items, (x: Item) => x.category == "Girls");
    case Guys => FilterKeepsAll(items, (x: Item) => x.category == "Guys");
    case Sale => FilterKeepsAll(items, (x: Item) => x.discountedPrice != 0);
    case _ =>
  }

  /** The `Sale` tab over a two-item catalog keeps only the discounted item. */
  lemma SaleTabExample()
    ensures
      var girls := Item(1, "Girls", "Dress", "d.jpg", 2000, 0, "2021-01-01", 3);
      var guys := Item(2, "Guys", "Shirt", "s.jpg", 3000, 1500, "2021-01-01", 5);
      ProductsToRender([girls, guys], Sale, "") == [guys]
  {
    var girls := Item(1, "Girls", "Dress", "d.jpg", 2000, 0, "2021-01-01", 3);
    var guys := Item(2, "Guys", "Shirt", "s.jpg", 3000, 1500, "2021-01-01", 5);
    assert [girls, guys][1..] == [guys];
    assert [guys][1..] == [];
  }

  /** Searching the `Girls` tab for "zz" finds nothing, so the notice shows. */
  lemma NoMatchesExample()
    ensures
      var girls := Item(1, "Girls", "Dress", "d.jpg", 2000, 0, "2021-01-01", 3);
      var guys := Item(2, "Guys", "Shirt", "s.jpg", 3000, 1500, "2021-01-01", 5);
      ShowsNoMatches([girls, guys], Girls, "zz")
  {
    var girls := Item(1, "Girls", "Dress", "d.jpg", 2000, 0, "2021-01-01", 3);
    var guys := Item(2, "Guys", "Shirt", "s.jpg", 3000, 1500, "2021-01-01", 5);
    var hay := LowerCase("Dress");
    assert LowerCase("zz") == "zz";
    assert !MatchesSearch(girls, "zz") by {
      forall i | 0 <= i <= |hay| ensures !("zz" <= hay[i..]) {
        if i < |hay| {
          assert hay[i..][0] == hay[i] == LowerChar("Dress"[i]);
        }
      }
    }
    assert forall x :: x in [girls, guys] ==> !Shown(Girls, "zz", x);
  }

  // ---------------------------------------------------------------- bag total

  /** The first catalog item with this id (`store.find`). */
  function Find(store: seq<Item>, id: int): (r: Option<Item>)
    ensures r.Some? ==> r.value in store && r.value.id == id
    ensures r.Some? ==>
      exists k :: 0 <= k < |store| && store[k] == r.value && forall j :: 0 <= j < k ==> store[j].id != id
    ensures r.None? <==> forall x :: x in store ==> x.id != id
  {
    if store == [] then None
    else if store[0].id == id then Some(store[0])
    else Find(store[1..], id)
  }

  /** Every bag entry names an item of the catalog (assumed by the renderer). */
  predicate AllInStore(store: seq<Item>, bag: seq<BagItem>)
  {
    forall e :: e in bag ==> Find(store, e.id).Some?
  }

  /** `discountedPrice || price`: a non-zero discount wins, otherwise the
      full price; the result is zero only when both are. */
  function UnitPrice(item: Item): (r: int)
    ensures r == item.discountedPrice || r == item.price
    ensures item.discountedPrice != 0 ==> r == item.discountedPrice
    ensures r == 0 ==> item.price == 0 && item.discountedPrice == 0
  {
    if item.discountedPrice != 0 then item.discountedPrice else item.price
  }

  /** What one bag entry adds to the total. */
  function LineTotal(store: seq<Item>, e: BagItem): int
    requires Find(store, e.id).Some?
  {
    UnitPrice(Find(store, e.id).value) * e.quantity
  }

  /** No catalog price is negative. */
  predicate PricesNonNegative(store: seq<Item>)
  {
    forall x :: x in store ==> x.price >= 0 && x.discountedPrice >= 0
  }

  /** No bag quantity is negative. */
  predicate QuantitiesNonNegative(bag: seq<BagItem>)
  {
    forall e :: e in bag ==> e.quantity >= 0
  }

  /** The sum over the entries of unit price times quantity. */
  function BagTotal(store: seq<Item>, bag: seq<BagItem>): int
    requires AllInStore(store, bag)
  {
    if bag == [] then 0
    else
      assert bag[0] in bag;
      LineTotal(store, bag[0]) + BagTotal(store, bag[1..])
  }

  /** With no negative price and no negative quantity the total is never
      negative. */
  lemma {:induction false} BagTotalNonNegative(store: seq<Item>, bag: seq<BagItem>)
    requires AllInStore(store, bag)
    requires PricesNonNegative(store) && QuantitiesNonNegative(bag)
    ensures BagTotal(store, bag) >= 0
  {
    if bag != [] {
      assert bag[0] in bag;
      assert forall e :: e in bag[1..] ==> e in bag;
      var x := Find(store, bag[0].id).value;
      assert x in store;
      BagTotalNonNegative(store, bag[1..]);
    }
  }

  /** Adding an entry at the end adds its line total. */
  lemma {:induction false} BagTotalAppend(store: seq<Item>, bag: seq<BagItem>, e: BagItem)
    requires AllInStore(store, bag) && Find(store, e.id).Some?
    ensures AllInStore(store, bag + [e])
    ensures BagTotal(store, bag + [e]) == BagTotal(store, bag) + LineTotal(store, e)
  {
    if bag != [] {
      assert (bag + [e])[1..] == bag[1..] + [e];
      BagTotalAppend(store, bag[1..], e);
    } else {
      assert [] + [e] == [e];
    }
  }

  /** What `BagModal` shows under its title. */
  datatype BagView = EmptyBagMessage | PayNow(total: int)

  /** The body of `BagModal` (src/main.ts:559-583): an empty bag gets the
      empty message; otherwise the total is accumulated entry by entry. */
  method BagModalContents(store: seq<Item>, bag: seq<BagItem>) returns (v: BagView)
    requires AllInStore(store, bag)
    ensures v == EmptyBagMessage <==> bag == []
    ensures v.PayNow? ==> v.total == BagTotal(store, bag)
  {
    if |bag| > 0 {
      var total := 0;
      var i := 0;
      while i < |bag|
        invariant 0 <= i <= |bag|
        invariant AllInStore(store, bag[..i])
        invariant total == BagTotal(store, bag[..i])
      {
        var e := bag[i];
        assert e in bag;
        var storeItem := Find(store, e.id);
        total := total + UnitPrice(storeItem.value) * e.quantity;
        BagTotalAppend(store, bag[..i], e);
        assert bag[..i + 1] == bag[..i] + [e];
        i := i + 1;
      }
      assert bag[..i] == bag;
      v := PayNow(total);
    } else {
      v := EmptyBagMessage;
    }
  }

  /** Adding an item of the catalog to a well-formed bag raises the total by
      that item's unit price. */
  lemma AddedBagTotal(store: seq<Item>, bag: seq<BagItem>, id: int)
    requires WellFormed(bag) && AllInStore(store, bag) && Find(store, id).Some?
    ensures AllInStore(store, AddedBag(bag, id))
    ensures BagTotal(store, AddedBag(bag, id)) == BagTotal(store, bag) + UnitPrice(Find(store, id).value)
  {
    if HasId(bag, id) {
      IncrementedTotal(store, bag, id);
    } else {
      BagTotalAppend(store, bag, BagItem(id, 1));
    }
  }

  /** Incrementing keeps every id, so keeps every entry in the catalog. */
  lemma IncrementedInStore(store: seq<Item>, bag: seq<BagItem>, id: int)
    requires AllInStore(store, bag)
    ensures AllInStore(store, Incremented(bag, id))
  {
    var r := Incremented(bag, id);
    forall e | e in r ensures Find(store, e.id).Some? {
      var m :| 0 <= m < |r| && r[m] == e;
      assert bag[m] in bag;
    }
  }

  /** The total after incrementing `id` in a well-formed bag. */
  lemma {:induction false} IncrementedTotal(store: seq<Item>, bag: seq<BagItem>, id: int)
    requires WellFormed(bag) && AllInStore(store, bag)
    requires HasId(bag, id) ==> Find(store, id).Some?
    ensures AllInStore(store, Incremented(bag, id))
    ensures BagTotal(store, Incremented(bag, id)) ==
      BagTotal(store, bag) + (if HasId(bag, id) then UnitPrice(Find(store, id).value) else 0)
  {
    IncrementedInStore(store, bag, id);
    if !HasId(bag, id) {
      IncrementedAbsent(bag, id);
    } else {
      HasIdUnfold(bag, id);
      WellFormedTail(bag);
      if bag[0].id == id {
        IncrementedAtHead(store, bag, id);
      } else {
        assert forall e :: e in bag[1..] ==> e in bag;
        IncrementedTotal(store, bag[1..], id);
        IncrementedPastHead(store, bag, id);
      }
    }
  }

  /** The total after incrementing the head entry when no later entry
      carries the same id. */
  lemma IncrementedAtHead(store: seq<Item>, bag: seq<BagItem>, id: int)
    requires bag != [] && bag[0].id == id && !HasId(bag[1..], id)
    requires AllInStore(store, bag) && AllInStore(store, Incremented(bag, id))
    ensures Find(store, id).Some?
    ensures BagTotal(store, Incremented(bag, id)) == BagTotal(store, bag) + UnitPrice(Find(store, id).value)
  {
    assert bag[0] in bag;
    var tail := bag[1..];
    IncrementedAbsent(tail, id);
    var r := Incremented(bag, id);
    var head := bag[0].(quantity := bag[0].quantity + 1);
    assert r[0] == head;
    assert r[1..] == Incremented(tail, id) == tail;
    LineTotalIncrement(store, bag[0]);
    calc {
      BagTotal(store, r);
      LineTotal(store, head) + BagTotal(store, tail);
      LineTotal(store, bag[0]) + UnitPrice(Find(store, id).value) + BagTotal(store, tail);
      BagTotal(store, bag) + UnitPrice(Find(store, id).value);
    }
  }

  /** Incrementing an id not at the head changes only the tail's total. */
  lemma IncrementedPastHead(store: seq<Item>, bag: seq<BagItem>, id: int)
    requires bag != [] && bag[0].id != id
    requires AllInStore(store, bag) && AllInStore(store, Incremented(bag, id))
    requires AllInStore(store, Incremented(bag[1..], id))
    ensures BagTotal(store, Incremented(bag, id)) ==
      LineTotal(store, bag[0]) + BagTotal(store, Incremented(bag[1..], id))
  {
    var r := Incremented(bag, id);
    assert r[1..] == Incremented(bag[1..], id);
    assert r[0] == bag[0];
  }

  /** Incrementing an id that no entry carries changes nothing. */
  lemma IncrementedAbsent(bag: seq<BagItem>, id: int)
    requires !HasId(bag, id)
    ensures Incremented(bag, id) == bag
  {
    var r := Incremented(bag, id);
    forall i | 0 <= i < |bag| ensures r[i] == bag[i] {
      assert bag[i] in bag;
    }
  }

  /** One more of an entry adds one unit price to its line. */
  lemma LineTotalIncrement(store: seq<Item>, e: BagItem)
    requires Find(store, e.id).Some?
    ensures LineTotal(store, e.(quantity := e.quantity + 1)) ==
      LineTotal(store, e) + UnitPrice(Find(store, e.id).value)
  {
  }

  /** Removing a well-formed bag's entry for `id` lowers the total by that
      entry's whole line. */
  lemma {:induction false} RemovedBagTotal(store: seq<Item>, bag: seq<BagItem>, id: int)
    requires WellFormed(bag) && AllInStore(store, bag)
    requires HasId(bag, id) ==> Find(store, id).Some?
    ensures AllInStore(store, RemovedBag(bag, id))
    ensures BagTotal(store, RemovedBag(bag, id)) ==
      BagTotal(store, bag) - (if HasId(bag, id) then UnitPrice(Find(store, id).value) * Quantity(bag, id) else 0)
  {
    if bag != [] {
      var tail := bag[1..];
      assert forall e :: e in tail ==> e in bag;
      RemovedBagTotal(store, tail, id);
      WellFormedTail(bag);
      HasIdUnfold(bag, id);
      assert bag[0] in bag;
      if bag[0].id != id {
        assert RemovedBag(bag, id) == [bag[0]] + RemovedBag(tail, id);
        assert ([bag[0]] + RemovedBag(tail, id))[1..] == RemovedBag(tail, id);
      }
    }
  }

  /** Two of a 15.00 discounted item cost 30.00. */
  lemma TotalExample()
    ensures
      var store := [Item(1, "Girls", "Dress", "d.jpg", 2000, 0, "2021-01-01", 3),
                    Item(2, "Guys", "Shirt", "s.jpg", 3000, 1500, "2021-01-01", 5)];
      AllInStore(store, [BagItem(2, 2)]) && BagTotal(store, [BagItem(2, 2)]) == 3000
  {
    var store := [Item(1, "Girls", "Dress", "d.jpg", 2000, 0, "2021-01-01", 3),
                  Item(2, "Guys", "Shirt", "s.jpg", 3000, 1500, "2021-01-01", 5)];
    assert store[1..] == [store[1]];
    assert Find(store, 2) == Some(store[1]);
    assert [BagItem(2, 2)][1..] == [];
  }

  // ---------------------------------------------------------------- "NEW!" label

  /** Milliseconds in a day (1000 * 60 * 60 * 24). */
  const DayInMs := 86_400_000

  /** Whole days from `enteredMs` to `nowMs`, rounded down (`Math.floor`),
      also when the entry date lies in the future. */
  function DaysSince(nowMs: int, enteredMs: int): (r: int)
    ensures DayInMs * r <= nowMs - enteredMs < DayInMs * (r + 1)
  {
    (nowMs - enteredMs) / DayInMs
  }

  /** An item is labelled new when fewer than ten whole days have passed. */
  predicate IsNew(nowMs: int, enteredMs: int)
  {
    DaysSince(nowMs, enteredMs) < 10
  }

  /** Fewer than ten whole days means less than ten days of milliseconds,
      also for entries dated in the future. */
  lemma IsNewIff(nowMs: int, enteredMs: int)
    ensures IsNew(nowMs, enteredMs) <==> nowMs - enteredMs < 10 * DayInMs
  {
    var d := nowMs - enteredMs;
    var q, r := d / DayInMs, d % DayInMs;
    assert d == DayInMs * q + r && 0 <= r < DayInMs;
    if q < 10 {
      assert DayInMs * q <= DayInMs * 9;
    } else {
      assert DayInMs * q >= DayInMs * 10;
    }
  }
}
