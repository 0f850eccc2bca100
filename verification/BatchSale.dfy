/**
 A sale reads every product once, computes each new quantity from that snapshot and then writes them
 all. This gives what selling the lines one after the other against live stock would give.
 */
module BatchSale {
  import opened Prelude
  import opened StockLedger
  import opened StockInvariants

  /** Resolving an item answers with a line of that product, and needs its row. */
  ghost predicate Proper(resolve: Resolver) {
    forall item, row :: resolve(item, row).Success? ==> row.Some? && resolve(item, row).value.product == item.product
  }

  lemma CounterIsProper(c: Counter)
    ensures Proper(At(c))
  {
  }

  function SellInBatch(inventory: map<ProductId, Inventory>, resolve: Resolver, items: seq<ItemRequest>)
    : Option<map<ProductId, Inventory>>
  {
    match ResolveItems(inventory, resolve, items)
    case Failure(_) => None
    case Success(lines) => Some(SoldInventory(inventory, lines))
  }

  /** One line at a time, each checked against and written to the stock the previous ones left. */
  function SellInTurn(inventory: map<ProductId, Inventory>, resolve: Resolver, items: seq<ItemRequest>)
    : Option<map<ProductId, Inventory>>
  {
    if items == [] then Some(inventory)
    else
      match SellInTurn(inventory, resolve, items[..|items| - 1])
      case None => None
      case Some(stock) =>
        var item := items[|items| - 1];
        match resolve(item, Lookup(stock, item.product))
        case Failure(_) => None
        case Success(line) => Some(stock[item.product := SoldRow(RowOf(stock, item.product), line)])
  }

  /** `lines` are what the items turn into, one by one. */
  ghost predicate Resolves(inventory: map<ProductId, Inventory>, resolve: Resolver, items: seq<ItemRequest>,
                           lines: seq<Line>)
  {
    |lines| == |items| &&
    forall i | 0 <= i < |items| ::
      resolve(items[i], Lookup(inventory, items[i].product)) == Success(lines[i])
        && lines[i].product == items[i].product
  }

  lemma {:induction false} ResolvedProducts(inventory: map<ProductId, Inventory>, resolve: Resolver,
                                            items: seq<ItemRequest>)
    requires Proper(resolve) && ResolveItems(inventory, resolve, items).Success?
    ensures Resolves(inventory, resolve, items, ResolveItems(inventory, resolve, items).value)
  {
    if items != [] {
      ResolvedProducts(inventory, resolve, items[..|items| - 1]);
    }
  }

  /** The batch accepts, and leaves the same stock as, the same items sold one at a time. */
  lemma {:induction false} BatchIsInTurn(inventory: map<ProductId, Inventory>, resolve: Resolver,
                                         items: seq<ItemRequest>)
    requires Proper(resolve) && DistinctProducts(items)
    ensures SellInBatch(inventory, resolve, items) == SellInTurn(inventory, resolve, items)
  {
    if items == [] {
      assert SoldInventory(inventory, []) == inventory;
    } else {
      var init, item := items[..|items| - 1], items[|items| - 1];
      BatchIsInTurn(inventory, resolve, init);
      if ResolveItems(inventory, resolve, init).Success? {
        ResolvedProducts(inventory, resolve, init);
        var lines := ResolveItems(inventory, resolve, init).value;
        assert LineFor(lines, item.product).None?;
        assert Lookup(SoldInventory(inventory, lines), item.product) == Lookup(inventory, item.product);
        if resolve(item, Lookup(inventory, item.product)).Success? {
          OneMoreLine(inventory, lines, resolve(item, Lookup(inventory, item.product)).value);
        }
      }
    }
  }

  lemma OneMoreLine(inventory: map<ProductId, Inventory>, lines: seq<Line>, line: Line)
    requires line.product in inventory && LineFor(lines, line.product).None?
    ensures
      SoldInventory(inventory, lines + [line])
      == SoldInventory(inventory, lines)[line.product := SoldRow(inventory[line.product], line)]
  {
    var all, before := SoldInventory(inventory, lines + [line]), SoldInventory(inventory, lines);
    assert forall p <- inventory :: all[p] == if p == line.product then SoldRow(inventory[p], line) else before[p] by {
      OneMoreLineFor(lines, line);
    }
  }

  lemma OneMoreLineFor(lines: seq<Line>, line: Line)
    ensures forall p :: LineFor(lines + [line], p) == if p == line.product then Some(line) else LineFor(lines, p)
  {
    assert (lines + [line])[..|lines|] == lines;
  }

  // ----- any order -----

  predicate Accepts(inventory: map<ProductId, Inventory>, resolve: Resolver, item: ItemRequest) {
    resolve(item, Lookup(inventory, item.product)).Success?
  }

  lemma {:induction false} AcceptedWhenEachIs(inventory: map<ProductId, Inventory>, resolve: Resolver,
                                              items: seq<ItemRequest>)
    ensures SellInBatch(inventory, resolve, items).Some? <==> forall item <- items :: Accepts(inventory, resolve, item)
  {
    if items != [] {
      var init, last := items[..|items| - 1], items[|items| - 1];
      AcceptedWhenEachIs(inventory, resolve, init);
      assert items == init + [last];
      assert SellInBatch(inventory, resolve, items).Some?
        <==> SellInBatch(inventory, resolve, init).Some? && Accepts(inventory, resolve, last);
    }
  }

  /** Selling the lines of a sale one at a time, in any order, is the batch that the service posts. */
  lemma AnyOrderIsTheBatch(inventory: map<ProductId, Inventory>, resolve: Resolver, items: seq<ItemRequest>,
                           items': seq<ItemRequest>)
    requires Proper(resolve) && DistinctProducts(items) && multiset(items) == multiset(items')
    ensures SellInTurn(inventory, resolve, items') == SellInBatch(inventory, resolve, items)
  {
    var product := (item: ItemRequest) => item.product;
    assert DistinctOn(items, product);
    PermutationIsDistinct(items, items', product);
    assert forall i, j | 0 <= i < j < |items'| :: product(items'[i]) != product(items'[j]);
    BatchIsInTurn(inventory, resolve, items');
    SameMembers(items, items');
    AcceptedWhenEachIs(inventory, resolve, items);
    AcceptedWhenEachIs(inventory, resolve, items');
    if SellInBatch(inventory, resolve, items).Some? {
      SameLines(inventory, resolve, items, items');
    }
  }

  lemma SameMembers(items: seq<ItemRequest>, items': seq<ItemRequest>)
    requires multiset(items) == multiset(items')
    ensures forall item :: item in items <==> item in items'
  {
    assert forall item :: item in items <==> item in multiset(items);
    assert forall item :: item in items' <==> item in multiset(items');
  }

  lemma SameLines(inventory: map<ProductId, Inventory>, resolve: Resolver, items: seq<ItemRequest>,
                  items': seq<ItemRequest>)
    requires Proper(resolve) && DistinctProducts(items) && DistinctProducts(items')
    requires forall item :: item in items <==> item in items'
    requires SellInBatch(inventory, resolve, items).Some? && SellInBatch(inventory, resolve, items').Some?
    ensures SellInBatch(inventory, resolve, items) == SellInBatch(inventory, resolve, items')
  {
    var lines := ResolveItems(inventory, resolve, items).value;
    var lines' := ResolveItems(inventory, resolve, items').value;
    ResolvedProducts(inventory, resolve, items);
    ResolvedProducts(inventory, resolve, items');
    forall p <- inventory
      ensures LineFor(lines, p) == LineFor(lines', p)
    {
      LineWithin(inventory, resolve, items, items', lines, lines', p);
      LineWithin(inventory, resolve, items', items, lines', lines, p);
    }
    assert SoldInventory(inventory, lines) == SoldInventory(inventory, lines');
  }

  lemma {:induction false} LineForAt(lines: seq<Line>, i: nat)
    requires DistinctLines(lines) && i < |lines|
    ensures LineFor(lines, lines[i].product) == Some(lines[i])
  {
    if i < |lines| - 1 { LineForAt(lines[..|lines| - 1], i); }
  }

  /** The line of product `p` in one list of items is also its line in a list with the same members. */
  lemma LineWithin(inventory: map<ProductId, Inventory>, resolve: Resolver, items: seq<ItemRequest>,
                   items': seq<ItemRequest>, lines: seq<Line>, lines': seq<Line>, p: ProductId)
    requires Resolves(inventory, resolve, items, lines) && Resolves(inventory, resolve, items', lines')
    requires DistinctProducts(items') && forall item <- items :: item in items'
    ensures LineFor(lines, p).Some? ==> LineFor(lines', p) == LineFor(lines, p)
  {
    if LineFor(lines, p).Some? {
      var i :| 0 <= i < |lines| && lines[i] == LineFor(lines, p).value;
      assert items[i] in items';
      var j :| 0 <= j < |items'| && items'[j] == items[i];
      LineForAt(lines', j);
    }
  }

  // ----- the duplicate check -----

  /** The repeated ids come back, so the check passes exactly the lists with pairwise distinct products. */
  method FindDuplicatedProductIds(ids: seq<ProductId>) returns (duplicated: set<ProductId>)
    ensures forall p :: p in duplicated <==> exists i, j :: 0 <= i < j < |ids| && ids[i] == p && ids[j] == p
    ensures duplicated == {} <==> forall i, j :: 0 <= i < j < |ids| ==> ids[i] != ids[j]
  {
    var seen: set<ProductId> := {};
    duplicated := {};
    for n := 0 to |ids|
      invariant forall p :: p in seen <==> exists i :: 0 <= i < n && ids[i] == p
      invariant forall p :: p in duplicated <==> exists i, j :: 0 <= i < j < n && ids[i] == p && ids[j] == p
    {
      if ids[n] in seen {
        duplicated := duplicated + {ids[n]};
      }
      seen := seen + {ids[n]};
    }
    if duplicated == {} {
      forall i, j | 0 <= i < j < |ids|
        ensures ids[i] != ids[j]
      {
        assert ids[i] !in duplicated;
      }
    } else {
      var p :| p in duplicated;
      assert exists i, j :: 0 <= i < j < |ids| && ids[i] == p && ids[j] == p;
    }
  }
}
