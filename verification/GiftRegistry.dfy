/** Gift registries: items, purchases, and the totals stored beside them. */
module GiftRegistry {
  import opened Wrappers

  /** Prices in cents. */
  datatype Item = Item(id: string, price: nat, quantity: nat, purchased: nat)

  datatype Status = Draft | Active | Published | Completed | Expired

  /** The stored fields that items and purchases move. */
  datatype State = State(
    status: Status,
    items: seq<Item>,
    totalItems: nat,
    purchasedItems: nat,
    totalValue: int,
    purchasedValue: int,
    remainingValue: int,
    purchaseCount: nat
  )

  // ---------- Folds over the items ----------

  function TotalOf(items: seq<Item>): nat {
    if items == [] then 0 else items[0].price * items[0].quantity + TotalOf(items[1..])
  }

  function PurchasedOf(items: seq<Item>): nat {
    if items == [] then 0 else items[0].price * items[0].purchased + PurchasedOf(items[1..])
  }

  function CountPurchased(items: seq<Item>): nat {
    if items == [] then 0 else (if items[0].purchased > 0 then 1 else 0) + CountPurchased(items[1..])
  }

  /** `findIndex` */
  function IndexOf(items: seq<Item>, id: string): (r: Option<nat>)
    ensures r.Some? ==> r.value < |items| && items[r.value].id == id && forall j | 0 <= j < r.value :: items[j].id != id
    ensures r.None? ==> forall i <- items :: i.id != id
  {
    if items == [] then None
    else if items[0].id == id then Some(0)
    else match IndexOf(items[1..], id)
      case None => None
      case Some(n) => Some(n + 1)
  }

  function Min(a: nat, b: nat): nat {
    if a < b then a else b
  }

  function Max0(x: int): nat {
    if x < 0 then 0 else x
  }

  // ---------- The operations ----------

  /** A new registry without items. */
  function Empty(): State {
    State(Active, [], 0, 0, 0, 0, 0, 0)
  }

  /** `item.quantity || 1` */
  function NewItem(id: string, price: nat, quantity: nat): Item {
    Item(id, price, if quantity == 0 then 1 else quantity, 0)
  }

  datatype Failure = NotActive | ItemNotFound | FullyPurchased

  function Added(s: State, id: string, price: nat, quantity: nat): Result<State, Failure> {
    if s.status != Active && s.status != Draft then Throws(NotActive) else
    var items := s.items + [NewItem(id, price, quantity)];
    Ok(s.(items := items, totalItems := |items|, totalValue := TotalOf(items), purchasedValue := PurchasedOf(items),
          remainingValue := TotalOf(items) - PurchasedOf(items)))
  }

  function Bought(items: seq<Item>, index: nat, quantity: nat): seq<Item>
    requires index < |items|
  {
    var item := items[index];
    items[index := item.(purchased := Min(item.purchased + quantity, item.quantity))]
  }

  /** Nothing here depends on the status: a completed or expired registry can still be bought from. */
  function Purchased(s: State, id: string, quantity: nat): Result<State, Failure> {
    match IndexOf(s.items, id)
    case None => Throws(ItemNotFound)
    case Some(i) =>
      if s.items[i].purchased >= s.items[i].quantity then Throws(FullyPurchased) else
      var items := Bought(s.items, i, quantity);
      var remaining := Max0(s.totalValue - PurchasedOf(items));
      Ok(s.(items := items, purchasedItems := CountPurchased(items), purchasedValue := PurchasedOf(items),
            remainingValue := remaining, purchaseCount := s.purchaseCount + 1,
            status := if remaining <= 0 then Completed else s.status))
  }

  /** `processExpired`, for a registry past its date. */
  function Lapsed(s: State): State {
    if s.status == Active || s.status == Published then s.(status := Expired) else s
  }

  lemma {:induction false} FoldsConcat(a: seq<Item>, b: seq<Item>)
    ensures TotalOf(a + b) == TotalOf(a) + TotalOf(b)
    ensures PurchasedOf(a + b) == PurchasedOf(a) + PurchasedOf(b)
    ensures CountPurchased(a + b) == CountPurchased(a) + CountPurchased(b)
  {
    if a == [] {
      assert a + b == b;
    } else {
      assert (a + b)[1..] == a[1..] + b;
      FoldsConcat(a[1..], b);
    }
  }

  /** What the folds are: nothing for no items, and one more term for one more item. */
  lemma FoldsAppend(items: seq<Item>, item: Item)
    ensures TotalOf([]) == PurchasedOf([]) == CountPurchased([]) == 0
    ensures TotalOf(items + [item]) == TotalOf(items) + item.price * item.quantity
    ensures PurchasedOf(items + [item]) == PurchasedOf(items) + item.price * item.purchased
    ensures CountPurchased(items + [item]) == CountPurchased(items) + if item.purchased > 0 then 1 else 0
  {
    FoldsConcat(items, [item]);
    assert TotalOf([item]) == item.price * item.quantity + TotalOf([]);
    assert PurchasedOf([item]) == item.price * item.purchased + PurchasedOf([]);
    assert CountPurchased([item]) == (if item.purchased > 0 then 1 else 0) + CountPurchased([]);
  }

  /** The item comes last, wanted at least once and not bought; only the totals over the items move with it. */
  ghost predicate ItemAdded(s: State, t: State, id: string, price: nat, quantity: nat) {
    && t.items == s.items + [Item(id, price, if quantity > 0 then quantity else 1, 0)]
    && t.totalItems == |s.items| + 1
    && t.totalValue == TotalOf(s.items) + price * (if quantity > 0 then quantity else 1)
    && t.purchasedValue == PurchasedOf(s.items) && t.remainingValue == t.totalValue - t.purchasedValue
    && t.status == s.status && t.purchasedItems == s.purchasedItems && t.purchaseCount == s.purchaseCount
  }

  ghost predicate FirstWith(items: seq<Item>, id: string, k: nat) {
    k < |items| && items[k].id == id && forall j | 0 <= j < k :: items[j].id != id
  }

  lemma FirstIsIndex(items: seq<Item>, id: string)
    ensures forall k: nat :: FirstWith(items, id, k) <==> IndexOf(items, id) == Some(k)
  {
    forall k: nat ensures FirstWith(items, id, k) <==> IndexOf(items, id) == Some(k) {
      if FirstWith(items, id, k) {
        assert items[k] in items;
      }
    }
  }

  /** The item counts as bought so much more often, up to its quantity; no other item moves. */
  ghost predicate ItemBought(s: State, t: State, k: nat, quantity: nat)
    requires k < |s.items|
  {
    && |t.items| == |s.items| && (forall j | 0 <= j < |s.items| && j != k :: t.items[j] == s.items[j])
    && t.items[k].id == s.items[k].id && t.items[k].price == s.items[k].price
    && t.items[k].quantity == s.items[k].quantity
    && t.items[k].purchased == (if s.items[k].purchased + quantity <= s.items[k].quantity
                                then s.items[k].purchased + quantity else s.items[k].quantity)
    && t.purchasedValue == PurchasedOf(t.items) && t.purchasedItems == CountPurchased(t.items)
    && t.remainingValue == (if t.purchasedValue <= s.totalValue then s.totalValue - t.purchasedValue else 0)
    && t.status == (if t.remainingValue == 0 then Completed else s.status)
    && t.purchaseCount == s.purchaseCount + 1 && t.totalValue == s.totalValue && t.totalItems == s.totalItems
  }

  datatype Event =
    | Add(id: string, price: nat, quantity: nat)
    | Buy(id: string, quantity: nat)
    | Lapse

  /** A call that throws changes nothing. */
  function Next(s: State, e: Event): State {
    match e
    case Add(id, price, quantity) =>
      (match Added(s, id, price, quantity) case Ok(t) => t case Throws(_) => s)
    case Buy(id, quantity) =>
      (match Purchased(s, id, quantity) case Ok(t) => t case Throws(_) => s)
    case Lapse => Lapsed(s)
  }

  /** The stored record; an operation that throws leaves it as it was. */
  class Registry {
    var status: Status
    var items: seq<Item>
    var totalItems: nat
    var purchasedItems: nat
    var totalValue: int
    var purchasedValue: int
    var remainingValue: int
    var purchaseCount: nat

    ghost function View(): State
      reads this
    {
      State(status, items, totalItems, purchasedItems, totalValue, purchasedValue, remainingValue, purchaseCount)
    }

    constructor ()
      ensures View() == Empty() == State(Active, [], 0, 0, 0, 0, 0, 0)
    {
      status, items := Active, [];
      totalItems, purchasedItems := 0, 0;
      totalValue, purchasedValue, remainingValue, purchaseCount := 0, 0, 0, 0;
    }

    method AddItem(id: string, price: nat, quantity: nat) returns (ok: bool)
      modifies this
      ensures View() == Next(old(View()), Add(id, price, quantity))
      ensures ok == (old(status) == Active || old(status) == Draft)
      ensures if ok then ItemAdded(old(View()), View(), id, price, quantity) else View() == old(View())
    {
      FoldsAppend(items, NewItem(id, price, quantity));
      if status != Active && status != Draft {
        return false;
      }
      items := items + [NewItem(id, price, quantity)];
      totalItems := |items|;
      totalValue := TotalOf(items);
      purchasedValue := PurchasedOf(items);
      remainingValue := totalValue - purchasedValue;
      ok := true;
    }

    method RecordPurchase(id: string, quantity: nat) returns (ok: bool)
      modifies this
      ensures View() == Next(old(View()), Buy(id, quantity))
      ensures ok <==> exists k: nat :: FirstWith(old(items), id, k) && old(items)[k].purchased < old(items)[k].quantity
      ensures forall k: nat | FirstWith(old(items), id, k) ::
                if ok then ItemBought(old(View()), View(), k, quantity) else View() == old(View())
    {
      var index := IndexOf(items, id);
      FirstIsIndex(items, id);
      if index == None {
        return false;
      }
      var item := items[index.value];
      if item.purchased >= item.quantity {
        return false;
      }
      items := items[index.value := item.(purchased := Min(item.purchased + quantity, item.quantity))];
      purchasedValue := PurchasedOf(items);
      purchasedItems := CountPurchased(items);
      remainingValue := Max0(totalValue - purchasedValue);
      purchaseCount := purchaseCount + 1;
      if remainingValue <= 0 {
        status := Completed;
      }
      ok := true;
    }

    method ProcessExpired()
      modifies this
      ensures View() == Next(old(View()), Lapse)
      ensures View() == if old(status) == Active || old(status) == Published
                        then old(View()).(status := Expired) else old(View())
    {
      if status == Active || status == Published {
        status := Expired;
      }
    }
  }

  // ---------- The aggregates stay exact ----------

  ghost predicate WithinQuantity(items: seq<Item>) {
    forall i <- items :: i.purchased <= i.quantity
  }

  /** Every item that costs something has been bought in full. */
  ghost predicate AllBought(items: seq<Item>) {
    forall i <- items :: i.price > 0 ==> i.purchased == i.quantity
  }

  ghost predicate Exact(s: State) {
    && WithinQuantity(s.items)
    && s.totalItems == |s.items| && s.purchasedItems == CountPurchased(s.items)
    && s.totalValue == TotalOf(s.items) && s.purchasedValue == PurchasedOf(s.items)
    && s.remainingValue == TotalOf(s.items) - PurchasedOf(s.items)
    && (s.status == Completed ==> AllBought(s.items))
  }

  lemma {:induction false} BoughtKeepsTotal(items: seq<Item>, index: nat, quantity: nat)
    requires index < |items| && WithinQuantity(items)
    ensures TotalOf(Bought(items, index, quantity)) == TotalOf(items) && WithinQuantity(Bought(items, index, quantity))
    decreases index
  {
    var after := Bought(items, index, quantity);
    forall i | i in after ensures i.purchased <= i.quantity {
      var k :| 0 <= k < |after| && after[k] == i;
      assert items[k] in items;
    }
    assert after[1..] == if index == 0 then items[1..] else Bought(items[1..], index - 1, quantity);
    if index > 0 {
      assert forall i <- items[1..] :: i in items;
      BoughtKeepsTotal(items[1..], index - 1, quantity);
    }
  }

  lemma Cost(price: nat, quantity: nat, purchased: nat)
    requires purchased <= quantity
    ensures price * purchased <= price * quantity
    ensures price * purchased == price * quantity <==> price == 0 || purchased == quantity
  {
    if price > 0 && purchased < quantity {
      assert price * (purchased + 1) <= price * quantity;
    }
  }

  /** What is bought is worth at most the total, and the total exactly when everything with a price is bought. */
  lemma {:induction false} BoughtInFullIff(items: seq<Item>)
    requires WithinQuantity(items)
    ensures PurchasedOf(items) <= TotalOf(items)
    ensures PurchasedOf(items) == TotalOf(items) <==> AllBought(items)
  {
    if items != [] {
      var i, rest := items[0], items[1..];
      assert i in items && forall x <- rest :: x in items;
      Cost(i.price, i.quantity, i.purchased);
      BoughtInFullIff(rest);
      assert AllBought(items) <==> (i.price > 0 ==> i.purchased == i.quantity) && AllBought(rest) by {
        assert items == [i] + rest;
      }
    }
  }

  lemma AddKeepsExact(s: State, id: string, price: nat, quantity: nat)
    requires Exact(s) && Added(s, id, price, quantity).Ok?
    ensures Exact(Added(s, id, price, quantity).value)
  {
    var item := NewItem(id, price, quantity);
    FoldsConcat(s.items, [item]);
    assert CountPurchased([item]) == 0 + CountPurchased([]);
  }

  lemma StaysBought(items: seq<Item>, index: nat, quantity: nat)
    requires index < |items| && AllBought(items) && WithinQuantity(items)
    ensures AllBought(Bought(items, index, quantity))
  {
    var after := Bought(items, index, quantity);
    forall i | i in after && i.price > 0 ensures i.purchased == i.quantity {
      var k :| 0 <= k < |after| && after[k] == i;
      assert items[k] in items;
    }
  }

  lemma PurchaseKeepsExact(s: State, id: string, quantity: nat)
    requires Exact(s) && Purchased(s, id, quantity).Ok?
    ensures Exact(Purchased(s, id, quantity).value)
    ensures Purchased(s, id, quantity).value.remainingValue == 0
       <==> AllBought(Purchased(s, id, quantity).value.items)
  {
    var i := IndexOf(s.items, id).value;
    BoughtKeepsTotal(s.items, i, quantity);
    var after := Purchased(s, id, quantity).value;
    BoughtInFullIff(after.items);
    if s.status == Completed {
      StaysBought(s.items, i, quantity);
    }
  }

  function After(s: State, events: seq<Event>): State
    decreases |events|
  {
    if events == [] then s else After(Next(s, events[0]), events[1..])
  }

  lemma {:induction false} RunKeepsExact(s: State, events: seq<Event>)
    requires Exact(s)
    ensures Exact(After(s, events))
    decreases |events|
  {
    if events != [] {
      match events[0] {
        case Add(id, price, quantity) =>
          if Added(s, id, price, quantity).Ok? {
            AddKeepsExact(s, id, price, quantity);
          }
        case Buy(id, quantity) =>
          if Purchased(s, id, quantity).Ok? {
            PurchaseKeepsExact(s, id, quantity);
          }
        case Lapse =>
      }
      RunKeepsExact(Next(s, events[0]), events[1..]);
    }
  }

  /**
   * From an empty registry, after any run: no item is bought beyond its
   * quantity, every stored total is the fold over the items, and a completed
   * registry has every item with a price bought in full.
   */
  lemma AggregatesStayExact(events: seq<Event>)
    ensures Exact(After(Empty(), events))
  {
    RunKeepsExact(Empty(), events);
  }

  /** Buying never takes an item back, and items are only added at the end. */
  lemma {:induction false} PurchasesOnlyGrow(s: State, events: seq<Event>, k: nat)
    requires k < |s.items| && WithinQuantity(s.items)
    ensures |After(s, events).items| >= |s.items|
    ensures var i, j := s.items[k], After(s, events).items[k];
            i.id == j.id && i.price == j.price && i.quantity == j.quantity && i.purchased <= j.purchased
    decreases |events|
  {
    if events != [] {
      var t := Next(s, events[0]);
      forall i | i in t.items ensures i.purchased <= i.quantity {
        var n :| 0 <= n < |t.items| && t.items[n] == i;
        if n < |s.items| {
          assert s.items[n] in s.items;
        }
      }
      assert s.items[k] in s.items;
      PurchasesOnlyGrow(t, events[1..], k);
    }
  }
}
