// manager.c, manager_newordertransaction: one new order as an atomic step over
// districts, orders, order lines and stock; money and dates are left aside. Random
// numbers are drawn from a given sequence.
module NewOrder {

  // OL_I_ID and OL_QUANTITY
  datatype Line = Line(item: int, quantity: int)

  // An order's lines, by OL_NUMBER.
  datatype Order = Order(customer: int, olCnt: int, lines: map<int, Line>)

  datatype District = District(nextOId: int, orders: map<int, Order>)

  // S_QUANTITY, S_YTD, S_ORDER_CNT
  datatype Stock = Stock(quantity: int, ytd: int, orderCnt: int)

  // W_ID and D_ID
  type Place = (int, int)

  const ITEMS := 100000

  // TMMAP_INSERT keeps what is there.
  function Insert<K, V>(m: map<K, V>, k: K, v: V): map<K, V> {
    if k in m then m else m[k := v]
  }

  // ---------------------------------------------------------------- consistency

  // Clause 3.3.2.6 of TPC-C: exactly the lines 1..O_OL_CNT.
  ghost predicate Complete(o: Order) {
    o.olCnt >= 0 && forall i :: i in o.lines <==> 1 <= i <= o.olCnt
  }

  // Clause 3.3.2.2 of TPC-C: the order ids run from first up to D_NEXT_O_ID - 1.
  ghost predicate Contiguous(d: District, first: int) {
    first <= d.nextOId && forall id :: id in d.orders <==> first <= id < d.nextOId
  }

  ghost predicate Consistent(d: District, first: int) {
    Contiguous(d, first) && forall id :: id in d.orders ==> Complete(d.orders[id])
  }

  ghost predicate AllConsistent(ds: map<Place, District>, first: map<Place, int>) {
    first.Keys == ds.Keys && forall p :: p in ds ==> Consistent(ds[p], first[p])
  }

  // Every item that may be drawn is in stock.
  ghost predicate InStock(stock: map<int, Stock>) {
    forall i :: 1 <= i <= ITEMS ==> i in stock
  }

  // ---------------------------------------------------------------- totals

  ghost function Units(lines: seq<Line>, item: int): int {
    if lines == [] then 0
    else
      var line := lines[|lines| - 1];
      Units(lines[..|lines| - 1], item) + (if line.item == item then line.quantity else 0)
  }

  ghost function Count(lines: seq<Line>, item: int): nat {
    if lines == [] then 0
    else Count(lines[..|lines| - 1], item) + (if lines[|lines| - 1].item == item then 1 else 0)
  }

  lemma TotalsAdd(lines: seq<Line>, line: Line, item: int)
    ensures Units(lines + [line], item) == Units(lines, item) + (if line.item == item then line.quantity else 0)
    ensures Count(lines + [line], item) == Count(lines, item) + (if line.item == item then 1 else 0)
  {
    assert (lines + [line])[..|lines|] == lines;
  }

  // What a stock record is, given what it was and the lines that have been filled
  // from it since.
  ghost predicate Conserved(s0: Stock, s: Stock, lines: seq<Line>, item: int) {
    && s.ytd == s0.ytd + Units(lines, item)
    && s.orderCnt == s0.orderCnt + Count(lines, item)
    && (s.quantity + s.ytd) % 91 == (s0.quantity + s0.ytd) % 91
    && (s0.quantity >= 10 ==> s.quantity >= (if Count(lines, item) > 0 then 11 else 10))
    && (10 <= s0.quantity <= 101 ==> s.quantity <= 101)
    && (Count(lines, item) == 0 ==> s == s0)
    && (Count(lines, item) > 0 && s0.quantity >= 10 ==> s.quantity == Left(s0.quantity - Units(lines, item)))
  }

  // What is left in stock when the units ordered leave so much of it: that itself while
  // it is above 10, and else the number from 11 to 101 that replenishing by 91 comes to.
  ghost function Left(remaining: int): int {
    if remaining > 10 then remaining else (remaining - 11) % 91 + 11
  }

  lemma LeftLess(remaining: int, q: int)
    requires 1 <= q <= 10
    ensures Left(remaining - q) == if Left(remaining) - q <= 10 then Left(remaining) - q + 91 else Left(remaining) - q
  {
    if remaining > 10 {
      assert remaining - q <= 10 ==> (remaining - q - 11) % 91 == remaining - q - 11 + 91;
    } else {
      var m := (remaining - 11) % 91;
      assert (remaining - q - 11) % 91 == if m - q >= 0 then m - q else m - q + 91;
    }
  }

  ghost predicate AllConserved(stock0: map<int, Stock>, stock: map<int, Stock>, lines: seq<Line>) {
    stock.Keys == stock0.Keys && forall item :: item in stock ==> Conserved(stock0[item], stock[item], lines, item)
  }

  // The lines of an order, first to last.
  ghost function LinesOf(o: Order): seq<Line>
    requires Complete(o)
  {
    seq(o.olCnt, i requires 0 <= i < o.olCnt => o.lines[i + 1])
  }

  // The k-th line, as the draws that follow the order's own decide it.
  function DrawnLine(draws: seq<nat>, k: int): Line
    requires 1 <= k && 2 * k <= |draws|
  {
    Line(draws[2 * (k - 1)] % 100000 + 1, draws[2 * (k - 1) + 1] % 10 + 1)
  }

  ghost predicate DrawnOrder(o: Order, draws: seq<nat>) {
    && |draws| >= 30 && o.olCnt == draws[0] % 10 + 5
    && forall k :: k in o.lines ==>
         1 <= k <= 14 && o.lines[k] == Line(draws[2 * k] % 100000 + 1, draws[2 * k + 1] % 10 + 1)
  }

  function Supplied(s: Stock, quantity: int): Stock {
    var q := s.quantity - quantity;
    Stock(if q <= 10 then q + 91 else q, s.ytd + quantity, s.orderCnt + 1)
  }

  lemma SupplyConserves(s0: Stock, s: Stock, lines: seq<Line>, line: Line)
    requires Conserved(s0, s, lines, line.item) && 1 <= line.quantity <= 10
    ensures Conserved(s0, Supplied(s, line.quantity), lines + [line], line.item)
  {
    TotalsAdd(lines, line, line.item);
    NoneCounted(lines, line.item);
    LeftLess(if Count(lines, line.item) > 0 then s0.quantity - Units(lines, line.item) else s.quantity, line.quantity);
  }

  lemma {:induction false} NoneCounted(lines: seq<Line>, item: int)
    ensures Count(lines, item) == 0 ==> Units(lines, item) == 0
  {
    if lines != [] {
      NoneCounted(lines[..|lines| - 1], item);
    }
  }

  class Manager {
    // The keys of the maps that the transaction only looks things up in.
    const warehouses: set<int>
    const customers: set<(Place, int)>
    var districts: map<Place, District>
    var stock: map<int, Stock>
    // The customers' lastOrder.
    var lastOrder: map<(Place, int), int>

    // Where the run began; the orders it has placed, and their lines, in order.
    ghost const first: map<Place, int>
    ghost const start: map<Place, int>
    ghost const stock0: map<int, Stock>
    ghost var placed: seq<(Place, int)>
    ghost var newLines: seq<Line>

    ghost predicate Valid()
      reads this
    {
      && start.Keys == districts.Keys && AllConsistent(districts, first) && InStock(stock)
      && AllConserved(stock0, stock, newLines)
      && PlacedSince(districts, start, placed)
      && AllPlaced(districts, placed) && newLines == AllLines(districts, placed)
    }

    constructor (warehouses: set<int>, customers: set<(Place, int)>, districts: map<Place, District>,
                 stock: map<int, Stock>, ghost first: map<Place, int>)
      requires AllConsistent(districts, first) && InStock(stock)
      ensures Valid() && this.districts == districts && this.stock == stock && placed == []
      ensures this.warehouses == warehouses && this.customers == customers
      ensures this.first == first && stock0 == stock && start.Keys == districts.Keys
      ensures forall p :: p in districts ==> start[p] == districts[p].nextOId
    {
      this.warehouses := warehouses;
      this.customers := customers;
      this.districts := districts;
      this.stock := stock;
      this.lastOrder := map[];
      this.first := first;
      this.start := map p | p in districts :: districts[p].nextOId;
      this.stock0 := stock;
      placed := [];
      newLines := [];
    }

    // -1 for an unknown warehouse, district or customer, which changes nothing; else 1.
    method NewOrder(w: int, d: int, c: int, draws: seq<nat>) returns (status: int)
      requires Valid() && |draws| >= 30
      modifies this
      ensures Valid()
      ensures status == if w in warehouses && (w, d) in old(districts) && ((w, d), c) in customers then 1 else -1
      ensures status == -1 ==> unchanged(this)
      ensures status == 1 ==>
                var p, id := (w, d), old(districts)[(w, d)].nextOId;
                && p in districts && id !in old(districts)[p].orders && id in districts[p].orders
                && Added(old(districts), districts, p, id)
                && districts[p].orders[id].customer == c && DrawnOrder(districts[p].orders[id], draws)
                && lastOrder == old(lastOrder)[(p, c) := id] && placed == old(placed) + [(p, id)]
                && Complete(districts[p].orders[id])
                && AllConserved(old(stock), stock, LinesOf(districts[p].orders[id]))
    {
      var p := (w, d);
      if w !in warehouses || p !in districts || (p, c) !in customers {
        return -1;
      }
      PlaceOrder(p, c, draws);
      return 1;
    }

    method PlaceOrder(p: Place, c: int, draws: seq<nat>)
      requires Valid() && |draws| >= 30 && p in districts
      modifies this
      ensures Valid()
      ensures var id := old(districts)[p].nextOId;
        && id !in old(districts)[p].orders && Added(old(districts), districts, p, id)
        && districts[p].orders[id].customer == c && DrawnOrder(districts[p].orders[id], draws)
        && lastOrder == old(lastOrder)[(p, c) := id] && placed == old(placed) + [(p, id)]
        && Complete(districts[p].orders[id])
        && AllConserved(old(stock), stock, LinesOf(districts[p].orders[id]))
    {
      assert Consistent(districts[p], first[p]) && districts[p].nextOId !in districts[p].orders;
      hide AllConserved, PlacedSince, AllPlaced, AllLines, LinesOf, AllConsistent, InStock, OnlyOrder, Added,
          DrawnOrder;
      ghost var ds, id := districts, districts[p].nextOId;
      MakeOrder(p, c, draws);
      StaysConsistent(ds, districts, first, p, id);
      PlacedMore(ds, districts, start, placed, p, id);
      LinesMore(ds, districts, placed, p, id);
      placed := placed + [(p, id)];
    }

    method MakeOrder(p: Place, c: int, draws: seq<nat>)
      requires |draws| >= 30 && p in districts && districts[p].nextOId !in districts[p].orders
      requires InStock(stock) && AllConserved(stock0, stock, newLines)
      modifies `districts, `stock, `lastOrder, `newLines
      ensures InStock(stock) && AllConserved(stock0, stock, newLines)
      ensures districts.Keys == old(districts).Keys
      ensures var id := old(districts)[p].nextOId;
        && Added(old(districts), districts, p, id) && p in districts && id in districts[p].orders
        && districts[p].orders[id].customer == c && DrawnOrder(districts[p].orders[id], draws)
        && Complete(districts[p].orders[id]) && newLines == old(newLines) + LinesOf(districts[p].orders[id])
        && AllConserved(old(stock), stock, LinesOf(districts[p].orders[id]))
        && lastOrder == old(lastOrder)[(p, c) := id]
    {
      hide AllConserved, Complete, LinesOf, InStock, OnlyOrder, Added;
      ghost var ds0 := districts;
      var dNext := districts[p].nextOId;
      var olCnt := draws[0] % 10 + 5;
      AddOrder(p, dNext, Order(c, olCnt, map[]));
      lastOrder := lastOrder[(p, c) := dNext];
      ghost var ds1 := districts;
      FillOrder(p, dNext, olCnt, draws[2..]);
      AddedAndFilled(ds0, ds1, districts, p, dNext);
      AllDrawn(districts[p].orders[dNext], draws);
    }

    // D_NEXT_O_ID is taken and incremented, and the order added under it.
    method AddOrder(p: Place, id: int, order: Order)
      requires p in districts && id == districts[p].nextOId && id !in districts[p].orders
      modifies `districts
      ensures OnlyOrder(old(districts), districts, p, id) && p in districts && id in districts[p].orders
      ensures districts[p].nextOId == id + 1 && districts[p].orders[id] == order
    {
      districts := districts[p := District(id + 1, districts[p].orders)];
      districts := districts[p := District(districts[p].nextOId, Insert(districts[p].orders, id, order))];
    }

    // The lines of a new order, each supplied from the stock of a random item.
    method FillOrder(p: Place, id: int, olCnt: int, draws: seq<nat>)
      requires p in districts && id in districts[p].orders && 0 <= olCnt && |draws| >= 2 * olCnt
      requires districts[p].orders[id].olCnt == olCnt && districts[p].orders[id].lines == map[]
      requires InStock(stock) && AllConserved(stock0, stock, newLines)
      modifies `districts, `stock, `newLines
      ensures InStock(stock) && AllConserved(stock0, stock, newLines)
      ensures OnlyOrder(old(districts), districts, p, id) && p in districts && id in districts[p].orders
      ensures Complete(districts[p].orders[id]) && districts[p].nextOId == old(districts)[p].nextOId
      ensures districts[p].orders[id].customer == old(districts)[p].orders[id].customer
      ensures districts[p].orders[id].olCnt == olCnt
      ensures forall k :: k in districts[p].orders[id].lines ==>
              && 1 <= k <= olCnt
              && districts[p].orders[id].lines[k] == Line(draws[2 * k - 2] % 100000 + 1, draws[2 * k - 1] % 10 + 1)
      ensures newLines == old(newLines) + LinesOf(districts[p].orders[id])
      ensures AllConserved(old(stock), stock, LinesOf(districts[p].orders[id]))
    {
      OnlyOrderSame(districts, p, id);
      NothingSupplied(stock);
      hide OnlyOrder, AllConserved, Complete, DrawnLine;
      ghost var ls: seq<Line> := [];
      var i := 1;
      while i <= olCnt
        invariant 1 <= i <= olCnt + 1 && |ls| == i - 1 && InStock(stock) && AllConserved(stock0, stock, newLines)
        invariant AllConserved(old(stock), stock, ls)
        invariant OnlyOrder(old(districts), districts, p, id) && p in districts && id in districts[p].orders
        invariant districts[p].nextOId == old(districts)[p].nextOId
        invariant districts[p].orders[id].customer == old(districts)[p].orders[id].customer &&
                  districts[p].orders[id].olCnt == olCnt
        invariant Filled(districts[p].orders[id], draws, ls) && newLines == old(newLines) + ls
      {
        var line := DrawnLine(draws, i);
        DrawnItems(draws, i);
        ghost var was := stock;
        Supply(line.item, line.quantity);
        AllSupplied(old(stock), was, stock, ls, line);
        FilledMore(districts[p].orders[id], draws, ls);
        ghost var ds := districts;
        AddLine(p, id, i, line);
        OnlyOrderTrans(old(districts), ds, districts, p, id);
        ls := ls + [line];
        i := i + 1;
      }
      AllFilled(districts[p].orders[id], draws, ls);
    }

    // TMORDLINE_ADD
    method AddLine(p: Place, id: int, i: int, line: Line)
      requires p in districts && id in districts[p].orders
      modifies `districts
      ensures OnlyOrder(old(districts), districts, p, id) && p in districts && id in districts[p].orders
      ensures districts[p].nextOId == old(districts)[p].nextOId
      ensures var o := old(districts)[p].orders[id];
        districts[p].orders[id] == Order(o.customer, o.olCnt, Insert(o.lines, i, line))
    {
      var order := districts[p].orders[id];
      var order' := Order(order.customer, order.olCnt, Insert(order.lines, i, line));
      districts := districts[p := District(districts[p].nextOId, districts[p].orders[id := order'])];
    }

    method Supply(item: int, quantity: int)
      requires item in stock && 1 <= quantity <= 10 && AllConserved(stock0, stock, newLines)
      modifies `stock, `newLines
      ensures stock.Keys == old(stock).Keys && AllConserved(stock0, stock, newLines)
      ensures stock == old(stock)[item := Supplied(old(stock)[item], quantity)]
      ensures newLines == old(newLines) + [Line(item, quantity)]
    {
      ghost var was := stock;
      var quantity' := stock[item].quantity - quantity;
      if quantity' <= 10 {
        quantity' := quantity' + 91;
      }
      stock := stock[item := Stock(quantity', stock[item].ytd + quantity, stock[item].orderCnt + 1)];
      AllSupplied(stock0, was, stock, newLines, Line(item, quantity));
      newLines := newLines + [Line(item, quantity)];
    }
  }

  lemma NothingSupplied(stock: map<int, Stock>)
    ensures AllConserved(stock, stock, [])
  {
  }

  // One line more, supplied from the stock of its item.
  lemma AllSupplied(stock0: map<int, Stock>, stock: map<int, Stock>, stock': map<int, Stock>, lines: seq<Line>,
                    line: Line)
    requires line.item in stock && 1 <= line.quantity <= 10 && AllConserved(stock0, stock, lines)
    requires stock' == stock[line.item := Supplied(stock[line.item], line.quantity)]
    ensures AllConserved(stock0, stock', lines + [line])
  {
    SupplyConserves(stock0[line.item], stock[line.item], lines, line);
    forall x | x in stock'
      ensures Conserved(stock0[x], stock'[x], lines + [line], x)
    {
      TotalsAdd(lines, line, x);
      assert Conserved(stock0[x], stock[x], lines, x);
    }
  }

  // ---------------------------------------------------------------- whole runs

  // The arguments of one transaction, and the random numbers it will draw.
  datatype Request = Request(w: int, d: int, c: int, draws: seq<nat>)

  // The requests for a district that name a known warehouse and customer.
  ghost function Accepted(m: Manager, requests: seq<Request>, p: Place): nat {
    if requests == [] then 0
    else
      var r := requests[|requests| - 1];
      Accepted(m, requests[..|requests| - 1], p)
      + (if (r.w, r.d) == p && r.w in m.warehouses && (p, r.c) in m.customers then 1 else 0)
  }

  // From ds to ds' every district has got complete orders under the next ids, and
  // no other order has changed.
  ghost predicate Grown(ds: map<Place, District>, ds': map<Place, District>) {
    && ds'.Keys == ds.Keys
    && forall p :: p in ds ==> DistrictGrown(ds[p], ds'[p])
  }

  ghost predicate DistrictGrown(d: District, d': District) {
    && d.nextOId <= d'.nextOId
    && (forall id :: id in d'.orders <==> id in d.orders || d.nextOId <= id < d'.nextOId)
    && (forall id :: id in d.orders ==> d'.orders[id] == d.orders[id])
    && (forall id :: d.nextOId <= id < d'.nextOId ==> Complete(d'.orders[id]))
  }

  lemma GrownMore(ds: map<Place, District>, ds1: map<Place, District>, ds': map<Place, District>, p: Place, id: int)
    requires Grown(ds, ds1) && Added(ds1, ds', p, id) && id !in ds1[p].orders
    ensures Grown(ds, ds')
  {
    hide Complete, DistrictGrown;
    assert DistrictGrown(ds[p], ds1[p]);
    DistrictMore(ds[p], ds1[p], ds'[p], id);
  }

  lemma DistrictMore(d: District, d1: District, d': District, id: int)
    requires DistrictGrown(d, d1) && id == d1.nextOId && id !in d1.orders && d'.nextOId == id + 1
    requires forall j :: j in d'.orders <==> j in d1.orders || j == id
    requires forall j :: j in d1.orders ==> d'.orders[j] == d1.orders[j]
    requires Complete(d'.orders[id])
    ensures DistrictGrown(d, d')
  {
    hide Complete;
  }

  // What the requests have made of the districts ds.
  ghost predicate Served(m: Manager, ds: map<Place, District>, ds': map<Place, District>, requests: seq<Request>) {
    && Grown(ds, ds')
    && forall p :: p in ds ==> ds'[p].nextOId == ds[p].nextOId + Accepted(m, requests, p)
  }

  lemma ServedMore(m: Manager, ds: map<Place, District>, ds1: map<Place, District>, ds': map<Place, District>,
                   requests: seq<Request>, r: Request)
    requires Served(m, ds, ds1, requests)
    requires if r.w in m.warehouses && (r.w, r.d) in ds1 && ((r.w, r.d), r.c) in m.customers then
               var id := ds1[(r.w, r.d)].nextOId; id !in ds1[(r.w, r.d)].orders && Added(ds1, ds', (r.w, r.d), id)
             else
               ds' == ds1
    ensures Served(m, ds, ds', requests + [r])
  {
    assert (requests + [r])[..|requests|] == requests;
    if r.w in m.warehouses && (r.w, r.d) in ds1 && ((r.w, r.d), r.c) in m.customers {
      GrownMore(ds, ds1, ds', (r.w, r.d), ds1[(r.w, r.d)].nextOId);
    }
    hide Complete, DistrictGrown;
  }

  lemma NothingServed(m: Manager, ds: map<Place, District>)
    ensures Served(m, ds, ds, [])
  {
  }

  lemma ServedFacts(m: Manager, ds: map<Place, District>, ds': map<Place, District>, requests: seq<Request>)
    requires Served(m, ds, ds', requests)
    ensures Grown(ds, ds')
    ensures forall p :: p in ds ==> ds'[p].nextOId == ds[p].nextOId + Accepted(m, requests, p)
  {
  }

  // What the manager's invariant says of the run so far.
  lemma RunFacts(m: Manager)
    requires m.Valid()
    ensures AllConsistent(m.districts, m.first) && m.start.Keys == m.districts.Keys
    ensures AllPlaced(m.districts, m.placed) && m.newLines == AllLines(m.districts, m.placed)
    ensures forall p, id :: p in m.districts ==>
              ((p, id) in m.placed <==> m.start[p] <= id < m.districts[p].nextOId)
    ensures forall i, j :: 0 <= i < j < |m.placed| ==> m.placed[i] != m.placed[j]
    ensures m.stock.Keys == m.stock0.Keys
    ensures forall item :: item in m.stock ==> Conserved(m.stock0[item], m.stock[item], m.newLines, item)
  {
    hide Consistent, Conserved, Complete, AllLines;
  }

  // A serial run of any requests, from any consistent start: the ids of each district
  // grow by its accepted requests, without a gap and with complete orders; for each
  // item the stock changes by exactly the lines of the orders placed.
  method SerialRun(warehouses: set<int>, customers: set<(Place, int)>, districts: map<Place, District>,
                   stock: map<int, Stock>, ghost first: map<Place, int>, requests: seq<Request>)
    returns (m: Manager)
    requires AllConsistent(districts, first) && InStock(stock) && forall r :: r in requests ==> |r.draws| >= 30
    ensures m.Valid() && m.warehouses == warehouses && m.customers == customers
    ensures Grown(districts, m.districts) && AllConsistent(m.districts, first)
    ensures forall p :: p in districts ==> m.districts[p].nextOId == districts[p].nextOId + Accepted(m, requests, p)
    ensures AllPlaced(m.districts, m.placed) && m.newLines == AllLines(m.districts, m.placed)
    ensures forall p, id :: p in districts ==>
              ((p, id) in m.placed <==> districts[p].nextOId <= id < m.districts[p].nextOId)
    ensures forall i, j :: 0 <= i < j < |m.placed| ==> m.placed[i] != m.placed[j]
    ensures m.stock.Keys == stock.Keys
    ensures forall item :: item in stock ==>
              var s0, s := stock[item], m.stock[item];
              && s.ytd == s0.ytd + Units(m.newLines, item) && s.orderCnt == s0.orderCnt + Count(m.newLines, item)
              && (s.quantity + s.ytd) % 91 == (s0.quantity + s0.ytd) % 91
              && (s0.quantity >= 10 ==> s.quantity >= (if Count(m.newLines, item) > 0 then 11 else 10))
              && (10 <= s0.quantity <= 101 ==> s.quantity <= 101)
              && (Count(m.newLines, item) == 0 ==> s == s0)
              && (Count(m.newLines, item) > 0 && s0.quantity >= 10 ==>
                    s.quantity == Left(s0.quantity - Units(m.newLines, item)))
  {
    hide Manager.Valid, InStock, Added, DrawnOrder, Complete, Served, Units, Count, AllLines, AllPlaced, DistrictGrown;
    m := new Manager(warehouses, customers, districts, stock, first);
    NothingServed(m, districts);
    var i := 0;
    while i < |requests|
      invariant 0 <= i <= |requests| && fresh(m) && m.Valid()
      invariant Served(m, districts, m.districts, requests[..i])
    {
      var r := requests[i];
      ghost var ds := m.districts;
      var status := m.NewOrder(r.w, r.d, r.c, r.draws);
      ServedMore(m, districts, ds, m.districts, requests[..i], r);
      assert requests[..i + 1] == requests[..i] + [r];
      i := i + 1;
    }
    assert requests[..i] == requests;
    RunFacts(m);
    ServedFacts(m, districts, m.districts, requests);
  }

  // Only order id of district p differs, and that district's next order id.
  ghost predicate OnlyOrder(ds: map<Place, District>, ds': map<Place, District>, p: Place, id: int) {
    && p in ds && ds'.Keys == ds.Keys && id in ds'[p].orders
    && (forall q :: q in ds && q != p ==> ds'[q] == ds[q])
    && (forall j :: j in ds'[p].orders <==> j in ds[p].orders || j == id)
    && (forall j :: j in ds[p].orders && j != id ==> ds'[p].orders[j] == ds[p].orders[j])
  }

  lemma OnlyOrderSame(ds: map<Place, District>, p: Place, id: int)
    requires p in ds && id in ds[p].orders
    ensures OnlyOrder(ds, ds, p, id)
  {
  }

  lemma OnlyOrderTrans(ds: map<Place, District>, ds1: map<Place, District>, ds': map<Place, District>,
                       p: Place, id: int)
    requires OnlyOrder(ds, ds1, p, id) && OnlyOrder(ds1, ds', p, id)
    ensures OnlyOrder(ds, ds', p, id)
  {
  }

  // The order has its first lines, as drawn.
  ghost predicate Filled(o: Order, draws: seq<nat>, ls: seq<Line>) {
    && 2 * |ls| <= |draws|
    && (forall k :: k in o.lines <==> 1 <= k <= |ls|)
    && forall k :: 1 <= k <= |ls| ==> o.lines[k] == ls[k - 1] == DrawnLine(draws, k)
  }

  lemma FilledMore(o: Order, draws: seq<nat>, ls: seq<Line>)
    requires Filled(o, draws, ls) && 2 * (|ls| + 1) <= |draws|
    ensures var i, line := |ls| + 1, DrawnLine(draws, |ls| + 1);
      Filled(Order(o.customer, o.olCnt, Insert(o.lines, i, line)), draws, ls + [line])
  {
  }

  lemma AllFilled(o: Order, draws: seq<nat>, ls: seq<Line>)
    requires Filled(o, draws, ls) && |ls| == o.olCnt
    ensures Complete(o) && ls == LinesOf(o)
    ensures forall k :: k in o.lines ==>
            1 <= k <= o.olCnt && o.lines[k] == Line(draws[2 * k - 2] % 100000 + 1, draws[2 * k - 1] % 10 + 1)
  {
  }

  lemma AllDrawn(o: Order, draws: seq<nat>)
    requires |draws| >= 30 && o.olCnt == draws[0] % 10 + 5
    requires forall k :: k in o.lines ==>
             1 <= k <= o.olCnt && o.lines[k] == Line(draws[2..][2 * k - 2] % 100000 + 1, draws[2..][2 * k - 1] % 10 + 1)
    ensures DrawnOrder(o, draws)
  {
  }

  lemma DrawnItems(draws: seq<nat>, k: int)
    requires 1 <= k && 2 * k <= |draws|
    ensures 1 <= DrawnLine(draws, k).item <= ITEMS && 1 <= DrawnLine(draws, k).quantity <= 10
  {
  }

  // The orders of the run are exactly those with ids from where it began, each placed once.
  ghost predicate PlacedSince(ds: map<Place, District>, start: map<Place, int>, placed: seq<(Place, int)>) {
    && (forall p, id :: p in ds && p in start ==> ((p, id) in placed <==> start[p] <= id < ds[p].nextOId))
    && (forall p :: p in ds && p in start ==> start[p] <= ds[p].nextOId)
    && (forall i, j :: 0 <= i < j < |placed| ==> placed[i] != placed[j])
  }

  ghost predicate AllPlaced(ds: map<Place, District>, placed: seq<(Place, int)>) {
    forall k :: k in placed ==> k.0 in ds && k.1 in ds[k.0].orders && Complete(ds[k.0].orders[k.1])
  }

  ghost function AllLines(ds: map<Place, District>, placed: seq<(Place, int)>): seq<Line>
    requires AllPlaced(ds, placed)
  {
    if placed == [] then []
    else
      var k := placed[|placed| - 1];
      AllLines(ds, placed[..|placed| - 1]) + LinesOf(ds[k.0].orders[k.1])
  }

  // Earlier orders stay as they are.
  lemma {:induction false} LinesStay(ds: map<Place, District>, ds': map<Place, District>, placed: seq<(Place, int)>)
    requires AllPlaced(ds, placed) && AllPlaced(ds', placed)
    requires forall k :: k in placed ==> ds'[k.0].orders[k.1] == ds[k.0].orders[k.1]
    ensures AllLines(ds', placed) == AllLines(ds, placed)
  {
    if placed != [] {
      LinesStay(ds, ds', placed[..|placed| - 1]);
    }
  }

  // The step from ds to ds' has added order id, complete, to district p.
  ghost predicate Added(ds: map<Place, District>, ds': map<Place, District>, p: Place, id: int) {
    OnlyOrder(ds, ds', p, id) && id == ds[p].nextOId && ds'[p].nextOId == id + 1 && Complete(ds'[p].orders[id])
  }

  lemma AddedAndFilled(ds: map<Place, District>, ds1: map<Place, District>, ds': map<Place, District>,
                       p: Place, id: int)
    requires OnlyOrder(ds, ds1, p, id) && p in ds1 && ds1[p].nextOId == id + 1 && OnlyOrder(ds1, ds', p, id) &&
             ds'[p].nextOId == id + 1
    requires id == ds[p].nextOId && Complete(ds'[p].orders[id])
    ensures Added(ds, ds', p, id) && ds'.Keys == ds.Keys && id in ds'[p].orders
  {
    hide Complete;
  }

  lemma StaysConsistent(ds: map<Place, District>, ds': map<Place, District>, first: map<Place, int>, p: Place, id: int)
    requires AllConsistent(ds, first) && Added(ds, ds', p, id)
    ensures AllConsistent(ds', first)
  {
    hide Complete;
    forall q | q in ds'
      ensures Consistent(ds'[q], first[q])
    {
      assert Consistent(ds[q], first[q]);
    }
  }

  lemma PlacedMore(ds: map<Place, District>, ds': map<Place, District>, start: map<Place, int>,
                   placed: seq<(Place, int)>, p: Place, id: int)
    requires start.Keys == ds.Keys && Added(ds, ds', p, id) && PlacedSince(ds, start, placed)
    ensures PlacedSince(ds', start, placed + [(p, id)]) && (p, id) !in placed
  {
    hide Complete;
    assert (p, id) !in placed;
    forall q, j | q in ds' && q in start
      ensures (q, j) in placed + [(p, id)] <==> start[q] <= j < ds'[q].nextOId
    {
      assert (q, j) in placed <==> start[q] <= j < ds[q].nextOId;
    }
  }

  lemma LinesMore(ds: map<Place, District>, ds': map<Place, District>, placed: seq<(Place, int)>, p: Place, id: int)
    requires Added(ds, ds', p, id) && AllPlaced(ds, placed) && (p, id) !in placed
    ensures AllPlaced(ds', placed + [(p, id)])
    ensures AllLines(ds', placed + [(p, id)]) == AllLines(ds, placed) + LinesOf(ds'[p].orders[id])
  {
    hide Complete, LinesOf;
    forall k | k in placed
      ensures k.0 in ds' && k.1 in ds'[k.0].orders && ds'[k.0].orders[k.1] == ds[k.0].orders[k.1]
    {
      assert k == (k.0, k.1) && k.0 in ds && k.1 in ds[k.0].orders;
      assert k.0 == p ==> k.1 != id;
    }
    assert AllPlaced(ds', placed);
    LinesStay(ds, ds', placed);
    assert (placed + [(p, id)])[..|placed|] == placed;
  }
}
