/** The order lifecycle: a bounded queue, at most one order being brewed, and a growing history. */
module Orders {
  import opened Common

  const MAX_QUEUE_DEPTH: nat := 10

  datatype OrderStatus = PENDING | PAID | BREWING | COMPLETED | CANCELLED | FAILED

  /** What was ordered; nothing in the lifecycle changes it. */
  datatype Details = Details(
    tenantId: string, deviceId: string, recipeId: string, recipeName: string, cupSize: string, quantity: int,
    totalAmount: int, paymentMethod: string, createdAt: string, expiredAt: string)

  datatype Order = Order(orderId: string, details: Details, status: OrderStatus, failureReason: string)

  datatype Shop = Shop(queue: seq<Order>, current: Option<Order>, history: seq<Order>)

  /** `check` is the verdict of the pre-brew check, which the service always passes for now. */
  datatype Op =
    | Create(order: Order)
    | Cancel(id: string)
    | ConfirmPayment(id: string)
    | StartBrewing(id: string, check: bool)
    | Complete(id: string)
    | Fail(id: string, reason: string)
    | EmergencyStop

  function IndexOf(queue: seq<Order>, id: string): (i: nat)
    ensures i <= |queue|
    ensures i < |queue| ==> queue[i].orderId == id
    ensures forall j :: 0 <= j < i ==> queue[j].orderId != id
  {
    if queue == [] then 0 else if queue[0].orderId == id then 0 else 1 + IndexOf(queue[1..], id)
  }

  function Without<T>(s: seq<T>, i: nat): seq<T>
    requires i < |s|
  {
    s[..i] + s[i + 1..]
  }

  predicate Brewing(s: Shop, id: string) {
    s.current.Some? && s.current.value.orderId == id
  }

  function Status(s: Shop, op: Op): StatusCode {
    match op
    case Create(_) => if |s.queue| >= MAX_QUEUE_DEPTH then ORDER_QUEUE_FULL else OK
    case Cancel(id) =>
      if Brewing(s, id) then ORDER_INVALID_STATE
      else if IndexOf(s.queue, id) == |s.queue| then ORDER_NOT_FOUND else OK
    case ConfirmPayment(id) => if IndexOf(s.queue, id) == |s.queue| then ORDER_NOT_FOUND else OK
    case StartBrewing(id, check) =>
      if s.current.Some? then ORDER_INVALID_STATE
      else if IndexOf(s.queue, id) == |s.queue| then ORDER_NOT_FOUND
      else if !check then ERROR else OK
    case Complete(id) => if Brewing(s, id) then OK else ORDER_NOT_FOUND
    case Fail(id, _) => if Brewing(s, id) then OK else ORDER_NOT_FOUND
    case EmergencyStop => OK
  }

  function Step(s: Shop, op: Op): Shop {
    match op
    case Create(o) => if |s.queue| >= MAX_QUEUE_DEPTH then s else s.(queue := s.queue + [o])
    case Cancel(id) =>
      var i := IndexOf(s.queue, id);
      if Brewing(s, id) || i == |s.queue| then s
      else s.(queue := Without(s.queue, i), history := s.history + [s.queue[i].(status := CANCELLED)])
    case ConfirmPayment(id) =>
      var i := IndexOf(s.queue, id);
      if i == |s.queue| then s else s.(queue := s.queue[i := s.queue[i].(status := PAID)])
    case StartBrewing(id, check) =>
      var i := IndexOf(s.queue, id);
      if s.current.Some? || i == |s.queue| then s
      else if !check then s.(queue := Without(s.queue, i))
      else s.(queue := Without(s.queue, i), current := Some(s.queue[i].(status := BREWING)))
    case Complete(id) =>
      if !Brewing(s, id) then s
      else s.(current := None, history := s.history + [s.current.value.(status := COMPLETED)])
    case Fail(id, reason) =>
      if !Brewing(s, id) then s
      else s.(current := None, history := s.history + [s.current.value.(status := FAILED, failureReason := reason)])
    case EmergencyStop => s.(current := None)
  }

  // ---------------------------------------------------------------- what the calls do, on fields

  ghost predicate Queued(s: Shop, id: string) {
    exists o :: o in s.queue && o.orderId == id
  }

  lemma QueuedAt(s: Shop, id: string)
    ensures Queued(s, id) <==> IndexOf(s.queue, id) < |s.queue|
  {
    var i := IndexOf(s.queue, id);
    if i < |s.queue| {
      assert s.queue[i] in s.queue;
    }
  }

  /** The first queued order with the id, and the queue without it. */
  ghost predicate TakesFirst(queue: seq<Order>, id: string, o: Order, rest: seq<Order>) {
    exists i :: 0 <= i < |queue| && queue[i] == o && o.orderId == id
      && (forall j :: 0 <= j < i ==> queue[j].orderId != id) && rest == queue[..i] + queue[i + 1..]
  }

  /** An order joins the queue unless ten are waiting. */
  lemma CreateOnFields(s: Shop, o: Order)
    ensures var status, s' := Status(s, Create(o)), Step(s, Create(o));
      && (status == OK <==> |s.queue| < 10) && (status == ORDER_QUEUE_FULL <==> |s.queue| >= 10)
      && s'.queue == (if |s.queue| < 10 then s.queue + [o] else s.queue)
      && s'.current == s.current && s'.history == s.history
  {
  }

  /** A queued order enters the history CANCELLED; the one being brewed cannot. */
  lemma CancelOnFields(s: Shop, id: string)
    ensures var status, s' := Status(s, Cancel(id)), Step(s, Cancel(id));
      var brewed := s.current.Some? && s.current.value.orderId == id;
      && (status == ORDER_INVALID_STATE <==> brewed)
      && (status == ORDER_NOT_FOUND <==> !brewed && !Queued(s, id))
      && (status == OK <==> !brewed && Queued(s, id))
      && s'.current == s.current && (status != OK ==> s' == s)
      && (status == OK ==>
            exists o, done :: TakesFirst(s.queue, id, o, s'.queue) && s'.history == s.history + [done]
              && done.status == CANCELLED && done == o.(status := done.status))
  {
    QueuedAt(s, id);
    var i := IndexOf(s.queue, id);
    if i < |s.queue| && !Brewing(s, id) {
      var o := s.queue[i];
      assert TakesFirst(s.queue, id, o, Step(s, Cancel(id)).queue);
      assert Step(s, Cancel(id)).history == s.history + [o.(status := CANCELLED)];
    }
  }

  /** The first queued order with the id becomes PAID. */
  lemma PayOnFields(s: Shop, id: string)
    ensures var status, s' := Status(s, ConfirmPayment(id)), Step(s, ConfirmPayment(id));
      && (status == OK <==> Queued(s, id)) && (status == ORDER_NOT_FOUND <==> !Queued(s, id))
      && s'.current == s.current && s'.history == s.history && |s'.queue| == |s.queue|
      && forall i :: 0 <= i < |s.queue| ==>
           var first := s.queue[i].orderId == id && forall j :: 0 <= j < i ==> s.queue[j].orderId != id;
           && s'.queue[i] == s.queue[i].(status := s'.queue[i].status)
           && s'.queue[i].status == if first then PAID else s.queue[i].status
  {
    QueuedAt(s, id);
  }

  /** With none being brewed, a queued order becomes the current one, BREWING; a failed check drops it. */
  lemma StartOnFields(s: Shop, id: string, check: bool)
    ensures var status, s' := Status(s, StartBrewing(id, check)), Step(s, StartBrewing(id, check));
      && (status == ORDER_INVALID_STATE <==> s.current.Some?)
      && (status == ORDER_NOT_FOUND <==> s.current.None? && !Queued(s, id))
      && (status == ERROR <==> s.current.None? && Queued(s, id) && !check)
      && (status == OK <==> s.current.None? && Queued(s, id) && check)
      && s'.history == s.history
      && (status != OK && status != ERROR ==> s' == s)
      && (status == OK || status == ERROR ==>
            exists o :: TakesFirst(s.queue, id, o, s'.queue)
              && (check ==> s'.current.Some? && s'.current.value.status == BREWING
                            && s'.current.value == o.(status := s'.current.value.status))
              && (!check ==> s'.current == None))
  {
    QueuedAt(s, id);
    var i := IndexOf(s.queue, id);
    if i < |s.queue| && s.current.None? {
      assert TakesFirst(s.queue, id, s.queue[i], Step(s, StartBrewing(id, check)).queue);
    }
  }

  /** The current order with the id enters the history COMPLETED and nothing is being brewed. */
  lemma CompleteOnFields(s: Shop, id: string)
    ensures var status, s' := Status(s, Complete(id)), Step(s, Complete(id));
      var brewed := s.current.Some? && s.current.value.orderId == id;
      && (status == OK <==> brewed) && (status == ORDER_NOT_FOUND <==> !brewed)
      && s'.queue == s.queue && (!brewed ==> s' == s)
      && (brewed ==> s'.current == None && |s'.history| == |s.history| + 1 && s'.history[..|s.history|] == s.history
                     && var done := s'.history[|s.history|];
                     done.status == COMPLETED && done == s.current.value.(status := done.status))
  {
  }

  /** The same with FAILED and the reason. */
  lemma FailOnFields(s: Shop, id: string, reason: string)
    ensures var status, s' := Status(s, Fail(id, reason)), Step(s, Fail(id, reason));
      var brewed := s.current.Some? && s.current.value.orderId == id;
      && (status == OK <==> brewed) && (status == ORDER_NOT_FOUND <==> !brewed)
      && s'.queue == s.queue && (!brewed ==> s' == s)
      && (brewed ==> s'.current == None && |s'.history| == |s.history| + 1 && s'.history[..|s.history|] == s.history
                     && var done := s'.history[|s.history|];
                     && done.status == FAILED && done.failureReason == reason
                     && done == s.current.value.(status := done.status, failureReason := done.failureReason))
  {
  }

  /** An emergency stop drops the current order and touches nothing else. */
  lemma StopOnFields(s: Shop)
    ensures var s' := Step(s, EmergencyStop);
      Status(s, EmergencyStop) == OK && s'.current == None && s'.queue == s.queue && s'.history == s.history
  {
  }

  // ---------------------------------------------------------------- accounting

  /** What identifies an order through its life: its id and what was ordered. */
  datatype Ticket = Ticket(orderId: string, details: Details)

  function TicketOf(o: Order): Ticket {
    Ticket(o.orderId, o.details)
  }

  function Tickets(orders: seq<Order>): (r: seq<Ticket>)
    ensures |r| == |orders| && forall i :: 0 <= i < |r| ==> r[i] == TicketOf(orders[i])
  {
    seq(|orders|, i requires 0 <= i < |orders| => TicketOf(orders[i]))
  }

  function CurrentTicket(s: Shop): multiset<Ticket> {
    if s.current.Some? then multiset{TicketOf(s.current.value)} else multiset{}
  }

  /** All the orders the shop still knows. */
  function Kept(s: Shop): multiset<Ticket> {
    multiset(Tickets(s.queue)) + CurrentTicket(s) + multiset(Tickets(s.history))
  }

  /**
    The shop with its books: orders as accepted, the acceptance number of each queued order,
    and the orders that left without a trace (emergency stop, failed pre-brew check).
   */
  datatype Books = Books(shop: Shop, accepted: seq<Ticket>, arrivals: seq<nat>, lost: multiset<Ticket>,
                         opening: multiset<Ticket>)

  function LostBy(s: Shop, op: Op): multiset<Ticket> {
    match op
    case EmergencyStop => CurrentTicket(s)
    case StartBrewing(id, check) =>
      var i := IndexOf(s.queue, id);
      if !check && s.current.None? && i < |s.queue| then multiset{TicketOf(s.queue[i])} else multiset{}
    case _ => multiset{}
  }

  /** The arrival numbers follow the queue: the same entry is appended or taken out. */
  function ArrivalsAfter(b: Books, op: Op): seq<nat>
    requires |b.arrivals| == |b.shop.queue|
  {
    match op
    case Create(_) => if Status(b.shop, op) == OK then b.arrivals + [|b.accepted|] else b.arrivals
    case Cancel(id) => if Status(b.shop, op) == OK then Without(b.arrivals, IndexOf(b.shop.queue, id)) else b.arrivals
    case StartBrewing(id, _) =>
      if Status(b.shop, op) == OK || Status(b.shop, op) == ERROR then Without(b.arrivals, IndexOf(b.shop.queue, id))
      else b.arrivals
    case _ => b.arrivals
  }

  function Record(b: Books, op: Op): Books
    requires |b.arrivals| == |b.shop.queue|
  {
    Books(Step(b.shop, op),
          if op.Create? && Status(b.shop, op) == OK then b.accepted + [TicketOf(op.order)] else b.accepted,
          ArrivalsAfter(b, op),
          b.lost + LostBy(b.shop, op),
          b.opening)
  }

  /** Opening the books on a shop with orders already in it. */
  function Open(s: Shop): Books {
    Books(s, Tickets(s.queue), seq(|s.queue|, i requires 0 <= i < |s.queue| => i), multiset{},
          CurrentTicket(s) + multiset(Tickets(s.history)))
  }

  ghost predicate InArrivalOrder(b: Books) {
    Ordered(Tickets(b.shop.queue), b.arrivals, b.accepted)
  }

  ghost predicate Balanced(b: Books) {
    b.opening + multiset(b.accepted) == Kept(b.shop) + b.lost
  }

  ghost predicate Inv(b: Books) {
    && |b.shop.queue| <= MAX_QUEUE_DEPTH
    && (b.shop.current.Some? ==> b.shop.current.value.status == BREWING)
    && InArrivalOrder(b)
    && Balanced(b)
  }

  ghost predicate IsRun(b: Books, ops: seq<Op>, b': Books)
    decreases |ops|
  {
    if ops == [] then b == b'
    else |b.arrivals| == |b.shop.queue| && IsRun(Record(b, ops[0]), ops[1..], b')
  }

  lemma BagWithout(s: seq<Ticket>, i: nat)
    requires i < |s|
    ensures multiset(s) == multiset(Without(s, i)) + multiset{s[i]}
  {
    assert s == s[..i] + [s[i]] + s[i + 1..];
  }

  lemma TicketsWithout(q: seq<Order>, i: nat)
    requires i < |q|
    ensures multiset(Tickets(q)) == multiset(Tickets(Without(q, i))) + multiset{TicketOf(q[i])}
  {
    BagWithout(Tickets(q), i);
    assert Tickets(Without(q, i)) == Without(Tickets(q), i);
  }

  lemma TicketsAppend(q: seq<Order>, o: Order)
    ensures Tickets(q + [o]) == Tickets(q) + [TicketOf(o)]
  {
  }

  /** What an accepted op brings in. */
  function GainedBy(s: Shop, op: Op): multiset<Ticket> {
    if op.Create? && Status(s, op) == OK then multiset{TicketOf(op.order)} else multiset{}
  }

  lemma CancelBalances(s: Shop, id: string)
    ensures Kept(Step(s, Cancel(id))) == Kept(s)
  {
    var i := IndexOf(s.queue, id);
    if !Brewing(s, id) && i < |s.queue| {
      TicketsWithout(s.queue, i);
      TicketsAppend(s.history, s.queue[i].(status := CANCELLED));
    }
  }

  lemma ConfirmKeepsTickets(s: Shop, id: string)
    ensures Tickets(Step(s, ConfirmPayment(id)).queue) == Tickets(s.queue)
  {
    var i := IndexOf(s.queue, id);
    if i < |s.queue| {
      assert Tickets(s.queue[i := s.queue[i].(status := PAID)]) == Tickets(s.queue);
    }
  }

  lemma ConfirmBalances(s: Shop, id: string)
    ensures Kept(Step(s, ConfirmPayment(id))) == Kept(s)
  {
    ConfirmKeepsTickets(s, id);
  }

  lemma DropBalances(s: Shop, i: nat)
    requires i < |s.queue|
    ensures Kept(s.(queue := Without(s.queue, i))) + multiset{TicketOf(s.queue[i])} == Kept(s)
  {
    TicketsWithout(s.queue, i);
  }

  lemma BrewBalances(s: Shop, i: nat)
    requires s.current.None? && i < |s.queue|
    ensures Kept(s.(queue := Without(s.queue, i), current := Some(s.queue[i].(status := BREWING)))) == Kept(s)
  {
    TicketsWithout(s.queue, i);
  }

  lemma StartBalances(s: Shop, id: string, check: bool)
    ensures Kept(Step(s, StartBrewing(id, check))) + LostBy(s, StartBrewing(id, check)) == Kept(s)
  {
    var i, op := IndexOf(s.queue, id), StartBrewing(id, check);
    if s.current.Some? || i == |s.queue| {
      assert Step(s, op) == s && LostBy(s, op) == multiset{};
    } else if check {
      BrewBalances(s, i);
      assert Step(s, op) == s.(queue := Without(s.queue, i), current := Some(s.queue[i].(status := BREWING)));
    } else {
      DropBalances(s, i);
      assert Step(s, op) == s.(queue := Without(s.queue, i));
    }
  }

  lemma FinishBalances(s: Shop, o: Order)
    requires s.current.Some? && TicketOf(o) == TicketOf(s.current.value)
    ensures Kept(s.(current := None, history := s.history + [o])) == Kept(s)
  {
    TicketsAppend(s.history, o);
  }

  lemma CreateBalances(s: Shop, o: Order)
    ensures Kept(Step(s, Create(o))) == Kept(s) + GainedBy(s, Create(o))
  {
    TicketsAppend(s.queue, o);
  }

  lemma CompleteBalances(s: Shop, id: string)
    ensures Kept(Step(s, Complete(id))) == Kept(s)
  {
    if Brewing(s, id) {
      var o := s.current.value.(status := COMPLETED);
      FinishBalances(s, o);
      assert Step(s, Complete(id)) == s.(current := None, history := s.history + [o]);
    }
  }

  lemma FailBalances(s: Shop, id: string, reason: string)
    ensures Kept(Step(s, Fail(id, reason))) == Kept(s)
  {
    if Brewing(s, id) {
      var o := s.current.value.(status := FAILED, failureReason := reason);
      FinishBalances(s, o);
      assert Step(s, Fail(id, reason)) == s.(current := None, history := s.history + [o]);
    }
  }

  lemma StopBalances(s: Shop)
    ensures Kept(Step(s, EmergencyStop)) + LostBy(s, EmergencyStop) == Kept(s)
  {
  }

  lemma StepBalances(s: Shop, op: Op)
    ensures Kept(Step(s, op)) + LostBy(s, op) == Kept(s) + GainedBy(s, op)
  {
    match op
    case Create(o) => CreateBalances(s, o);
    case Cancel(id) => CancelBalances(s, id);
    case ConfirmPayment(id) => ConfirmBalances(s, id);
    case StartBrewing(id, check) => StartBalances(s, id, check);
    case Complete(id) => CompleteBalances(s, id);
    case Fail(id, reason) => FailBalances(s, id, reason);
    case EmergencyStop => StopBalances(s);
  }

  /** Arrival numbers against the queue. */
  ghost predicate Ordered(ids: seq<Ticket>, arrivals: seq<nat>, accepted: seq<Ticket>) {
    && |arrivals| == |ids|
    && (forall i :: 0 <= i < |arrivals| ==> arrivals[i] < |accepted| && accepted[arrivals[i]] == ids[i])
    && (forall i, j :: 0 <= i < j < |arrivals| ==> arrivals[i] < arrivals[j])
  }

  lemma OrderedWithout(ids: seq<Ticket>, arrivals: seq<nat>, accepted: seq<Ticket>, i: nat)
    requires Ordered(ids, arrivals, accepted) && i < |ids|
    ensures Ordered(Without(ids, i), Without(arrivals, i), accepted)
  {
    var ids', a' := Without(ids, i), Without(arrivals, i);
    assert forall j :: 0 <= j < |ids'| ==> ids'[j] == ids[if j < i then j else j + 1];
    assert forall j :: 0 <= j < |a'| ==> a'[j] == arrivals[if j < i then j else j + 1];
  }

  lemma OrderedAppend(ids: seq<Ticket>, arrivals: seq<nat>, accepted: seq<Ticket>, id: Ticket)
    requires Ordered(ids, arrivals, accepted)
    ensures Ordered(ids + [id], arrivals + [|accepted|], accepted + [id])
  {
  }

  lemma CreateKeepsArrivalOrder(b: Books, o: Order)
    requires InArrivalOrder(b)
    ensures InArrivalOrder(Record(b, Create(o)))
  {
    if Status(b.shop, Create(o)) == OK {
      TicketsAppend(b.shop.queue, o);
      OrderedAppend(Tickets(b.shop.queue), b.arrivals, b.accepted, TicketOf(o));
    }
  }

  lemma CancelKeepsArrivalOrder(b: Books, id: string)
    requires InArrivalOrder(b)
    ensures InArrivalOrder(Record(b, Cancel(id)))
  {
    TakenKeepsArrivalOrder(b, IndexOf(b.shop.queue, id));
  }

  lemma StartKeepsArrivalOrder(b: Books, id: string, check: bool)
    requires InArrivalOrder(b)
    ensures InArrivalOrder(Record(b, StartBrewing(id, check)))
  {
    TakenKeepsArrivalOrder(b, IndexOf(b.shop.queue, id));
  }

  lemma ConfirmKeepsArrivalOrder(b: Books, id: string)
    requires InArrivalOrder(b)
    ensures InArrivalOrder(Record(b, ConfirmPayment(id)))
  {
    ConfirmKeepsTickets(b.shop, id);
  }

  lemma RecordKeepsArrivalOrder(b: Books, op: Op)
    requires InArrivalOrder(b)
    ensures InArrivalOrder(Record(b, op))
  {
    match op
    case Create(o) => CreateKeepsArrivalOrder(b, o);
    case Cancel(id) => CancelKeepsArrivalOrder(b, id);
    case StartBrewing(id, check) => StartKeepsArrivalOrder(b, id, check);
    case ConfirmPayment(id) => ConfirmKeepsArrivalOrder(b, id);
    case _ =>
  }

  lemma TicketsOfRest(q: seq<Order>, i: nat)
    requires i < |q|
    ensures Tickets(Without(q, i)) == Without(Tickets(q), i)
  {
  }

  lemma TakenKeepsArrivalOrder(b: Books, i: nat)
    requires InArrivalOrder(b)
    ensures i < |b.shop.queue| ==> Ordered(Tickets(Without(b.shop.queue, i)), Without(b.arrivals, i), b.accepted)
  {
    if i < |b.shop.queue| {
      OrderedWithout(Tickets(b.shop.queue), b.arrivals, b.accepted, i);
      TicketsOfRest(b.shop.queue, i);
    }
  }

  lemma RecordKeepsBalance(b: Books, op: Op)
    requires Balanced(b) && |b.arrivals| == |b.shop.queue|
    ensures Balanced(Record(b, op))
  {
    StepBalances(b.shop, op);
    if op.Create? {
      assert multiset(b.accepted + [TicketOf(op.order)]) == multiset(b.accepted) + multiset{TicketOf(op.order)};
    }
    assert multiset(Record(b, op).accepted) == multiset(b.accepted) + GainedBy(b.shop, op);
    Rebalance(b.opening, multiset(b.accepted), GainedBy(b.shop, op), Kept(b.shop), b.lost,
              Kept(Step(b.shop, op)), LostBy(b.shop, op));
  }

  lemma Rebalance(opening: multiset<Ticket>, accepted: multiset<Ticket>, gained: multiset<Ticket>,
                  kept: multiset<Ticket>, lost: multiset<Ticket>, kept': multiset<Ticket>, newlyLost: multiset<Ticket>)
    requires opening + accepted == kept + lost && kept' + newlyLost == kept + gained
    ensures opening + (accepted + gained) == kept' + (lost + newlyLost)
  {
    assert opening + (accepted + gained) == (kept + lost) + gained;
    assert kept' + (lost + newlyLost) == (kept + gained) + lost;
  }

  lemma StepKeepsBounds(s: Shop, op: Op)
    requires |s.queue| <= MAX_QUEUE_DEPTH && (s.current.Some? ==> s.current.value.status == BREWING)
    ensures var s' := Step(s, op);
      |s'.queue| <= MAX_QUEUE_DEPTH && (s'.current.Some? ==> s'.current.value.status == BREWING)
  {
  }

  lemma RecordKeepsInv(b: Books, op: Op)
    requires Inv(b)
    ensures Inv(Record(b, op))
  {
    RecordKeepsArrivalOrder(b, op);
    RecordKeepsBalance(b, op);
    StepKeepsBounds(b.shop, op);
  }

  /**
    Over every run: the queue stays within its depth and in order of arrival, the order being
    brewed is BREWING, and every accepted order is queued, brewing, in the history or accounted as lost.
   */
  lemma {:induction false} RunKeepsInv(b: Books, ops: seq<Op>, b': Books)
    requires Inv(b) && IsRun(b, ops, b')
    ensures Inv(b')
    decreases |ops|
  {
    if ops != [] {
      RecordKeepsInv(b, ops[0]);
      RunKeepsInv(Record(b, ops[0]), ops[1..], b');
    }
  }

  lemma OpeningIsBalanced(s: Shop)
    requires |s.queue| <= MAX_QUEUE_DEPTH && (s.current.Some? ==> s.current.value.status == BREWING)
    ensures Inv(Open(s))
  {
  }

  /** From any shop within its bounds, over every run: nothing accepted is lost unaccounted or altered. */
  lemma OrdersAreConserved(s: Shop, ops: seq<Op>, b: Books)
    requires |s.queue| <= MAX_QUEUE_DEPTH && (s.current.Some? ==> s.current.value.status == BREWING)
    requires IsRun(Open(s), ops, b)
    ensures Inv(b)
    ensures b.opening == Open(s).opening
  {
    OpeningIsBalanced(s);
    RunKeepsInv(Open(s), ops, b);
    OpeningStays(Open(s), ops, b);
  }

  lemma {:induction false} OpeningStays(b: Books, ops: seq<Op>, b': Books)
    requires IsRun(b, ops, b')
    ensures b'.opening == b.opening
    decreases |ops|
  {
    if ops != [] {
      OpeningStays(Record(b, ops[0]), ops[1..], b');
    }
  }

  predicate Final(o: Order) {
    o.status == COMPLETED || o.status == CANCELLED || o.status == FAILED
  }

  lemma StepAppendsFinal(s: Shop, op: Op)
    ensures s.history <= Step(s, op).history
    ensures forall i :: |s.history| <= i < |Step(s, op).history| ==> Final(Step(s, op).history[i])
  {
  }

  /** The history only grows, and every entry a run adds is completed, cancelled or failed. */
  lemma {:induction false} HistoryIsAppendOnly(b: Books, ops: seq<Op>, b': Books)
    requires IsRun(b, ops, b')
    ensures b.shop.history <= b'.shop.history
    ensures forall i :: |b.shop.history| <= i < |b'.shop.history| ==> Final(b'.shop.history[i])
    decreases |ops|
  {
    if ops != [] {
      var mid := Record(b, ops[0]);
      HistoryIsAppendOnly(mid, ops[1..], b');
      StepAppendsFinal(b.shop, ops[0]);
    }
  }

  function AllOrders(s: Shop): seq<Order> {
    (if s.current.Some? then [s.current.value] else []) + s.queue + s.history
  }

  /** The listing shows the current order first, then the queue and the history in their own order. */
  lemma ListedInOrder(s: Shop, i: nat)
    requires i < |AllOrders(s)|
    ensures var c := if s.current.Some? then 1 else 0;
      && |AllOrders(s)| == c + |s.queue| + |s.history|
      && (i < c ==> AllOrders(s)[i] == s.current.value)
      && (c <= i < c + |s.queue| ==> AllOrders(s)[i] == s.queue[i - c])
      && (c + |s.queue| <= i ==> AllOrders(s)[i] == s.history[i - c - |s.queue|])
  {
  }

  lemma TicketsJoin(a: seq<Order>, b: seq<Order>)
    ensures Tickets(a + b) == Tickets(a) + Tickets(b)
  {
  }

  lemma AllTickets(s: Shop)
    ensures multiset(Tickets(AllOrders(s))) == Kept(s)
  {
    var head := if s.current.Some? then [s.current.value] else [];
    TicketsJoin(head, s.queue);
    TicketsJoin(head + s.queue, s.history);
    if s.current.Some? {
      assert Tickets(head) == [TicketOf(s.current.value)];
    }
  }

  // ---------------------------------------------------------------- the manager

  class OrderManager {
    var queue: seq<Order>
    var current: Option<Order>
    var history: seq<Order>

    function State(): Shop
      reads this
    {
      Shop(queue, current, history)
    }

    constructor ()
      ensures State() == Shop([], None, [])
    {
      queue, current, history := [], None, [];
    }

    method FindQueued(id: string) returns (i: nat)
      ensures i == IndexOf(queue, id)
    {
      i := 0;
      while i < |queue| && queue[i].orderId != id
        invariant 0 <= i <= |queue| && forall j :: 0 <= j < i ==> queue[j].orderId != id
      {
        i := i + 1;
      }
    }

    method CreateOrder(order: Order) returns (status: StatusCode)
      modifies this
      ensures status == Status(old(State()), Create(order)) && State() == Step(old(State()), Create(order))
    {
      if |queue| >= MAX_QUEUE_DEPTH {
        return ORDER_QUEUE_FULL;
      }
      queue := queue + [order];
      return OK;
    }

    method CancelOrder(id: string) returns (status: StatusCode)
      modifies this
      ensures status == Status(old(State()), Cancel(id)) && State() == Step(old(State()), Cancel(id))
    {
      if current.Some? && current.value.orderId == id {
        return ORDER_INVALID_STATE;
      }
      var i := FindQueued(id);
      if i == |queue| {
        return ORDER_NOT_FOUND;
      }
      queue := queue[i := queue[i].(status := CANCELLED)];
      history := history + [queue[i]];
      queue := queue[..i] + queue[i + 1..];
      return OK;
    }

    method ConfirmOrderPayment(id: string) returns (status: StatusCode)
      modifies this
      ensures status == Status(old(State()), ConfirmPayment(id)) && State() == Step(old(State()), ConfirmPayment(id))
    {
      var i := FindQueued(id);
      if i == |queue| {
        return ORDER_NOT_FOUND;
      }
      queue := queue[i := queue[i].(status := PAID)];
      return OK;
    }

    method StartBrewingOrder(id: string, check: bool) returns (status: StatusCode)
      modifies this
      ensures status == Status(old(State()), StartBrewing(id, check))
      ensures State() == Step(old(State()), StartBrewing(id, check))
    {
      if current.Some? {
        return ORDER_INVALID_STATE;
      }
      var i := FindQueued(id);
      if i == |queue| {
        return ORDER_NOT_FOUND;
      }
      if !check {
        queue := queue[..i] + queue[i + 1..];
        return ERROR;
      }
      current := Some(queue[i].(status := BREWING));
      queue := queue[..i] + queue[i + 1..];
      return OK;
    }

    method CompleteBrewing(id: string) returns (status: StatusCode)
      modifies this
      ensures status == Status(old(State()), Complete(id)) && State() == Step(old(State()), Complete(id))
    {
      if current.None? || current.value.orderId != id {
        return ORDER_NOT_FOUND;
      }
      history := history + [current.value.(status := COMPLETED)];
      current := None;
      return OK;
    }

    method FailBrewing(id: string, reason: string) returns (status: StatusCode)
      modifies this
      ensures status == Status(old(State()), Fail(id, reason)) && State() == Step(old(State()), Fail(id, reason))
    {
      if current.None? || current.value.orderId != id {
        return ORDER_NOT_FOUND;
      }
      history := history + [current.value.(status := FAILED, failureReason := reason)];
      current := None;
      return OK;
    }

    /** The stopped order does not reach the history. */
    method StopAll()
      modifies this
      ensures State() == Step(old(State()), EmergencyStop)
    {
      current := None;
    }

    method ListAllOrders() returns (all: seq<Order>)
      ensures all == AllOrders(State())
      ensures multiset(Tickets(all)) == Kept(State())
    {
      all := if current.Some? then [current.value] else [];
      ghost var head := all;
      for i := 0 to |queue|
        invariant all == head + queue[..i]
      {
        all := all + [queue[i]];
      }
      assert queue[..|queue|] == queue;
      ghost var front := all;
      for i := 0 to |history|
        invariant all == front + history[..i]
      {
        all := all + [history[i]];
      }
      assert history[..|history|] == history;
      AllTickets(State());
    }

    /** total_count() is the number of orders list_all_orders() shows. */
    method TotalCount() returns (count: nat)
      ensures count == |AllOrders(State())|
    {
      count := |queue| + |history|;
      if current.Some? {
        count := count + 1;
      }
    }
  }
}
