/**
 * The event-sourced shopping cart of the persistence sample. It decides
 * like the CQRS cart, but confirms with `Accepted(summary)` or
 * `Rejected(reason)` told to the sender, and answers Get by telling the
 * bare summary. `Instant.now()` is an input (`now`) and instants are
 * integers.
 */
module PersistenceShoppingCart {
  import opened Wrappers
  import opened CartItems

  type Instant = int

  /** The immutable copy of the cart that replies carry. */
  datatype Summary = Summary(items: Items, checkedOut: bool)

  /** The contents of a `State` object at one moment. */
  datatype Cart = Cart(items: Items, checkoutDate: Option<Instant>)
  {
    predicate IsCheckedOut() { checkoutDate.Some? }

    function ToSummary(): Summary { Summary(items, IsCheckedOut()) }
  }

  const EmptyCart := Cart(map[], None)

  /** The cart state object; its update methods change it and return the receiver. */
  class State {
    var items: Items
    var checkoutDate: Option<Instant>

    function Value(): Cart
      reads this
    {
      Cart(items, checkoutDate)
    }

    /** `emptyState()`: no items, not checked out. */
    constructor ()
      ensures Value() == EmptyCart
    {
      items := map[];
      checkoutDate := None;
    }

    method UpdateItem(itemId: string, quantity: int) returns (self: State)
      modifies this
      ensures self == this
      ensures items == WithQuantity(old(items), itemId, quantity)
      ensures checkoutDate == old(checkoutDate)
    {
      if quantity == 0 {
        items := items - {itemId};
      } else {
        items := items[itemId := quantity];
      }
      self := this;
    }

    method RemoveItem(itemId: string) returns (self: State)
      modifies this
      ensures self == this
      ensures items == Without(old(items), itemId)
      ensures checkoutDate == old(checkoutDate)
    {
      items := items - {itemId};
      self := this;
    }

    method Checkout(now: Instant) returns (self: State)
      modifies this
      ensures self == this
      ensures items == old(items)
      ensures checkoutDate == Some(now)
    {
      checkoutDate := Some(now);
      self := this;
    }
  }

  datatype Command =
    | AddItem(itemId: string, quantity: int)
    | RemoveItem(itemId: string)
    | AdjustItemQuantity(itemId: string, quantity: int)
    | Checkout
    | Get

  datatype Event =
    | ItemAdded(cartId: string, itemId: string, quantity: int)
    | ItemRemoved(cartId: string, itemId: string)
    | ItemQuantityAdjusted(cartId: string, itemId: string, quantity: int)
    | CheckedOut(cartId: string, eventTime: Instant)

  /** The `Confirmation`s `Accepted` and `Rejected` to the mutating commands, a bare summary to Get. */
  datatype Reply = Accepted(summary: Summary) | Rejected(reason: string) | CurrentSummary(summary: Summary)

  /** What a command handler does: at most one event to persist, and the message told to the sender. */
  datatype Effect = Effect(event: Option<Event>, reply: Reply)

  /** The event handler, on cart values. */
  function Apply(c: Cart, e: Event): Cart
  {
    match e
    case ItemAdded(_, itemId, quantity) => c.(items := WithQuantity(c.items, itemId, quantity))
    case ItemRemoved(_, itemId) => c.(items := Without(c.items, itemId))
    case ItemQuantityAdjusted(_, itemId, quantity) => c.(items := WithQuantity(c.items, itemId, quantity))
    case CheckedOut(_, eventTime) => c.(checkoutDate := Some(eventTime))
  }

  /** The event handler as it runs: it updates the state object in place and hands it back. */
  method EventHandler(state: State, e: Event) returns (next: State)
    modifies state
    ensures next == state
    ensures state.Value() == Apply(old(state.Value()), e)
  {
    match e
    case ItemAdded(_, itemId, quantity) => next := state.UpdateItem(itemId, quantity);
    case ItemRemoved(_, itemId) => next := state.RemoveItem(itemId);
    case ItemQuantityAdjusted(_, itemId, quantity) => next := state.UpdateItem(itemId, quantity);
    case CheckedOut(_, eventTime) => next := state.Checkout(eventTime);
  }

  /** Persist `e`, then (`thenRun`) tell Accepted with the cart as the event leaves it. */
  function PersistThenReply(c: Cart, e: Event): Effect
  {
    Effect(Some(e), Accepted(Apply(c, e).ToSummary()))
  }

  function Reject(message: string): Effect
  {
    Effect(None, Rejected(message))
  }

  /**
   * The command handler: Get in any state; the four mutating commands
   * validated on an open cart and refused on a checked-out one.
   */
  function HandleCommand(cartId: string, c: Cart, cmd: Command, now: Instant): (r: Effect)
    ensures cmd.Get? ==> r == Effect(None, CurrentSummary(c.ToSummary()))
    ensures c.IsCheckedOut() && !cmd.Get? ==> r.event.None? && r.reply.Rejected?
    ensures r.event.Some? ==> !c.IsCheckedOut() && r.reply == Accepted(Apply(c, r.event.value).ToSummary())
    ensures r.event.None? && r.reply.Accepted? ==> r.reply.summary == c.ToSummary()
    ensures r.event.Some? ==> r.event.value.cartId == cartId
    ensures r.event.Some? && AllPositive(c.items) ==> AllPositive(Apply(c, r.event.value).items)
  {
    match cmd
    case Get => Effect(None, CurrentSummary(c.ToSummary()))
    case _ =>
      if c.IsCheckedOut() then CheckedOutHandler(cmd)
      else OpenHandler(cartId, c, cmd, now)
  }

  function OpenHandler(cartId: string, c: Cart, cmd: Command, now: Instant): Effect
    requires !cmd.Get?
  {
    match cmd
    case AddItem(itemId, quantity) =>
      if itemId in c.items then
        Reject("Item '" + itemId + "' was already added to this shopping cart")
      else if quantity <= 0 then
        Reject("Quantity must be greater than zero")
      else
        PersistThenReply(c, ItemAdded(cartId, itemId, quantity))
    case RemoveItem(itemId) =>
      if itemId in c.items then PersistThenReply(c, ItemRemoved(cartId, itemId))
      else Effect(None, Accepted(c.ToSummary()))
    case AdjustItemQuantity(itemId, quantity) =>
      if quantity <= 0 then
        Reject("Quantity must be greater than zero")
      else if itemId in c.items then
        PersistThenReply(c, ItemQuantityAdjusted(cartId, itemId, quantity))
      else
        Reject("Cannot adjust quantity for item '" + itemId + "'. Item not present on cart")
    case Checkout =>
      if c.items == map[] then Reject("Cannot checkout an empty shopping cart")
      else PersistThenReply(c, CheckedOut(cartId, now))
  }

  function CheckedOutHandler(cmd: Command): Effect
    requires !cmd.Get?
  {
    match cmd
    case AddItem(_, _) => Reject("Can't add an item to an already checked out shopping cart")
    case RemoveItem(_) => Reject("Can't remove an item from an already checked out shopping cart")
    case AdjustItemQuantity(_, _) => Reject("Can't adjust item on an already checked out shopping cart")
    case Checkout => Reject("Can't checkout already checked out shopping cart")
  }

  /**
   * AddItem on an open cart: an item already present is refused whatever the
   * quantity (the presence check comes first); otherwise a non-positive
   * quantity is refused; otherwise ItemAdded is persisted and the reply shows
   * the item at that quantity.
   */
  lemma AddItemRules(cartId: string, c: Cart, itemId: string, quantity: int, now: Instant)
    requires !c.IsCheckedOut()
    ensures var r := HandleCommand(cartId, c, AddItem(itemId, quantity), now);
      && (itemId in c.items ==>
            r == Effect(None, Rejected("Item '" + itemId + "' was already added to this shopping cart")))
      && (itemId !in c.items && quantity <= 0 ==>
            r == Effect(None, Rejected("Quantity must be greater than zero")))
      && (r.event.Some? <==> itemId !in c.items && quantity > 0)
      && (r.event.Some? ==>
            r.event.value == ItemAdded(cartId, itemId, quantity)
            && r.reply.Accepted? && r.reply.summary.items == c.items[itemId := quantity])
  {
  }

  /**
   * AdjustItemQuantity on an open cart: a non-positive quantity is refused
   * before presence is looked at; an absent item is refused; only a present
   * item with a positive quantity is adjusted.
   */
  lemma AdjustItemQuantityRules(cartId: string, c: Cart, itemId: string, quantity: int, now: Instant)
    requires !c.IsCheckedOut()
    ensures var r := HandleCommand(cartId, c, AdjustItemQuantity(itemId, quantity), now);
      && (quantity <= 0 ==> r == Effect(None, Rejected("Quantity must be greater than zero")))
      && (r.event.Some? <==> quantity > 0 && itemId in c.items)
      && (r.event.Some? ==>
            r.event.value == ItemQuantityAdjusted(cartId, itemId, quantity)
            && r.reply.Accepted? && r.reply.summary.items == c.items[itemId := quantity])
  {
  }

  /**
   * RemoveItem on an open cart: an absent item persists nothing and replies
   * Accepted with the unchanged summary; a present item is gone afterwards
   * and nothing else changes.
   */
  lemma RemoveItemRules(cartId: string, c: Cart, itemId: string, now: Instant)
    requires !c.IsCheckedOut()
    ensures var r := HandleCommand(cartId, c, RemoveItem(itemId), now);
      && (itemId !in c.items ==> r == Effect(None, Accepted(c.ToSummary())))
      && (itemId in c.items ==>
            r.event == Some(ItemRemoved(cartId, itemId))
            && r.reply == Accepted(Summary(c.items - {itemId}, false)))
  {
  }

  /** Checkout of an empty open cart is refused; otherwise the cart is checked out at `now`. */
  lemma CheckoutRules(cartId: string, c: Cart, now: Instant)
    requires !c.IsCheckedOut()
    ensures var r := HandleCommand(cartId, c, Checkout, now);
      && (c.items == map[] ==> r == Effect(None, Rejected("Cannot checkout an empty shopping cart")))
      && (c.items != map[] ==>
            r.event == Some(CheckedOut(cartId, now))
            && Apply(c, r.event.value) == Cart(c.items, Some(now))
            && r.reply == Accepted(Summary(c.items, true)))
  {
  }

  /** The state after a sequence of events: the event handler folded over them. */
  function Replay(c: Cart, events: seq<Event>): Cart
    decreases |events|
  {
    if events == [] then c else Replay(Apply(c, events[0]), events[1..])
  }

  lemma {:induction false} ReplayAppend(c: Cart, events: seq<Event>, e: Event)
    ensures Replay(c, events + [e]) == Apply(Replay(c, events), e)
    decreases |events|
  {
    if events != [] {
      assert (events + [e])[1..] == events[1..] + [e];
      ReplayAppend(Apply(c, events[0]), events[1..], e);
    }
  }

  /** Once checked out, no event un-checks the cart. */
  lemma {:induction false} CheckoutIsPermanent(c: Cart, events: seq<Event>)
    requires c.IsCheckedOut()
    ensures Replay(c, events).IsCheckedOut()
    decreases |events|
  {
    if events != [] { CheckoutIsPermanent(Apply(c, events[0]), events[1..]); }
  }

  /** One timed command, as the entity receives it. */
  datatype Input = Input(cmd: Command, now: Instant)

  /** What the entity has done after a sequence of commands. */
  datatype Journal = Journal(cart: Cart, events: seq<Event>, replies: seq<Reply>)

  /** Handle each command in turn, applying the event it persists before the next one. */
  function Run(cartId: string, c: Cart, inputs: seq<Input>): (j: Journal)
    ensures |j.replies| == |inputs|
    ensures |j.events| <= |inputs|
  {
    if inputs == [] then Journal(c, [], [])
    else
      var prev := Run(cartId, c, inputs[..|inputs| - 1]);
      var last := inputs[|inputs| - 1];
      var r := HandleCommand(cartId, prev.cart, last.cmd, last.now);
      match r.event
      case None => Journal(prev.cart, prev.events, prev.replies + [r.reply])
      case Some(e) => Journal(Apply(prev.cart, e), prev.events + [e], prev.replies + [r.reply])
  }

  /**
   * Replaying the journal rebuilds the cart: the cart the entity holds
   * after any command sequence is the event handler folded over exactly
   * the events it persisted.
   */
  lemma {:induction false} ReplayRebuildsCart(cartId: string, c: Cart, inputs: seq<Input>)
    ensures Replay(c, Run(cartId, c, inputs).events) == Run(cartId, c, inputs).cart
  {
    if inputs != [] {
      var prefix := inputs[..|inputs| - 1];
      ReplayRebuildsCart(cartId, c, prefix);
      var prev := Run(cartId, c, prefix);
      var last := inputs[|inputs| - 1];
      var r := HandleCommand(cartId, prev.cart, last.cmd, last.now);
      if r.event.Some? {
        ReplayAppend(c, prev.events, r.event.value);
      }
    }
  }

  /** Starting from any cart with positive quantities, no command sequence stores a zero or negative one. */
  lemma {:induction false} QuantitiesStayPositive(cartId: string, c: Cart, inputs: seq<Input>)
    requires AllPositive(c.items)
    ensures AllPositive(Run(cartId, c, inputs).cart.items)
  {
    if inputs != [] {
      QuantitiesStayPositive(cartId, c, inputs[..|inputs| - 1]);
    }
  }
}
