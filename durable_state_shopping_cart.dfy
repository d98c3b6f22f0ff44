/**
 * The durable-state shopping cart. There are no events: a handler that
 * accepts a command changes the current `State` object in place through
 * `updateItem` / `removeItem` / `checkout` (each returns the receiver) and
 * persists that same object, then replies with its summary.
 * `Instant.now()` is an input (`now`) and instants are integers.
 */
module DurableStateShoppingCart {
  import opened Wrappers
  import opened CartItems

  type Instant = int

  /** The immutable copy of the cart that replies carry; `value` is the `isThat` flag. */
  datatype Summary = Summary(items: Items, checkedOut: bool, value: bool)

  /** The contents of a `State` object at one moment. */
  datatype Cart = Cart(isThat: bool, items: Items, checkoutDate: Option<Instant>)
  {
    predicate IsCheckedOut() { checkoutDate.Some? }

    function ToSummary(): Summary { Summary(items, IsCheckedOut(), isThat) }
  }

  const EmptyCart := Cart(false, map[], None)

  class State {
    var isThat: bool
    var items: Items
    var checkoutDate: Option<Instant>

    function Value(): Cart
      reads this
    {
      Cart(isThat, items, checkoutDate)
    }

    /** `new State(items, checkoutDate)`; the `isThat` field starts false. */
    constructor (items: Items, checkoutDate: Option<Instant>)
      ensures Value() == Cart(false, items, checkoutDate)
    {
      this.isThat := false;
      this.items := items;
      this.checkoutDate := checkoutDate;
    }

    method SetIsThat(newValue: bool)
      modifies this
      ensures Value() == old(Value()).(isThat := newValue)
    {
      isThat := newValue;
    }

    method UpdateItem(itemId: string, quantity: int) returns (self: State)
      modifies this
      ensures self == this
      ensures Value() == old(Value()).(items := WithQuantity(old(items), itemId, quantity))
    {
      if quantity == 0 {
        items := items - {itemId};
      } else {
        items := items[itemId := quantity];
      }
      self := this;
    }

    method RemoveItem(itemId: string) returns (self: State)
      modifies this
      ensures self == this
      ensures Value() == old(Value()).(items := Without(old(items), itemId))
    {
      items := items - {itemId};
      self := this;
    }

    method Checkout(now: Instant) returns (self: State)
      modifies this
      ensures self == this
      ensures Value() == old(Value()).(checkoutDate := Some(now))
    {
      checkoutDate := Some(now);
      self := this;
    }
  }

  /** `emptyState()`: a fresh object with no items, no checkout date and `isThat` false. */
  method EmptyState() returns (s: State)
    ensures fresh(s)
    ensures s.Value() == EmptyCart
  {
    s := new State(map[], None);
  }

  datatype Command =
    | MutateState
    | AddItem(itemId: string, quantity: int)
    | RemoveItem(itemId: string)
    | AdjustItemQuantity(itemId: string, quantity: int)
    | GetState
    | Checkout
    | Get

  /** `StatusReply.success` / `StatusReply.error`, or the bare summary told to a Get. */
  datatype Reply = Success(summary: Summary) | Error(message: string) | CurrentSummary(summary: Summary)

  /**
   * What handling a command amounts to: no handler is registered for it in
   * this state, or the state to persist (if any) and the reply (if any).
   */
  datatype Decision = Unhandled | Handled(persist: Option<Cart>, reply: Option<Reply>)

  function Persisted(c: Cart): Decision
  {
    Handled(Some(c), Some(Success(c.ToSummary())))
  }

  function Replied(r: Reply): Decision
  {
    Handled(None, Some(r))
  }

  /**
   * The command handler, on cart values. MutateState and GetState are
   * registered only for an open cart; Get in every state.
   */
  function Decide(c: Cart, cmd: Command, now: Instant): (d: Decision)
    ensures d.Unhandled? <==> c.IsCheckedOut() && (cmd.MutateState? || cmd.GetState?)
    ensures cmd.Get? ==> d == Replied(CurrentSummary(c.ToSummary()))
    ensures cmd.MutateState? && d.Handled? ==> d == Handled(None, None)
    ensures cmd.GetState? && d.Handled? ==> d == Replied(Success(c.ToSummary()))
    ensures c.IsCheckedOut() && d.Handled? ==> d.persist.None?
    ensures d.Handled? && d.persist.Some? ==>
      d.reply == Some(Success(d.persist.value.ToSummary())) && d.persist.value.isThat == c.isThat
    ensures d.Handled? && d.persist.Some? && AllPositive(c.items) ==> AllPositive(d.persist.value.items)
    ensures d.Handled? && d.persist.Some? && c.IsCheckedOut() ==> d.persist.value.IsCheckedOut()
  {
    match cmd
    case Get => Replied(CurrentSummary(c.ToSummary()))
    case _ =>
      if !c.IsCheckedOut() then
        match cmd
        case MutateState => Handled(None, None)
        case AddItem(itemId, quantity) =>
          if itemId in c.items then
            Replied(Error("Item '" + itemId + "' was already added to this shopping cart"))
          else if quantity <= 0 then
            Replied(Error("Quantity must be greater than zero"))
          else
            Persisted(c.(items := WithQuantity(c.items, itemId, quantity)))
        case RemoveItem(itemId) =>
          if itemId in c.items then Persisted(c.(items := Without(c.items, itemId)))
          else Replied(Success(c.ToSummary()))
        case GetState => Replied(Success(c.ToSummary()))
        case AdjustItemQuantity(itemId, quantity) =>
          if quantity <= 0 then
            Replied(Error("Quantity must be greater than zero"))
          else if itemId in c.items then
            Persisted(c.(items := WithQuantity(c.items, itemId, quantity)))
          else
            Replied(Error("Cannot adjust quantity for item '" + itemId + "'. Item not present on cart"))
        case Checkout =>
          if c.items == map[] then Replied(Error("Cannot checkout an empty shopping cart"))
          else Persisted(c.(checkoutDate := Some(now)))
      else
        match cmd
        case MutateState => Unhandled
        case GetState => Unhandled
        case AddItem(_, _) => Replied(Error("Can't add an item to an already checked out shopping cart"))
        case RemoveItem(_) => Replied(Error("Can't remove an item from an already checked out shopping cart"))
        case AdjustItemQuantity(_, _) => Replied(Error("Can't adjust item on an already checked out shopping cart"))
        case Checkout => Replied(Error("Can't checkout already checked out shopping cart"))
  }

  /**
   * `onMutateState`: the handler rebinds its local `state` to a fresh empty
   * state and sets `isThat` on that one, so the entity's own state object is
   * untouched and nothing is persisted or told.
   */
  method OnMutateState(state: State) returns (d: Decision)
    ensures d == Handled(None, None)
  {
    var local := EmptyState();
    local.SetIsThat(true);
    d := Handled(None, None);
  }

  /**
   * The command handler as it runs. An accepted mutating command changes
   * the current state object in place and persists that object, so after
   * the call the object holds exactly the persisted cart; otherwise it is
   * unchanged.
   */
  method HandleCommand(state: State, cmd: Command, now: Instant) returns (d: Decision)
    modifies state
    ensures d == Decide(old(state.Value()), cmd, now)
    ensures d.Handled? && d.persist.Some? ==> state.Value() == d.persist.value
    ensures !(d.Handled? && d.persist.Some?) ==> state.Value() == old(state.Value())
  {
    if cmd.Get? {
      d := Replied(CurrentSummary(state.Value().ToSummary()));
    } else if state.checkoutDate.None? {
      match cmd {
        case MutateState =>
          d := OnMutateState(state);
        case AddItem(itemId, quantity) =>
          if itemId in state.items {
            d := Replied(Error("Item '" + itemId + "' was already added to this shopping cart"));
          } else if quantity <= 0 {
            d := Replied(Error("Quantity must be greater than zero"));
          } else {
            var persisted := state.UpdateItem(itemId, quantity);
            d := Persisted(persisted.Value());
          }
        case RemoveItem(itemId) =>
          if itemId in state.items {
            var persisted := state.RemoveItem(itemId);
            d := Persisted(persisted.Value());
          } else {
            d := Replied(Success(state.Value().ToSummary()));
          }
        case GetState =>
          d := Replied(Success(state.Value().ToSummary()));
        case AdjustItemQuantity(itemId, quantity) =>
          if quantity <= 0 {
            d := Replied(Error("Quantity must be greater than zero"));
          } else if itemId in state.items {
            var persisted := state.UpdateItem(itemId, quantity);
            d := Persisted(persisted.Value());
          } else {
            d := Replied(Error("Cannot adjust quantity for item '" + itemId + "'. Item not present on cart"));
          }
        case Checkout =>
          if state.items == map[] {
            d := Replied(Error("Cannot checkout an empty shopping cart"));
          } else {
            var persisted := state.Checkout(now);
            d := Persisted(persisted.Value());
          }
      }
    } else {
      d := Decide(state.Value(), cmd, now);
    }
  }

  /**
   * AddItem on an open cart: a present item is refused whatever the
   * quantity, then a non-positive quantity is refused, otherwise the item is
   * stored at that quantity and the reply is success.
   */
  lemma AddItemRules(c: Cart, itemId: string, quantity: int, now: Instant)
    requires !c.IsCheckedOut()
    ensures var d := Decide(c, AddItem(itemId, quantity), now);
      && (itemId in c.items ==>
            d == Replied(Error("Item '" + itemId + "' was already added to this shopping cart")))
      && (itemId !in c.items && quantity <= 0 ==> d == Replied(Error("Quantity must be greater than zero")))
      && (d.persist.Some? <==> itemId !in c.items && quantity > 0)
      && (d.persist.Some? ==> d.persist.value.items == c.items[itemId := quantity])
  {
  }

  /**
   * AdjustItemQuantity refuses a non-positive quantity before looking the
   * item up, then refuses an absent item; RemoveItem of an absent item
   * replies success and changes nothing.
   */
  lemma AdjustAndRemoveRules(c: Cart, itemId: string, quantity: int, now: Instant)
    requires !c.IsCheckedOut()
    ensures var d := Decide(c, AdjustItemQuantity(itemId, quantity), now);
      && (quantity <= 0 ==> d == Replied(Error("Quantity must be greater than zero")))
      && (d.persist.Some? <==> quantity > 0 && itemId in c.items)
      && (d.persist.Some? ==> d.persist.value.items == c.items[itemId := quantity])
    ensures itemId !in c.items ==> Decide(c, RemoveItem(itemId), now) == Replied(Success(c.ToSummary()))
  {
  }

  /** Checkout of an empty cart is an error; of a non-empty one, it records `now`. */
  lemma CheckoutRules(c: Cart, now: Instant)
    requires !c.IsCheckedOut()
    ensures c.items == map[] ==>
      Decide(c, Checkout, now) == Replied(Error("Cannot checkout an empty shopping cart"))
    ensures c.items != map[] ==>
      Decide(c, Checkout, now) == Persisted(c.(checkoutDate := Some(now)))
  {
  }

  /** The cart after a sequence of commands, each persisted state becoming the current one. */
  function Run(c: Cart, inputs: seq<(Command, Instant)>): Cart
  {
    if inputs == [] then c
    else
      var prev := Run(c, inputs[..|inputs| - 1]);
      var d := Decide(prev, inputs[|inputs| - 1].0, inputs[|inputs| - 1].1);
      if d.Handled? && d.persist.Some? then d.persist.value else prev
  }

  /**
   * Over any command sequence the flag `isThat` never changes (MutateState
   * sets it on a discarded object only), quantities stay positive, and a
   * checked-out cart stays checked out.
   */
  lemma {:induction false} RunInvariants(c: Cart, inputs: seq<(Command, Instant)>)
    requires AllPositive(c.items)
    ensures Run(c, inputs).isThat == c.isThat
    ensures AllPositive(Run(c, inputs).items)
    ensures c.IsCheckedOut() ==> Run(c, inputs).IsCheckedOut()
  {
    if inputs != [] {
      RunInvariants(c, inputs[..|inputs| - 1]);
    }
  }
}
