/**
 * The replicated bank account. Balances and amounts are Java longs, so
 * every balance change wraps at 64 bits. The replication context
 * (whether the event was concurrent, its origin replica, whether recovery
 * is running) is an input; a message the entity tells itself is an output.
 */
module BankAccount {
  import opened Wrappers
  import JavaLang

  /** The `State` value: a final long balance; deposit and withdraw build new states. */
  datatype State = State(balance: int)
  {
    function Withdraw(amount: int): State { State(JavaLang.Wrap64(balance - amount)) }

    function Deposit(amount: int): State { State(JavaLang.Wrap64(balance + amount)) }
  }

  /** `emptyState()`: balance zero. */
  const EmptyState := State(0)

  predicate ValidState(s: State) { JavaLang.IsInt64(s.balance) }

  datatype Command = Deposit(amount: int) | Withdraw(amount: int) | GetBalance | AlertOverdrawn(amount: int)

  datatype Event = Deposited(amount: int) | Withdrawn(amount: int) | Overdrawn(amount: int)

  datatype Reply = Ack | Error(message: string) | Balance(balance: int)

  /** Persist an event and reply, reply with no event, or leave the command unmatched. */
  datatype Effect = Effect(event: Option<Event>, reply: Reply) | Unhandled

  /** The replication context the event handler reads. */
  datatype Replication = Replication(concurrent: bool, origin: string, recoveryRunning: bool)

  /**
   * The command handler as written: Withdraw is refused with "insufficient
   * funds" exactly when `balance - amount > 0`, and otherwise persisted.
   * There is no case for AlertOverdrawn.
   */
  function HandleCommand(s: State, cmd: Command): (r: Effect)
    ensures cmd.AlertOverdrawn? <==> r.Unhandled?
    ensures cmd.Deposit? ==> r == Effect(Some(Deposited(cmd.amount)), Ack)
    ensures cmd.GetBalance? ==> r == Effect(None, Balance(s.balance))
    ensures cmd.Withdraw? ==>
      (JavaLang.Wrap64(s.balance - cmd.amount) > 0 <==> r == Effect(None, Error("insufficient funds")))
      && (r.Effect? && r.event.Some? <==> JavaLang.Wrap64(s.balance - cmd.amount) <= 0)
      && (r.Effect? && r.event.Some? ==> r == Effect(Some(Withdrawn(cmd.amount)), Ack))
  {
    match cmd
    case Withdraw(amount) =>
      if JavaLang.Wrap64(s.balance - amount) > 0 then Effect(None, Error("insufficient funds"))
      else Effect(Some(Withdrawn(amount)), Ack)
    case Deposit(amount) => Effect(Some(Deposited(amount)), Ack)
    case GetBalance => Effect(None, Balance(s.balance))
    case AlertOverdrawn(_) => Unhandled
  }

  /**
   * The guard as written refuses a withdrawal that leaves money in the
   * account and lets through one that empties or overdraws it.
   */
  lemma WithdrawGuardIsReversed()
    ensures HandleCommand(State(100), Withdraw(10)) == Effect(None, Error("insufficient funds"))
    ensures HandleCommand(State(0), Withdraw(10)) == Effect(Some(Withdrawn(10)), Ack)
    ensures Apply(State(0), Withdrawn(10)).balance == -10
  {
  }

  /** The command handler with the guard the reply message describes: refuse when `balance - amount < 0`. */
  function HandleCommandIntended(s: State, cmd: Command): (r: Effect)
    ensures !cmd.Withdraw? ==> r == HandleCommand(s, cmd)
    ensures cmd.Withdraw? ==>
      (JavaLang.Wrap64(s.balance - cmd.amount) < 0 <==> r == Effect(None, Error("insufficient funds")))
  {
    match cmd
    case Withdraw(amount) =>
      if JavaLang.Wrap64(s.balance - amount) < 0 then Effect(None, Error("insufficient funds"))
      else Effect(Some(Withdrawn(amount)), Ack)
    case _ => HandleCommand(s, cmd)
  }

  /**
   * With the intended guard, a withdrawal of a non-negative amount from a
   * non-negative balance is persisted exactly when the funds suffice, and
   * never leaves the balance negative.
   */
  lemma IntendedWithdrawNeverOverdraws(s: State, amount: int)
    requires 0 <= s.balance <= JavaLang.LONG_MAX && 0 <= amount <= JavaLang.LONG_MAX
    ensures var r := HandleCommandIntended(s, Withdraw(amount));
      (r.Effect? && r.event.Some? <==> amount <= s.balance)
      && (r.Effect? && r.event.Some? ==> Apply(s, r.event.value).balance >= 0)
  {
  }

  /** The state the event handler returns; Overdrawn leaves it as it is. */
  function Apply(s: State, e: Event): (t: State)
    ensures ValidState(t) || (e.Overdrawn? && t == s)
  {
    match e
    case Deposited(amount) => s.Deposit(amount)
    case Withdrawn(amount) => s.Withdraw(amount)
    case Overdrawn(_) => s
  }

  /** Depositing an amount and withdrawing it again restores the balance, 64-bit overflow included. */
  lemma DepositThenWithdraw(s: State, amount: int)
    requires ValidState(s) && JavaLang.IsInt64(amount)
    ensures Apply(Apply(s, Deposited(amount)), Withdrawn(amount)) == s
  {
    JavaLang.AddThenSubtract64(s.balance, amount);
  }

  /**
   * `detectOverdrawn`: only for a concurrent event from "eu-central" outside
   * recovery, and only when the new balance is negative, the entity tells
   * itself AlertOverdrawn with that balance.
   */
  function DetectOverdrawn(ctx: Replication, s: State): (alert: Option<Command>)
    ensures alert.Some? <==>
      ctx.concurrent && ctx.origin == "eu-central" && !ctx.recoveryRunning && s.balance < 0
    ensures alert.Some? ==> alert.value == AlertOverdrawn(s.balance)
  {
    if ctx.concurrent && ctx.origin == "eu-central" && !ctx.recoveryRunning && s.balance < 0 then
      Some(AlertOverdrawn(s.balance))
    else None
  }

  /** The messages the event handler tells its own entity: only after a Withdrawn. */
  function SelfMessages(ctx: Replication, s: State, e: Event): (out: Option<Command>)
    ensures out.Some? ==> e.Withdrawn? && out == DetectOverdrawn(ctx, Apply(s, e))
    ensures e.Withdrawn? ==> out == DetectOverdrawn(ctx, Apply(s, e))
    ensures !e.Withdrawn? ==> out.None?
  {
    if e.Withdrawn? then DetectOverdrawn(ctx, Apply(s, e)) else None
  }

  /** An alert the entity tells itself is never handled, so it never becomes an event. */
  lemma AlertIsNeverHandled(ctx: Replication, s: State, e: Event, t: State)
    requires SelfMessages(ctx, s, e).Some?
    ensures HandleCommand(t, SelfMessages(ctx, s, e).value).Unhandled?
  {
  }
}
