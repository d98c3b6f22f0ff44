# Akka samples: the sample entities, actors and protocols as verified models

This project models the business logic of the Java samples that ship with
Akka:

- the three shopping carts:
  - the event-sourced one behind a CQRS read side;
  - the plain event-sourced one;
  - the durable-state one that mutates its state object in place;
- the replicated-event-sourcing entities: the auction, the bank account and
  the thumbs-up counter;
- the multi-data-center thumbs-up counter, with its sharding extractor and
  its protobuf serializer;
- the gRPC cluster-client gateway: the client actor's session registry and
  the Command-to-request mapping, and the receptionist's request dispatch,
  response wrapping and `askSend`;
- the dining hakkers finite state machines, classic and typed;
- the maze runner of the vavr and javaslang samples: the maze, the minion
  walk, the master's result list and the heat map;
- the classic `PersistentActorExample`.

One Dafny module is written per source file. Shared modules:

- `Wrappers` holds Option and Result.
- `CartItems` holds the item map of the carts.
- `JavaLang` holds the pieces of `java.lang` whose exact behaviour matters:
  - int and long wrap-around;
  - `Math.abs`;
  - the truncating `%`;
  - `String.hashCode`;
  - `Integer.toString` and `Integer.valueOf`;
  - `String.compareTo`;
  - `Character.isWhitespace`.
- `MazeTranslation` holds the four translations and `Coords.translate`.
- `DropNewBuffer` holds the bounded buffer with drop-new overflow.
- `GrpcProtocol` holds the gateway's request and response messages.

Where the source changes an object in place, the model is a class:

- the cart `State` objects;
- the cluster client actor;
- the maze minion and master;
- `ExampleState` and `ExamplePersistentActor`.

Each of its methods is specified against a value `Value()` or its fields.
Entities whose state is immutable are datatypes with pure command and event
handlers. Each of those comes with:

- a replay function, the fold of the event handler over a journal;
- lemmas about that replay.

Akka's message passing is modelled as data: a handler returns what it
persists, what it tells and to whom, and what it schedules.

## Model

| member | source | states |
|---|---|---|
| CartItems.WithQuantity | akka-sample-cqrs-java/src/main/java/sample/cqrs/ShoppingCart.java:68-75 | quantity 0 removes the item, any other quantity maps it to that quantity; every other item keeps its presence and quantity |
| CartItems.Without | akka-sample-cqrs-java/src/main/java/sample/cqrs/ShoppingCart.java:77-80 | the item is absent afterwards and every other item is kept with its quantity |
| CqrsShoppingCart.State.constructor | akka-sample-cqrs-java/src/main/java/sample/cqrs/ShoppingCart.java:285-287 | the empty state has no items and no checkout date |
| CqrsShoppingCart.State.UpdateItem | akka-sample-cqrs-java/src/main/java/sample/cqrs/ShoppingCart.java:68-75 | mutates the receiver's items as WithQuantity and returns the receiver itself; the checkout date is unchanged |
| CqrsShoppingCart.State.RemoveItem | akka-sample-cqrs-java/src/main/java/sample/cqrs/ShoppingCart.java:77-80 | mutates the receiver's items as Without and returns the receiver |
| CqrsShoppingCart.State.Checkout | akka-sample-cqrs-java/src/main/java/sample/cqrs/ShoppingCart.java:82-85 | sets the checkout date on the receiver, keeps the items, returns the receiver |
| CqrsShoppingCart.EventHandler | akka-sample-cqrs-java/src/main/java/sample/cqrs/ShoppingCart.java:383-390 | applying an event to the state object leaves it holding exactly the pure Apply of the old cart and returns the same object |
| CqrsShoppingCart.HandleCommand | akka-sample-cqrs-java/src/main/java/sample/cqrs/ShoppingCart.java:293-380 | Get replies the summary with no event in every state; a checked-out cart rejects every other command with no event; a persisted event belongs to this cart, comes from an open cart and is answered with the summary after applying it; positive quantities stay positive |
| CqrsShoppingCart.AddItemRules | akka-sample-cqrs-java/src/main/java/sample/cqrs/ShoppingCart.java:321-331 | on an open cart a present item is rejected before the quantity is looked at, then quantity <= 0 is rejected; otherwise ItemAdded is persisted and the reply shows the item at that quantity |
| CqrsShoppingCart.AdjustItemQuantityRules | akka-sample-cqrs-java/src/main/java/sample/cqrs/ShoppingCart.java:342-352 | quantity <= 0 is rejected first, then an absent item; only a present item with positive quantity yields ItemQuantityAdjusted |
| CqrsShoppingCart.RemoveItemRules | akka-sample-cqrs-java/src/main/java/sample/cqrs/ShoppingCart.java:333-340 | an absent item gives no event and a success reply with the unchanged summary; a present item is gone after the persisted event |
| CqrsShoppingCart.CheckoutRules | akka-sample-cqrs-java/src/main/java/sample/cqrs/ShoppingCart.java:354-361 | checkout of an empty cart is an error with no event; otherwise CheckedOut is persisted and the cart is checked out |
| CqrsShoppingCart.ReplayAppend | akka-sample-cqrs-java/src/main/java/sample/cqrs/ShoppingCart.java:383-390 | replaying a journal with one more event is applying that event to the replay of the journal |
| CqrsShoppingCart.CheckoutIsPermanent | akka-sample-cqrs-java/src/main/java/sample/cqrs/ShoppingCart.java:383-390 | once checked out, the cart stays checked out over any further events |
| CqrsShoppingCart.Run | akka-sample-cqrs-java/src/main/java/sample/cqrs/ShoppingCart.java:293-390 | running commands gives one reply per command and at most one event per command |
| CqrsShoppingCart.ReplayRebuildsCart | akka-sample-cqrs-java/src/main/java/sample/cqrs/ShoppingCart.java:383-390 | replaying the journal written by any command sequence rebuilds exactly the cart the commands produced |
| CqrsShoppingCart.QuantitiesStayPositive | akka-sample-cqrs-java/src/main/java/sample/cqrs/ShoppingCart.java:321-352 | from a cart with positive quantities, every command sequence keeps all quantities positive |
| CqrsShoppingCart.TagIndex | akka-sample-cqrs-java/src/main/java/sample/cqrs/ShoppingCart.java:263 | Math.abs of the truncating remainder of the cart id's hash lies in [0, parallelism) |
| CqrsShoppingCart.EventProcessorTag | akka-sample-cqrs-java/src/main/java/sample/cqrs/ShoppingCart.java:263-264 | the tag is the prefix, a dash and the decimal tag index |
| PersistenceShoppingCart.State.constructor | akka-sample-persistence-java/src/main/java/sample/persistence/ShoppingCart.java:283-286 | the empty state has no items and no checkout date |
| PersistenceShoppingCart.State.UpdateItem | akka-sample-persistence-java/src/main/java/sample/persistence/ShoppingCart.java:62-69 | mutates the receiver's items as WithQuantity, keeps the checkout date, returns the receiver |
| PersistenceShoppingCart.State.RemoveItem | akka-sample-persistence-java/src/main/java/sample/persistence/ShoppingCart.java:71-74 | mutates the receiver's items as Without, returns the receiver |
| PersistenceShoppingCart.State.Checkout | akka-sample-persistence-java/src/main/java/sample/persistence/ShoppingCart.java:76-79 | sets the checkout date, keeps the items, returns the receiver |
| PersistenceShoppingCart.EventHandler | akka-sample-persistence-java/src/main/java/sample/persistence/ShoppingCart.java:393-401 | the state object ends up holding the pure Apply of the old cart |
| PersistenceShoppingCart.HandleCommand | akka-sample-persistence-java/src/main/java/sample/persistence/ShoppingCart.java:290-391 | Get replies the summary; a checked-out cart answers Rejected with no event; a persisted event comes from an open cart, belongs to the cart and is answered Accepted with the updated summary; a command answered Accepted without an event carries the unchanged summary |
| PersistenceShoppingCart.AddItemRules | akka-sample-persistence-java/src/main/java/sample/persistence/ShoppingCart.java:321-333 | duplicate item, then quantity <= 0, are Rejected with no event; otherwise ItemAdded is persisted and Accepted carries the item at that quantity |
| PersistenceShoppingCart.AdjustItemQuantityRules | akka-sample-persistence-java/src/main/java/sample/persistence/ShoppingCart.java:345-357 | quantity <= 0 is Rejected before the presence check, an absent item is Rejected, a present one is updated and Accepted |
| PersistenceShoppingCart.RemoveItemRules | akka-sample-persistence-java/src/main/java/sample/persistence/ShoppingCart.java:335-343 | an absent item is Accepted with the unchanged summary and nothing is persisted |
| PersistenceShoppingCart.CheckoutRules | akka-sample-persistence-java/src/main/java/sample/persistence/ShoppingCart.java:359-367 | an empty cart's checkout is Rejected; otherwise CheckedOut is persisted |
| PersistenceShoppingCart.ReplayAppend | akka-sample-persistence-java/src/main/java/sample/persistence/ShoppingCart.java:393-401 | replay of a journal plus one event is that event applied to the replay |
| PersistenceShoppingCart.CheckoutIsPermanent | akka-sample-persistence-java/src/main/java/sample/persistence/ShoppingCart.java:393-401 | a checked-out cart stays checked out over any events |
| PersistenceShoppingCart.Run | akka-sample-persistence-java/src/main/java/sample/persistence/ShoppingCart.java:290-401 | one reply per command, at most one event per command |
| PersistenceShoppingCart.ReplayRebuildsCart | akka-sample-persistence-java/src/main/java/sample/persistence/ShoppingCart.java:393-401 | replaying the persisted events reconstructs the cart the commands produced |
| PersistenceShoppingCart.QuantitiesStayPositive | akka-sample-persistence-java/src/main/java/sample/persistence/ShoppingCart.java:319-367 | all quantities stay positive over every command sequence |
| DurableStateShoppingCart.State.constructor | akka-sample-state-java/src/main/java/sample/persistence/ShoppingCart.java:76-79 | a new state holds the given items and checkout date with isThat false |
| DurableStateShoppingCart.State.SetIsThat | akka-sample-state-java/src/main/java/sample/persistence/ShoppingCart.java:71-73 | only the isThat flag changes |
| DurableStateShoppingCart.State.UpdateItem | akka-sample-state-java/src/main/java/sample/persistence/ShoppingCart.java:81-88 | mutates the receiver's items as WithQuantity, nothing else, and returns the receiver |
| DurableStateShoppingCart.State.RemoveItem | akka-sample-state-java/src/main/java/sample/persistence/ShoppingCart.java:90-93 | mutates the receiver's items as Without and returns the receiver |
| DurableStateShoppingCart.State.Checkout | akka-sample-state-java/src/main/java/sample/persistence/ShoppingCart.java:95-98 | sets only the checkout date and returns the receiver |
| DurableStateShoppingCart.EmptyState | akka-sample-state-java/src/main/java/sample/persistence/ShoppingCart.java:231-233 | a fresh state with no items, no checkout date and isThat false |
| DurableStateShoppingCart.Decide | akka-sample-state-java/src/main/java/sample/persistence/ShoppingCart.java:239-353 | MutateState and GetState are unhandled (no handler case: the builder's MatchError) exactly on a checked-out cart; Get always replies the summary; MutateState neither persists nor replies; GetState replies success with the summary; a checked-out cart persists nothing; a persisted state is what the success reply summarises, keeps isThat and positive quantities, and stays checked out |
| DurableStateShoppingCart.OnMutateState | akka-sample-state-java/src/main/java/sample/persistence/ShoppingCart.java:299-306 | the flag is set on a fresh local state only: nothing is persisted or told |
| DurableStateShoppingCart.HandleCommand | akka-sample-state-java/src/main/java/sample/persistence/ShoppingCart.java:239-353 | the decision is Decide on the old state; when a state is persisted the current object now holds exactly that state (it was mutated in place), otherwise it is unchanged |
| DurableStateShoppingCart.AddItemRules | akka-sample-state-java/src/main/java/sample/persistence/ShoppingCart.java:270-282 | duplicate is an error whatever the quantity, then quantity <= 0 is an error; a state is persisted iff the item is new and the quantity positive, holding it at that quantity |
| DurableStateShoppingCart.AdjustAndRemoveRules | akka-sample-state-java/src/main/java/sample/persistence/ShoppingCart.java:284-320 | quantity <= 0 is refused first, a state is persisted iff the quantity is positive and the item present; RemoveItem of an absent item replies success with the unchanged summary |
| DurableStateShoppingCart.CheckoutRules | akka-sample-state-java/src/main/java/sample/persistence/ShoppingCart.java:322-331 | empty cart: error; otherwise the persisted state carries the checkout time |
| DurableStateShoppingCart.RunInvariants | akka-sample-state-java/src/main/java/sample/persistence/ShoppingCart.java:239-353 | over any command sequence isThat never changes, quantities stay positive, and a checked-out cart stays checked out |
| AuctionEntity.IsHigherBidIrreflexive | akka-sample-persistence-dc-java/src/main/java/sample/persistence/res/auction/AuctionEntity.java:154-165 | no bid is higher than itself |
| AuctionEntity.IsHigherBidAsymmetric | akka-sample-persistence-dc-java/src/main/java/sample/persistence/res/auction/AuctionEntity.java:154-165 | if a is higher than b, b is not higher than a |
| AuctionEntity.IsHigherBidTransitive | akka-sample-persistence-dc-java/src/main/java/sample/persistence/res/auction/AuctionEntity.java:154-165 | the order on bids is transitive |
| AuctionEntity.IsHigherBidTrichotomy | akka-sample-persistence-dc-java/src/main/java/sample/persistence/res/auction/AuctionEntity.java:154-165 | bids differing in offer, timestamp or replica are ordered one way exactly; bids equal in all three are ordered neither way |
| AuctionEntity.EmptyState | akka-sample-persistence-dc-java/src/main/java/sample/persistence/res/auction/AuctionEntity.java:222-225 | running, not closed, highest bid = the initial bid, counter-offer = its offer, no finished replicas |
| AuctionEntity.StateTransformers | akka-sample-persistence-dc-java/src/main/java/sample/persistence/res/auction/AuctionEntity.java:140-180 | withNewHighestBid makes the bid the highest and the old highest offer the counter-offer; withTooLowBid keeps the highest bid and raises the counter-offer to the max of the two; addFinishedAtReplica stops and records the replica; close gives a closed state; isClosed iff not running and no finished replicas |
| AuctionEntity.HandleCommand | akka-sample-persistence-dc-java/src/main/java/sample/persistence/res/auction/AuctionEntity.java:248-316 | OfferBid persists BidRegistered(bidder, offer, now, this replica) while running and is unhandled once stopped; Close is unhandled while running and otherwise persists WinnerDecided(this replica, highest bid, highest counter-offer); IsClosed replies isClosed(); GetHighestBid replies the highest bid and Finish persists AuctionFinished(this replica) in every state; these two are the only unhandled cases |
| AuctionEntity.EventTriggers | akka-sample-persistence-dc-java/src/main/java/sample/persistence/res/auction/AuctionEntity.java:347-364 | Finish is sent while this replica is not yet finished; Close is sent iff it is finished and shouldClose holds; nothing is sent when it is finished and shouldClose fails; at most one message |
| AuctionEntity.SelfMessages | akka-sample-persistence-dc-java/src/main/java/sample/persistence/res/auction/AuctionEntity.java:321-345 | self messages follow only an AuctionFinished on a state not closed outside recovery, and are then the triggers of the new state |
| AuctionEntity.OnRecoveryCompleted | akka-sample-persistence-dc-java/src/main/java/sample/persistence/res/auction/AuctionEntity.java:234-242 | Close is sent iff shouldClose holds; the Finish timer is set to fire at the closing time |
| AuctionEntity.BidRegisteredKeepsMaximum | akka-sample-persistence-dc-java/src/main/java/sample/persistence/res/auction/AuctionEntity.java:321-332 | after BidRegistered the highest bid is the old one or the new one, and neither is higher than it |
| AuctionEntity.FinishAndDecideRules | akka-sample-persistence-dc-java/src/main/java/sample/persistence/res/auction/AuctionEntity.java:333-343 | AuctionFinished leaves a closed state unchanged and otherwise stops and records the replica; WinnerDecided closes the state |
| AuctionEntity.HighestBidIsMaximum | akka-sample-persistence-dc-java/src/main/java/sample/persistence/res/auction/AuctionEntity.java:321-345 | after any journal, no registered bid (and not the starting highest bid) is higher than the highest bid |
| AuctionEntity.CounterOfferBelowHighest | akka-sample-persistence-dc-java/src/main/java/sample/persistence/res/auction/AuctionEntity.java:140-152 | the counter-offer never exceeds the highest offer over any journal |
| AuctionEntity.FinishIsPermanent | akka-sample-persistence-dc-java/src/main/java/sample/persistence/res/auction/AuctionEntity.java:321-345 | a stopped auction stays stopped and a closed one stays closed over any journal |
| JavaLang.Less | akka-sample-persistence-dc-java/src/main/java/sample/persistence/res/auction/AuctionEntity.java:162-164 | the string order used for the replica tie-break (its lemmas below) |
| JavaLang.LessIrreflexive | akka-sample-persistence-dc-java/src/main/java/sample/persistence/res/auction/AuctionEntity.java:162-164 | compareTo of a string with itself is not negative |
| JavaLang.LessAsymmetric | akka-sample-persistence-dc-java/src/main/java/sample/persistence/res/auction/AuctionEntity.java:162-164 | compareTo < 0 holds in at most one direction |
| JavaLang.LessTransitive | akka-sample-persistence-dc-java/src/main/java/sample/persistence/res/auction/AuctionEntity.java:162-164 | compareTo < 0 is transitive |
| JavaLang.LessTotal | akka-sample-persistence-dc-java/src/main/java/sample/persistence/res/auction/AuctionEntity.java:162-164 | two different strings are ordered one way or the other |
| BankAccount.HandleCommand | akka-sample-persistence-dc-java/src/main/java/sample/persistence/res/bank/BankAccount.java:121-134 | Deposit persists and acks, GetBalance replies the balance, AlertOverdrawn is exactly the command with no handler case (Unhandled stands for the builder's MatchError); Withdraw is refused with "insufficient funds" iff balance - amount > 0 (as written) and otherwise persists Withdrawn |
| BankAccount.WithdrawGuardIsReversed | akka-sample-persistence-dc-java/src/main/java/sample/persistence/res/bank/BankAccount.java:124-130 | with balance 100 a withdrawal of 10 is refused; with balance 0 it is accepted and the balance becomes -10 |
| BankAccount.HandleCommandIntended | akka-sample-persistence-dc-java/src/main/java/sample/persistence/res/bank/BankAccount.java:124-130 | the handler with the guard reading balance - amount < 0; every other command as written |
| BankAccount.IntendedWithdrawNeverOverdraws | akka-sample-persistence-dc-java/src/main/java/sample/persistence/res/bank/BankAccount.java:124-130 | with the intended guard a withdrawal is accepted iff amount <= balance, and the balance stays non-negative |
| BankAccount.Apply | akka-sample-persistence-dc-java/src/main/java/sample/persistence/res/bank/BankAccount.java:137-148 | Deposited and Withdrawn give a valid long balance; Overdrawn leaves the state unchanged |
| BankAccount.DepositThenWithdraw | akka-sample-persistence-dc-java/src/main/java/sample/persistence/res/bank/BankAccount.java:91-103 | deposit then withdrawal of the same long amount restores the balance, overflow or not |
| BankAccount.DetectOverdrawn | akka-sample-persistence-dc-java/src/main/java/sample/persistence/res/bank/BankAccount.java:153-166 | AlertOverdrawn(balance) is produced iff the event is concurrent, from "eu-central", outside recovery and the balance is negative |
| BankAccount.SelfMessages | akka-sample-persistence-dc-java/src/main/java/sample/persistence/res/bank/BankAccount.java:137-166 | a Withdrawn event always runs the overdraft detection on the new state and sends its alert if any; no other event sends anything |
| BankAccount.AlertIsNeverHandled | akka-sample-persistence-dc-java/src/main/java/sample/persistence/res/bank/BankAccount.java:121-134 | the alert sent to self matches no command handler case |
| ReplicatedThumbsUpCounter.State.Add | akka-sample-persistence-dc-java/src/main/java/sample/persistence/res/counter/ThumbsUpCounter.java:127-132 | the users are the old users plus the new one; adding a present user changes nothing; the count grows by one exactly for a new user |
| ReplicatedThumbsUpCounter.HandleCommand | akka-sample-persistence-dc-java/src/main/java/sample/persistence/res/counter/ThumbsUpCounter.java:43-55 | GiveThumbsUp persists GaveThumbsUp and replies the count after it; GetCount and GetUsers reply with no event |
| ReplicatedThumbsUpCounter.UserIds | akka-sample-persistence-dc-java/src/main/java/sample/persistence/res/counter/ThumbsUpCounter.java:58-64 | the set holds exactly the users named by the events |
| ReplicatedThumbsUpCounter.ReplayIsUnion | akka-sample-persistence-dc-java/src/main/java/sample/persistence/res/counter/ThumbsUpCounter.java:58-64 | replaying events gives the starting users united with all users in the events, whatever their order |
| ReplicatedThumbsUpCounter.CountNeverDecreases | akka-sample-persistence-dc-java/src/main/java/sample/persistence/res/counter/ThumbsUpCounter.java:58-64 | the user set only grows and the count never decreases |
| MultiDcThumbsUpCounter.State.Add | akka-sample-persistence-dc-java/src/main/java/sample/persistence/multidc/ThumbsUpCounter.java:152-169 | users ∪ {u}, unchanged for a present user |
| MultiDcThumbsUpCounter.HandleCommand | akka-sample-persistence-dc-java/src/main/java/sample/persistence/multidc/ThumbsUpCounter.java:24-38 | GiveThumbsUp persists GaveThumbsUp and replies the new count; GetCount and GetUsers reply with no event |
| MultiDcThumbsUpCounter.GiveThumbsUpIsIdempotent | akka-sample-persistence-dc-java/src/main/java/sample/persistence/multidc/ThumbsUpCounter.java:24-47 | applying a thumbs-up and giving the same one again leaves the count the same |
| MultiDcThumbsUpCounter.EntityId | akka-sample-persistence-dc-java/src/main/java/sample/persistence/multidc/ThumbsUpCounter.java:54-63 | a command gives its resource id, a speculative event its entity id, anything else null |
| MultiDcThumbsUpCounter.ShardIdInRange | akka-sample-persistence-dc-java/src/main/java/sample/persistence/multidc/ThumbsUpCounter.java:70-73 | for every hash except Integer.MIN_VALUE the shard id is a decimal in [0, 1000) |
| MultiDcThumbsUpCounter.ShardIdOfMinValueHash | akka-sample-persistence-dc-java/src/main/java/sample/persistence/multidc/ThumbsUpCounter.java:70-73 | an id hashing to Integer.MIN_VALUE gets shard "-648" |
| MultiDcThumbsUpCounter.PolygenelubricantsHashesToMinValue | akka-sample-persistence-dc-java/src/main/java/sample/persistence/multidc/ThumbsUpCounter.java:70-73 | "polygenelubricants" hashes to Integer.MIN_VALUE and so lands in shard "-648" |
| MultiDcThumbsUpCounter.ShardIdIntended | akka-sample-persistence-dc-java/src/main/java/sample/persistence/multidc/ThumbsUpCounter.java:70-73 | the shard id is always a decimal in [0, 1000) |
| MultiDcThumbsUpCounter.ShardIdIntendedAgrees | akka-sample-persistence-dc-java/src/main/java/sample/persistence/multidc/ThumbsUpCounter.java:70-73 | it agrees with the code as written for every hash but Integer.MIN_VALUE |
| MultiDcThumbsUpCounter.ShardOf | akka-sample-persistence-dc-java/src/main/java/sample/persistence/multidc/ThumbsUpCounter.java:75-86 | commands, StartEntity and speculative events are routed by the shard of their entity id; other messages get null |
| MultiDcThumbsUpCounter.SameEntitySameShard | akka-sample-persistence-dc-java/src/main/java/sample/persistence/multidc/ThumbsUpCounter.java:54-86 | two messages with the same entity id get the same shard |
| JavaLang.HashIsWrappedPolynomial | akka-sample-persistence-dc-java/src/main/java/sample/persistence/multidc/ThumbsUpCounter.java:72 | hashCode, wrapped at every step, is the exact polynomial hash reduced to 32 bits |
| JavaLang.Wrap32 | akka-sample-persistence-dc-java/src/main/java/sample/persistence/multidc/ThumbsUpCounter.java:72 | int arithmetic: the result is an int congruent to the exact value modulo 2^32, and the exact value itself when it fits |
| JavaLang.Wrap64 | akka-sample-persistence-dc-java/src/main/java/sample/persistence/res/bank/BankAccount.java:96-101 | long arithmetic: the result is a long congruent to the exact value modulo 2^64, and the exact value itself when it fits |
| JavaLang.HashCode | akka-sample-persistence-dc-java/src/main/java/sample/persistence/multidc/ThumbsUpCounter.java:72 | String.hashCode is an int (its polynomial form is HashIsWrappedPolynomial) |
| JavaLang.IntToString | akka-sample-persistence-dc-java/src/main/java/sample/persistence/multidc/ThumbsUpCounter.java:72 | Integer.toString is non-empty and starts with '-' exactly for a negative number |
| JavaLang.ParseInt | akka-sample-vavr/src/main/java/sample/vavr/MazeRunner.java:105 | Integer.valueOf succeeds only on a non-empty string and only with an int (its round trip is ParseIntToString) |
| JavaLang.Abs32 | akka-sample-persistence-dc-java/src/main/java/sample/persistence/multidc/ThumbsUpCounter.java:72 | Math.abs is non-negative except at Integer.MIN_VALUE, which it returns unchanged |
| JavaLang.Rem | akka-sample-cqrs-java/src/main/java/sample/cqrs/ShoppingCart.java:263 | Java's % has the sign of the dividend, a magnitude below the divisor's, and differs from the dividend by a multiple of the divisor |
| ThumbsUpSerializer.Manifest | akka-sample-persistence-dc-java/src/main/java/sample/persistence/multidc/ThumbsUpSerializer.java:30-39 | the five counter messages get one of "a"-"e"; anything else is IllegalArgumentException |
| ThumbsUpSerializer.ManifestsAreDistinct | akka-sample-persistence-dc-java/src/main/java/sample/persistence/multidc/ThumbsUpSerializer.java:15-39 | equal manifests mean the same message type: the five manifests are distinct |
| ThumbsUpSerializer.Enumerate | akka-sample-persistence-dc-java/src/main/java/sample/persistence/multidc/ThumbsUpSerializer.java:52-57 | iterating the user set lists each user once |
| ThumbsUpSerializer.ToBinary | akka-sample-persistence-dc-java/src/main/java/sample/persistence/multidc/ThumbsUpSerializer.java:41-81 | succeeds exactly for the types manifest accepts and only writes positive field numbers; otherwise IllegalArgumentException |
| ThumbsUpSerializer.UsersToFields | akka-sample-persistence-dc-java/src/main/java/sample/persistence/multidc/ThumbsUpSerializer.java:52-57 | one repeated users field per user, in order |
| ThumbsUpSerializer.Validate | akka-sample-persistence-dc-java/src/main/java/sample/persistence/multidc/ThumbsUpSerializer.java:94-96 | a parse failure is reported iff some field number is not positive |
| ThumbsUpSerializer.StringField | akka-sample-persistence-dc-java/src/main/java/sample/persistence/multidc/ThumbsUpSerializer.java:99-122 | an absent string field reads as ""; the last occurrence wins |
| ThumbsUpSerializer.RepeatedField | akka-sample-persistence-dc-java/src/main/java/sample/persistence/multidc/ThumbsUpSerializer.java:99-102 | the repeated field holds exactly the values of that field number |
| ThumbsUpSerializer.FromBinary | akka-sample-persistence-dc-java/src/main/java/sample/persistence/multidc/ThumbsUpSerializer.java:83-97 | an unknown manifest or a parse failure is NotSerializableException; a result is a counter message whose manifest is the one given |
| ThumbsUpSerializer.RoundTrip | akka-sample-persistence-dc-java/src/main/java/sample/persistence/multidc/ThumbsUpSerializer.java:41-122 | fromBinary(toBinary(o), manifest(o)) gives back o for every counter message |
| DropNewBuffer.Offer | akka-sample-cluster-client-grpc-java/src/main/java/sample/cluster/client/grpc/ClusterClient.java:153-161 | an element is appended while there is room and dropped when the buffer is full; the buffered elements are kept and the bound holds |
| DropNewBuffer.OfferAllKeepsOldest | akka-sample-cluster-client-grpc-java/src/main/java/sample/cluster/client/grpc/ClusterClient.java:153-161 | offering many elements keeps the buffered ones plus the oldest arrivals that fit |
| ClusterClient.ToReq | akka-sample-cluster-client-grpc-java/src/main/java/sample/cluster/client/grpc/ClusterClient.java:163-193 | Send, SendToAll and Publish become the matching request with path, affinity or topic and the serialized message; anything else is IllegalArgumentException |
| ClusterClient.AskSendReq | akka-sample-cluster-client-grpc-java/src/main/java/sample/cluster/client/grpc/ClusterClient.java:215-228 | the request carries the path and affinity, and its payload decodes back to the message |
| ClusterClient.ClusterClientActor.constructor | akka-sample-cluster-client-grpc-java/src/main/java/sample/cluster/client/grpc/ClusterClient.java:236-237 | no sessions, nothing watched, kill switch running |
| ClusterClient.ClusterClientActor.OnCommand | akka-sample-cluster-client-grpc-java/src/main/java/sample/cluster/client/grpc/ClusterClient.java:267-277 | a sender without a session gets exactly one new session stored under it; a known sender reuses its session; the command is offered to that session's drop-new buffer; no other session changes; the sender is watched |
| ClusterClient.ClusterClientActor.OnTerminated | akka-sample-cluster-client-grpc-java/src/main/java/sample/cluster/client/grpc/ClusterClient.java:279-281 | removes only that actor's entry |
| ClusterClient.ClusterClientActor.Receive | akka-sample-cluster-client-grpc-java/src/main/java/sample/cluster/client/grpc/ClusterClient.java:252-265 | SendAsk is matched first and gives an ask without touching the registry or the watch set; another command from a known sender is offered to that sender's session buffer, one from a new sender opens a session at the end holding the offered command and registers it; every other session stays as it was and the sender is watched; Terminated removes the entry and keeps sessions and watch set |
| ClusterClient.ClusterClientActor.Emit | akka-sample-cluster-client-grpc-java/src/main/java/sample/cluster/client/grpc/ClusterClient.java:153-193 | a session emits its oldest buffered command, mapped by ToReq, unless the kill switch is shut, the buffer is empty or the session has failed; a command ToReq rejects fails the session, so it emits nothing afterwards and the sender's later commands are lost |
| ClusterClient.ClusterClientActor.OnReply | akka-sample-cluster-client-grpc-java/src/main/java/sample/cluster/client/grpc/ClusterClient.java:201-204 | a reply is decoded and delivered to the session's original sender |
| ClusterClient.ClusterClientActor.PostStop | akka-sample-cluster-client-grpc-java/src/main/java/sample/cluster/client/grpc/ClusterClient.java:246-250 | shuts the shared kill switch and changes nothing else |
| ClusterClient.AtMostOneSenderPerSession | akka-sample-cluster-client-grpc-java/src/main/java/sample/cluster/client/grpc/ClusterClient.java:267-273 | two different senders never share a session |
| ClusterClientReceptionist.Dispatch | akka-sample-cluster-client-grpc-java/src/main/java/sample/cluster/client/grpc/ClusterClientReceptionistGrpcImpl.java:49-71 | SEND, SENDTOALL and PUBLISH become mediator Send, SendToAll and Publish with the session's response ref as sender; an unset request is IllegalArgumentException |
| ClusterClientReceptionist.DispatchAll | akka-sample-cluster-client-grpc-java/src/main/java/sample/cluster/client/grpc/ClusterClientReceptionistGrpcImpl.java:49-71 | a session's requests reach the mediator in order up to the first one Dispatch rejects; that failure ends the stream and no later request is dispatched |
| ClusterClientReceptionist.EncodeRsp | akka-sample-cluster-client-grpc-java/src/main/java/sample/cluster/client/grpc/ClusterClientReceptionistGrpcImpl.java:44-47 | the Rsp payload decodes back to the message |
| ClusterClientReceptionist.OfferResponse | akka-sample-cluster-client-grpc-java/src/main/java/sample/cluster/client/grpc/ClusterClientReceptionistGrpcImpl.java:36-47 | responses are encoded into a drop-new buffer of bounded size |
| ClusterClientReceptionist.AskSend | akka-sample-cluster-client-grpc-java/src/main/java/sample/cluster/client/grpc/ClusterClientReceptionistGrpcImpl.java:85-103 | a decoding failure gives a failed future with that error; otherwise the mediator is asked Send(path, msg, localAffinity) with the configured timeout |
| ClusterClientReceptionist.SessionCommandReachesMediator | akka-sample-cluster-client-grpc-java/src/main/java/sample/cluster/client/grpc/ClusterClientReceptionistGrpcImpl.java:49-68 | a client command mapped to a request reaches the mediator as the same Send, SendToAll or Publish, with path, affinity and message unchanged |
| ClusterClientReceptionist.SendAskReachesMediator | akka-sample-cluster-client-grpc-java/src/main/java/sample/cluster/client/grpc/ClusterClientReceptionistGrpcImpl.java:85-103 | a SendAsk's request is asked of the mediator as Send with its own path, message and affinity |
| ClusterClientReceptionist.AskAnswerRoundTrip | akka-sample-cluster-client-grpc-java/src/main/java/sample/cluster/client/grpc/ClusterClient.java:215-228 | the answer wrapped by the receptionist is what the client's ask completes with |
| Chopstick.ChopstickAnswer.GetChopstick | akka-sample-fsm-java/src/main/java/sample/typed/Messages.java:54-57 | returns the chopstick the answer was built with |
| Chopstick.AnswerPredicates | akka-sample-fsm-java/src/main/java/sample/Chopstick.java:31-98 | an answer is taken or busy, never both; isTakenBy(c) iff taken with chopstick c; isBusy(c) iff busy with chopstick c (the typed answers of sample/typed/Messages.java:27-92 are the same predicates) |
| Chopstick.Receive | akka-sample-fsm-java/src/main/java/sample/Chopstick.java:106-124 | available + Take(h) answers Taken to h and is taken by h; taken + Take answers Busy and keeps the holder; Put by the holder frees it; a Put by anyone else, or on an available chopstick, is unhandled and changes nothing (the typed chopstick, sample/typed/DiningHakkersTyped.java:22-42, is the same machine) |
| Chopstick.TakenAndPutAlternate | akka-sample-fsm-java/src/main/java/sample/Chopstick.java:106-124 | from available, the Taken answers number the handled Puts plus one while taken: no second Taken before the holder's Put |
| Chopstick.TakenGoesToHolder | akka-sample-fsm-java/src/main/java/sample/Chopstick.java:117-123 | Taken is only answered from available to a Take, and the chopstick is then held by the one told |
| Hakker.Receive | akka-sample-fsm-java/src/main/java/sample/Hakker.java:46-149 | each state's transitions: waiting + Think thinks; thinking + Eat takes both chopsticks; hungry tries Taken(left), Taken(right), then Busy in that order; waitForOtherChopstick eats on Taken of the awaited one and puts back the taken one on its Busy; eating + Think puts both back; firstChopstickDenied puts back a Taken one and thinks; any other message is unhandled (the typed hakker, sample/typed/DiningHakkersTyped.java:47-173, is the same machine) |
| Hakker.ReceiveKeepsHolding | akka-sample-fsm-java/src/main/java/sample/Hakker.java:46-149 | one message keeps the invariant linking the hakker's state to the chopsticks it holds |
| Hakker.EatsOnlyWithBothChopsticks | akka-sample-fsm-java/src/main/java/sample/Hakker.java:72-121 | from waiting, after any messages, an eating hakker holds exactly its left and right chopsticks |
| Hakker.EatingOnlyAfterOtherTaken | akka-sample-fsm-java/src/main/java/sample/Hakker.java:89-105 | eating is entered only from waitForOtherChopstick on Taken of the awaited chopstick |
| Hakker.WaitingOnlyAfterFirstTaken | akka-sample-fsm-java/src/main/java/sample/Hakker.java:72-84 | waitForOtherChopstick is entered only from hungry on a Taken of the hakker's left or right chopstick, which it records |
| DiningHakkersTyped.MainBehavior | akka-sample-fsm-java/src/main/java/sample/typed/DiningHakkersTyped.java:175-197 | five chopsticks; hakker i is named, gets chopsticks i and (i+1)%5, and is told one Think |
| DiningHakkersTyped.RingAssignment | akka-sample-fsm-java/src/main/java/sample/typed/DiningHakkersTyped.java:187-192 | every chopstick is the left of exactly one hakker and the right of exactly one, and no hakker has the same chopstick twice |
| DiningHakkersTyped.NeighboursShare | akka-sample-fsm-java/src/main/java/sample/typed/DiningHakkersTyped.java:187-192 | a hakker's right chopstick is its neighbour's left one |
| DiningHakkersTyped.OneThinkEach | akka-sample-fsm-java/src/main/java/sample/typed/DiningHakkersTyped.java:194 | each hakker receives exactly one start message, and it is Think |
| MazeTranslation.RandomOrder | akka-sample-vavr/src/main/java/sample/vavr/Maze.java:35-43 | the shuffled order is a permutation of TOP, RIGHT, DOWN, LEFT |
| MazeTranslation.OrderHasAll | akka-sample-vavr/src/main/java/sample/vavr/Maze.java:35-43 | such an order has four entries and contains every translation |
| MazeTranslation.Translate | akka-sample-javaslang/src/main/java/sample/javaslang/Coords.java:15-22 | a translation moves to one of the four neighbours at distance 1 |
| MazeTranslation.TranslateInverse | akka-sample-javaslang/src/main/java/sample/javaslang/Coords.java:15-22 | the opposite translation moves back, and different translations reach different cells |
| JavaslangCoords.Translate | akka-sample-javaslang/src/main/java/sample/javaslang/Coords.java:15-22 | RIGHT matches no case (a MatchError) and the other three agree with the four-way translation |
| JavaslangCoords.RightIsUnreachable | akka-sample-javaslang/src/main/java/sample/javaslang/Coords.java:15-22 | no translation yields (x+1, y) |
| Maze.Maze.Step | akka-sample-vavr/src/main/java/sample/vavr/Maze.java:28-33 | a neighbour is the translated cell; only the javaslang stub's translation fails, and only on RIGHT |
| Maze.Maze.TranslateAll | akka-sample-vavr/src/main/java/sample/vavr/Maze.java:28-33 | all four neighbours are computed in order, and the whole fails iff one translation fails |
| Maze.Maze.FirstLegal | akka-sample-vavr/src/main/java/sample/vavr/Maze.java:28-33 | the first legal cell among the candidates, in their order, or None iff none is legal |
| Maze.Maze.LegalFrom | akka-sample-vavr/src/main/java/sample/vavr/Maze.java:28-33 | Some of the first legal neighbour in the given order of translations, or None only if no neighbour in the order is legal |
| Maze.FinishIsLegal | akka-sample-vavr/src/main/java/sample/vavr/Maze.java:13-26 | the finish flag counts as legal |
| Maze.LegalFromFindsAnyLegalNeighbour | akka-sample-vavr/src/main/java/sample/vavr/Maze.java:28-33 | with a full order, None iff none of the four neighbours is legal, otherwise Some of a legal neighbour |
| Maze.StubLegalFromAlwaysThrows | akka-sample-javaslang/src/main/java/sample/javaslang/Maze.java:27-32 | the javaslang stub's legalFrom always reaches the RIGHT translation and fails |
| Minion.Step | akka-sample-vavr/src/main/java/sample/vavr/Minion.java:30-57 | a stopped minion does nothing; a legal move records the previous position and moves, and calls legalFrom before the finish test: if it throws, the minion fails even at the finish; otherwise it sends Stuck at the finish and Move(legalFrom(cell)) elsewhere; an illegal or empty move sends Stuck; Stuck reports Stopped(pos, visited) to the parent and stops |
| Minion.NextIsTestable | akka-sample-vavr/src/main/java/sample/vavr/Minion.java:37-40 | the next command sent to self is again one the maze can test |
| Minion.StepExtendsPath | akka-sample-vavr/src/main/java/sample/vavr/Minion.java:32-40 | one step keeps visited + pos a path of legal adjacent cells |
| Minion.WalkIsAPath | akka-sample-vavr/src/main/java/sample/vavr/Minion.java:30-57 | a whole walk leaves visited + pos a path of legal adjacent cells |
| Minion.StubMoveFails | akka-sample-javaslang/src/main/java/sample/javaslang/Minion.java:32-41 | with the javaslang stub maze every Move to a cell throws from the eager legalFrom, so no Stuck is sent |
| Minion.StubWalkNeverReports | akka-sample-javaslang/src/main/java/sample/javaslang/Minion.java:32-41 | so a javaslang walk ends at its first cell without the minion stopping, and no report reaches the master |
| Minion.MinionActor.constructor | akka-sample-vavr/src/main/java/sample/vavr/Minion.java:23-24 | no position, nothing visited, not stopped |
| Minion.MinionActor.OnReceive | akka-sample-vavr/src/main/java/sample/vavr/Minion.java:30-57 | the actor's fields change exactly as Step says and the reaction is Step's, legalFrom's failure included (the javaslang minion is the same actor over its stub maze) |
| Master.MasterActor.constructor | akka-sample-vavr/src/main/java/sample/vavr/Master.java:17 | results start empty |
| Master.MasterActor.OnStart | akka-sample-vavr/src/main/java/sample/vavr/Master.java:25-31 | n minions (none for n <= 0), each sent Move(Some(Coords(1,1))) |
| Master.MasterActor.OnStopped | akka-sample-vavr/src/main/java/sample/vavr/Master.java:32-34 | the report is prepended to results |
| Master.MasterActor.OnGetResults | akka-sample-vavr/src/main/java/sample/vavr/Master.java:35-37 | replies the current results |
| Master.MasterActor.OnReceive | akka-sample-vavr/src/main/java/sample/vavr/Master.java:23-39 | Start spawns max(count, 0) minions and sends each Move(Some(1, 1)); Stopped prepends; GetResults replies results unchanged (the javaslang master is the same actor) |
| MazeRunner.TryParseInt | akka-sample-vavr/src/main/java/sample/vavr/MazeRunner.java:104-106 | a parsed count is an int |
| MazeRunner.ReplaceAllWithoutMatch | akka-sample-vavr/src/main/java/sample/vavr/MazeRunner.java:105 | a string that lacks the first character of the target ("s" of "spawn ") is left unchanged by replaceAll |
| MazeRunner.TryParseIntReadsCount | akka-sample-vavr/src/main/java/sample/vavr/MazeRunner.java:104-106 | "spawn n" and "n" both read as n for every int n |
| JavaLang.ParseIntToString | akka-sample-vavr/src/main/java/sample/vavr/MazeRunner.java:105 | Integer.valueOf(Integer.toString(n)) == n for every int n |
| MazeRunner.TryParseIntRejectsNonDigit | akka-sample-vavr/src/main/java/sample/vavr/MazeRunner.java:104-106 | input that keeps a non-digit after the sign gives None |
| MazeRunner.CountInto | akka-sample-vavr/src/main/java/sample/vavr/MazeRunner.java:108-113 | each cell's count grows by its number of occurrences; the keys are the old ones plus the new cells |
| MazeRunner.HeatMapValues | akka-sample-vavr/src/main/java/sample/vavr/MazeRunner.java:108-113 | the keys are exactly the visited cells and each value is that cell's number of occurrences over all minions, at least 1 |
| MazeRunner.CountIntoSum | akka-sample-vavr/src/main/java/sample/vavr/MazeRunner.java:108-113 | counting cells adds their number to the sum of the heat values |
| MazeRunner.HeatAddsUpToVisits | akka-sample-vavr/src/main/java/sample/vavr/MazeRunner.java:108-113 | the heat values sum to the total length of all visited lists |
| MazeRunner.Hottest | akka-sample-vavr/src/main/java/sample/vavr/MazeRunner.java:116 | the largest heat value, reached by some cell, and 0 for an empty map |
| MazeRunner.TileIndex | akka-sample-vavr/src/main/java/sample/vavr/MazeRunner.java:117 | for 1 <= heat <= hottest the index (heat*4 - 1)/hottest is in 0..3, and 3 for the hottest |
| MazeRunner.TileIndexMonotone | akka-sample-vavr/src/main/java/sample/vavr/MazeRunner.java:117 | a hotter cell never gets a lower tile index |
| MazeRunner.HeatMapTiles | akka-sample-vavr/src/main/java/sample/vavr/MazeRunner.java:115-119 | the key set is kept, each cell gets the tile of its index, and the hottest gets '░' |
| MazeRunner.HeatMap | akka-sample-vavr/src/main/java/sample/vavr/MazeRunner.java:121-131 | one row per maze row with that row's length; a cell is its tile, or '█' when it has none |
| PersistentActorExample.ExampleState.constructor | akka-sample-persistence-java/src/main/java/sample/persistence/PersistentActorExample.java:50-56 | no events |
| PersistentActorExample.ExampleState.Copy | akka-sample-persistence-java/src/main/java/sample/persistence/PersistentActorExample.java:58-60 | a fresh object with the same events |
| PersistentActorExample.ExampleState.Update | akka-sample-persistence-java/src/main/java/sample/persistence/PersistentActorExample.java:62-64 | appends the event's data at the end |
| PersistentActorExample.ExampleState.Size | akka-sample-persistence-java/src/main/java/sample/persistence/PersistentActorExample.java:66-68 | the number of events |
| PersistentActorExample.EventData | akka-sample-persistence-java/src/main/java/sample/persistence/PersistentActorExample.java:99 | the data, a dash, then the decimal count |
| PersistentActorExample.RunCommands | akka-sample-persistence-java/src/main/java/sample/persistence/PersistentActorExample.java:96-105 | one event per command |
| PersistentActorExample.KthEventIsNumberedK | akka-sample-persistence-java/src/main/java/sample/persistence/PersistentActorExample.java:80-105 | from empty, the k-th command (0-based) yields event data d + "-" + k |
| PersistentActorExample.ExamplePersistentActor.constructor | akka-sample-persistence-java/src/main/java/sample/persistence/PersistentActorExample.java:78 | a fresh empty state |
| PersistentActorExample.ExamplePersistentActor.NumEvents | akka-sample-persistence-java/src/main/java/sample/persistence/PersistentActorExample.java:80-82 | the state's size |
| PersistentActorExample.ExamplePersistentActor.ReceiveRecover | akka-sample-persistence-java/src/main/java/sample/persistence/PersistentActorExample.java:88-93 | a recovered Evt is appended; a SnapshotOffer replaces the whole state |
| PersistentActorExample.ExamplePersistentActor.Receive | akka-sample-persistence-java/src/main/java/sample/persistence/PersistentActorExample.java:96-109 | Cmd(d) appends and publishes Evt(d + "-" + n) with n the count before; "snap" saves a fresh copy and "print" prints, neither changing the state; anything else is unhandled |
| PersistentActorExample.SnapshotIsIndependent | akka-sample-persistence-java/src/main/java/sample/persistence/PersistentActorExample.java:58-60 | a saved snapshot keeps its events when the actor's state is updated afterwards |

## Left out

- I/O, logging, the REPL of the maze runner, HTTP routes, timers, and the
  wall clock are left out. `Instant.now()` and the current time are inputs.
  Random choices are inputs: the picks of the shuffle. The javaslang
  `Translation.getRandom` is not modelled, because nothing in the maze
  runner calls it.
- Akka Streams, gRPC and futures plumbing in the gateway is left out. This
  covers:
  - `Source.actorRef` materialisation and its direct hand-off on demand,
    so a buffer size of 0 is not modelled;
  - `watch`, `recoverWithRetries`, `runForeach` and `whenComplete`;
  - `Patterns.pipe`.

  A session is a drop-new buffer, its sender and whether its stream has
  failed. A session future is taken as completed, and the order of
  `thenAccept` callbacks is not modelled.
- The model keeps a terminated sender in `watched`. Akka drops the watch
  itself when it delivers Terminated; the difference is not observable.
- Payload serialization (ClusterClientSerialization.java) is not part of
  this model. It is a pair of functions with an assumed round trip. A
  failing `serialize`, and a checked exception escaping `askSend`'s catch,
  are not modelled.
- The protobuf messages of the counter (ThumbsUpMessages) are not part of
  this model. The wire format is abstract: a field is a field number and a
  string. Field numbers 1 and 2 are assumed, and a field number <= 0 stands
  for a parse failure.
- vavr's Coords.java is not part of this model. It is assumed to be the
  four-way translation with value equality.
- Supervision is not modelled. A `Failed` reaction is the exception
  escaping `onReceive`; Akka then drops the message and restarts the
  minion with fresh fields. The model keeps the fields as they were when
  the exception was thrown.
- The minion's `visited::contains` case (Minion.java:43) is merged with
  the other Stuck-making Move cases. It is tried only after the
  `isLegal` case has failed, and it sends Stuck just as the cases after
  it do, so merging changes no outcome in either sample.
- Messages other than Move and Stuck to the minion, and other than
  Start, Stopped and GetResults to the master, are not modelled. Java's
  `Match(message).of(...)` has no default case in either actor, so such a
  message throws a MatchError out of `onReceive`. A Start with a null
  count is not modelled either. Spawning is modelled by indices, and the
  chopstick and hakker references are indices too.
- The Java `assert`s in `AuctionState.withNewHighestBid` / `withTooLowBid`
  are not modelled: assertions are off by default in the JVM.
- `Maze.Maze.LegalFrom`: requires an interior cell. Java throws
  IndexOutOfBounds at the border; a walled maze never gets there.
- `MazeRunner.HeatMapTiles`: int overflow of `heat*4` is not modelled. It
  needs more than 2^29 visits of one cell.
- `PersistentActorExample.ExamplePersistentActor.NumEvents`: returns an
  unbounded count, not an int.
- `JavaLang.ParseInt`: accepts ASCII digits only, where `Integer.valueOf`
  accepts every Unicode decimal digit.
- `JavaLang.Less`: compares characters, not UTF-16 code units. The two
  orders differ only between a supplementary character and a BMP character
  above U+D7FF.
- The `Print` effect stands for `println` of the events.
- `Unhandled` has two meanings. The auction's Close and OfferBid return an
  explicit `Effect().unhandled()`. Elsewhere (the bank's AlertOverdrawn,
  the durable-state cart's MutateState and GetState once checked out) no
  case of the command handler builder matches. Akka then fails the entity
  with a MatchError; that library behaviour is not modelled.
- The two shopping carts of the CQRS and the plain persistence samples, and
  the two thumbs-up counters, are separate modules, one per source file.
  The carts reply differently (StatusReply against Accepted/Rejected). The
  counters sit on different APIs: replicated event sourcing, and the
  multi-data-center sample with its own extractor and serializer.
- Code and comment disagree at ClusterClient.java:53-57. The doc comment
  says old messages are dropped when the buffer is full, but the code uses
  `OverflowStrategy.dropNew`. The model follows the code: new arrivals are
  dropped.

## Findings

| source | as written | input that shows it | evidently intended | confidence | as-written member | corrected member |
|---|---|---|---|---|---|---|
| akka-sample-javaslang/src/main/java/sample/javaslang/Coords.java:15-22 | the fourth case repeats DOWN, so RIGHT matches no case and `legalFrom` throws a MatchError | any `legalFrom` call: its order always contains RIGHT; the minion calls it on every legal move, so a javaslang minion throws on its first move and the master never gets a report | the fourth case is RIGHT → (x+1, y) | high, not executed | JavaslangCoords.RightIsUnreachable | MazeTranslation.TranslateInverse |
| akka-sample-persistence-dc-java/src/main/java/sample/persistence/res/bank/BankAccount.java:124-130 | "insufficient funds" is replied when `balance - amount > 0`, so covered withdrawals are refused and overdrafts accepted | balance 100, withdraw 10 is refused; balance 0, withdraw 10 gives -10 | refuse when `balance - amount < 0` | medium (the sample later detects overdrafts on purpose), not executed | BankAccount.WithdrawGuardIsReversed | BankAccount.IntendedWithdrawNeverOverdraws |
| akka-sample-persistence-dc-java/src/main/java/sample/persistence/multidc/ThumbsUpCounter.java:70-73 | `Math.abs(hashCode) % 1000` is negative when the hash is Integer.MIN_VALUE | entity id "polygenelubricants" gives shard "-648" | a shard id in [0, 1000) for every entity id | high, not executed | MultiDcThumbsUpCounter.PolygenelubricantsHashesToMinValue | MultiDcThumbsUpCounter.ShardIdIntended |
