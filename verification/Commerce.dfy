// The purchase escrow (Commerce/src/lib.rs): buyers pay into the contract, and
// every purchase goes through a state machine at whose end it is paid out once.
module Commerce {
  import opened Wrappers
  import opened Addresses
  import opened ByteCodecs

  datatype PurchaseState = Requested | Accepted | Rejected | Delivered | Completed | Dispute | Counter | Failed

  datatype Item = Item(itemValue: nat, description: string)

  datatype Purchase = Purchase(
    commit: nat, timestamp: nat, item: nat, sellerBit: bool, notes: string, state: PurchaseState, buyer: AccountAddress)

  datatype Error =
    MatchingAccountError | StateError | MatchingItemValueError | TimestampError | CommitError | Rejection | Trapped

  // What has been paid in and out for one purchase.
  datatype Entry = Entry(paidIn: nat, paidOut: nat)

  // A payment that has been made for a purchase.
  datatype Payout = Payout(id: nat, payment: Payment)

  // The state of the contract and its balance. The last two fields are not part of
  // the contract: they keep the books, and list all payments.
  datatype State = State(
    vendor: AccountAddress, timeout: nat, contracts: seq<Purchase>, listings: seq<Item>, balance: nat,
    books: seq<Entry>, paid: seq<Payout>)

  // ----- 64-bit arithmetic -----

  function Times(k: nat, v: nat): nat {
    (k * v) % U64_RANGE
  }

  function TsFix(t: nat): nat {
    (t + 10) % U64_RANGE
  }

  // The guard of both timeouts. It does not look at the clock.
  predicate TimeoutPassed(timestamp: nat, timeout: nat) {
    TsFix(timestamp) > (timestamp + timeout) % U64_RANGE
  }

  // When the timeouts can be called: if the configured timeout is below ten
  // milliseconds, or the second sum wraps around; and if the first sum wraps
  // around, which is up to the buyer, only if both are the case.
  lemma TimeoutIff(timestamp: nat, timeout: nat)
    requires timestamp < U64_RANGE && timeout < U64_RANGE
    ensures TimeoutPassed(timestamp, timeout) <==>
            if timestamp + 10 < U64_RANGE then timeout < 10 || timestamp + timeout >= U64_RANGE
            else timeout < 10 && timestamp + timeout >= U64_RANGE
  {
  }

  // ----- calls -----

  datatype Call =
    | RequestPurchase(sender: Address, info: string, timestamp: nat, item: nat, amount: nat)
    | BuyerAbort(sender: Address, id: nat, item: nat)
    | ConfirmDelivery(sender: Address, id: nat)
    | DisputeDelivery(sender: Address, id: nat, commitment: nat, amount: nat)
    | BuyerCallTimeout(sender: Address, id: nat)
    | OpenCommitment(sender: Address, id: nat, buyerBit: bool)
    | SellerCallTimeout(sender: Address, id: nat)
    | RejectContract(sender: Address, id: nat)
    | AcceptContract(sender: Address, id: nat)
    | ItemWasDelivered(sender: Address, id: nat)
    | ForfeitDispute(sender: Address, id: nat)
    | CounterDispute(sender: Address, id: nat, randomBit: bool, amount: nat)
    | UpdateListings(sender: Address, itemId: nat, description: string, value: nat)

  // What an accepted call on a purchase does: the changed purchase, the money
  // that came with the call, and the transfer that the contract asks for.
  datatype Effect = Effect(purchase: Purchase, received: nat, payment: Option<Payment>)

  predicate OnPurchase(call: Call) {
    !call.RequestPurchase? && !call.UpdateListings?
  }

  // The price that a call on a purchase looks up; None is a trap. Abort takes the
  // item from its parameter. Accepting and delivering look nothing up.
  function PriceFor(s: State, p: Purchase, call: Call): Option<nat> {
    if call.AcceptContract? || call.ItemWasDelivered? then Some(0)
    else
      var item := if call.BuyerAbort? then call.item else p.item;
      if item < |s.listings| then Some(s.listings[item].itemValue) else None
  }

  function Act(s: State, p: Purchase, price: nat, call: Call): Result<Effect, Error>
    requires OnPurchase(call)
  {
    match call
    case BuyerAbort(sender, _, _) =>
      if sender != Account(p.buyer) then Err(MatchingAccountError)
      else if p.state != Requested then Err(StateError)
      else Ok(Effect(p.(state := Failed), 0, Some(Payment(p.buyer, price))))
    case ConfirmDelivery(sender, _) =>
      if sender != Account(p.buyer) then Err(MatchingAccountError)
      else if p.state != Delivered then Err(StateError)
      else Ok(Effect(p.(state := Completed), 0, Some(Payment(s.vendor, price))))
    case DisputeDelivery(sender, _, commitment, amount) =>
      if sender != Account(p.buyer) then Err(MatchingAccountError)
      else if p.state != Delivered then Err(StateError)
      else if price != amount then Err(MatchingItemValueError)
      else Ok(Effect(p.(state := Dispute, commit := commitment, timestamp := TsFix(p.timestamp)), amount, None))
    case BuyerCallTimeout(sender, _) =>
      if sender != Account(p.buyer) then Err(MatchingAccountError)
      else if p.state != Dispute && p.state != Accepted then Err(StateError)
      else if !TimeoutPassed(p.timestamp, s.timeout) then Err(TimestampError)
      else Ok(Effect(p.(state := Failed), 0,
          Some(Payment(p.buyer, if p.state == Dispute then Times(2, price) else price))))
    case OpenCommitment(sender, _, buyerBit) =>
      if sender != Account(p.buyer) then Err(StateError)
      else if p.state != Counter then Err(StateError)
      else if p.commit != 0 then Err(CommitError)
      else Ok(Effect(p.(state := Failed), 0,
          Some(Payment(if p.sellerBit != buyerBit then s.vendor else p.buyer, Times(2, price)))))
    case SellerCallTimeout(sender, _) =>
      if sender != Account(s.vendor) then Err(MatchingAccountError)
      else if p.state != Delivered && p.state != Counter then Err(StateError)
      else if !TimeoutPassed(p.timestamp, s.timeout) then Err(TimestampError)
      else Ok(Effect(p.(state := Completed), 0, Some(Payment(s.vendor, price))))
    case RejectContract(sender, _) =>
      if sender != Account(s.vendor) then Err(MatchingAccountError)
      else if p.state != Requested then Err(StateError)
      else Ok(Effect(p.(state := Rejected), 0, Some(Payment(p.buyer, price))))
    case AcceptContract(sender, _) =>
      if sender != Account(s.vendor) then Err(MatchingAccountError)
      else if p.state != Requested then Err(StateError)
      else Ok(Effect(p.(state := Accepted, timestamp := TsFix(p.timestamp)), 0, None))
    case ItemWasDelivered(sender, _) =>
      if sender != Account(s.vendor) then Err(MatchingAccountError)
      else if p.state != Accepted then Err(StateError)
      else Ok(Effect(p.(state := Delivered, timestamp := TsFix(p.timestamp)), 0, None))
    case ForfeitDispute(sender, _) =>
      if sender != Account(s.vendor) then Err(MatchingAccountError)
      else if p.state != Dispute then Err(StateError)
      else Ok(Effect(p.(state := Failed), 0, Some(Payment(p.buyer, Times(2, price)))))
    case CounterDispute(sender, _, randomBit, amount) =>
      if sender != Account(s.vendor) then Err(MatchingAccountError)
      else if p.state != Dispute then Err(StateError)
      else if amount != price then Err(MatchingItemValueError)
      else Ok(Effect(p.(state := Counter, timestamp := TsFix(p.timestamp), sellerBit := randomBit), amount, None))
  }

  // The result of a transfer is ignored: without enough money nothing is paid.
  function PaidOut(balance: nat, payment: Option<Payment>): (paid: nat)
    ensures paid <= balance
  {
    if payment.Some? && payment.value.amount <= balance then payment.value.amount else 0
  }

  function PaidFor(balance: nat, id: nat, payment: Option<Payment>): seq<Payout> {
    if payment.Some? && payment.value.amount <= balance then [Payout(id, payment.value)] else []
  }

  function Apply(s: State, id: nat, e: Effect): State
    requires id < |s.contracts| && |s.books| == |s.contracts|
  {
    var available := s.balance + e.received;
    var paid := PaidOut(available, e.payment);
    var entry := s.books[id];
    s.(contracts := s.contracts[id := e.purchase], balance := available - paid,
       books := s.books[id := Entry(entry.paidIn + e.received, entry.paidOut + paid)],
       paid := s.paid + PaidFor(available, id, e.payment))
  }

  function Step(s: State, call: Call): Result<State, Error>
    requires |s.books| == |s.contracts|
  {
    match call
    case RequestPurchase(sender, info, timestamp, item, amount) =>
      if item >= |s.listings| then Err(Trapped)
      else if amount != s.listings[item].itemValue then Err(Rejection)
      else if sender.Contract? then Err(Rejection)
      else
        Ok(s.(contracts := s.contracts + [Purchase(0, timestamp, 0, false, info, Requested, sender.account)],
              balance := s.balance + amount, books := s.books + [Entry(amount, 0)]))
    case UpdateListings(sender, itemId, description, value) =>
      if sender != Account(s.vendor) then Err(MatchingAccountError)
      else if |s.contracts| != 0 then Err(StateError)
      else if itemId >= |s.listings| then Err(Trapped)
      else Ok(s.(listings := s.listings[itemId := Item(Times(1_000_000_000, value), description)]))
    case _ =>
      if call.id >= |s.contracts| then Err(Trapped)
      else
        match PriceFor(s, s.contracts[call.id], call)
        case None => Err(Trapped)
        case Some(price) =>
          match Act(s, s.contracts[call.id], price, call)
          case Err(e) => Err(e)
          case Ok(effect) => Ok(Apply(s, call.id, effect))
  }

  // ----- the contract as an object -----

  class CommerceContract {
    const vendor: AccountAddress
    const timeout: nat
    var contracts: seq<Purchase>
    var listings: seq<Item>
    var balance: nat
    ghost var books: seq<Entry>
    ghost var paid: seq<Payout>

    ghost predicate Valid()
      reads this
    {
      |books| == |contracts|
    }

    ghost function Value(): State
      reads this
    {
      State(vendor, timeout, contracts, listings, balance, books, paid)
    }

    // What an entrypoint must have done.
    ghost predicate Did(step: Result<State, Error>, before: State, r: Result<(), Error>)
      reads this
    {
      match step
      case Ok(after) => r == Ok(()) && Value() == after
      case Err(e) => r == Err(e) && Value() == before
    }

    constructor (vendor: AccountAddress, timeout: nat, listings: seq<Item>)
      ensures Valid() && Value() == State(vendor, timeout, [], listings, 0, [], [])
    {
      this.vendor := vendor;
      this.timeout := timeout;
      this.listings := listings;
      contracts := [];
      balance := 0;
      books := [];
      paid := [];
    }

    method InvokeTransfer(to: AccountAddress, amount: nat) returns (ok: bool)
      modifies this`balance
      ensures balance == old(balance) - PaidOut(old(balance), Some(Payment(to, amount)))
    {
      ok := amount <= balance;
      if ok {
        balance := balance - amount;
      }
    }

    // Pays for a purchase, whatever comes of it, and books it.
    method Pay(id: nat, to: AccountAddress, amount: nat)
      requires Valid() && id < |contracts|
      modifies this`balance, this`books, this`paid
      ensures Valid() && balance == old(balance) - PaidOut(old(balance), Some(Payment(to, amount)))
      ensures books
           == old(books)[id := Entry(old(books)[id].paidIn,
                                     old(books)[id].paidOut + PaidOut(old(balance), Some(Payment(to, amount))))]
      ensures paid == old(paid) + PaidFor(old(balance), id, Some(Payment(to, amount)))
    {
      paid := paid + PaidFor(balance, id, Some(Payment(to, amount)));
      books := books[id := Entry(books[id].paidIn, books[id].paidOut + PaidOut(balance, Some(Payment(to, amount))))];
      var _ := InvokeTransfer(to, amount);
    }

    method BuyerRequestPurchase(sender: Address, info: string, timestamp: nat, item: nat, amount: nat)
      returns (r: Result<(), Error>)
      requires Valid()
      modifies this
      ensures Valid()
          && Did(Step(old(Value()), RequestPurchase(sender, info, timestamp, item, amount)), old(Value()), r)
    {
      if item >= |listings| { return Err(Trapped); }
      if amount != listings[item].itemValue { return Err(Rejection); }
      if sender.Contract? { return Err(Rejection); }
      balance := balance + amount;
      contracts := contracts + [Purchase(0, timestamp, 0, false, info, Requested, sender.account)];
      books := books + [Entry(amount, 0)];
      return Ok(());
    }

    method Abort(sender: Address, id: nat, item: nat) returns (r: Result<(), Error>)
      requires Valid()
      modifies this
      ensures Valid() && Did(Step(old(Value()), BuyerAbort(sender, id, item)), old(Value()), r)
    {
      if id >= |contracts| || item >= |listings| { return Err(Trapped); }
      var itemValue, buyer := listings[item].itemValue, contracts[id].buyer;
      if sender != Account(buyer) { return Err(MatchingAccountError); }
      if contracts[id].state != Requested { return Err(StateError); }
      contracts := contracts[id := contracts[id].(state := Failed)];
      Pay(id, buyer, itemValue);
      return Ok(());
    }

    method BuyerConfirmDelivery(sender: Address, id: nat) returns (r: Result<(), Error>)
      requires Valid()
      modifies this
      ensures Valid() && Did(Step(old(Value()), ConfirmDelivery(sender, id)), old(Value()), r)
    {
      if id >= |contracts| || contracts[id].item >= |listings| { return Err(Trapped); }
      if sender != Account(contracts[id].buyer) { return Err(MatchingAccountError); }
      if contracts[id].state != Delivered { return Err(StateError); }
      contracts := contracts[id := contracts[id].(state := Completed)];
      Pay(id, vendor, listings[contracts[id].item].itemValue);
      return Ok(());
    }

    method BuyerDisputeDelivery(sender: Address, id: nat, commitment: nat, amount: nat) returns (r: Result<(), Error>)
      requires Valid()
      modifies this
      ensures Valid() && Did(Step(old(Value()), DisputeDelivery(sender, id, commitment, amount)), old(Value()), r)
    {
      if id >= |contracts| || contracts[id].item >= |listings| { return Err(Trapped); }
      var itemValue := listings[contracts[id].item].itemValue;
      if sender != Account(contracts[id].buyer) { return Err(MatchingAccountError); }
      if contracts[id].state != Delivered { return Err(StateError); }
      if itemValue != amount { return Err(MatchingItemValueError); }
      balance := balance + amount;
      books := books[id := Entry(books[id].paidIn + amount, books[id].paidOut)];
      assert paid + [] == paid;
      contracts := contracts[id := contracts[id].(state := Dispute)];
      contracts := contracts[id := contracts[id].(commit := commitment)];
      contracts := contracts[id := contracts[id].(timestamp := TsFix(contracts[id].timestamp))];
      return Ok(());
    }

    method BuyerTimeout(sender: Address, id: nat) returns (r: Result<(), Error>)
      requires Valid()
      modifies this
      ensures Valid() && Did(Step(old(Value()), BuyerCallTimeout(sender, id)), old(Value()), r)
    {
      if id >= |contracts| || contracts[id].item >= |listings| { return Err(Trapped); }
      var amount, buyer := listings[contracts[id].item].itemValue, contracts[id].buyer;
      if sender != Account(buyer) { return Err(MatchingAccountError); }
      if contracts[id].state != Dispute && contracts[id].state != Accepted { return Err(StateError); }
      if !TimeoutPassed(contracts[id].timestamp, timeout) { return Err(TimestampError); }
      var payback := amount;
      if contracts[id].state == Dispute {
        payback := Times(2, amount);
      }
      contracts := contracts[id := contracts[id].(state := Failed)];
      Pay(id, buyer, payback);
      return Ok(());
    }

    method BuyerOpenCommitment(sender: Address, id: nat, buyerBit: bool) returns (r: Result<(), Error>)
      requires Valid()
      modifies this
      ensures Valid() && Did(Step(old(Value()), OpenCommitment(sender, id, buyerBit)), old(Value()), r)
    {
      if id >= |contracts| || contracts[id].item >= |listings| { return Err(Trapped); }
      var itemValue, buyer := listings[contracts[id].item].itemValue, contracts[id].buyer;
      if sender != Account(buyer) { return Err(StateError); }
      if contracts[id].state != Counter { return Err(StateError); }
      if contracts[id].commit != 0 { return Err(CommitError); }
      contracts := contracts[id := contracts[id].(state := Failed)];
      if contracts[id].sellerBit != buyerBit {
        Pay(id, vendor, Times(2, itemValue));
      } else {
        Pay(id, buyer, Times(2, itemValue));
      }
      return Ok(());
    }

    method SellerTimeout(sender: Address, id: nat) returns (r: Result<(), Error>)
      requires Valid()
      modifies this
      ensures Valid() && Did(Step(old(Value()), SellerCallTimeout(sender, id)), old(Value()), r)
    {
      if id >= |contracts| || contracts[id].item >= |listings| { return Err(Trapped); }
      var amount := listings[contracts[id].item].itemValue;
      if sender != Account(vendor) { return Err(MatchingAccountError); }
      if contracts[id].state != Delivered && contracts[id].state != Counter { return Err(StateError); }
      if !TimeoutPassed(contracts[id].timestamp, timeout) { return Err(TimestampError); }
      contracts := contracts[id := contracts[id].(state := Completed)];
      Pay(id, vendor, amount);
      return Ok(());
    }

    method SellerRejectContract(sender: Address, id: nat) returns (r: Result<(), Error>)
      requires Valid()
      modifies this
      ensures Valid() && Did(Step(old(Value()), RejectContract(sender, id)), old(Value()), r)
    {
      if id >= |contracts| || contracts[id].item >= |listings| { return Err(Trapped); }
      var amount, buyer := listings[contracts[id].item].itemValue, contracts[id].buyer;
      if sender != Account(vendor) { return Err(MatchingAccountError); }
      if contracts[id].state != Requested { return Err(StateError); }
      contracts := contracts[id := contracts[id].(state := Rejected)];
      Pay(id, buyer, amount);
      return Ok(());
    }

    method SellerAcceptContract(sender: Address, id: nat) returns (r: Result<(), Error>)
      requires Valid()
      modifies this
      ensures Valid() && Did(Step(old(Value()), AcceptContract(sender, id)), old(Value()), r)
    {
      if id >= |contracts| { return Err(Trapped); }
      if sender != Account(vendor) { return Err(MatchingAccountError); }
      if contracts[id].state != Requested { return Err(StateError); }
      contracts := contracts[id := contracts[id].(state := Accepted)];
      contracts := contracts[id := contracts[id].(timestamp := TsFix(contracts[id].timestamp))];
      assert books[id := Entry(books[id].paidIn + 0, books[id].paidOut + 0)] == books;
      assert paid + [] == paid;
      return Ok(());
    }

    method SellerItemWasDelivered(sender: Address, id: nat) returns (r: Result<(), Error>)
      requires Valid()
      modifies this
      ensures Valid() && Did(Step(old(Value()), ItemWasDelivered(sender, id)), old(Value()), r)
    {
      if id >= |contracts| { return Err(Trapped); }
      if sender != Account(vendor) { return Err(MatchingAccountError); }
      if contracts[id].state != Accepted { return Err(StateError); }
      contracts := contracts[id := contracts[id].(state := Delivered)];
      contracts := contracts[id := contracts[id].(timestamp := TsFix(contracts[id].timestamp))];
      assert books[id := Entry(books[id].paidIn + 0, books[id].paidOut + 0)] == books;
      assert paid + [] == paid;
      return Ok(());
    }

    method SellerForfeitDispute(sender: Address, id: nat) returns (r: Result<(), Error>)
      requires Valid()
      modifies this
      ensures Valid() && Did(Step(old(Value()), ForfeitDispute(sender, id)), old(Value()), r)
    {
      if id >= |contracts| || contracts[id].item >= |listings| { return Err(Trapped); }
      var amount, buyer := listings[contracts[id].item].itemValue, contracts[id].buyer;
      if sender != Account(vendor) { return Err(MatchingAccountError); }
      if contracts[id].state != Dispute { return Err(StateError); }
      contracts := contracts[id := contracts[id].(state := Failed)];
      Pay(id, buyer, Times(2, amount));
      return Ok(());
    }

    method SellerCounterDispute(sender: Address, id: nat, randomBit: bool, amount: nat) returns (r: Result<(), Error>)
      requires Valid()
      modifies this
      ensures Valid() && Did(Step(old(Value()), CounterDispute(sender, id, randomBit, amount)), old(Value()), r)
    {
      if id >= |contracts| || contracts[id].item >= |listings| { return Err(Trapped); }
      if sender != Account(vendor) { return Err(MatchingAccountError); }
      if contracts[id].state != Dispute { return Err(StateError); }
      if amount != listings[contracts[id].item].itemValue { return Err(MatchingItemValueError); }
      balance := balance + amount;
      books := books[id := Entry(books[id].paidIn + amount, books[id].paidOut)];
      assert paid + [] == paid;
      contracts := contracts[id := contracts[id].(state := Counter)];
      contracts := contracts[id := contracts[id].(timestamp := TsFix(contracts[id].timestamp))];
      contracts := contracts[id := contracts[id].(sellerBit := randomBit)];
      return Ok(());
    }

    method SellerUpdateListings(sender: Address, itemId: nat, description: string, value: nat)
      returns (r: Result<(), Error>)
      requires Valid()
      modifies this
      ensures Valid() && Did(Step(old(Value()), UpdateListings(sender, itemId, description, value)), old(Value()), r)
    {
      if sender != Account(vendor) { return Err(MatchingAccountError); }
      if |contracts| != 0 { return Err(StateError); }
      if itemId >= |listings| { return Err(Trapped); }
      listings := listings[itemId := listings[itemId].(itemValue := Times(1_000_000_000, value))];
      listings := listings[itemId := listings[itemId].(description := description)];
      return Ok(());
    }
  }

  // ----- the books -----

  // What the contract holds for all purchases.
  function Held(books: seq<Entry>): int {
    if books == [] then 0 else Held(books[..|books| - 1]) + books[|books| - 1].paidIn - books[|books| - 1].paidOut
  }

  lemma {:induction false} HeldUpdate(books: seq<Entry>, i: nat, e: Entry)
    requires i < |books|
    ensures Held(books[i := e]) == Held(books) - (books[i].paidIn - books[i].paidOut) + (e.paidIn - e.paidOut)
  {
    var n := |books| - 1;
    var after := books[i := e];
    if i == n {
      assert after[..n] == books[..n];
    } else {
      HeldUpdate(books[..n], i, e);
      assert after[..n] == books[..n][i := e];
    }
  }

  lemma {:induction false} HeldAtLeast(books: seq<Entry>, i: nat)
    requires i < |books| && forall j :: 0 <= j < |books| ==> books[j].paidOut <= books[j].paidIn
    ensures books[i].paidIn - books[i].paidOut <= Held(books)
  {
    var n := |books| - 1;
    if i < n {
      HeldAtLeast(books[..n], i);
    } else {
      HeldNonNegative(books[..n]);
    }
  }

  lemma {:induction false} HeldNonNegative(books: seq<Entry>)
    requires forall j :: 0 <= j < |books| ==> books[j].paidOut <= books[j].paidIn
    ensures Held(books) >= 0
  {
    if books != [] {
      HeldNonNegative(books[..|books| - 1]);
    }
  }

  // The escrow of a purchase in a given state, for price v. Two ways to end
  // leave money behind in the contract: v of 3v after an opened commitment, and
  // 2v of 3v after a timeout of a countered dispute.
  predicate Balanced(v: nat, state: PurchaseState, e: Entry) {
    match state
    case Requested => e == Entry(v, 0)
    case Accepted => e == Entry(v, 0)
    case Delivered => e == Entry(v, 0)
    case Dispute => e == Entry(2 * v, 0)
    case Counter => e == Entry(3 * v, 0)
    case Rejected => e == Entry(v, v)
    case Completed => e == Entry(v, v) || e == Entry(3 * v, v)
    case Failed => e == Entry(v, v) || e == Entry(2 * v, 2 * v) || e == Entry(3 * v, 2 * v)
  }

  function Price(s: State): nat {
    if s.listings == [] then 0 else s.listings[0].itemValue
  }

  ghost predicate Invariant(s: State) {
    && |s.books| == |s.contracts|
    && (s.contracts != [] ==> s.listings != [])
    && s.balance == Held(s.books)
    && forall i :: 0 <= i < |s.contracts| ==>
        s.contracts[i].item == 0 && Balanced(Price(s), s.contracts[i].state, s.books[i])
  }

  predicate Ended(state: PurchaseState) {
    state in {Rejected, Completed, Failed}
  }

  // The moves of a purchase.
  predicate Moves(before: PurchaseState, after: PurchaseState) {
    match before
    case Requested => after in {Accepted, Rejected, Failed}
    case Accepted => after in {Delivered, Failed}
    case Delivered => after in {Completed, Dispute}
    case Dispute => after in {Counter, Failed}
    case Counter => after in {Completed, Failed}
    case _ => false
  }

  // An accepted call on one purchase asks for no more than the contract holds for
  // it, and the books are balanced afterwards.
  lemma ActBalances(s: State, p: Purchase, v: nat, price: nat, call: Call, e: Entry)
    requires OnPurchase(call) && Balanced(v, p.state, e) && Act(s, p, price, call).Ok?
    requires price == v || call.AcceptContract? || call.ItemWasDelivered?
    requires p.state in {Dispute, Counter} ==> 2 * v < U64_RANGE
    ensures var effect := Act(s, p, price, call).value;
      var out := if effect.payment.Some? then effect.payment.value.amount else 0;
      && Moves(p.state, effect.purchase.state)
      && (effect.payment.Some? <==> Ended(effect.purchase.state))
      && out <= e.paidIn
      && Balanced(v, effect.purchase.state, Entry(e.paidIn + effect.received, e.paidOut + out))
      && effect.purchase.item == p.item && effect.purchase.buyer == p.buyer
  {
    assert p.state in {Dispute, Counter} ==> Times(2, v) == 2 * v;
    hide Times;
  }

  // What a call takes in must fit in the balance, which is a 64-bit amount.
  predicate Fits(s: State, call: Call) {
    s.balance + (match call
      case RequestPurchase(_, _, _, _, amount) => amount
      case DisputeDelivery(_, _, _, amount) => amount
      case CounterDispute(_, _, _, amount) => amount
      case _ => 0) < U64_RANGE
  }

  lemma BooksAreCovered(s: State, i: nat)
    requires Invariant(s) && i < |s.contracts|
    ensures s.books[i].paidIn - s.books[i].paidOut <= s.balance
  {
    HeldAtLeast(s.books, i);
  }

  // An accepted call on a purchase is an action on it.
  lemma StepIsAction(s: State, call: Call)
    requires |s.books| == |s.contracts| && OnPurchase(call) && Step(s, call).Ok?
    ensures call.id < |s.contracts| && PriceFor(s, s.contracts[call.id], call).Some?
    ensures Act(s, s.contracts[call.id], PriceFor(s, s.contracts[call.id], call).value, call).Ok?
    ensures Step(s, call).value
        == Apply(s, call.id, Act(s, s.contracts[call.id], PriceFor(s, s.contracts[call.id], call).value, call).value)
  {
    hide Act, PriceFor, Apply;
  }

  // If the call names an item of the list, then that costs what item 0 costs.
  predicate NamesCommonPrice(s: State, call: Call) {
    (call.RequestPurchase? || call.BuyerAbort?) && call.item < |s.listings| ==>
      s.listings[call.item].itemValue == Price(s)
  }

  lemma PriceIsCommon(s: State, call: Call)
    requires Invariant(s) && NamesCommonPrice(s, call) && OnPurchase(call) && call.id < |s.contracts|
    requires PriceFor(s, s.contracts[call.id], call).Some?
    ensures PriceFor(s, s.contracts[call.id], call).value == Price(s) || call.AcceptContract? || call.ItemWasDelivered?
  {
    hide Balanced, Held;
  }

  function Amount(payment: Option<Payment>): nat {
    if payment.Some? then payment.value.amount else 0
  }

  // An effect whose transfer is covered by the money booked for the purchase.
  lemma ApplyBalances(s: State, id: nat, e: Effect)
    requires Invariant(s) && id < |s.contracts|
    requires Amount(e.payment) <= s.books[id].paidIn && e.purchase.item == 0 && s.books[id].paidOut == 0
    requires Balanced(Price(s), e.purchase.state, Entry(s.books[id].paidIn + e.received, Amount(e.payment)))
    ensures Amount(e.payment) <= s.balance + e.received
    ensures Invariant(Apply(s, id, e))
    ensures Apply(s, id, e).books[id] == Entry(s.books[id].paidIn + e.received, Amount(e.payment))
  {
    var entry := Entry(s.books[id].paidIn + e.received, Amount(e.payment));
    BooksAreCovered(s, id);
    HeldUpdate(s.books, id, entry);
    hide Held, Balanced;
    ApplyUnfold(s, id, e, entry);
    hide Apply, Amount;
    var after := Apply(s, id, e);
    forall i | 0 <= i < |after.contracts|
      ensures after.contracts[i].item == 0 && Balanced(Price(after), after.contracts[i].state, after.books[i])
    {
      if i != id {
        assert s.contracts[i].item == 0 && Balanced(Price(s), s.contracts[i].state, s.books[i]);
      }
    }
  }

  lemma ApplyUnfold(s: State, id: nat, e: Effect, entry: Entry)
    requires |s.books| == |s.contracts| && id < |s.contracts| && s.books[id].paidOut == 0
    requires Amount(e.payment) <= s.balance + e.received
    requires entry == Entry(s.books[id].paidIn + e.received, Amount(e.payment))
    ensures Apply(s, id, e) == s.(contracts := s.contracts[id := e.purchase], books := s.books[id := entry],
      balance := s.balance + e.received - Amount(e.payment),
      paid := s.paid + if e.payment.Some? then [Payout(id, e.payment.value)] else [])
  {
  }

  lemma NotEnded(v: nat, p: PurchaseState, e: Entry)
    requires Balanced(v, p, e) && !Ended(p)
    ensures e.paidOut == 0
  {
  }

  lemma MovesFromLive(before: PurchaseState, after: PurchaseState)
    requires Moves(before, after)
    ensures !Ended(before)
  {
  }

  // A call on a purchase: its transfer is always paid, the books stay balanced
  // and all other purchases are untouched.
  lemma PurchaseStep(s: State, call: Call)
    requires Invariant(s) && NamesCommonPrice(s, call) && Fits(s, call) && OnPurchase(call) && Step(s, call).Ok?
    ensures call.id < |s.contracts|
    ensures var after := Step(s, call).value;
      && Invariant(after) && after.listings == s.listings && after.vendor == s.vendor
      && |after.contracts| == |s.contracts|
      && Moves(s.contracts[call.id].state, after.contracts[call.id].state)
      && after.contracts[call.id].buyer == s.contracts[call.id].buyer
      && after.contracts == s.contracts[call.id := after.contracts[call.id]]
      && after.books == s.books[call.id := after.books[call.id]]
      && TransferIsPaid(s, call)
  {
    StepIsAction(s, call);
    PriceIsCommon(s, call);
    var id := call.id;
    var p, e, price := s.contracts[id], s.books[id], PriceFor(s, s.contracts[id], call).value;
    BooksAreCovered(s, id);
    assert Balanced(Price(s), p.state, e) && p.item == 0;
    DoubleFits(s, id);
    hide Step, PriceFor, NamesCommonPrice, Fits, Price, Invariant, Held;
    ActBalances(s, p, Price(s), price, call, e);
    hide Act;
    var effect := Act(s, p, price, call).value;
    MovesFromLive(p.state, effect.purchase.state);
    NotEnded(Price(s), p.state, e);
    hide Balanced, Moves, Ended;
    ApplyBalances(s, id, effect);
  }

  // In a disputed purchase the contract holds twice the price.
  lemma DoubleFits(s: State, id: nat)
    requires Invariant(s) && id < |s.contracts| && s.balance < U64_RANGE
    ensures s.contracts[id].state in {Dispute, Counter} ==> 2 * Price(s) < U64_RANGE
  {
    BooksAreCovered(s, id);
  }

  // The transfer that a call asks for, if any, does not fail for lack of funds.
  predicate TransferIsPaid(s: State, call: Call)
    requires OnPurchase(call) && call.id < |s.contracts|
  {
    match PriceFor(s, s.contracts[call.id], call)
    case None => true
    case Some(price) =>
      match Act(s, s.contracts[call.id], price, call)
      case Err(_) => true
      case Ok(effect) => effect.payment.Some? ==> effect.payment.value.amount <= s.balance + effect.received
  }

  // A request keeps the books balanced exactly when the requested item costs what
  // item 0 costs: the contract records every purchase as one of item 0.
  lemma RequestBalancesIff(s: State, sender: Address, info: string, timestamp: nat, item: nat, amount: nat)
    requires Invariant(s) && Step(s, RequestPurchase(sender, info, timestamp, item, amount)).Ok?
    ensures Invariant(Step(s, RequestPurchase(sender, info, timestamp, item, amount)).value)
       <==> s.listings[item].itemValue == Price(s)
  {
    var after := Step(s, RequestPurchase(sender, info, timestamp, item, amount)).value;
    var n := |s.contracts|;
    assert after.books[..n] == s.books;
    assert Held(after.books) == Held(s.books) + amount;
    assert after.contracts[n].state == Requested && after.books[n] == Entry(amount, 0);
  }

  // An abort keeps the books balanced exactly when what is paid out, after the
  // price of the item that the buyer names, is the price of item 0.
  lemma AbortBalancesIff(s: State, sender: Address, id: nat, item: nat)
    requires Invariant(s) && Step(s, BuyerAbort(sender, id, item)).Ok?
    ensures id < |s.contracts| && item < |s.listings|
    ensures Invariant(Step(s, BuyerAbort(sender, id, item)).value)
       <==> PaidOut(s.balance, Some(Payment(s.contracts[id].buyer, s.listings[item].itemValue))) == Price(s)
  {
    var after := Step(s, BuyerAbort(sender, id, item)).value;
    var paid := PaidOut(s.balance, Some(Payment(s.contracts[id].buyer, s.listings[item].itemValue)));
    assert Balanced(Price(s), s.contracts[id].state, s.books[id]);
    HeldUpdate(s.books, id, Entry(Price(s), paid));
    assert after.books == s.books[id := Entry(Price(s), paid)];
    assert after.contracts[id].state == Failed;
    assert Invariant(after) ==> Balanced(Price(s), Failed, after.books[id]);
  }

  // With two listings of different prices the books can go wrong at once.
  lemma SecondListingUnbalances(vendor: AccountAddress, buyer: AccountAddress)
    ensures var s := State(vendor, 1, [], [Item(5, ""), Item(3, "")], 0, [], []);
      var request := RequestPurchase(Account(buyer), "", 0, 1, 3);
      Invariant(s) && Step(s, request).Ok? && !Invariant(Step(s, request).value)
  {
    var s := State(vendor, 1, [], [Item(5, ""), Item(3, "")], 0, [], []);
    RequestBalancesIff(s, Account(buyer), "", 0, 1, 3);
  }

  // The state after two buyers have requested item 0, for 3 each.
  function TwoRequests(vendor: AccountAddress, a: AccountAddress, b: AccountAddress): State {
    State(vendor, 1, [Purchase(0, 0, 0, false, "", Requested, a), Purchase(0, 0, 0, false, "", Requested, b)],
          [Item(3, ""), Item(5, "")], 6, [Entry(3, 0), Entry(3, 0)], [])
  }

  // It is reached from the initial state.
  ghost predicate IsTwoRequests(vendor: AccountAddress, a: AccountAddress, b: AccountAddress) {
    var s0 := State(vendor, 1, [], [Item(3, ""), Item(5, "")], 0, [], []);
    var s1 := Step(s0, RequestPurchase(Account(a), "", 0, 0, 3));
    && s1.Ok? && |s1.value.books| == |s1.value.contracts|
    && Step(s1.value, RequestPurchase(Account(b), "", 0, 0, 3)) == Ok(TwoRequests(vendor, a, b))
  }

  lemma TwoRequestsReached(vendor: AccountAddress, a: AccountAddress, b: AccountAddress)
    ensures IsTwoRequests(vendor, a, b)
  {
    var s0 := State(vendor, 1, [], [Item(3, ""), Item(5, "")], 0, [], []);
    var first := Purchase(0, 0, 0, false, "", Requested, a);
    var s1 := State(vendor, 1, [first], [Item(3, ""), Item(5, "")], 3, [Entry(3, 0)], []);
    assert Step(s0, RequestPurchase(Account(a), "", 0, 0, 3)).value == s1 by {
      assert s0.contracts + [first] == s1.contracts;
    }
    assert Step(s1, RequestPurchase(Account(b), "", 0, 0, 3)).value == TwoRequests(vendor, a, b);
  }

  // Both requests may be for item 0: a buyer who then aborts and names item 1 is
  // paid 5 for the 3 paid in, and the other buyer does not get the money back.
  lemma AbortUnbalances(vendor: AccountAddress, a: AccountAddress, b: AccountAddress)
    ensures IsTwoRequests(vendor, a, b)
    ensures var s2 := TwoRequests(vendor, a, b);
      var s3 := Step(s2, BuyerAbort(Account(a), 0, 1));
      && Invariant(s2) && s3.Ok? && !Invariant(s3.value)
      && s3.value.books == [Entry(3, 5), Entry(3, 0)] && s3.value.balance == 1 && |s3.value.contracts| == 2
      && Step(s3.value, RejectContract(Account(vendor), 1)).Ok?
      && !TransferIsPaid(s3.value, RejectContract(Account(vendor), 1))
  {
    TwoRequestsReached(vendor, a, b);
    hide IsTwoRequests;
    var s2 := TwoRequests(vendor, a, b);
    assert s2.books[..1] == [Entry(3, 0)] && s2.books[..1][..0] == [];
    assert Held(s2.books[..1]) == 3;
    assert Invariant(s2);
    AbortBalancesIff(s2, Account(a), 0, 1);
    var s3 := Step(s2, BuyerAbort(Account(a), 0, 1)).value;
    assert s3.books == [Entry(3, 5), Entry(3, 0)];
  }

  // ----- runs -----

  ghost predicate IsRun(states: seq<State>, calls: seq<Call>) {
    |states| == |calls| + 1 && forall i :: 0 <= i < |calls| ==> Leads(states[i], calls[i], states[i + 1])
  }

  // A rejected call changes nothing.
  ghost predicate Leads(s: State, call: Call, after: State) {
    && |s.books| == |s.contracts| && Fits(s, call)
    && after == match Step(s, call) { case Ok(next) => next case Err(_) => s }
  }

  // Ended purchases, and their books, never change again; nor does the price once
  // there is a purchase.
  ghost predicate Keeps(s: State, after: State) {
    && |s.contracts| <= |after.contracts| == |after.books| && |s.books| == |s.contracts|
    && |after.listings| == |s.listings| && after.vendor == s.vendor
    && (s.contracts != [] ==> after.listings == s.listings)
    && forall i :: 0 <= i < |s.contracts| ==>
         after.contracts[i].buyer == s.contracts[i].buyer
         && (Ended(s.contracts[i].state) ==> after.contracts[i] == s.contracts[i] && after.books[i] == s.books[i])
  }

  // If the call is accepted, the transfer it asks for is paid.
  ghost predicate Solvent(s: State, call: Call) {
    |s.books| == |s.contracts|
        && (OnPurchase(call) && call.id < |s.contracts| && Step(s, call).Ok? ==> TransferIsPaid(s, call))
  }

  lemma RequestKeeps(s: State, sender: Address, info: string, timestamp: nat, item: nat, amount: nat)
    requires Invariant(s) && NamesCommonPrice(s, RequestPurchase(sender, info, timestamp, item, amount))
    requires Step(s, RequestPurchase(sender, info, timestamp, item, amount)).Ok?
    ensures var after := Step(s, RequestPurchase(sender, info, timestamp, item, amount)).value;
      Invariant(after) && Keeps(s, after)
  {
    RequestBalancesIff(s, sender, info, timestamp, item, amount);
    hide Invariant, Held, Balanced;
  }

  lemma UpdateKeeps(s: State, sender: Address, itemId: nat, description: string, value: nat)
    requires Invariant(s) && Step(s, UpdateListings(sender, itemId, description, value)).Ok?
    ensures var after := Step(s, UpdateListings(sender, itemId, description, value)).value;
      Invariant(after) && Keeps(s, after)
  {
    hide Held, Balanced;
  }

  lemma PurchaseKeeps(s: State, call: Call)
    requires Invariant(s) && NamesCommonPrice(s, call) && Fits(s, call) && OnPurchase(call) && Step(s, call).Ok?
    ensures Invariant(Step(s, call).value) && Keeps(s, Step(s, call).value)
    ensures call.id < |s.contracts| && TransferIsPaid(s, call)
  {
    PurchaseStep(s, call);
    assert |s.books| == |s.contracts|;
    var after := Step(s, call).value;
    MovesFromLive(s.contracts[call.id].state, after.contracts[call.id].state);
    hide Invariant, Step, TransferIsPaid, Fits, Moves, Ended;
  }

  // Every accepted request and every accepted abort names an item that costs what
  // item 0 costs.
  ghost predicate IsFair(s: State, call: Call) {
    |s.books| == |s.contracts| && Step(s, call).Ok? ==> NamesCommonPrice(s, call)
  }

  lemma StepKeeps(s: State, call: Call, after: State)
    requires Invariant(s) && IsFair(s, call) && Leads(s, call, after)
    ensures Invariant(after) && Keeps(s, after) && Solvent(s, call)
  {
    assert |s.books| == |s.contracts|;
    hide Invariant, Step, TransferIsPaid, Fits, NamesCommonPrice;
    match Step(s, call)
    case Err(_) =>
    case Ok(_) =>
      if call.RequestPurchase? {
        RequestKeeps(s, call.sender, call.info, call.timestamp, call.item, call.amount);
      } else if call.UpdateListings? {
        UpdateKeeps(s, call.sender, call.itemId, call.description, call.value);
      } else {
        PurchaseKeeps(s, call);
      }
  }

  // A step that is not fair breaks the books, or a transfer.
  lemma UnfairStep(s: State, call: Call, after: State)
    requires Invariant(s) && Leads(s, call, after) && Invariant(after) && Solvent(s, call)
    ensures IsFair(s, call)
  {
    if Step(s, call).Ok? {
      match call
      case RequestPurchase(sender, info, timestamp, item, amount) =>
        RequestBalancesIff(s, sender, info, timestamp, item, amount);
      case BuyerAbort(sender, id, item) =>
        AbortBalancesIff(s, sender, id, item);
        SolventAbort(s, sender, id, item);
      case _ =>
    }
  }

  lemma SolventAbort(s: State, sender: Address, id: nat, item: nat)
    requires |s.books| == |s.contracts| && Step(s, BuyerAbort(sender, id, item)).Ok?
    requires Solvent(s, BuyerAbort(sender, id, item))
    ensures id < |s.contracts| && item < |s.listings|
    ensures PaidOut(s.balance, Some(Payment(s.contracts[id].buyer, s.listings[item].itemValue)))
         == s.listings[item].itemValue
  {
  }

  // The books are exact all along: the balance is what is held for all purchases,
  // each purchase holds v, 2v or 3v until it ends and is paid out once, and no
  // transfer ever fails for lack of funds.
  ghost predicate Exact(states: seq<State>, calls: seq<Call>)
    requires |states| == |calls| + 1
  {
    && (forall i :: 0 <= i <= |calls| ==> Invariant(states[i]))
    && (forall i :: 0 <= i < |calls| ==> Solvent(states[i], calls[i]))
  }

  ghost predicate Fair(states: seq<State>, calls: seq<Call>)
    requires |states| == |calls| + 1
  {
    forall i :: 0 <= i < |calls| ==> IsFair(states[i], calls[i])
  }

  ghost predicate Starts(s: State) {
    s.contracts == [] && s.books == [] && s.balance == 0 && s.paid == []
  }

  // Over every run, with any listings, the escrow is exact if and only if all
  // accepted requests and aborts are fair.
  lemma EscrowIsExactIff(states: seq<State>, calls: seq<Call>)
    requires IsRun(states, calls) && Starts(states[0])
    ensures Exact(states, calls) <==> Fair(states, calls)
  {
    if Fair(states, calls) {
      FairIsExact(states, calls);
    }
    if Exact(states, calls) {
      forall i | 0 <= i < |calls| ensures IsFair(states[i], calls[i]) {
        assert Leads(states[i], calls[i], states[i + 1]);
        assert Invariant(states[i]) && Invariant(states[i + 1]) && Solvent(states[i], calls[i]);
        hide Invariant, Leads, Solvent, IsFair;
        UnfairStep(states[i], calls[i], states[i + 1]);
      }
    }
  }

  // ... and then ended purchases never change again.
  lemma FairIsExact(states: seq<State>, calls: seq<Call>)
    requires IsRun(states, calls) && Starts(states[0]) && Fair(states, calls)
    ensures Exact(states, calls)
    ensures forall i :: 0 <= i < |calls| ==> Keeps(states[i], states[i + 1])
  {
    hide Invariant, Keeps, Solvent, Leads, IsFair;
    forall i | 0 <= i <= |calls| ensures Invariant(states[i]) {
      FairSoFar(states, calls, i);
    }
    forall i | 0 <= i < |calls| ensures Keeps(states[i], states[i + 1]) && Solvent(states[i], calls[i]) {
      FairSoFar(states, calls, i);
      FairStep(states, calls, i);
    }
  }

  lemma FairStep(states: seq<State>, calls: seq<Call>, i: nat)
    requires IsRun(states, calls) && i < |calls| && Fair(states, calls) && Invariant(states[i])
    ensures Invariant(states[i + 1]) && Keeps(states[i], states[i + 1]) && Solvent(states[i], calls[i])
  {
    assert Leads(states[i], calls[i], states[i + 1]) && IsFair(states[i], calls[i]);
    hide *;
    StepKeeps(states[i], calls[i], states[i + 1]);
  }

  lemma {:induction false} FairSoFar(states: seq<State>, calls: seq<Call>, k: nat)
    requires IsRun(states, calls) && Starts(states[0]) && Fair(states, calls) && k <= |calls|
    ensures Invariant(states[k])
    decreases k
  {
    if k == 0 {
      assert Held([]) == 0;
    } else {
      hide Invariant, Fair, Starts;
      FairSoFar(states, calls, k - 1);
      FairStep(states, calls, k - 1);
    }
  }
}
