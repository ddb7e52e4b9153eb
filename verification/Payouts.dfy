// Who can do what with a purchase of the escrow, and who is paid when it ends.
module Payouts {
  import opened Wrappers
  import opened Addresses
  import opened ByteCodecs
  import opened Commerce

  // ----- who may call -----

  // Who can do what with a purchase, and in which state of it.
  ghost predicate MayAct(s: State, p: Purchase, call: Call) {
    match call
    case BuyerAbort(sender, _, item) => sender == Account(p.buyer) && p.state == Requested && item < |s.listings|
    case ConfirmDelivery(sender, _) => sender == Account(p.buyer) && p.state == Delivered
    case DisputeDelivery(sender, _, _, amount) =>
      sender == Account(p.buyer) && p.state == Delivered && amount == Price(s)
    case BuyerCallTimeout(sender, _) =>
      sender == Account(p.buyer) && p.state in {Accepted, Dispute} && TimeoutPassed(p.timestamp, s.timeout)
    case OpenCommitment(sender, _, _) => sender == Account(p.buyer) && p.state == Counter && p.commit == 0
    case SellerCallTimeout(sender, _) =>
      sender == Account(s.vendor) && p.state in {Delivered, Counter} && TimeoutPassed(p.timestamp, s.timeout)
    case RejectContract(sender, _) => sender == Account(s.vendor) && p.state == Requested
    case AcceptContract(sender, _) => sender == Account(s.vendor) && p.state == Requested
    case ItemWasDelivered(sender, _) => sender == Account(s.vendor) && p.state == Accepted
    case ForfeitDispute(sender, _) => sender == Account(s.vendor) && p.state == Dispute
    case CounterDispute(sender, _, _, amount) =>
      sender == Account(s.vendor) && p.state == Dispute && amount == Price(s)
    case _ => false
  }

  ghost predicate MayCall(s: State, call: Call) {
    match call
    case RequestPurchase(sender, _, _, item, amount) =>
      sender.Account? && item < |s.listings| && amount == s.listings[item].itemValue
    case UpdateListings(sender, itemId, _, _) =>
      sender == Account(s.vendor) && s.contracts == [] && itemId < |s.listings|
    case _ => call.id < |s.contracts| && MayAct(s, s.contracts[call.id], call)
  }

  // Exactly these calls are accepted.
  lemma AcceptedIff(s: State, call: Call)
    requires Invariant(s)
    ensures Step(s, call).Ok? <==> MayCall(s, call)
  {
    hide Balanced, Held, TimeoutPassed, Apply, Times, TsFix;
  }

  // A request brings its amount and one more purchase, always one of item 0; new
  // listings have their price multiplied by a thousand million.
  lemma OtherCallsDo(s: State, call: Call)
    requires |s.books| == |s.contracts| && !OnPurchase(call) && Step(s, call).Ok?
    ensures var after := Step(s, call).value;
      match call
      case RequestPurchase(sender, info, timestamp, _, amount) =>
        && |after.contracts| == |s.contracts| + 1 && after.contracts[..|s.contracts|] == s.contracts
        && (var p := after.contracts[|s.contracts|];
            Account(p.buyer) == sender && p.state == Requested && p.item == 0 && p.timestamp == timestamp
            && p.notes == info)
        && after.balance == s.balance + amount && after.listings == s.listings && after.paid == s.paid
      case UpdateListings(_, itemId, description, value) =>
        && itemId < |s.listings| == |after.listings|
        && after.listings[itemId] == Item(1_000_000_000 * value % U64_RANGE, description)
        && (forall i :: 0 <= i < |s.listings| && i != itemId ==> after.listings[i] == s.listings[i])
        && after.balance == s.balance && after.contracts == s.contracts && after.paid == s.paid
      case _ => true
  {
  }

  // ----- who is paid -----

  // The purchase after an accepted call.
  ghost function NextPurchase(p: Purchase, call: Call): Purchase {
    match call
    case ConfirmDelivery(_, _) => p.(state := Completed)
    case SellerCallTimeout(_, _) => p.(state := Completed)
    case RejectContract(_, _) => p.(state := Rejected)
    case AcceptContract(_, _) => p.(state := Accepted, timestamp := (p.timestamp + 10) % U64_RANGE)
    case ItemWasDelivered(_, _) => p.(state := Delivered, timestamp := (p.timestamp + 10) % U64_RANGE)
    case DisputeDelivery(_, _, commitment, _) =>
      p.(state := Dispute, commit := commitment, timestamp := (p.timestamp + 10) % U64_RANGE)
    case CounterDispute(_, _, bit, _) =>
      p.(state := Counter, sellerBit := bit, timestamp := (p.timestamp + 10) % U64_RANGE)
    case _ => p.(state := Failed)
  }

  // The payment that goes with an accepted call: the vendor is paid for what is
  // delivered or not contested in time; the buyer is paid back what is aborted,
  // rejected, late or forfeited; and an opened commitment is won by the buyer if the
  // bits are equal, and by the vendor if not.
  ghost function Owed(v: nat, vendor: AccountAddress, p: Purchase, call: Call): seq<Payment> {
    match call
    case ConfirmDelivery(_, _) => [Payment(vendor, v)]
    case SellerCallTimeout(_, _) => [Payment(vendor, v)]
    case BuyerAbort(_, _, _) => [Payment(p.buyer, v)]
    case RejectContract(_, _) => [Payment(p.buyer, v)]
    case BuyerCallTimeout(_, _) => [Payment(p.buyer, if p.state == Dispute then 2 * v else v)]
    case ForfeitDispute(_, _) => [Payment(p.buyer, 2 * v)]
    case OpenCommitment(_, _, bit) => [Payment(if bit == p.sellerBit then p.buyer else vendor, 2 * v)]
    case _ => []
  }

  function Tagged(id: nat, payments: seq<Payment>): seq<Payout> {
    seq(|payments|, i requires 0 <= i < |payments| => Payout(id, payments[i]))
  }

  lemma AcceptedPays(s: State, call: Call)
    requires Invariant(s) && NamesCommonPrice(s, call) && Fits(s, call) && OnPurchase(call) && Step(s, call).Ok?
    ensures call.id < |s.contracts|
    ensures var p, after := s.contracts[call.id], Step(s, call).value;
      && after.contracts == s.contracts[call.id := NextPurchase(p, call)]
      && after.paid == s.paid + Tagged(call.id, Owed(Price(s), s.vendor, p, call))
      && after.books[call.id] == Entry(s.books[call.id].paidIn + Wagered(Price(s), call),
                                       AmountOf(Owed(Price(s), s.vendor, p, call)))
  {
    PurchaseStep(s, call);
    StepIsAction(s, call);
    PriceIsCommon(s, call);
    DoubleFits(s, call.id);
    var p := s.contracts[call.id];
    var price := PriceFor(s, p, call).value;
    var effect := Act(s, p, price, call).value;
    hide Invariant, Step, PriceFor, NamesCommonPrice, Fits;
    ActIs(s, p, price, call);
    NothingPaidYet(s, call);
    hide Act, NextPurchase, Owed, Balanced;
    var owed := Owed(Price(s), s.vendor, p, call);
    assert Tagged(call.id, owed) == if owed == [] then [] else [Payout(call.id, owed[0])];
    hide Tagged;
  }

  // What comes in with a call on a purchase: the wagers of a dispute.
  function Wagered(v: nat, call: Call): nat {
    if call.DisputeDelivery? || call.CounterDispute? then v else 0
  }

  function AmountOf(payments: seq<Payment>): nat {
    if payments == [] then 0 else payments[0].amount
  }

  lemma NothingPaidYet(s: State, call: Call)
    requires Invariant(s) && OnPurchase(call) && call.id < |s.contracts|
    requires Step(s, call).Ok? && PriceFor(s, s.contracts[call.id], call).Some?
    requires Act(s, s.contracts[call.id], PriceFor(s, s.contracts[call.id], call).value, call).Ok?
    ensures s.books[call.id].paidOut == 0
  {
    assert Balanced(Price(s), s.contracts[call.id].state, s.books[call.id]);
    hide Invariant, PriceFor, Step, Price;
  }

  lemma ActIs(s: State, p: Purchase, price: nat, call: Call)
    requires OnPurchase(call) && Act(s, p, price, call).Ok?
    requires price == Price(s) || call.AcceptContract? || call.ItemWasDelivered?
    requires p.state in {Dispute, Counter} ==> 2 * Price(s) < U64_RANGE
    ensures var effect, owed := Act(s, p, price, call).value, Owed(Price(s), s.vendor, p, call);
      && effect.purchase == NextPurchase(p, call) && |owed| <= 1 && effect.received == Wagered(Price(s), call)
      && effect.payment == if owed == [] then None else Some(owed[0])
  {
  }

  // ----- runs -----

  // All payments made for one purchase.
  function PaymentsFor(paid: seq<Payout>, id: nat): seq<Payment> {
    if paid == [] then []
    else
      var last := paid[|paid| - 1];
      PaymentsFor(paid[..|paid| - 1], id) + if last.id == id then [last.payment] else []
  }

  lemma PaymentsAppend(paid: seq<Payout>, id: nat, payments: seq<Payment>, i: nat)
    requires |payments| <= 1
    ensures PaymentsFor(paid + Tagged(id, payments), i) == PaymentsFor(paid, i) + if i == id then payments else []
  {
    var all := paid + Tagged(id, payments);
    if payments == [] {
      assert all == paid && PaymentsFor(paid, i) + [] == PaymentsFor(paid, i);
    } else {
      assert all[..|all| - 1] == paid && all[|all| - 1] == Payout(id, payments[0]);
      assert payments == [payments[0]];
    }
  }

  // Who has been paid what for a purchase, by its final state: nobody while it is
  // open; the vendor the price, once it is completed; the buyer the price, once it is
  // rejected; and when it failed, the buyer what was paid in, unless the seller had
  // countered a dispute: then either of them has won twice the price.
  ghost predicate PaidByOutcome(v: nat, vendor: AccountAddress, p: Purchase, e: Entry, payments: seq<Payment>) {
    match p.state
    case Completed => (e == Entry(v, v) || e == Entry(3 * v, v)) && payments == [Payment(vendor, v)]
    case Rejected => e == Entry(v, v) && payments == [Payment(p.buyer, v)]
    case Failed =>
      || (e == Entry(v, v) && payments == [Payment(p.buyer, v)])
      || (e == Entry(2 * v, 2 * v) && payments == [Payment(p.buyer, 2 * v)])
      || (e == Entry(3 * v, 2 * v) && (payments == [Payment(p.buyer, 2 * v)] || payments == [Payment(vendor, 2 * v)]))
    case _ => payments == []
  }

  ghost predicate AllPaid(s: State)
    requires |s.books| == |s.contracts|
  {
    forall i: nat ::
      if i < |s.contracts|
      then PaidByOutcome(Price(s), s.vendor, s.contracts[i], s.books[i], PaymentsFor(s.paid, i))
      else PaymentsFor(s.paid, i) == []
  }

  lemma OutcomeOf(s: State, call: Call)
    requires Invariant(s) && OnPurchase(call) && call.id < |s.contracts| && MayCall(s, call)
    requires PaymentsFor(s.paid, call.id) == []
    ensures var p, v := s.contracts[call.id], Price(s);
      PaidByOutcome(v, s.vendor, NextPurchase(p, call),
                    Entry(s.books[call.id].paidIn + Wagered(v, call), AmountOf(Owed(v, s.vendor, p, call))),
                    Owed(v, s.vendor, p, call))
  {
    assert Balanced(Price(s), s.contracts[call.id].state, s.books[call.id]);
    hide Invariant, Price, PaymentsFor, TimeoutPassed;
  }

  lemma StillOpen(s: State, id: nat, payments: seq<Payment>, call: Call)
    requires Invariant(s) && OnPurchase(call) && call.id == id < |s.contracts| && MayCall(s, call)
    requires PaidByOutcome(Price(s), s.vendor, s.contracts[id], s.books[id], payments)
    ensures payments == []
  {
    hide Invariant, Price, TimeoutPassed;
  }

  lemma OneCall(s: State, call: Call) returns (owed: seq<Payment>)
    requires Invariant(s) && NamesCommonPrice(s, call) && Fits(s, call) && OnPurchase(call) && Step(s, call).Ok?
    requires AllPaid(s)
    ensures |owed| <= 1 && call.id < |s.contracts| && PaymentsFor(s.paid, call.id) == []
    ensures var after, id := Step(s, call).value, call.id;
      && |after.books| == |after.contracts| == |s.contracts| && |s.books| == |s.contracts|
      && after.contracts == s.contracts[id := after.contracts[id]] && after.books == s.books[id := after.books[id]]
      && after.vendor == s.vendor && Price(after) == Price(s) && after.paid == s.paid + Tagged(id, owed)
      && PaidByOutcome(Price(s), s.vendor, after.contracts[id], after.books[id], owed)
  {
    var p := s.contracts[call.id];
    owed := Owed(Price(s), s.vendor, p, call);
    AcceptedIff(s, call);
    AcceptedPays(s, call);
    PurchaseStep(s, call);
    assert |owed| <= 1;
    hide Invariant, NextPurchase, PaidByOutcome, MayCall, Step, Fits, NamesCommonPrice, TransferIsPaid, Owed;
    StillOpen(s, call.id, PaymentsFor(s.paid, call.id), call);
    OutcomeOf(s, call);
  }

  lemma PurchaseCallPays(s: State, call: Call)
    requires Invariant(s) && NamesCommonPrice(s, call) && Fits(s, call) && OnPurchase(call) && Step(s, call).Ok?
    requires AllPaid(s)
    ensures var after := Step(s, call).value; |after.books| == |after.contracts| && AllPaid(after)
  {
    var after, id := Step(s, call).value, call.id;
    hide Invariant, PaidByOutcome, Step, Fits, NamesCommonPrice, Price, PaymentsFor;
    var owed := OneCall(s, call);
    forall i: nat
      ensures if i < |after.contracts|
        then PaidByOutcome(Price(after), after.vendor, after.contracts[i], after.books[i], PaymentsFor(after.paid, i))
        else PaymentsFor(after.paid, i) == []
    {
      PaymentsAppend(s.paid, id, owed, i);
      assert [] + owed == owed && PaymentsFor(s.paid, i) + [] == PaymentsFor(s.paid, i);
    }
  }

  lemma NewPurchasePays(s: State, call: Call)
    requires Invariant(s) && AllPaid(s) && !OnPurchase(call) && Step(s, call).Ok?
    ensures var after := Step(s, call).value; |after.books| == |after.contracts| && AllPaid(after)
  {
    hide Balanced, Held, PaymentsFor;
    var after := Step(s, call).value;
    assert Price(after) == Price(s) || s.contracts == [];
    forall i: nat
      ensures if i < |after.contracts|
        then PaidByOutcome(Price(after), after.vendor, after.contracts[i], after.books[i], PaymentsFor(after.paid, i))
        else PaymentsFor(after.paid, i) == []
    {
      assert PaymentsFor(after.paid, i) == PaymentsFor(s.paid, i);
      if i < |s.contracts| {
        assert after.contracts[i] == s.contracts[i] && after.books[i] == s.books[i];
      }
    }
  }

  lemma StepPays(s: State, call: Call, after: State)
    requires Invariant(s) && AllPaid(s) && IsFair(s, call) && Leads(s, call, after)
    ensures |after.books| == |after.contracts| && AllPaid(after)
  {
    hide Invariant, AllPaid, Step, NamesCommonPrice, Fits;
    if Step(s, call).Ok? {
      if OnPurchase(call) {
        PurchaseCallPays(s, call);
      } else {
        NewPurchasePays(s, call);
      }
    }
  }

  // Over every run in which all accepted requests and aborts name an item priced like
  // item 0: for every purchase exactly those are paid that its outcome entitles.
  lemma {:induction false} EverybodyIsPaid(states: seq<State>, calls: seq<Call>, k: nat)
    requires IsRun(states, calls) && Starts(states[0]) && Fair(states, calls) && k <= |calls|
    ensures |states[k].books| == |states[k].contracts| && AllPaid(states[k])
    decreases k
  {
    if k > 0 {
      EverybodyIsPaid(states, calls, k - 1);
      FairSoFar(states, calls, k - 1);
      assert Leads(states[k - 1], calls[k - 1], states[k]) && IsFair(states[k - 1], calls[k - 1]);
      hide Invariant, AllPaid, Leads, IsFair;
      StepPays(states[k - 1], calls[k - 1], states[k]);
    }
  }

  // ----- opened commitments -----

  // What buyer and seller have last said about a purchase in a dispute.
  datatype Said = Said(commitment: Option<nat>, bit: Option<bool>)

  ghost function SaidAbout(states: seq<State>, calls: seq<Call>, id: nat, k: nat): Said
    requires IsRun(states, calls) && k <= |calls|
  {
    if k == 0 then Said(None, None)
    else
      var said, s, call := SaidAbout(states, calls, id, k - 1), states[k - 1], calls[k - 1];
      assert Leads(s, call, states[k]);
      if Step(s, call).Ok? then Heard(said, call, id) else said
  }

  ghost function Heard(said: Said, call: Call, id: nat): Said {
    match call
    case DisputeDelivery(_, i, commitment, _) => if i == id then said.(commitment := Some(commitment)) else said
    case CounterDispute(_, i, bit, _) => if i == id then said.(bit := Some(bit)) else said
    case _ => said
  }

  // The contract remembers what has been said.
  ghost predicate Remembers(s: State, id: nat, said: Said) {
    id < |s.contracts| ==> Holds(s.contracts[id], said)
  }

  ghost predicate Holds(p: Purchase, said: Said) {
    && (p.state in {Dispute, Counter} ==> said.commitment == Some(p.commit))
    && (p.state == Counter ==> said.bit == Some(p.sellerBit))
  }

  lemma NextHolds(s: State, p: Purchase, call: Call, said: Said)
    requires OnPurchase(call) && MayAct(s, p, call) && Holds(p, said)
    ensures Holds(NextPurchase(p, call), Heard(said, call, call.id))
  {
    hide TimeoutPassed, Price;
  }

  lemma OthersAreNotHeard(call: Call, id: nat, said: Said)
    requires OnPurchase(call) && call.id != id
    ensures Heard(said, call, id) == said
  {
  }

  lemma StepRemembers(s: State, call: Call, after: State, id: nat, said: Said)
    requires Invariant(s) && IsFair(s, call) && Leads(s, call, after) && Remembers(s, id, said)
    ensures Remembers(after, id, if Step(s, call).Ok? then Heard(said, call, id) else said)
  {
    if Step(s, call).Ok? && OnPurchase(call) {
      AcceptedIff(s, call);
      AcceptedPays(s, call);
      hide Invariant, Step, Fits, NamesCommonPrice, Owed, Tagged, MayAct, Price, Holds, NextPurchase, Heard;
      if id == call.id {
        NextHolds(s, s.contracts[id], call, said);
      } else {
        OthersAreNotHeard(call, id, said);
      }
    } else {
      hide Invariant, Fits, NamesCommonPrice, Owed, Tagged, TimeoutPassed, Price, Act, Apply, PriceFor;
    }
  }

  lemma {:induction false} RunRemembers(states: seq<State>, calls: seq<Call>, id: nat, k: nat)
    requires IsRun(states, calls) && Starts(states[0]) && Fair(states, calls) && k <= |calls|
    ensures Remembers(states[k], id, SaidAbout(states, calls, id, k))
    decreases k
  {
    if k > 0 {
      RunRemembers(states, calls, id, k - 1);
      FairSoFar(states, calls, k - 1);
      assert Leads(states[k - 1], calls[k - 1], states[k]) && IsFair(states[k - 1], calls[k - 1]);
      hide Invariant, Leads, IsFair, Remembers;
      StepRemembers(states[k - 1], calls[k - 1], states[k], id, SaidAbout(states, calls, id, k - 1));
    }
  }

  // A buyer who opens a commitment in a countered dispute must have committed to zero.
  // Twice the price goes to the buyer if the bit of the buyer equals the last bit that
  // the seller has sent for this purchase, and to the vendor if not.
  lemma OpeningDecides(states: seq<State>, calls: seq<Call>, k: nat)
    requires IsRun(states, calls) && Starts(states[0]) && Fair(states, calls) && k < |calls|
    requires calls[k].OpenCommitment? && |states[k].books| == |states[k].contracts| && Step(states[k], calls[k]).Ok?
    ensures var s, after, id := states[k], states[k + 1], calls[k].id;
      var said := SaidAbout(states, calls, id, k);
      && id < |s.contracts| && said.commitment == Some(0) && said.bit.Some?
      && PaymentsFor(after.paid, id)
         == [Payment(if calls[k].buyerBit == said.bit.value then s.contracts[id].buyer else s.vendor, 2 * Price(s))]
  {
    var s, call := states[k], calls[k];
    FairSoFar(states, calls, k);
    EverybodyIsPaid(states, calls, k);
    RunRemembers(states, calls, call.id, k);
    assert Leads(s, call, states[k + 1]) && IsFair(s, call);
    AcceptedIff(s, call);
    AcceptedPays(s, call);
    StillOpen(s, call.id, PaymentsFor(s.paid, call.id), call);
    PaymentsAppend(s.paid, call.id, Owed(Price(s), s.vendor, s.contracts[call.id], call), call.id);
    hide Invariant, Step, Fits, NamesCommonPrice, SaidAbout, PaymentsFor, Tagged, AllPaid, Price;
  }
}
