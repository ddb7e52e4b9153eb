// The auction contract (Auction/src/lib.rs): bids add up per account, and when
// the auction is over the owner gets the highest bid and everybody else gets
// their money back.
module Auctions {
  import opened Wrappers
  import opened Addresses
  import opened ByteCodecs
  import opened Totals

  datatype Status = NotSoldYet | Sold(winner: AccountAddress)

  datatype BidError = ContractSender | BidTooLow | BidsOverWaitingForAuctionFinalization | BidOnFinalized

  datatype FinalizeError = BidMapError | AuctionStillActive | AuctionFinalized

  // The state of the contract, its balance, and the transfers it has made.
  datatype Auction = Auction(
    owner: AccountAddress, status: Status, highestBid: nat, expiry: nat,
    bids: map<AccountAddress, nat>, balance: nat, paid: seq<Payment>)

  function Init(owner: AccountAddress, expiry: nat): Auction {
    Auction(owner, NotSoldYet, 0, expiry, map[], 0, [])
  }

  // ----- bid -----

  function BidOf(bids: map<AccountAddress, nat>, a: AccountAddress): nat {
    if a in bids then bids[a] else 0
  }

  // Amounts are 64-bit numbers, and their addition wraps around.
  function AddAmounts(a: nat, b: nat): nat {
    (a + b) % U64_RANGE
  }

  function BidStep(s: Auction, sender: Address, now: nat, amount: nat): Result<Auction, BidError> {
    if s.status != NotSoldYet then Err(BidOnFinalized)
    else if now > s.expiry then Err(BidsOverWaitingForAuctionFinalization)
    else if sender.Contract? then Err(ContractSender)
    else
      var bid := AddAmounts(BidOf(s.bids, sender.account), amount);
      if bid <= s.highestBid then Err(BidTooLow)
      else Ok(s.(bids := s.bids[sender.account := bid], highestBid := bid, balance := s.balance + amount))
  }

  // ----- finalize -----

  // A transfer succeeds exactly when the balance suffices.
  function Transfer(s: Auction, to: AccountAddress, amount: nat): Option<Auction> {
    if amount > s.balance then None
    else Some(s.(balance := s.balance - amount, paid := s.paid + [Payment(to, amount)]))
  }

  // Goes through the bids in some order, returns those below the highest, and
  // keeps the account of the one that is left.
  function ReturnBids(s: Auction, order: seq<AccountAddress>, remaining: Option<AccountAddress>)
    : Result<(Auction, Option<AccountAddress>), FinalizeError>
    requires forall i :: 0 <= i < |order| ==> order[i] in s.bids
    decreases |order|
  {
    if order == [] then Ok((s, remaining))
    else
      var a := order[0];
      if s.bids[a] < s.highestBid then
        match Transfer(s, a, s.bids[a])
        case None => Err(BidMapError)
        case Some(after) => ReturnBids(after, order[1..], remaining)
      else if remaining.Some? then Err(BidMapError)
      else ReturnBids(s, order[1..], Some(a))
  }

  function FinalizeStep(s: Auction, now: nat, order: seq<AccountAddress>): Result<Auction, FinalizeError>
    requires forall i :: 0 <= i < |order| ==> order[i] in s.bids
  {
    if s.status != NotSoldYet then Err(AuctionFinalized)
    else if now <= s.expiry then Err(AuctionStillActive)
    else if s.balance == 0 then Ok(s)
    else
      match Transfer(s, s.owner, s.highestBid)
      case None => Err(BidMapError)
      case Some(paidOwner) =>
        match ReturnBids(paidOwner, order, None)
        case Err(e) => Err(e)
        case Ok((after, None)) => Err(BidMapError)
        case Ok((after, Some(a))) =>
          if a !in after.bids || after.bids[a] != after.highestBid then Err(BidMapError)
          else Ok(after.(status := Sold(a)))
  }

  // ----- the contract as an object -----

  class AuctionContract {
    const owner: AccountAddress
    const expiry: nat
    var status: Status
    var highestBid: nat
    var bids: map<AccountAddress, nat>
    var balance: nat
    var paid: seq<Payment>

    ghost function State(): Auction
      reads this
    {
      Auction(owner, status, highestBid, expiry, bids, balance, paid)
    }

    constructor (owner: AccountAddress, expiry: nat)
      ensures State() == Init(owner, expiry)
    {
      this.owner := owner;
      this.expiry := expiry;
      status := NotSoldYet;
      highestBid := 0;
      bids := map[];
      balance := 0;
      paid := [];
    }

    method InvokeTransfer(to: AccountAddress, amount: nat) returns (ok: bool)
      modifies this`balance, this`paid
      ensures match Transfer(old(State()), to, amount)
        case None => !ok && State() == old(State())
        case Some(after) => ok && State() == after
    {
      ok := amount <= balance;
      if ok {
        balance := balance - amount;
        paid := paid + [Payment(to, amount)];
      }
    }

    // `auction_bid`; a rejected bid leaves the state of the chain as it was.
    method Bid(sender: Address, now: nat, amount: nat) returns (r: Result<(), BidError>)
      modifies this
      ensures match BidStep(old(State()), sender, now, amount)
        case Err(e) => r == Err(e) && State() == old(State())
        case Ok(after) => r == Ok(()) && State() == after
    {
      if status != NotSoldYet { return Err(BidOnFinalized); }
      if now > expiry { return Err(BidsOverWaitingForAuctionFinalization); }
      if sender.Contract? { return Err(ContractSender); }
      var a := sender.account;
      var before := bids;
      if a !in bids {
        bids := bids[a := 0];
      }
      bids := bids[a := AddAmounts(bids[a], amount)];
      if bids[a] <= highestBid {
        bids := before;
        return Err(BidTooLow);
      }
      highestBid := bids[a];
      balance := balance + amount;
      assert bids == before[a := AddAmounts(BidOf(before, a), amount)];
      return Ok(());
    }

    // `auction_finalize`, with the order in which the map yields its entries.
    method Finalize(now: nat) returns (r: Result<(), FinalizeError>, ghost order: seq<AccountAddress>)
      modifies this
      ensures Enumerates(order, old(bids).Keys)
      ensures match FinalizeStep(old(State()), now, order)
        case Err(e) => r == Err(e) && State() == old(State())
        case Ok(after) => r == Ok(()) && State() == after
    {
      var keys := Enumerate(bids.Keys);
      order := keys;
      if status != NotSoldYet { return Err(AuctionFinalized), order; }
      if now <= expiry { return Err(AuctionStillActive), order; }
      if balance == 0 { return Ok(()), order; }
      var balanceBefore, paidBefore := balance, paid;
      var ok := InvokeTransfer(owner, highestBid);
      if !ok { return Err(BidMapError), order; }
      var remaining := ReturnLosingBids(keys);
      if remaining.Err? || remaining.value.None? || bids[remaining.value.value] != highestBid {
        balance, paid := balanceBefore, paidBefore;
        return Err(BidMapError), order;
      }
      status := Sold(remaining.value.value);
      return Ok(()), order;
    }

    method ReturnLosingBids(order: seq<AccountAddress>) returns (r: Result<Option<AccountAddress>, FinalizeError>)
      requires forall i :: 0 <= i < |order| ==> order[i] in bids
      modifies this`balance, this`paid
      ensures match ReturnBids(old(State()), order, None)
        case Err(e) => r == Err(e) && e == BidMapError
        case Ok((after, remaining)) =>
          r == Ok(remaining) && State() == after && (remaining.Some? ==> remaining.value in bids)
    {
      var remaining: Option<AccountAddress> := None;
      for i := 0 to |order|
        invariant ReturnBids(State(), order[i..], remaining) == ReturnBids(old(State()), order, None)
        invariant remaining.Some? ==> remaining.value in bids
      {
        ghost var now := State();
        assert order[i..][1..] == order[i + 1..];
        var a := order[i];
        if bids[a] < highestBid {
          var ok := InvokeTransfer(a, bids[a]);
          if !ok {
            return Err(BidMapError);
          }
        } else {
          if remaining.Some? {
            return Err(BidMapError);
          }
          remaining := Some(a);
        }
      }
      return Ok(remaining);
    }
  }

  // ----- the invariant -----

  ghost predicate IsWinner(bids: map<AccountAddress, nat>, highest: nat, w: AccountAddress) {
    w in bids && bids[w] == highest && forall a :: a in bids && a != w ==> 0 < bids[a] < highest
  }

  // Before the sale the balance is the sum of the bids, and the highest bid is
  // held by exactly one bidder.
  ghost predicate Running(s: Auction) {
    && s.status == NotSoldYet && s.paid == [] && s.balance == Total(s.bids) && s.highestBid < U64_RANGE
    && if s.bids == map[] then s.highestBid == 0
       else s.highestBid > 0 && exists w :: IsWinner(s.bids, s.highestBid, w)
  }

  lemma InitRuns(owner: AccountAddress, expiry: nat)
    ensures Running(Init(owner, expiry))
  {
  }

  // A bid is accepted exactly if it comes from an account, no later than the expiry,
  // and together with the account's earlier bids it exceeds the highest bid, without
  // wrapping around. It then leads, and no other bid changes.
  lemma BidAcceptedIff(s: Auction, sender: Address, now: nat, amount: nat)
    requires Running(s) && amount < U64_RANGE
    ensures BidStep(s, sender, now, amount).Ok? <==>
      now <= s.expiry && sender.Account? && s.highestBid < BidOf(s.bids, sender.account) + amount < U64_RANGE
    ensures BidStep(s, sender, now, amount).Ok? ==>
      var after, a := BidStep(s, sender, now, amount).value, sender.account;
      && after.highestBid == BidOf(after.bids, a) == BidOf(s.bids, a) + amount
      && (forall b :: b != a ==> (b in after.bids <==> b in s.bids) && BidOf(after.bids, b) == BidOf(s.bids, b))
      && after.balance == s.balance + amount && after.status == s.status && after.paid == s.paid
  {
    if sender.Account? {
      EarlierBid(s, sender.account);
      hide Running;
      WrapOnce(BidOf(s.bids, sender.account) + amount);
    }
  }

  lemma EarlierBid(s: Auction, a: AccountAddress)
    requires Running(s)
    ensures BidOf(s.bids, a) <= s.highestBid < U64_RANGE && s.status == NotSoldYet
  {
    if s.bids != map[] {
      var w :| IsWinner(s.bids, s.highestBid, w);
    }
  }

  lemma WrapOnce(n: nat)
    requires n < 2 * U64_RANGE
    ensures n % U64_RANGE == if n < U64_RANGE then n else n - U64_RANGE
  {
  }

  // A bid that wraps around is never accepted.
  lemma AcceptedBidIsExact(s: Auction, sender: Address, now: nat, amount: nat)
    requires Running(s) && amount < U64_RANGE && BidStep(s, sender, now, amount).Ok?
    ensures sender.Account?
        && AddAmounts(BidOf(s.bids, sender.account), amount) == BidOf(s.bids, sender.account) + amount
    ensures amount > 0
  {
    var a := sender.account;
    if s.bids != map[] {
      var w :| IsWinner(s.bids, s.highestBid, w);
      assert BidOf(s.bids, a) <= s.highestBid;
    }
  }

  lemma BidRuns(s: Auction, sender: Address, now: nat, amount: nat)
    requires Running(s) && amount < U64_RANGE && BidStep(s, sender, now, amount).Ok?
    ensures Running(BidStep(s, sender, now, amount).value)
  {
    var s', a := BidStep(s, sender, now, amount).value, sender.account;
    AcceptedBidIsExact(s, sender, now, amount);
    TotalUpdate(s.bids, a, s'.highestBid);
    if s.bids != map[] {
      var w :| IsWinner(s.bids, s.highestBid, w);
    }
    assert IsWinner(s'.bids, s'.highestBid, a);
  }

  // ----- finalizing -----

  // What is paid back to the losers, in order.
  function Refunds(bids: map<AccountAddress, nat>, w: AccountAddress, order: seq<AccountAddress>): seq<Payment>
    requires forall i :: 0 <= i < |order| ==> order[i] in bids
  {
    if order == [] then []
    else (if order[0] == w then [] else [Payment(order[0], bids[order[0]])]) + Refunds(bids, w, order[1..])
  }

  // The bids that are still to be gone through, and what is left to pay them.
  ghost predicate Returning(s: Auction, w: AccountAddress, left: map<AccountAddress, nat>,
      remaining: Option<AccountAddress>) {
    && IsWinner(s.bids, s.highestBid, w)
    && (forall a :: a in left ==> a in s.bids && left[a] == s.bids[a])
    && s.balance + (if w in left then s.highestBid else 0) == Total(left)
    && remaining == if w in left then None else Some(w)
  }

  lemma ReturnOne(s: Auction, w: AccountAddress, left: map<AccountAddress, nat>, remaining: Option<AccountAddress>,
      a: AccountAddress)
    requires Returning(s, w, left, remaining) && a in left
    ensures a == w ==> s.bids[a] == s.highestBid && remaining == None && Returning(s, w, left - {a}, Some(a))
    ensures a != w ==> s.bids[a] < s.highestBid && s.bids[a] <= s.balance
                       && Returning(s.(balance := s.balance - s.bids[a], paid := s.paid + [Payment(a, s.bids[a])]), w,
                           left - {a}, remaining)
  {
    TotalWithout(left, a);
    if a != w && w in left {
      TotalBounds(left - {a}, w);
    }
  }

  lemma ReturnUnfold(s: Auction, order: seq<AccountAddress>, remaining: Option<AccountAddress>)
    requires order != [] && forall i :: 0 <= i < |order| ==> order[i] in s.bids
    ensures var a := order[0];
      ReturnBids(s, order, remaining) ==
        if s.bids[a] < s.highestBid then
          (match Transfer(s, a, s.bids[a])
           case None => Err(BidMapError)
           case Some(after) => ReturnBids(after, order[1..], remaining))
        else if remaining.Some? then Err(BidMapError)
        else ReturnBids(s, order[1..], Some(a))
  {
  }

  // What the loop should return.
  ghost predicate ReturnsAll(s: Auction, w: AccountAddress, order: seq<AccountAddress>,
      remaining: Option<AccountAddress>) {
    && (forall i :: 0 <= i < |order| ==> order[i] in s.bids)
    && ReturnBids(s, order, remaining) == Ok((s.(balance := 0, paid := s.paid + Refunds(s.bids, w, order)), Some(w)))
  }

  lemma LoserStep(s: Auction, after: Auction, w: AccountAddress, order: seq<AccountAddress>,
      remaining: Option<AccountAddress>)
    requires order != [] && forall i :: 0 <= i < |order| ==> order[i] in s.bids
    requires order[0] != w && s.bids[order[0]] < s.highestBid && s.bids[order[0]] <= s.balance
    requires after
        == s.(balance := s.balance - s.bids[order[0]], paid := s.paid + [Payment(order[0], s.bids[order[0]])])
    requires ReturnsAll(after, w, order[1..], remaining)
    ensures ReturnsAll(s, w, order, remaining)
  {
    ReturnUnfold(s, order, remaining);
    var a, more := order[0], Refunds(s.bids, w, order[1..]);
    assert Refunds(s.bids, w, order) == [Payment(a, s.bids[a])] + more;
    assert s.paid + [Payment(a, s.bids[a])] + more == s.paid + ([Payment(a, s.bids[a])] + more);
  }

  lemma WinnerStep(s: Auction, w: AccountAddress, order: seq<AccountAddress>)
    requires order != [] && forall i :: 0 <= i < |order| ==> order[i] in s.bids
    requires order[0] == w && s.bids[w] == s.highestBid
    requires ReturnsAll(s, w, order[1..], Some(w))
    ensures ReturnsAll(s, w, order, None)
  {
    ReturnUnfold(s, order, None);
    assert Refunds(s.bids, w, order) == [] + Refunds(s.bids, w, order[1..]) == Refunds(s.bids, w, order[1..]);
  }

  lemma {:induction false} RefundsSucceed(s: Auction, w: AccountAddress, order: seq<AccountAddress>,
      left: map<AccountAddress, nat>,
                                          remaining: Option<AccountAddress>)
    requires Returning(s, w, left, remaining) && Enumerates(order, left.Keys)
    ensures ReturnsAll(s, w, order, remaining)
    decreases |order|
  {
    forall i | 0 <= i < |order| ensures order[i] in s.bids { assert order[i] in left.Keys; }
    if order == [] {
      assert left == map[];
      assert s.paid + [] == s.paid;
    } else {
      var a, rest := order[0], left - {order[0]};
      EnumeratesRest(order, left.Keys);
      assert rest.Keys == left.Keys - {a};
      ReturnOne(s, w, left, remaining, a);
      hide Returning, IsWinner, Total, Enumerates, ReturnsAll;
      if a == w {
        RefundsSucceed(s, w, order[1..], rest, Some(a));
        WinnerStep(s, w, order);
      } else {
        var after := s.(balance := s.balance - s.bids[a], paid := s.paid + [Payment(a, s.bids[a])]);
        RefundsSucceed(after, w, order[1..], rest, remaining);
        LoserStep(s, after, w, order, remaining);
      }
    }
  }

  // After the expiry, finalizing an auction with bids always succeeds: it pays
  // the owner the highest bid, pays every loser the own bid, names the one
  // highest bidder as the winner and empties the balance.
  lemma FinalizeSucceeds(s: Auction, now: nat, order: seq<AccountAddress>, w: AccountAddress)
    requires Running(s) && now > s.expiry && s.bids != map[] && IsWinner(s.bids, s.highestBid, w)
    requires Enumerates(order, s.bids.Keys)
    ensures FinalizeStep(s, now, order) ==
      Ok(s.(status := Sold(w), balance := 0, paid := [Payment(s.owner, s.highestBid)] + Refunds(s.bids, w, order)))
  {
    TotalBounds(s.bids, w);
    var paidOwner := Transfer(s, s.owner, s.highestBid).value;
    RefundsSucceed(paidOwner, w, order, s.bids, None);
    assert s.paid + [Payment(s.owner, s.highestBid)] == [Payment(s.owner, s.highestBid)];
  }

  // Without bids nothing happens.
  lemma FinalizeWithoutBids(s: Auction, now: nat, order: seq<AccountAddress>)
    requires Running(s) && now > s.expiry && Enumerates(order, s.bids.Keys)
    ensures s.balance == 0 <==> s.bids == map[]
    ensures s.bids == map[] ==> FinalizeStep(s, now, order) == Ok(s)
  {
    if s.bids != map[] {
      var w :| IsWinner(s.bids, s.highestBid, w);
      TotalBounds(s.bids, w);
    }
  }

  // ----- who gets what -----

  function PaidTo(a: AccountAddress, paid: seq<Payment>): nat {
    if paid == [] then 0
    else (if paid[0].to == a then paid[0].amount else 0) + PaidTo(a, paid[1..])
  }

  lemma {:induction false} RefundOf(bids: map<AccountAddress, nat>, w: AccountAddress, order: seq<AccountAddress>,
      keys: set<AccountAddress>, a: AccountAddress)
    requires Enumerates(order, keys) && keys <= bids.Keys
    ensures forall i :: 0 <= i < |order| ==> order[i] in bids
    ensures PaidTo(a, Refunds(bids, w, order)) == if a in keys && a != w then bids[a] else 0
    decreases |order|
  {
    if order == [] {
      assert keys == {};
    } else {
      EnumeratesRest(order, keys);
      RefundOf(bids, w, order[1..], keys - {order[0]}, a);
      var payments := Refunds(bids, w, order);
      if order[0] != w {
        assert payments[1..] == Refunds(bids, w, order[1..]);
      } else {
        assert payments == Refunds(bids, w, order[1..]);
      }
    }
  }

  // ----- runs -----

  datatype Call = CallBid(sender: Address, now: nat, amount: nat) | CallFinalize(now: nat, order: seq<AccountAddress>)

  // Amounts fit in 64 bits, and finalizing goes through all bids.
  ghost predicate Fits(s: Auction, call: Call) {
    match call
    case CallBid(_, _, amount) => amount < U64_RANGE
    case CallFinalize(_, order) => Enumerates(order, s.bids.Keys)
  }

  ghost function Step(s: Auction, call: Call): Auction
    requires Fits(s, call)
  {
    match call
    case CallBid(sender, now, amount) =>
      (match BidStep(s, sender, now, amount) case Ok(after) => after case Err(_) => s)
    case CallFinalize(now, order) => (match FinalizeStep(s, now, order) case Ok(after) => after case Err(_) => s)
  }

  // The states that a sequence of calls goes through.
  ghost predicate IsRun(states: seq<Auction>, calls: seq<Call>) {
    |states| == |calls| + 1 && forall i :: 0 <= i < |calls| ==> Leads(states[i], calls[i], states[i + 1])
  }

  ghost predicate Leads(s: Auction, call: Call, after: Auction) {
    Fits(s, call) && after == Step(s, call)
  }

  // What a call pays in for an account: the amount, if the bid is in time, leads, and
  // fits in 64 bits.
  function Pays(s: Auction, call: Call, a: AccountAddress): nat {
    if call.CallBid? && call.sender == Account(a) && s.status == NotSoldYet && call.now <= s.expiry
       && s.highestBid < BidOf(s.bids, a) + call.amount < U64_RANGE
    then call.amount else 0
  }

  // What an account has paid in with accepted bids.
  function PaidIn(states: seq<Auction>, calls: seq<Call>, a: AccountAddress): nat
    requires |states| == |calls| + 1
  {
    if calls == [] then 0
    else PaidIn(states[..|calls|], calls[..|calls| - 1], a) + Pays(states[|calls| - 1], calls[|calls| - 1], a)
  }

  // The books after the sale.
  ghost predicate Settled(s: Auction) {
    && s.status.Sold? && s.balance == 0 && IsWinner(s.bids, s.highestBid, s.status.winner)
    && forall a :: PaidTo(a, s.paid) == (if a == s.owner then s.highestBid else 0)
                                        + (if a == s.status.winner then 0 else BidOf(s.bids, a))
  }

  lemma FinalizeSettles(s: Auction, now: nat, order: seq<AccountAddress>)
    requires Running(s) && Enumerates(order, s.bids.Keys)
    ensures var after := Step(s, CallFinalize(now, order));
      if now > s.expiry && s.bids != map[]
      then Settled(after) && after.bids == s.bids && after.owner == s.owner
      else after == s
  {
    if now > s.expiry {
      FinalizeWithoutBids(s, now, order);
      if s.bids != map[] {
        var w :| IsWinner(s.bids, s.highestBid, w);
        FinalizeSucceeds(s, now, order, w);
        var after := Step(s, CallFinalize(now, order));
        forall a
          ensures PaidTo(a, after.paid)
              == (if a == s.owner then s.highestBid else 0) + (if a == w then 0 else BidOf(s.bids, a))
        {
          RefundOf(s.bids, w, order, s.bids.Keys, a);
          assert after.paid[1..] == Refunds(s.bids, w, order);
        }
      }
    }
  }

  lemma StepKeeps(s: Auction, call: Call)
    requires Fits(s, call) && (Running(s) || Settled(s))
    ensures Running(Step(s, call)) || Settled(Step(s, call))
    ensures Step(s, call).owner == s.owner && Step(s, call).expiry == s.expiry
    ensures Settled(s) ==> Step(s, call) == s
    ensures forall a :: BidOf(Step(s, call).bids, a) == BidOf(s.bids, a) + Pays(s, call, a)
    ensures call.CallBid? && call.now > s.expiry ==> Step(s, call) == s
    ensures call.CallFinalize? ==> Step(s, call).bids == s.bids && Step(s, call).highestBid == s.highestBid
  {
    if Running(s) {
      match call
      case CallBid(sender, now, amount) =>
        BidAcceptedIff(s, sender, now, amount);
        if BidStep(s, sender, now, amount).Ok? {
          BidRuns(s, sender, now, amount);
        }
        hide Running, Settled, AddAmounts;
      case CallFinalize(now, order) =>
        FinalizeSettles(s, now, order);
        FinalizeKeeps(s, now, order);
    }
  }

  lemma FinalizeKeeps(s: Auction, now: nat, order: seq<AccountAddress>)
    requires Running(s) && Enumerates(order, s.bids.Keys)
    ensures var after := Step(s, CallFinalize(now, order));
      after.bids == s.bids && after.highestBid == s.highestBid && after.expiry == s.expiry
  {
    FinalizeSettles(s, now, order);
    if now > s.expiry && s.bids != map[] {
      var w :| IsWinner(s.bids, s.highestBid, w);
      FinalizeSucceeds(s, now, order, w);
    }
  }

  // Over every run: an account's bid is what it has paid in. While the auction
  // runs the balance is the sum of these; once it is sold, the unique highest
  // bidder has won, the owner has received the highest bid, and everybody else
  // has received exactly what they paid in.
  lemma {:induction false} AuctionSettles(owner: AccountAddress, expiry: nat, states: seq<Auction>, calls: seq<Call>)
    requires IsRun(states, calls) && states[0] == Init(owner, expiry)
    ensures Running(states[|calls|]) || Settled(states[|calls|])
    ensures states[|calls|].owner == owner
    ensures forall a :: BidOf(states[|calls|].bids, a) == PaidIn(states, calls, a)
  {
    if calls == [] {
      InitRuns(owner, expiry);
    } else {
      var n := |calls| - 1;
      assert Leads(states[n], calls[n], states[n + 1]);
      AuctionSettles(owner, expiry, states[..n + 1], calls[..n]);
      hide Running, Settled, Step, BidStep;
      StepKeeps(states[n], calls[n]);
    }
  }

  // A call that comes too late to bid.
  ghost predicate IsLate(call: Call, expiry: nat) {
    call.CallBid? ==> call.now > expiry
  }

  // Over every run: once no call is a bid made in time any more, the bids are final,
  // and if the item is sold, it is sold to the unique highest bidder at that point.
  lemma {:induction false} BidsAreFinal(owner: AccountAddress, expiry: nat, states: seq<Auction>, calls: seq<Call>,
      k: nat)
    requires IsRun(states, calls) && states[0] == Init(owner, expiry) && k <= |calls|
    requires forall i :: k <= i < |calls| ==> IsLate(calls[i], expiry)
    ensures var end := states[|calls|];
      && end.bids == states[k].bids && end.highestBid == states[k].highestBid && end.expiry == expiry
      && (end.status.Sold? ==> IsWinner(states[k].bids, states[k].highestBid, end.status.winner))
    decreases |calls|
  {
    var n := |calls| - 1;
    AuctionSettles(owner, expiry, states, calls);
    if k < |calls| {
      BidsAreFinal(owner, expiry, states[..n + 1], calls[..n], k);
      AuctionSettles(owner, expiry, states[..n + 1], calls[..n]);
      assert Leads(states[n], calls[n], states[n + 1]) && IsLate(calls[n], expiry);
      hide Running, Step, BidStep, PaidIn, Pays;
      StepKeeps(states[n], calls[n]);
    } else {
      KeepsExpiry(owner, expiry, states, calls);
      hide Step;
    }
  }

  lemma {:induction false} KeepsExpiry(owner: AccountAddress, expiry: nat, states: seq<Auction>, calls: seq<Call>)
    requires IsRun(states, calls) && states[0] == Init(owner, expiry)
    ensures states[|calls|].expiry == expiry
  {
    if calls != [] {
      var n := |calls| - 1;
      KeepsExpiry(owner, expiry, states[..n + 1], calls[..n]);
      AuctionSettles(owner, expiry, states[..n + 1], calls[..n]);
      assert Leads(states[n], calls[n], states[n + 1]);
      hide Running, Settled, Step, BidStep, PaidIn, Pays;
      StepKeeps(states[n], calls[n]);
    }
  }
}
