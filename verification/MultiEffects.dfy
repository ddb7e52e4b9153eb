// What the calls of the multi token contract do, and exactly when they are
// accepted: the balances, and who is an operator of whom, before and after.
module MultiEffects {
  import opened Wrappers
  import opened Addresses
  import opened ByteCodecs
  import opened Cis1
  import opened Cis1Multi

  // ----- transfers -----

  ghost predicate SameOperators(s: State, after: State) {
    forall a :: Of(after, a).operators == Of(s, a).operators
  }

  // The amount goes from one balance to another; nothing else changes. The balance of
  // the receiver wraps around in 64 bits.
  ghost predicate Moved(s: State, after: State, token: TokenId, amount: TokenAmount, from: Address, to: Address) {
    && after.tokens == s.tokens && SameOperators(s, after)
    && BalanceIn(Of(s, from), token) >= amount
    && (from != to ==>
          && BalanceIn(Of(after, from), token) == BalanceIn(Of(s, from), token) - amount
          && BalanceIn(Of(after, to), token) == (BalanceIn(Of(s, to), token) + amount) % U64_RANGE)
    && (from == to ==> BalanceIn(Of(after, to), token) == BalanceIn(Of(s, to), token))
    && (forall a :: a != from && a != to ==> Of(after, a) == Of(s, a))
    && forall a, t :: t != token ==> BalanceIn(Of(after, a), t) == BalanceIn(Of(s, a), t)
  }

  // Whether an address can give an amount of a token away.
  ghost predicate CanGive(s: State, token: TokenId, amount: TokenAmount, from: Address) {
    token in s.tokens && amount <= BalanceIn(Of(s, from), token)
  }

  lemma TransferTokenIff(s: State, token: TokenId, amount: TokenAmount, from: Address, to: Address)
    ensures TransferToken(s, token, amount, from, to).Ok? <==> CanGive(s, token, amount, from)
    ensures CanGive(s, token, 0, from) ==> TransferToken(s, token, 0, from, to) == Ok(s)
    ensures CanGive(s, token, amount, from) && amount > 0 ==>
              Moved(s, TransferToken(s, token, amount, from, to).value, token, amount, from, to)
  {
    if CanGive(s, token, amount, from) && amount > 0 {
      AmountMoves(s, token, amount, from, to);
    }
    hide Moved, Credit, SameOperators;
  }

  lemma AmountMoves(s: State, token: TokenId, amount: TokenAmount, from: Address, to: Address)
    requires CanGive(s, token, amount, from) && amount > 0
    ensures TransferToken(s, token, amount, from, to).Ok?
    ensures Moved(s, TransferToken(s, token, amount, from, to).value, token, amount, from, to)
  {
  }

  // Who may transfer: the owner of the token, or one of the owner's operators.
  ghost predicate MayTransfer(s: State, sender: Address, from: Address) {
    sender == from || sender in Of(s, from).operators
  }

  // A call with one transfer to an account is accepted exactly if its sender may
  // transfer for the payer, and the payer's balance covers the amount, which then
  // moves to the account.
  lemma OneTransferIff(s: State, contractOwner: AccountAddress, sender: Address, t: TransferItem<MintItem>)
    requires t.to.ToAccount?
    ensures var r := Execute(s, contractOwner, Transfer(sender, [t]));
      && (r.Ok? <==> MayTransfer(s, sender, t.from) && CanGive(s, t.token, t.amount, t.from))
      && (r.Ok? ==> if t.amount == 0 then r.value == s
                    else Moved(s, r.value, t.token, t.amount, t.from, Account(t.to.account)))
  {
    TransferTokenIff(s, t.token, t.amount, t.from, Account(t.to.account));
    hide TransferToken, CanGive, Moved;
    OneItem(s, contractOwner, sender, t);
  }

  lemma OneItem(s: State, contractOwner: AccountAddress, sender: Address, t: TransferItem<MintItem>)
    ensures Execute(s, contractOwner, Transfer(sender, [t])) ==
      if !MayTransfer(s, sender, t.from) then Err(Unauthorized)
      else
        match TransferToken(s, t.token, t.amount, t.from, AddressOf(t.to))
        case Err(e) => Err(e)
        case Ok(moved) => Notify(moved, contractOwner, t)
  {
    hide TransferToken, Notify;
    assert [t][0] == t && [t][1..] == [];
    if MayTransfer(s, sender, t.from) && TransferToken(s, t.token, t.amount, t.from, AddressOf(t.to)).Ok? {
      var moved := TransferToken(s, t.token, t.amount, t.from, AddressOf(t.to)).value;
      if Notify(moved, contractOwner, t).Ok? {
        assert ExecuteTransfers(Notify(moved, contractOwner, t).value, contractOwner, sender, [],
                                if t.to.ToAccount? then 1 else 0) == Notify(moved, contractOwner, t);
      }
    }
  }

  // Calls made by another contract follow one another; a rejected one changes nothing.
  lemma {:induction false} CallsAreSequential(s: State, contractOwner: AccountAddress, a: seq<Call<MintItem>>,
      b: seq<Call<MintItem>>)
    ensures ExecuteAll(s, contractOwner, a + b) == ExecuteAll(ExecuteAll(s, contractOwner, a), contractOwner, b)
    ensures |a| == 1 ==>
      var end := match Execute(s, contractOwner, a[0]) case Ok(after) => after case Err(_) => s;
      ExecuteAll(s, contractOwner, a) == end
    decreases |a|
  {
    if a == [] {
      assert a + b == b;
    } else {
      assert (a + b)[1..] == a[1..] + b;
      var next := match Execute(s, contractOwner, a[0]) case Ok(after) => after case Err(_) => s;
      CallsAreSequential(next, contractOwner, a[1..], b);
    }
  }

  // A receiving contract can reject the transfer. If it accepts, the calls that it
  // makes come after the amount has moved.
  lemma TransferToContractIff(s: State, contractOwner: AccountAddress, sender: Address, t: TransferItem<MintItem>)
    requires t.to.ToContract?
    ensures var r := Execute(s, contractOwner, Transfer(sender, [t]));
      && (r.Ok? <==> MayTransfer(s, sender, t.from) && CanGive(s, t.token, t.amount, t.from) && t.to.reaction.accepts)
      && (r.Ok? ==> r.value == ExecuteAll(TransferToken(s, t.token, t.amount, t.from, AddressOf(t.to)).value,
                                          contractOwner, t.to.reaction.calls))
  {
    TransferTokenIff(s, t.token, t.amount, t.from, AddressOf(t.to));
    hide TransferToken, CanGive, Moved;
    OneItem(s, contractOwner, sender, t);
  }

  // ----- several transfers -----

  ghost predicate ToAccounts(transfers: seq<TransferItem<MintItem>>) {
    forall i :: 0 <= i < |transfers| ==> transfers[i].to.ToAccount?
  }

  lemma {:induction false} EarlierLogs(s: State, contractOwner: AccountAddress, sender: Address,
      transfers: seq<TransferItem<MintItem>>, logged: nat)
    requires ToAccounts(transfers)
    ensures var r := ExecuteTransfers(s, contractOwner, sender, transfers, logged);
      && (logged + |transfers| <= MAX_LOGS ==> r == ExecuteTransfers(s, contractOwner, sender, transfers, 0))
      && (transfers != [] && logged + |transfers| > MAX_LOGS ==> r.Err?)
    decreases |transfers|
  {
    if transfers != [] {
      var t := transfers[0];
      hide TransferToken, Execute;
      if (t.from == sender || IsOperator(s, sender, t.from))
         && TransferToken(s, t.token, t.amount, t.from, AddressOf(t.to)).Ok? {
        var moved := TransferToken(s, t.token, t.amount, t.from, AddressOf(t.to)).value;
        assert Notify(moved, contractOwner, t) == Ok(moved);
        EarlierLogs(moved, contractOwner, sender, transfers[1..], logged + 1);
        EarlierLogs(moved, contractOwner, sender, transfers[1..], 1);
      }
    }
  }

  // Up to 64 transfers to accounts act like one call for each of them, all or
  // nothing; more of them are always rejected.
  lemma TransfersAreSequential(s: State, contractOwner: AccountAddress, sender: Address,
      transfers: seq<TransferItem<MintItem>>)
    requires ToAccounts(transfers) && transfers != []
    ensures |transfers| <= MAX_LOGS ==>
      Execute(s, contractOwner, Transfer(sender, transfers)) ==
      match Execute(s, contractOwner, Transfer(sender, transfers[..1]))
      case Err(e) => Err(e)
      case Ok(mid) => Execute(mid, contractOwner, Transfer(sender, transfers[1..]))
    ensures |transfers| > MAX_LOGS ==> Execute(s, contractOwner, Transfer(sender, transfers)).Err?
  {
    var t := transfers[0];
    EarlierLogs(s, contractOwner, sender, transfers, 0);
    OneItem(s, contractOwner, sender, t);
    assert transfers[..1] == [t];
    hide TransferToken;
    if MayTransfer(s, sender, t.from) && TransferToken(s, t.token, t.amount, t.from, AddressOf(t.to)).Ok? {
      var moved := TransferToken(s, t.token, t.amount, t.from, AddressOf(t.to)).value;
      EarlierLogs(moved, contractOwner, sender, transfers[1..], 1);
    }
  }

  // ----- minting -----

  // How much of a token a list mints.
  function Sum(items: seq<MintItem>, token: TokenId): nat {
    if items == [] then 0 else (if items[0].token == token then items[0].amount else 0) + Sum(items[1..], token)
  }

  function TokensOf(items: seq<MintItem>): set<TokenId> {
    set item | item in items :: item.token
  }

  // The amounts have been added to the balance of the owner, and nothing else changed.
  ghost predicate HasMinted(s: State, after: State, owner: Address, amount: nat, token: TokenId) {
    && BalanceIn(Of(after, owner), token) == (BalanceIn(Of(s, owner), token) + amount) % U64_RANGE
    && Of(after, owner).operators == Of(s, owner).operators
    && forall a :: a != owner ==> Of(after, a) == Of(s, a)
  }

  lemma {:induction false} MintsAre(s: State, owner: Address, items: seq<MintItem>, logged: nat, token: TokenId)
    ensures var r := MintAll(s, owner, items, logged);
      && (r.Ok? <==> items == [] || logged + 2 * |items| <= MAX_LOGS)
      && (r.Ok? ==> HasMinted(s, r.value, owner, Sum(items, token), token))
      && (r.Ok? ==> r.value.tokens == s.tokens + TokensOf(items))
    decreases |items|
  {
    if items != [] {
      var minted := MintToken(s, items[0].token, items[0].amount, owner);
      OneMint(s, owner, items[0], token);
      SumFirst(items, token);
      assert minted.tokens + TokensOf(items[1..]) == s.tokens + TokensOf(items);
      hide MintToken, HasMinted, Sum, TokensOf, Of;
      MintsAre(minted, owner, items[1..], logged + 2, token);
      if MintAll(s, owner, items, logged).Ok? {
        MintedTwice(s, minted, MintAll(s, owner, items, logged).value, owner,
                    if items[0].token == token then items[0].amount else 0, Sum(items[1..], token), token);
      }
    } else {
      assert TokensOf(items) == {};
    }
  }

  lemma MintedTwice(s: State, mid: State, after: State, owner: Address, a: nat, b: nat, token: TokenId)
    requires HasMinted(s, mid, owner, a, token) && HasMinted(mid, after, owner, b, token)
    ensures HasMinted(s, after, owner, a + b, token)
  {
    WrapTwice(BalanceIn(Of(s, owner), token) + a, b);
    hide Of, BalanceIn;
  }

  lemma SumFirst(items: seq<MintItem>, token: TokenId)
    requires items != []
    ensures Sum(items, token) == (if items[0].token == token then items[0].amount else 0) + Sum(items[1..], token)
    ensures TokensOf(items) == {items[0].token} + TokensOf(items[1..])
  {
    assert items == [items[0]] + items[1..];
  }

  lemma WrapTwice(a: nat, b: nat)
    ensures (a % U64_RANGE + b) % U64_RANGE == (a + b) % U64_RANGE
  {
  }

  lemma OneMint(s: State, owner: Address, item: MintItem, token: TokenId)
    ensures var after := MintToken(s, item.token, item.amount, owner);
      && HasMinted(s, after, owner, if item.token == token then item.amount else 0, token)
      && after.tokens == s.tokens + {item.token}
  {
  }

  // Only the owner of the contract can mint, at most 32 items at once. The amounts go
  // to the given owner, and nothing else changes.
  lemma MintIff(s: State, contractOwner: AccountAddress, sender: Address, owner: Address, items: seq<MintItem>,
      token: TokenId)
    ensures var r := Execute(s, contractOwner, Mint(sender, owner, items));
      && (r.Ok? <==> sender == Account(contractOwner) && |items| <= 32)
      && (r.Ok? ==> HasMinted(s, r.value, owner, Sum(items, token), token))
      && (r.Ok? ==> r.value.tokens == s.tokens + TokensOf(items))
  {
    MintsAre(s, owner, items, 0, token);
    hide MintAll, HasMinted, Sum;
  }

  // ----- operators -----

  lemma {:induction false} UpdatesAre(s: State, sender: Address, updates: seq<OperatorUpdate>, logged: nat, x: Address)
    ensures var r := UpdateAll(s, sender, updates, logged);
      && (r.Ok? <==> updates == [] || logged + |updates| <= MAX_LOGS)
      && (r.Ok? ==> && (x in Of(r.value, sender).operators <==>
                          OperatorAfter(x in Of(s, sender).operators, updates, x))
                    && Of(r.value, sender).balances == Of(s, sender).balances
                    && (x != sender ==> Of(r.value, x) == Of(s, x)) && r.value.tokens == s.tokens)
    decreases |updates|
  {
    if updates != [] {
      OneUpdate(s, sender, updates[0], x);
      OperatorAfterFirst(x in Of(s, sender).operators, updates, x);
      hide ApplyUpdate, OperatorAfter, Of;
      UpdatesAre(ApplyUpdate(s, sender, updates[0]), sender, updates[1..], logged + 1, x);
    }
  }

  lemma OneUpdate(s: State, sender: Address, update: OperatorUpdate, x: Address)
    ensures var after := ApplyUpdate(s, sender, update);
      && (x in Of(after, sender).operators <==> OperatorAfter(x in Of(s, sender).operators, [update], x))
      && Of(after, sender).balances == Of(s, sender).balances
      && (x != sender ==> Of(after, x) == Of(s, x)) && after.tokens == s.tokens
  {
    assert [update][..0] == [];
  }

  // Anybody can change their own operators, with at most 64 updates at once; the last
  // update of an address decides, and no other address and no token is affected.
  lemma UpdateOperatorIff(s: State, contractOwner: AccountAddress, sender: Address, updates: seq<OperatorUpdate>,
      x: Address)
    ensures var r := Execute(s, contractOwner, UpdateOperator(sender, updates));
      && (r.Ok? <==> |updates| <= MAX_LOGS)
      && (r.Ok? ==> && (x in Of(r.value, sender).operators <==>
                          OperatorAfter(x in Of(s, sender).operators, updates, x))
                    && Of(r.value, sender).balances == Of(s, sender).balances
                    && (x != sender ==> Of(r.value, x) == Of(s, x)) && r.value.tokens == s.tokens)
  {
    UpdatesAre(s, sender, updates, 0, x);
    hide UpdateAll, OperatorAfter, Of;
  }

  // ----- queries -----

  // A query is accepted exactly if all tokens exist and the contract that gets the
  // answer accepts it; only what that contract does then has an effect.
  lemma QueryIff(s: State, contractOwner: AccountAddress, sender: Address, queried: seq<TokenId>,
      reaction: Reaction<MintItem>)
    ensures var r := Execute(s, contractOwner, Query(sender, queried, reaction));
      && (r.Ok? <==> (forall t :: t in queried ==> t in s.tokens) && reaction.accepts)
      && (r.Ok? ==> r.value == ExecuteAll(s, contractOwner, reaction.calls))
  {
    hide ExecuteAll;
  }
}
