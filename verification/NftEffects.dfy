// What the calls of the NFT contract do, and exactly when they are accepted: who
// owns a token, and who is an operator of whom, before and after.
module NftEffects {
  import opened Wrappers
  import opened Addresses
  import opened ByteCodecs
  import opened Cis1
  import opened Cis1Nft

  // ----- transfers -----

  ghost predicate SameOperators(s: State, after: State) {
    forall a :: Of(after, a).operators == Of(s, a).operators
  }

  // The token goes from its owner to the receiver; nothing else changes hands.
  ghost predicate Moved(s: State, after: State, token: TokenId, from: Address, to: Address) {
    && after.allTokens == s.allTokens && SameOperators(s, after)
    && Owns(after, to, token) && (from != to ==> !Owns(after, from, token))
    && (forall a :: a != from && a != to ==> Of(after, a) == Of(s, a))
    && forall a, t :: t != token ==> (Owns(after, a, t) <==> Owns(s, a, t))
  }

  // Whether an address can give an amount of a token away.
  ghost predicate CanGive(s: State, token: TokenId, amount: TokenAmount, from: Address) {
    token in s.allTokens && (amount == 0 || (amount == 1 && Owns(s, from, token)))
  }

  lemma TransferTokenIff(s: State, token: TokenId, amount: TokenAmount, from: Address, to: Address)
    ensures TransferToken(s, token, amount, from, to).Ok? <==> CanGive(s, token, amount, from)
    ensures CanGive(s, token, 0, from) ==> TransferToken(s, token, 0, from, to) == Ok(s)
    ensures CanGive(s, token, 1, from) ==> Moved(s, TransferToken(s, token, 1, from, to).value, token, from, to)
  {
  }

  // Seen through balances: the receiver holds the token and nobody else does.
  lemma MovedBalances(s: State, after: State, token: TokenId, from: Address, to: Address, a: Address, t: TokenId)
    requires Moved(s, after, token, from, to) && OneOwner(s) && token in s.allTokens && Owns(s, from, token)
    ensures Balance(after, token, a) == Ok(if a == to then 1 else 0)
    ensures t != token ==> Balance(after, t, a) == Balance(s, t, a)
  {
    if a != to && a != from {
      assert Of(after, a) == Of(s, a);
      assert Owns(s, a, token) ==> a == from;
    }
    assert t != token ==> (Owns(after, a, t) <==> Owns(s, a, t));
  }

  // Who may transfer: the owner of the token, or one of the owner's operators.
  ghost predicate MayTransfer(s: State, sender: Address, from: Address) {
    sender == from || sender in Of(s, from).operators
  }

  // A call with one transfer to an account is accepted exactly if its sender may
  // transfer for the payer, and the payer has what is given away; the token then
  // belongs to the account.
  lemma OneTransferIff(s: State, contractOwner: AccountAddress, sender: Address, t: TransferItem<TokenId>)
    requires t.to.ToAccount?
    ensures var r := Execute(s, contractOwner, Transfer(sender, [t]));
      && (r.Ok? <==> MayTransfer(s, sender, t.from) && CanGive(s, t.token, t.amount, t.from))
      && (r.Ok? ==> if t.amount == 0 then r.value == s
                    else Moved(s, r.value, t.token, t.from, Account(t.to.account)))
  {
    TransferTokenIff(s, t.token, t.amount, t.from, Account(t.to.account));
    hide TransferToken, CanGive, Moved;
    OneItem(s, contractOwner, sender, t);
  }

  lemma OneItem(s: State, contractOwner: AccountAddress, sender: Address, t: TransferItem<TokenId>)
    ensures Execute(s, contractOwner, Transfer(sender, [t])) ==
      if !MayTransfer(s, sender, t.from) then Err(Unauthorized)
      else
        match TransferToken(s, t.token, t.amount, t.from, AddressOf(t.to))
        case Err(e) => Err(e)
        case Ok(moved) => Notify(moved, contractOwner, t)
  {
    hide TransferToken, Notify;
    assert [t][0] == t && [t][1..] == [];
    if MayTransfer(s, sender, t.from) && TransferToken(s, t.token, t.amount, t.from, AddressOf(t.to)).Ok? {
      var moved := TransferToken(s, t.token, t.amount, t.from, AddressOf(t.to)).value;
      if Notify(moved, contractOwner, t).Ok? {
        assert ExecuteTransfers(Notify(moved, contractOwner, t).value, contractOwner, sender, [],
                                if t.to.ToAccount? then 1 else 0) == Notify(moved, contractOwner, t);
      }
    }
  }

  // Calls made by another contract follow one another; a rejected one changes nothing.
  lemma {:induction false} CallsAreSequential(s: State, contractOwner: AccountAddress, a: seq<Call<TokenId>>,
      b: seq<Call<TokenId>>)
    ensures ExecuteAll(s, contractOwner, a + b) == ExecuteAll(ExecuteAll(s, contractOwner, a), contractOwner, b)
    ensures |a| == 1 ==>
      var end := match Execute(s, contractOwner, a[0]) case Ok(after) => after case Err(_) => s;
      ExecuteAll(s, contractOwner, a) == end
    decreases |a|
  {
    if a == [] {
      assert a + b == b;
    } else {
      assert (a + b)[1..] == a[1..] + b;
      var next := match Execute(s, contractOwner, a[0]) case Ok(after) => after case Err(_) => s;
      CallsAreSequential(next, contractOwner, a[1..], b);
    }
  }

  // A receiving contract can reject the transfer. If it accepts, the calls that it
  // makes come after the token has moved.
  lemma TransferToContractIff(s: State, contractOwner: AccountAddress, sender: Address, t: TransferItem<TokenId>)
    requires t.to.ToContract?
    ensures var r := Execute(s, contractOwner, Transfer(sender, [t]));
      && (r.Ok? <==> MayTransfer(s, sender, t.from) && CanGive(s, t.token, t.amount, t.from) && t.to.reaction.accepts)
      && (r.Ok? ==> r.value == ExecuteAll(TransferToken(s, t.token, t.amount, t.from, AddressOf(t.to)).value,
                                          contractOwner, t.to.reaction.calls))
  {
    TransferTokenIff(s, t.token, t.amount, t.from, AddressOf(t.to));
    hide TransferToken, CanGive, Moved;
    OneItem(s, contractOwner, sender, t);
  }

  // ----- several transfers -----

  ghost predicate ToAccounts(transfers: seq<TransferItem<TokenId>>) {
    forall i :: 0 <= i < |transfers| ==> transfers[i].to.ToAccount?
  }

  lemma {:induction false} EarlierLogs(s: State, contractOwner: AccountAddress, sender: Address,
      transfers: seq<TransferItem<TokenId>>, logged: nat)
    requires ToAccounts(transfers)
    ensures var r := ExecuteTransfers(s, contractOwner, sender, transfers, logged);
      && (logged + |transfers| <= MAX_LOGS ==> r == ExecuteTransfers(s, contractOwner, sender, transfers, 0))
      && (transfers != [] && logged + |transfers| > MAX_LOGS ==> r.Err?)
    decreases |transfers|
  {
    if transfers != [] {
      var t := transfers[0];
      hide TransferToken, Execute;
      if (t.from == sender || IsOperator(s, sender, t.from))
         && TransferToken(s, t.token, t.amount, t.from, AddressOf(t.to)).Ok? {
        var moved := TransferToken(s, t.token, t.amount, t.from, AddressOf(t.to)).value;
        assert Notify(moved, contractOwner, t) == Ok(moved);
        EarlierLogs(moved, contractOwner, sender, transfers[1..], logged + 1);
        EarlierLogs(moved, contractOwner, sender, transfers[1..], 1);
      }
    }
  }

  // Up to 64 transfers to accounts act like one call for each of them, all or
  // nothing; more of them are always rejected.
  lemma TransfersAreSequential(s: State, contractOwner: AccountAddress, sender: Address,
      transfers: seq<TransferItem<TokenId>>)
    requires ToAccounts(transfers) && transfers != []
    ensures |transfers| <= MAX_LOGS ==>
      Execute(s, contractOwner, Transfer(sender, transfers)) ==
      match Execute(s, contractOwner, Transfer(sender, transfers[..1]))
      case Err(e) => Err(e)
      case Ok(mid) => Execute(mid, contractOwner, Transfer(sender, transfers[1..]))
    ensures |transfers| > MAX_LOGS ==> Execute(s, contractOwner, Transfer(sender, transfers)).Err?
  {
    var t := transfers[0];
    EarlierLogs(s, contractOwner, sender, transfers, 0);
    OneItem(s, contractOwner, sender, t);
    assert transfers[..1] == [t];
    hide TransferToken;
    if MayTransfer(s, sender, t.from) && TransferToken(s, t.token, t.amount, t.from, AddressOf(t.to)).Ok? {
      var moved := TransferToken(s, t.token, t.amount, t.from, AddressOf(t.to)).value;
      EarlierLogs(moved, contractOwner, sender, transfers[1..], 1);
    }
  }

  // ----- minting -----

  // Only the owner of the contract can mint: at most 32 tokens, all of them new. They
  // belong to the given owner, and nothing else changes.
  lemma MintIff(s: State, contractOwner: AccountAddress, sender: Address, owner: Address, tokens: seq<TokenId>)
    ensures var r := Execute(s, contractOwner, Mint(sender, owner, tokens));
      && (r.Ok? <==> sender == Account(contractOwner) && AllNew(s, tokens) && |tokens| <= 32)
      && (r.Ok? ==> && r.value.allTokens == s.allTokens + (set t | t in tokens)
                    && Of(r.value, owner).ownedTokens == Of(s, owner).ownedTokens + (set t | t in tokens)
                    && forall a :: a != owner ==> Of(r.value, a) == Of(s, a))
  {
    MintAllIff(s, owner, tokens, 0);
  }

  // ----- operators -----

  lemma {:induction false} UpdatesAre(s: State, sender: Address, updates: seq<OperatorUpdate>, logged: nat, x: Address)
    ensures var r := UpdateAll(s, sender, updates, logged);
      && (r.Ok? <==> updates == [] || logged + |updates| <= MAX_LOGS)
      && (r.Ok? ==> && (x in Of(r.value, sender).operators <==>
                          OperatorAfter(x in Of(s, sender).operators, updates, x))
                    && Of(r.value, sender).ownedTokens == Of(s, sender).ownedTokens
                    && (x != sender ==> Of(r.value, x) == Of(s, x)) && r.value.allTokens == s.allTokens)
    decreases |updates|
  {
    if updates != [] {
      OneUpdate(s, sender, updates[0], x);
      OperatorAfterFirst(x in Of(s, sender).operators, updates, x);
      hide ApplyUpdate, OperatorAfter, Of;
      UpdatesAre(ApplyUpdate(s, sender, updates[0]), sender, updates[1..], logged + 1, x);
    }
  }

  lemma OneUpdate(s: State, sender: Address, update: OperatorUpdate, x: Address)
    ensures var after := ApplyUpdate(s, sender, update);
      && (x in Of(after, sender).operators <==> OperatorAfter(x in Of(s, sender).operators, [update], x))
      && Of(after, sender).ownedTokens == Of(s, sender).ownedTokens
      && (x != sender ==> Of(after, x) == Of(s, x)) && after.allTokens == s.allTokens
  {
    assert [update][..0] == [];
  }

  // Anybody can change their own operators, with at most 64 updates at once; the last
  // update of an address decides, and no other address and no token is affected.
  lemma UpdateOperatorIff(s: State, contractOwner: AccountAddress, sender: Address, updates: seq<OperatorUpdate>,
      x: Address)
    ensures var r := Execute(s, contractOwner, UpdateOperator(sender, updates));
      && (r.Ok? <==> |updates| <= MAX_LOGS)
      && (r.Ok? ==> && (x in Of(r.value, sender).operators <==>
                          OperatorAfter(x in Of(s, sender).operators, updates, x))
                    && Of(r.value, sender).ownedTokens == Of(s, sender).ownedTokens
                    && (x != sender ==> Of(r.value, x) == Of(s, x)) && r.value.allTokens == s.allTokens)
  {
    UpdatesAre(s, sender, updates, 0, x);
    hide UpdateAll, OperatorAfter, Of;
  }

  // ----- queries -----

  // A query is accepted exactly if all tokens exist and the contract that gets the
  // answer accepts it; only what that contract does then has an effect.
  lemma QueryIff(s: State, contractOwner: AccountAddress, sender: Address, queried: seq<TokenId>,
      reaction: Reaction<TokenId>)
    ensures var r := Execute(s, contractOwner, Query(sender, queried, reaction));
      && (r.Ok? <==> (forall t :: t in queried ==> t in s.allTokens) && reaction.accepts)
      && (r.Ok? ==> r.value == ExecuteAll(s, contractOwner, reaction.calls))
  {
    hide ExecuteAll;
  }
}
