// What the two CIS-1 token contracts share: addresses, errors, and calls.
module Cis1 {
  import opened Wrappers
  import opened Addresses
  import opened Hashing
  import opened ByteCodecs

  // `TokenIdU8` and `TokenAmount`.
  type TokenId = byte
  type TokenAmount = n: nat | n < U64_RANGE

  datatype ContractError =
    InvalidTokenId | InsufficientFunds | Unauthorized | LogFull | TokenIdAlreadyExists | InvokeContractError

  // At most this many events can be logged between two calls to other contracts.
  const MAX_LOGS: nat := 64

  // A call to a token contract, with everything that other contracts do while it
  // runs. M is the description of a token to mint.
  datatype Call<M> =
    | Mint(sender: Address, owner: Address, tokens: seq<M>)
    | Transfer(sender: Address, transfers: seq<TransferItem<M>>)
    | UpdateOperator(sender: Address, updates: seq<OperatorUpdate>)
    | Query(sender: Address, queried: seq<TokenId>, reaction: Reaction<M>)

  datatype TransferItem<M> = TransferItem(token: TokenId, amount: TokenAmount, from: Address, to: Receiver<M>)

  // A contract that receives tokens is invoked, and reacts.
  datatype Receiver<M> =
    | ToAccount(account: AccountAddress)
    | ToContract(index: nat, subindex: nat, reaction: Reaction<M>)

  // An invoked contract may call back any number of times, on behalf of any
  // sender, before it accepts or rejects.
  datatype Reaction<M> = Reaction(calls: seq<Call<M>>, accepts: bool)

  datatype OperatorUpdate = Add(operator: Address) | Remove(operator: Address)

  function AddressOf<M>(to: Receiver<M>): Address {
    match to
    case ToAccount(account) => Account(account)
    case ToContract(index, subindex, _) => Contract(index, subindex)
  }

  // ----- calls that some addresses do not take part in -----

  // None of these addresses is the sender of the call or of a call nested in it.
  predicate Absent<M>(call: Call<M>, quiet: set<Address>)
    decreases call
  {
    && call.sender !in quiet
    && match call
       case Transfer(_, transfers) => AbsentInTransfers(transfers, quiet)
       case Query(_, _, reaction) => AbsentInCalls(reaction.calls, quiet)
       case _ => true
  }

  predicate AbsentInTransfers<M>(transfers: seq<TransferItem<M>>, quiet: set<Address>)
    decreases transfers
  {
    transfers != [] ==> AbsentInTransfer(transfers[0], quiet) && AbsentInTransfers(transfers[1..], quiet)
  }

  predicate AbsentInTransfer<M>(t: TransferItem<M>, quiet: set<Address>)
    decreases t
  {
    t.to.ToContract? ==> AbsentInCalls(t.to.reaction.calls, quiet)
  }

  predicate AbsentInCalls<M>(calls: seq<Call<M>>, quiet: set<Address>)
    decreases calls
  {
    calls != [] ==> Absent(calls[0], quiet) && AbsentInCalls(calls[1..], quiet)
  }

  lemma {:induction false} NobodyAbsent<M>(calls: seq<Call<M>>)
    ensures AbsentInCalls(calls, {})
    decreases calls
  {
    if calls != [] {
      NobodyAbsentInCall(calls[0]);
      NobodyAbsent(calls[1..]);
    }
  }

  lemma {:induction false} NobodyAbsentInCall<M>(call: Call<M>)
    ensures Absent(call, {})
    decreases call
  {
    match call
    case Transfer(_, transfers) => NobodyAbsentInTransfers(transfers);
    case Query(_, _, reaction) => NobodyAbsent(reaction.calls);
    case _ =>
  }

  lemma {:induction false} NobodyAbsentInTransfers<M>(transfers: seq<TransferItem<M>>)
    ensures AbsentInTransfers(transfers, {})
    decreases transfers
  {
    if transfers != [] {
      NobodyAbsentInTransfer(transfers[0]);
      NobodyAbsentInTransfers(transfers[1..]);
    }
  }

  lemma {:induction false} NobodyAbsentInTransfer<M>(t: TransferItem<M>)
    ensures AbsentInTransfer(t, {})
    decreases t
  {
    if t.to.ToContract? {
      NobodyAbsent(t.to.reaction.calls);
    }
  }

  // ----- operators -----

  // Whether an address is an operator after some updates: the last update of this
  // address decides.
  predicate OperatorAfter(before: bool, updates: seq<OperatorUpdate>, operator: Address) {
    if updates == [] then before
    else
      var last := updates[|updates| - 1];
      if last.operator == operator then last.Add? else OperatorAfter(before, updates[..|updates| - 1], operator)
  }

  lemma {:induction false} OperatorAfterFirst(before: bool, updates: seq<OperatorUpdate>, operator: Address)
    requires updates != []
    ensures OperatorAfter(before, updates, operator)
         == OperatorAfter(OperatorAfter(before, [updates[0]], operator), updates[1..], operator)
  {
    var n := |updates| - 1;
    if n > 0 {
      OperatorAfterFirst(before, updates[..n], operator);
      assert updates[..n][1..] == updates[1..][..n - 1];
      assert updates[1..][n - 1] == updates[n];
    } else {
      assert updates == [updates[0]];
    }
  }
}
