// The CIS-1 NFT contract (examples/cis1-nft/src/lib.rs).
module Cis1Nft {
  import opened Wrappers
  import opened Addresses
  import opened ByteCodecs
  import opened Cis1

  datatype AddressState = AddressState(ownedTokens: set<TokenId>, operators: set<Address>)

  const EMPTY := AddressState({}, {})

  datatype State = State(state: map<Address, AddressState>, allTokens: set<TokenId>)

  function Of(s: State, a: Address): AddressState {
    if a in s.state then s.state[a] else EMPTY
  }

  // ----- the operations of the state -----

  function MintToken(s: State, token: TokenId, owner: Address): Result<State, ContractError> {
    if token in s.allTokens then Err(TokenIdAlreadyExists)
    else
      var ownerState := Of(s, owner);
      Ok(State(s.state[owner := ownerState.(ownedTokens := ownerState.ownedTokens + {token})], s.allTokens + {token}))
  }

  // `balance`: one or zero for tokens that exist.
  function Balance(s: State, token: TokenId, a: Address): Result<nat, ContractError> {
    if token !in s.allTokens then Err(InvalidTokenId)
    else Ok(if token in Of(s, a).ownedTokens then 1 else 0)
  }

  predicate IsOperator(s: State, a: Address, owner: Address) {
    a in Of(s, owner).operators
  }

  function TransferToken(s: State, token: TokenId, amount: TokenAmount, from: Address, to: Address)
    : Result<State, ContractError>
  {
    if token !in s.allTokens then Err(InvalidTokenId)
    else if amount == 0 then Ok(s)
    else if amount != 1 then Err(InsufficientFunds)
    else if from !in s.state || token !in s.state[from].ownedTokens then Err(InsufficientFunds)
    else
      var without := s.state[from := s.state[from].(ownedTokens := s.state[from].ownedTokens - {token})];
      var toState := if to in without then without[to] else EMPTY;
      Ok(s.(state := without[to := toState.(ownedTokens := toState.ownedTokens + {token})]))
  }

  function ApplyUpdate(s: State, owner: Address, update: OperatorUpdate): State {
    match update
    case Add(operator) => s.(state := s.state[owner := Of(s, owner).(operators := Of(s, owner).operators + {operator})])
    case Remove(operator) =>
      if owner in s.state
      then s.(state := s.state[owner := s.state[owner].(operators := s.state[owner].operators - {operator})])
      else s
  }

  // ----- the entrypoints; an error means that nothing has changed -----

  function MintAll(s: State, owner: Address, tokens: seq<TokenId>, logged: nat): Result<State, ContractError>
    decreases |tokens|
  {
    if tokens == [] then Ok(s)
    else
      var minted :- MintToken(s, tokens[0], owner);
      if logged + 2 > MAX_LOGS then Err(LogFull) else MintAll(minted, owner, tokens[1..], logged + 2)
  }

  function UpdateAll(s: State, sender: Address, updates: seq<OperatorUpdate>, logged: nat): Result<State, ContractError>
    decreases |updates|
  {
    if updates == [] then Ok(s)
    else if logged + 1 > MAX_LOGS then Err(LogFull)
    else UpdateAll(ApplyUpdate(s, sender, updates[0]), sender, updates[1..], logged + 1)
  }

  function Execute(s: State, contractOwner: AccountAddress, call: Call<TokenId>): Result<State, ContractError>
    decreases call
  {
    match call
    case Mint(sender, owner, tokens) =>
      if sender != Account(contractOwner) then Err(Unauthorized) else MintAll(s, owner, tokens, 0)
    case Transfer(sender, transfers) => ExecuteTransfers(s, contractOwner, sender, transfers, 0)
    case UpdateOperator(sender, updates) => UpdateAll(s, sender, updates, 0)
    case Query(_, queried, reaction) =>
      if exists i :: 0 <= i < |queried| && queried[i] !in s.allTokens then Err(InvalidTokenId)
      else React(s, contractOwner, reaction)
  }

  function ExecuteTransfers(s: State, contractOwner: AccountAddress, sender: Address,
      transfers: seq<TransferItem<TokenId>>,
      logged: nat)
    : Result<State, ContractError>
    decreases transfers
  {
    if transfers == [] then Ok(s)
    else
      var t := transfers[0];
      if t.from != sender && !IsOperator(s, sender, t.from) then Err(Unauthorized)
      else
        var moved :- TransferToken(s, t.token, t.amount, t.from, AddressOf(t.to));
        if logged + 1 > MAX_LOGS then Err(LogFull)
        else
          var after :- Notify(moved, contractOwner, t);
          ExecuteTransfers(after, contractOwner, sender, transfers[1..], if t.to.ToAccount? then logged + 1 else 0)
  }

  // A receiving contract is invoked.
  function Notify(s: State, contractOwner: AccountAddress, t: TransferItem<TokenId>): Result<State, ContractError>
    decreases t
  {
    match t.to
    case ToAccount(_) => Ok(s)
    case ToContract(_, _, reaction) => React(s, contractOwner, reaction)
  }

  function React(s: State, contractOwner: AccountAddress, reaction: Reaction<TokenId>): Result<State, ContractError>
    decreases reaction
  {
    if reaction.accepts then Ok(ExecuteAll(s, contractOwner, reaction.calls)) else Err(InvokeContractError)
  }

  // Calls one after the other; those that fail change nothing.
  function ExecuteAll(s: State, contractOwner: AccountAddress, calls: seq<Call<TokenId>>): State
    decreases calls
  {
    if calls == [] then s
    else
      match Execute(s, contractOwner, calls[0])
      case Ok(after) => ExecuteAll(after, contractOwner, calls[1..])
      case Err(_) => ExecuteAll(s, contractOwner, calls[1..])
  }

  // ----- the contract as an object -----

  class NftContract {
    const contractOwner: AccountAddress
    var state: map<Address, AddressState>
    var allTokens: set<TokenId>

    function Value(): State
      reads this
    {
      State(state, allTokens)
    }

    constructor (contractOwner: AccountAddress)
      ensures this.contractOwner == contractOwner && Value() == State(map[], {})
    {
      this.contractOwner := contractOwner;
      state := map[];
      allTokens := {};
    }

    // `State::mint`.
    method MintOne(token: TokenId, owner: Address) returns (r: Result<(), ContractError>)
      modifies this
      ensures match MintToken(old(Value()), token, owner)
        case Ok(after) => r == Ok(()) && Value() == after
        case Err(e) => r == Err(e) && Value() == old(Value())
    {
      if token in allTokens {
        return Err(TokenIdAlreadyExists);
      }
      allTokens := allTokens + {token};
      if owner !in state {
        state := state[owner := EMPTY];
      }
      state := state[owner := state[owner].(ownedTokens := state[owner].ownedTokens + {token})];
      assert state
        == old(state)[owner := Of(old(Value()), owner).(ownedTokens := Of(old(Value()), owner).ownedTokens + {token})];
      return Ok(());
    }

    // `State::transfer`. An error may leave the token removed; the call that
    // made the transfer then fails, and its changes are dropped.
    method TransferOne(token: TokenId, amount: TokenAmount, from: Address, to: Address)
      returns (r: Result<(), ContractError>)
      modifies this
      ensures match TransferToken(old(Value()), token, amount, from, to)
        case Ok(after) => r == Ok(()) && Value() == after
        case Err(e) => r == Err(e)
    {
      if token !in allTokens {
        return Err(InvalidTokenId);
      }
      if amount == 0 {
        return Ok(());
      }
      if amount != 1 {
        return Err(InsufficientFunds);
      }
      if from !in state {
        return Err(InsufficientFunds);
      }
      var fromHadTheToken := token in state[from].ownedTokens;
      state := state[from := state[from].(ownedTokens := state[from].ownedTokens - {token})];
      if !fromHadTheToken {
        return Err(InsufficientFunds);
      }
      ghost var without := state;
      if to !in state {
        state := state[to := EMPTY];
      }
      state := state[to := state[to].(ownedTokens := state[to].ownedTokens + {token})];
      assert state == without[to := (if to in without then without[to] else EMPTY).(ownedTokens :=
        (if to in without then without[to] else EMPTY).ownedTokens + {token})];
      return Ok(());
    }

    method AddOperator(owner: Address, operator: Address)
      modifies this
      ensures Value() == ApplyUpdate(old(Value()), owner, Add(operator))
    {
      if owner !in state {
        state := state[owner := EMPTY];
      }
      state := state[owner := state[owner].(operators := state[owner].operators + {operator})];
      assert state
          == old(state)[owner := Of(old(Value()), owner).(operators := Of(old(Value()), owner).operators + {operator})];
    }

    method RemoveOperator(owner: Address, operator: Address)
      modifies this
      ensures Value() == ApplyUpdate(old(Value()), owner, Remove(operator))
    {
      if owner in state {
        state := state[owner := state[owner].(operators := state[owner].operators - {operator})];
      }
    }

    // `contract_mint`.
    method ContractMint(sender: Address, owner: Address, tokens: seq<TokenId>) returns (r: Result<(), ContractError>)
      modifies this
      ensures match (if sender != Account(contractOwner) then Err(Unauthorized)
          else MintAll(old(Value()), owner, tokens, 0))
        case Ok(after) => r == Ok(()) && Value() == after
        case Err(e) => r == Err(e)
    {
      if sender != Account(contractOwner) {
        return Err(Unauthorized);
      }
      var logged: nat := 0;
      for i := 0 to |tokens|
        invariant MintAll(Value(), owner, tokens[i..], logged) == MintAll(old(Value()), owner, tokens, 0)
      {
        assert tokens[i..][1..] == tokens[i + 1..];
        r := MintOne(tokens[i], owner);
        if r.Err? {
          return;
        }
        if logged + 1 > MAX_LOGS {
          return Err(LogFull);
        }
        logged := logged + 1;
        if logged + 1 > MAX_LOGS {
          return Err(LogFull);
        }
        logged := logged + 1;
      }
      return Ok(());
    }

    // `contract_update_operator`.
    method ContractUpdateOperator(sender: Address, updates: seq<OperatorUpdate>) returns (r: Result<(), ContractError>)
      modifies this
      ensures match UpdateAll(old(Value()), sender, updates, 0)
        case Ok(after) => r == Ok(()) && Value() == after
        case Err(e) => r == Err(e)
    {
      var logged: nat := 0;
      for i := 0 to |updates|
        invariant UpdateAll(Value(), sender, updates[i..], logged) == UpdateAll(old(Value()), sender, updates, 0)
      {
        assert updates[i..][1..] == updates[i + 1..];
        match updates[i] {
          case Add(operator) => AddOperator(sender, operator);
          case Remove(operator) => RemoveOperator(sender, operator);
        }
        if logged + 1 > MAX_LOGS {
          return Err(LogFull);
        }
        logged := logged + 1;
      }
      return Ok(());
    }

    // `contract_transfer`; receiving contracts are invoked along the way.
    method ContractTransfer(sender: Address, transfers: seq<TransferItem<TokenId>>)
      returns (r: Result<(), ContractError>)
      modifies this
      ensures match ExecuteTransfers(old(Value()), contractOwner, sender, transfers, 0)
        case Ok(after) => r == Ok(()) && Value() == after
        case Err(e) => r == Err(e)
      decreases transfers
    {
      var logged: nat := 0;
      for i := 0 to |transfers|
        invariant ExecuteTransfers(Value(), contractOwner, sender, transfers[i..], logged)
               == ExecuteTransfers(old(Value()), contractOwner, sender, transfers, 0)
      {
        assert transfers[i..][1..] == transfers[i + 1..];
        var t := transfers[i];
        if t.from != sender && !IsOperator(Value(), sender, t.from) {
          return Err(Unauthorized);
        }
        r := TransferOne(t.token, t.amount, t.from, AddressOf(t.to));
        if r.Err? {
          return;
        }
        if logged + 1 > MAX_LOGS {
          return Err(LogFull);
        }
        logged := logged + 1;
        r := NotifyReceiver(t);
        if r.Err? {
          return;
        }
        if t.to.ToContract? {
          logged := 0;
        }
      }
      return Ok(());
    }

    method NotifyReceiver(t: TransferItem<TokenId>) returns (r: Result<(), ContractError>)
      modifies this
      ensures match Notify(old(Value()), contractOwner, t)
        case Ok(after) => r == Ok(()) && Value() == after
        case Err(e) => r == Err(e)
      decreases t
    {
      match t.to
      case ToAccount(_) => return Ok(());
      case ToContract(_, _, reaction) => r := InvokeContract(reaction);
    }

    // What happens while another contract is invoked.
    method InvokeContract(reaction: Reaction<TokenId>) returns (r: Result<(), ContractError>)
      modifies this
      ensures match React(old(Value()), contractOwner, reaction)
        case Ok(after) => r == Ok(()) && Value() == after
        case Err(e) => r == Err(e)
      decreases reaction
    {
      for i := 0 to |reaction.calls|
        invariant ExecuteAll(Value(), contractOwner, reaction.calls[i..])
            == ExecuteAll(old(Value()), contractOwner, reaction.calls)
      {
        assert reaction.calls[i..][1..] == reaction.calls[i + 1..];
        var _ := Receive(reaction.calls[i]);
      }
      return if reaction.accepts then Ok(()) else Err(InvokeContractError);
    }

    // A call from outside; if it fails, the state is as before.
    method Receive(call: Call<TokenId>) returns (r: Result<(), ContractError>)
      modifies this
      ensures match Execute(old(Value()), contractOwner, call)
        case Ok(after) => r == Ok(()) && Value() == after
        case Err(e) => r == Err(e) && Value() == old(Value())
      decreases call
    {
      var before, tokensBefore := state, allTokens;
      match call {
        case Mint(sender, owner, tokens) => r := ContractMint(sender, owner, tokens);
        case Transfer(sender, transfers) => r := ContractTransfer(sender, transfers);
        case UpdateOperator(sender, updates) => r := ContractUpdateOperator(sender, updates);
        case Query(_, queried, reaction) =>
          if exists i :: 0 <= i < |queried| && queried[i] !in allTokens {
            r := Err(InvalidTokenId);
          } else {
            r := InvokeContract(reaction);
          }
      }
      if r.Err? {
        state, allTokens := before, tokensBefore;
      }
    }
  }

  // ----- what every call keeps -----

  ghost predicate Owns(s: State, a: Address, token: TokenId) {
    token in Of(s, a).ownedTokens
  }

  // Every token has exactly one owner, and only tokens that exist are owned.
  ghost predicate OneOwner(s: State) {
    && (forall token :: token in s.allTokens ==> exists a :: Owns(s, a, token))
    && (forall token, a, b :: Owns(s, a, token) && Owns(s, b, token) ==> a == b)
    && (forall token, a :: Owns(s, a, token) ==> token in s.allTokens)
  }

  // An address all of whose operators are among some quiet addresses keeps its
  // operators and its tokens.
  ghost predicate Untouched(s: State, after: State, quiet: set<Address>) {
    forall a :: a in quiet && Of(s, a).operators <= quiet ==>
      Of(after, a).operators == Of(s, a).operators && Of(s, a).ownedTokens <= Of(after, a).ownedTokens
  }

  ghost predicate Evolves(s: State, after: State, quiet: set<Address>) {
    && s.allTokens <= after.allTokens
    && (OneOwner(s) ==> OneOwner(after))
    && Untouched(s, after, quiet)
  }

  lemma EvolvesTrans(s: State, mid: State, after: State, quiet: set<Address>)
    requires Evolves(s, mid, quiet) && Evolves(mid, after, quiet)
    ensures Evolves(s, after, quiet)
  {
    hide OneOwner, Of;
  }

  lemma MintEvolves(s: State, token: TokenId, owner: Address, quiet: set<Address>)
    requires MintToken(s, token, owner).Ok?
    ensures Evolves(s, MintToken(s, token, owner).value, quiet)
  {
    var after := MintToken(s, token, owner).value;
    if OneOwner(s) {
      assert Owns(after, owner, token);
      forall other, a | other != token ensures Owns(after, a, other) <==> Owns(s, a, other) {
      }
      forall a ensures Owns(after, a, token) <==> a == owner {
        assert !Owns(s, a, token);
      }
      forall t | t in after.allTokens ensures exists a :: Owns(after, a, t) {
        if t != token {
          var a :| Owns(s, a, t);
          assert Owns(after, a, t);
        }
      }
    }
  }

  // A transfer by its owner or an operator.
  ghost predicate Allowed(s: State, sender: Address, from: Address) {
    from == sender || IsOperator(s, sender, from)
  }

  lemma TransferEvolves(s: State, token: TokenId, amount: TokenAmount, from: Address, to: Address, sender: Address,
      quiet: set<Address>)
    requires TransferToken(s, token, amount, from, to).Ok? && Allowed(s, sender, from) && sender !in quiet
    ensures Evolves(s, TransferToken(s, token, amount, from, to).value, quiet)
  {
    if amount != 0 {
      var after := TransferToken(s, token, amount, from, to).value;
      assert Owns(s, from, token) && Owns(after, to, token);
      forall other, a | other != token ensures Owns(after, a, other) <==> Owns(s, a, other) {
      }
      forall a ensures Owns(after, a, token) <==> a == to || (a != from && Owns(s, a, token)) {
      }
      if OneOwner(s) {
        forall t | t in after.allTokens ensures exists a :: Owns(after, a, t) {
          if t != token {
            var a :| Owns(s, a, t);
            assert Owns(after, a, t);
          }
        }
      }
    }
  }

  lemma UpdateEvolves(s: State, sender: Address, update: OperatorUpdate, quiet: set<Address>)
    requires sender !in quiet
    ensures Evolves(s, ApplyUpdate(s, sender, update), quiet)
  {
    var after := ApplyUpdate(s, sender, update);
    forall a ensures Of(after, a).ownedTokens == Of(s, a).ownedTokens {
    }
    forall a, t ensures Owns(after, a, t) <==> Owns(s, a, t) {
    }
    if OneOwner(s) {
      forall t | t in after.allTokens ensures exists a :: Owns(after, a, t) {
        var a :| Owns(s, a, t);
        assert Owns(after, a, t);
      }
    }
  }

  lemma EvolvesSelf(s: State, quiet: set<Address>)
    ensures Evolves(s, s, quiet)
  {
  }

  lemma {:induction false} MintAllEvolves(s: State, owner: Address, tokens: seq<TokenId>, logged: nat,
      quiet: set<Address>)
    requires MintAll(s, owner, tokens, logged).Ok?
    ensures Evolves(s, MintAll(s, owner, tokens, logged).value, quiet)
    decreases |tokens|
  {
    hide Evolves, MintToken;
    if tokens == [] {
      EvolvesSelf(s, quiet);
    } else {
      var minted := MintToken(s, tokens[0], owner).value;
      MintEvolves(s, tokens[0], owner, quiet);
      MintAllEvolves(minted, owner, tokens[1..], logged + 2, quiet);
      EvolvesTrans(s, minted, MintAll(s, owner, tokens, logged).value, quiet);
    }
  }

  lemma {:induction false} UpdateAllEvolves(s: State, sender: Address, updates: seq<OperatorUpdate>, logged: nat,
      quiet: set<Address>)
    requires sender !in quiet && UpdateAll(s, sender, updates, logged).Ok?
    ensures Evolves(s, UpdateAll(s, sender, updates, logged).value, quiet)
    decreases |updates|
  {
    hide Evolves, ApplyUpdate;
    if updates == [] {
      EvolvesSelf(s, quiet);
    } else {
      var updated := ApplyUpdate(s, sender, updates[0]);
      UpdateEvolves(s, sender, updates[0], quiet);
      UpdateAllEvolves(updated, sender, updates[1..], logged + 1, quiet);
      EvolvesTrans(s, updated, UpdateAll(s, sender, updates, logged).value, quiet);
    }
  }

  // Every call, with any reentrant calls nested in it, keeps the single
  // ownership of all tokens, destroys none, and leaves the tokens of absent
  // owners with absent operators where they are.
  lemma {:induction false} CallEvolves(s: State, contractOwner: AccountAddress, call: Call<TokenId>,
      quiet: set<Address>)
    requires Absent(call, quiet) && Execute(s, contractOwner, call).Ok?
    ensures Evolves(s, Execute(s, contractOwner, call).value, quiet)
    decreases call, 1
  {
    hide Evolves;
    match call
    case Mint(sender, owner, tokens) => MintAllEvolves(s, owner, tokens, 0, quiet);
    case Transfer(sender, transfers) => TransfersEvolve(s, contractOwner, sender, transfers, 0, quiet);
    case UpdateOperator(sender, updates) => UpdateAllEvolves(s, sender, updates, 0, quiet);
    case Query(_, _, reaction) => CallsEvolve(s, contractOwner, reaction.calls, quiet);
  }

  lemma {:induction false} TransfersEvolve(s: State, contractOwner: AccountAddress, sender: Address,
      transfers: seq<TransferItem<TokenId>>, logged: nat, quiet: set<Address>)
    requires sender !in quiet && AbsentInTransfers(transfers, quiet)
    requires ExecuteTransfers(s, contractOwner, sender, transfers, logged).Ok?
    ensures Evolves(s, ExecuteTransfers(s, contractOwner, sender, transfers, logged).value, quiet)
    decreases transfers
  {
    hide Evolves, TransferToken;
    if transfers == [] {
      EvolvesSelf(s, quiet);
    } else {
      var t := transfers[0];
      var end := ExecuteTransfers(s, contractOwner, sender, transfers, logged).value;
      var moved := TransferToken(s, t.token, t.amount, t.from, AddressOf(t.to)).value;
      TransferEvolves(s, t.token, t.amount, t.from, AddressOf(t.to), sender, quiet);
      var after := Notify(moved, contractOwner, t).value;
      NotifyEvolves(moved, contractOwner, t, quiet);
      TransfersEvolve(after, contractOwner, sender, transfers[1..], if t.to.ToAccount? then logged + 1 else 0, quiet);
      EvolvesTrans(moved, after, end, quiet);
      EvolvesTrans(s, moved, end, quiet);
    }
  }

  lemma {:induction false} NotifyEvolves(s: State, contractOwner: AccountAddress, t: TransferItem<TokenId>,
      quiet: set<Address>)
    requires AbsentInTransfer(t, quiet) && Notify(s, contractOwner, t).Ok?
    ensures Evolves(s, Notify(s, contractOwner, t).value, quiet)
    decreases t
  {
    hide Evolves;
    match t.to
    case ToAccount(_) => EvolvesSelf(s, quiet);
    case ToContract(_, _, reaction) => CallsEvolve(s, contractOwner, reaction.calls, quiet);
  }

  lemma {:induction false} CallsEvolve(s: State, contractOwner: AccountAddress, calls: seq<Call<TokenId>>,
      quiet: set<Address>)
    requires AbsentInCalls(calls, quiet)
    ensures Evolves(s, ExecuteAll(s, contractOwner, calls), quiet)
    decreases calls
  {
    hide Evolves;
    if calls == [] {
      EvolvesSelf(s, quiet);
    } else {
      var end := ExecuteAll(s, contractOwner, calls);
      match Execute(s, contractOwner, calls[0])
      case Ok(after) =>
        CallEvolves(s, contractOwner, calls[0], quiet);
        CallsEvolve(after, contractOwner, calls[1..], quiet);
        EvolvesTrans(s, after, end, quiet);
      case Err(_) =>
        CallsEvolve(s, contractOwner, calls[1..], quiet);
    }
  }

  // ----- whole runs -----

  // In every reachable state every token has exactly one owner, and the
  // balances of a token over all addresses are one for the owner and zero for
  // everybody else.
  lemma TokensHaveOneOwner(contractOwner: AccountAddress, calls: seq<Call<TokenId>>)
    ensures OneOwner(ExecuteAll(State(map[], {}), contractOwner, calls))
  {
    NobodyAbsent(calls);
    CallsEvolve(State(map[], {}), contractOwner, calls, {});
  }

  lemma BalanceIsOwnership(contractOwner: AccountAddress, calls: seq<Call<TokenId>>, token: TokenId)
    ensures var s := ExecuteAll(State(map[], {}), contractOwner, calls);
      token in s.allTokens ==> exists owner :: IsOnlyHolder(s, token, owner)
  {
    TokensHaveOneOwner(contractOwner, calls);
    var s := ExecuteAll(State(map[], {}), contractOwner, calls);
    if token in s.allTokens {
      var owner :| Owns(s, owner, token);
      forall a ensures Balance(s, token, a) == Ok(if a == owner then 1 else 0) {
        assert Owns(s, a, token) <==> a == owner;
      }
      assert IsOnlyHolder(s, token, owner);
    }
  }

  ghost predicate IsOnlyHolder(s: State, token: TokenId, owner: Address) {
    forall a :: Balance(s, token, a) == Ok(if a == owner then 1 else 0)
  }

  // Tokens do not move without their owner or an operator of the owner: over
  // any calls in which none of a set of addresses is a sender, not even in a
  // reentrant call, an address of the set whose operators are in the set keeps
  // its tokens and its operators.
  lemma AbsentOwnersKeepTheirTokens(s: State, contractOwner: AccountAddress, calls: seq<Call<TokenId>>, a: Address,
      quiet: set<Address>)
    requires a in quiet && Of(s, a).operators <= quiet && AbsentInCalls(calls, quiet)
    ensures var end := ExecuteAll(s, contractOwner, calls);
      Of(end, a).operators == Of(s, a).operators && Of(s, a).ownedTokens <= Of(end, a).ownedTokens
  {
    CallsEvolve(s, contractOwner, calls, quiet);
  }

  // ----- minting -----

  predicate AllNew(s: State, tokens: seq<TokenId>) {
    && (forall i :: 0 <= i < |tokens| ==> tokens[i] !in s.allTokens)
    && (forall i, j :: 0 <= i < j < |tokens| ==> tokens[i] != tokens[j])
  }

  function SetOf(tokens: seq<TokenId>): set<TokenId> {
    set t | t in tokens
  }

  // Minting succeeds exactly when the contract owner mints tokens that are all
  // new and at most 32; they then belong to the given owner.
  lemma {:induction false} MintAllIff(s: State, owner: Address, tokens: seq<TokenId>, logged: nat)
    ensures var r := MintAll(s, owner, tokens, logged);
      && (r.Ok? <==> AllNew(s, tokens) && (tokens == [] || logged + 2 * |tokens| <= MAX_LOGS))
      && (r.Ok? ==> r.value.allTokens == s.allTokens + SetOf(tokens)
                    && Of(r.value, owner).ownedTokens == Of(s, owner).ownedTokens + SetOf(tokens)
                    && forall a :: a != owner ==> Of(r.value, a) == Of(s, a))
    decreases |tokens|
  {
    if tokens != [] {
      var t, rest := tokens[0], tokens[1..];
      assert tokens == [t] + rest;
      assert SetOf(tokens) == {t} + SetOf(rest);
      match MintToken(s, t, owner)
      case Err(_) =>
      case Ok(minted) =>
        MintAllIff(minted, owner, rest, logged + 2);
        NewAfterMint(s, minted, t, rest);
    }
  }

  lemma NewAfterMint(s: State, minted: State, t: TokenId, rest: seq<TokenId>)
    requires t !in s.allTokens && minted.allTokens == s.allTokens + {t}
    ensures AllNew(s, [t] + rest) <==> AllNew(minted, rest)
  {
    var all := [t] + rest;
    if AllNew(s, all) {
      forall i | 0 <= i < |rest| ensures rest[i] !in minted.allTokens {
        assert rest[i] == all[i + 1] && all[0] != all[i + 1];
      }
      forall i, j | 0 <= i < j < |rest| ensures rest[i] != rest[j] {
        assert rest[i] == all[i + 1] && rest[j] == all[j + 1];
      }
    }
    if AllNew(minted, rest) {
      forall i | 0 <= i < |all| ensures all[i] !in s.allTokens {
        assert i > 0 ==> all[i] == rest[i - 1];
      }
      forall i, j | 0 <= i < j < |all| ensures all[i] != all[j] {
        assert all[j] == rest[j - 1];
        assert i > 0 ==> all[i] == rest[i - 1];
      }
    }
  }
}
