// The CIS-1 multi token contract (examples/cis1-multi/src/lib.rs).
module Cis1Multi {
  import opened Wrappers
  import opened Addresses
  import opened ByteCodecs
  import opened Cis1
  import opened Totals

  datatype AddressState = AddressState(balances: map<TokenId, TokenAmount>, operators: set<Address>)

  const EMPTY := AddressState(map[], {})

  datatype MintItem = MintItem(token: TokenId, amount: TokenAmount)

  // The last field is not part of the contract: it records how much of every
  // token has been minted.
  datatype State = State(state: map<Address, AddressState>, tokens: set<TokenId>, minted: map<TokenId, nat>)

  const INITIAL := State(map[], {}, map[])

  function Of(s: State, a: Address): AddressState {
    if a in s.state then s.state[a] else EMPTY
  }

  function BalanceIn(m: AddressState, token: TokenId): TokenAmount {
    if token in m.balances then m.balances[token] else 0
  }

  function Minted(s: State, token: TokenId): nat {
    if token in s.minted then s.minted[token] else 0
  }

  // ----- the operations of the state -----

  // Addition of unsigned 64-bit integers, with wrap-around.
  function AddAmounts(a: nat, b: nat): TokenAmount {
    (a + b) % U64_RANGE
  }

  // Adds an amount to one balance, creating it if needed.
  function Credit(state: map<Address, AddressState>, token: TokenId, amount: TokenAmount, a: Address)
    : map<Address, AddressState>
  {
    var m := if a in state then state[a] else EMPTY;
    state[a := m.(balances := m.balances[token := AddAmounts(BalanceIn(m, token), amount)])]
  }

  function MintToken(s: State, token: TokenId, amount: TokenAmount, owner: Address): State {
    State(Credit(s.state, token, amount, owner), s.tokens + {token}, s.minted[token := Minted(s, token) + amount])
  }

  function Balance(s: State, token: TokenId, a: Address): Result<TokenAmount, ContractError> {
    if token !in s.tokens then Err(InvalidTokenId) else Ok(BalanceIn(Of(s, a), token))
  }

  predicate IsOperator(s: State, a: Address, owner: Address) {
    a in Of(s, owner).operators
  }

  function TransferToken(s: State, token: TokenId, amount: TokenAmount, from: Address, to: Address)
    : Result<State, ContractError>
  {
    if token !in s.tokens then Err(InvalidTokenId)
    else if amount == 0 then Ok(s)
    else if from !in s.state || token !in s.state[from].balances || s.state[from].balances[token] < amount
        then Err(InsufficientFunds)
    else
      var m := s.state[from];
      var debited := s.state[from := m.(balances := m.balances[token := m.balances[token] - amount])];
      Ok(s.(state := Credit(debited, token, amount, to)))
  }

  function ApplyUpdate(s: State, owner: Address, update: OperatorUpdate): State {
    match update
    case Add(operator) => s.(state := s.state[owner := Of(s, owner).(operators := Of(s, owner).operators + {operator})])
    case Remove(operator) =>
      if owner in s.state
      then s.(state := s.state[owner := s.state[owner].(operators := s.state[owner].operators - {operator})])
      else s
  }

  // ----- the entrypoints; an error means that nothing has changed -----

  function MintAll(s: State, owner: Address, tokens: seq<MintItem>, logged: nat): Result<State, ContractError>
    decreases |tokens|
  {
    if tokens == [] then Ok(s)
    else if logged + 2 > MAX_LOGS then Err(LogFull)
    else MintAll(MintToken(s, tokens[0].token, tokens[0].amount, owner), owner, tokens[1..], logged + 2)
  }

  lemma MintNothing(s: State, owner: Address, logged: nat)
    ensures MintAll(s, owner, [], logged) == Ok(s)
  {
  }

  lemma MintUnfold(s: State, owner: Address, tokens: seq<MintItem>, logged: nat)
    requires tokens != []
    ensures MintAll(s, owner, tokens, logged) ==
      if logged + 2 > MAX_LOGS then Err(LogFull)
      else MintAll(MintToken(s, tokens[0].token, tokens[0].amount, owner), owner, tokens[1..], logged + 2)
  {
  }

  function UpdateAll(s: State, sender: Address, updates: seq<OperatorUpdate>, logged: nat): Result<State, ContractError>
    decreases |updates|
  {
    if updates == [] then Ok(s)
    else if logged + 1 > MAX_LOGS then Err(LogFull)
    else UpdateAll(ApplyUpdate(s, sender, updates[0]), sender, updates[1..], logged + 1)
  }

  function Execute(s: State, contractOwner: AccountAddress, call: Call<MintItem>): Result<State, ContractError>
    decreases call
  {
    match call
    case Mint(sender, owner, tokens) =>
      if sender != Account(contractOwner) then Err(Unauthorized) else MintAll(s, owner, tokens, 0)
    case Transfer(sender, transfers) => ExecuteTransfers(s, contractOwner, sender, transfers, 0)
    case UpdateOperator(sender, updates) => UpdateAll(s, sender, updates, 0)
    case Query(_, queried, reaction) =>
      if exists i :: 0 <= i < |queried| && queried[i] !in s.tokens then Err(InvalidTokenId)
      else React(s, contractOwner, reaction)
  }

  function ExecuteTransfers(s: State, contractOwner: AccountAddress, sender: Address,
      transfers: seq<TransferItem<MintItem>>,
      logged: nat)
    : Result<State, ContractError>
    decreases transfers
  {
    if transfers == [] then Ok(s)
    else
      var t := transfers[0];
      if t.from != sender && !IsOperator(s, sender, t.from) then Err(Unauthorized)
      else
        var moved :- TransferToken(s, t.token, t.amount, t.from, AddressOf(t.to));
        if logged + 1 > MAX_LOGS then Err(LogFull)
        else
          var after :- Notify(moved, contractOwner, t);
          ExecuteTransfers(after, contractOwner, sender, transfers[1..], if t.to.ToAccount? then logged + 1 else 0)
  }

  // A receiving contract is invoked.
  function Notify(s: State, contractOwner: AccountAddress, t: TransferItem<MintItem>): Result<State, ContractError>
    decreases t
  {
    match t.to
    case ToAccount(_) => Ok(s)
    case ToContract(_, _, reaction) => React(s, contractOwner, reaction)
  }

  function React(s: State, contractOwner: AccountAddress, reaction: Reaction<MintItem>): Result<State, ContractError>
    decreases reaction
  {
    if reaction.accepts then Ok(ExecuteAll(s, contractOwner, reaction.calls)) else Err(InvokeContractError)
  }

  // Calls one after the other; those that fail change nothing.
  function ExecuteAll(s: State, contractOwner: AccountAddress, calls: seq<Call<MintItem>>): State
    decreases calls
  {
    if calls == [] then s
    else
      match Execute(s, contractOwner, calls[0])
      case Ok(after) => ExecuteAll(after, contractOwner, calls[1..])
      case Err(_) => ExecuteAll(s, contractOwner, calls[1..])
  }

  // ----- the contract as an object -----

  class MultiContract {
    const contractOwner: AccountAddress
    var state: map<Address, AddressState>
    var tokens: set<TokenId>
    ghost var minted: map<TokenId, nat>

    ghost function Value(): State
      reads this
    {
      State(state, tokens, minted)
    }

    constructor (contractOwner: AccountAddress)
      ensures this.contractOwner == contractOwner && Value() == INITIAL
    {
      this.contractOwner := contractOwner;
      state := map[];
      tokens := {};
      minted := map[];
    }

    // Adds to a balance in place.
    method AddTo(token: TokenId, amount: TokenAmount, a: Address)
      modifies this`state
      ensures state == Credit(old(state), token, amount, a)
    {
      if a !in state {
        state := state[a := EMPTY];
      }
      if token !in state[a].balances {
        state := state[a := state[a].(balances := state[a].balances[token := 0])];
      }
      ghost var start := if a in old(state) then old(state)[a] else EMPTY;
      ghost var touched := start.balances[token := BalanceIn(start, token)];
      assert state[a].balances == touched && state[a].operators == start.operators;
      var balance := AddAmounts(state[a].balances[token], amount);
      assert touched[token := balance] == start.balances[token := balance];
      state := state[a := state[a].(balances := state[a].balances[token := balance])];
      assert state == old(state)[a := start.(balances := start.balances[token := balance])];
    }

    // `State::mint`.
    method MintOne(token: TokenId, amount: TokenAmount, owner: Address)
      modifies this
      ensures Value() == MintToken(old(Value()), token, amount, owner)
    {
      minted := minted[token := Minted(Value(), token) + amount];
      tokens := tokens + {token};
      AddTo(token, amount, owner);
    }

    // `State::transfer`.
    method TransferOne(token: TokenId, amount: TokenAmount, from: Address, to: Address)
      returns (r: Result<(), ContractError>)
      modifies this`state
      ensures match TransferToken(old(Value()), token, amount, from, to)
        case Ok(after) => r == Ok(()) && Value() == after
        case Err(e) => r == Err(e) && Value() == old(Value())
    {
      if token !in tokens {
        return Err(InvalidTokenId);
      }
      if amount == 0 {
        return Ok(());
      }
      if from !in state {
        return Err(InsufficientFunds);
      }
      if token !in state[from].balances {
        return Err(InsufficientFunds);
      }
      if state[from].balances[token] < amount {
        return Err(InsufficientFunds);
      }
      state :=
        state[from := state[from].(balances := state[from].balances[token := state[from].balances[token] - amount])];
      AddTo(token, amount, to);
      return Ok(());
    }

    method AddOperator(owner: Address, operator: Address)
      modifies this`state
      ensures Value() == ApplyUpdate(old(Value()), owner, Add(operator))
    {
      if owner !in state {
        state := state[owner := EMPTY];
      }
      state := state[owner := state[owner].(operators := state[owner].operators + {operator})];
      assert state
          == old(state)[owner := Of(old(Value()), owner).(operators := Of(old(Value()), owner).operators + {operator})];
    }

    method RemoveOperator(owner: Address, operator: Address)
      modifies this`state
      ensures Value() == ApplyUpdate(old(Value()), owner, Remove(operator))
    {
      if owner in state {
        state := state[owner := state[owner].(operators := state[owner].operators - {operator})];
      }
    }

    // `contract_mint`.
    method ContractMint(sender: Address, owner: Address, items: seq<MintItem>) returns (r: Result<(), ContractError>)
      modifies this
      ensures match (if sender != Account(contractOwner) then Err(Unauthorized)
          else MintAll(old(Value()), owner, items, 0))
        case Ok(after) => r == Ok(()) && Value() == after
        case Err(e) => r == Err(e)
    {
      if sender != Account(contractOwner) {
        return Err(Unauthorized);
      }
      var logged: nat := 0;
      hide MintToken, MintAll;
      for i := 0 to |items|
        invariant MintAll(Value(), owner, items[i..], logged) == MintAll(old(Value()), owner, items, 0)
      {
        assert items[i..][1..] == items[i + 1..];
        MintUnfold(Value(), owner, items[i..], logged);
        MintOne(items[i].token, items[i].amount, owner);
        if logged + 1 > MAX_LOGS {
          return Err(LogFull);
        }
        logged := logged + 1;
        if logged + 1 > MAX_LOGS {
          return Err(LogFull);
        }
        logged := logged + 1;
      }
      MintNothing(Value(), owner, logged);
      return Ok(());
    }

    // `contract_update_operator`.
    method ContractUpdateOperator(sender: Address, updates: seq<OperatorUpdate>) returns (r: Result<(), ContractError>)
      modifies this
      ensures match UpdateAll(old(Value()), sender, updates, 0)
        case Ok(after) => r == Ok(()) && Value() == after
        case Err(e) => r == Err(e)
    {
      var logged: nat := 0;
      for i := 0 to |updates|
        invariant UpdateAll(Value(), sender, updates[i..], logged) == UpdateAll(old(Value()), sender, updates, 0)
      {
        assert updates[i..][1..] == updates[i + 1..];
        match updates[i] {
          case Add(operator) => AddOperator(sender, operator);
          case Remove(operator) => RemoveOperator(sender, operator);
        }
        if logged + 1 > MAX_LOGS {
          return Err(LogFull);
        }
        logged := logged + 1;
      }
      return Ok(());
    }

    // `contract_transfer`; receiving contracts are invoked along the way.
    method ContractTransfer(sender: Address, transfers: seq<TransferItem<MintItem>>)
      returns (r: Result<(), ContractError>)
      modifies this
      ensures match ExecuteTransfers(old(Value()), contractOwner, sender, transfers, 0)
        case Ok(after) => r == Ok(()) && Value() == after
        case Err(e) => r == Err(e)
      decreases transfers
    {
      var logged: nat := 0;
      for i := 0 to |transfers|
        invariant ExecuteTransfers(Value(), contractOwner, sender, transfers[i..], logged)
               == ExecuteTransfers(old(Value()), contractOwner, sender, transfers, 0)
      {
        assert transfers[i..][1..] == transfers[i + 1..];
        var t := transfers[i];
        if t.from != sender && !(t.from in state && sender in state[t.from].operators) {
          return Err(Unauthorized);
        }
        r := TransferOne(t.token, t.amount, t.from, AddressOf(t.to));
        if r.Err? {
          return;
        }
        if logged + 1 > MAX_LOGS {
          return Err(LogFull);
        }
        logged := logged + 1;
        r := NotifyReceiver(t);
        if r.Err? {
          return;
        }
        if t.to.ToContract? {
          logged := 0;
        }
      }
      return Ok(());
    }

    method NotifyReceiver(t: TransferItem<MintItem>) returns (r: Result<(), ContractError>)
      modifies this
      ensures match Notify(old(Value()), contractOwner, t)
        case Ok(after) => r == Ok(()) && Value() == after
        case Err(e) => r == Err(e)
      decreases t
    {
      match t.to
      case ToAccount(_) => return Ok(());
      case ToContract(_, _, reaction) => r := InvokeContract(reaction);
    }

    // What happens while another contract is invoked.
    method InvokeContract(reaction: Reaction<MintItem>) returns (r: Result<(), ContractError>)
      modifies this
      ensures match React(old(Value()), contractOwner, reaction)
        case Ok(after) => r == Ok(()) && Value() == after
        case Err(e) => r == Err(e)
      decreases reaction
    {
      for i := 0 to |reaction.calls|
        invariant ExecuteAll(Value(), contractOwner, reaction.calls[i..])
            == ExecuteAll(old(Value()), contractOwner, reaction.calls)
      {
        assert reaction.calls[i..][1..] == reaction.calls[i + 1..];
        var _ := Receive(reaction.calls[i]);
      }
      return if reaction.accepts then Ok(()) else Err(InvokeContractError);
    }

    // A call from outside; if it fails, the state is as before.
    method Receive(call: Call<MintItem>) returns (r: Result<(), ContractError>)
      modifies this
      ensures match Execute(old(Value()), contractOwner, call)
        case Ok(after) => r == Ok(()) && Value() == after
        case Err(e) => r == Err(e) && Value() == old(Value())
      decreases call
    {
      var before, tokensBefore := state, tokens;
      ghost var mintedBefore := minted;
      match call {
        case Mint(sender, owner, items) => r := ContractMint(sender, owner, items);
        case Transfer(sender, transfers) => r := ContractTransfer(sender, transfers);
        case UpdateOperator(sender, updates) => r := ContractUpdateOperator(sender, updates);
        case Query(_, queried, reaction) =>
          if exists i :: 0 <= i < |queried| && queried[i] !in tokens {
            r := Err(InvalidTokenId);
          } else {
            r := InvokeContract(reaction);
          }
      }
      if r.Err? {
        state, tokens, minted := before, tokensBefore, mintedBefore;
      }
    }
  }

  // ----- conservation -----

  // The balances of one token.
  function Column(state: map<Address, AddressState>, token: TokenId): map<Address, nat> {
    map a | a in state :: BalanceIn(state[a], token)
  }

  ghost function Supply(s: State, token: TokenId): nat {
    Total(Column(s.state, token))
  }

  // The balances of a token add up to what was minted, as long as that fits in
  // 64 bits; and in any case up to multiples of 2^64.
  ghost predicate Conserved(s: State, token: TokenId) {
    && Supply(s, token) % U64_RANGE == Minted(s, token) % U64_RANGE
    && (Minted(s, token) < U64_RANGE ==> Supply(s, token) == Minted(s, token))
    && (token !in s.tokens ==> Minted(s, token) == 0)
  }

  ghost predicate AllConserved(s: State) {
    forall token :: Conserved(s, token)
  }

  // One column after a change of one address.
  lemma ColumnUpdate(state: map<Address, AddressState>, a: Address, m: AddressState, token: TokenId)
    ensures Column(state[a := m], token) == Column(state, token)[a := BalanceIn(m, token)]
  {
  }

  lemma SupplyUpdate(state: map<Address, AddressState>, a: Address, m: AddressState, token: TokenId)
    ensures var before := BalanceIn(if a in state then state[a] else EMPTY, token);
      && Total(Column(state[a := m], token)) == Total(Column(state, token)) - before + BalanceIn(m, token)
      && before <= Total(Column(state, token))
  {
    ColumnUpdate(state, a, m, token);
    TotalUpdate(Column(state, token), a, BalanceIn(m, token));
    if a in state {
      TotalBounds(Column(state, token), a);
    }
  }

  // A credit adds the amount, or wraps around.
  lemma CreditSupply(state: map<Address, AddressState>, token: TokenId, amount: TokenAmount, a: Address, other: TokenId)
    ensures other != token ==> Total(Column(Credit(state, token, amount, a), other)) == Total(Column(state, other))
    ensures Total(Column(Credit(state, token, amount, a), token)) % U64_RANGE
        == (Total(Column(state, token)) + amount) % U64_RANGE
    ensures Total(Column(state, token)) + amount < U64_RANGE ==>
      Total(Column(Credit(state, token, amount, a), token)) == Total(Column(state, token)) + amount
  {
    hide Total, Column;
    var m := if a in state then state[a] else EMPTY;
    var b := BalanceIn(m, token);
    var m' := m.(balances := m.balances[token := AddAmounts(b, amount)]);
    SupplyUpdate(state, a, m', other);
    SupplyUpdate(state, a, m', token);
    WrapOnce(b, amount);
    hide *;
    ModuloRange(Total(Column(state, token)) - b + AddAmounts(b, amount), Total(Column(state, token)) + amount);
  }

  lemma WrapOnce(b: TokenAmount, amount: TokenAmount)
    ensures AddAmounts(b, amount) == b + amount || AddAmounts(b, amount) == b + amount - U64_RANGE
    ensures b + amount < U64_RANGE ==> AddAmounts(b, amount) == b + amount
  {
  }

  lemma ModuloRange(x: int, y: int)
    requires x == y || x == y - U64_RANGE
    ensures x % U64_RANGE == y % U64_RANGE
  {
  }

  lemma SameResidue(a: nat, b: nat, amount: nat)
    requires a % U64_RANGE == b % U64_RANGE
    ensures (a + amount) % U64_RANGE == (b + amount) % U64_RANGE
  {
  }

  function Debit(state: map<Address, AddressState>, token: TokenId, amount: TokenAmount, a: Address)
    : map<Address, AddressState>
    requires a in state && amount <= BalanceIn(state[a], token)
  {
    state[a := state[a].(balances := state[a].balances[token := BalanceIn(state[a], token) - amount])]
  }

  lemma DebitSupply(state: map<Address, AddressState>, token: TokenId, amount: TokenAmount, a: Address, other: TokenId)
    requires a in state && amount <= BalanceIn(state[a], token)
    ensures Total(Column(Debit(state, token, amount, a), other))
         == Total(Column(state, other)) - if other == token then amount else 0
    ensures amount <= Total(Column(state, token))
  {
    var m := state[a].(balances := state[a].balances[token := BalanceIn(state[a], token) - amount]);
    SupplyUpdate(state, a, m, other);
    SupplyUpdate(state, a, m, token);
  }

  lemma TransferIsDebitAndCredit(s: State, token: TokenId, amount: TokenAmount, from: Address, to: Address)
    requires amount > 0 && TransferToken(s, token, amount, from, to).Ok?
    ensures from in s.state && amount <= BalanceIn(s.state[from], token)
    ensures TransferToken(s, token, amount, from, to).value
         == s.(state := Credit(Debit(s.state, token, amount, from), token, amount, to))
  {
  }

  // The amount leaves one balance and arrives at another, also if they are the same.
  lemma TransferSupply(s: State, token: TokenId, amount: TokenAmount, from: Address, to: Address, other: TokenId)
    requires TransferToken(s, token, amount, from, to).Ok?
    ensures var after := TransferToken(s, token, amount, from, to).value;
      && Supply(after, other) % U64_RANGE == Supply(s, other) % U64_RANGE
      && (Supply(s, other) < U64_RANGE ==> Supply(after, other) == Supply(s, other))
  {
    hide Debit, Credit, Total, Column, AddAmounts;
    if amount > 0 {
      TransferIsDebitAndCredit(s, token, amount, from, to);
      hide TransferToken;
      var debited := Debit(s.state, token, amount, from);
      DebitSupply(s.state, token, amount, from, other);
      CreditSupply(debited, token, amount, to, other);
      assert other == token ==> Total(Column(debited, token)) + amount == Supply(s, token);
    }
  }

  // ----- what every call keeps -----

  // An address all of whose operators are among some quiet addresses keeps its
  // operators, and its balance of every token of which less than 2^64 was minted.
  ghost predicate Untouched(s: State, after: State, a: Address, quiet: set<Address>) {
    Of(s, a).operators <= quiet ==>
      && Of(after, a).operators == Of(s, a).operators
      && forall token :: AllConserved(s) && Minted(after, token) < U64_RANGE ==>
           BalanceIn(Of(s, a), token) <= BalanceIn(Of(after, a), token)
  }

  ghost predicate Evolves(s: State, after: State, quiet: set<Address>) {
    && s.tokens <= after.tokens
    && (forall token :: Minted(s, token) <= Minted(after, token))
    && (AllConserved(s) ==> AllConserved(after))
    && (forall a :: a in quiet ==> Untouched(s, after, a, quiet))
  }

  lemma EvolvesTrans(s: State, mid: State, after: State, quiet: set<Address>)
    requires Evolves(s, mid, quiet) && Evolves(mid, after, quiet)
    ensures Evolves(s, after, quiet)
  {
    hide AllConserved, Of, BalanceIn, Minted;
    forall a | a in quiet ensures Untouched(s, after, a, quiet) {
      assert Untouched(s, mid, a, quiet) && Untouched(mid, after, a, quiet);
      forall token | Of(s, a).operators <= quiet && AllConserved(s) && Minted(after, token) < U64_RANGE
        ensures BalanceIn(Of(s, a), token) <= BalanceIn(Of(after, a), token)
      {
        assert Minted(mid, token) <= Minted(after, token);
      }
    }
  }

  lemma EvolvesSelf(s: State, quiet: set<Address>)
    ensures Evolves(s, s, quiet)
  {
  }

  lemma OneBalance(s: State, a: Address, token: TokenId)
    ensures BalanceIn(Of(s, a), token) <= Supply(s, token)
  {
    if a in s.state {
      TotalBounds(Column(s.state, token), a);
    }
  }

  lemma MintConserves(s: State, token: TokenId, amount: TokenAmount, owner: Address)
    requires AllConserved(s)
    ensures AllConserved(MintToken(s, token, amount, owner))
  {
    hide Total, Column, Credit;
    var after := MintToken(s, token, amount, owner);
    forall other ensures Conserved(after, other) {
      assert Conserved(s, other);
      CreditSupply(s.state, token, amount, owner, other);
      if other == token {
        SameResidue(Supply(s, token), Minted(s, token), amount);
      }
    }
  }

  lemma MintEvolves(s: State, token: TokenId, amount: TokenAmount, owner: Address, quiet: set<Address>)
    ensures Evolves(s, MintToken(s, token, amount, owner), quiet)
  {
    var after := MintToken(s, token, amount, owner);
    if AllConserved(s) {
      MintConserves(s, token, amount, owner);
    }
    forall a | a in quiet ensures Untouched(s, after, a, quiet) {
      forall t | AllConserved(s) && Minted(after, t) < U64_RANGE
        ensures BalanceIn(Of(s, a), t) <= BalanceIn(Of(after, a), t)
      {
        if a == owner && t == token {
          assert Conserved(s, t);
          OneBalance(s, a, t);
          WrapOnce(BalanceIn(Of(s, a), t), amount);
        }
      }
    }
  }

  // A transfer by its owner or an operator.
  ghost predicate Allowed(s: State, sender: Address, from: Address) {
    from == sender || IsOperator(s, sender, from)
  }

  lemma TransferConserves(s: State, token: TokenId, amount: TokenAmount, from: Address, to: Address)
    requires AllConserved(s) && TransferToken(s, token, amount, from, to).Ok?
    ensures AllConserved(TransferToken(s, token, amount, from, to).value)
  {
    var after := TransferToken(s, token, amount, from, to).value;
    forall other ensures Conserved(after, other) {
      assert Conserved(s, other);
      TransferSupply(s, token, amount, from, to, other);
    }
  }

  // A receiver other than the payer gets richer, unless the balance wraps around.
  lemma ReceiverGains(s: State, token: TokenId, amount: TokenAmount, from: Address, to: Address, a: Address, t: TokenId)
    requires TransferToken(s, token, amount, from, to).Ok? && a != from
    requires AllConserved(s) && Minted(s, t) < U64_RANGE
    ensures BalanceIn(Of(s, a), t) <= BalanceIn(Of(TransferToken(s, token, amount, from, to).value, a), t)
  {
    if amount > 0 && a == to && t == token {
      assert Conserved(s, t);
      var m := s.state[from];
      var m' := m.(balances := m.balances[token := m.balances[token] - amount]);
      SupplyUpdate(s.state, from, m', token);
      SupplyUpdate(s.state[from := m'], to, Of(s, to), token);
      WrapOnce(BalanceIn(Of(s, a), t), amount);
    }
  }

  lemma TransferEvolves(s: State, token: TokenId, amount: TokenAmount, from: Address, to: Address, sender: Address,
      quiet: set<Address>)
    requires TransferToken(s, token, amount, from, to).Ok? && Allowed(s, sender, from) && sender !in quiet
    ensures Evolves(s, TransferToken(s, token, amount, from, to).value, quiet)
  {
    var after := TransferToken(s, token, amount, from, to).value;
    if AllConserved(s) {
      TransferConserves(s, token, amount, from, to);
    }
    forall a | a in quiet ensures Untouched(s, after, a, quiet) {
      if Of(s, a).operators <= quiet {
        assert a != from;
        forall t | AllConserved(s) && Minted(after, t) < U64_RANGE
          ensures BalanceIn(Of(s, a), t) <= BalanceIn(Of(after, a), t)
        {
          ReceiverGains(s, token, amount, from, to, a, t);
        }
      }
    }
  }

  lemma UpdateSupply(s: State, sender: Address, update: OperatorUpdate, token: TokenId)
    ensures Supply(ApplyUpdate(s, sender, update), token) == Supply(s, token)
  {
    var after := ApplyUpdate(s, sender, update);
    if after != s {
      SupplyUpdate(s.state, sender, after.state[sender], token);
      assert after.state == s.state[sender := after.state[sender]];
    }
  }

  lemma UpdateEvolves(s: State, sender: Address, update: OperatorUpdate, quiet: set<Address>)
    requires sender !in quiet
    ensures Evolves(s, ApplyUpdate(s, sender, update), quiet)
  {
    var after := ApplyUpdate(s, sender, update);
    if AllConserved(s) {
      forall token ensures Conserved(after, token) {
        assert Conserved(s, token);
        UpdateSupply(s, sender, update, token);
      }
    }
    forall a, token ensures BalanceIn(Of(s, a), token) == BalanceIn(Of(after, a), token) {
    }
  }

  lemma {:induction false} MintAllEvolves(s: State, owner: Address, tokens: seq<MintItem>, logged: nat,
      quiet: set<Address>)
    requires MintAll(s, owner, tokens, logged).Ok?
    ensures Evolves(s, MintAll(s, owner, tokens, logged).value, quiet)
    decreases |tokens|
  {
    hide Evolves, MintToken;
    if tokens == [] {
      EvolvesSelf(s, quiet);
    } else {
      var minted := MintToken(s, tokens[0].token, tokens[0].amount, owner);
      MintEvolves(s, tokens[0].token, tokens[0].amount, owner, quiet);
      MintAllEvolves(minted, owner, tokens[1..], logged + 2, quiet);
      EvolvesTrans(s, minted, MintAll(s, owner, tokens, logged).value, quiet);
    }
  }

  lemma {:induction false} UpdateAllEvolves(s: State, sender: Address, updates: seq<OperatorUpdate>, logged: nat,
      quiet: set<Address>)
    requires sender !in quiet && UpdateAll(s, sender, updates, logged).Ok?
    ensures Evolves(s, UpdateAll(s, sender, updates, logged).value, quiet)
    decreases |updates|
  {
    hide Evolves, ApplyUpdate;
    if updates == [] {
      EvolvesSelf(s, quiet);
    } else {
      var updated := ApplyUpdate(s, sender, updates[0]);
      UpdateEvolves(s, sender, updates[0], quiet);
      UpdateAllEvolves(updated, sender, updates[1..], logged + 1, quiet);
      EvolvesTrans(s, updated, UpdateAll(s, sender, updates, logged).value, quiet);
    }
  }

  // Every call, with any reentrant calls nested in it, conserves all tokens and
  // leaves the balances of absent owners with absent operators where they are.
  lemma {:induction false} CallEvolves(s: State, contractOwner: AccountAddress, call: Call<MintItem>,
      quiet: set<Address>)
    requires Absent(call, quiet) && Execute(s, contractOwner, call).Ok?
    ensures Evolves(s, Execute(s, contractOwner, call).value, quiet)
    decreases call
  {
    hide Evolves;
    match call
    case Mint(sender, owner, tokens) => MintAllEvolves(s, owner, tokens, 0, quiet);
    case Transfer(sender, transfers) => TransfersEvolve(s, contractOwner, sender, transfers, 0, quiet);
    case UpdateOperator(sender, updates) => UpdateAllEvolves(s, sender, updates, 0, quiet);
    case Query(_, _, reaction) => CallsEvolve(s, contractOwner, reaction.calls, quiet);
  }

  lemma {:induction false} TransfersEvolve(s: State, contractOwner: AccountAddress, sender: Address,
      transfers: seq<TransferItem<MintItem>>, logged: nat, quiet: set<Address>)
    requires sender !in quiet && AbsentInTransfers(transfers, quiet)
    requires ExecuteTransfers(s, contractOwner, sender, transfers, logged).Ok?
    ensures Evolves(s, ExecuteTransfers(s, contractOwner, sender, transfers, logged).value, quiet)
    decreases transfers
  {
    hide Evolves, TransferToken;
    if transfers == [] {
      EvolvesSelf(s, quiet);
    } else {
      var t := transfers[0];
      var end := ExecuteTransfers(s, contractOwner, sender, transfers, logged).value;
      var moved := TransferToken(s, t.token, t.amount, t.from, AddressOf(t.to)).value;
      TransferEvolves(s, t.token, t.amount, t.from, AddressOf(t.to), sender, quiet);
      var after := Notify(moved, contractOwner, t).value;
      NotifyEvolves(moved, contractOwner, t, quiet);
      TransfersEvolve(after, contractOwner, sender, transfers[1..], if t.to.ToAccount? then logged + 1 else 0, quiet);
      EvolvesTrans(moved, after, end, quiet);
      EvolvesTrans(s, moved, end, quiet);
    }
  }

  lemma {:induction false} NotifyEvolves(s: State, contractOwner: AccountAddress, t: TransferItem<MintItem>,
      quiet: set<Address>)
    requires AbsentInTransfer(t, quiet) && Notify(s, contractOwner, t).Ok?
    ensures Evolves(s, Notify(s, contractOwner, t).value, quiet)
    decreases t
  {
    hide Evolves;
    match t.to
    case ToAccount(_) => EvolvesSelf(s, quiet);
    case ToContract(_, _, reaction) => CallsEvolve(s, contractOwner, reaction.calls, quiet);
  }

  lemma {:induction false} CallsEvolve(s: State, contractOwner: AccountAddress, calls: seq<Call<MintItem>>,
      quiet: set<Address>)
    requires AbsentInCalls(calls, quiet)
    ensures Evolves(s, ExecuteAll(s, contractOwner, calls), quiet)
    decreases calls
  {
    hide Evolves;
    if calls == [] {
      EvolvesSelf(s, quiet);
    } else {
      var end := ExecuteAll(s, contractOwner, calls);
      match Execute(s, contractOwner, calls[0])
      case Ok(after) =>
        CallEvolves(s, contractOwner, calls[0], quiet);
        CallsEvolve(after, contractOwner, calls[1..], quiet);
        EvolvesTrans(s, after, end, quiet);
      case Err(_) =>
        CallsEvolve(s, contractOwner, calls[1..], quiet);
    }
  }

  // ----- whole runs -----

  // In every reachable state, for every token: the balances add up to the amount
  // minted while that is below 2^64, and always modulo 2^64.
  lemma SupplyIsConserved(contractOwner: AccountAddress, calls: seq<Call<MintItem>>, token: TokenId)
    ensures Conserved(ExecuteAll(INITIAL, contractOwner, calls), token)
  {
    NobodyAbsent(calls);
    CallsEvolve(INITIAL, contractOwner, calls, {});
    forall t ensures Conserved(INITIAL, t) {
      assert Column(INITIAL.state, t) == map[];
    }
  }

  // Balances do not go down without their owner or an operator of the owner: over
  // any calls in which none of a set of addresses is a sender, not even in a
  // reentrant call, an address of the set whose operators are in the set keeps
  // its operators and its balances.
  lemma AbsentOwnersKeepTheirTokens(s: State, contractOwner: AccountAddress, calls: seq<Call<MintItem>>, a: Address,
      quiet: set<Address>, token: TokenId)
    requires a in quiet && Of(s, a).operators <= quiet && AbsentInCalls(calls, quiet)
    requires AllConserved(s) && Minted(ExecuteAll(s, contractOwner, calls), token) < U64_RANGE
    ensures var end := ExecuteAll(s, contractOwner, calls);
      Of(end, a).operators == Of(s, a).operators && BalanceIn(Of(s, a), token) <= BalanceIn(Of(end, a), token)
  {
    CallsEvolve(s, contractOwner, calls, quiet);
    assert Untouched(s, ExecuteAll(s, contractOwner, calls), a, quiet);
  }
}
