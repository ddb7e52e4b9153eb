// Addresses of accounts and contracts, and transfers to accounts
// (concordium-contracts-common/src/types.rs).
module Addresses {
  import opened Hashing

  const ACCOUNT_ADDRESS_SIZE: nat := 32

  type AccountAddress = a: seq<byte> | |a| == ACCOUNT_ADDRESS_SIZE witness seq(ACCOUNT_ADDRESS_SIZE, _ => 0)

  datatype Address = Account(account: AccountAddress) | Contract(index: nat, subindex: nat)

  datatype Payment = Payment(to: AccountAddress, amount: nat)
}
