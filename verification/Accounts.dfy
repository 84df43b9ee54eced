/**
 Account addresses and coin balances.

 A byte string is represented by its number in bijective base 256 (digits 1 to
 256, most significant first): the empty string is 0, the strings of one length
 form one interval, and on strings of equal length `bytes.Compare` is the order
 of the numbers.
 */
module Accounts {
  import opened Sums

  type Address = nat

  const NO_ADDRESS: Address := 0

  /** The interval of the 20-byte strings. */
  const FIRST_ACCOUNT: nat := 0x0101010101010101010101010101010101010101
  const AFTER_ACCOUNTS: nat := 0x010101010101010101010101010101010101010101

  predicate IsAccount(a: Address) {
    FIRST_ACCOUNT <= a < AFTER_ACCOUNTS
  }

  function Lookup<K, V>(m: map<K, V>, k: K, default: V): V {
    if k in m then m[k] else default
  }

  type Balances = map<Address, nat>

  function BalanceOf(m: Balances, a: Address): nat { Lookup(m, a, 0) }

  /** All the coins there are. */
  ghost function Coins(m: Balances): int { Total<Address>(m) }

  lemma CoinsWritten(m: Balances, a: Address, x: nat)
    ensures Coins(m[a := x]) == Coins(m) + x - BalanceOf(m, a)
  {
    TotalUpdate<Address>(m, a, x);
  }
}
