/** A mint and its token accounts, as the token program keeps them: balances, the transfer fees withheld
    in the receiving accounts, and the supply. */
module Tokens {
  import opened Common
  import opened PacketCodec
  import Fees = TransferFee

  /** A token account: the associated account of a wallet, or any other. */
  datatype Account = Associated(owner: Bytes32) | Standalone(id: nat)

  datatype Token = Token(balances: map<Account, u64>, withheld: nat, supply: u64)

  type MintFee = Option<Fees.FeeConfig>

  ghost predicate ValidFee(fee: MintFee) {
    fee.Some? ==> Fees.Valid(fee.value)
  }

  function BalanceOf(t: Token, account: Account): u64 {
    if account in t.balances then t.balances[account] else 0
  }

  function FeeOn(fee: MintFee, amount: u64): nat {
    if fee.Some? then Fees.Fee(fee.value, amount) else 0
  }

  // ---------- the three operations ----------

  /** A transfer to oneself is checked and then does nothing. */
  function Transfer(t: Token, fee: MintFee, from: Account, to: Account, amount: u64): Result<Token> {
    var _ :- Require(amount <= BalanceOf(t, from), InsufficientFunds);
    var withheld := FeeOn(fee, amount);
    var _ :- Require(withheld <= amount, Abort);
    if from == to then Ok(t)
    else
      var credited := BalanceOf(t, to) + amount - withheld;
      var _ :- Require(credited <= U64_MAX, Abort);
      Ok(t.(balances := t.balances[from := BalanceOf(t, from) - amount][to := credited], withheld := t.withheld + withheld))
  }

  function Burn(t: Token, from: Account, amount: u64): Result<Token> {
    var _ :- Require(amount <= BalanceOf(t, from), InsufficientFunds);
    var _ :- Require(amount <= t.supply, Abort);
    Ok(t.(balances := t.balances[from := BalanceOf(t, from) - amount], supply := t.supply - amount))
  }

  function Mint(t: Token, to: Account, amount: u64): Result<Token> {
    var _ :- Require(BalanceOf(t, to) + amount <= U64_MAX && t.supply + amount <= U64_MAX, Abort);
    Ok(t.(balances := t.balances[to := BalanceOf(t, to) + amount], supply := t.supply + amount))
  }

  // ---------- the supply is the sum of what everyone holds ----------

  ghost function Sum(balances: map<Account, u64>, accounts: set<Account>): nat
    requires accounts <= balances.Keys
    decreases |accounts|
  {
    if accounts == {} then 0
    else
      var account :| account in accounts;
      balances[account] + Sum(balances, accounts - {account})
  }

  ghost function Total(balances: map<Account, u64>): nat {
    Sum(balances, balances.Keys)
  }

  lemma {:induction false} SumOfRest(balances: map<Account, u64>, accounts: set<Account>, account: Account)
    requires account in accounts && accounts <= balances.Keys
    ensures Sum(balances, accounts) == balances[account] + Sum(balances, accounts - {account})
    decreases |accounts|
  {
    var first :| first in accounts && Sum(balances, accounts) == balances[first] + Sum(balances, accounts - {first});
    if first != account {
      SumOfRest(balances, accounts - {first}, account);
      SumOfRest(balances, accounts - {account}, first);
      assert accounts - {first} - {account} == accounts - {account} - {first};
    }
  }

  lemma {:induction false} SumIgnoresOthers(balances: map<Account, u64>, other: map<Account, u64>, accounts: set<Account>)
    requires accounts <= balances.Keys && accounts <= other.Keys
    requires forall a | a in accounts :: balances[a] == other[a]
    ensures Sum(balances, accounts) == Sum(other, accounts)
    decreases |accounts|
  {
    if accounts != {} {
      var account :| account in accounts;
      SumOfRest(balances, accounts, account);
      SumOfRest(other, accounts, account);
      SumIgnoresOthers(balances, other, accounts - {account});
    }
  }

  lemma TotalOfUpdate(balances: map<Account, u64>, account: Account, balance: u64)
    ensures Total(balances[account := balance])
            == Total(balances) - (if account in balances then balances[account] else 0) + balance
    ensures account in balances ==> balances[account] <= Total(balances)
  {
    var updated := balances[account := balance];
    var others := balances.Keys - {account};
    assert updated.Keys - {account} == others;
    SumOfRest(updated, updated.Keys, account);
    SumIgnoresOthers(balances, updated, others);
    if account in balances {
      SumOfRest(balances, balances.Keys, account);
    } else {
      assert others == balances.Keys;
    }
  }

  ghost predicate Sound(t: Token) {
    Total(t.balances) + t.withheld == t.supply
  }

  lemma MoveKeepsTotal(t: Token, from: Account, to: Account, amount: u64, withheld: nat)
    requires Sound(t) && from != to && withheld <= amount <= BalanceOf(t, from)
    ensures BalanceOf(t, to) + amount - withheld <= U64_MAX
    ensures Total(t.balances[from := BalanceOf(t, from) - amount][to := BalanceOf(t, to) + amount - withheld])
            == Total(t.balances) - withheld
  {
    var debited := t.balances[from := BalanceOf(t, from) - amount];
    hide Total;
    TotalOfUpdate(t.balances, from, BalanceOf(t, from) - amount);
    TotalOfUpdate(debited, to, 0);
    TotalOfUpdate(debited, to, BalanceOf(t, to) + amount - withheld);
  }

  /** A sound token pays any transfer its sender can afford, and stays sound: nothing is made or lost. */
  lemma TransferIsSound(t: Token, fee: MintFee, from: Account, to: Account, amount: u64)
    requires Sound(t) && ValidFee(fee)
    ensures Transfer(t, fee, from, to, amount).Ok? <==> amount <= BalanceOf(t, from)
    ensures Transfer(t, fee, from, to, amount).Ok? ==>
              var u := Transfer(t, fee, from, to, amount).value;
              && Sound(u) && u.supply == t.supply
              && (from != to ==> BalanceOf(u, from) == BalanceOf(t, from) - amount
                                 && BalanceOf(u, to) == BalanceOf(t, to) + amount - FeeOn(fee, amount))
              && forall a | from == to || (a != from && a != to) :: BalanceOf(u, a) == BalanceOf(t, a)
  {
    hide Total, Fees.Fee;
    if fee.Some? {
      Fees.FeeIsPartOfAmount(fee.value, amount);
    }
    if amount <= BalanceOf(t, from) && from != to {
      MoveKeepsTotal(t, from, to, amount, FeeOn(fee, amount));
    }
  }

  lemma BurnIsSound(t: Token, from: Account, amount: u64)
    requires Sound(t)
    ensures Burn(t, from, amount).Ok? <==> amount <= BalanceOf(t, from)
    ensures Burn(t, from, amount).Ok? ==>
              var u := Burn(t, from, amount).value;
              && Sound(u) && u.supply == t.supply - amount && BalanceOf(u, from) == BalanceOf(t, from) - amount
              && forall a | a != from :: BalanceOf(u, a) == BalanceOf(t, a)
  {
    hide Total;
    TotalOfUpdate(t.balances, from, 0);
    if amount <= BalanceOf(t, from) {
      TotalOfUpdate(t.balances, from, BalanceOf(t, from) - amount);
    }
  }

  /** Minting fails only when the supply would leave the u64 range. */
  lemma MintIsSound(t: Token, to: Account, amount: u64)
    requires Sound(t)
    ensures Mint(t, to, amount).Ok? <==> t.supply + amount <= U64_MAX
    ensures Mint(t, to, amount).Ok? ==>
              var u := Mint(t, to, amount).value;
              && Sound(u) && u.supply == t.supply + amount && BalanceOf(u, to) == BalanceOf(t, to) + amount
              && forall a | a != to :: BalanceOf(u, a) == BalanceOf(t, a)
  {
    hide Total;
    TotalOfUpdate(t.balances, to, 0);
    if t.supply + amount <= U64_MAX {
      TotalOfUpdate(t.balances, to, BalanceOf(t, to) + amount);
    }
  }
}
