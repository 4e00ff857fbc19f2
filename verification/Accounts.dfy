/** Accounts, and maps of balances in which an absent account reads as zero. */
module Accounts {

  type AccountId = nat

  function Balance(m: map<AccountId, nat>, who: AccountId): nat { if who in m then m[who] else 0 }

  function Credited(m: map<AccountId, nat>, who: AccountId, amount: nat): map<AccountId, nat> {
    m[who := Balance(m, who) + amount]
  }

  ghost predicate Distinct<T(!new)>(s: seq<T>) { forall i, j :: 0 <= i < j < |s| ==> s[i] != s[j] }

  /** The sum of the balances of the listed accounts. */
  ghost function Total(m: map<AccountId, nat>, accounts: seq<AccountId>): nat {
    if |accounts| == 0 then 0 else Balance(m, accounts[0]) + Total(m, accounts[1..])
  }

  lemma {:induction false} TotalElsewhere(m: map<AccountId, nat>, who: AccountId, balance: nat,
                                          accounts: seq<AccountId>)
    requires who !in accounts
    ensures Total(m[who := balance], accounts) == Total(m, accounts)
  {
    if |accounts| > 0 { TotalElsewhere(m, who, balance, accounts[1..]); }
  }

  /** Setting one balance changes the total by what it changes. */
  lemma {:induction false} TotalMoves(m: map<AccountId, nat>, who: AccountId, balance: nat, accounts: seq<AccountId>)
    requires Distinct(accounts) && who in accounts
    ensures Total(m[who := balance], accounts) + Balance(m, who) == Total(m, accounts) + balance
  {
    if accounts[0] == who {
      assert Balance(m[who := balance], who) == balance;
      TotalElsewhere(m, who, balance, accounts[1..]);
    } else {
      TotalMoves(m, who, balance, accounts[1..]);
    }
  }

  lemma TotalCredited(m: map<AccountId, nat>, who: AccountId, amount: nat, accounts: seq<AccountId>)
    requires Distinct(accounts) && who in accounts
    ensures Total(Credited(m, who, amount), accounts) == Total(m, accounts) + amount
  {
    TotalMoves(m, who, Balance(m, who) + amount, accounts);
  }
}
