/** The part of the bank the module touches: balances per address and a total per denomination. */
module Banking {
  import opened Wrappers
  import opened Types

  datatype Bank = Bank(balances: map<(Address, Denom), int>, totals: map<Denom, int>)

  function Balance(b: Bank, a: Address, d: Denom): int {
    if (a, d) in b.balances then b.balances[(a, d)] else 0
  }

  function Total(b: Bank, d: Denom): int {
    if d in b.totals then b.totals[d] else 0
  }

  function Add(b: Bank, a: Address, coin: Coin): Bank {
    b.(balances := b.balances[(a, coin.denom) := Balance(b, a, coin.denom) + coin.amount])
  }

  function Issue(b: Bank, coin: Coin, sign: int): Bank {
    b.(totals := b.totals[coin.denom := Total(b, coin.denom) + sign * coin.amount])
  }

  function SubCoins(b: Bank, a: Address, coins: seq<Coin>): Result<Bank, Error>
    decreases coins
  {
    if coins == [] then Ok(b)
    else if Balance(b, a, coins[0].denom) < coins[0].amount then Err(InsufficientFunds)
    else SubCoins(Add(b, a, Coin(coins[0].denom, -coins[0].amount)), a, coins[1..])
  }

  function AddCoins(b: Bank, a: Address, coins: seq<Coin>): Bank
    decreases coins
  {
    if coins == [] then b else AddCoins(Add(b, a, coins[0]), a, coins[1..])
  }

  function IssueCoins(b: Bank, coins: seq<Coin>, sign: int): Bank
    decreases coins
  {
    if coins == [] then b else IssueCoins(Issue(b, coins[0], sign), coins[1..], sign)
  }

  /** Fails exactly when the sender does not hold the coins. */
  function Send(b: Bank, from: Address, to: Address, coins: seq<Coin>): Result<Bank, Error> {
    var taken :- SubCoins(b, from, coins);
    Ok(AddCoins(taken, to, coins))
  }

  function Mint(b: Bank, to: Address, coins: seq<Coin>): Bank {
    AddCoins(IssueCoins(b, coins, 1), to, coins)
  }

  function Burn(b: Bank, from: Address, coins: seq<Coin>): Result<Bank, Error> {
    var taken :- SubCoins(b, from, coins);
    Ok(IssueCoins(taken, coins, -1))
  }

  /** The amount of one denomination in a list of coins. */
  function AmountIn(coins: seq<Coin>, d: Denom): int
    decreases coins
  {
    if coins == [] then 0 else (if coins[0].denom == d then coins[0].amount else 0) + AmountIn(coins[1..], d)
  }

  // ---------- What the operations mean for one coin ----------

  function Moved(a: Address, party: Address, d: Denom, coin: Coin): int {
    if a == party && d == coin.denom then coin.amount else 0
  }

  lemma SendOne(b: Bank, from: Address, to: Address, coin: Coin)
    ensures Send(b, from, to, [coin]).Ok? <==> Balance(b, from, coin.denom) >= coin.amount
    ensures Send(b, from, to, [coin]).Ok? ==>
              forall a, d {:trigger Balance(Send(b, from, to, [coin]).value, a, d)} ::
                Balance(Send(b, from, to, [coin]).value, a, d)
                == Balance(b, a, d) - Moved(a, from, d, coin) + Moved(a, to, d, coin)
    ensures Send(b, from, to, [coin]).Ok? ==> Send(b, from, to, [coin]).value.totals == b.totals
  {
    assert [coin][1..] == [];
    if Balance(b, from, coin.denom) >= coin.amount {
      var taken := Add(b, from, Coin(coin.denom, -coin.amount));
      assert SubCoins(b, from, [coin]) == Ok(taken);
      assert AddCoins(taken, to, [coin]) == Add(taken, to, coin);
    }
  }

  /** Minting and then sending is never short of funds. */
  lemma MintSendOne(b: Bank, via: Address, to: Address, coin: Coin)
    requires Balance(b, via, coin.denom) >= 0
    ensures Send(Mint(b, via, [coin]), via, to, [coin]).Ok?
    ensures var b' := Send(Mint(b, via, [coin]), via, to, [coin]).value;
            && (forall a, d :: Balance(b', a, d) == Balance(b, a, d) + Moved(a, to, d, coin))
            && (forall d :: Total(b', d) == Total(b, d) + if d == coin.denom then coin.amount else 0)
  {
    assert [coin][1..] == [];
    var minted := Add(Issue(b, coin, 1), via, coin);
    assert IssueCoins(b, [coin], 1) == Issue(b, coin, 1);
    assert AddCoins(Issue(b, coin, 1), via, [coin]) == AddCoins(minted, via, []);
    assert Mint(b, via, [coin]) == minted;
    SendOne(minted, via, to, coin);
  }

  lemma BurnOne(b: Bank, from: Address, coin: Coin)
    ensures Burn(b, from, [coin]).Ok? <==> Balance(b, from, coin.denom) >= coin.amount
    ensures Burn(b, from, [coin]).Ok? ==>
              var b' := Burn(b, from, [coin]).value;
              && (forall a, d :: Balance(b', a, d) == Balance(b, a, d) - Moved(a, from, d, coin))
              && (forall d :: Total(b', d) == Total(b, d) - if d == coin.denom then coin.amount else 0)
  {
    assert [coin][1..] == [];
    if Balance(b, from, coin.denom) >= coin.amount {
      var taken := Add(b, from, Coin(coin.denom, -coin.amount));
      assert SubCoins(b, from, [coin]) == Ok(taken);
      assert IssueCoins(taken, [coin], -1) == Issue(taken, coin, -1);
    }
  }
}
