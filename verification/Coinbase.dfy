/** The coinbase a miner builds (CreateNewBlock in src/main.cpp) and the grants it has to pay (ConnectBlock). */
module Coinbase {
  import opened CoinTypes
  import opened Sums
  import opened Supply

  predicate Pays(o: TxOut, name: string, amount: int, textOf: Script -> string) {
    o.nValue == amount && textOf(o.scriptPubKey) == name
  }

  /** Every winner has an output of exactly its award. */
  ghost predicate PaysAwards(vout: seq<TxOut>, grantAwards: map<string, int>, textOf: Script -> string) {
    forall name :: name in grantAwards ==>
      exists j :: 0 <= j < |vout| && Pays(vout[j], name, grantAwards[name], textOf)
  }

  /** The search for one winner's output. */
  method FindPayment(vout: seq<TxOut>, name: string, amount: int, textOf: Script -> string) returns (found: bool)
    ensures found <==> exists j :: 0 <= j < |vout| && Pays(vout[j], name, amount, textOf)
  {
    for j := 0 to |vout|
      invariant forall i :: 0 <= i < j ==> !Pays(vout[i], name, amount, textOf)
    {
      if vout[j].nValue == amount && textOf(vout[j].scriptPubKey) == name {
        assert Pays(vout[j], name, amount, textOf);
        return true;
      }
    }
    return false;
  }

  /** Counting the winners that are paid: all of them are when the count is the size of the table. */
  method AwardsPaid(vout: seq<TxOut>, grantAwards: map<string, int>, textOf: Script -> string) returns (ok: bool)
    ensures ok <==> PaysAwards(vout, grantAwards, textOf)
  {
    var awardFound := 0;
    var rest := grantAwards;
    while rest != map[]
      invariant rest.Keys <= grantAwards.Keys && forall k :: k in rest ==> rest[k] == grantAwards[k]
      invariant awardFound + |rest| <= |grantAwards|
      invariant awardFound + |rest| == |grantAwards| <==> forall k :: k in grantAwards && k !in rest ==>
        exists j :: 0 <= j < |vout| && Pays(vout[j], k, grantAwards[k], textOf)
      decreases |rest|
    {
      var name :| name in rest;
      var found := FindPayment(vout, name, rest[name], textOf);
      if found {
        awardFound := awardFound + 1;
      }
      SizeWithout(rest, name);
      rest := rest - {name};
    }
    return awardFound == |grantAwards|;
  }

  lemma SizeWithout<K, V>(m: map<K, V>, k: K)
    requires k in m
    ensures |m - {k}| == |m| - 1
  {
    assert (m - {k}).Keys == m.Keys - {k};
    assert |m.Keys| == |m| && |(m - {k}).Keys| == |m - {k}|;
  }

  // ---- what the rule achieves ------------------------------------------------------------------------------

  /** What the outputs pay to the named addresses. */
  function PaidTo(vout: seq<TxOut>, names: set<string>, textOf: Script -> string): int {
    if vout == [] then 0
    else
      var o := vout[|vout| - 1];
      PaidTo(vout[..|vout| - 1], names, textOf)
      + if !o.IsNull() && textOf(o.scriptPubKey) in names then o.nValue else 0
  }

  lemma {:induction false} PaidToMore(vout: seq<TxOut>, names: set<string>, name: string, textOf: Script -> string)
    requires name !in names
    ensures PaidTo(vout, names + {name}, textOf) == PaidTo(vout, names, textOf) + PaidTo(vout, {name}, textOf)
  {
    if vout != [] {
      PaidToMore(vout[..|vout| - 1], names, name, textOf);
    }
  }

  lemma {:induction false} PaidToOne(vout: seq<TxOut>, name: string, j: nat, textOf: Script -> string)
    requires forall i :: 0 <= i < |vout| ==> vout[i].nValue >= 0
    ensures PaidTo(vout, {name}, textOf) >= 0
    ensures j < |vout| && textOf(vout[j].scriptPubKey) == name ==> PaidTo(vout, {name}, textOf) >= vout[j].nValue
  {
    if vout != [] {
      PaidToOne(vout[..|vout| - 1], name, j, textOf);
      assert j < |vout| - 1 ==> vout[..|vout| - 1][j] == vout[j];
    }
  }

  /** An output pays for one award only, so together the winners get the whole table. */
  lemma {:induction false} WinnersPaid(vout: seq<TxOut>, grantAwards: map<string, int>, textOf: Script -> string)
    requires forall i :: 0 <= i < |vout| ==> vout[i].nValue >= 0
    requires PaysAwards(vout, grantAwards, textOf)
    ensures PaidTo(vout, grantAwards.Keys, textOf) >= Sum(grantAwards)
    decreases |grantAwards|
  {
    if grantAwards == map[] {
      NothingPaid(vout, textOf);
    } else {
      var name :| name in grantAwards;
      var rest := grantAwards - {name};
      SizeWithout(grantAwards, name);
      WinnersPaid(vout, rest, textOf);
      SumRemove(grantAwards, name);
      var j :| 0 <= j < |vout| && Pays(vout[j], name, grantAwards[name], textOf);
      PaidToOne(vout, name, j, textOf);
      PaidToMore(vout, rest.Keys, name, textOf);
      assert grantAwards.Keys == rest.Keys + {name};
    }
  }

  lemma {:induction false} NothingPaid(vout: seq<TxOut>, textOf: Script -> string)
    ensures PaidTo(vout, {}, textOf) == 0
  {
    if vout != [] {
      NothingPaid(vout[..|vout| - 1], textOf);
    }
  }

  /** Main result: of a coinbase that keeps the limit and pays the grants, at most subsidy and fees goes to anyone who
      has not won. */
  lemma MinerShare(vout: seq<TxOut>, fees: int, nHeight: nat, fTestNet: bool, grantAwards: map<string, int>,
                   textOf: Script -> string)
    requires forall i :: 0 <= i < |vout| ==> vout[i].nValue >= 0
    requires IsGrantAwardBlock(nHeight) && PaysAwards(vout, grantAwards, textOf)
    requires CoinbaseAllowed(ValueOf(vout), fees, nHeight, fTestNet, grantAwards)
    ensures ValueOf(vout) - PaidTo(vout, grantAwards.Keys, textOf) <= BlockSubsidy(nHeight) + fees
  {
    hide BlockSubsidy, ValueOf, PaidTo;
    WinnersPaid(vout, grantAwards, textOf);
  }

  /** A coinbase that may stand at the head of an award block. */
  ghost predicate Passes(tx: Tx, fees: int, nHeight: nat, fTestNet: bool, grantAwards: map<string, int>,
                         textOf: Script -> string)
  {
    && tx.IsCoinBase() && CheckTransaction(tx) && PaysAwards(tx.vout, grantAwards, textOf)
    && CoinbaseAllowed(ValueOf(tx.vout), fees, nHeight, fTestNet, grantAwards)
  }

  /** The name is the text of the address of some script. */
  ghost predicate IsAddress(name: string, textOf: Script -> string) {
    exists s :: textOf(s) == name
  }

  ghost function ScriptOf(name: string, textOf: Script -> string): (s: Script)
    requires IsAddress(name, textOf)
    ensures textOf(s) == name
  {
    var s :| textOf(s) == name;
    s
  }

  /** Some coinbase passes with a table exactly when every winner's name is an address. */
  lemma PayableIff(fees: nat, nHeight: nat, fTestNet: bool, grantAwards: map<string, int>, textOf: Script -> string)
    requires IsGrantAwardBlock(nHeight) && Sum(grantAwards) <= MAX_MONEY
    requires forall name :: name in grantAwards ==> grantAwards[name] >= 0
    ensures (exists tx: Tx :: Passes(tx, fees, nHeight, fTestNet, grantAwards, textOf)) <==>
            forall name :: name in grantAwards ==> IsAddress(name, textOf)
  {
    if tx: Tx :| Passes(tx, fees, nHeight, fTestNet, grantAwards, textOf) {
      forall name | name in grantAwards
        ensures IsAddress(name, textOf)
      {
        var j :| 0 <= j < |tx.vout| && Pays(tx.vout[j], name, grantAwards[name], textOf);
        assert textOf(tx.vout[j].scriptPubKey) == name;
      }
    }
    if forall name :: name in grantAwards ==> IsAddress(name, textOf) {
      var tx := Paying(fees, nHeight, fTestNet, grantAwards, textOf);
    }
  }

  /** The outputs of the table and an empty one. */
  lemma Paying(fees: nat, nHeight: nat, fTestNet: bool, grantAwards: map<string, int>, textOf: Script -> string)
    returns (tx: Tx)
    requires IsGrantAwardBlock(nHeight) && Sum(grantAwards) <= MAX_MONEY
    requires forall name :: name in grantAwards ==> grantAwards[name] >= 0 && IsAddress(name, textOf)
    ensures Passes(tx, fees, nHeight, fTestNet, grantAwards, textOf)
  {
    var vout := PayAll(grantAwards, textOf);
    var o := TxOut(0, []);
    tx := Tx(0, 1, [OutPoint(0, NULL_N)], vout + [o]);
    assert (vout + [o])[..|vout|] == vout;
    assert ValueOf(tx.vout) == Sum(grantAwards);
    hide ValueOf, Sum, IsAddress, BlockSubsidy;
    forall name | name in grantAwards
      ensures exists j :: 0 <= j < |tx.vout| && Pays(tx.vout[j], name, grantAwards[name], textOf)
    {
      var paid := TxOut(grantAwards[name], ScriptOf(name, textOf));
      assert paid in vout;
      var j :| 0 <= j < |vout| && vout[j] == paid;
      assert Pays(tx.vout[j], name, grantAwards[name], textOf);
    }
    forall i | 0 <= i < |tx.vout|
      ensures MoneyRange(tx.vout[i].nValue)
    {
      assert i < |vout| ==> vout[i] in vout;
    }
  }

  lemma {:induction false} PayAll(grantAwards: map<string, int>, textOf: Script -> string) returns (vout: seq<TxOut>)
    requires forall name :: name in grantAwards ==> grantAwards[name] >= 0 && IsAddress(name, textOf)
    ensures forall name :: name in grantAwards ==> TxOut(grantAwards[name], ScriptOf(name, textOf)) in vout
    ensures ValueOf(vout) == Sum(grantAwards) >= 0 && forall o :: o in vout ==> 0 <= o.nValue <= Sum(grantAwards)
    decreases |grantAwards|
  {
    hide IsAddress;
    if grantAwards == map[] {
      vout := [];
    } else {
      var name :| name in grantAwards;
      SizeWithout(grantAwards, name);
      var most := PayAll(grantAwards - {name}, textOf);
      vout := most + [TxOut(grantAwards[name], ScriptOf(name, textOf))];
      SumRemove(grantAwards, name);
      assert vout[..|most|] == most;
      hide Sum, ScriptOf;
    }
  }

  // ---- building one ----------------------------------------------------------------------------------------

  /** One output for each entry of the table. */
  ghost predicate Listed(vout: seq<TxOut>, amounts: map<string, int>, scriptFor: string -> Script) {
    && ValueOf(vout) == Sum(amounts)
    && forall name :: name in amounts ==> TxOut(amounts[name], scriptFor(name)) in vout
  }

  /** The loop that appends an output for each entry of a table. */
  method ListAmounts(amounts: map<string, int>, scriptFor: string -> Script) returns (vout: seq<TxOut>)
    requires forall k :: k in amounts ==> amounts[k] >= 0
    ensures Listed(vout, amounts, scriptFor)
  {
    vout := [];
    var rest := amounts;
    while rest != map[]
      invariant rest.Keys <= amounts.Keys && forall k :: k in rest ==> rest[k] == amounts[k]
      invariant ValueOf(vout) + Sum(rest) == Sum(amounts)
      invariant forall k :: k in amounts && k !in rest ==> TxOut(amounts[k], scriptFor(k)) in vout
      decreases |rest|
    {
      var name :| name in rest;
      SumRemove(rest, name);
      SizeWithout(rest, name);
      var o := TxOut(rest[name], scriptFor(name));
      assert (vout + [o])[..|vout|] == vout;
      vout := vout + [o];
      rest := rest - {name};
    }
  }

  lemma {:induction false} ValueOfPrepend(o: TxOut, vout: seq<TxOut>)
    ensures ValueOf([o] + vout) == ValueOf([o]) + ValueOf(vout)
  {
    if vout == [] {
      assert [o] + vout == [o];
    } else {
      var n := |vout| - 1;
      ValueOfPrepend(o, vout[..n]);
      assert ([o] + vout)[..n + 1] == [o] + vout[..n];
    }
  }

  /** The coinbase of CreateNewBlock passes the checks of ConnectBlock: it is within the limit, but at height 1 only
      where the balances handed out then make up the premine, and it pays the grants when every winner's name is read
      back from the script made for it. */
  method BuildCoinbase(nHeight: nat, fTestNet: bool, nFees: nat, genesisBalances: map<string, int>,
                       grantAwards: map<string, int>, miner: Script, scriptFor: string -> Script,
                       ghost textOf: Script -> string)
    returns (vout: seq<TxOut>)
    requires forall k :: k in genesisBalances ==> genesisBalances[k] >= 0
    requires forall k :: k in grantAwards ==> grantAwards[k] >= 0
    ensures vout != [] && vout[0] == TxOut(BlockSubsidy(nHeight) + nFees, miner)
    ensures CoinbaseAllowed(ValueOf(vout), nFees, nHeight, fTestNet, grantAwards) <==>
      (nHeight == 1 && !fTestNet ==> BlockSubsidy(1) + nFees + Sum(genesisBalances) == PREMINE)
    ensures IsGrantAwardBlock(nHeight) && (forall k :: k in grantAwards ==> textOf(scriptFor(k)) == k) ==>
      PaysAwards(vout, grantAwards, textOf)
  {
    hide BlockSubsidy;
    var more := [];
    if !fTestNet && nHeight == 1 {
      more := ListAmounts(genesisBalances, scriptFor);
    }
    if IsGrantAwardBlock(nHeight) {
      more := ListAmounts(grantAwards, scriptFor);
    }
    var subsidy := GetBlockSubsidy(nHeight);
    var first := TxOut(subsidy + nFees, miner);
    vout := [first] + more;
    ValueOfPrepend(first, more);
    assert [first][..0] == [];
    assert ValueOf([first]) == subsidy + nFees;
    if IsGrantAwardBlock(nHeight) && forall k :: k in grantAwards ==> textOf(scriptFor(k)) == k {
      forall k | k in grantAwards
        ensures exists j :: 0 <= j < |vout| && Pays(vout[j], k, grantAwards[k], textOf)
      {
        var j :| 0 <= j < |more| && more[j] == TxOut(grantAwards[k], scriptFor(k));
        assert Pays(vout[j + 1], k, grantAwards[k], textOf);
      }
    }
  }
}
