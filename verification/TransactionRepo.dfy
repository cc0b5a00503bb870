/** The repositories as objects over one database. */
module TransactionRepo {
  import opened Domain
  import opened Ledger

  class Database {
    var accounts: seq<AccountRow>
    var categories: set<Id>
    var txns: seq<TxRow>

    function Tables(): Books
      reads this
    {
      Books(accounts, categories, txns)
    }

    constructor ()
      ensures Tables() == Books([], {}, []) && BooksOk(Tables())
    {
      accounts, categories, txns := [], {}, [];
    }

    method Exec(op: Op) returns (res: Result<()>)
      modifies this
      ensures res.Ok? <==> Apply(old(Tables()), op).Ok?
      ensures res.Ok? ==> Tables() == Apply(old(Tables()), op).value
      ensures res.Err? ==> Tables() == old(Tables())
    {
      match Apply(Tables(), op)
      case Ok(after) =>
        accounts, categories, txns := after.accounts, after.categories, after.txns;
        res := Ok(());
      case Err(e) =>
        res := Err(e);
    }

    /** TransactionRepo.Create: every account's balance moves by the new transaction's effect. */
    method CreateTransaction(id: Id, tx: Tx) returns (res: Result<()>)
      requires BooksOk(Tables())
      modifies this
      ensures BooksOk(Tables()) && accounts == old(accounts) && categories == old(categories)
      ensures res.Err? ==> txns == old(txns)
      ensures res.Ok? <==>
                && (forall i :: 0 <= i < |old(txns)| ==> old(txns)[i].id != id)
                && ShapeOk(tx) && References(old(Tables()), tx)
      ensures res.Ok? ==> ShapeOk(tx) && txns == old(txns) + [TxRow(id, tx, false)]
      ensures res.Ok? ==> forall acc: AccountRow ::
                Balance(acc, txns) == Balance(acc, old(txns)) + RowEffect(TxRow(id, tx, false), acc.id)
    {
      hide Balance, RowEffect;
      ghost var before := Tables();
      CreateTxMeans(before, id, tx);
      res := Exec(CreateTx(id, tx));
      if res.Ok? {
        ApplyKeepsOk(before, CreateTx(id, tx));
        forall acc: AccountRow
          ensures Balance(acc, txns) == Balance(acc, before.txns) + RowEffect(TxRow(id, tx, false), acc.id)
        {
          CreateThenDeleteRestores(before, id, tx, acc);
        }
      }
    }

    /** TransactionRepo.Update: undoes the old row's effect and applies the new one's on every account. */
    method UpdateTransaction(id: Id, tx: Tx) returns (res: Result<()>, ghost undone: TxRow)
      requires BooksOk(Tables())
      modifies this
      ensures BooksOk(Tables()) && accounts == old(accounts) && categories == old(categories)
      ensures res.Err? ==> txns == old(txns)
      ensures res.Ok? <==> (exists i :: LiveTx(old(Tables()), i, id)) && ShapeOk(tx) && References(old(Tables()), tx)
      ensures res.Ok? ==> undone in old(txns) && undone.id == id && !undone.deleted
      ensures res.Ok? ==> exists i :: 0 <= i < |old(txns)| && old(txns)[i] == undone
                            && txns == old(txns)[i := TxRow(id, tx, false)]
      ensures res.Ok? ==> forall acc: AccountRow ::
                Balance(acc, txns)
                == Balance(acc, old(txns)) - RowEffect(undone, acc.id) + RowEffect(TxRow(id, tx, false), acc.id)
    {
      hide Balance, RowEffect, Touches, ShapeOk, References;
      ghost var before := Tables();
      UpdateTxMeans(before, id, tx);
      undone := TxRow(id, tx, false);
      res := Exec(UpdateTx(id, tx));
      if res.Ok? {
        ApplyKeepsOk(before, UpdateTx(id, tx));
        FindTxFinds(before.txns, id);
        undone := before.txns[FindTx(before.txns, id).value];
        forall acc: AccountRow
          ensures Balance(acc, txns)
               == Balance(acc, before.txns) - RowEffect(undone, acc.id) + RowEffect(TxRow(id, tx, false), acc.id)
        {
          UpdateMovesBalances(before, id, tx, acc);
          var i :| 0 <= i < |before.txns| && before.txns[i].id == id && !before.txns[i].deleted
            && Balance(acc, txns) == Balance(acc, before.txns) - RowEffect(before.txns[i], acc.id)
                                     + RowEffect(TxRow(id, tx, false), acc.id);
          assert before.txns[i] == undone;
        }
      }
    }

    /** AccountRepo.SoftDelete: the grand total falls by exactly the account's balance. */
    method SoftDeleteAccount(id: Id) returns (res: Result<()>, ghost closed: AccountRow)
      requires BooksOk(Tables())
      modifies this
      ensures BooksOk(Tables()) && txns == old(txns) && categories == old(categories)
      ensures res.Err? ==> accounts == old(accounts)
      ensures res.Ok? ==>
                && closed in old(accounts) && closed.id == id && !closed.deleted
                && TotalBalance(accounts, txns) == TotalBalance(old(accounts), txns) - Balance(closed, txns)
    {
      hide Balance, TotalBalance;
      ghost var before := Tables();
      closed := AccountRow(id, "", 0, true);
      res := Exec(DeleteAccount(id));
      if res.Ok? {
        ApplyKeepsOk(before, DeleteAccount(id));
        DeleteAccountRemovesItsBalance(before, id);
        ghost var i :| 0 <= i < |before.accounts| && before.accounts[i].id == id && !before.accounts[i].deleted
          && TotalBalance(accounts, txns) == TotalBalance(before.accounts, txns) - Balance(before.accounts[i], txns);
        closed := before.accounts[i];
      }
    }
  }
}
