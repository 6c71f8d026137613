/** The `block_rewards` table of src/htnstratum/db.go: a map from block hash to row (the UNIQUE
    column block_hash), together with the partial unique index on (wallet, accepting block).
    Each SQL statement is one atomic function of the table. */
module RewardTable {
  import opened Basics
  import opened Sums

  datatype Status = Pending | Blue | Red | MergeDuplicate

  /** `link` is accepting_block_hash, with None for the empty string, which the index ignores. */
  datatype Row = Row(wallet: Wallet, reward: nat, status: Status, link: Option<Hash>)

  type Table = map<Hash, Row>

  // ---------- The statements ----------

  /** INSERT OR IGNORE of a fresh pending row. */
  function Inserted(t: Table, block: Hash, wallet: Wallet): Table {
    if block in t then t else t[block := Row(wallet, 0, Pending, None)]
  }

  /** UPDATE of the reward and the status of one row. */
  function Rewarded(t: Table, block: Hash, reward: nat, status: Status): Table {
    if block in t then t[block := t[block].(reward := reward, status := status)] else t
  }

  /** Some other row of the wallet already holds a link to the accepting block. */
  predicate OtherLinked(t: Table, wallet: Wallet, acc: Hash, block: Hash) {
    exists other :: other in t && other != block && t[other].wallet == wallet && t[other].link == Some(acc)
  }

  /** The index refuses the link: it would repeat a (wallet, accepting block) pair. */
  predicate Refused(t: Table, block: Hash, acc: Hash) {
    block in t && OtherLinked(t, t[block].wallet, acc, block)
  }

  /** UPDATE of the link of one row; a refused statement changes nothing. */
  function Linked(t: Table, block: Hash, acc: Hash): Table {
    if block in t && !Refused(t, block, acc) then t[block := t[block].(link := Some(acc))] else t
  }

  ghost predicate UniqueLinks(t: Table) {
    forall b, c :: b in t && c in t && t[b].wallet == t[c].wallet && t[b].link.Some? && t[b].link == t[c].link ==> b == c
  }

  // ---------- Totals ----------

  /** The reward column of the wallet's rows. */
  ghost function RewardsOf(t: Table, wallet: Wallet): map<Hash, int> {
    map b | b in t && t[b].wallet == wallet :: t[b].reward
  }

  /** The reward column of the wallet's rows that hold a link. */
  ghost function LinkedRewardsOf(t: Table, wallet: Wallet): map<Hash, int> {
    map b | b in t && t[b].wallet == wallet && t[b].link.Some? :: t[b].reward
  }

  ghost function LinksOf(t: Table, wallet: Wallet): set<Hash> {
    set b | b in t && t[b].wallet == wallet && t[b].link.Some? :: t[b].link.value
  }

  /** Linked rows and linked blocks are in one-to-one correspondence, so any amount that depends
      on the linked block alone has the same total over either. */
  lemma LinkedTotalByBlock(t: Table, wallet: Wallet, amount: map<Hash, int>)
    requires UniqueLinks(t) && amount.Keys == LinksOf(t, wallet)
    ensures Total(map b | b in LinkedRewardsOf(t, wallet) :: amount[t[b].link.value]) == Total(amount)
  {
    var byRow := map b | b in LinkedRewardsOf(t, wallet) :: amount[t[b].link.value];
    var name := map b | b in LinkedRewardsOf(t, wallet) :: t[b].link.value;
    forall acc | acc in amount
      ensures exists b :: b in name && name[b] == acc
    {
      var b :| b in t && t[b].wallet == wallet && t[b].link.Some? && t[b].link.value == acc;
      assert b in name && name[b] == acc;
    }
    TotalRenamed(byRow, name, amount);
  }

  /** The table behind its connection. */
  class MiningDB {
    var rows: Table

    constructor ()
      ensures rows == map[]
    {
      rows := map[];
    }

    method RecordBlock(block: Hash, wallet: Wallet)
      requires UniqueLinks(rows)
      modifies this
      ensures rows == Inserted(old(rows), block, wallet) && UniqueLinks(rows)
    {
      if block !in rows {
        rows := rows[block := Row(wallet, 0, Pending, None)];
      }
    }

    method UpdateReward(block: Hash, reward: nat, status: Status)
      requires UniqueLinks(rows)
      modifies this
      ensures rows == Rewarded(old(rows), block, reward, status) && UniqueLinks(rows)
    {
      if block in rows {
        rows := rows[block := rows[block].(reward := reward, status := status)];
      }
    }

    method SetAcceptingBlockHash(block: Hash, acc: Hash) returns (ok: bool)
      requires UniqueLinks(rows)
      modifies this
      ensures rows == Linked(old(rows), block, acc) && UniqueLinks(rows)
      ensures ok <==> !Refused(old(rows), block, acc)
    {
      ok := !Refused(rows, block, acc);
      if ok && block in rows {
        rows := rows[block := rows[block].(link := Some(acc))];
      }
    }

    method HasAcceptingBlockForWalletExcluding(wallet: Wallet, acc: Hash, block: Hash) returns (found: bool)
      ensures found <==> OtherLinked(rows, wallet, acc, block)
    {
      found := false;
      var left := rows.Keys;
      while left != {}
        invariant left <= rows.Keys
        invariant found <==> exists other :: other in rows && other !in left && other != block
                                             && rows[other].wallet == wallet && rows[other].link == Some(acc)
      {
        var other :| other in left;
        if other != block && rows[other].wallet == wallet && rows[other].link == Some(acc) {
          found := true;
        }
        left := left - {other};
      }
    }

    method GetBlock(block: Hash) returns (r: Option<Row>)
      ensures r == if block in rows then Some(rows[block]) else None
    {
      r := if block in rows then Some(rows[block]) else None;
    }

    method GetTotalAtomsByWallet(wallet: Wallet) returns (total: int)
      ensures total == Total(RewardsOf(rows, wallet))
    {
      total := 0;
      var left := rows.Keys;
      ghost var done: map<Hash, int> := map[];
      while left != {}
        invariant left <= rows.Keys
        invariant done == map b | b in rows && b !in left && rows[b].wallet == wallet :: rows[b].reward
        invariant total == Total(done)
      {
        var b :| b in left;
        left := left - {b};
        if rows[b].wallet == wallet {
          TotalUpdate(done, b, rows[b].reward);
          done := done[b := rows[b].reward];
          total := total + rows[b].reward;
        }
      }
      assert done == RewardsOf(rows, wallet);
    }
  }
}
