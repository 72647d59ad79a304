/**
 * The ledger (core/blockchain.py): a chain of blocks, a FIFO pool of pending
 * records and a set of peer addresses, updated in place by its methods.
 */
module Chain {
  import opened Wrappers
  import opened JsonData
  import opened Transactions
  import opened Blocks

  /** The previous-hash value of the genesis block. */
  const GenesisPreviousHash: Digest := "0"

  /** The block made at construction, stamped with the clock reading `clock`. */
  function Genesis(clock: int): (g: Block)
    ensures g.index == 0 && g.transactions == [] && g.previousHash == GenesisPreviousHash
    ensures g.nonce == 0 && g.timestamp == clock
  {
    Block(0, [], clock, GenesisPreviousHash)
  }

  function Last(c: seq<Block>): (b: Block)
    requires |c| > 0
    ensures b in c && b == c[|c| - 1]
  {
    c[|c| - 1]
  }

  /** Block `i` names the hash of block `i - 1`: the one check `validate_chain` performs. */
  predicate LinkedAt(h: Hasher, c: seq<Block>, i: int)
    requires 1 <= i < |c|
  {
    c[i].previousHash == h(c[i - 1])
  }

  /** What `validate_chain` decides: every adjacent pair is linked. */
  predicate IsValidChain(h: Hasher, c: seq<Block>) {
    forall i :: 1 <= i < |c| ==> LinkedAt(h, c, i)
  }

  /** Every block's index is its position. */
  predicate Indexed(c: seq<Block>) {
    forall i :: 0 <= i < |c| ==> c[i].index == i
  }

  /** The ledger invariant: a genesis block first, consecutive indices, and hash links. */
  predicate WellFormed(h: Hasher, c: seq<Block>) {
    && |c| > 0
    && c[0].transactions == []
    && c[0].previousHash == GenesisPreviousHash
    && Indexed(c)
    && IsValidChain(h, c)
  }

  /** The block `mine_block` builds from the pool on top of chain `c`. */
  function NextBlock(h: Hasher, c: seq<Block>, pool: seq<Record>, clock: int): (b: Block)
    requires |c| > 0
    ensures b.index == Last(c).index + 1 && b.transactions == pool
    ensures b.previousHash == h(Last(c)) && b.timestamp == clock && b.nonce == 0
  {
    Block(Last(c).index + 1, pool, clock, h(Last(c)))
  }

  /** A one-block chain is well formed exactly when it is a genesis block. */
  lemma GenesisWellFormed(h: Hasher, clock: int)
    ensures WellFormed(h, [Genesis(clock)])
  {
  }

  /** Mining on top of a well-formed chain keeps it well formed. */
  lemma NextBlockKeepsWellFormed(h: Hasher, c: seq<Block>, pool: seq<Record>, clock: int)
    requires WellFormed(h, c)
    ensures WellFormed(h, c + [NextBlock(h, c, pool, clock)])
  {
    var c' := c + [NextBlock(h, c, pool, clock)];
    forall i | 1 <= i < |c'| ensures LinkedAt(h, c', i) {
      if i < |c| {
        assert LinkedAt(h, c, i);
      }
    }
  }

  /** Appending blocks never changes the hash of a block already in the chain. */
  lemma AppendKeepsHashes(h: Hasher, c: seq<Block>, b: Block)
    ensures forall i :: 0 <= i < |c| ==> h((c + [b])[i]) == h(c[i])
  {
  }

  class HealthcareBlockchain {
    const hash: Hasher
    var chain: seq<Block>
    var currentTransactions: seq<Record>
    var nodes: set<Json>

    /** The chain is never empty, so `last_block` is always defined. */
    ghost predicate Valid()
      reads this
    {
      |chain| > 0
    }

    /** The invariant kept by construction, `add_transaction` and `mine_block`. */
    ghost predicate IsWellFormed()
      reads this
    {
      WellFormed(hash, chain)
    }

    constructor (hash: Hasher, clock: int)
      ensures this.hash == hash
      ensures chain == [Genesis(clock)] && currentTransactions == [] && nodes == {}
      ensures Valid() && IsWellFormed()
    {
      this.hash := hash;
      chain := [];
      currentTransactions := [];
      nodes := {};
      new;
      CreateGenesisBlock(clock);
      GenesisWellFormed(hash, clock);
    }

    method CreateGenesisBlock(clock: int)
      modifies this`chain
      ensures chain == old(chain) + [Genesis(clock)]
    {
      chain := chain + [Genesis(clock)];
    }

    /** `last_block`: under the invariant, its index is the chain length less one. */
    function LastBlock(): (b: Block)
      reads this
      requires Valid()
      ensures b == chain[|chain| - 1]
      ensures IsWellFormed() ==> b.index == |chain| - 1
    {
      Last(chain)
    }

    /** Appends the record as given and returns the index of the next block. */
    method AddTransaction(record: Record) returns (index: int)
      requires Valid()
      modifies this`currentTransactions
      ensures currentTransactions == old(currentTransactions) + [record]
      ensures index == LastBlock().index + 1
      ensures IsWellFormed() ==> index == |chain|
      ensures Valid() && (old(IsWellFormed()) ==> IsWellFormed())
    {
      currentTransactions := currentTransactions + [record];
      index := LastBlock().index + 1;
    }

    /**
     * Packs the pool into a block linked to the last one and empties the pool;
     * with an empty pool returns `None` and changes nothing.
     */
    method MineBlock(clock: int) returns (mined: Option<Block>)
      requires Valid()
      modifies this`chain, this`currentTransactions
      ensures Valid()
      ensures old(currentTransactions) == [] ==>
        mined == None && chain == old(chain) && currentTransactions == old(currentTransactions)
      ensures old(currentTransactions) != [] ==>
        && mined == Some(NextBlock(hash, old(chain), old(currentTransactions), clock))
        && chain == old(chain) + [mined.value]
        && currentTransactions == []
      ensures old(IsWellFormed()) ==> IsWellFormed()
    {
      if currentTransactions == [] {
        return None;
      }
      var lastBlock := LastBlock();
      var newBlock := Block(lastBlock.index + 1, currentTransactions, clock, hash(lastBlock));
      if IsWellFormed() {
        NextBlockKeepsWellFormed(hash, chain, currentTransactions, clock);
      }
      currentTransactions := [];
      chain := chain + [newBlock];
      mined := Some(newBlock);
    }

    /** Checks every adjacent link, stopping at the first broken one. */
    method ValidateChain() returns (ok: bool)
      ensures ok <==> IsValidChain(hash, chain)
      ensures |chain| <= 1 ==> ok
      ensures IsWellFormed() ==> ok
    {
      var i := 1;
      while i < |chain|
        invariant 1 <= i && (|chain| == 0 || i <= |chain|)
        invariant forall j :: 1 <= j < i && j < |chain| ==> LinkedAt(hash, chain, j)
      {
        var current := chain[i];
        var previous := chain[i - 1];
        if current.previousHash != hash(previous) {
          assert !LinkedAt(hash, chain, i);
          return false;
        }
        i := i + 1;
      }
      return true;
    }
  }

  /** Genesis, two records, one mined block: the chain validates and the pool is empty. */
  method ExampleRun(h: Hasher, a: Record, b: Record)
  {
    var ledger := new HealthcareBlockchain(h, 0);
    var i := ledger.AddTransaction(a);
    var j := ledger.AddTransaction(b);
    assert i == 1 && j == 1;
    var mined := ledger.MineBlock(1);
    assert |ledger.chain| == 2;
    assert ledger.chain[1].transactions == [a, b];
    assert ledger.chain[1].previousHash == h(ledger.chain[0]);
    assert ledger.currentTransactions == [];
    var ok := ledger.ValidateChain();
    assert ok;
  }
}
