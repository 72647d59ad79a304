/**
 * A block (core/block.py): a plain record of its five fields.  Its hash is
 * SHA-256 over the sorted-key JSON of all five fields; here it is any function
 * from blocks to digests, which makes it a deterministic function of exactly
 * those fields and says nothing more about it.
 */
module Blocks {
  import opened Transactions

  /** A lowercase hex digest, or the genesis sentinel "0". */
  type Digest = string

  /** `nonce` defaults to 0, as the constructor's keyword argument does. */
  datatype Block = Block(
    index: int,
    transactions: seq<Record>,
    timestamp: int,
    previousHash: Digest,
    nonce: int := 0)

  /** `compute_hash`, left uninterpreted. */
  type Hasher = Block -> Digest

  /** Constructing a block keeps the four given fields and sets the nonce to 0. */
  lemma NewBlockFields(index: int, transactions: seq<Record>, timestamp: int, previousHash: Digest)
    ensures var b := Block(index, transactions, timestamp, previousHash);
      b.index == index && b.transactions == transactions && b.timestamp == timestamp &&
      b.previousHash == previousHash && b.nonce == 0
  {
  }

  /** Blocks that agree on all five fields have the same hash. */
  lemma HashDeterministic(h: Hasher, b1: Block, b2: Block)
    requires b1.index == b2.index && b1.transactions == b2.transactions
    requires b1.timestamp == b2.timestamp && b1.previousHash == b2.previousHash
    requires b1.nonce == b2.nonce
    ensures h(b1) == h(b2)
  {
  }

  // Decimal rendering of integers, as an f-string prints `self.index`.

  function DigitChar(d: nat): (c: char)
    requires d < 10
    ensures '0' <= c <= '9'
  {
    "0123456789"[d]
  }

  function DigitValue(c: char): (d: nat)
    requires '0' <= c <= '9'
    ensures d < 10 && DigitChar(d) == c
  {
    (c as int - '0' as int) as nat
  }

  predicate IsDigits(s: string) {
    forall i :: 0 <= i < |s| ==> '0' <= s[i] <= '9'
  }

  function Digits(n: nat): (s: string)
    ensures |s| > 0 && IsDigits(s)
  {
    if n < 10 then [DigitChar(n)] else Digits(n / 10) + [DigitChar(n % 10)]
  }

  function ParseDigits(s: string): (n: nat)
    requires IsDigits(s)
    ensures s == [] ==> n == 0
  {
    if s == [] then 0 else ParseDigits(s[..|s| - 1]) * 10 + DigitValue(s[|s| - 1])
  }

  lemma {:induction false} ParseDigitsOfDigits(n: nat)
    ensures ParseDigits(Digits(n)) == n
  {
    if n >= 10 {
      var s := Digits(n);
      assert s[..|s| - 1] == Digits(n / 10);
      ParseDigitsOfDigits(n / 10);
    }
  }

  function Decimal(n: int): (s: string)
    ensures |s| > 0 && ',' !in s
  {
    if n < 0 then "-" + Digits(-n) else Digits(n)
  }

  lemma DigitsInjective(m: nat, n: nat)
    requires Digits(m) == Digits(n)
    ensures m == n
  {
    ParseDigitsOfDigits(m);
    ParseDigitsOfDigits(n);
  }

  lemma DecimalSign(n: int)
    ensures Decimal(n)[0] == '-' <==> n < 0
  {
  }

  /** Different integers print differently. */
  lemma DecimalInjective(m: int, n: int)
    requires Decimal(m) == Decimal(n)
    ensures m == n
  {
    if m < 0 && n < 0 {
      assert Digits(-m) == Decimal(m)[1..];
      assert Digits(-n) == Decimal(n)[1..];
      DigitsInjective(-m, -n);
    } else if m >= 0 && n >= 0 {
      DigitsInjective(m, n);
    } else {
      DecimalSign(m);
      DecimalSign(n);
    }
  }

  /** `__repr__`: the index and the computed hash. */
  function Describe(h: Hasher, b: Block): (r: string)
    ensures |r| == 20 + |Decimal(b.index)| + |h(b)|
    ensures "Block(index=" + Decimal(b.index) + ", hash=" <= r
    ensures r[|r| - |h(b)| - 1..] == h(b) + ")"
  {
    "Block(index=" + Decimal(b.index) + ", hash=" + h(b) + ")"
  }

  /** A prefix free of commas is determined by the string it starts, when a comma follows it. */
  lemma CommaFreePrefix(p1: string, r1: string, p2: string, r2: string)
    requires ',' !in p1 && ',' !in p2
    requires |r1| > 0 && r1[0] == ',' && |r2| > 0 && r2[0] == ','
    requires p1 + r1 == p2 + r2
    ensures p1 == p2 && r1 == r2
  {
    assert p1 == (p1 + r1)[..|p1|];
    assert p2 == (p2 + r2)[..|p2|];
    assert r1 == (p1 + r1)[|p1|..];
    assert r2 == (p2 + r2)[|p2|..];
  }

  /** The description reports the block's index and its hash: both can be read back from it. */
  lemma DescribeDetermines(h: Hasher, b1: Block, b2: Block)
    requires Describe(h, b1) == Describe(h, b2)
    ensures b1.index == b2.index && h(b1) == h(b2)
  {
    var head := "Block(index=";
    var s1, s2 := Describe(h, b1), Describe(h, b2);
    var r1 := ", hash=" + h(b1) + ")";
    var r2 := ", hash=" + h(b2) + ")";
    assert s1 == head + (Decimal(b1.index) + r1);
    assert s2 == head + (Decimal(b2.index) + r2);
    assert Decimal(b1.index) + r1 == s1[|head|..] == s2[|head|..] == Decimal(b2.index) + r2;
    CommaFreePrefix(Decimal(b1.index), r1, Decimal(b2.index), r2);
    DecimalInjective(b1.index, b2.index);
    assert h(b1) == r1[7..|r1| - 1] == r2[7..|r2| - 1] == h(b2);
  }
}
