/**
 * The request handlers of a node (network/node.py) with the web framework and
 * the HTTP client stripped away: request bodies are JSON objects, the peers'
 * answers to `GET /chain` are a sequence of optional replies, and the shared
 * ledger is passed to every handler.
 */
module Network {
  import opened Wrappers
  import opened JsonData
  import opened Transactions
  import opened Blocks
  import opened Chain

  // ---------------------------------------------------------------- /transactions/new

  /** The body carries the four keys a new record needs; `signature` is optional. */
  function HasRequiredFields(values: map<string, Json>): (r: bool)
    ensures r <==> {PatientIdKey, DoctorIdKey, RecordTypeKey, DataKey} <= values.Keys
  {
    PatientIdKey in values && DoctorIdKey in values && RecordTypeKey in values && DataKey in values
  }

  datatype TransactionReply = TransactionAdded(blockIndex: int) | MissingFields {
    function Status(): int {
      if TransactionAdded? then 201 else 400
    }
  }

  /**
   * The record built from a request body: the four required fields, the
   * signature when given and "" otherwise, and always the clock's timestamp
   * (a `timestamp` in the body is ignored).
   */
  function SubmittedRecord(values: map<string, Json>, clock: int): (t: MedicalTransaction)
    requires HasRequiredFields(values)
    ensures t.patientId == values[PatientIdKey] && t.doctorId == values[DoctorIdKey]
    ensures t.recordType == values[RecordTypeKey] && t.data == values[DataKey]
    ensures t.timestamp == JNum(clock)
    ensures SignatureKey in values ==> t.signature == values[SignatureKey]
    ensures SignatureKey !in values ==> t.signature == JStr("")
  {
    NewMedicalTransaction(
      values[PatientIdKey], values[DoctorIdKey], values[RecordTypeKey], values[DataKey], clock,
      signature := Get(values, SignatureKey, JStr("")))
  }

  /** `POST /transactions/new`: rejects a body missing a required field, else submits the record. */
  method NewTransaction(ledger: HealthcareBlockchain, values: map<string, Json>, clock: int)
    returns (reply: TransactionReply)
    requires ledger.Valid()
    modifies ledger`currentTransactions
    ensures !HasRequiredFields(values) ==>
      reply == MissingFields && ledger.currentTransactions == old(ledger.currentTransactions)
    ensures HasRequiredFields(values) ==>
      && reply == TransactionAdded(ledger.LastBlock().index + 1)
      && ledger.currentTransactions ==
         old(ledger.currentTransactions) + [ToDict(SubmittedRecord(values, clock))]
    ensures reply.Status() == 400 <==> !HasRequiredFields(values)
    ensures ledger.Valid() && (old(ledger.IsWellFormed()) ==> ledger.IsWellFormed())
  {
    if !HasRequiredFields(values) {
      return MissingFields;
    }
    var transaction := SubmittedRecord(values, clock);
    var index := ledger.AddTransaction(ToDict(transaction));
    reply := TransactionAdded(index);
  }

  // ---------------------------------------------------------------- /mine

  datatype MineReply =
    | NewBlockMined(index: int, transactions: seq<Record>, previousHash: Digest)
    | NothingToMine
  {
    function Status(): int {
      if NewBlockMined? then 200 else 400
    }
  }

  /** `GET /mine`: 400 exactly when the pool was empty, else the new block's fields. */
  method Mine(ledger: HealthcareBlockchain, clock: int) returns (reply: MineReply)
    requires ledger.Valid()
    modifies ledger`chain, ledger`currentTransactions
    ensures ledger.Valid()
    ensures reply.Status() == 400 <==> old(ledger.currentTransactions) == []
    ensures reply.NothingToMine? ==>
      ledger.chain == old(ledger.chain) && ledger.currentTransactions == old(ledger.currentTransactions)
    ensures reply.NewBlockMined? ==>
      && ledger.chain == old(ledger.chain) +
           [NextBlock(ledger.hash, old(ledger.chain), old(ledger.currentTransactions), clock)]
      && reply.index == ledger.LastBlock().index == Last(old(ledger.chain)).index + 1
      && reply.transactions == old(ledger.currentTransactions)
      && reply.previousHash == ledger.hash(Last(old(ledger.chain)))
      && ledger.currentTransactions == []
    ensures old(ledger.IsWellFormed()) ==> ledger.IsWellFormed()
  {
    var block := ledger.MineBlock(clock);
    if block.None? {
      return NothingToMine;
    }
    reply := NewBlockMined(block.value.index, block.value.transactions, block.value.previousHash);
  }

  // ---------------------------------------------------------------- /nodes/register

  datatype RegisterReply = NodesAdded(total: set<Json>) | MissingNodes | ServerError {
    function Status(): int {
      match this
      case NodesAdded(_) => 201
      case MissingNodes => 400
      case ServerError => 500
    }
  }

  /** How many leading items Python can add to a set before one is unhashable. */
  function HashablePrefix(items: seq<Json>): (n: nat)
    ensures n <= |items|
    ensures forall j :: 0 <= j < n ==> Hashable(items[j])
    ensures n < |items| ==> !Hashable(items[n])
  {
    if items == [] || !Hashable(items[0]) then 0 else 1 + HashablePrefix(items[1..])
  }

  /** What `for node in v` yields for a list or a string; `None` for what it cannot iterate in order. */
  function Iterated(v: Json): (r: Option<seq<Json>>)
    ensures r.Some? <==> v.JArr? || v.JStr?
    ensures v.JArr? ==> r == Some(v.items)
    ensures v.JStr? ==> |r.value| == |v.s|
    ensures v.JStr? ==> forall j :: 0 <= j < |v.s| ==> r.value[j] == JStr([v.s[j]]) && Hashable(r.value[j])
  {
    match v
    case JArr(items) => Some(items)
    case JStr(s) => Some(seq(|s|, i requires 0 <= i < |s| => JStr([s[i]])))
    case _ => None
  }

  /** The set after `s.add(x)` for each item `x` in turn. */
  function AddEach(s: set<Json>, items: seq<Json>): (r: set<Json>)
    ensures s <= r
    ensures forall y :: y in r && y !in s ==> y in items
    decreases |items|
  {
    if items == [] then s else SetAdd(AddEach(s, items[..|items| - 1]), items[|items| - 1])
  }

  /** After adding the items, each of them has a Python-equal member in the set. */
  lemma {:induction false} AddEachCovers(s: set<Json>, items: seq<Json>, j: int)
    requires 0 <= j < |items|
    ensures exists y :: y in AddEach(s, items) && PyEqual(items[j], y)
    decreases |items|
  {
    var init, x := items[..|items| - 1], items[|items| - 1];
    if j < |items| - 1 {
      AddEachCovers(s, init, j);
      assert init[j] == items[j];
      var y :| y in AddEach(s, init) && PyEqual(init[j], y);
      assert y in AddEach(s, items);
    } else {
      assert AddEach(s, items) == SetAdd(AddEach(s, init), x);
    }
  }

  /** Adding items one by one keeps a set free of Python-equal duplicates. */
  lemma {:induction false} AddEachKeepsShape(s: set<Json>, items: seq<Json>)
    requires PySetShaped(s)
    ensures PySetShaped(AddEach(s, items))
    decreases |items|
  {
    if items != [] {
      AddEachKeepsShape(s, items[..|items| - 1]);
      SetAddKeepsShape(AddEach(s, items[..|items| - 1]), items[|items| - 1]);
    }
  }

  /**
   * The peer set after registering `v` into `s`: the keys of a dict, or the
   * leading hashable items of a list or a string, each added in turn.
   */
  function Registered(s: set<Json>, v: Json): (r: set<Json>)
    ensures s <= r
    ensures forall y :: y in r && y !in s ==> Hashable(y)
    ensures !v.JObj? && !v.JArr? && !v.JStr? ==> r == s
  {
    match v
    case JObj(fields) => s + set k | k in fields :: JStr(k)
    case _ =>
      if Iterated(v).Some? then
        var items := Iterated(v).value;
        AddEach(s, items[..HashablePrefix(items)])
      else s
  }

  /** Registration keeps a set free of Python-equal duplicates. */
  lemma RegisteredKeepsShape(s: set<Json>, v: Json)
    requires PySetShaped(s)
    ensures PySetShaped(Registered(s, v))
  {
    if Iterated(v).Some? && !v.JObj? {
      var items := Iterated(v).value;
      AddEachKeepsShape(s, items[..HashablePrefix(items)]);
    }
  }

  /** Registering the two-item list `[x, y]` into an empty set adds `x`, then `y`. */
  lemma RegisterPair(x: Json, y: Json)
    requires Hashable(x) && Hashable(y)
    ensures Registered({}, JArr([x, y])) == SetAdd({x}, y)
  {
    var items := [x, y];
    assert HashablePrefix(items[1..]) == 1;
    assert items[..2] == items && items[..1] == [x] && [x][..0] == [];
    assert AddEach({}, [x]) == {x};
  }

  /** `1` and `True` are one element of a Python set: the first one added stays. */
  lemma RegisterOneThenTrue()
    ensures Registered({}, JArr([JNum(1), JBool(true)])) == {JNum(1)}
  {
    RegisterPair(JNum(1), JBool(true));
    assert PyEqual(JBool(true), JNum(1));
  }

  /** The same pair in the other order keeps `True`. */
  lemma RegisterTrueThenOne()
    ensures Registered({}, JArr([JBool(true), JNum(1)])) == {JBool(true)}
  {
    RegisterPair(JBool(true), JNum(1));
    assert PyEqual(JNum(1), JBool(true));
  }

  /** `0` and `True` are different elements. */
  lemma RegisterZeroAndTrue()
    ensures Registered({}, JArr([JNum(0), JBool(true)])) == {JNum(0), JBool(true)}
  {
    RegisterPair(JNum(0), JBool(true));
  }

  /** Whether the registration loop over `v` runs to the end without raising. */
  function Completes(v: Json): (r: bool)
    ensures r <==> v.JObj? || v.JStr? || (v.JArr? && forall j :: 0 <= j < |v.items| ==> Hashable(v.items[j]))
  {
    v.JObj? || (Iterated(v).Some? && HashablePrefix(Iterated(v).value) == |Iterated(v).value|)
  }

  /** Registering a list or a string adds its hashable prefix, and completes when that is all of it. */
  lemma RegisteredIterates(s: set<Json>, v: Json)
    requires !v.JObj? && Iterated(v).Some?
    ensures var items := Iterated(v).value;
      && Registered(s, v) == AddEach(s, items[..HashablePrefix(items)])
      && (Completes(v) <==> HashablePrefix(items) == |items|)
  {
  }

  /** One more item extends the fold by one `SetAdd`. */
  lemma AddEachStep(s: set<Json>, items: seq<Json>, i: int)
    requires 0 <= i < |items|
    ensures AddEach(s, items[..i + 1]) == SetAdd(AddEach(s, items[..i]), items[i])
  {
    assert items[..i + 1][..i] == items[..i];
  }

  /**
   * `POST /nodes/register`: 400 without a `nodes` key; otherwise every item
   * of `nodes` is added in turn with Python's set equality.  An item that is
   * a list or a dict, or a `nodes` value that cannot be iterated, raises: the
   * handler then fails with 500, keeping the items added before the failure.
   */
  method RegisterNodes(ledger: HealthcareBlockchain, values: map<string, Json>)
    returns (reply: RegisterReply)
    modifies ledger`nodes
    ensures "nodes" !in values ==> reply == MissingNodes && ledger.nodes == old(ledger.nodes)
    ensures "nodes" in values ==>
      && ledger.nodes == Registered(old(ledger.nodes), values["nodes"])
      && reply == (if Completes(values["nodes"]) then NodesAdded(ledger.nodes) else ServerError)
    ensures old(PySetShaped(ledger.nodes)) ==> PySetShaped(ledger.nodes)
  {
    if "nodes" !in values {
      return MissingNodes;
    }
    var given := values["nodes"];
    if PySetShaped(ledger.nodes) {
      RegisteredKeepsShape(ledger.nodes, given);
    }
    if given.JObj? {
      ledger.nodes := ledger.nodes + set k | k in given.fields :: JStr(k);
      return NodesAdded(ledger.nodes);
    }
    var iterated := Iterated(given);
    if iterated.None? {
      return ServerError;
    }
    var items := iterated.value;
    RegisteredIterates(old(ledger.nodes), given);
    ghost var n := HashablePrefix(items);
    var i := 0;
    while i < |items|
      invariant 0 <= i <= n
      invariant ledger.nodes == AddEach(old(ledger.nodes), items[..i])
    {
      if !Hashable(items[i]) {
        assert i == n;
        return ServerError;
      }
      AddEachStep(old(ledger.nodes), items, i);
      ledger.nodes := SetAdd(ledger.nodes, items[i]);
      i := i + 1;
    }
    assert items[..i] == items[..n];
    reply := NodesAdded(ledger.nodes);
  }

  // ---------------------------------------------------------------- /nodes/resolve

  /** A peer's successful `GET /chain` answer: the length it reports and the chain it sends. */
  datatype PeerChain = PeerChain(length: int, chain: seq<Block>)

  /**
   * The selection loop of `consensus` as a fold: `None` answers (a request
   * that raised, a status other than 200, a body without the fields) are
   * skipped, and a reply replaces the best so far only with a strictly
   * greater reported length.
   */
  function Scan(answers: seq<Option<PeerChain>>, maxLength: int, longest: Option<seq<Block>>)
    : (r: (int, Option<seq<Block>>))
    ensures r.0 >= maxLength
    ensures r.0 == maxLength ==> r.1 == longest
    ensures r.0 > maxLength ==> r.1.Some?
  {
    if answers == [] then (maxLength, longest)
    else if answers[0].Some? && answers[0].value.length > maxLength then
      Scan(answers[1..], answers[0].value.length, Some(answers[0].value.chain))
    else
      Scan(answers[1..], maxLength, longest)
  }

  /** The chain `consensus` would pick against a local chain of length `localLength`. */
  function Winner(answers: seq<Option<PeerChain>>, localLength: int): (r: Option<seq<Block>>)
    ensures r.None? <==> NoneAbove(answers, localLength)
    ensures r.Some? ==>
      exists k :: FirstLongest(answers, localLength, k) && r.value == answers[k].value.chain
  {
    ScanFindsFirstLongest(answers, localLength, None);
    Scan(answers, localLength, None).1
  }

  predicate ReportsAbove(answers: seq<Option<PeerChain>>, j: int, m: int)
    requires 0 <= j < |answers|
  {
    answers[j].Some? && answers[j].value.length > m
  }

  predicate ReportsAtLeast(answers: seq<Option<PeerChain>>, j: int, m: int)
    requires 0 <= j < |answers|
  {
    answers[j].Some? && answers[j].value.length >= m
  }

  /** No peer reports a length greater than `m`. */
  predicate NoneAbove(answers: seq<Option<PeerChain>>, m: int) {
    forall j :: 0 <= j < |answers| ==> !ReportsAbove(answers, j, m)
  }

  /**
   * Peer `k` reports more than `m`, every earlier peer reports strictly less
   * than it, and no later peer reports more: the first peer with the greatest
   * reported length.
   */
  predicate FirstLongest(answers: seq<Option<PeerChain>>, m: int, k: int) {
    && 0 <= k < |answers|
    && ReportsAbove(answers, k, m)
    && (forall j :: 0 <= j < k ==> !ReportsAtLeast(answers, j, answers[k].value.length))
    && (forall j :: k < j < |answers| ==> !ReportsAbove(answers, j, answers[k].value.length))
  }

  /** At most one peer is the first with the greatest length. */
  lemma FirstLongestUnique(answers: seq<Option<PeerChain>>, m: int, k1: int, k2: int)
    requires FirstLongest(answers, m, k1) && FirstLongest(answers, m, k2)
    ensures k1 == k2
  {
    var l1, l2 := answers[k1].value.length, answers[k2].value.length;
    assert k1 < k2 ==> !ReportsAtLeast(answers, k1, l2) && !ReportsAbove(answers, k2, l1);
    assert k2 < k1 ==> !ReportsAtLeast(answers, k2, l1) && !ReportsAbove(answers, k1, l2);
  }

  /** Dropping the first answer keeps what each later answer reports. */
  lemma ReportsShift(answers: seq<Option<PeerChain>>)
    requires |answers| > 0
    ensures forall j, x :: 1 <= j < |answers| ==>
      (ReportsAbove(answers, j, x) <==> ReportsAbove(answers[1..], j - 1, x))
    ensures forall j, x :: 1 <= j < |answers| ==>
      (ReportsAtLeast(answers, j, x) <==> ReportsAtLeast(answers[1..], j - 1, x))
  {
  }

  /**
   * The fold keeps its accumulator when no peer beats it, and otherwise ends
   * with the length and the chain of the first peer reporting the greatest
   * length.
   */
  lemma {:induction false} ScanFindsFirstLongest(
    answers: seq<Option<PeerChain>>, m: int, longest: Option<seq<Block>>)
    ensures NoneAbove(answers, m) ==> Scan(answers, m, longest) == (m, longest)
    ensures !NoneAbove(answers, m) ==>
      exists k :: FirstLongest(answers, m, k) &&
        Scan(answers, m, longest) == (answers[k].value.length, Some(answers[k].value.chain))
  {
    if answers == [] {
      return;
    }
    var rest := answers[1..];
    ReportsShift(answers);
    if ReportsAbove(answers, 0, m) {
      var top := answers[0].value;
      ScanFindsFirstLongest(rest, top.length, Some(top.chain));
      assert !NoneAbove(answers, m);
      if NoneAbove(rest, top.length) {
        assert FirstLongest(answers, m, 0);
      } else {
        var k :| FirstLongest(rest, top.length, k) &&
          Scan(rest, top.length, Some(top.chain)) == (rest[k].value.length, Some(rest[k].value.chain));
        assert FirstLongest(answers, m, k + 1);
      }
    } else {
      ScanFindsFirstLongest(rest, m, longest);
      if NoneAbove(rest, m) {
        assert NoneAbove(answers, m);
      } else {
        var k :| FirstLongest(rest, m, k) &&
          Scan(rest, m, longest) == (rest[k].value.length, Some(rest[k].value.chain));
        assert FirstLongest(answers, m, k + 1);
      }
    }
  }

  /** A peer that raised or answered with another status changes nothing, wherever it comes. */
  lemma {:induction false} FailedPeerSkipped(
    before: seq<Option<PeerChain>>, after: seq<Option<PeerChain>>, m: int, longest: Option<seq<Block>>)
    ensures Scan(before + [None] + after, m, longest) == Scan(before + after, m, longest)
  {
    if before == [] {
      assert before + [None] + after == [None] + after;
      assert ([None] + after)[1..] == after;
      assert before + after == after;
    } else {
      var a := before[0];
      assert (before + [None] + after)[0] == a && (before + after)[0] == a;
      assert (before + [None] + after)[1..] == before[1..] + [None] + after;
      assert (before + after)[1..] == before[1..] + after;
      if a.Some? && a.value.length > m {
        FailedPeerSkipped(before[1..], after, a.value.length, Some(a.value.chain));
      } else {
        FailedPeerSkipped(before[1..], after, m, longest);
      }
    }
  }

  /**
   * The loop of `consensus` over the peers' answers, from `max_length` set to
   * the local length and no candidate.
   */
  method SelectLongest(answers: seq<Option<PeerChain>>, localLength: int)
    returns (maxLength: int, longest: Option<seq<Block>>)
    ensures (maxLength, longest) == Scan(answers, localLength, None)
    ensures longest.None? <==> NoneAbove(answers, localLength)
    ensures longest.None? ==> maxLength == localLength
    ensures longest.Some? ==>
      exists k :: FirstLongest(answers, localLength, k) &&
        longest.value == answers[k].value.chain && maxLength == answers[k].value.length
  {
    maxLength, longest := localLength, None;
    var i := 0;
    while i < |answers|
      invariant 0 <= i <= |answers|
      invariant Scan(answers, localLength, None) == Scan(answers[i..], maxLength, longest)
    {
      assert answers[i..][0] == answers[i] && answers[i..][1..] == answers[i + 1..];
      var answer := answers[i];
      if answer.Some? {
        var length := answer.value.length;
        var chain := answer.value.chain;
        if length > maxLength {
          maxLength := length;
          longest := Some(chain);
        }
      }
      i := i + 1;
    }
    assert answers[i..] == [];
    ScanFindsFirstLongest(answers, localLength, None);
  }

  /**
   * `GET /nodes/resolve`: replaces the local chain with the chosen peer chain
   * when there is one and it is non-empty (an empty list is falsy); the pool
   * and the peer set are untouched.  Peer chains are not validated.
   */
  method Consensus(ledger: HealthcareBlockchain, answers: seq<Option<PeerChain>>)
    returns (replaced: bool)
    requires |answers| == |ledger.nodes|
    modifies ledger`chain
    ensures var best := Winner(answers, old(|ledger.chain|));
      && replaced == (best.Some? && best.value != [])
      && ledger.chain == (if replaced then best.value else old(ledger.chain))
    ensures NoneAbove(answers, old(|ledger.chain|)) ==> !replaced
    ensures replaced ==>
      exists k :: FirstLongest(answers, old(|ledger.chain|), k) && ledger.chain == answers[k].value.chain
    ensures old(ledger.Valid()) ==> ledger.Valid()
  {
    var maxLength, longest := SelectLongest(answers, |ledger.chain|);
    if longest.Some? && longest.value != [] {
      ledger.chain := longest.value;
      return true;
    }
    return false;
  }

  // ---------------------------------------------------------------- optional validity filter

  /** A reply whose chain has the reported length and passes `validate_chain`. */
  predicate Trustworthy(h: Hasher, p: PeerChain) {
    p.length == |p.chain| && IsValidChain(h, p.chain)
  }

  /** The answers with every untrustworthy reply treated as a failed peer. */
  function Vetted(h: Hasher, answers: seq<Option<PeerChain>>): (r: seq<Option<PeerChain>>)
    ensures |r| == |answers|
    ensures forall j :: 0 <= j < |r| ==> r[j].Some? ==> r[j] == answers[j] && Trustworthy(h, r[j].value)
    ensures forall j :: 0 <= j < |answers| ==>
      answers[j].Some? && Trustworthy(h, answers[j].value) ==> r[j] == answers[j]
  {
    seq(|answers|, j requires 0 <= j < |answers| =>
      if answers[j].Some? && Trustworthy(h, answers[j].value) then answers[j] else None)
  }

  /** Selecting among vetted answers adopts only valid chains that are truly longer. */
  lemma VettedWinnerIsValidAndLonger(h: Hasher, answers: seq<Option<PeerChain>>, localLength: int)
    ensures var best := Winner(Vetted(h, answers), localLength);
      best.Some? ==> IsValidChain(h, best.value) && |best.value| > localLength
  {
    var vetted := Vetted(h, answers);
    ScanFindsFirstLongest(vetted, localLength, None);
    if !NoneAbove(vetted, localLength) {
      var k :| FirstLongest(vetted, localLength, k) &&
        Scan(vetted, localLength, None) == (vetted[k].value.length, Some(vetted[k].value.chain));
      assert Trustworthy(h, vetted[k].value);
    }
  }

  /**
   * Selecting among vetted answers adopts a chain whenever some peer sends a
   * valid chain longer than the local one, and the adopted chain is at least
   * as long as that peer's.
   */
  lemma VettedAdoptsValidLonger(h: Hasher, answers: seq<Option<PeerChain>>, localLength: int, j: int)
    requires 0 <= j < |answers| && answers[j].Some? && Trustworthy(h, answers[j].value)
    requires answers[j].value.length > localLength
    ensures var best := Winner(Vetted(h, answers), localLength);
      best.Some? && |best.value| >= |answers[j].value.chain|
  {
    var vetted := Vetted(h, answers);
    assert vetted[j] == answers[j];
    assert ReportsAbove(vetted, j, localLength);
    ScanFindsFirstLongest(vetted, localLength, None);
    var k :| FirstLongest(vetted, localLength, k) &&
      Scan(vetted, localLength, None) == (vetted[k].value.length, Some(vetted[k].value.chain));
    assert Trustworthy(h, vetted[k].value);
    if j < k {
      assert !ReportsAtLeast(vetted, j, vetted[k].value.length);
    } else if k < j {
      assert !ReportsAbove(vetted, j, vetted[k].value.length);
    }
  }

  /** As written, a longer chain with a broken link is adopted. */
  lemma AdoptsTamperedChain(h: Hasher, genesis: Block)
    ensures var tampered := [genesis, Block(1, [], 0, h(genesis) + "x")];
      && !IsValidChain(h, tampered)
      && Winner([Some(PeerChain(2, tampered))], 1) == Some(tampered)
  {
    var tampered := [genesis, Block(1, [], 0, h(genesis) + "x")];
    assert |tampered[1].previousHash| != |h(tampered[0])|;
    assert !LinkedAt(h, tampered, 1);
    var answers := [Some(PeerChain(2, tampered))];
    assert answers[1..] == [];
    assert Scan(answers[1..], 2, Some(tampered)) == (2, Some(tampered));
    assert Scan(answers, 1, None) == Scan(answers[1..], 2, Some(tampered));
  }

  /** As written, an overstated length makes a shorter chain replace the local one. */
  lemma AdoptsShorterChain(genesis: Block)
    ensures Winner([Some(PeerChain(3, [genesis]))], 2) == Some([genesis])
  {
    var answers := [Some(PeerChain(3, [genesis]))];
    assert answers[1..] == [];
    assert Scan(answers[1..], 3, Some([genesis])) == (3, Some([genesis]));
    assert Scan(answers, 2, None) == Scan(answers[1..], 3, Some([genesis]));
  }
}
