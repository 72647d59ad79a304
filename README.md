# Hospital blockchain ledger — a Dafny model

This project models the ledger core of a small hospital record blockchain.
- **Records.** A medical transaction is a record that gets a timestamp when none is supplied. Its dictionary form holds exactly six keys.
- **Blocks.** A block is a plain record of index, transactions, timestamp, previous hash and nonce. Its hash is an uninterpreted function of the block.
- **The ledger class.** `HealthcareBlockchain` is a chain of blocks, a FIFO pool of pending records and a set of peers. It has construction with a genesis block, `last_block`, `add_transaction`, `mine_block` and `validate_chain`.
- **The node.** These are the request handlers without the web layer: the required-field guard of `/transactions/new`, the empty-pool branch of `/mine`, the set update of `/nodes/register`, and the longest-chain rule of `/nodes/resolve`.

Modules, one per source file:
- `Wrappers` holds `Option`.
- `JsonData` holds JSON values.
- `Transactions` models `core/transaction.py`.
- `Blocks` models `core/block.py`.
- `Chain` models `core/blockchain.py`.
- `Network` models `network/node.py`.

The ledger is a class whose methods update `chain`, `currentTransactions` and `nodes` in place. It keeps two invariants:
- `Valid()`: the chain is never empty, so `last_block` is always defined. Consensus keeps this too.
- `IsWellFormed()`: the genesis block comes first, block `i` has index `i`, and each block names the hash of the block before it. Construction establishes it, and `AddTransaction`, `MineBlock`, `NewTransaction` and `Mine` keep it.

`validate_chain` is proved to decide `IsValidChain`, and every well-formed chain passes it.

The consensus loop is specified by a fold, `Scan`. `ScanFindsFirstLongest` proves what the fold does:
- With no reported length above the local length, nothing changes.
- Otherwise the winner is the first peer that reports the greatest length.

Parameters stand in for the environment:
- The clock (`time()`) is an integer parameter `clock`.
- The hash (SHA-256 over sorted-key JSON) is the ledger's `hash` constant, of type `Block -> Digest`.
- The answers of the peers to `GET /chain` are a sequence of `Option<PeerChain>`, in the order the peer set is iterated. `None` means the answer was not a 200, or anything inside the `try` raised: the request itself, a body that is not JSON, a body lacking `length` or `chain`, or a `length` that cannot be compared with an integer. There is one answer per known peer.
- Request bodies are `map<string, Json>`.

Points where the code behaves differently from what a reader might expect; the model follows the code:
- **Consensus does not validate.** The code never validates peer chains and trusts the reported `length`. `Network.Consensus` does the same. `AdoptsTamperedChain` and `AdoptsShorterChain` show what follows: a longer chain with a broken link is adopted, and a lying length can shorten the local chain. `Vetted`, `Trustworthy`, `VettedWinnerIsValidAndLonger` and `VettedAdoptsValidLonger` are a separate, optional filter that the code does not apply.
- **An empty peer chain is ignored.** `if longest_chain:` is false for an empty list, so a winner whose chain is empty leaves the local chain in place.
- **`/nodes/register` does not check for a list.** A check that `nodes` is a list would answer 400 for any other value; the code has none and only checks that the key is present. It then iterates whatever value it finds: a list, the characters of a string, or the keys of a dict. Adding an unhashable item, or iterating a value that cannot be iterated, raises an error that becomes a 500. Items added before the error stay in the set.
- **Peers are added with Python's set equality.** `True == 1` and `False == 0` in Python, so a set holding `1` does not take `True`, and the reverse: the element added first stays. `SetAdd` models this, and `RegisterOneThenTrue` shows that `{"nodes": [1, true]}` registers one peer.
- **`validate_chain` compares a block's hash with itself.** That second comparison (core/blockchain.py:51) can never fail, so the model leaves it out.
- **`add_transaction` appends the record as given.** The code calls `.to_dict()` on its argument (core/blockchain.py:24), but both callers already pass the dictionary. As written, that call raises `AttributeError` on a dict, so every `POST /transactions/new` answers 500 through its `except` branch (network/node.py:34-35), every submission from the desktop interface shows an error, and nothing is appended. The model appends the record as given, which is the evident intent.
- **The returned index.** `add_transaction` returns `last_block.index + 1`, not the chain length. Under the invariant the two are equal, and `AddTransaction` states both.

## Model

| member | source | states |
|---|---|---|
| `Transactions.NewMedicalTransaction` | core/transaction.py:11-16 | signature defaults to None; a missing timestamp becomes the clock reading, a supplied one is kept; the timestamp is never left None; the other fields are stored unchanged |
| `Transactions.ToDict` | core/transaction.py:18-26 | the dictionary has exactly the six keys patient_id, doctor_id, record_type, data, timestamp, signature |
| `Transactions.ToDictFields` | core/transaction.py:18-26 | each of the six keys maps to the corresponding field |
| `Transactions.FromDict` | core/transaction.py:18-26 | the inverse reading is defined exactly on dictionaries with the six keys |
| `Transactions.FromToDict` | core/transaction.py:18-26 | reading a record back from its dictionary gives the record |
| `Transactions.ToFromDict` | core/transaction.py:18-26 | a six-key dictionary is the dictionary of the record read from it |
| `Transactions.ToDictInjective` | core/transaction.py:18-26 | distinct records have distinct dictionaries |
| `Blocks.NewBlockFields` | core/block.py:6-11 | the constructor keeps the four given fields and sets the nonce to 0 when it is omitted |
| `Blocks.HashDeterministic` | core/block.py:13-15 | blocks agreeing on all five fields have equal hashes |
| `Blocks.Describe` | core/block.py:17-18 | the text has length 20 plus the lengths of the index's decimal form and the hash, starts with `Block(index=`, the decimal index and `, hash=`, and ends with the hash and `)` |
| `Blocks.DescribeDetermines` | core/block.py:17-18 | equal `__repr__` texts mean equal index and equal hash: the text reports both |
| `Chain.Genesis` | core/blockchain.py:15-17 | the genesis block has index 0, no transactions, previous hash "0", nonce 0 and the clock's timestamp |
| `Chain.GenesisWellFormed` | core/blockchain.py:15-17 | the one-block genesis chain satisfies the ledger invariant |
| `Chain.NextBlock` | core/blockchain.py:31-37 | the mined block has index last.index + 1, the pool as its transactions, previous hash Hash(last), nonce 0 and the clock's timestamp |
| `Chain.NextBlockKeepsWellFormed` | core/blockchain.py:31-41 | appending the mined block to a well-formed chain keeps it well formed |
| `Chain.AppendKeepsHashes` | core/blockchain.py:40 | appending a block leaves the hash of every earlier block unchanged |
| `Chain.HealthcareBlockchain.constructor` | core/blockchain.py:9-13 | the chain is exactly the genesis block, the pool and the peer set are empty, and both invariants hold |
| `Chain.HealthcareBlockchain.CreateGenesisBlock` | core/blockchain.py:15-17 | appends the genesis block to the chain and changes nothing else |
| `Chain.HealthcareBlockchain.LastBlock` | core/blockchain.py:19-21 | is the final block, defined because the chain is never empty; under the invariant its index is the chain length less one |
| `Chain.HealthcareBlockchain.AddTransaction` | core/blockchain.py:23-25 | appends exactly the one record to the end of the pool and leaves the chain alone; returns last.index + 1, which is the chain length under the invariant; keeps both invariants |
| `Chain.HealthcareBlockchain.MineBlock` | core/blockchain.py:27-41 | with an empty pool, returns None and changes nothing; otherwise appends exactly the block `NextBlock` builds from the old pool, keeps all earlier blocks and empties the pool; keeps both invariants |
| `Chain.HealthcareBlockchain.ValidateChain` | core/blockchain.py:43-54 | returns true iff every block after the first names the hash of its predecessor; true for chains of length 0 or 1 and for every well-formed chain |
| `Network.HasRequiredFields` | network/node.py:19-20 | holds exactly when the body's keys include patient_id, doctor_id, record_type and data |
| `Network.SubmittedRecord` | network/node.py:23-29 | the record takes the four required fields from the body, the signature when given and "" otherwise, and always the clock's timestamp |
| `Network.NewTransaction` | network/node.py:15-32 | answers 400 and leaves the pool unchanged exactly when a required field is missing; otherwise appends the record's dictionary and answers 201 with last.index + 1; keeps both invariants |
| `Network.Mine` | network/node.py:37-49 | answers 400 exactly when the pool was empty, with the chain and the pool unchanged; otherwise appends exactly the block `NextBlock` builds from the old chain, the old pool and the clock, empties the pool, and answers 200 with that block's index, transactions and previous hash |
| `Network.HashablePrefix` | network/node.py:65-66 | counts the leading items that can be put in a set; the item after them, if any, is a list or a dict |
| `JsonData.Get` | network/node.py:28 | `values.get(key, default)` is the stored value when the key is present and the default otherwise |
| `JsonData.NumericValue` | network/node.py:66 | bools and integers have a number in Python's comparison, `True` as 1 and `False` as 0; no other value has one |
| `JsonData.SetAdd` | network/node.py:66 | `set.add` only grows the set, by at most the new item; afterwards the set holds a value Python-equal to the item; it stays unchanged exactly when such a value was already there |
| `JsonData.SetAddKeepsShape` | network/node.py:66 | adding keeps a set free of two distinct members that Python considers equal |
| `Network.Iterated` | network/node.py:65 | `for node in v` yields a list's items, or a string's one-character strings, all hashable; nothing else is iterated in order |
| `Network.AddEach` | network/node.py:65-66 | adding items in turn only grows the set, and only by items of the sequence |
| `Network.AddEachCovers` | network/node.py:65-66 | after the loop, every added item has a Python-equal member in the set |
| `Network.AddEachKeepsShape` | network/node.py:65-66 | the loop keeps the set free of Python-equal duplicates |
| `Network.Registered` | network/node.py:65-66 | registration only grows the peer set, only by hashable values, and leaves it unchanged for a value that is not a list, string or dict |
| `Network.RegisteredKeepsShape` | network/node.py:65-66 | registration of any value keeps the set free of Python-equal duplicates |
| `Network.RegisterPair` | network/node.py:65-66 | registering `[x, y]` into an empty set adds `x` and then adds `y` with Python's equality |
| `Network.RegisterOneThenTrue` | network/node.py:65-66 | `[1, true]` registers the one peer `1` |
| `Network.RegisterTrueThenOne` | network/node.py:65-66 | `[true, 1]` registers the one peer `true` |
| `Network.RegisterZeroAndTrue` | network/node.py:65-66 | `[0, true]` registers two peers |
| `Network.Completes` | network/node.py:65 | the loop runs to the end exactly for a dict, a string, or a list whose items are all hashable |
| `Network.RegisterNodes` | network/node.py:59-71 | answers 400 with the peer set unchanged when `nodes` is absent; otherwise the peer set becomes `Registered` of the old set and the value, adding the addresses iterated before any failure one by one with Python's equality; answers 201 with the whole set if iteration completes, else 500; keeps the set free of Python-equal duplicates |
| `Network.Scan` | network/node.py:78-88 | the fold never lowers the maximum length; when it ends on the starting length, the candidate is the starting one; when it ends above, there is a candidate chain |
| `Network.Winner` | network/node.py:78-88 | no winner exactly when no peer reports more than the local length; a winner is the chain of the first peer reporting the greatest length |
| `Network.FirstLongestUnique` | network/node.py:84-86 | at most one peer is the first to report the greatest length |
| `Network.ScanFindsFirstLongest` | network/node.py:78-88 | the selection keeps the local length and no candidate when no peer reports more; otherwise it ends with the length and chain of the first peer reporting the greatest length |
| `Network.FailedPeerSkipped` | network/node.py:79-88 | a peer whose request raised or answered with another status changes the selection in no way, wherever it comes |
| `Network.SelectLongest` | network/node.py:75-88 | the loop computes the fold; no candidate iff no peer reports more than the local length; a candidate is the chain of the first peer reporting the greatest length |
| `Network.Consensus` | network/node.py:73-99 | takes one answer per known peer; replaces the chain with the winner's chain iff a winner exists and its chain is non-empty, otherwise leaves it unchanged; equal or smaller lengths never replace; the pool and the peer set are untouched; the chain stays non-empty |
| `Network.Vetted` | network/node.py:84 | the optional filter keeps one answer per peer; an answer is kept exactly when its chain has the reported length and passes validation, and a kept answer is the peer's own |
| `Network.VettedWinnerIsValidAndLonger` | network/node.py:84 | with the optional filter, an adopted chain passes validation and is strictly longer than the local one |
| `Network.VettedAdoptsValidLonger` | network/node.py:84-88 | with the optional filter, a peer sending a valid chain longer than the local one means some chain is adopted, at least as long as that peer's |
| `Network.AdoptsTamperedChain` | network/node.py:84-91 | as written, a reply one block longer whose link is broken wins the selection |
| `Network.AdoptsShorterChain` | network/node.py:84-91 | as written, a reply that overstates its length wins with a chain shorter than the local one |

`to_dict` is a function of the record's value. So it cannot modify the record, and calling it twice gives equal results; no separate lemma is needed.

## Left out

- Flask routing, JSON serialisation, `requests.get` and HTTP status plumbing: the handlers take the decoded body and give a reply datatype whose `Status()` is the code.
- The home page, `GET /`, and `GET /chain`: they only format state for output.
- A request body that is not a JSON object (`get_json()` giving None, a list or a scalar) is not modelled. Bodies are maps, and an empty body is the empty map.
- The `except` branch of `/transactions/new` that turns an exception into 500: with `add_transaction` modelled as appending the record as given, nothing in the modelled path raises.
- After consensus the code stores a list of dictionaries, not `Block` objects, in `chain` (network/node.py:91). The model keeps the `Block` type, so the `AttributeError` that a later `last_block.index` would raise is not modelled.
- The periodic miner thread and its sleep loop (network/node.py:101-110), and all concurrency: operations run one at a time.
- The `__main__` block, argparse and server startup (network/node.py:107-116, main.py).
- SHA-256 and the sorted-key JSON encoding inside `compute_hash`: the hash is an arbitrary function of the block, so only determinism is captured, not collision resistance.
- Floating-point timestamps: the clock and all timestamps are integers, and JSON numbers are integers.
- The order of the peer set: answers arrive in whichever order the set is iterated, and the model takes that order as given.
- The keys of a dict given as `nodes` are added as a set, without modelling their iteration order. No key can fail, so the order changes nothing.
- The desktop interface (gui/app.py), key generation and signing (utils/crypto.py) and the inert dataclasses of healthcare/models.py: signatures are opaque values, never verified.
