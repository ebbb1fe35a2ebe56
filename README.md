# DataLayer driver: delegated puzzles, data store state and server coins

This project is a Dafny model of the core of the DataLayer driver. The driver is a Rust library that reads the state of a DataLayer data store from the Chia blockchain. It has two parts.

- **Delegated puzzles and data store state** (`src/puzzles_info.rs`):
  - A data store is a singleton coin whose inner puzzle is the NFT state layer.
  - Its owner may hand rights to *delegated puzzles*. Admin and writer puzzles are a filter curried over an inner puzzle. An oracle puzzle is meant to pay a fee to a puzzle hash and announce `$`; the program the code builds does not have that shape (see "## Left out").
  - The delegated puzzles travel as *hints*, the memos of the coin: a tag (1, 2 or 3), a 32-byte hash, and a fee for the oracle.
  - `from_hint` decodes one delegated puzzle off the front of a hint list.
  - `build_datastore_info` reads an owner hash and then the delegated puzzles.
  - `from_spend` derives the state of the next data store coin from a spend. The spend is either of the launcher (the first coin) or of the previous data store coin.
- **Server coins** (`src/server_coin.rs`):
  - `morph_launcher_id` derives a related id by reading a launcher id as a signed big-endian integer and adding an offset.
  - `urls_from_conditions` reads the URLs a server coin advertises from its parent's `CreateCoin` memos.

The layout follows the source:

- `clvm.dfy`: CLVM programs as a datatype of atoms and pairs, with the CLVM tree hash and curry hash defined over a SHA-256 parameter. The lemma connecting the hash of a curried program with the curry hash of its parts is proved, not assumed.
- `chain.dfy`: coins, spends, conditions, proofs and parse errors. It also holds `Env`, the library the driver calls: program deserialisation, puzzle evaluation, the layer and condition parsers, coin ids, the singleton curry hash, lineage proofs and the Merkle tree. Each is a function-valued field, and the model states how the driver combines their answers.
- `delegated_puzzles.dfy`: `HintType`, `HintKeys`, `DelegatedPuzzleInfo`, the puzzle builders, `from_hint` as a function, `get_full_puzzle` and the Merkle root.
- `datastore_spec.dfy`: `build_datastore_info` and `from_spend` as functions of their inputs, and the lemmas about them.
- `datastore.dfy`: the imperative parts, each proved equal to its function.
  - The hint list that `from_hint` drains in place is a class.
  - `build_datastore_info`'s `while` loop is a method with a loop.
  - The metadata `for_each` of `from_spend` is a loop that updates the metadata.
  - `from_spend` reassigns the owner.
- `server_coin.dfy`: `morph_launcher_id`, an imperative padding loop proved against a function, and `urls_from_conditions`.
- `bytes.dfy`: two's complement byte strings as `num-bigint` reads and writes them, with their lemmas.
- `utf8.dfy`: a UTF-8 decoder and encoder.
- `wrappers.dfy`: `Option` and `Result`.

A Rust panic (an index `[0]` into an empty digit vector, an `unwrap` of an `Err`) is modelled as the error `Panicked`: the driver never returns in that case.

Where the source and its documentation disagree, the model follows the code. For example, `build_datastore_info` with exactly one hint left after the owner hint returns no delegated puzzles (`None`), not an empty list. The one exception is the puzzle hash `from_hint` gives a hinted admin or writer puzzle: the model uses the evidently intended hash, and the hash the code computes is recorded under "## Findings".

## Model

| member | source | states |
|---|---|---|
| DelegatedPuzzles.HintTypeOf | src/puzzles_info.rs:45-56 | The tag a hint type is named by is its `value()`, and a tag no hint type has names none. |
| DelegatedPuzzles.HintTypeOfValue | src/puzzles_info.rs:45-56 | Each hint type's tag names that hint type again. |
| DelegatedPuzzles.AdminLayerFullPuzzle | src/puzzles_info.rs:84-96 | The admin filter curried over an inner puzzle hashes to the curry hash of the filter's hash over the inner puzzle's hash. |
| DelegatedPuzzles.WriterLayerFullPuzzle | src/puzzles_info.rs:120-132 | The same for the writer filter. |
| DelegatedPuzzles.FromAdminInnerPuzzle | src/puzzles_info.rs:98-118 | The info is `Admin(tree_hash(inner))`. The full program is the curried filter. The puzzle hash computed from hashes alone equals that program's tree hash. |
| DelegatedPuzzles.FromWriterInnerPuzzle | src/puzzles_info.rs:134-154 | The same for writer puzzles. |
| DelegatedPuzzles.OracleLayerFullPuzzleInjective | src/puzzles_info.rs:156-194 | The oracle program determines the oracle puzzle hash and fee it was built from. |
| DelegatedPuzzles.OracleLayerQuotesOnePair | src/puzzles_info.rs:184-191 | The tree built is a quote of a one-element list whose element starts with a condition, not an opcode. |
| DelegatedPuzzles.NewOracle | src/puzzles_info.rs:196-210 | The info is `Oracle(ph, fee)`, the full program is present, and the puzzle hash is its tree hash. |
| DelegatedPuzzles.LowDigit32 | src/puzzles_info.rs:220-223 | The digit taken is absent (indexing panics) exactly when the integer is zero. Otherwise it is below 2^32. |
| DelegatedPuzzles.LowDigit64 | src/puzzles_info.rs:264-267 | The fee digit is absent (indexing panics) exactly when the integer is zero. |
| DelegatedPuzzles.FromHint | src/puzzles_info.rs:212-285 | Never takes more hints than there are. On success it takes 3 hints for an oracle and 2 otherwise. The decoded puzzle's hash is the one its info determines, and any full program hashes to it. For an admin or writer hint that hash is the corrected one (see "## Findings"), not the one the code computes. |
| DelegatedPuzzles.FromHintMissingHint | src/puzzles_info.rs:216-284 | `MissingHint` exactly when: fewer than 2 hints; or the tag decodes and then the hash hint is not 32 bytes, the tag is not 1, 2 or 3, or the tag is 3 with no fee hint. |
| DelegatedPuzzles.FromHintPanics | src/puzzles_info.rs:220-267 | A panic happens exactly when the tag integer is zero, or when an oracle's fee integer is zero. |
| DelegatedPuzzles.FromHintFilterPuzzle | src/puzzles_info.rs:230-281 | A hinted admin or writer puzzle has no full program, carries the hinted hash, and is admin exactly for tag 1. A hinted oracle is `new_oracle` of the hash and fee. |
| DelegatedPuzzles.FromHintTagMagnitude | src/puzzles_info.rs:220-223 | The tag is the low byte of the magnitude: -1 (`[0xFF]`) and 257 (`[1, 1]`) both decode as admin. |
| DelegatedPuzzles.FromHintZeroTag | src/puzzles_info.rs:220-223 | An empty tag and the tag `[0]` panic. |
| DelegatedPuzzles.FromHintZeroFee | src/puzzles_info.rs:264-267 | An empty oracle fee hint panics. |
| DelegatedPuzzles.FromHintEncodeHints | src/puzzles_info.rs:212-285 | Decoding the hints of any delegated puzzle info (with a non-zero oracle fee) gives that info back. It takes exactly its hints and yields the hash the info determines. |
| DelegatedPuzzles.HintedFilterMatchesInnerPuzzle | src/puzzles_info.rs:98-257 | A hinted admin or writer puzzle has the hash `from_admin_inner_puzzle` / `from_writer_inner_puzzle` give an inner puzzle with the hinted tree hash. Revealing that inner puzzle lets `get_full_puzzle` rebuild a program with that hash. |
| DelegatedPuzzles.HintedFilterHashAsWrittenMismatch | src/puzzles_info.rs:230-257 | As written, the admin hash decoded from a hint differs from the one `from_admin_inner_puzzle` computes, and the writer hash from the one `from_writer_inner_puzzle` computes, barring a SHA-256 collision. |
| DelegatedPuzzles.GetFullPuzzle | src/puzzles_info.rs:287-335 | It fails exactly when there is no stored program, the puzzle is not an oracle and no inner puzzle is revealed. A stored program is returned as is. |
| DelegatedPuzzles.GetFullPuzzleHash | src/puzzles_info.rs:287-335 | For a consistent delegated puzzle, with the hinted inner puzzle revealed where needed, the program returned hashes to the delegated puzzle's hash. |
| DelegatedPuzzles.MerkleLeaves | src/puzzles_info.rs:729-736 | The leaves are the puzzle hashes, in order. |
| DelegatedPuzzles.MerkleRootOfSameHashes | src/puzzles_info.rs:729-742 | The root depends only on the sequence of puzzle hashes. |
| DataStoreSpec.DecodeDelegatedPuzzles | src/puzzles_info.rs:415-427 | Every decoded puzzle is consistent. The loop fails only with `MissingHint` or a panic. |
| DataStoreSpec.BuildDataStoreInfo | src/puzzles_info.rs:396-438 | See the list after this table. |
| DataStoreSpec.DecodeEncodeAllHints | src/puzzles_info.rs:415-427 | The loop decodes a sequence of hinted delegated puzzles back into their infos, in order, with their hashes. |
| DataStoreSpec.BuildDataStoreInfoOfHints | src/puzzles_info.rs:396-438 | An owner hint followed by at least one hinted delegated puzzle gives that owner and exactly those delegated puzzles. |
| DataStoreSpec.FindKey | src/puzzles_info.rs:468-492 | `find` returns the first entry with the key, or none when no entry has it. |
| DataStoreSpec.AtomsOf | src/puzzles_info.rs:519-523 | The hints are the atoms' bytes, in order. It fails with `FromClvm` exactly when some value is a pair. |
| DataStoreSpec.FromLauncherSpend | src/puzzles_info.rs:460-536 | On success the launcher id is the launcher coin's id, the new coin is `(launcher_id, singleton_puzzle_hash, amount)` of the solution, and the proof is `Eve` of the launcher's parent and amount. The rest of the state is `build_datastore_info` of the `h` atoms, with the first `m` value read as a list as the metadata. Conversely, whenever the solution parses, both keys are found, the first `m` value is a list and the `h` values are atoms, the result is exactly that `build_datastore_info` call, errors included. |
| DataStoreSpec.FromLauncherSpendErrors | src/puzzles_info.rs:468-524 | A solution that does not parse gives `NonStandardLayer`. A missing `m` or `h` key, an empty `m` value, or an `m` value that is not a list gives `MissingHint`. An `h` value that is not an atom gives `FromClvm`. |
| DataStoreSpec.LaunchWithOwnerOnly | src/puzzles_info.rs:460-535 | A launch revealing metadata and only an owner hint gives that owner, that metadata, no delegated puzzles, the launcher coin's id and an `Eve` proof. |
| DataStoreSpec.ParseStateLayerSpend | src/puzzles_info.rs:538-580 | On success the singleton's inner puzzle is curried with the state layer's module hash, its arguments and the solution are the parsed ones, and the output is the list the state layer's inner puzzle returns on its solution. A puzzle reveal that does not deserialise, no singleton, an inner puzzle that is not curried or not the state layer give `NonStandardLayer`; a failed inner run gives `MismatchedOutput`; unparseable arguments or solution, or an output that is not a list, give `FromClvm`. Conversely, when every layer parses and the run returns a list, the result is `Ok` of exactly those parts and that list. |
| DataStoreSpec.LastMetadataIsLast | src/puzzles_info.rs:568-592 | The last metadata-update condition supplies the metadata. With none, the curried metadata is kept. |
| DataStoreSpec.FirstOddCreateCoin | src/puzzles_info.rs:604-611 | The first `CreateCoin` with an odd amount, or none when there is none. |
| DataStoreSpec.StateLayerPuzzleHashMatches | src/puzzles_info.rs:618-637 | The child's state layer hash, computed from hashes, is the tree hash of the state layer curried over its module hash, the metadata, the updater hash and the inner puzzle. |
| DataStoreSpec.DelegatedConditions | src/puzzles_info.rs:663-685 | A delegation solution that does not parse gives `FromClvm`. `MismatchedOutput` comes exactly from a failed run of the delegated puzzle. No other error arises. |
| DataStoreSpec.DelegationOwner | src/puzzles_info.rs:655-725 | See the list after this table. |
| DataStoreSpec.FromStateLayerSpend | src/puzzles_info.rs:604-725 | On success the launcher id is the singleton's, the proof is the singleton's lineage proof of the spent coin, and the new coin is a child of the spent coin. |
| DataStoreSpec.FromStateLayerSpendChild | src/puzzles_info.rs:568-639 | `MissingChild` exactly when no odd `CreateCoin` exists. Otherwise the new coin is a child of the spent coin with the first odd child's amount, and the metadata is the last update's. |
| DataStoreSpec.FromStateLayerSpendOwner | src/puzzles_info.rs:641-725 | A child with memos is re-specified by `build_datastore_info` of those memos. Without memos: a non-delegation inner puzzle owns the coin, with no delegated puzzles; a delegation layer that stays gives its curried inner puzzle hash as owner and the previous delegated puzzles (a panic if those arguments do not parse); a layer that is exited gives the delegated puzzle's first odd child's puzzle hash as owner and no delegated puzzles; a failed delegated run passes its error on. |
| DataStoreSpec.ContinueWithAdminHint | src/puzzles_info.rs:641-652 | A child whose memos are an owner and an admin hint gives that owner and exactly one delegated puzzle, the admin puzzle of the hinted hash. |
| DataStoreSpec.FromSpend | src/puzzles_info.rs:443-458 | A solution that does not deserialise gives `NonStandardLayer`. On success the new coin is a child of the spent coin in both branches, and the proof is `Eve` exactly when the spent coin is the launcher. |
| DataStore.HintList.TakeFront | src/puzzles_info.rs:221 | `drain(0..1)`: returns the first hint and leaves the rest, in order. |
| DataStore.FromHint | src/puzzles_info.rs:212-285 | Returns what `from_hint` returns. It removes exactly the hints it took from the front of the list; the rest stay in order. |
| DataStore.DecodeDelegatedPuzzlesLoop | src/puzzles_info.rs:415-427 | The `while` loop computes the decoded list of the function. What it leaves in the hint list is a suffix of the original, and on success at most one hint. |
| DataStore.BuildDataStoreInfo | src/puzzles_info.rs:396-438 | Equal to the function's result on the same hints. |
| DataStore.FoldMetadata | src/puzzles_info.rs:568-592 | The `for_each` leaves the metadata of the last update condition. |
| DataStore.FromLauncherSpend | src/puzzles_info.rs:460-536 | Equal to the launcher branch function. |
| DataStore.FromStateLayerSpend | src/puzzles_info.rs:604-725 | Equal to the continuation branch function, reassigning the owner as the code does. |
| DataStore.FromSpend | src/puzzles_info.rs:443-726 | Equal to the function. |
| Clvm.ClvmNumber | src/puzzles_info.rs:165-167 | The atom `new_number` makes reads back as the number. |
| Clvm.CurryTreeHashMatches | src/puzzles_info.rs:102-109 | The hash of a curried program equals the curry hash of the module's hash over the arguments' hashes. |
| Clvm.UncurryCurry | src/puzzles_info.rs:550-557 | Uncurrying a curried program gives back its module and arguments. |
| Clvm.CurryTreeHashInjective | src/puzzles_info.rs:230-237 | Curry hashes over different single arguments differ, barring a SHA-256 collision. |
| ServerCoins.MirrorCurryTreeHashMatches | src/server_coin.rs:16-36 | The default mirror arguments curry the morpher 1, and the hash computed from hashes is the tree hash of the curried mirror puzzle. |
| ServerCoins.MorphLauncherId | src/server_coin.rs:76-90 | The padding loop returns the morphed id of the function. |
| ServerCoins.MorphOverflow | src/server_coin.rs:80-83 | The encoding is longer than 32 bytes exactly when the sum lies outside the 32-byte two's complement range; then the result is 32 zero bytes. |
| ServerCoins.MorphLowBytes | src/server_coin.rs:85-89 | In range, the low bytes are the minimal signed encoding of the sum, which reads back as the sum. All earlier bytes are zero. |
| ServerCoins.MorphNonNegative | src/server_coin.rs:76-89 | For a non-negative sum in range, the result is the 32-byte unsigned encoding of the sum and reads back as the sum. |
| ServerCoins.MorphZeroOffset | src/server_coin.rs:76-89 | An id whose top bit is clear is unchanged by the offset 0. |
| ServerCoins.MorphRoundTrip | src/server_coin.rs:76-89 | Morphing a top-bit-clear id by an offset and back by its negation gives the id again, while the sum stays non-negative and in range. |
| ServerCoins.MorphCarries | src/server_coin.rs:133-145 | Adding 1 to an id ending in a byte below 255 and then 255 ends in that byte plus 1, then 0. The test's `[3; 31] ++ [255]` is one case. |
| ServerCoins.MorphNegativeNotSignExtended | src/server_coin.rs:85-87 | Zero padding does not sign-extend: the all-ones id (-1) with offset 0 becomes 31 zero bytes and `0xFF`, which reads as 255. |
| ServerCoins.DecodeAll | src/server_coin.rs:113-114 | `collect` into `Option`: it fails exactly when some memo is not UTF-8; otherwise it gives each memo's string, in order. |
| ServerCoins.UrlsFromConditions | src/server_coin.rs:92-116 | No URLs exactly when no condition yields URLs. |
| ServerCoins.NoMatchingCoinNoUrls | src/server_coin.rs:96-108 | No `CreateCoin` matching both the puzzle hash and the amount gives no URLs. |
| ServerCoins.UrlsFromFirstMatch | src/server_coin.rs:96 | The result is the URLs of the first condition that yields any. |
| ServerCoins.UrlsOfEncodedMemos | src/server_coin.rs:110-114 | A matching coin whose memos after the first are UTF-8 strings yields exactly those strings, in order. |
| ServerCoins.InvalidMemoFallsThrough | src/server_coin.rs:96-114 | A matching condition with a non-UTF-8 memo after the first yields nothing, and the search goes on. |
| Bytes.SignedRoundTrip | src/server_coin.rs:77-81 | `from_signed_bytes_be` reads back what `to_signed_bytes_be` writes. |
| Bytes.SignedWidth | src/server_coin.rs:80-83 | The signed encoding fits in k bytes exactly when the integer lies in the k-byte two's complement range. |
| Bytes.SignedMinimal | src/server_coin.rs:80 | The signed encoding never starts with a redundant sign byte. |
| Utf8.DecodeEncode | src/server_coin.rs:113 | `String::from_utf8` accepts the UTF-8 encoding of any string and gives the string back. |
| Utf8.EncodeOfDecode | src/server_coin.rs:113 | Whatever `String::from_utf8` accepts is the UTF-8 encoding of the string it returns. |
| Utf8.DecodeExactlyEncodings | src/server_coin.rs:113 | `String::from_utf8` gives a string exactly when the bytes are that string's UTF-8 encoding, so every other byte string is rejected. |

What `DataStoreSpec.BuildDataStoreInfo` states:

- The coin, launcher id, proof and metadata are returned unchanged.
- The owner is the first hint.
- Delegated puzzles are present exactly when more than one hint follows the owner. They are then the puzzles the loop decodes.
- It fails exactly when there is no hint, the first hint is not 32 bytes, or decoding fails.
- No hint, or a first hint that is not 32 bytes, is `MissingHint`.
- Every error is `MissingHint` or a panic. `from_hint` itself only fails with `MissingHint` or a panic, and its `?` returns that error before the outer `map_err` to `MissingHint` is reached.

What `DataStoreSpec.DelegationOwner` states:

- The delegated puzzles reported are the previous ones exactly when the delegation layer stays (its run makes no odd `CreateCoin`), and none otherwise.
- A non-delegation inner puzzle is its own owner.
- A delegation layer that stays makes its curried inner puzzle hash the owner, and keeps the previous delegated puzzles. If its curried arguments do not parse, the result is a panic.
- A delegation layer that is exited makes the puzzle hash of the delegated puzzle's first odd `CreateCoin` the owner.
- An error from running the delegated puzzle is passed on.
- It never reports `MissingChild`.

## Left out

- The `println!` debug output of `from_spend` and `build_datastore_info` is not modelled.
- Program deserialisation, CLVM evaluation (`run_puzzle`), parsing of the singleton layer and the state layer, the `FromClvm` parsers of solutions and arguments, and the byte-level `Condition` parser are library calls. They are parameters of `Env`.
- `coin_id`, `SingletonArgs::curry_tree_hash`, `lineage_proof` and the Merkle tree are `Env` parameters too. `MerkleTree` is not part of this model; only the leaf list handed to it is.
- The `Allocator`/`NodePtr` arena and its errors are not modelled. Building a pair or atom, loading the filter programs, `to_clvm` of a curried program, and `new_metadata.to_node_ptr` (`src/puzzles_info.rs:618-620`) are treated as never failing.
- `get_full_puzzle`'s error is a string; the `ToClvmError` kinds are not kept.
- The filter programs and the hash constants are parameters. This covers `ADMIN_FILTER_PUZZLE`, `WRITER_FILTER_PUZZLE`, `SINGLETON_LAUNCHER_PUZZLE_HASH`, the state layer, delegation layer and metadata updater hashes, and `MIRROR_PUZZLE`/`MIRROR_PUZZLE_HASH`. The filter hashes are taken to be the tree hashes of the filter programs. `test_puzzle_hash` depends on the real SHA-256 and is left out.
- `from_spend` reads each output condition with two library parsers: `NewMetadataCondition::from_clvm` (opcode -24) and `Condition::from_clvm`. The model merges them into one `parseCondition`. The merge is sound because the opcodes 51 (`CREATE_COIN`) and -24 are disjoint. A condition both parsers reject becomes `Other`; it is never an odd `CreateCoin` nor a metadata update.
- What the oracle program evaluates to is not modelled. It is the quote of `((c1 . c2))`, not of the two conditions `(c1 c2)` that its comment describes. `OracleLayerQuotesOnePair` records the shape; the model keeps the tree the code builds, since its hash is what is stored.
- `ServerCoin` is a plain record with no operation of its own.
- `MirrorArgs::default` is the constant `DefaultMirrorArgs`: the morpher is 1. The morpher's `i32` range is not modelled.
- UTF-8 decoding follows the standard's well-formedness rules: no overlong forms, no surrogates, nothing above U+10FFFF. It is written out in the model rather than taken from Rust's standard library.
- DataStoreSpec.FromSpend: its own contract states the undeserialisable-solution case, the parent of the new coin and the kind of proof. The rest of each branch is stated by `FromLauncherSpend`, `ParseStateLayerSpend`, `FromStateLayerSpend` and their lemmas.
- DelegatedPuzzles.FromHint: for an admin or writer hint the model computes the filter curried over the hinted hash. The code curries the hash of the hint's atom instead; see "## Findings". `build_datastore_info` and `from_spend` inherit the corrected hash.

## Findings

| source | as written | input that shows it | evidently intended | confidence | as-written member | corrected member |
|---|---|---|---|---|---|---|
| src/puzzles_info.rs:230-257 | `from_hint` curries the 32-byte hint as a `Bytes32`. The curry hasher encodes that as an atom, so the puzzle hash is the filter curried over `sha256(1 ‖ hint)`. | Any inner puzzle whose hint is its tree hash `h` (with `sha256(1 ‖ h) != h`): its hash from an admin hint differs from its `from_admin_inner_puzzle` hash, and from a writer hint from its `from_writer_inner_puzzle` hash. | The filter curried over the inner puzzle hash `h` itself, as `from_admin_inner_puzzle` and `from_writer_inner_puzzle` compute with a `TreeHash`. | medium, not executed; it depends on how the library hashes `Bytes32` and `TreeHash` arguments | DelegatedPuzzles.HintedFilterHashAsWrittenMismatch | DelegatedPuzzles.HintedFilterMatchesInnerPuzzle |
