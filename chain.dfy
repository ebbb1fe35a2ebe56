/**
 * The chain-level values a data store is read from, and the parse errors of
 * the driver. Library calls the driver makes but does not define (program
 * deserialisation, puzzle evaluation, the layer and condition parsers, coin
 * ids, the singleton curry hash, lineage proofs, the Merkle tree) are the
 * function-valued fields of `Env`: the model says how the driver combines
 * their answers, not what those answers are.
 */
module Chain {
  import opened Wrappers
  import opened Bytes
  import opened Clvm

  datatype Coin = Coin(parentCoinInfo: Bytes32, puzzleHash: Bytes32, amount: u64)

  /** A spend as it appears on chain: the puzzle reveal and the solution are serialised programs. */
  datatype CoinSpend = CoinSpend(coin: Coin, puzzleReveal: seq<byte>, solution: seq<byte>)

  /** `Metadata<NodePtr>`: a proper list of programs. */
  datatype Metadata = Metadata(items: seq<Program>)

  /** The program a metadata value is encoded as: the list of its items. */
  function MetadataProgram(m: Metadata): Program
  {
    ListProgram(m.items)
  }

  /** What the condition parser makes of one output condition. */
  datatype Condition =
    | CreateCoin(puzzleHash: Bytes32, amount: u64, memos: seq<seq<byte>>)
    | NewMetadata(metadata: Metadata)  // the metadata-update condition, opcode -24
    | Other                            // any other condition, or one that does not parse

  datatype LineageProof = LineageProof(parentParentCoinInfo: Bytes32, parentInnerPuzzleHash: Bytes32, parentAmount: u64)

  datatype Proof =
    | Eve(parentCoinInfo: Bytes32, amount: u64)
    | Lineage(lineage: LineageProof)

  /** One `(key . values)` entry of the launcher's key-value list. */
  datatype KeyValueItem = KeyValueItem(key: seq<byte>, value: seq<Program>)

  /** `LauncherSolution<KeyValueList<NodePtr>>`. */
  datatype LauncherSolution = LauncherSolution(singletonPuzzleHash: Bytes32, amount: u64, keyValueList: seq<KeyValueItem>)

  /** The singleton top layer as `SingletonPuzzle::parse` returns it. */
  datatype SingletonLayer = SingletonLayer(launcherId: Bytes32, innerPuzzle: Program)

  /** `NftStateLayerArgs<NodePtr, Metadata>`: the state layer's curried metadata and inner puzzle. */
  datatype StateArgs = StateArgs(metadata: Metadata, innerPuzzle: Program)

  /** `DelegationLayerSolution`: the delegated puzzle to run and its solution. */
  datatype DelegationSolution = DelegationSolution(puzzleReveal: Program, puzzleSolution: Program)

  /**
   * `ParseError`. `Panicked` stands for a Rust panic (an index into an empty
   * vector, an `unwrap` of an error): the driver does not return in that case.
   */
  datatype Error =
    | MissingHint
    | NonStandardLayer
    | MismatchedOutput
    | MissingChild
    | FromClvm
    | Panicked

  /** The library the driver calls, and the puzzle constants it is built against. */
  datatype Env = Env(
    sha256: Hasher,
    adminFilterPuzzle: Program,
    writerFilterPuzzle: Program,
    launcherPuzzleHash: Bytes32,                  // SINGLETON_LAUNCHER_PUZZLE_HASH
    stateLayerModHash: Bytes32,                   // NFT_STATE_LAYER_PUZZLE_HASH
    delegationLayerModHash: Bytes32,              // DELEGATION_LAYER_PUZZLE_HASH
    metadataUpdaterPuzzleHash: Bytes32,           // DL_METADATA_UPDATER_PUZZLE_HASH
    coinId: Coin -> Bytes32,
    deserialize: seq<byte> -> Option<Program>,   // node_from_bytes
    parseLauncherSolution: Program -> Option<LauncherSolution>,
    parseSingleton: Program -> Result<Option<SingletonLayer>, Error>,
    lineageProof: (SingletonLayer, Coin) -> LineageProof,
    parseStateArgs: Program -> Option<StateArgs>,
    parseStateSolution: Program -> Option<Program>,  // the state layer's inner solution
    runPuzzle: (Program, Program) -> Option<Program>,
    parseCondition: Program -> Condition,
    parseDelegationSolution: Program -> Option<DelegationSolution>,
    parseDelegationArgs: Program -> Option<Bytes32>, // the delegation layer's inner puzzle hash
    singletonPuzzleHash: (Bytes32, Bytes32) -> Bytes32,  // SingletonArgs::curry_tree_hash
    merkleRoot: seq<Bytes32> -> Bytes32)

  /** ADMIN_FILTER_PUZZLE_HASH and WRITER_FILTER_PUZZLE_HASH are the tree hashes of the filter puzzles. */
  function AdminFilterHash(env: Env): Bytes32
  {
    TreeHash(env.sha256, env.adminFilterPuzzle)
  }

  function WriterFilterHash(env: Env): Bytes32
  {
    TreeHash(env.sha256, env.writerFilterPuzzle)
  }
}
