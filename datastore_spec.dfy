/**
 * What `DataStoreInfo::build_datastore_info` and `DataStoreInfo::from_spend`
 * compute, as functions of their inputs. A data store is a singleton whose
 * inner puzzle is the NFT state layer; its state is the current coin, the
 * launcher id, the lineage proof, the metadata, the owner puzzle hash and the
 * delegated puzzles. `from_spend` derives the state of the child coin from a
 * spend of the parent (or of the launcher), either reading it from hints or
 * carrying it over from the caller's previous state.
 */
module DataStoreSpec {
  import opened Wrappers
  import opened Bytes
  import opened Clvm
  import opened Chain
  import opened DelegatedPuzzles

  datatype DataStoreInfo = DataStoreInfo(
    coin: Coin,
    launcherId: Bytes32,
    proof: Proof,
    metadata: Metadata,
    ownerPuzzleHash: Bytes32,
    delegatedPuzzles: Option<seq<DelegatedPuzzle>>)

  /**
   * The `while hints.len() > 1` loop of `build_datastore_info`: delegated
   * puzzles decoded off the front of the hints, in order, until at most one
   * hint is left; the first decoding error ends it.
   */
  function DecodeDelegatedPuzzles(env: Env, hints: seq<seq<byte>>): (r: Result<seq<DelegatedPuzzle>, Error>)
    ensures r.Ok? ==> forall i :: 0 <= i < |r.value| ==> Consistent(env, r.value[i])
    ensures r.Err? ==> r.error == MissingHint || r.error == Panicked
    decreases |hints|
  {
    if |hints| <= 1 then Ok([])
    else
      var d := FromHint(env, hints);
      match d.result
      case Err(e) => Err(e)
      case Ok(p) =>
        match DecodeDelegatedPuzzles(env, hints[d.drained..])
        case Err(e) => Err(e)
        case Ok(ps) => Ok([p] + ps)
  }

  /**
   * `build_datastore_info`: the first hint is the owner puzzle hash and must
   * be 32 bytes; more than one further hint holds delegated puzzles, at most
   * one means there are none.
   */
  function BuildDataStoreInfo(env: Env, coin: Coin, launcherId: Bytes32, proof: Proof, metadata: Metadata,
                              hints: seq<seq<byte>>): (r: Result<DataStoreInfo, Error>)
    ensures r.Ok? ==> r.value.coin == coin && r.value.launcherId == launcherId
                      && r.value.proof == proof && r.value.metadata == metadata
    ensures r.Ok? ==> |hints| >= 1 && r.value.ownerPuzzleHash == hints[0]
    ensures r.Ok? ==> (r.value.delegatedPuzzles.Some? <==> |hints| > 2)
    ensures r.Ok? && r.value.delegatedPuzzles.Some? ==>
      DecodeDelegatedPuzzles(env, hints[1..]) == Ok(r.value.delegatedPuzzles.value)
    ensures r.Err? <==> hints == [] || |hints[0]| != 32 || DecodeDelegatedPuzzles(env, hints[1..]).Err?
    ensures hints == [] || |hints[0]| != 32 ==> r == Err(MissingHint)
    ensures r.Err? ==> r.error == MissingHint || r.error == Panicked
  {
    if |hints| < 1 then Err(MissingHint)
    else if |hints[0]| != 32 then Err(MissingHint)
    else
      var ownerPuzzleHash: Bytes32 := hints[0];
      var rest := hints[1..];
      if |rest| > 1 then
        match DecodeDelegatedPuzzles(env, rest)
        case Err(e) => Err(if e == Panicked then Panicked else MissingHint)
        case Ok(ps) => Ok(DataStoreInfo(coin, launcherId, proof, metadata, ownerPuzzleHash, Some(ps)))
      else
        Ok(DataStoreInfo(coin, launcherId, proof, metadata, ownerPuzzleHash, None))
  }

  /** The hints of a list of delegated puzzles, one after another. */
  function EncodeAllHints(infos: seq<DelegatedPuzzleInfo>): seq<seq<byte>>
  {
    if infos == [] then [] else EncodeHints(infos[0]) + EncodeAllHints(infos[1..])
  }

  ghost predicate FeesNonZero(infos: seq<DelegatedPuzzleInfo>)
  {
    forall i :: 0 <= i < |infos| && infos[i].Oracle? ==> infos[i].oracleFee > 0
  }

  /**
   * The hints of a list of delegated puzzles, followed by at most one stray
   * hint, decode to puzzles with exactly those infos, in order, each with
   * the puzzle hash its info determines.
   */
  lemma {:induction false} DecodeEncodeAllHints(env: Env, infos: seq<DelegatedPuzzleInfo>, tail: seq<seq<byte>>)
    requires FeesNonZero(infos) && |tail| <= 1
    ensures var r := DecodeDelegatedPuzzles(env, EncodeAllHints(infos) + tail);
      r.Ok? && |r.value| == |infos|
      && forall i :: 0 <= i < |infos| ==>
           r.value[i].puzzleInfo == infos[i] && r.value[i].puzzleHash == InfoPuzzleHash(env, infos[i])
  {
    if infos != [] {
      var hs := EncodeAllHints(infos) + tail;
      var rest := EncodeAllHints(infos[1..]) + tail;
      assert hs == EncodeHints(infos[0]) + rest;
      FromHintEncodeHints(env, infos[0], rest);
      var d := FromHint(env, hs);
      assert hs[d.drained..] == rest;
      DecodeEncodeAllHints(env, infos[1..], tail);
    }
  }

  /**
   * An owner hash followed by the hints of a non-empty list of delegated
   * puzzles builds a data store with that owner and exactly those puzzles.
   */
  lemma BuildDataStoreInfoOfHints(env: Env, coin: Coin, launcherId: Bytes32, proof: Proof, metadata: Metadata,
                                  owner: Bytes32, infos: seq<DelegatedPuzzleInfo>)
    requires FeesNonZero(infos) && infos != []
    ensures var r := BuildDataStoreInfo(env, coin, launcherId, proof, metadata, [owner] + EncodeAllHints(infos));
      r.Ok? && r.value.ownerPuzzleHash == owner && r.value.delegatedPuzzles.Some?
      && |r.value.delegatedPuzzles.value| == |infos|
      && forall i :: 0 <= i < |infos| ==> r.value.delegatedPuzzles.value[i].puzzleInfo == infos[i]
  {
    var hs := [owner] + EncodeAllHints(infos);
    assert hs[1..] == EncodeAllHints(infos) + [];
    DecodeEncodeAllHints(env, infos, []);
    assert |EncodeHints(infos[0])| >= 2;
    assert |EncodeAllHints(infos)| >= 2;
  }

  /** `find` on the key-value list: the index of the first entry with the key. */
  function FindKey(items: seq<KeyValueItem>, key: seq<byte>): (r: Option<nat>)
    ensures r.Some? ==> r.value < |items| && items[r.value].key == key
                        && forall j :: 0 <= j < r.value ==> items[j].key != key
    ensures r.None? ==> forall j :: 0 <= j < |items| ==> items[j].key != key
  {
    if items == [] then None
    else if items[0].key == key then Some(0)
    else match FindKey(items[1..], key)
      case None => None
      case Some(i) => Some(i + 1)
  }

  /** `Bytes::from_clvm` on each value: the atoms' bytes, or `FromClvm` if one is a pair. */
  function AtomsOf(ps: seq<Program>): (r: Result<seq<seq<byte>>, Error>)
    ensures r.Ok? ==> |r.value| == |ps| && forall i :: 0 <= i < |ps| ==> ps[i] == Atom(r.value[i])
    ensures r.Err? <==> exists i :: 0 <= i < |ps| && ps[i].Pair?
    ensures r.Err? ==> r.error == FromClvm
  {
    if ps == [] then Ok([])
    else if ps[0].Pair? then Err(FromClvm)
    else match AtomsOf(ps[1..])
      case Err(e) => Err(e)
      case Ok(rest) => Ok([ps[0].bytes] + rest)
  }

  /** The launcher branch of `from_spend`: the spend creates the data store's first coin. */
  function FromLauncherSpend(env: Env, cs: CoinSpend, solution: Program): (r: Result<DataStoreInfo, Error>)
    ensures r.Ok? ==> env.parseLauncherSolution(solution).Some?
    ensures r.Ok? ==>
      var ls := env.parseLauncherSolution(solution).value;
      r.value.launcherId == env.coinId(cs.coin)
      && r.value.coin == Coin(env.coinId(cs.coin), ls.singletonPuzzleHash, ls.amount)
      && r.value.proof == Eve(cs.coin.parentCoinInfo, cs.coin.amount)
    ensures r.Ok? ==>
      var ls := env.parseLauncherSolution(solution).value;
      var m := FindKey(ls.keyValueList, MetadataReveal.Value());
      var h := FindKey(ls.keyValueList, DelegationLayerInfo.Value());
      m.Some? && h.Some? && ls.keyValueList[m.value].value != []
      && ListItems(ls.keyValueList[m.value].value[0]).Some?
      && AtomsOf(ls.keyValueList[h.value].value).Ok?
      && r == BuildDataStoreInfo(env, Coin(env.coinId(cs.coin), ls.singletonPuzzleHash, ls.amount),
                                 env.coinId(cs.coin), Eve(cs.coin.parentCoinInfo, cs.coin.amount),
                                 Metadata(ListItems(ls.keyValueList[m.value].value[0]).value),
                                 AtomsOf(ls.keyValueList[h.value].value).value)
    ensures env.parseLauncherSolution(solution).Some? ==>
      var ls := env.parseLauncherSolution(solution).value;
      var m := FindKey(ls.keyValueList, MetadataReveal.Value());
      var h := FindKey(ls.keyValueList, DelegationLayerInfo.Value());
      m.Some? && h.Some? && ls.keyValueList[m.value].value != []
      && ListItems(ls.keyValueList[m.value].value[0]).Some?
      && AtomsOf(ls.keyValueList[h.value].value).Ok?
      ==> r == BuildDataStoreInfo(env, Coin(env.coinId(cs.coin), ls.singletonPuzzleHash, ls.amount),
                                  env.coinId(cs.coin), Eve(cs.coin.parentCoinInfo, cs.coin.amount),
                                  Metadata(ListItems(ls.keyValueList[m.value].value[0]).value),
                                  AtomsOf(ls.keyValueList[h.value].value).value)
  {
    match env.parseLauncherSolution(solution)
    case None => Err(NonStandardLayer)
    case Some(ls) =>
      match FindKey(ls.keyValueList, MetadataReveal.Value())
      case None => Err(MissingHint)
      case Some(mi) =>
        match FindKey(ls.keyValueList, DelegationLayerInfo.Value())
        case None => Err(MissingHint)
        case Some(hi) =>
          var metadataValue := ls.keyValueList[mi].value;
          if metadataValue == [] then Err(MissingHint)
          else match ListItems(metadataValue[0])
            case None => Err(MissingHint)
            case Some(items) =>
              var launcherId := env.coinId(cs.coin);
              var newCoin := Coin(launcherId, ls.singletonPuzzleHash, ls.amount);
              var proof := Eve(cs.coin.parentCoinInfo, cs.coin.amount);
              match AtomsOf(ls.keyValueList[hi].value)
              case Err(e) => Err(e)
              case Ok(hints) => BuildDataStoreInfo(env, newCoin, launcherId, proof, Metadata(items), hints)
  }

  /** The singleton's inner puzzle is the NFT state layer: a curried program whose module hash is the layer's. */
  predicate IsStateLayer(env: Env, innerPuzzle: Program)
  {
    Uncurry(innerPuzzle).Some? && TreeHash(env.sha256, Uncurry(innerPuzzle).value.mod) == env.stateLayerModHash
  }

  /** The parsed spend of a non-launcher data store coin: its layers and its inner puzzle's output. */
  datatype StateLayerSpend = StateLayerSpend(
    singleton: SingletonLayer,
    stateArgs: StateArgs,
    innerSolution: Program,
    output: seq<Program>)

  /**
   * The layer parsing of the continuation branch: a singleton whose inner
   * puzzle is the NFT state layer, its curried arguments, the solution, and
   * the conditions the state layer's inner puzzle outputs when run.
   */
  function ParseStateLayerSpend(env: Env, cs: CoinSpend, solution: Program): (r: Result<StateLayerSpend, Error>)
    ensures r.Ok? ==>
      env.deserialize(cs.puzzleReveal).Some?
      && env.parseSingleton(env.deserialize(cs.puzzleReveal).value) == Ok(Some(r.value.singleton))
      && IsStateLayer(env, r.value.singleton.innerPuzzle)
      && env.parseStateArgs(Uncurry(r.value.singleton.innerPuzzle).value.args) == Some(r.value.stateArgs)
      && env.parseStateSolution(solution) == Some(r.value.innerSolution)
    ensures r.Ok? ==>
      env.runPuzzle(r.value.stateArgs.innerPuzzle, r.value.innerSolution).Some?
      && ListItems(env.runPuzzle(r.value.stateArgs.innerPuzzle, r.value.innerSolution).value) == Some(r.value.output)
    ensures env.deserialize(cs.puzzleReveal).None? ==> r == Err(NonStandardLayer)
    ensures env.deserialize(cs.puzzleReveal).Some? ==>
      var parsed := env.parseSingleton(env.deserialize(cs.puzzleReveal).value);
      (parsed.Err? ==> r == Err(parsed.error))
      && (parsed == Ok(None) ==> r == Err(NonStandardLayer))
      && (parsed.Ok? && parsed.value.Some? && !IsStateLayer(env, parsed.value.value.innerPuzzle)
          ==> r == Err(NonStandardLayer))
    ensures env.deserialize(cs.puzzleReveal).Some? ==>
      var parsed := env.parseSingleton(env.deserialize(cs.puzzleReveal).value);
      parsed.Ok? && parsed.value.Some? && IsStateLayer(env, parsed.value.value.innerPuzzle) ==>
        var stateArgs := env.parseStateArgs(Uncurry(parsed.value.value.innerPuzzle).value.args);
        var innerSolution := env.parseStateSolution(solution);
        ((stateArgs.None? || innerSolution.None?) ==> r == Err(FromClvm))
        && (stateArgs.Some? && innerSolution.Some? && env.runPuzzle(stateArgs.value.innerPuzzle, innerSolution.value).None?
            ==> r == Err(MismatchedOutput))
        && (stateArgs.Some? && innerSolution.Some? && env.runPuzzle(stateArgs.value.innerPuzzle, innerSolution.value).Some?
            ==> var output := env.runPuzzle(stateArgs.value.innerPuzzle, innerSolution.value).value;
                (ListItems(output).None? ==> r == Err(FromClvm))
                && (ListItems(output).Some?
                    ==> r == Ok(StateLayerSpend(parsed.value.value, stateArgs.value, innerSolution.value,
                                                ListItems(output).value))))
  {
    match env.deserialize(cs.puzzleReveal)
    case None => Err(NonStandardLayer)
    case Some(fullPuzzle) =>
      match env.parseSingleton(fullPuzzle)
      case Err(e) => Err(e)
      case Ok(None) => Err(NonStandardLayer)
      case Ok(Some(singleton)) =>
        if !IsStateLayer(env, singleton.innerPuzzle) then Err(NonStandardLayer)
        else
          match env.parseStateArgs(Uncurry(singleton.innerPuzzle).value.args)
            case None => Err(FromClvm)
            case Some(stateArgs) =>
              match env.parseStateSolution(solution)
              case None => Err(FromClvm)
              case Some(innerSolution) =>
                match env.runPuzzle(stateArgs.innerPuzzle, innerSolution)
                case None => Err(MismatchedOutput)
                case Some(output) =>
                  match ListItems(output)
                  case None => Err(FromClvm)
                  case Some(conditions) => Ok(StateLayerSpend(singleton, stateArgs, innerSolution, conditions))
  }

  /** Each output program as the condition parser reads it. */
  function ParseConditions(env: Env, ps: seq<Program>): seq<Condition>
  {
    seq(|ps|, i requires 0 <= i < |ps| => env.parseCondition(ps[i]))
  }

  /**
   * The metadata after the conditions: the metadata of the last
   * metadata-update condition, or `current` if there is none.
   */
  function LastMetadata(cs: seq<Condition>, current: Metadata): Metadata
  {
    if cs == [] then current
    else if cs[|cs| - 1].NewMetadata? then cs[|cs| - 1].metadata
    else LastMetadata(cs[..|cs| - 1], current)
  }

  /**
   * The last metadata-update condition decides the metadata; with none, the
   * curried metadata is kept.
   */
  lemma {:induction false} LastMetadataIsLast(cs: seq<Condition>, current: Metadata)
    ensures (forall i :: 0 <= i < |cs| ==> !cs[i].NewMetadata?) ==> LastMetadata(cs, current) == current
    ensures forall i :: 0 <= i < |cs| && cs[i].NewMetadata? && (forall j :: i < j < |cs| ==> !cs[j].NewMetadata?)
                        ==> LastMetadata(cs, current) == cs[i].metadata
  {
    if cs != [] && !cs[|cs| - 1].NewMetadata? {
      var p := cs[..|cs| - 1];
      LastMetadataIsLast(p, current);
      assert forall i :: 0 <= i < |p| ==> p[i] == cs[i];
    }
  }

  predicate IsOddCreateCoin(c: Condition)
  {
    c.CreateCoin? && c.amount % 2 == 1
  }

  /** `find` for a re-created singleton: the index of the first `CreateCoin` with an odd amount. */
  function FirstOddCreateCoin(cs: seq<Condition>): (r: Option<nat>)
    ensures r.Some? ==> r.value < |cs| && IsOddCreateCoin(cs[r.value])
                        && forall j :: 0 <= j < r.value ==> !IsOddCreateCoin(cs[j])
    ensures r.None? ==> forall j :: 0 <= j < |cs| ==> !IsOddCreateCoin(cs[j])
  {
    if cs == [] then None
    else if IsOddCreateCoin(cs[0]) then Some(0)
    else match FirstOddCreateCoin(cs[1..])
      case None => None
      case Some(i) => Some(i + 1)
  }

  /**
   * The hash of the NFT state layer curried over a metadata and an inner
   * puzzle hash, as the child coin's puzzle hash uses it: the module hash
   * and the metadata updater hash are curried as atoms, the metadata and
   * inner puzzle by their tree hashes.
   */
  function StateLayerPuzzleHash(env: Env, metadata: Metadata, innerPuzzleHash: Bytes32): Bytes32
  {
    var sha := env.sha256;
    CurryTreeHash(sha, env.stateLayerModHash,
                  [AtomHash(sha, env.stateLayerModHash), TreeHash(sha, MetadataProgram(metadata)),
                   AtomHash(sha, env.metadataUpdaterPuzzleHash), innerPuzzleHash])
  }

  /**
   * That hash is the tree hash of the state layer program curried over its
   * module hash, the metadata, the updater hash and the inner puzzle.
   */
  lemma StateLayerPuzzleHashMatches(env: Env, stateLayerMod: Program, metadata: Metadata, innerPuzzle: Program)
    requires TreeHash(env.sha256, stateLayerMod) == env.stateLayerModHash
    ensures StateLayerPuzzleHash(env, metadata, TreeHash(env.sha256, innerPuzzle))
         == TreeHash(env.sha256, Curry(stateLayerMod, [Atom(env.stateLayerModHash), MetadataProgram(metadata),
                                                       Atom(env.metadataUpdaterPuzzleHash), innerPuzzle]))
  {
    var args := [Atom(env.stateLayerModHash), MetadataProgram(metadata), Atom(env.metadataUpdaterPuzzleHash), innerPuzzle];
    CurryTreeHashMatches(env.sha256, stateLayerMod, args);
    assert TreeHashes(env.sha256, args)
        == [AtomHash(env.sha256, env.stateLayerModHash), TreeHash(env.sha256, MetadataProgram(metadata)),
            AtomHash(env.sha256, env.metadataUpdaterPuzzleHash), TreeHash(env.sha256, innerPuzzle)];
  }

  /** The re-created data store coin: a child of the spent coin, whose state layer holds the new metadata. */
  function ChildCoin(env: Env, cs: CoinSpend, spend: StateLayerSpend, metadata: Metadata, amount: u64): Coin
  {
    var innerHash := TreeHash(env.sha256, spend.stateArgs.innerPuzzle);
    Coin(env.coinId(cs.coin),
         env.singletonPuzzleHash(spend.singleton.launcherId, StateLayerPuzzleHash(env, metadata, innerHash)),
         amount)
  }

  /** The inner puzzle is the delegation layer: a curried program whose module hash is the layer's. */
  predicate IsDelegationLayer(env: Env, innerPuzzle: Program)
  {
    Uncurry(innerPuzzle).Some? && TreeHash(env.sha256, Uncurry(innerPuzzle).value.mod) == env.delegationLayerModHash
  }

  /**
   * The conditions the delegation layer's delegated puzzle outputs: the inner
   * solution names the puzzle to run and its solution. A solution that does
   * not parse and an output that is not a list are `FromClvm`, a failed run
   * is `MismatchedOutput`.
   */
  function DelegatedConditions(env: Env, innerSolution: Program): (r: Result<seq<Condition>, Error>)
    ensures env.parseDelegationSolution(innerSolution).None? ==> r == Err(FromClvm)
    ensures r == Err(MismatchedOutput) <==>
      env.parseDelegationSolution(innerSolution).Some?
      && var ds := env.parseDelegationSolution(innerSolution).value;
         env.runPuzzle(ds.puzzleReveal, ds.puzzleSolution).None?
    ensures r.Err? ==> r.error == FromClvm || r.error == MismatchedOutput
  {
    match env.parseDelegationSolution(innerSolution)
    case None => Err(FromClvm)
    case Some(ds) =>
      match env.runPuzzle(ds.puzzleReveal, ds.puzzleSolution)
      case None => Err(MismatchedOutput)
      case Some(output) =>
        match ListItems(output)
        case None => Err(FromClvm)
        case Some(ps) => Ok(ParseConditions(env, ps))
  }

  /**
   * The delegation layer is re-created unchanged: the inner puzzle is the
   * layer, and the delegated puzzle it runs outputs no odd `CreateCoin`.
   */
  predicate DelegationLayerStays(env: Env, innerPuzzle: Program, innerSolution: Program)
  {
    IsDelegationLayer(env, innerPuzzle)
    && DelegatedConditions(env, innerSolution).Ok?
    && FirstOddCreateCoin(DelegatedConditions(env, innerSolution).value).None?
  }

  /**
   * The coin leaves the delegation layer: the inner puzzle is the layer, and
   * the delegated puzzle it runs outputs an odd `CreateCoin`.
   */
  predicate DelegationLayerExits(env: Env, innerPuzzle: Program, innerSolution: Program)
  {
    IsDelegationLayer(env, innerPuzzle)
    && DelegatedConditions(env, innerSolution).Ok?
    && FirstOddCreateCoin(DelegatedConditions(env, innerSolution).value).Some?
  }

  /** The inner puzzle hash curried into a delegation layer, as `DelegationLayerArgs::from_clvm` reads it. */
  function DelegationInnerPuzzleHash(env: Env, innerPuzzle: Program): Option<Bytes32>
    requires IsDelegationLayer(env, innerPuzzle)
  {
    env.parseDelegationArgs(Uncurry(innerPuzzle).value.args)
  }

  /**
   * The owner of a re-created coin whose child carries no memos, and the
   * delegated puzzles to report. If the inner puzzle is the delegation layer,
   * its delegated puzzle is run: with no odd `CreateCoin` the layer stays and
   * its curried inner puzzle hash is the owner, with the caller's previous
   * delegated puzzles; otherwise the coin leaves the layer and the odd child's
   * puzzle hash is the owner. Any other inner puzzle is its own owner.
   */
  function DelegationOwner(env: Env, innerPuzzle: Program, innerSolution: Program,
                           prevDelegatedPuzzles: Option<seq<DelegatedPuzzle>>)
    : (r: Result<(Bytes32, Option<seq<DelegatedPuzzle>>), Error>)
    ensures r.Ok? ==> r.value.1 == (if DelegationLayerStays(env, innerPuzzle, innerSolution) then prevDelegatedPuzzles else None)
    ensures !IsDelegationLayer(env, innerPuzzle) ==> r == Ok((TreeHash(env.sha256, innerPuzzle), None))
    ensures DelegationLayerStays(env, innerPuzzle, innerSolution) ==>
      var innerPuzzleHash := DelegationInnerPuzzleHash(env, innerPuzzle);
      (innerPuzzleHash.None? ==> r == Err(Panicked))
      && (innerPuzzleHash.Some? ==> r == Ok((innerPuzzleHash.value, prevDelegatedPuzzles)))
    ensures DelegationLayerExits(env, innerPuzzle, innerSolution) ==>
      var conditions := DelegatedConditions(env, innerSolution).value;
      r == Ok((conditions[FirstOddCreateCoin(conditions).value].puzzleHash, None))
    ensures IsDelegationLayer(env, innerPuzzle) && DelegatedConditions(env, innerSolution).Err? ==>
      r == Err(DelegatedConditions(env, innerSolution).error)
    ensures r.Err? ==> r.error != MissingChild
  {
    if IsDelegationLayer(env, innerPuzzle) then
      match DelegatedConditions(env, innerSolution)
      case Err(e) => Err(e)
      case Ok(conditions) =>
        match FirstOddCreateCoin(conditions)
        case None =>
          (match DelegationInnerPuzzleHash(env, innerPuzzle)
           case None => Err(Panicked)
           case Some(innerPuzzleHash) => Ok((innerPuzzleHash, prevDelegatedPuzzles)))
        case Some(j) =>
          var childPuzzleHash: Bytes32 := conditions[j].puzzleHash;
          Ok((childPuzzleHash, None))
    else
      Ok((TreeHash(env.sha256, innerPuzzle), None))
  }

  /** The continuation branch of `from_spend`, after the layers are parsed. */
  function FromStateLayerSpend(env: Env, cs: CoinSpend, spend: StateLayerSpend,
                               prevDelegatedPuzzles: Option<seq<DelegatedPuzzle>>): (r: Result<DataStoreInfo, Error>)
    ensures r.Ok? ==> r.value.launcherId == spend.singleton.launcherId
    ensures r.Ok? ==> r.value.proof == Lineage(env.lineageProof(spend.singleton, cs.coin))
    ensures r.Ok? ==> r.value.coin.parentCoinInfo == env.coinId(cs.coin)
  {
    var conditions := ParseConditions(env, spend.output);
    var newMetadata := LastMetadata(conditions, spend.stateArgs.metadata);
    match FirstOddCreateCoin(conditions)
    case None => Err(MissingChild)
    case Some(k) =>
      var child := conditions[k];
      var newCoin := ChildCoin(env, cs, spend, newMetadata, child.amount);
      var launcherId := spend.singleton.launcherId;
      var proof := Lineage(env.lineageProof(spend.singleton, cs.coin));
      if |child.memos| >= 1 then
        BuildDataStoreInfo(env, newCoin, launcherId, proof, newMetadata, child.memos)
      else
        match DelegationOwner(env, spend.stateArgs.innerPuzzle, spend.innerSolution, prevDelegatedPuzzles)
        case Err(e) => Err(e)
        case Ok((owner, delegated)) => Ok(DataStoreInfo(newCoin, launcherId, proof, newMetadata, owner, delegated))
  }

  /**
   * `DataStoreInfo::from_spend`: the state of the data store coin a spend
   * creates. `prevDelegatedPuzzles` is used only when the spend reveals no
   * hints and the delegation layer creates no odd coin.
   */
  function FromSpend(env: Env, cs: CoinSpend, prevDelegatedPuzzles: Option<seq<DelegatedPuzzle>>)
    : (r: Result<DataStoreInfo, Error>)
    ensures env.deserialize(cs.solution).None? ==> r == Err(NonStandardLayer)
    ensures r.Ok? ==> r.value.coin.parentCoinInfo == env.coinId(cs.coin)
    ensures r.Ok? ==> (r.value.proof.Eve? <==> cs.coin.puzzleHash == env.launcherPuzzleHash)
  {
    match env.deserialize(cs.solution)
    case None => Err(NonStandardLayer)
    case Some(solution) =>
      if cs.coin.puzzleHash == env.launcherPuzzleHash then FromLauncherSpend(env, cs, solution)
      else
        match ParseStateLayerSpend(env, cs, solution)
        case Err(e) => Err(e)
        case Ok(spend) => FromStateLayerSpend(env, cs, spend, prevDelegatedPuzzles)
  }

  /**
   * The launcher branch's errors: a solution that does not parse is
   * `NonStandardLayer`; a missing "m" or "h" key, an empty "m" value or an
   * "m" value that is not a list is `MissingHint`; an "h" value that is not
   * an atom is `FromClvm`.
   */
  lemma FromLauncherSpendErrors(env: Env, cs: CoinSpend, solution: Program)
    ensures env.parseLauncherSolution(solution).None? ==> FromLauncherSpend(env, cs, solution) == Err(NonStandardLayer)
    ensures env.parseLauncherSolution(solution).Some? ==>
      var kv := env.parseLauncherSolution(solution).value.keyValueList;
      var m := FindKey(kv, MetadataReveal.Value());
      var h := FindKey(kv, DelegationLayerInfo.Value());
      ((m.None? || h.None? || kv[m.value].value == [] || ListItems(kv[m.value].value[0]).None?)
        ==> FromLauncherSpend(env, cs, solution) == Err(MissingHint))
      && (m.Some? && h.Some? && kv[m.value].value != [] && ListItems(kv[m.value].value[0]).Some?
          && AtomsOf(kv[h.value].value).Err?
        ==> FromLauncherSpend(env, cs, solution) == Err(FromClvm))
  {
  }

  /**
   * The continuation branch: the child is the first odd `CreateCoin` of the
   * output (none is `MissingChild`); the new coin is a child of the spent
   * coin with the child's amount, and the metadata is the last update's.
   */
  lemma FromStateLayerSpendChild(env: Env, cs: CoinSpend, spend: StateLayerSpend,
                                 prevDelegatedPuzzles: Option<seq<DelegatedPuzzle>>)
    ensures var conditions := ParseConditions(env, spend.output);
      FromStateLayerSpend(env, cs, spend, prevDelegatedPuzzles) == Err(MissingChild)
      <==> FirstOddCreateCoin(conditions).None?
    ensures var conditions := ParseConditions(env, spend.output);
      var r := FromStateLayerSpend(env, cs, spend, prevDelegatedPuzzles);
      r.Ok? ==>
        var child := conditions[FirstOddCreateCoin(conditions).value];
        var newMetadata := LastMetadata(conditions, spend.stateArgs.metadata);
        r.value.coin == ChildCoin(env, cs, spend, newMetadata, child.amount)
        && r.value.coin.parentCoinInfo == env.coinId(cs.coin)
        && r.value.coin.amount == child.amount
        && r.value.metadata == newMetadata
  {
  }

  /**
   * The continuation branch's owner: a child with memos is re-specified by
   * them; otherwise the owner and delegated puzzles are those of
   * `DelegationOwner`, which keeps `prevDelegatedPuzzles` only while the
   * delegation layer stays.
   */
  lemma FromStateLayerSpendOwner(env: Env, cs: CoinSpend, spend: StateLayerSpend,
                                 prevDelegatedPuzzles: Option<seq<DelegatedPuzzle>>)
    requires FirstOddCreateCoin(ParseConditions(env, spend.output)).Some?
    ensures var conditions := ParseConditions(env, spend.output);
      var child := conditions[FirstOddCreateCoin(conditions).value];
      var newMetadata := LastMetadata(conditions, spend.stateArgs.metadata);
      var r := FromStateLayerSpend(env, cs, spend, prevDelegatedPuzzles);
      |child.memos| >= 1 ==>
        r == BuildDataStoreInfo(env, ChildCoin(env, cs, spend, newMetadata, child.amount), spend.singleton.launcherId,
                                Lineage(env.lineageProof(spend.singleton, cs.coin)), newMetadata, child.memos)
    ensures var conditions := ParseConditions(env, spend.output);
      var child := conditions[FirstOddCreateCoin(conditions).value];
      var r := FromStateLayerSpend(env, cs, spend, prevDelegatedPuzzles);
      |child.memos| == 0 && r.Ok? ==>
        r.value.delegatedPuzzles
          == (if DelegationLayerStays(env, spend.stateArgs.innerPuzzle, spend.innerSolution) then prevDelegatedPuzzles else None)
    ensures var conditions := ParseConditions(env, spend.output);
      var child := conditions[FirstOddCreateCoin(conditions).value];
      var r := FromStateLayerSpend(env, cs, spend, prevDelegatedPuzzles);
      var inner := spend.stateArgs.innerPuzzle;
      |child.memos| == 0 ==>
        (IsDelegationLayer(env, inner) || (r.Ok? && r.value.ownerPuzzleHash == TreeHash(env.sha256, inner)
                                           && r.value.delegatedPuzzles.None?))
        && (DelegationLayerStays(env, inner, spend.innerSolution) && DelegationInnerPuzzleHash(env, inner).Some?
            ==> r.Ok? && r.value.ownerPuzzleHash == DelegationInnerPuzzleHash(env, inner).value
                && r.value.delegatedPuzzles == prevDelegatedPuzzles)
        && (DelegationLayerStays(env, inner, spend.innerSolution) && DelegationInnerPuzzleHash(env, inner).None?
            ==> r == Err(Panicked))
        && (DelegationLayerExits(env, inner, spend.innerSolution)
            ==> var delegated := DelegatedConditions(env, spend.innerSolution).value;
                r.Ok? && r.value.ownerPuzzleHash == delegated[FirstOddCreateCoin(delegated).value].puzzleHash
                && r.value.delegatedPuzzles.None?)
        && (IsDelegationLayer(env, inner) && DelegatedConditions(env, spend.innerSolution).Err?
            ==> r == Err(DelegatedConditions(env, spend.innerSolution).error))
  {
  }

  /**
   * A launch whose key-value list reveals metadata and only an owner hint
   * gives a data store with that owner, that metadata, no delegated puzzles,
   * the launcher coin's id as launcher id, and an eve proof.
   */
  lemma LaunchWithOwnerOnly(env: Env, cs: CoinSpend, solution: Program, singletonPuzzleHash: Bytes32, amount: u64,
                            items: seq<Program>, owner: Bytes32)
    requires cs.coin.puzzleHash == env.launcherPuzzleHash && env.deserialize(cs.solution) == Some(solution)
    requires env.parseLauncherSolution(solution)
          == Some(LauncherSolution(singletonPuzzleHash, amount,
                                   [KeyValueItem(MetadataReveal.Value(), [ListProgram(items)]),
                                    KeyValueItem(DelegationLayerInfo.Value(), [Atom(owner)])]))
    ensures FromSpend(env, cs, None)
         == Ok(DataStoreInfo(Coin(env.coinId(cs.coin), singletonPuzzleHash, amount), env.coinId(cs.coin),
                             Eve(cs.coin.parentCoinInfo, cs.coin.amount), Metadata(items), owner, None))
  {
    var kv := env.parseLauncherSolution(solution).value.keyValueList;
    HintKeysDistinct();
    assert FindKey(kv, MetadataReveal.Value()) == Some(0);
    assert FindKey(kv[1..], DelegationLayerInfo.Value()) == Some(0);
    assert FindKey(kv, DelegationLayerInfo.Value()) == Some(1);
    ListItemsOfListProgram(items);
    var ownerHints: seq<seq<byte>> := [owner];
    var ps := [Atom(owner)];
    assert ps[1..] == [];
    assert [ps[0].bytes] + [] == ownerHints;
    assert AtomsOf(kv[1].value) == Ok(ownerHints);
  }

  /**
   * A continuation whose odd child carries the memos of an owner followed by
   * an admin hint gives that owner and exactly one delegated puzzle, the
   * admin puzzle of the hinted inner puzzle hash.
   */
  lemma ContinueWithAdminHint(env: Env, cs: CoinSpend, spend: StateLayerSpend,
                              prevDelegatedPuzzles: Option<seq<DelegatedPuzzle>>, owner: Bytes32, adminInnerHash: Bytes32)
    requires var conditions := ParseConditions(env, spend.output);
      FirstOddCreateCoin(conditions).Some?
      && conditions[FirstOddCreateCoin(conditions).value].memos == [owner] + EncodeHints(Admin(adminInnerHash))
    ensures var r := FromStateLayerSpend(env, cs, spend, prevDelegatedPuzzles);
      r.Ok? && r.value.ownerPuzzleHash == owner
      && r.value.delegatedPuzzles.Some? && |r.value.delegatedPuzzles.value| == 1
      && r.value.delegatedPuzzles.value[0].puzzleInfo == Admin(adminInnerHash)
  {
    var conditions := ParseConditions(env, spend.output);
    var child := conditions[FirstOddCreateCoin(conditions).value];
    var newMetadata := LastMetadata(conditions, spend.stateArgs.metadata);
    assert EncodeAllHints([Admin(adminInnerHash)]) == EncodeHints(Admin(adminInnerHash));
    BuildDataStoreInfoOfHints(env, ChildCoin(env, cs, spend, newMetadata, child.amount), spend.singleton.launcherId,
                              Lineage(env.lineageProof(spend.singleton, cs.coin)), newMetadata, owner, [Admin(adminInnerHash)]);
  }
}
