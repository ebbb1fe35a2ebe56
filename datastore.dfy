/**
 * The driver's imperative code: `from_hint` takes hints off the front of the
 * caller's mutable list, `build_datastore_info` loops over a copy of the
 * hints, and `from_spend` folds the output conditions into a mutable
 * metadata and reassigns a mutable owner. Each method is proved to compute
 * its specification in `DataStoreSpec` / `DelegatedPuzzles`.
 */
module DataStore {
  import opened Wrappers
  import opened Bytes
  import opened Clvm
  import opened Chain
  import DelegatedPuzzles
  import opened DataStoreSpec

  /** A `Vec<Bytes>` of hints that the decoder consumes from the front. */
  class HintList {
    var items: seq<seq<byte>>

    constructor (items: seq<seq<byte>>)
      ensures this.items == items
    {
      this.items := items;
    }

    /** `drain(0..1).next().unwrap()`: removes the first hint and returns it. */
    method TakeFront() returns (hint: seq<byte>)
      requires |items| >= 1
      modifies this
      ensures hint == old(items)[0] && items == old(items)[1..]
    {
      hint := items[0];
      items := items[1..];
    }
  }

  /**
   * `DelegatedPuzzle::from_hint`: decodes one delegated puzzle off the front
   * of `hints`, leaving the hints after it in place.
   */
  method FromHint(env: Env, hints: HintList) returns (r: Result<DelegatedPuzzles.DelegatedPuzzle, Error>)
    modifies hints
    ensures var d := DelegatedPuzzles.FromHint(env, old(hints.items));
      r == d.result && hints.items == old(hints.items)[d.drained..]
  {
    if |hints.items| < 2 {
      return Err(MissingHint);
    }
    var tagHint := hints.TakeFront();
    var tag := DelegatedPuzzles.HintTag(tagHint);
    if tag.None? {
      return Err(Panicked);
    }
    var hashHint := hints.TakeFront();
    if |hashHint| != 32 {
      return Err(MissingHint);
    }
    var puzzleHash: Bytes32 := hashHint;
    if tag.value == DelegatedPuzzles.HintType.AdminPuzzle.Value() {
      return Ok(DelegatedPuzzles.HintedFilterPuzzle(env, DelegatedPuzzles.HintType.AdminPuzzle, puzzleHash));
    } else if tag.value == DelegatedPuzzles.HintType.WriterPuzzle.Value() {
      return Ok(DelegatedPuzzles.HintedFilterPuzzle(env, DelegatedPuzzles.HintType.WriterPuzzle, puzzleHash));
    } else if tag.value == DelegatedPuzzles.HintType.OraclePuzzle.Value() {
      if |hints.items| < 1 {
        return Err(MissingHint);
      }
      var feeHint := hints.TakeFront();
      var fee := DelegatedPuzzles.LowDigit64(feeHint);
      if fee.None? {
        return Err(Panicked);
      }
      var oraclePuzzle := DelegatedPuzzles.OracleLayerFullPuzzle(puzzleHash, fee.value);
      return Ok(DelegatedPuzzles.DelegatedPuzzle(TreeHash(env.sha256, oraclePuzzle),
                                                 DelegatedPuzzles.Oracle(puzzleHash, fee.value), Some(oraclePuzzle)));
    }
    return Err(MissingHint);
  }

  /** The decoded puzzles so far followed by the result of decoding the rest. */
  function Prepend(done: seq<DelegatedPuzzles.DelegatedPuzzle>, rest: Result<seq<DelegatedPuzzles.DelegatedPuzzle>, Error>)
    : Result<seq<DelegatedPuzzles.DelegatedPuzzle>, Error>
  {
    match rest
    case Err(e) => Err(e)
    case Ok(ps) => Ok(done + ps)
  }

  /** One turn of the decoding loop: the puzzle decoded first joins the ones already decoded. */
  lemma DecodeStep(env: Env, items: seq<seq<byte>>, done: seq<DelegatedPuzzles.DelegatedPuzzle>)
    requires |items| > 1 && DelegatedPuzzles.FromHint(env, items).result.Ok?
    ensures var d := DelegatedPuzzles.FromHint(env, items);
      Prepend(done, DecodeDelegatedPuzzles(env, items))
      == Prepend(done + [d.result.value], DecodeDelegatedPuzzles(env, items[d.drained..]))
  {
    var d := DelegatedPuzzles.FromHint(env, items);
    match DecodeDelegatedPuzzles(env, items[d.drained..])
    case Err(_) =>
    case Ok(ps) => assert done + ([d.result.value] + ps) == (done + [d.result.value]) + ps;
  }

  /** A decoding error ends the loop with that error. */
  lemma DecodeStepErr(env: Env, items: seq<seq<byte>>)
    requires |items| > 1 && DelegatedPuzzles.FromHint(env, items).result.Err?
    ensures DecodeDelegatedPuzzles(env, items) == Err(DelegatedPuzzles.FromHint(env, items).result.error)
  {
  }

  /**
   * The `while hints.len() > 1` loop of `build_datastore_info`: decodes
   * delegated puzzles off the front of `hints` until at most one is left.
   */
  method DecodeDelegatedPuzzlesLoop(env: Env, hints: HintList) returns (r: Result<seq<DelegatedPuzzles.DelegatedPuzzle>, Error>)
    modifies hints
    ensures r == DecodeDelegatedPuzzles(env, old(hints.items))
    ensures |hints.items| <= |old(hints.items)| && hints.items == old(hints.items)[|old(hints.items)| - |hints.items|..]
    ensures r.Ok? ==> |hints.items| <= 1
  {
    var decoded: seq<DelegatedPuzzles.DelegatedPuzzle> := [];
    match DecodeDelegatedPuzzles(env, hints.items) {
      case Err(_) =>
      case Ok(ps) => assert decoded + ps == ps;
    }
    while |hints.items| > 1
      invariant Prepend(decoded, DecodeDelegatedPuzzles(env, hints.items)) == DecodeDelegatedPuzzles(env, old(hints.items))
      invariant |hints.items| <= |old(hints.items)| && hints.items == old(hints.items)[|old(hints.items)| - |hints.items|..]
      decreases |hints.items|
    {
      ghost var before := hints.items;
      var p := FromHint(env, hints);
      if p.Err? {
        DecodeStepErr(env, before);
        return Err(p.error);
      }
      DecodeStep(env, before, decoded);
      decoded := decoded + [p.value];
    }
    assert decoded + [] == decoded;
    return Ok(decoded);
  }

  /** `DataStoreInfo::build_datastore_info`. */
  method BuildDataStoreInfo(env: Env, coin: Coin, launcherId: Bytes32, proof: Proof, metadata: Metadata,
                            hints: seq<seq<byte>>) returns (r: Result<DataStoreInfo, Error>)
    ensures r == DataStoreSpec.BuildDataStoreInfo(env, coin, launcherId, proof, metadata, hints)
  {
    var remaining := new HintList(hints);
    if |remaining.items| < 1 {
      return Err(MissingHint);
    }
    var ownerHint := remaining.TakeFront();
    if |ownerHint| != 32 {
      return Err(MissingHint);
    }
    var ownerPuzzleHash: Bytes32 := ownerHint;
    var delegatedPuzzles: Option<seq<DelegatedPuzzles.DelegatedPuzzle>> := None;
    if |remaining.items| > 1 {
      var decoded := DecodeDelegatedPuzzlesLoop(env, remaining);
      if decoded.Err? {
        return Err(if decoded.error == Panicked then Panicked else MissingHint);
      }
      delegatedPuzzles := Some(decoded.value);
    }
    return Ok(DataStoreInfo(coin, launcherId, proof, metadata, ownerPuzzleHash, delegatedPuzzles));
  }

  /**
   * The metadata update of `from_spend`: each metadata-update condition in
   * the output replaces the metadata, in order.
   */
  method FoldMetadata(conditions: seq<Condition>, current: Metadata) returns (newMetadata: Metadata)
    ensures newMetadata == LastMetadata(conditions, current)
  {
    newMetadata := current;
    for i := 0 to |conditions|
      invariant newMetadata == LastMetadata(conditions[..i], current)
    {
      if conditions[i].NewMetadata? {
        newMetadata := conditions[i].metadata;
      }
      assert conditions[..i + 1][..i] == conditions[..i];
    }
    assert conditions[..|conditions|] == conditions;
  }

  /** `DataStoreInfo::from_spend`. */
  method FromSpend(env: Env, cs: CoinSpend, prevDelegatedPuzzles: Option<seq<DelegatedPuzzles.DelegatedPuzzle>>)
    returns (r: Result<DataStoreInfo, Error>)
    ensures r == DataStoreSpec.FromSpend(env, cs, prevDelegatedPuzzles)
  {
    var solution := env.deserialize(cs.solution);
    if solution.None? {
      return Err(NonStandardLayer);
    }
    if cs.coin.puzzleHash == env.launcherPuzzleHash {
      r := FromLauncherSpend(env, cs, solution.value);
      return;
    }
    var parsed := ParseStateLayerSpend(env, cs, solution.value);
    if parsed.Err? {
      return Err(parsed.error);
    }
    r := FromStateLayerSpend(env, cs, parsed.value, prevDelegatedPuzzles);
  }

  /** The launcher branch of `from_spend`. */
  method FromLauncherSpend(env: Env, cs: CoinSpend, solution: Program) returns (r: Result<DataStoreInfo, Error>)
    ensures r == DataStoreSpec.FromLauncherSpend(env, cs, solution)
  {
    var launcherSolution := env.parseLauncherSolution(solution);
    if launcherSolution.None? {
      return Err(NonStandardLayer);
    }
    var ls := launcherSolution.value;
    var metadataInfo := FindKey(ls.keyValueList, DelegatedPuzzles.HintKey.MetadataReveal.Value());
    if metadataInfo.None? {
      return Err(MissingHint);
    }
    var delegationLayerInfo := FindKey(ls.keyValueList, DelegatedPuzzles.HintKey.DelegationLayerInfo.Value());
    if delegationLayerInfo.None? {
      return Err(MissingHint);
    }
    var metadataValue := ls.keyValueList[metadataInfo.value].value;
    if metadataValue == [] {
      return Err(MissingHint);
    }
    var items := ListItems(metadataValue[0]);
    if items.None? {
      return Err(MissingHint);
    }
    var launcherId := env.coinId(cs.coin);
    var newCoin := Coin(launcherId, ls.singletonPuzzleHash, ls.amount);
    var proof := Eve(cs.coin.parentCoinInfo, cs.coin.amount);
    var hints := AtomsOf(ls.keyValueList[delegationLayerInfo.value].value);
    if hints.Err? {
      return Err(hints.error);
    }
    r := BuildDataStoreInfo(env, newCoin, launcherId, proof, Metadata(items.value), hints.value);
  }

  /** The continuation branch of `from_spend`, after the layers are parsed. */
  method FromStateLayerSpend(env: Env, cs: CoinSpend, spend: StateLayerSpend,
                             prevDelegatedPuzzles: Option<seq<DelegatedPuzzles.DelegatedPuzzle>>)
    returns (r: Result<DataStoreInfo, Error>)
    ensures r == DataStoreSpec.FromStateLayerSpend(env, cs, spend, prevDelegatedPuzzles)
  {
    var conditions := ParseConditions(env, spend.output);
    var newMetadata := FoldMetadata(conditions, spend.stateArgs.metadata);
    var k := FirstOddCreateCoin(conditions);
    if k.None? {
      return Err(MissingChild);
    }
    var child := conditions[k.value];
    var newCoin := ChildCoin(env, cs, spend, newMetadata, child.amount);
    var launcherId := spend.singleton.launcherId;
    var proof := Lineage(env.lineageProof(spend.singleton, cs.coin));
    if |child.memos| >= 1 {
      r := BuildDataStoreInfo(env, newCoin, launcherId, proof, newMetadata, child.memos);
      return;
    }
    var innerPuzzle := spend.stateArgs.innerPuzzle;
    var ownerPuzzleHash := TreeHash(env.sha256, innerPuzzle);
    var layer := Uncurry(innerPuzzle);
    if IsDelegationLayer(env, innerPuzzle) {
      var ds := env.parseDelegationSolution(spend.innerSolution);
      if ds.None? {
        return Err(FromClvm);
      }
      var output := env.runPuzzle(ds.value.puzzleReveal, ds.value.puzzleSolution);
      if output.None? {
        return Err(MismatchedOutput);
      }
      var ps := ListItems(output.value);
      if ps.None? {
        return Err(FromClvm);
      }
      var delegatedConditions := ParseConditions(env, ps.value);
      var j := FirstOddCreateCoin(delegatedConditions);
      if j.None? {
        var innerPuzzleHash := env.parseDelegationArgs(layer.value.args);
        if innerPuzzleHash.None? {
          return Err(Panicked);
        }
        return Ok(DataStoreInfo(newCoin, launcherId, proof, newMetadata, innerPuzzleHash.value, prevDelegatedPuzzles));
      }
      ownerPuzzleHash := delegatedConditions[j.value].puzzleHash;
    }
    return Ok(DataStoreInfo(newCoin, launcherId, proof, newMetadata, ownerPuzzleHash, None));
  }
}
