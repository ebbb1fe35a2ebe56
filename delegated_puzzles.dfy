/**
 * Delegated puzzles of a data store (admin, writer and oracle layers) and
 * the hint codec that rebuilds them from the memos of a data store coin.
 *
 * An admin or writer puzzle is the admin or writer filter curried over an
 * inner puzzle; an oracle puzzle is meant to pay a fee to a puzzle hash and
 * announce `$`, though the program built here quotes a single pair of those
 * two conditions rather than the list of both. A delegated puzzle is hinted
 * as a tag (1, 2 or 3), a 32-byte hash and, for the oracle, the fee.
 */
module DelegatedPuzzles {
  import opened Wrappers
  import opened Bytes
  import opened Clvm
  import opened Chain

  /** The tag that starts a hinted delegated puzzle. 0 is not used, since it reads like nil. */
  datatype HintType = AdminPuzzle | WriterPuzzle | OraclePuzzle
  {
    function Value(): (v: byte)
      ensures v != 0
    {
      match this
      case AdminPuzzle => 1
      case WriterPuzzle => 2
      case OraclePuzzle => 3
    }
  }

  /** The hint type a tag byte names, as the tag comparisons of `from_hint` decide it. */
  function HintTypeOf(tag: byte): (t: Option<HintType>)
    ensures t.Some? ==> t.value.Value() == tag
    ensures t.None? ==> forall h: HintType :: h.Value() != tag
  {
    if tag == AdminPuzzle.Value() then Some(AdminPuzzle)
    else if tag == WriterPuzzle.Value() then Some(WriterPuzzle)
    else if tag == OraclePuzzle.Value() then Some(OraclePuzzle)
    else None
  }

  /** Every hint type's tag byte names that hint type. */
  lemma HintTypeOfValue(t: HintType)
    ensures HintTypeOf(t.Value()) == Some(t)
  {
  }

  /** The keys of the launcher's key-value list that carry the data store's initial state. */
  datatype HintKey = MetadataReveal | DelegationLayerInfo
  {
    function Value(): seq<byte>
    {
      match this
      case MetadataReveal => [0x6d]       // "m", the metadata
      case DelegationLayerInfo => [0x68]  // "h", the hints
    }
  }

  lemma HintKeysDistinct()
    ensures MetadataReveal.Value() != DelegationLayerInfo.Value()
    ensures |MetadataReveal.Value()| == 1 && |DelegationLayerInfo.Value()| == 1
  {
  }

  datatype DelegatedPuzzleInfo =
    | Admin(innerPuzzleHash: Bytes32)
    | Writer(innerPuzzleHash: Bytes32)
    | Oracle(oraclePuzzleHash: Bytes32, oracleFee: u64)

  /** A delegated puzzle: its hash, what it is, and the full program when it is known. */
  datatype DelegatedPuzzle = DelegatedPuzzle(puzzleHash: Bytes32, puzzleInfo: DelegatedPuzzleInfo, fullPuzzle: Option<Program>)

  /** The hash of a filter curried over an inner puzzle, computed from the inner puzzle's hash alone. */
  function FilterPuzzleHash(env: Env, filter: Program, innerPuzzleHash: Bytes32): Bytes32
  {
    CurryTreeHash(env.sha256, TreeHash(env.sha256, filter), [innerPuzzleHash])
  }

  /** `admin_layer_full_puzzle`: the admin filter curried over the inner puzzle. */
  function AdminLayerFullPuzzle(env: Env, innerPuzzle: Program): (p: Program)
    ensures TreeHash(env.sha256, p) == FilterPuzzleHash(env, env.adminFilterPuzzle, TreeHash(env.sha256, innerPuzzle))
  {
    CurryTreeHashMatches(env.sha256, env.adminFilterPuzzle, [innerPuzzle]);
    assert TreeHashes(env.sha256, [innerPuzzle]) == [TreeHash(env.sha256, innerPuzzle)];
    Curry(env.adminFilterPuzzle, [innerPuzzle])
  }

  /** `writer_layer_full_puzzle`: the writer filter curried over the inner puzzle. */
  function WriterLayerFullPuzzle(env: Env, innerPuzzle: Program): (p: Program)
    ensures TreeHash(env.sha256, p) == FilterPuzzleHash(env, env.writerFilterPuzzle, TreeHash(env.sha256, innerPuzzle))
  {
    CurryTreeHashMatches(env.sha256, env.writerFilterPuzzle, [innerPuzzle]);
    assert TreeHashes(env.sha256, [innerPuzzle]) == [TreeHash(env.sha256, innerPuzzle)];
    Curry(env.writerFilterPuzzle, [innerPuzzle])
  }

  /**
   * The puzzle hash a delegated puzzle with this info has: the filter curried
   * over the inner puzzle hash for admin and writer, the hash of the oracle
   * program for the oracle.
   */
  function InfoPuzzleHash(env: Env, info: DelegatedPuzzleInfo): Bytes32
  {
    match info
    case Admin(h) => FilterPuzzleHash(env, env.adminFilterPuzzle, h)
    case Writer(h) => FilterPuzzleHash(env, env.writerFilterPuzzle, h)
    case Oracle(ph, fee) => TreeHash(env.sha256, OracleLayerFullPuzzle(ph, fee))
  }

  /**
   * The invariant every delegated puzzle the driver builds keeps: its hash is
   * the one its info determines, and a full program, when present, hashes to it.
   */
  ghost predicate Consistent(env: Env, d: DelegatedPuzzle)
  {
    d.puzzleHash == InfoPuzzleHash(env, d.puzzleInfo)
    && (d.fullPuzzle.Some? ==> TreeHash(env.sha256, d.fullPuzzle.value) == d.puzzleHash)
  }

  /** `from_admin_inner_puzzle`. */
  function FromAdminInnerPuzzle(env: Env, innerPuzzle: Program): (d: DelegatedPuzzle)
    ensures d.puzzleInfo == Admin(TreeHash(env.sha256, innerPuzzle))
    ensures d.fullPuzzle == Some(Curry(env.adminFilterPuzzle, [innerPuzzle]))
    ensures Consistent(env, d)
  {
    var innerHash := TreeHash(env.sha256, innerPuzzle);
    DelegatedPuzzle(FilterPuzzleHash(env, env.adminFilterPuzzle, innerHash), Admin(innerHash),
                    Some(AdminLayerFullPuzzle(env, innerPuzzle)))
  }

  /** `from_writer_inner_puzzle`. */
  function FromWriterInnerPuzzle(env: Env, innerPuzzle: Program): (d: DelegatedPuzzle)
    ensures d.puzzleInfo == Writer(TreeHash(env.sha256, innerPuzzle))
    ensures d.fullPuzzle == Some(Curry(env.writerFilterPuzzle, [innerPuzzle]))
    ensures Consistent(env, d)
  {
    var innerHash := TreeHash(env.sha256, innerPuzzle);
    DelegatedPuzzle(FilterPuzzleHash(env, env.writerFilterPuzzle, innerHash), Writer(innerHash),
                    Some(WriterLayerFullPuzzle(env, innerPuzzle)))
  }

  const CreateCoinOpcode: int := 51
  const CreatePuzzleAnnouncementOpcode: int := 62

  /**
   * `oracle_layer_full_puzzle`: the tree `(1 . ((c1 . c2)))` with
   * c1 = `(51 oracle_puzzle_hash oracle_fee)` and c2 = `(62 "$")`; the model
   * builds this tree as the code does and does not evaluate it.
   */
  function OracleLayerFullPuzzle(oraclePuzzleHash: Bytes32, oracleFee: u64): Program
  {
    var createCoin := ListProgram([Atom(ClvmNumber(CreateCoinOpcode)), Atom(oraclePuzzleHash), Atom(ClvmNumber(oracleFee))]);
    var announce := ListProgram([Atom(ClvmNumber(CreatePuzzleAnnouncementOpcode)), Atom(['$' as byte])]);
    Pair(Atom([1]), Pair(Pair(createCoin, announce), Nil))
  }

  /** The oracle program determines its puzzle hash and fee. */
  lemma OracleLayerFullPuzzleInjective(ph1: Bytes32, fee1: u64, ph2: Bytes32, fee2: u64)
    requires OracleLayerFullPuzzle(ph1, fee1) == OracleLayerFullPuzzle(ph2, fee2)
    ensures ph1 == ph2 && fee1 == fee2
  {
    var n1, n2 := ClvmNumber(fee1), ClvmNumber(fee2);
    assert [Atom(ClvmNumber(CreateCoinOpcode)), Atom(ph1), Atom(n1)][2] == Atom(n1);
    ListItemsOfListProgram([Atom(ClvmNumber(CreateCoinOpcode)), Atom(ph1), Atom(n1)]);
    ListItemsOfListProgram([Atom(ClvmNumber(CreateCoinOpcode)), Atom(ph2), Atom(n2)]);
    assert n1 == n2;
    assert FromSignedBytesBe(n1) == fee1 && FromSignedBytesBe(n2) == fee2;
  }

  /**
   * The tree quotes a one-element list whose element is the pair of the two
   * conditions, so the head of that element is the first condition itself,
   * not an opcode atom.
   */
  lemma OracleLayerQuotesOnePair(oraclePuzzleHash: Bytes32, oracleFee: u64)
    ensures var p := OracleLayerFullPuzzle(oraclePuzzleHash, oracleFee);
      p.Pair? && p.first == Atom(OpQuote)
      && ListItems(p.rest).Some? && |ListItems(p.rest).value| == 1
      && ListItems(p.rest).value[0].Pair? && ListItems(p.rest).value[0].first.Pair?
  {
  }

  /** `new_oracle`. */
  function NewOracle(env: Env, oraclePuzzleHash: Bytes32, oracleFee: u64): (d: DelegatedPuzzle)
    ensures d.puzzleInfo == Oracle(oraclePuzzleHash, oracleFee)
    ensures d.fullPuzzle.Some? && Consistent(env, d)
  {
    var full := OracleLayerFullPuzzle(oraclePuzzleHash, oracleFee);
    DelegatedPuzzle(TreeHash(env.sha256, full), Oracle(oraclePuzzleHash, oracleFee), Some(full))
  }

  /**
   * `BigInt::from_signed_bytes_be(s).to_u32_digits().1[0]`: the low 32-bit
   * digit of the magnitude, or None where the digit vector is empty (the
   * integer is zero) and indexing it panics.
   */
  function LowDigit32(s: seq<byte>): (d: Option<nat>)
    ensures d.None? <==> FromSignedBytesBe(s) == 0
    ensures d.Some? ==> d.value < 0x1_0000_0000
  {
    var m := Abs(FromSignedBytesBe(s));
    if m == 0 then None else Some(m % 0x1_0000_0000)
  }

  /** `BigInt::from_signed_bytes_be(s).to_u64_digits().1[0]`, None where that panics. */
  function LowDigit64(s: seq<byte>): (d: Option<u64>)
    ensures d.None? <==> FromSignedBytesBe(s) == 0
  {
    var m := Abs(FromSignedBytesBe(s));
    if m == 0 then None else Some(m % 0x1_0000_0000_0000_0000)
  }

  /** The tag byte of a hint: the low digit truncated to `u8`, None where decoding it panics. */
  function HintTag(s: seq<byte>): Option<byte>
  {
    match LowDigit32(s)
    case None => None
    case Some(digit) => Some(digit % 256)
  }

  /** What `from_hint` returns, and how many hints it took off the front of the list. */
  datatype HintDecoding = HintDecoding(result: Result<DelegatedPuzzle, Error>, drained: nat)

  /** The admin or writer puzzle a hint names: its hash only, no full program. */
  function HintedFilterPuzzle(env: Env, hintType: HintType, innerPuzzleHash: Bytes32): DelegatedPuzzle
    requires hintType != OraclePuzzle
  {
    if hintType == AdminPuzzle then
      DelegatedPuzzle(FilterPuzzleHash(env, env.adminFilterPuzzle, innerPuzzleHash), Admin(innerPuzzleHash), None)
    else
      DelegatedPuzzle(FilterPuzzleHash(env, env.writerFilterPuzzle, innerPuzzleHash), Writer(innerPuzzleHash), None)
  }

  /**
   * `DelegatedPuzzle::from_hint` on the hint list `hints`: the decoded puzzle
   * or the error, and the number of hints taken. Tag 1 and 2 take two hints,
   * tag 3 three; the hash hint must be 32 bytes long.
   */
  function FromHint(env: Env, hints: seq<seq<byte>>): (d: HintDecoding)
    ensures d.drained <= |hints|
    ensures d.result.Ok? ==> d.drained == (if d.result.value.puzzleInfo.Oracle? then 3 else 2)
    ensures d.result.Ok? ==> Consistent(env, d.result.value)
  {
    if |hints| < 2 then HintDecoding(Err(MissingHint), 0)
    else match HintTag(hints[0])
      case None => HintDecoding(Err(Panicked), 1)
      case Some(tag) =>
        if |hints[1]| != 32 then HintDecoding(Err(MissingHint), 2)
        else
          var puzzleHash: Bytes32 := hints[1];
          if tag == AdminPuzzle.Value() then
            HintDecoding(Ok(HintedFilterPuzzle(env, AdminPuzzle, puzzleHash)), 2)
          else if tag == WriterPuzzle.Value() then
            HintDecoding(Ok(HintedFilterPuzzle(env, WriterPuzzle, puzzleHash)), 2)
          else if tag == OraclePuzzle.Value() then
            if |hints| - 2 < 1 then HintDecoding(Err(MissingHint), 2)
            else match LowDigit64(hints[2])
              case None => HintDecoding(Err(Panicked), 3)
              case Some(fee) =>
                var oraclePuzzle := OracleLayerFullPuzzle(puzzleHash, fee);
                HintDecoding(Ok(DelegatedPuzzle(TreeHash(env.sha256, oraclePuzzle), Oracle(puzzleHash, fee), Some(oraclePuzzle))), 3)
          else HintDecoding(Err(MissingHint), 2)
  }

  /**
   * `from_hint` fails with `MissingHint` exactly when fewer than two hints
   * remain, or the tag decodes and then the hash hint is not 32 bytes, the
   * tag is not 1, 2 or 3, or the tag is 3 and no fee hint follows.
   */
  lemma FromHintMissingHint(env: Env, hints: seq<seq<byte>>)
    ensures FromHint(env, hints).result == Err(MissingHint)
        <==> |hints| < 2
             || (HintTag(hints[0]).Some?
                 && (|hints[1]| != 32
                     || HintTypeOf(HintTag(hints[0]).value).None?
                     || (HintTag(hints[0]).value == 3 && |hints| < 3)))
  {
  }

  /** `from_hint` panics exactly when the tag integer is zero, or the oracle's fee integer is. */
  lemma FromHintPanics(env: Env, hints: seq<seq<byte>>)
    ensures FromHint(env, hints).result == Err(Panicked)
        <==> |hints| >= 2
             && (FromSignedBytesBe(hints[0]) == 0
                 || (|hints[1]| == 32 && HintTag(hints[0]) == Some(3) && |hints| >= 3
                     && FromSignedBytesBe(hints[2]) == 0))
  {
  }

  /** A hinted admin or writer puzzle has no full program and carries the hinted hash as its info. */
  lemma FromHintFilterPuzzle(env: Env, hints: seq<seq<byte>>)
    requires FromHint(env, hints).result.Ok?
    ensures var d := FromHint(env, hints).result.value;
      !d.puzzleInfo.Oracle? ==>
        d.fullPuzzle.None? && d.puzzleInfo.innerPuzzleHash == hints[1]
        && d.puzzleInfo.Admin? == (HintTag(hints[0]) == Some(1))
    ensures var d := FromHint(env, hints).result.value;
      d.puzzleInfo.Oracle? ==> d == NewOracle(env, hints[1], LowDigit64(hints[2]).value)
  {
  }

  /**
   * A hinted admin or writer puzzle has the puzzle hash of the puzzle
   * `from_admin_inner_puzzle` / `from_writer_inner_puzzle` build from an
   * inner puzzle whose tree hash is the hint; with that inner puzzle revealed,
   * `get_full_puzzle` rebuilds a program with that hash.
   */
  lemma HintedFilterMatchesInnerPuzzle(env: Env, hints: seq<seq<byte>>, innerPuzzle: Program)
    requires FromHint(env, hints).result.Ok? && |hints[1]| == 32
    requires hints[1] == TreeHash(env.sha256, innerPuzzle)
    ensures var d := FromHint(env, hints).result.value;
      (d.puzzleInfo.Admin? ==> d.puzzleHash == FromAdminInnerPuzzle(env, innerPuzzle).puzzleHash)
      && (d.puzzleInfo.Writer? ==> d.puzzleHash == FromWriterInnerPuzzle(env, innerPuzzle).puzzleHash)
    ensures var d := FromHint(env, hints).result.value;
      GetFullPuzzle(env, d, Some(innerPuzzle)).Ok?
      && TreeHash(env.sha256, GetFullPuzzle(env, d, Some(innerPuzzle)).value) == d.puzzleHash
  {
    GetFullPuzzleHash(env, FromHint(env, hints).result.value, Some(innerPuzzle));
  }

  /**
   * The hash `from_hint` computes for a hinted admin or writer puzzle as the
   * code stands: the hint is curried as a `Bytes32`, which the curry hasher
   * encodes as an atom, so the filter is curried over the hash of that atom
   * rather than over the inner puzzle hash the hint carries.
   */
  function HintedFilterHashAsWritten(env: Env, filter: Program, hint: Bytes32): Bytes32
  {
    CurryTreeHash(env.sha256, TreeHash(env.sha256, filter), [AtomHash(env.sha256, hint)])
  }

  /**
   * As written, the hash decoded from an admin or writer hint differs from
   * the hash of the puzzle `from_admin_inner_puzzle` or
   * `from_writer_inner_puzzle` builds over an inner puzzle with that hint as
   * its hash, unless SHA-256 collides or the hint is a fixed point of the
   * atom hash.
   */
  lemma HintedFilterHashAsWrittenMismatch(env: Env, innerPuzzle: Program)
    requires AtomHash(env.sha256, TreeHash(env.sha256, innerPuzzle)) != TreeHash(env.sha256, innerPuzzle)
    ensures HintedFilterHashAsWritten(env, env.adminFilterPuzzle, TreeHash(env.sha256, innerPuzzle))
              != FromAdminInnerPuzzle(env, innerPuzzle).puzzleHash
            || HasCollision(env.sha256)
    ensures HintedFilterHashAsWritten(env, env.writerFilterPuzzle, TreeHash(env.sha256, innerPuzzle))
              != FromWriterInnerPuzzle(env, innerPuzzle).puzzleHash
            || HasCollision(env.sha256)
  {
    var h := TreeHash(env.sha256, innerPuzzle);
    CurryTreeHashInjective(env.sha256, AdminFilterHash(env), AtomHash(env.sha256, h), h);
    CurryTreeHashInjective(env.sha256, WriterFilterHash(env), AtomHash(env.sha256, h), h);
  }

  /** The hints that name a delegated puzzle: its tag, its hash and, for the oracle, its fee. */
  function EncodeHints(info: DelegatedPuzzleInfo): (hs: seq<seq<byte>>)
    ensures |hs| == (if info.Oracle? then 3 else 2)
  {
    match info
    case Admin(h) => [[AdminPuzzle.Value()], h]
    case Writer(h) => [[WriterPuzzle.Value()], h]
    case Oracle(ph, fee) => [[OraclePuzzle.Value()], ph, ToSignedBytesBe(fee)]
  }

  /**
   * Decoding the hints of a delegated puzzle gives back its info, takes
   * exactly those hints and leaves the rest, for every info whose oracle fee
   * is not zero (a zero fee makes `from_hint` panic).
   */
  lemma FromHintEncodeHints(env: Env, info: DelegatedPuzzleInfo, rest: seq<seq<byte>>)
    requires info.Oracle? ==> info.oracleFee > 0
    ensures var d := FromHint(env, EncodeHints(info) + rest);
      d.result.Ok? && d.result.value.puzzleInfo == info && d.drained == |EncodeHints(info)|
      && d.result.value.puzzleHash == InfoPuzzleHash(env, info)
  {
    var hs := EncodeHints(info) + rest;
    assert hs[0] == EncodeHints(info)[0] && hs[1] == EncodeHints(info)[1];
    match info
    case Admin(h) => SingleByteTag(1);
    case Writer(h) => SingleByteTag(2);
    case Oracle(ph, fee) =>
      SingleByteTag(3);
      SignedRoundTrip(fee);
      assert hs[2] == ToSignedBytesBe(fee);
      assert LowDigit64(hs[2]) == Some(fee);
  }

  lemma SingleByteTag(tag: byte)
    requires 0 < tag < 128
    ensures HintTag([tag]) == Some(tag)
  {
    assert FromSignedBytesBe([tag]) == tag;
  }

  /** The tag is the magnitude's low byte: -1 and 257 both read as the admin tag. */
  lemma FromHintTagMagnitude(env: Env, h: Bytes32, rest: seq<seq<byte>>)
    ensures FromHint(env, [[0xFF], h] + rest).result == Ok(HintedFilterPuzzle(env, AdminPuzzle, h))
    ensures FromHint(env, [[0x01, 0x01], h] + rest).result == Ok(HintedFilterPuzzle(env, AdminPuzzle, h))
  {
    assert FromSignedBytesBe([0x01, 0x01]) == 257 by {
      assert [0x01, 0x01][..1] == [0x01];
    }
  }

  /** A tag that reads as zero, the empty hint included, panics. */
  lemma FromHintZeroTag(env: Env, h: Bytes32, rest: seq<seq<byte>>)
    ensures FromHint(env, [[], h] + rest).result == Err(Panicked)
    ensures FromHint(env, [[0x00], h] + rest).result == Err(Panicked)
  {
  }

  /** An oracle fee hint that reads as zero panics. */
  lemma FromHintZeroFee(env: Env, h: Bytes32, rest: seq<seq<byte>>)
    ensures FromHint(env, [[0x03], h, []] + rest).result == Err(Panicked)
  {
  }

  /**
   * `get_full_puzzle`: the stored program if there is one; otherwise the
   * admin or writer filter curried over the revealed inner puzzle, an error
   * if none is revealed, and the oracle program for an oracle.
   */
  function GetFullPuzzle(env: Env, d: DelegatedPuzzle, innerPuzzleReveal: Option<Program>): (r: Result<Program, string>)
    ensures r.Err? <==> d.fullPuzzle.None? && !d.puzzleInfo.Oracle? && innerPuzzleReveal.None?
    ensures d.fullPuzzle.Some? ==> r == Ok(d.fullPuzzle.value)
  {
    match d.fullPuzzle
    case Some(full) => Ok(full)
    case None =>
      match d.puzzleInfo
      case Admin(_) =>
        if innerPuzzleReveal.Some? then Ok(AdminLayerFullPuzzle(env, innerPuzzleReveal.value))
        else Err("Missing inner puzzle reveal")
      case Writer(_) =>
        if innerPuzzleReveal.Some? then Ok(WriterLayerFullPuzzle(env, innerPuzzleReveal.value))
        else Err("Missing inner puzzle reveal")
      case Oracle(ph, fee) => Ok(OracleLayerFullPuzzle(ph, fee))
  }

  /**
   * For a consistent delegated puzzle whose missing admin or writer program
   * is supplied by revealing an inner puzzle with the hinted hash, the
   * program `get_full_puzzle` returns has the delegated puzzle's hash.
   */
  lemma GetFullPuzzleHash(env: Env, d: DelegatedPuzzle, innerPuzzleReveal: Option<Program>)
    requires Consistent(env, d)
    requires d.fullPuzzle.None? && !d.puzzleInfo.Oracle? ==>
      innerPuzzleReveal.Some? && TreeHash(env.sha256, innerPuzzleReveal.value) == d.puzzleInfo.innerPuzzleHash
    ensures GetFullPuzzle(env, d, innerPuzzleReveal).Ok?
    ensures TreeHash(env.sha256, GetFullPuzzle(env, d, innerPuzzleReveal).value) == d.puzzleHash
  {
  }

  /** The Merkle leaves of a list of delegated puzzles: their puzzle hashes, in order. */
  function MerkleLeaves(ds: seq<DelegatedPuzzle>): (leaves: seq<Bytes32>)
    ensures |leaves| == |ds| && forall i :: 0 <= i < |ds| ==> leaves[i] == ds[i].puzzleHash
  {
    if ds == [] then [] else [ds[0].puzzleHash] + MerkleLeaves(ds[1..])
  }

  /** `merkle_root_for_delegated_puzzles`. */
  function MerkleRootForDelegatedPuzzles(env: Env, ds: seq<DelegatedPuzzle>): Bytes32
  {
    env.merkleRoot(MerkleLeaves(ds))
  }

  /** The root depends on the puzzle hashes and their order only, not on the infos or full programs. */
  lemma MerkleRootOfSameHashes(env: Env, ds1: seq<DelegatedPuzzle>, ds2: seq<DelegatedPuzzle>)
    requires |ds1| == |ds2| && forall i :: 0 <= i < |ds1| ==> ds1[i].puzzleHash == ds2[i].puzzleHash
    ensures MerkleRootForDelegatedPuzzles(env, ds1) == MerkleRootForDelegatedPuzzles(env, ds2)
  {
    assert MerkleLeaves(ds1) == MerkleLeaves(ds2);
  }
}
