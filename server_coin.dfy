/**
 * Server coins and the mirror puzzle. A server coin advertises URLs for a
 * data store: its parent creates it with memos whose first entry is a hint
 * and whose others are the URLs as UTF-8. Its launcher id is morphed (the
 * 32-byte id read as a signed integer, plus an offset) to derive a related
 * id.
 */
module ServerCoins {
  import opened Wrappers
  import opened Bytes
  import opened Clvm
  import opened Chain
  import Utf8

  datatype ServerCoin = ServerCoin(coin: Coin, p2PuzzleHash: Bytes32, memoUrls: seq<string>)

  /** The curried argument of the mirror puzzle. */
  datatype MirrorArgs = MirrorArgs(morpher: int)

  /** `MirrorArgs::default`: the morpher is 1. */
  const DefaultMirrorArgs: MirrorArgs := MirrorArgs(1)

  /**
   * `MirrorArgs::curry_tree_hash`: the mirror puzzle curried over the default
   * arguments, from the mirror puzzle's hash. The morpher is an `i32`, curried
   * as the atom of that number.
   */
  function MirrorCurryTreeHash(sha: Hasher, mirrorPuzzleHash: Bytes32): Bytes32
  {
    CurryTreeHash(sha, mirrorPuzzleHash, [AtomHash(sha, ClvmNumber(DefaultMirrorArgs.morpher))])
  }

  /** That hash is the tree hash of the mirror puzzle curried over the atom 1. */
  lemma MirrorCurryTreeHashMatches(sha: Hasher, mirrorPuzzle: Program)
    ensures MirrorCurryTreeHash(sha, TreeHash(sha, mirrorPuzzle)) == TreeHash(sha, Curry(mirrorPuzzle, [Atom([1])]))
  {
    CurryTreeHashMatches(sha, mirrorPuzzle, [Atom([1])]);
    assert ClvmNumber(1) == [1];
    assert TreeHashes(sha, [Atom([1])]) == [AtomHash(sha, [1])];
  }

  /** The width of a launcher id in bytes. */
  const IdWidth: nat := 32

  /**
   * What `morph_launcher_id` returns: the id plus the offset as a minimal
   * signed big-endian integer, left-padded with zero bytes to 32, or 32 zero
   * bytes when the sum does not fit in 32 bytes.
   */
  function MorphedLauncherId(launcherId: Bytes32, offset: int): Bytes32
  {
    PadLeft(ToSignedBytesBe(FromSignedBytesBe(launcherId) + offset), IdWidth)
  }

  /** `morph_launcher_id`. */
  method MorphLauncherId(launcherId: Bytes32, offset: int) returns (r: Bytes32)
    ensures r == MorphedLauncherId(launcherId, offset)
  {
    var morphed := FromSignedBytesBe(launcherId) + offset;
    var bytes := ToSignedBytesBe(morphed);
    if |bytes| > IdWidth {
      return Zeros(IdWidth);
    }
    ghost var encoded := bytes;
    ghost var padding: nat := 0;
    while |bytes| < IdWidth
      invariant |bytes| == padding + |encoded| <= IdWidth
      invariant bytes == Zeros(padding) + encoded
      decreases IdWidth - |bytes|
    {
      ZerosCons(padding);
      assert [0] + (Zeros(padding) + encoded) == ([0] + Zeros(padding)) + encoded;
      bytes := [0] + bytes;
      padding := padding + 1;
    }
    assert padding == IdWidth - |encoded|;
    return bytes;
  }

  /** The morph gives all zeros exactly when the sum lies outside the 32-byte two's complement range. */
  lemma MorphOverflow(launcherId: Bytes32, offset: int)
    ensures var n := FromSignedBytesBe(launcherId) + offset;
      !(-SignedBound(IdWidth) <= n < SignedBound(IdWidth)) ==> MorphedLauncherId(launcherId, offset) == Zeros(IdWidth)
    ensures var n := FromSignedBytesBe(launcherId) + offset;
      (-SignedBound(IdWidth) <= n < SignedBound(IdWidth)) <==> |ToSignedBytesBe(n)| <= IdWidth
  {
    var n := FromSignedBytesBe(launcherId) + offset;
    SignedWidth(n, IdWidth);
    if !(-SignedBound(IdWidth) <= n < SignedBound(IdWidth)) {
      PadSignedOverflow(n, IdWidth);
    }
  }

  /**
   * Within range, the morphed id ends in the minimal signed encoding of the
   * sum, which reads back as the sum, and starts with zero bytes only.
   */
  lemma MorphLowBytes(launcherId: Bytes32, offset: int)
    requires var n := FromSignedBytesBe(launcherId) + offset; -SignedBound(IdWidth) <= n < SignedBound(IdWidth)
    ensures var n := FromSignedBytesBe(launcherId) + offset;
      var k := |ToSignedBytesBe(n)|;
      var r := MorphedLauncherId(launcherId, offset);
      k <= IdWidth && r[IdWidth - k..] == ToSignedBytesBe(n) && FromSignedBytesBe(r[IdWidth - k..]) == n
      && forall i :: 0 <= i < IdWidth - k ==> r[i] == 0
  {
    PadSignedLow(FromSignedBytesBe(launcherId) + offset, IdWidth);
  }

  /**
   * For a non-negative sum within range the morphed id is the 32-byte
   * unsigned encoding of the sum, and reads back as the sum.
   */
  lemma MorphNonNegative(launcherId: Bytes32, offset: int)
    requires var n := FromSignedBytesBe(launcherId) + offset; 0 <= n < SignedBound(IdWidth)
    ensures var n := FromSignedBytesBe(launcherId) + offset;
      MorphedLauncherId(launcherId, offset) == UnsignedBytes(n, IdWidth)
      && FromSignedBytesBe(MorphedLauncherId(launcherId, offset)) == n
  {
    PadSignedNonNegative(FromSignedBytesBe(launcherId) + offset, IdWidth);
  }

  /** An id whose top bit is clear is unchanged by a zero offset. */
  lemma MorphZeroOffset(launcherId: Bytes32)
    requires launcherId[0] < 128
    ensures MorphedLauncherId(launcherId, 0) == launcherId
  {
    PadSignedOfTopClear(launcherId);
  }

  /**
   * Morphing by an offset and back by its negation gives the id again, for
   * an id whose top bit is clear and an offset that keeps the sum
   * non-negative and within range.
   */
  lemma MorphRoundTrip(launcherId: Bytes32, offset: int)
    requires launcherId[0] < 128
    requires 0 <= FromSignedBytesBe(launcherId) + offset < SignedBound(IdWidth)
    ensures MorphedLauncherId(MorphedLauncherId(launcherId, offset), -offset) == launcherId
  {
    MorphNonNegative(launcherId, offset);
    PadSignedOfTopClear(launcherId);
  }

  /** Adding 1 to an id ending in a byte below 255 and then 255 carries into the byte before: it ends in that byte plus 1, then 0. */
  lemma MorphCarries(prefix: seq<byte>, b: byte)
    requires |prefix| == IdWidth - 2 && prefix[0] < 128 && b < 255
    ensures |prefix + [b, 255]| == IdWidth
    ensures MorphedLauncherId(prefix + [b, 255], 1) == prefix + [b + 1, 0]
  {
    SignedCarry(prefix, b);
    PadSignedOfTopClear(prefix + [b + 1, 0]);
  }

  lemma {:induction false} AllOnesIsMinusOne(k: nat)
    requires k >= 1
    ensures FromSignedBytesBe(seq(k, _ => 0xFF)) == -1
  {
    if k > 1 {
      AllOnesIsMinusOne(k - 1);
      assert seq(k, _ => 0xFF)[..k - 1] == seq(k - 1, _ => 0xFF);
    }
  }

  /**
   * Zero padding does not sign-extend: the all-ones id (-1) morphs by 0 to
   * 31 zero bytes and 0xFF, which reads back as 255, not -1.
   */
  lemma MorphNegativeNotSignExtended()
    ensures var id := seq(32, _ => 0xFF);
      MorphedLauncherId(id, 0) == Zeros(31) + [0xFF] != id
      && FromSignedBytesBe(MorphedLauncherId(id, 0)) == 255
  {
    var id: Bytes32 := seq(32, _ => 0xFF);
    AllOnesIsMinusOne(32);
    assert ToSignedBytesBe(-1) == [0xFF];
    var r := Zeros(31) + [0xFF];
    assert r[..31] == Zeros(31);
    assert FromSignedBytesBe(Zeros(31)) == 0 by {
      SignedOfNonNegative(Zeros(31));
      UnsignedBytesOfZero(31);
      ValueOfUnsignedBytes(0, 31);
    }
    assert r[0] != id[0];
  }

  /** `String::from_utf8` on each memo: the strings, or None if any memo is not UTF-8. */
  function DecodeAll(memos: seq<seq<byte>>): (r: Option<seq<string>>)
    ensures r.Some? ==> |r.value| == |memos| && forall i :: 0 <= i < |memos| ==> Utf8.Decode(memos[i]) == Some(r.value[i])
    ensures r.None? <==> exists i :: 0 <= i < |memos| && Utf8.Decode(memos[i]).None?
  {
    if memos == [] then Some([])
    else match Utf8.Decode(memos[0])
      case None => None
      case Some(s) =>
        match DecodeAll(memos[1..])
        case None => None
        case Some(rest) => Some([s] + rest)
  }

  /** `skip(1)`. */
  function SkipFirst(memos: seq<seq<byte>>): seq<seq<byte>>
  {
    if memos == [] then [] else memos[1..]
  }

  /**
   * The closure of `find_map`: the URLs of a `CreateCoin` with the server
   * coin's puzzle hash and amount, None for any other condition.
   */
  function UrlsOf(serverCoin: Coin, condition: Condition): Option<seq<string>>
  {
    if condition.CreateCoin? && condition.puzzleHash == serverCoin.puzzleHash && condition.amount == serverCoin.amount
    then DecodeAll(SkipFirst(condition.memos))
    else None
  }

  /** `urls_from_conditions`: the URLs of the first condition that yields some. */
  function UrlsFromConditions(serverCoin: Coin, parentConditions: seq<Condition>): (r: Option<seq<string>>)
    ensures r.None? <==> forall i :: 0 <= i < |parentConditions| ==> UrlsOf(serverCoin, parentConditions[i]).None?
  {
    if parentConditions == [] then None
    else match UrlsOf(serverCoin, parentConditions[0])
      case Some(urls) => Some(urls)
      case None => UrlsFromConditions(serverCoin, parentConditions[1..])
  }

  /** No `CreateCoin` matching the server coin's puzzle hash and amount means no URLs. */
  lemma NoMatchingCoinNoUrls(serverCoin: Coin, parentConditions: seq<Condition>)
    requires forall i :: 0 <= i < |parentConditions| ==>
      !(parentConditions[i].CreateCoin? && parentConditions[i].puzzleHash == serverCoin.puzzleHash
        && parentConditions[i].amount == serverCoin.amount)
    ensures UrlsFromConditions(serverCoin, parentConditions) == None
  {
  }

  /** The result is the URLs of the first condition that yields any. */
  lemma {:induction false} UrlsFromFirstMatch(serverCoin: Coin, parentConditions: seq<Condition>, i: nat)
    requires i < |parentConditions| && UrlsOf(serverCoin, parentConditions[i]).Some?
    requires forall j :: 0 <= j < i ==> UrlsOf(serverCoin, parentConditions[j]).None?
    ensures UrlsFromConditions(serverCoin, parentConditions) == UrlsOf(serverCoin, parentConditions[i])
  {
    if i > 0 {
      UrlsFromFirstMatch(serverCoin, parentConditions[1..], i - 1);
    }
  }

  /** The memos of a server coin: a first memo (the hint), then each URL as UTF-8. */
  function EncodeMemos(hint: seq<byte>, urls: seq<string>): (memos: seq<seq<byte>>)
    ensures |memos| == |urls| + 1 && memos[0] == hint
    ensures forall i :: 0 <= i < |urls| ==> memos[i + 1] == Utf8.Encode(urls[i])
  {
    [hint] + seq(|urls|, i requires 0 <= i < |urls| => Utf8.Encode(urls[i]))
  }

  /** A matching `CreateCoin` whose memos after the first are UTF-8 yields exactly those URLs, in order. */
  lemma UrlsOfEncodedMemos(serverCoin: Coin, hint: seq<byte>, urls: seq<string>)
    ensures UrlsOf(serverCoin, CreateCoin(serverCoin.puzzleHash, serverCoin.amount, EncodeMemos(hint, urls))) == Some(urls)
  {
    var memos := SkipFirst(EncodeMemos(hint, urls));
    forall i | 0 <= i < |urls| ensures Utf8.Decode(memos[i]) == Some(urls[i]) {
      Utf8.DecodeEncode(urls[i]);
    }
    var r := DecodeAll(memos);
    assert r.Some?;
    assert r.value == urls;
  }

  /**
   * A matching condition with a memo after the first that is not UTF-8
   * yields nothing, and the search goes on with the later conditions.
   */
  lemma InvalidMemoFallsThrough(serverCoin: Coin, memos: seq<seq<byte>>, i: nat, rest: seq<Condition>)
    requires 1 <= i < |memos| && Utf8.Decode(memos[i]).None?
    ensures UrlsFromConditions(serverCoin, [CreateCoin(serverCoin.puzzleHash, serverCoin.amount, memos)] + rest)
         == UrlsFromConditions(serverCoin, rest)
  {
    assert SkipFirst(memos)[i - 1] == memos[i];
    assert ([CreateCoin(serverCoin.puzzleHash, serverCoin.amount, memos)] + rest)[1..] == rest;
  }
}
