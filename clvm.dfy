/**
 * CLVM program trees and their hashes. A program is an atom (a byte string)
 * or a pair. The tree hash is SHA-256 over a one-byte domain tag: 1 and the
 * atom's bytes for an atom, 2 and the two children's hashes for a pair.
 * SHA-256 itself is a parameter (`Hasher`); everything else is defined here.
 *
 * Currying a module over arguments builds `(a (q . mod) (c (q . a1) (c (q . a2) ... 1)))`;
 * `CurryTreeHash` computes the hash of that program from the hashes of the
 * module and of the arguments only, as `clvm_utils::curry_tree_hash` does.
 */
module Clvm {
  import opened Wrappers
  import opened Bytes

  datatype Program = Atom(bytes: seq<byte>) | Pair(first: Program, rest: Program)

  type Hasher = seq<byte> -> Bytes32

  const Nil: Program := Atom([])

  // The CLVM operators that currying uses.
  const OpQuote: seq<byte> := [1]
  const OpApply: seq<byte> := [2]
  const OpCons: seq<byte> := [4]

  /**
   * `Allocator::new_number`: the atom of an integer. Zero is the empty atom,
   * any other integer its shortest two's complement big-endian bytes.
   */
  function ClvmNumber(n: int): (b: seq<byte>)
    ensures FromSignedBytesBe(b) == n
  {
    if n == 0 then [] else SignedRoundTrip(n); ToSignedBytesBe(n)
  }

  /** The proper (nil-terminated) list of the given items. */
  function ListProgram(items: seq<Program>): Program
  {
    if items == [] then Nil else Pair(items[0], ListProgram(items[1..]))
  }

  /** `Vec::<NodePtr>::from_clvm`: the items of a proper list, None for anything else. */
  function ListItems(p: Program): Option<seq<Program>>
  {
    match p
    case Atom(b) => if b == [] then Some([]) else None
    case Pair(f, r) =>
      match ListItems(r)
      case None => None
      case Some(items) => Some([f] + items)
  }

  /** Reading back a list gives its items, and a program reads as a list only if it is that list. */
  lemma {:induction false} ListItemsOfListProgram(items: seq<Program>)
    ensures ListItems(ListProgram(items)) == Some(items)
  {
    if items != [] {
      ListItemsOfListProgram(items[1..]);
      assert [items[0]] + items[1..] == items;
    }
  }

  lemma {:induction false} ListProgramOfListItems(p: Program)
    requires ListItems(p).Some?
    ensures ListProgram(ListItems(p).value) == p
  {
    match p
    case Atom(_) =>
    case Pair(f, r) =>
      ListProgramOfListItems(r);
      assert ListItems(p).value[1..] == ListItems(r).value;
  }

  function AtomHash(sha: Hasher, b: seq<byte>): Bytes32
  {
    sha([1] + b)
  }

  function PairHash(sha: Hasher, left: Bytes32, right: Bytes32): Bytes32
  {
    sha([2] + left + right)
  }

  /** `clvm_utils::tree_hash`. */
  function TreeHash(sha: Hasher, p: Program): Bytes32
  {
    match p
    case Atom(b) => AtomHash(sha, b)
    case Pair(f, r) => PairHash(sha, TreeHash(sha, f), TreeHash(sha, r))
  }

  function TreeHashes(sha: Hasher, ps: seq<Program>): (hs: seq<Bytes32>)
    ensures |hs| == |ps| && forall i :: 0 <= i < |ps| ==> hs[i] == TreeHash(sha, ps[i])
  {
    if ps == [] then [] else [TreeHash(sha, ps[0])] + TreeHashes(sha, ps[1..])
  }

  /** The three-element list `(a b c)`. */
  function List3(a: Program, b: Program, c: Program): Program
  {
    Pair(a, Pair(b, Pair(c, Nil)))
  }

  function Quote(p: Program): Program
  {
    Pair(Atom(OpQuote), p)
  }

  /** The environment a curried program is applied to: `(c (q . a1) (c (q . a2) ... 1))`. */
  function CurriedArgs(args: seq<Program>): Program
  {
    if args == [] then Atom([1])
    else List3(Atom(OpCons), Quote(args[0]), CurriedArgs(args[1..]))
  }

  /** `CurriedProgram { program, args }`: `(a (q . mod) args)`. */
  function Curry(mod: Program, args: seq<Program>): Program
  {
    List3(Atom(OpApply), Quote(mod), CurriedArgs(args))
  }

  function CurriedArgsHash(sha: Hasher, argHashes: seq<Bytes32>): Bytes32
  {
    if argHashes == [] then AtomHash(sha, [1])
    else
      var quotedArg := PairHash(sha, AtomHash(sha, OpQuote), argHashes[0]);
      var rest := PairHash(sha, CurriedArgsHash(sha, argHashes[1..]), AtomHash(sha, []));
      PairHash(sha, AtomHash(sha, OpCons), PairHash(sha, quotedArg, rest))
  }

  /** `clvm_utils::curry_tree_hash`: the hash of a curried program from the hashes of its parts. */
  function CurryTreeHash(sha: Hasher, modHash: Bytes32, argHashes: seq<Bytes32>): Bytes32
  {
    var quotedMod := PairHash(sha, AtomHash(sha, OpQuote), modHash);
    var rest := PairHash(sha, CurriedArgsHash(sha, argHashes), AtomHash(sha, []));
    PairHash(sha, AtomHash(sha, OpApply), PairHash(sha, quotedMod, rest))
  }

  lemma TreeHashList3(sha: Hasher, a: Program, b: Program, c: Program)
    ensures TreeHash(sha, List3(a, b, c))
         == PairHash(sha, TreeHash(sha, a), PairHash(sha, TreeHash(sha, b), PairHash(sha, TreeHash(sha, c), AtomHash(sha, []))))
  {
    assert TreeHash(sha, Pair(c, Nil)) == PairHash(sha, TreeHash(sha, c), AtomHash(sha, []));
    assert TreeHash(sha, Pair(b, Pair(c, Nil))) == PairHash(sha, TreeHash(sha, b), TreeHash(sha, Pair(c, Nil)));
  }

  lemma {:induction false} CurriedArgsHashMatches(sha: Hasher, args: seq<Program>)
    ensures TreeHash(sha, CurriedArgs(args)) == CurriedArgsHash(sha, TreeHashes(sha, args))
  {
    if args != [] {
      CurriedArgsHashMatches(sha, args[1..]);
      assert TreeHashes(sha, args)[1..] == TreeHashes(sha, args[1..]);
      TreeHashList3(sha, Atom(OpCons), Quote(args[0]), CurriedArgs(args[1..]));
    }
  }

  /**
   * Hash-only currying agrees with building the curried program and hashing
   * it: the curry hash of the module's and arguments' tree hashes is the tree
   * hash of the curried program.
   */
  lemma CurryTreeHashMatches(sha: Hasher, mod: Program, args: seq<Program>)
    ensures TreeHash(sha, Curry(mod, args)) == CurryTreeHash(sha, TreeHash(sha, mod), TreeHashes(sha, args))
  {
    CurriedArgsHashMatches(sha, args);
    TreeHashList3(sha, Atom(OpApply), Quote(mod), CurriedArgs(args));
  }

  /** A curried puzzle split into its module and its argument environment. */
  datatype CurriedPuzzle = CurriedPuzzle(mod: Program, args: Program)

  /** `CurriedProgram::from_clvm`: matches `(a (q . mod) args)`, None for any other shape. */
  function Uncurry(p: Program): (r: Option<CurriedPuzzle>)
    ensures r.Some? ==> p == List3(Atom(OpApply), Quote(r.value.mod), r.value.args)
  {
    if p.Pair? && p.first == Atom(OpApply) && p.rest.Pair? && p.rest.first.Pair?
       && p.rest.first.first == Atom(OpQuote) && p.rest.rest.Pair? && p.rest.rest.rest == Nil
    then Some(CurriedPuzzle(p.rest.first.rest, p.rest.rest.first))
    else None
  }

  /** Uncurrying a curried program gives back its module and argument environment. */
  lemma UncurryCurry(mod: Program, args: seq<Program>)
    ensures Uncurry(Curry(mod, args)) == Some(CurriedPuzzle(mod, CurriedArgs(args)))
  {
  }

  /** The hash function maps two different inputs to the same output. */
  ghost predicate HasCollision(sha: Hasher)
  {
    exists u: seq<byte>, v: seq<byte> :: u != v && sha(u) == sha(v)
  }

  /** Equal pair hashes mean equal children, unless the hash function has a collision. */
  lemma PairHashInjective(sha: Hasher, a: Bytes32, b: Bytes32, c: Bytes32, d: Bytes32)
    requires PairHash(sha, a, b) == PairHash(sha, c, d)
    ensures (a == c && b == d) || HasCollision(sha)
  {
    var u, v := [2] + a + b, [2] + c + d;
    if u == v {
      assert u[1..33] == a && v[1..33] == c;
      assert u[33..] == b && v[33..] == d;
    } else {
      assert sha(u) == sha(v);
    }
  }

  /** Currying a module over two different one-argument hashes gives different hashes, unless the hash collides. */
  lemma CurryTreeHashInjective(sha: Hasher, modHash: Bytes32, x: Bytes32, y: Bytes32)
    requires x != y
    ensures CurryTreeHash(sha, modHash, [x]) != CurryTreeHash(sha, modHash, [y]) || HasCollision(sha)
  {
    if CurryTreeHash(sha, modHash, [x]) == CurryTreeHash(sha, modHash, [y]) && !HasCollision(sha) {
      var qOp, nilH := AtomHash(sha, OpQuote), AtomHash(sha, []);
      var qm := PairHash(sha, qOp, modHash);
      var ax, ay := CurriedArgsHash(sha, [x]), CurriedArgsHash(sha, [y]);
      PairHashInjective(sha, AtomHash(sha, OpApply), PairHash(sha, qm, PairHash(sha, ax, nilH)),
                             AtomHash(sha, OpApply), PairHash(sha, qm, PairHash(sha, ay, nilH)));
      PairHashInjective(sha, qm, PairHash(sha, ax, nilH), qm, PairHash(sha, ay, nilH));
      PairHashInjective(sha, ax, nilH, ay, nilH);
      var restX := PairHash(sha, CurriedArgsHash(sha, []), nilH);
      assert [x][1..] == [] && [y][1..] == [];
      var qx, qy := PairHash(sha, qOp, x), PairHash(sha, qOp, y);
      PairHashInjective(sha, AtomHash(sha, OpCons), PairHash(sha, qx, restX),
                             AtomHash(sha, OpCons), PairHash(sha, qy, restX));
      PairHashInjective(sha, qx, restX, qy, restX);
      PairHashInjective(sha, qOp, x, qOp, y);
    }
  }
}
