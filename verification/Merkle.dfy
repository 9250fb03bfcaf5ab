/** The two Merkle builders: the tagged collation-bundle root (evidence_integrity.go) and the
    untagged `BuildTree` (blockchain_production.go).  Both pair nodes level by level and promote
    an odd last node.  Each level is described by the trees whose hashes it holds. */
module Merkle {
  import opened Hashing
  import opened Arithmetic

  datatype Tree = Leaf(text: string) | Node(left: Tree, right: Tree)

  // ---------------------------------------------------------------------------------------
  // Levels of trees.
  // ---------------------------------------------------------------------------------------

  function LeafTrees(leaves: seq<string>): (level: seq<Tree>)
    ensures |level| == |leaves|
  {
    seq(|leaves|, i requires 0 <= i < |leaves| => Leaf(leaves[i]))
  }

  /** The next level: neighbours are paired, an odd last tree is promoted unchanged. */
  function PairUp(level: seq<Tree>): (next: seq<Tree>)
    ensures |next| == (|level| + 1) / 2
  {
    if |level| <= 1 then level else [Node(level[0], level[1])] + PairUp(level[2..])
  }

  lemma {:induction false} PairUpAt(level: seq<Tree>, k: nat)
    requires 2 * k < |level|
    ensures PairUp(level)[k] == if 2 * k + 1 < |level| then Node(level[2 * k], level[2 * k + 1]) else level[2 * k]
  {
    if k > 0 {
      PairUpAt(level[2..], k - 1);
    }
  }

  function TreeOf(level: seq<Tree>): Tree
    requires level != []
    decreases |level|
  {
    if |level| == 1 then level[0] else TreeOf(PairUp(level))
  }

  function Leaves(t: Tree): seq<string> {
    match t
    case Leaf(text) => [text]
    case Node(left, right) => Leaves(left) + Leaves(right)
  }

  function AllLeaves(level: seq<Tree>): seq<string> {
    if level == [] then [] else Leaves(level[0]) + AllLeaves(level[1..])
  }

  lemma {:induction false} LeavesOfLeafTrees(leaves: seq<string>)
    ensures AllLeaves(LeafTrees(leaves)) == leaves
  {
    if leaves != [] {
      assert LeafTrees(leaves)[1..] == LeafTrees(leaves[1..]);
      LeavesOfLeafTrees(leaves[1..]);
    }
  }

  lemma {:induction false} PairUpKeepsLeaves(level: seq<Tree>)
    ensures AllLeaves(PairUp(level)) == AllLeaves(level)
  {
    if |level| > 1 {
      PairUpKeepsLeaves(level[2..]);
      assert level[1..][1..] == level[2..];
      assert PairUp(level)[1..] == PairUp(level[2..]);
    }
  }

  lemma {:induction false} TreeKeepsLeaves(level: seq<Tree>)
    requires level != []
    ensures Leaves(TreeOf(level)) == AllLeaves(level)
    decreases |level|
  {
    if |level| == 1 {
      assert AllLeaves(level[1..]) == [];
    } else {
      PairUpKeepsLeaves(level);
      TreeKeepsLeaves(PairUp(level));
    }
  }

  /** The tree over `leaves` determines them, in order. */
  lemma LeavesOfTree(leaves: seq<string>)
    requires leaves != []
    ensures Leaves(TreeOf(LeafTrees(leaves))) == leaves
  {
    LeavesOfLeafTrees(leaves);
    TreeKeepsLeaves(LeafTrees(leaves));
  }

  // ---------------------------------------------------------------------------------------
  // Tagged hashing: "leaf:" and "node:" over raw digests.
  // ---------------------------------------------------------------------------------------

  function TaggedPreimage(sha: Sha, t: Tree): string
    decreases t, 0
  {
    match t
    case Leaf(text) => "leaf:" + text
    case Node(left, right) => "node:" + TaggedHash(sha, left) + TaggedHash(sha, right)
  }

  function TaggedHash(sha: Sha, t: Tree): Digest
    decreases t, 1
  {
    sha(TaggedPreimage(sha, t))
  }

  lemma TaggedNode(sha: Sha, left: Tree, right: Tree)
    ensures TaggedHash(sha, Node(left, right)) == sha("node:" + TaggedHash(sha, left) + TaggedHash(sha, right))
  {
  }

  ghost function TaggedPreimages(sha: Sha, t: Tree): set<string> {
    {TaggedPreimage(sha, t)}
    + if t.Node? then TaggedPreimages(sha, t.left) + TaggedPreimages(sha, t.right) else {}
  }

  lemma TagsSeparate(sha: Sha, text: string, n: Tree)
    requires n.Node?
    ensures TaggedPreimage(sha, Leaf(text)) != TaggedPreimage(sha, n)
  {
    assert TaggedPreimage(sha, Leaf(text))[0] == 'l' && TaggedPreimage(sha, n)[0] == 'n';
  }

  /** Because of the tags a tagged digest fixes the whole tree, whatever the sizes. */
  lemma {:induction false} TaggedHashBinding(sha: Sha, t: Tree, u: Tree)
    requires TaggedHash(sha, t) == TaggedHash(sha, u)
    requires CollisionFree(sha, TaggedPreimages(sha, t) + TaggedPreimages(sha, u))
    ensures t == u
  {
    var p, q := TaggedPreimage(sha, t), TaggedPreimage(sha, u);
    assert p in TaggedPreimages(sha, t) && q in TaggedPreimages(sha, u);
    assert p == q;
    match (t, u) {
      case (Leaf(x), Leaf(y)) =>
        assert x == p[5..] && y == q[5..];
      case (Leaf(x), Node(_, _)) =>
        TagsSeparate(sha, x, u);
      case (Node(_, _), Leaf(y)) =>
        TagsSeparate(sha, y, t);
      case (Node(a, b), Node(c, d)) =>
        assert TaggedHash(sha, a) == p[5..37] && TaggedHash(sha, c) == q[5..37];
        assert TaggedHash(sha, b) == p[37..] && TaggedHash(sha, d) == q[37..];
        CollisionFreeSubset(sha, TaggedPreimages(sha, a) + TaggedPreimages(sha, c),
                            TaggedPreimages(sha, t) + TaggedPreimages(sha, u));
        CollisionFreeSubset(sha, TaggedPreimages(sha, b) + TaggedPreimages(sha, d),
                            TaggedPreimages(sha, t) + TaggedPreimages(sha, u));
        TaggedHashBinding(sha, a, c);
        TaggedHashBinding(sha, b, d);
    }
  }

  // ---------------------------------------------------------------------------------------
  // Canonical order of the leaves (sort.Strings).
  // ---------------------------------------------------------------------------------------

  predicate Le(a: string, b: string) {
    a == [] || (b != [] && (a[0] < b[0] || (a[0] == b[0] && Le(a[1..], b[1..]))))
  }

  lemma {:induction false} LeTotal(a: string, b: string)
    ensures Le(a, b) || Le(b, a)
    ensures Le(a, b) && Le(b, a) ==> a == b
  {
    if a != [] && b != [] {
      LeTotal(a[1..], b[1..]);
    }
  }

  lemma {:induction false} LeTransitive(a: string, b: string, c: string)
    requires Le(a, b) && Le(b, c)
    ensures Le(a, c)
  {
    if a != [] && a[0] == b[0] == c[0] {
      LeTransitive(a[1..], b[1..], c[1..]);
    }
  }

  ghost predicate Sorted(s: seq<string>) {
    forall i, j :: 0 <= i < j < |s| ==> Le(s[i], s[j])
  }

  function Insert(x: string, s: seq<string>): seq<string> {
    if s == [] || Le(x, s[0]) then [x] + s else [s[0]] + Insert(x, s[1..])
  }

  function SortStrings(s: seq<string>): seq<string> {
    if s == [] then [] else Insert(s[0], SortStrings(s[1..]))
  }

  lemma {:induction false} InsertSorted(x: string, s: seq<string>)
    requires Sorted(s)
    ensures Sorted(Insert(x, s)) && multiset(Insert(x, s)) == multiset{x} + multiset(s)
  {
    if s == [] {
    } else if Le(x, s[0]) {
      forall j | 0 < j < |s|
        ensures Le(x, s[j])
      {
        LeTransitive(x, s[0], s[j]);
      }
    } else {
      LeTotal(x, s[0]);
      InsertSorted(x, s[1..]);
      assert s == [s[0]] + s[1..];
      var r := Insert(x, s[1..]);
      forall y | y in r
        ensures Le(s[0], y)
      {
        assert y in multiset(r);
      }
    }
  }

  lemma {:induction false} SortStringsSorts(s: seq<string>)
    ensures Sorted(SortStrings(s)) && multiset(SortStrings(s)) == multiset(s)
  {
    if s != [] {
      SortStringsSorts(s[1..]);
      InsertSorted(s[0], SortStrings(s[1..]));
      assert s == [s[0]] + s[1..];
    }
  }

  lemma TailOf(s: seq<string>)
    requires s != []
    ensures Sorted(s) ==> Sorted(s[1..])
    ensures multiset(s[1..]) == multiset(s) - multiset{s[0]}
  {
    assert s == [s[0]] + s[1..];
  }

  lemma HeadIsLeast(s: seq<string>, x: string)
    requires Sorted(s) && x in multiset(s)
    ensures s != [] && Le(s[0], x)
  {
    assert x in s;
    LeTotal(x, x);
  }

  lemma {:induction false} SortedIsUnique(a: seq<string>, b: seq<string>)
    requires Sorted(a) && Sorted(b) && multiset(a) == multiset(b)
    ensures a == b
  {
    hide Le, Sorted;
    assert |a| == |multiset(a)| == |b|;
    if a != [] {
      HeadIsLeast(a, b[0]);
      HeadIsLeast(b, a[0]);
      LeTotal(a[0], b[0]);
      TailOf(a);
      TailOf(b);
      SortedIsUnique(a[1..], b[1..]);
      assert a == [a[0]] + a[1..] && b == [b[0]] + b[1..];
    }
  }

  // ---------------------------------------------------------------------------------------
  // The collation-bundle root.
  // ---------------------------------------------------------------------------------------

  /** `lastEventHash` is "" for a child without evidence events. */
  datatype Child = Child(resultId: int, lastEventHash: string)

  function EventHashes(children: seq<Child>): seq<string> {
    if children == [] then []
    else EventHashes(children[..|children| - 1])
         + (var h := children[|children| - 1].lastEventHash; if h == "" then [] else [h])
  }

  function BundleTree(children: seq<Child>): Tree
    requires EventHashes(children) != []
  {
    SortStringsSorts(EventHashes(children));
    assert |multiset(SortStrings(EventHashes(children)))| == |EventHashes(children)|;
    TreeOf(LeafTrees(SortStrings(EventHashes(children))))
  }

  function BundleRoot(sha: Sha, children: seq<Child>): string {
    if EventHashes(children) == [] then "" else Hex(TaggedHash(sha, BundleTree(children)))
  }

  ghost function BundlePreimages(sha: Sha, children: seq<Child>): set<string> {
    if EventHashes(children) == [] then {} else TaggedPreimages(sha, BundleTree(children))
  }

  /** Two bundles have one root exactly when they hold the same non-empty event hashes, counted
      with multiplicity and whatever their order and size. */
  lemma BundleRootBinding(sha: Sha, a: seq<Child>, b: seq<Child>)
    requires CollisionFree(sha, BundlePreimages(sha, a) + BundlePreimages(sha, b))
    ensures BundleRoot(sha, a) == BundleRoot(sha, b) <==> multiset(EventHashes(a)) == multiset(EventHashes(b))
  {
    hide TaggedHash, TaggedPreimages, TreeOf, LeafTrees, SortStrings, Sorted, Hex, EventHashes;
    var x, y := EventHashes(a), EventHashes(b);
    SortStringsSorts(x);
    SortStringsSorts(y);
    if multiset(x) == multiset(y) {
      assert |x| == |multiset(x)| == |y|;
      SortedIsUnique(SortStrings(x), SortStrings(y));
    }
    if BundleRoot(sha, a) == BundleRoot(sha, b) && x != [] && y != [] {
      HexInjective(TaggedHash(sha, BundleTree(a)), TaggedHash(sha, BundleTree(b)));
      TaggedHashBinding(sha, BundleTree(a), BundleTree(b));
      assert |SortStrings(x)| == |multiset(x)| && |SortStrings(y)| == |multiset(y)|;
      LeavesOfTree(SortStrings(x));
      LeavesOfTree(SortStrings(y));
    }
  }

  ghost predicate HoldsTagged(sha: Sha, level: seq<Digest>, trees: seq<Tree>) {
    |level| == |trees| && forall i :: 0 <= i < |level| ==> level[i] == TaggedHash(sha, trees[i])
  }

  method MerkleRootEventHashes(sha: Sha, children: seq<Child>) returns (root: string)
    ensures root == BundleRoot(sha, children)
  {
    var leaves := [];
    for i := 0 to |children|
      invariant leaves == EventHashes(children[..i])
    {
      assert children[..i + 1][..i] == children[..i];
      var hash := children[i].lastEventHash;
      if hash != "" {
        leaves := leaves + [hash];
      }
    }
    assert children[..|children|] == children;
    if |leaves| == 0 {
      return "";
    }
    SortStringsSorts(leaves);
    assert |multiset(SortStrings(leaves))| == |leaves|;
    leaves := SortStrings(leaves);
    root := TaggedRoot(sha, leaves);
  }

  method TaggedRoot(sha: Sha, leaves: seq<string>) returns (root: string)
    requires leaves != []
    ensures root == Hex(TaggedHash(sha, TreeOf(LeafTrees(leaves))))
  {
    var level: seq<Digest> := [];
    ghost var trees := LeafTrees(leaves);
    for i := 0 to |leaves|
      invariant HoldsTagged(sha, level, trees[..i])
    {
      level := level + [sha("leaf:" + leaves[i])];
    }
    assert trees[..|leaves|] == trees;
    while |level| > 1
      invariant |level| > 0 && HoldsTagged(sha, level, trees)
      invariant TreeOf(trees) == TreeOf(LeafTrees(leaves))
      decreases |level|
    {
      level := NextTagged(sha, level, trees);
      trees := PairUp(trees);
    }
    return Hex(level[0]);
  }

  method NextTagged(sha: Sha, level: seq<Digest>, ghost trees: seq<Tree>) returns (next: seq<Digest>)
    requires HoldsTagged(sha, level, trees)
    ensures HoldsTagged(sha, next, PairUp(trees))
  {
    hide PairUp, TaggedHash, TaggedPreimage;
    next := [];
    var i := 0;
    while i < |level|
      invariant i == 2 * |next| && |next| <= |PairUp(trees)|
      invariant HoldsTagged(sha, next, PairUp(trees)[..|next|])
    {
      PairUpAt(trees, |next|);
      if i + 1 == |level| {
        next := next + [level[i]];
      } else {
        TaggedNode(sha, trees[i], trees[i + 1]);
        next := next + [sha("node:" + level[i] + level[i + 1])];
      }
      i := i + 2;
    }
    assert PairUp(trees)[..|next|] == PairUp(trees);
  }

  // ---------------------------------------------------------------------------------------
  // The untagged builder.
  // ---------------------------------------------------------------------------------------

  function PlainPreimage(sha: Sha, t: Tree): string
    decreases t, 0
  {
    match t
    case Leaf(text) => text
    case Node(left, right) => PlainHash(sha, left) + PlainHash(sha, right)
  }

  function PlainHash(sha: Sha, t: Tree): (text: string)
    ensures |text| == 64
    decreases t, 1
  {
    Sha256Hex(sha, PlainPreimage(sha, t))
  }

  lemma PlainNode(sha: Sha, left: Tree, right: Tree)
    ensures PlainHash(sha, Node(left, right)) == Sha256Hex(sha, PlainHash(sha, left) + PlainHash(sha, right))
  {
  }

  ghost function PlainPreimages(sha: Sha, t: Tree): set<string> {
    {PlainPreimage(sha, t)}
    + if t.Node? then PlainPreimages(sha, t.left) + PlainPreimages(sha, t.right) else {}
  }

  ghost predicate SameShape(t: Tree, u: Tree) {
    match (t, u)
    case (Leaf(_), Leaf(_)) => true
    case (Node(a, b), Node(c, d)) => SameShape(a, c) && SameShape(b, d)
    case _ => false
  }

  ghost predicate SameShapes(a: seq<Tree>, b: seq<Tree>) {
    |a| == |b| && forall i :: 0 <= i < |a| ==> SameShape(a[i], b[i])
  }

  lemma {:induction false} PairUpKeepsShapes(a: seq<Tree>, b: seq<Tree>)
    requires SameShapes(a, b)
    ensures SameShapes(PairUp(a), PairUp(b))
  {
    if |a| > 1 {
      PairUpKeepsShapes(a[2..], b[2..]);
    }
  }

  /** The leaf count fixes the shape of the tree. */
  lemma {:induction false} TreeKeepsShape(a: seq<Tree>, b: seq<Tree>)
    requires a != [] && SameShapes(a, b)
    ensures SameShape(TreeOf(a), TreeOf(b))
    decreases |a|
  {
    if |a| > 1 {
      PairUpKeepsShapes(a, b);
      TreeKeepsShape(PairUp(a), PairUp(b));
    }
  }

  lemma {:induction false} PlainHashBinding(sha: Sha, t: Tree, u: Tree)
    requires SameShape(t, u) && PlainHash(sha, t) == PlainHash(sha, u)
    requires CollisionFree(sha, PlainPreimages(sha, t) + PlainPreimages(sha, u))
    ensures t == u
  {
    var all := PlainPreimages(sha, t) + PlainPreimages(sha, u);
    var p, q := PlainPreimage(sha, t), PlainPreimage(sha, u);
    Sha256HexBinding(sha, p, q, all);
    if t.Node? {
      assert PlainHash(sha, t.left) == p[..64] && PlainHash(sha, u.left) == q[..64];
      assert PlainHash(sha, t.right) == p[64..] && PlainHash(sha, u.right) == q[64..];
      CollisionFreeSubset(sha, PlainPreimages(sha, t.left) + PlainPreimages(sha, u.left), all);
      CollisionFreeSubset(sha, PlainPreimages(sha, t.right) + PlainPreimages(sha, u.right), all);
      PlainHashBinding(sha, t.left, u.left);
      PlainHashBinding(sha, t.right, u.right);
    }
  }

  function PlainRoot(sha: Sha, leaves: seq<string>): string {
    if leaves == [] then "" else PlainHash(sha, TreeOf(LeafTrees(leaves)))
  }

  ghost function PlainRootPreimages(sha: Sha, leaves: seq<string>): set<string> {
    if leaves == [] then {} else PlainPreimages(sha, TreeOf(LeafTrees(leaves)))
  }

  /** With the stored leaf count the untagged root fixes the leaves, in order. */
  lemma PlainRootBinding(sha: Sha, a: seq<string>, b: seq<string>)
    requires |a| == |b| && PlainRoot(sha, a) == PlainRoot(sha, b)
    requires CollisionFree(sha, PlainRootPreimages(sha, a) + PlainRootPreimages(sha, b))
    ensures a == b
  {
    if a != [] {
      TreeKeepsShape(LeafTrees(a), LeafTrees(b));
      PlainHashBinding(sha, TreeOf(LeafTrees(a)), TreeOf(LeafTrees(b)));
      LeavesOfTree(a);
      LeavesOfTree(b);
    }
  }

  /** The root alone is not enough: the concatenated leaf digests, taken as one leaf, give the
      root of the two-leaf tree for every hash function. */
  lemma PlainRootNeedsCount(sha: Sha, x: string, y: string)
    ensures PlainRoot(sha, [x, y]) == PlainRoot(sha, [Sha256Hex(sha, x) + Sha256Hex(sha, y)])
    ensures [x, y] != [Sha256Hex(sha, x) + Sha256Hex(sha, y)]
  {
    hide PlainHash, Sha256Hex;
    var pair := Sha256Hex(sha, x) + Sha256Hex(sha, y);
    assert LeafTrees([x, y]) == [Leaf(x), Leaf(y)] && LeafTrees([pair]) == [Leaf(pair)];
    TreeOfTwo(Leaf(x), Leaf(y));
    PlainLeaf(sha, x);
    PlainLeaf(sha, y);
    PlainLeaf(sha, pair);
    PlainNode(sha, Leaf(x), Leaf(y));
  }

  lemma TreeOfTwo(t: Tree, u: Tree)
    ensures TreeOf([t, u]) == Node(t, u)
  {
    assert PairUp([t, u]) == [Node(t, u)];
  }

  lemma PlainLeaf(sha: Sha, text: string)
    ensures PlainHash(sha, Leaf(text)) == Sha256Hex(sha, text)
  {
  }

  /** `depth` is the ceiling of the base-two logarithm of `count`. */
  ghost predicate IsCeilLog2(depth: nat, count: nat) {
    count <= Pow2(depth) && (depth > 0 ==> Pow2(depth - 1) < count)
  }

  function Depth(count: nat): nat {
    if count <= 1 then 0 else 1 + Depth((count + 1) / 2)
  }

  lemma {:induction false} DepthIsCeilLog2(count: nat)
    requires count > 0
    ensures IsCeilLog2(Depth(count), count)
  {
    if count > 1 {
      DepthIsCeilLog2((count + 1) / 2);
    }
  }

  ghost predicate HoldsPlain(sha: Sha, level: seq<string>, trees: seq<Tree>) {
    |level| == |trees| && forall i :: 0 <= i < |level| ==> level[i] == PlainHash(sha, trees[i])
  }

  method BuildTree(sha: Sha, leaves: seq<string>) returns (rootHash: string, depth: nat, leafCount: nat)
    ensures rootHash == PlainRoot(sha, leaves) && leafCount == |leaves|
    ensures if leaves == [] then depth == 0 else IsCeilLog2(depth, |leaves|)
  {
    if |leaves| == 0 {
      return "", 0, 0;
    }
    var hashes: seq<string> := [];
    ghost var trees := LeafTrees(leaves);
    for i := 0 to |leaves|
      invariant HoldsPlain(sha, hashes, trees[..i])
    {
      hashes := hashes + [Sha256Hex(sha, leaves[i])];
    }
    assert trees[..|leaves|] == trees;
    depth := 0;
    while |hashes| > 1
      invariant |hashes| > 0 && HoldsPlain(sha, hashes, trees)
      invariant TreeOf(trees) == TreeOf(LeafTrees(leaves))
      invariant depth + Depth(|hashes|) == Depth(|leaves|)
      decreases |hashes|
    {
      depth := depth + 1;
      hashes := NextPlain(sha, hashes, trees);
      trees := PairUp(trees);
    }
    DepthIsCeilLog2(|leaves|);
    return hashes[0], depth, |leaves|;
  }

  method NextPlain(sha: Sha, hashes: seq<string>, ghost trees: seq<Tree>) returns (next: seq<string>)
    requires HoldsPlain(sha, hashes, trees)
    ensures HoldsPlain(sha, next, PairUp(trees))
  {
    hide PairUp, PlainHash, PlainPreimage;
    next := [];
    var i := 0;
    while i < |hashes|
      invariant i == 2 * |next| && |next| <= |PairUp(trees)|
      invariant HoldsPlain(sha, next, PairUp(trees)[..|next|])
    {
      PairUpAt(trees, |next|);
      if i + 1 < |hashes| {
        PlainNode(sha, trees[i], trees[i + 1]);
        next := next + [Sha256Hex(sha, hashes[i] + hashes[i + 1])];
      } else {
        next := next + [hashes[i]];
      }
      i := i + 2;
    }
    assert PairUp(trees)[..|next|] == PairUp(trees);
  }
}
