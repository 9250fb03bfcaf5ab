/** The roots of the two Merkle builders for few leaves, written out (evidence_integrity.go,
    blockchain_production.go). */
module MerkleShapes {
  import opened Hashing
  import opened Merkle

  function LeafDigest(sha: Sha, text: string): Digest { sha("leaf:" + text) }

  function NodeDigest(sha: Sha, left: Digest, right: Digest): Digest { sha("node:" + left + right) }

  lemma TreesOfFew(a: Tree, b: Tree, c: Tree)
    ensures TreeOf([a]) == a && TreeOf([a, b]) == Node(a, b) && TreeOf([a, b, c]) == Node(Node(a, b), c)
  {
    assert PairUp([a, b]) == [Node(a, b)];
    assert [a, b, c][2..] == [c];
    assert PairUp([a, b, c]) == [Node(a, b), c];
    TreeOfTwo(a, b);
    TreeOfTwo(Node(a, b), c);
    var three := [a, b, c];
    assert TreeOf(three) == TreeOf(PairUp(three));
  }

  /** One leaf is hashed under its tag, two are joined under the node tag, and of three the last one is
      promoted as it is. */
  lemma TaggedRootsOfFew(sha: Sha, x: string, y: string, z: string)
    ensures TaggedHash(sha, TreeOf(LeafTrees([x]))) == LeafDigest(sha, x)
    ensures TaggedHash(sha, TreeOf(LeafTrees([x, y]))) == NodeDigest(sha, LeafDigest(sha, x), LeafDigest(sha, y))
    ensures TaggedHash(sha, TreeOf(LeafTrees([x, y, z])))
      == NodeDigest(sha, NodeDigest(sha, LeafDigest(sha, x), LeafDigest(sha, y)), LeafDigest(sha, z))
  {
    TreesOfFew(Leaf(x), Leaf(y), Leaf(z));
    assert LeafTrees([x]) == [Leaf(x)] && LeafTrees([x, y]) == [Leaf(x), Leaf(y)] && LeafTrees([x, y, z]) == [Leaf(x), Leaf(y), Leaf(z)];
    TaggedNode(sha, Leaf(x), Leaf(y));
    TaggedNode(sha, Node(Leaf(x), Leaf(y)), Leaf(z));
  }

  /** The same without tags, over hexadecimal texts. */
  lemma PlainRootsOfFew(sha: Sha, x: string, y: string, z: string)
    ensures PlainRoot(sha, []) == ""
    ensures PlainRoot(sha, [x]) == Sha256Hex(sha, x)
    ensures PlainRoot(sha, [x, y]) == Sha256Hex(sha, Sha256Hex(sha, x) + Sha256Hex(sha, y))
    ensures PlainRoot(sha, [x, y, z]) == Sha256Hex(sha, Sha256Hex(sha, Sha256Hex(sha, x) + Sha256Hex(sha, y)) + Sha256Hex(sha, z))
  {
    hide Sha256Hex;
    TreesOfFew(Leaf(x), Leaf(y), Leaf(z));
    assert LeafTrees([x]) == [Leaf(x)] && LeafTrees([x, y]) == [Leaf(x), Leaf(y)] && LeafTrees([x, y, z]) == [Leaf(x), Leaf(y), Leaf(z)];
    PlainLeaf(sha, x);
    PlainLeaf(sha, y);
    PlainLeaf(sha, z);
    PlainNode(sha, Leaf(x), Leaf(y));
    PlainNode(sha, Node(Leaf(x), Leaf(y)), Leaf(z));
  }

  /** The bundle root is taken over the sorted non-empty hashes of the children, and is empty if there are
      none. */
  lemma BundleRootMeans(sha: Sha, children: seq<Child>, leaves: seq<string>)
    requires Sorted(leaves) && multiset(leaves) == multiset(EventHashes(children))
    ensures BundleRoot(sha, children) == if leaves == [] then "" else Hex(TaggedHash(sha, TreeOf(LeafTrees(leaves))))
  {
    var hashes := EventHashes(children);
    SortStringsSorts(hashes);
    SortedIsUnique(leaves, SortStrings(hashes));
    assert |leaves| == |multiset(leaves)| == |hashes|;
  }

  /** The event hashes are those of the children that have one, with their multiplicity. */
  lemma {:induction false} EventHashesMean(children: seq<Child>, hash: string)
    ensures hash != "" ==> (hash in EventHashes(children) <==> exists i :: 0 <= i < |children| && children[i].lastEventHash == hash)
    ensures "" !in EventHashes(children)
    ensures |EventHashes(children)| <= |children|
    ensures (forall i :: 0 <= i < |children| ==> children[i].lastEventHash != "") ==>
      |EventHashes(children)| == |children| && forall i :: 0 <= i < |children| ==> EventHashes(children)[i] == children[i].lastEventHash
  {
    if children != [] {
      EventHashesMean(children[..|children| - 1], hash);
    }
  }

  /** Strings are compared byte by byte, and a prefix comes first. */
  lemma {:induction false} OrderMeans(a: string, b: string)
    ensures Le(a, b) <==>
      || (|a| <= |b| && b[..|a|] == a)
      || exists k :: 0 <= k < |a| && k < |b| && a[..k] == b[..k] && a[k] < b[k]
  {
    if a != [] && b != [] {
      OrderMeans(a[1..], b[1..]);
      if a[0] == b[0] {
        if |a| <= |b| {
          assert b[..|a|] == a <==> b[1..][..|a| - 1] == a[1..];
        }
        if k :| 0 <= k < |a| - 1 && k < |b| - 1 && a[1..][..k] == b[1..][..k] && a[1..][k] < b[1..][k] {
          assert a[..k + 1] == [a[0]] + a[1..][..k] && b[..k + 1] == [b[0]] + b[1..][..k];
          assert a[k + 1] < b[k + 1];
        }
        if k :| 0 <= k < |a| && k < |b| && a[..k] == b[..k] && a[k] < b[k] {
          assert k > 0;
          assert a[1..][..k - 1] == a[..k][1..] && b[1..][..k - 1] == b[..k][1..];
          assert a[1..][k - 1] < b[1..][k - 1];
        }
      } else if a[0] < b[0] {
        assert a[..0] == b[..0];
      } else {
        assert forall k :: 0 < k < |a| && k < |b| ==> a[..k][0] == a[0] && b[..k][0] == b[0];
        assert |a| <= |b| ==> b[..|a|][0] == b[0];
      }
    }
  }
}
