/** buildHuffmanTree and huffmanDecode: a tree of numbered nodes, walked bit by bit. */
module HuffmanDecoder {
  import opened Bytes
  import opened Bits
  import opened Huffman

  /** A child of zero is none, since the root is nobody's child. */
  datatype Node = Node(zero: nat, one: nat, sym: byte) {
    function Child(bit: bool): nat { if bit then one else zero }

    function Link(bit: bool, n: nat): Node { if bit then this.(one := n) else this.(zero := n) }
  }

  /** paths[i] is the way from the root to node i. */
  ghost predicate Linked(tree: seq<Node>, paths: seq<seq<bool>>) {
    && |paths| == |tree| >= 1 && paths[0] == []
    && (forall i, bit :: 0 <= i < |tree| ==> LinkOk(tree, paths, i, bit))
    && (forall i, j :: 0 <= i < j < |paths| ==> paths[i] != paths[j])
    && (forall i :: 0 <= i < |paths| ==> Hangs(paths, i))
  }

  ghost predicate Hangs(paths: seq<seq<bool>>, i: nat)
    requires i < |paths|
  {
    paths[i] == [] || paths[i][..|paths[i]| - 1] in paths
  }

  ghost predicate LinkOk(tree: seq<Node>, paths: seq<seq<bool>>, i: nat, bit: bool)
    requires i < |tree| == |paths|
  {
    var child := tree[i].Child(bit);
    if child == 0 then paths[i] + [bit] !in paths else child < |tree| && paths[child] == paths[i] + [bit]
  }

  /** Every path is the start of a word. */
  ghost predicate Within(t: Table, paths: seq<seq<bool>>) {
    forall i :: 0 <= i < |paths| ==> Starts(t, paths[i])
  }

  /** The first n symbols have their words in the tree, and their names at the end of them. */
  ghost predicate Named(t: Table, tree: seq<Node>, paths: seq<seq<bool>>, n: nat) {
    |tree| == |paths| && forall i, c: byte :: 0 <= i < |paths| && c < n && paths[i] == Code(t, c) ==> tree[i].sym == c
  }

  ghost predicate Holds(t: Table, paths: seq<seq<bool>>, c: byte) {
    forall k :: 0 <= k <= |Code(t, c)| ==> Code(t, c)[..k] in paths
  }

  lemma NothingBelow(tree: seq<Node>, paths: seq<seq<bool>>, w: seq<bool>, bit: bool)
    requires Linked(tree, paths) && w !in paths
    ensures w + [bit] !in paths
  {
    forall i | 0 <= i < |paths| ensures paths[i] != w + [bit] {
      assert Hangs(paths, i);
      assert (w + [bit])[..|w|] == w;
    }
  }

  lemma GrowLink(tree: seq<Node>, paths: seq<seq<bool>>, node: nat, bit: bool, leaf: Node, i: nat, b: bool)
    requires Linked(tree, paths) && node < |tree| && tree[node].Child(bit) == 0 && leaf.zero == leaf.one == 0
    requires i <= |tree|
    ensures LinkOk(tree[node := tree[node].Link(bit, |tree|)] + [leaf], paths + [paths[node] + [bit]], i, b)
  {
    var w := paths[node] + [bit];
    assert LinkOk(tree, paths, node, bit);
    if i == |tree| {
      NothingBelow(tree, paths, w, b);
      assert |w + [b]| != |w|;
    } else {
      GrowOld(tree, paths, node, bit, leaf, i, b);
    }
  }

  lemma LastBit(p: seq<bool>, b: bool, q: seq<bool>, c: bool)
    requires p + [b] == q + [c]
    ensures p == q && b == c
  {
    assert p == (p + [b])[..|p|] && q == (q + [c])[..|q|];
    assert (p + [b])[|p|] == b && (q + [c])[|q|] == c;
  }

  lemma GrowOld(tree: seq<Node>, paths: seq<seq<bool>>, node: nat, bit: bool, leaf: Node, i: nat, b: bool)
    requires |tree| == |paths| && node < |tree| && i < |tree| && LinkOk(tree, paths, i, b)
    requires tree[node].Child(bit) == 0 && (i != node ==> paths[i] != paths[node])
    ensures LinkOk(tree[node := tree[node].Link(bit, |tree|)] + [leaf], paths + [paths[node] + [bit]], i, b)
  {
    if paths[i] + [b] == paths[node] + [bit] {
      LastBit(paths[i], b, paths[node], bit);
    }
  }

  /** A new node is one step further than the one it hangs on. */
  lemma GrowLinked(tree: seq<Node>, paths: seq<seq<bool>>, node: nat, bit: bool, leaf: Node)
    requires Linked(tree, paths) && node < |tree| && tree[node].Child(bit) == 0 && leaf.zero == leaf.one == 0
    ensures Linked(tree[node := tree[node].Link(bit, |tree|)] + [leaf], paths + [paths[node] + [bit]])
  {
    var w := paths[node] + [bit];
    var tree1, paths1 := tree[node := tree[node].Link(bit, |tree|)] + [leaf], paths + [w];
    assert LinkOk(tree, paths, node, bit);
    forall i, b | 0 <= i < |tree1| ensures LinkOk(tree1, paths1, i, b) {
      GrowLink(tree, paths, node, bit, leaf, i, b);
    }
    forall i | 0 <= i < |paths1| ensures Hangs(paths1, i) {
      if i < |paths| {
        assert Hangs(paths, i);
      } else {
        assert w[..|w| - 1] == paths[node];
      }
    }
  }

  lemma {:induction false} BitAt(v: nat, n: nat, i: nat)
    requires i < n
    ensures BitsOf(v, n)[n - 1 - i] == (v / Pow2(i) % 2 == 1)
  {
    if i > 0 {
      BitAt(v / 2, n - 1, i - 1);
      DivTwice(v, Pow2(i - 1));
    }
  }

  /** Names stay right when the tree grows along the word of symbol n. */
  lemma GrowNamed(t: Table, tree: seq<Node>, paths: seq<seq<bool>>, node: nat, bit: bool, n: byte)
    requires PrefixFree(t) && Named(t, tree, paths, n) && node < |tree|
    requires paths[node] + [bit] <= Code(t, n)
    ensures Named(t, tree[node := tree[node].Link(bit, |tree|)] + [Node(0, 0, 0)], paths + [paths[node] + [bit]], n)
  {
  }

  ghost predicate Growing(t: Table, tree: seq<Node>, paths: seq<seq<bool>>, n: nat) {
    Linked(tree, paths) && Within(t, paths) && Named(t, tree, paths, n)
  }

  /** One step down the word of sym, over a new node if there is none. */
  method Descend(t: Table, tree: seq<Node>, ghost paths: seq<seq<bool>>, sym: byte, node: nat, bit: bool)
    returns (tree1: seq<Node>, ghost paths1: seq<seq<bool>>, next: nat)
    requires PrefixFree(t) && Growing(t, tree, paths, sym) && node < |tree| && paths[node] + [bit] <= Code(t, sym)
    ensures Growing(t, tree1, paths1, sym) && |tree1| <= |tree| + 1 && paths <= paths1
    ensures next < |tree1| && paths1[next] == paths[node] + [bit]
  {
    tree1, paths1 := tree, paths;
    assert LinkOk(tree, paths, node, bit);
    next := tree[node].Child(bit);
    if next == 0 {
      GrowLinked(tree, paths, node, bit, Node(0, 0, 0));
      GrowNamed(t, tree, paths, node, bit, sym);
      next := |tree|;
      tree1, paths1 := tree[node := tree[node].Link(bit, next)] + [Node(0, 0, 0)], paths + [paths[node] + [bit]];
      assert Starts(t, paths[node] + [bit]);
    }
  }

  lemma NextBit(t: Table, c: byte, i: nat, word: seq<bool>, path: seq<bool>) returns (bit: bool)
    requires i < t(c).length && word == Code(t, c) && path == word[..t(c).length - 1 - i]
    ensures bit == (t(c).value / Pow2(i) % 2 == 1) && path + [bit] == word[..t(c).length - i] && path + [bit] <= word
  {
    BitAt(t(c).value, t(c).length, i);
    bit := t(c).value / Pow2(i) % 2 == 1;
  }

  ghost predicate HoldsUpTo(word: seq<bool>, paths: seq<seq<bool>>, d: nat) {
    d <= |word| && forall k :: 0 <= k <= d ==> word[..k] in paths
  }

  lemma HoldsNext(word: seq<bool>, a: seq<seq<bool>>, b: seq<seq<bool>>, d: nat, node: nat)
    requires HoldsUpTo(word, a, d) && d < |word| && a <= b && node < |b| && b[node] == word[..d + 1]
    ensures HoldsUpTo(word, b, d + 1)
  {
    forall k | 0 <= k <= d + 1 ensures word[..k] in b {
      if k <= d {
        assert word[..k] in a;
      }
    }
  }

  /** Bit i of the word of sym. */
  method FollowBit(t: Table, tree: seq<Node>, ghost paths: seq<seq<bool>>, sym: byte, ghost word: seq<bool>,
                   node: nat, i: nat)
    returns (tree1: seq<Node>, ghost paths1: seq<seq<bool>>, next: nat)
    requires PrefixFree(t) && Growing(t, tree, paths, sym) && word == Code(t, sym) && i < t(sym).length && node < |tree|
    requires paths[node] == word[..t(sym).length - 1 - i] && HoldsUpTo(word, paths, t(sym).length - 1 - i)
    ensures Growing(t, tree1, paths1, sym) && |tree1| <= |tree| + 1 && paths <= paths1 && next < |tree1|
    ensures paths1[next] == word[..t(sym).length - i] && HoldsUpTo(word, paths1, t(sym).length - i)
  {
    var bit := t(sym).value / Pow2(i) % 2 == 1;
    ghost var _ := NextBit(t, sym, i, word, paths[node]);
    tree1, paths1, next := Descend(t, tree, paths, sym, node, bit);
    HoldsNext(word, paths, paths1, t(sym).length - 1 - i, next);
  }

  /** The node at the end of the word of sym, with all the nodes on the way. */
  method WalkWord(t: Table, tree0: seq<Node>, ghost paths0: seq<seq<bool>>, sym: byte, ghost word: seq<bool>)
    returns (tree: seq<Node>, ghost paths: seq<seq<bool>>, node: nat)
    requires PrefixFree(t) && Growing(t, tree0, paths0, sym) && word == Code(t, sym)
    ensures Growing(t, tree, paths, sym) && |tree| <= |tree0| + 30 && paths0 <= paths
    ensures node < |tree| && paths[node] == word && HoldsUpTo(word, paths, |word|)
  {
    tree, paths, node := tree0, paths0, 0;
    var length := t(sym).length;
    var i := length;
    while i > 0
      invariant 0 <= i <= length && node < |tree| <= |tree0| + (length - i)
      invariant Growing(t, tree, paths, sym)
      invariant paths0 <= paths && paths[node] == word[..length - i] && HoldsUpTo(word, paths, length - i)
    {
      i := i - 1;
      tree, paths, node := FollowBit(t, tree, paths, sym, word, node, i);
    }
    assert word[..length] == word;
  }

  /** One symbol of buildHuffmanTree: walk its word from the root and add what is missing. */
  method Insert(t: Table, tree0: seq<Node>, ghost paths0: seq<seq<bool>>, sym: byte)
    returns (tree: seq<Node>, ghost paths: seq<seq<bool>>)
    requires PrefixFree(t) && Growing(t, tree0, paths0, sym)
    ensures Growing(t, tree, paths, sym + 1)
    ensures |tree| <= |tree0| + 30 && paths0 <= paths && Holds(t, paths, sym)
  {
    var node;
    tree, paths, node := WalkWord(t, tree0, paths0, sym, Code(t, sym));
    ghost var grown := tree;
    tree := tree[node := tree[node].(sym := sym)];
    RenameKeeps(t, grown, tree, paths, node, sym);
  }

  lemma RenameKeeps(t: Table, tree: seq<Node>, tree1: seq<Node>, paths: seq<seq<bool>>, node: nat, sym: byte)
    requires PrefixFree(t) && Linked(tree, paths) && Named(t, tree, paths, sym) && node < |tree|
             && paths[node] == Code(t, sym)
    requires tree1 == tree[node := tree[node].(sym := sym)]
    ensures Linked(tree1, paths) && Named(t, tree1, paths, sym + 1)
  {
    forall i, bit | 0 <= i < |tree| ensures LinkOk(tree1, paths, i, bit) {
      assert LinkOk(tree, paths, i, bit);
    }
    forall i, c: byte | 0 <= i < |paths| && c < sym + 1 && paths[i] == Code(t, c) ensures tree1[i].sym == c {
      assert i == node ==> Code(t, sym) <= Code(t, c);
    }
  }

  /** The decoding tree: its nodes are the starts of words. */
  ghost predicate TreeOf(t: Table, tree: seq<Node>, paths: seq<seq<bool>>) {
    && Linked(tree, paths) && Within(t, paths) && Named(t, tree, paths, 256)
    && (forall w :: Starts(t, w) ==> w in paths)
  }

  /** buildHuffmanTree. Node numbers fit in 16 bits. */
  method Build(t: Table) returns (tree: seq<Node>, ghost paths: seq<seq<bool>>)
    requires Shaped(t)
    ensures TreeOf(t, tree, paths) && |tree| < 0x1_0000
  {
    tree, paths := [Node(0, 0, 0)], [[]];
    RootGrows(t);
    var sym := 0;
    while sym < 256
      invariant 0 <= sym <= 256 && |tree| <= 1 + 30 * sym
      invariant Growing(t, tree, paths, sym)
      invariant HoldsFirst(t, paths, sym)
    {
      ghost var before := paths;
      tree, paths := Insert(t, tree, paths, sym);
      HoldsMore(t, before, paths, sym);
      sym := sym + 1;
    }
    HoldsAll(t, paths);
  }

  lemma RootGrows(t: Table)
    requires Shaped(t)
    ensures Growing(t, [Node(0, 0, 0)], [[]], 0)
  {
    EmptyIsProper(t);
    WholeOrProper(t, []);
  }

  ghost predicate HoldsFirst(t: Table, paths: seq<seq<bool>>, n: nat) {
    forall c: byte :: c < n ==> Holds(t, paths, c)
  }

  lemma HoldsMore(t: Table, a: seq<seq<bool>>, b: seq<seq<bool>>, sym: byte)
    requires HoldsFirst(t, a, sym) && a <= b && Holds(t, b, sym)
    ensures HoldsFirst(t, b, sym + 1)
  {
    forall c: byte | c < sym ensures Holds(t, b, c) {
      assert Holds(t, a, c);
    }
  }

  lemma HoldsAll(t: Table, paths: seq<seq<bool>>)
    requires HoldsFirst(t, paths, 256)
    ensures forall w :: Starts(t, w) ==> w in paths
  {
    forall w | Starts(t, w) ensures w in paths {
      var c: byte :| w <= Code(t, c);
      assert Holds(t, paths, c) && w == Code(t, c)[..|w|];
    }
  }

  // Decoding.

  /** At the end of a path, a node without a zero child is a whole word. */
  lemma LeafIsWord(t: Table, tree: seq<Node>, paths: seq<seq<bool>>, node: nat)
    requires Shaped(t) && TreeOf(t, tree, paths) && node < |tree|
    ensures tree[node].Child(false) == 0 <==> Whole(t, paths[node])
    ensures Whole(t, paths[node]) ==> tree[node].sym == Symbol(t, paths[node])
  {
    var w := paths[node];
    assert LinkOk(tree, paths, node, false);
    WholeOrProper(t, w);
    if tree[node].Child(false) != 0 {
      assert Starts(t, w + [false]);
      var c: byte :| w + [false] <= Code(t, c);
      assert w < Code(t, c);
    }
  }

  /** A link leads to what has been read with one more bit, and none means that no word starts so. */
  lemma StepDown(t: Table, tree: seq<Node>, paths: seq<seq<bool>>, node: nat, bit: bool)
    requires Shaped(t) && TreeOf(t, tree, paths) && node < |tree|
    ensures var next, w := tree[node].Child(bit), paths[node] + [bit];
            && (next == 0 <==> !Starts(t, w))
            && (next != 0 ==>
                  && next < |tree| && paths[next] == w && (tree[next].Child(false) == 0 <==> Whole(t, w))
                  && (Whole(t, w) ==> tree[next].sym == Symbol(t, w)))
  {
    assert LinkOk(tree, paths, node, bit);
    var next := tree[node].Child(bit);
    if next != 0 {
      LeafIsWord(t, tree, paths, next);
    }
  }

  /** The state of the loop of huffmanDecode. */
  datatype Walk = Walk(out: seq<byte>, node: nat, depth: nat, ones: bool)

  ghost predicate Reads(tree: seq<Node>, paths: seq<seq<bool>>, s: Walk, r: Reading) {
    && r.Reading? && s.node < |tree| == |paths| && s.out == r.out && paths[s.node] == r.w
    && s.depth == |r.w| && s.ones == (r.w == Ones(|r.w|))
  }

  datatype Failure = Ok | Invalid | Long

  /** One bit of huffmanDecode. */
  method ReadOne(t: Table, tree: seq<Node>, ghost paths: seq<seq<bool>>, maxLen: nat, s: Walk, bit: bool,
                 ghost r: Reading)
    returns (err: Failure, n: Walk)
    requires Shaped(t) && TreeOf(t, tree, paths) && Reads(tree, paths, s, r)
    ensures Outcome(tree, paths, err, n, ReadBit(t, maxLen, r, bit))
  {
    n := s;
    StepDown(t, tree, paths, s.node, bit);
    var next := tree[s.node].Child(bit);
    if next == 0 {
      return Invalid, s;
    }
    OnesNext(r.w, bit);
    n := Walk(s.out, next, s.depth + 1, s.ones && bit);
    if tree[next].Child(false) == 0 {
      n := n.(out := n.out + [tree[next].sym]);
      if maxLen > 0 && |n.out| > maxLen {
        return Long, n;
      }
      n := Walk(n.out, 0, 0, true);
    }
    err := Ok;
  }

  lemma OnesNext(w: seq<bool>, bit: bool)
    ensures (w + [bit] == Ones(|w| + 1)) == (w == Ones(|w|) && bit)
  {
    assert (w + [bit])[..|w|] == w;
    assert Ones(|w| + 1)[..|w|] == Ones(|w|);
  }

  ghost predicate Outcome(tree: seq<Node>, paths: seq<seq<bool>>, err: Failure, n: Walk, q: Reading) {
    match err case Ok => Reads(tree, paths, n, q) case Invalid => q == Failed case Long => q == TooLong
  }

  lemma NextTopBit(t: Table, maxLen: nat, bits: seq<bool>, all: seq<bool>, n: nat)
    requires n < |all|
    ensures Read(t, maxLen, bits + all[..n + 1]) == ReadBit(t, maxLen, Read(t, maxLen, bits + all[..n]), all[n])
  {
    assert bits + all[..n + 1] == bits + all[..n] + [all[n]];
    ReadSnoc(t, maxLen, bits + all[..n], all[n]);
  }

  lemma StuckInByte(t: Table, maxLen: nat, bits: seq<bool>, all: seq<bool>, n: nat)
    requires n <= |all| && !Read(t, maxLen, bits + all[..n]).Reading?
    ensures Read(t, maxLen, bits + all) == Read(t, maxLen, bits + all[..n])
  {
    StuckReading(t, maxLen, bits + all[..n], all[n..]);
    assert bits + all[..n] + all[n..] == bits + all;
  }

  /** all has the bits of b, from the highest. */
  ghost predicate Spells(all: seq<bool>, b: byte) {
    |all| == 8 && forall i :: 0 <= i < 8 ==> all[i] == (b / Pow2(7 - i) % 2 == 1)
  }

  lemma BitsSpell(b: byte)
    ensures Spells(BitsOf(b, 8), b)
  {
    forall i | 0 <= i < 8 ensures BitsOf(b, 8)[i] == (b / Pow2(7 - i) % 2 == 1) {
      BitAt(b, 8, 7 - i);
    }
  }

  /** Where the reader is after n bits of a byte. */
  ghost predicate Inside(t: Table, tree: seq<Node>, paths: seq<seq<bool>>, maxLen: nat, s: Walk, bits: seq<bool>,
                         all: seq<bool>, n: nat)
    requires n <= |all|
  {
    Reads(tree, paths, s, Read(t, maxLen, bits + all[..n]))
  }

  /** The next bit of a byte. */
  method ReadNth(t: Table, tree: seq<Node>, ghost paths: seq<seq<bool>>, maxLen: nat, s: Walk, bit: bool,
                 ghost bits: seq<bool>, ghost all: seq<bool>, ghost k: nat)
    returns (err: Failure, n: Walk)
    requires Shaped(t) && TreeOf(t, tree, paths) && k < |all| && all[k] == bit
    requires Inside(t, tree, paths, maxLen, s, bits, all, k)
    ensures err == Ok ==> Inside(t, tree, paths, maxLen, n, bits, all, k + 1)
    ensures err != Ok ==> Outcome(tree, paths, err, n, Read(t, maxLen, bits + all))
  {
    NextTopBit(t, maxLen, bits, all, k);
    err, n := ReadOne(t, tree, paths, maxLen, s, bit, Read(t, maxLen, bits + all[..k]));
    if err != Ok {
      StuckInByte(t, maxLen, bits, all, k + 1);
    }
  }

  lemma InsideEnds(t: Table, tree: seq<Node>, paths: seq<seq<bool>>, maxLen: nat, s: Walk, bits: seq<bool>,
                   all: seq<bool>)
    ensures Inside(t, tree, paths, maxLen, s, bits, all, 0) <==> Reads(tree, paths, s, Read(t, maxLen, bits))
    ensures Inside(t, tree, paths, maxLen, s, bits, all, |all|)
            <==> Reads(tree, paths, s, Read(t, maxLen, bits + all))
  {
    assert bits + all[..0] == bits && all[..|all|] == all;
  }

  /** The inner loop of huffmanDecode: the eight bits of a byte. */
  method ReadByte(t: Table, tree: seq<Node>, ghost paths: seq<seq<bool>>, maxLen: nat, s: Walk, b: byte,
                  ghost bits: seq<bool>, ghost all: seq<bool>)
    returns (err: Failure, n: Walk)
    requires Shaped(t) && TreeOf(t, tree, paths) && Reads(tree, paths, s, Read(t, maxLen, bits)) && Spells(all, b)
    ensures Outcome(tree, paths, err, n, Read(t, maxLen, bits + all))
  {
    n, err := s, Ok;
    var i := 8;
    InsideEnds(t, tree, paths, maxLen, s, bits, all);
    while i > 0
      invariant 0 <= i <= 8 && Inside(t, tree, paths, maxLen, n, bits, all, 8 - i)
    {
      i := i - 1;
      err, n := ReadNth(t, tree, paths, maxLen, n, b / Pow2(i) % 2 == 1, bits, all, 7 - i);
      if err != Ok {
        return;
      }
    }
    err := Ok;
    InsideEnds(t, tree, paths, maxLen, n, bits, all);
  }

  /** huffmanDecode. */
  method HuffmanDecode(t: Table, tree: seq<Node>, ghost paths: seq<seq<bool>>, s: seq<byte>, maxLen: nat)
    returns (r: Decoded)
    requires Shaped(t) && TreeOf(t, tree, paths)
    ensures r == Decode(t, maxLen, s)
  {
    var n := Walk([], 0, 0, true);
    var i := 0;
    assert s[..0] == [];
    while i < |s|
      invariant 0 <= i <= |s| && Reads(tree, paths, n, Read(t, maxLen, Flat(s[..i])))
    {
      var err;
      BitsSpell(s[i]);
      err, n := ReadByte(t, tree, paths, maxLen, n, s[i], Flat(s[..i]), BitsOf(s[i], 8));
      NextByte(s, i);
      if err != Ok {
        StuckBytes(t, maxLen, s, i + 1);
        return if err == Invalid then ErrInvalidHuffman else ErrStringTooLong;
      }
      i := i + 1;
    }
    assert s[..i] == s;
    if n.depth > 7 || !n.ones {
      return ErrInvalidHuffman;
    }
    r := Decoded(n.out);
  }

  lemma NextByte(s: seq<byte>, i: nat)
    requires i < |s|
    ensures Flat(s[..i + 1]) == Flat(s[..i]) + BitsOf(s[i], 8)
  {
    assert s[..i + 1] == s[..i] + [s[i]];
    FlatSnoc(s[..i], s[i]);
  }

  lemma StuckBytes(t: Table, maxLen: nat, s: seq<byte>, i: nat)
    requires i <= |s| && !Read(t, maxLen, Flat(s[..i])).Reading?
    ensures Read(t, maxLen, Flat(s)) == Read(t, maxLen, Flat(s[..i]))
  {
    assert s == s[..i] + s[i..];
    FlatAppend(s[..i], s[i..]);
    StuckReading(t, maxLen, Flat(s[..i]), Flat(s[i..]));
  }
}
