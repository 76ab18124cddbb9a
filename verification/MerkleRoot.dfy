/** The Merkle root over record hashes, computed level by level. */
module MerkleRoot {
  import opened AuditChain

  function Pow2(h: nat): (r: nat)
    ensures r >= 1
  {
    if h == 0 then 1 else 2 * Pow2(h - 1)
  }

  /** How many levels lie above n leaves. */
  function Height(n: nat): (h: nat)
    requires n >= 1
    ensures n <= Pow2(h)
  {
    if n == 1 then 0 else 1 + Height((n + 1) / 2)
  }

  /** The tree of height h over the leaves, from the top: a missing right half repeats the left one. */
  function Tree<T>(join: (T, T) -> T, h: nat, s: seq<T>): T
    requires 1 <= |s| <= Pow2(h)
  {
    if h == 0 then s[0]
    else if |s| <= Pow2(h - 1) then
      var x := Tree(join, h - 1, s);
      join(x, x)
    else join(Tree(join, h - 1, s[..Pow2(h - 1)]), Tree(join, h - 1, s[Pow2(h - 1)..]))
  }

  function Root<T>(join: (T, T) -> T, none: T, s: seq<T>): T {
    if s == [] then none else Tree(join, Height(|s|), s)
  }

  /** One level up: neighbours are joined in pairs, a last one without neighbour with itself. */
  function Level<T>(join: (T, T) -> T, s: seq<T>): (r: seq<T>)
    ensures |r| == (|s| + 1) / 2
  {
    seq((|s| + 1) / 2, i requires 0 <= i < (|s| + 1) / 2 => Pair(join, s, i))
  }

  function Pair<T>(join: (T, T) -> T, s: seq<T>, i: nat): T
    requires 2 * i < |s|
  {
    join(s[2 * i], if 2 * i + 1 < |s| then s[2 * i + 1] else s[2 * i])
  }

  lemma PairInPart<T>(join: (T, T) -> T, s: seq<T>, m: nat, i: nat)
    requires m % 2 == 0 && m <= |s| && 2 * i < |s|
    ensures 2 * i < m ==> Pair(join, s, i) == Pair(join, s[..m], i)
    ensures 2 * i >= m ==> Pair(join, s, i) == Pair(join, s[m..], i - m / 2)
  {
  }

  /** An even prefix and the rest can be taken up a level apart. */
  lemma LevelSplits<T>(join: (T, T) -> T, s: seq<T>, m: nat)
    requires m % 2 == 0 && m <= |s|
    ensures Level(join, s) == Level(join, s[..m]) + Level(join, s[m..])
  {
    var l, a, b := Level(join, s), Level(join, s[..m]), Level(join, s[m..]);
    assert |l| == |a| + |b|;
    forall i | 0 <= i < |l| ensures l[i] == (a + b)[i] {
      PairInPart(join, s, m, i);
    }
  }

  lemma Pow2Even(h: nat)
    requires h >= 1
    ensures Pow2(h) % 2 == 0 && Pow2(h) / 2 == Pow2(h - 1)
  {
  }

  /** The tree over some leaves is the tree, one lower, over their first level. */
  lemma {:induction false} TreeOfLevel<T>(join: (T, T) -> T, h: nat, s: seq<T>)
    requires h >= 1 && 1 <= |s| <= Pow2(h)
    ensures |Level(join, s)| <= Pow2(h - 1) && Tree(join, h, s) == Tree(join, h - 1, Level(join, s))
  {
    if h > 1 {
      var m := Pow2(h - 1);
      if |s| <= m {
        TreeOfLevel(join, h - 1, s);
        LevelOfLow(join, h, s);
      } else {
        TreeOfLevel(join, h - 1, s[..m]);
        TreeOfLevel(join, h - 1, s[m..]);
        LevelOfHalves(join, h, s, m);
      }
    }
  }

  lemma LevelOfLow<T>(join: (T, T) -> T, h: nat, s: seq<T>)
    requires h > 1 && 1 <= |s| <= Pow2(h - 1) && |Level(join, s)| <= Pow2(h - 2)
    requires Tree(join, h - 1, s) == Tree(join, h - 2, Level(join, s))
    ensures |Level(join, s)| <= Pow2(h - 1) && Tree(join, h, s) == Tree(join, h - 1, Level(join, s))
  {
  }

  /** The two halves of a tree, each taken up one level. */
  lemma LevelOfHalves<T>(join: (T, T) -> T, h: nat, s: seq<T>, m: nat)
    requires h > 1 && m == Pow2(h - 1) < |s| <= Pow2(h)
    requires |Level(join, s[..m])| <= Pow2(h - 2) && |Level(join, s[m..])| <= Pow2(h - 2)
    requires Tree(join, h - 1, s[..m]) == Tree(join, h - 2, Level(join, s[..m]))
    requires Tree(join, h - 1, s[m..]) == Tree(join, h - 2, Level(join, s[m..]))
    ensures |Level(join, s)| <= Pow2(h - 1) && Tree(join, h, s) == Tree(join, h - 1, Level(join, s))
  {
    HalvesOfLevel(join, h, s);
  }

  lemma HalvesOfLevel<T>(join: (T, T) -> T, h: nat, s: seq<T>)
    requires h >= 2 && Pow2(h - 1) < |s| <= Pow2(h)
    ensures Pow2(h - 2) < |Level(join, s)| <= Pow2(h - 1)
    ensures Level(join, s)[..Pow2(h - 2)] == Level(join, s[..Pow2(h - 1)])
    ensures Level(join, s)[Pow2(h - 2)..] == Level(join, s[Pow2(h - 1)..])
  {
    Pow2Even(h - 1);
    LevelSplits(join, s, Pow2(h - 1));
  }

  // ----- the loop -----

  function Concatenated(sha: string -> string): (string, string) -> string {
    (left, right) => sha(left + right)
  }

  function RootOf(sha: string -> string, leaves: seq<string>): string {
    Root(Concatenated(sha), GENESIS_HASH, leaves)
  }

  /** The level loop computes the root of the tree. */
  method CalculateMerkleRoot(sha: string -> string, leaves: seq<string>) returns (root: string)
    ensures root == RootOf(sha, leaves)
  {
    if |leaves| == 0 {
      return GENESIS_HASH;
    }
    var currentLevel := leaves;
    while |currentLevel| > 1
      invariant |currentLevel| >= 1
      invariant TopOf(sha, currentLevel) == TopOf(sha, leaves)
      decreases |currentLevel|
    {
      LevelKeepsTop(sha, currentLevel);
      currentLevel := NextLevel(sha, currentLevel);
    }
    root := currentLevel[0];
  }

  ghost function TopOf(sha: string -> string, s: seq<string>): string
    requires s != []
  {
    Tree(Concatenated(sha), Height(|s|), s)
  }

  lemma LevelKeepsTop(sha: string -> string, s: seq<string>)
    requires |s| > 1
    ensures TopOf(sha, Level(Concatenated(sha), s)) == TopOf(sha, s)
  {
    HeightOfLevel(|s|);
    TreeOfLevel(Concatenated(sha), Height(|s|), s);
  }

  lemma HeightOfLevel(n: nat)
    requires n > 1
    ensures Height(n) == 1 + Height((n + 1) / 2)
  {
  }

  method NextLevel(sha: string -> string, currentLevel: seq<string>) returns (nextLevel: seq<string>)
    ensures nextLevel == Level(Concatenated(sha), currentLevel)
  {
    nextLevel := [];
    var i := 0;
    while i < |currentLevel|
      invariant i % 2 == 0 && 0 <= i <= |currentLevel| + 1
      invariant |nextLevel| == i / 2
      invariant forall k :: 0 <= k < i / 2 ==> nextLevel[k] == Level(Concatenated(sha), currentLevel)[k]
    {
      var left := currentLevel[i];
      var right := if i + 1 < |currentLevel| then currentLevel[i + 1] else left;
      nextLevel := nextLevel + [sha(left + right)];
      i := i + 2;
    }
  }

  /** A record contributes its hash, or, lacking one, the hash of its own text. */
  function Leaf(rawDigest: Entry -> string, e: Entry): string {
    if e.hash != "" then e.hash else rawDigest(e)
  }

  function Leaves(rawDigest: Entry -> string, list: seq<Entry>): seq<string> {
    seq(|list|, i requires 0 <= i < |list| => Leaf(rawDigest, list[i]))
  }

  method RootOfRecords(sha: string -> string, rawDigest: Entry -> string, list: seq<Entry>) returns (root: string)
    ensures root == RootOf(sha, Leaves(rawDigest, list))
  {
    root := CalculateMerkleRoot(sha, Leaves(rawDigest, list));
  }

  // ----- what the root commits to -----

  /** The pairs joined while building the tree. */
  ghost function Joined<T>(join: (T, T) -> T, h: nat, s: seq<T>): set<(T, T)>
    requires 1 <= |s| <= Pow2(h)
  {
    if h == 0 then {}
    else if |s| <= Pow2(h - 1) then
      var x := Tree(join, h - 1, s);
      Joined(join, h - 1, s) + {(x, x)}
    else
      var m := Pow2(h - 1);
      Joined(join, h - 1, s[..m]) + Joined(join, h - 1, s[m..]) +
        {(Tree(join, h - 1, s[..m]), Tree(join, h - 1, s[m..]))}
  }

  /** Two different pairs, one from each set, are joined to the same value. */
  ghost predicate Clash<T(!new)>(join: (T, T) -> T, a: set<(T, T)>, b: set<(T, T)>) {
    exists p, q :: p in a && q in b && p != q && join(p.0, p.1) == join(q.0, q.1)
  }

  lemma ClashGrows<T(!new)>(join: (T, T) -> T, a: set<(T, T)>, b: set<(T, T)>, a': set<(T, T)>, b': set<(T, T)>)
    requires Clash(join, a, b) && a <= a' && b <= b'
    ensures Clash(join, a', b')
  {
  }

  ghost predicate SameOrClash<T(!new)>(join: (T, T) -> T, h: nat, s: seq<T>, t: seq<T>)
    requires 1 <= |s| <= Pow2(h) && 1 <= |t| <= Pow2(h)
  {
    s == t || Clash(join, Joined(join, h, s), Joined(join, h, t))
  }

  lemma LowTree<T(!new)>(join: (T, T) -> T, h: nat, s: seq<T>, t: seq<T>)
    requires h > 0 && 1 <= |s| == |t| <= Pow2(h - 1)
    requires Tree(join, h, s) == Tree(join, h, t)
    requires Tree(join, h - 1, s) == Tree(join, h - 1, t) ==> SameOrClash(join, h - 1, s, t)
    ensures SameOrClash(join, h, s, t)
  {
    var x, y := Tree(join, h - 1, s), Tree(join, h - 1, t);
    assert (x, x) in Joined(join, h, s) && (y, y) in Joined(join, h, t);
    if x == y && s != t {
      ClashGrows(join, Joined(join, h - 1, s), Joined(join, h - 1, t), Joined(join, h, s), Joined(join, h, t));
    }
  }

  lemma FullTree<T(!new)>(join: (T, T) -> T, h: nat, s: seq<T>, t: seq<T>, m: nat)
    requires h > 0 && m == Pow2(h - 1) < |s| == |t| <= Pow2(h)
    requires Tree(join, h, s) == Tree(join, h, t)
    requires Tree(join, h - 1, s[..m]) == Tree(join, h - 1, t[..m]) ==> SameOrClash(join, h - 1, s[..m], t[..m])
    requires Tree(join, h - 1, s[m..]) == Tree(join, h - 1, t[m..]) ==> SameOrClash(join, h - 1, s[m..], t[m..])
    ensures SameOrClash(join, h, s, t)
  {
    var p := (Tree(join, h - 1, s[..m]), Tree(join, h - 1, s[m..]));
    var q := (Tree(join, h - 1, t[..m]), Tree(join, h - 1, t[m..]));
    assert p in Joined(join, h, s) && q in Joined(join, h, t);
    if p == q {
      if s[..m] != t[..m] {
        ClashGrows(join, Joined(join, h - 1, s[..m]), Joined(join, h - 1, t[..m]),
                   Joined(join, h, s), Joined(join, h, t));
      } else if s[m..] != t[m..] {
        ClashGrows(join, Joined(join, h - 1, s[m..]), Joined(join, h - 1, t[m..]),
                   Joined(join, h, s), Joined(join, h, t));
      } else {
        assert s == s[..m] + s[m..] && t == t[..m] + t[m..];
      }
    }
  }

  lemma {:induction false} SameTreeSameLeaves<T(!new)>(join: (T, T) -> T, h: nat, s: seq<T>, t: seq<T>)
    requires 1 <= |s| == |t| <= Pow2(h) && Tree(join, h, s) == Tree(join, h, t)
    ensures SameOrClash(join, h, s, t)
  {
    if h > 0 {
      var m := Pow2(h - 1);
      if |s| <= m {
        if Tree(join, h - 1, s) == Tree(join, h - 1, t) { SameTreeSameLeaves(join, h - 1, s, t); }
        LowTree(join, h, s, t);
      } else {
        if Tree(join, h - 1, s[..m]) == Tree(join, h - 1, t[..m]) { SameTreeSameLeaves(join, h - 1, s[..m], t[..m]); }
        if Tree(join, h - 1, s[m..]) == Tree(join, h - 1, t[m..]) { SameTreeSameLeaves(join, h - 1, s[m..], t[m..]); }
        FullTree(join, h, s, t, m);
      }
    }
  }

  /** All leaves have the one length of a digest. */
  ghost predicate Uniform(sha: string -> string, s: seq<string>) {
    (forall x :: |sha(x)| == 64) && forall i :: 0 <= i < |s| ==> |s[i]| == 64
  }

  lemma {:induction false} TreeIsDigest(sha: string -> string, h: nat, s: seq<string>)
    requires 1 <= |s| <= Pow2(h) && Uniform(sha, s)
    ensures |Tree(Concatenated(sha), h, s)| == 64
    ensures forall p :: p in Joined(Concatenated(sha), h, s) ==> |p.0| == 64 && |p.1| == 64
  {
    if h > 0 {
      if |s| <= Pow2(h - 1) {
        TreeIsDigest(sha, h - 1, s);
      } else {
        TreeIsDigest(sha, h - 1, s[..Pow2(h - 1)]);
        TreeIsDigest(sha, h - 1, s[Pow2(h - 1)..]);
      }
    }
  }

  lemma SameHalves(a: string, b: string, c: string, d: string)
    requires a + b == c + d && |a| == |c|
    ensures a == c && b == d
  {
    assert a == (a + b)[..|a|] && b == (a + b)[|a|..];
    assert c == (c + d)[..|c|] && d == (c + d)[|c|..];
  }

  /** Equally many leaves with the same root are the same leaves, or two different texts hashed on the way collide. */
  lemma RootCommitsToLeaves(sha: string -> string, s: seq<string>, t: seq<string>)
    returns (left: (string, string), right: (string, string))
    requires |s| == |t| && Uniform(sha, s) && Uniform(sha, t) && RootOf(sha, s) == RootOf(sha, t)
    ensures s == t ||
      (&& s != []
       && left in Joined(Concatenated(sha), Height(|s|), s) && right in Joined(Concatenated(sha), Height(|t|), t)
       && left.0 + left.1 != right.0 + right.1 && sha(left.0 + left.1) == sha(right.0 + right.1))
  {
    left, right := ("", ""), ("", "");
    if s != t {
      var join, h := Concatenated(sha), Height(|s|);
      SameTreeSameLeaves(join, h, s, t);
      left, right :|
        && left in Joined(join, h, s) && right in Joined(join, h, t)
        && left != right && join(left.0, left.1) == join(right.0, right.1);
      TreeIsDigest(sha, h, s);
      TreeIsDigest(sha, h, t);
      if left.0 + left.1 == right.0 + right.1 {
        SameHalves(left.0, left.1, right.0, right.1);
      }
    }
  }

  // ----- exactly which lists share a root -----

  /** The leaves with every missing half filled by a copy of the half beside it. */
  ghost function Padded<T>(h: nat, s: seq<T>): (r: seq<T>)
    requires 1 <= |s| <= Pow2(h)
    ensures |r| == Pow2(h)
  {
    if h == 0 then s
    else
      var m := Pow2(h - 1);
      if |s| <= m then Padded(h - 1, s) + Padded(h - 1, s) else Padded(h - 1, s[..m]) + Padded(h - 1, s[m..])
  }

  /** A full tree is that of its halves. */
  lemma TreeOfHalves<T>(join: (T, T) -> T, h: nat, a: seq<T>, b: seq<T>)
    requires h > 0 && |a| == |b| == Pow2(h - 1)
    ensures Tree(join, h, a + b) == join(Tree(join, h - 1, a), Tree(join, h - 1, b))
    ensures Joined(join, h, a + b)
         == Joined(join, h - 1, a) + Joined(join, h - 1, b) + {(Tree(join, h - 1, a), Tree(join, h - 1, b))}
  {
    assert (a + b)[..|a|] == a && (a + b)[|a|..] == b;
  }

  ghost predicate SameTree<T>(join: (T, T) -> T, h: nat, p: seq<T>, s: seq<T>)
    requires 1 <= |p| <= Pow2(h) && 1 <= |s| <= Pow2(h)
  {
    Tree(join, h, p) == Tree(join, h, s) && Joined(join, h, p) == Joined(join, h, s)
  }

  lemma DoubledSameTree<T>(join: (T, T) -> T, h: nat, p: seq<T>, s: seq<T>)
    requires h > 0 && |p| == Pow2(h - 1) && 1 <= |s| <= Pow2(h - 1) && SameTree(join, h - 1, p, s)
    ensures SameTree(join, h, p + p, s)
  {
    TreeOfHalves(join, h, p, p);
  }

  lemma HalvesSameTree<T>(join: (T, T) -> T, h: nat, p: seq<T>, q: seq<T>, a: seq<T>, b: seq<T>)
    requires h > 0 && |p| == |q| == |a| == Pow2(h - 1) && 1 <= |b| <= Pow2(h - 1)
    requires SameTree(join, h - 1, p, a) && SameTree(join, h - 1, q, b)
    ensures SameTree(join, h, p + q, a + b)
  {
    TreeOfHalves(join, h, p, q);
    assert (a + b)[..|a|] == a && (a + b)[|a|..] == b;
  }

  /** Filling up changes neither the tree nor the pairs it joins. */
  lemma {:induction false} TreeOfPadded<T>(join: (T, T) -> T, h: nat, s: seq<T>)
    requires 1 <= |s| <= Pow2(h)
    ensures SameTree(join, h, Padded(h, s), s)
  {
    if h > 0 {
      var m := Pow2(h - 1);
      if |s| <= m {
        TreeOfPadded(join, h - 1, s);
        DoubledSameTree(join, h, Padded(h - 1, s), s);
      } else {
        TreeOfPadded(join, h - 1, s[..m]);
        TreeOfPadded(join, h - 1, s[m..]);
        HalvesSameTree(join, h, Padded(h - 1, s[..m]), Padded(h - 1, s[m..]), s[..m], s[m..]);
        assert s == s[..m] + s[m..];
      }
    }
  }

  ghost predicate JoinsLess<T>(join: (T, T) -> T, h: nat, level: seq<T>, s: seq<T>)
    requires h >= 1 && 1 <= |level| <= Pow2(h - 1) && 1 <= |s| <= Pow2(h)
  {
    Joined(join, h - 1, level) <= Joined(join, h, s)
  }

  lemma JoinsLessLow<T>(join: (T, T) -> T, h: nat, level: seq<T>, s: seq<T>)
    requires h > 1 && 1 <= |level| <= Pow2(h - 2) && 1 <= |s| <= Pow2(h - 1)
    requires JoinsLess(join, h - 1, level, s) && Tree(join, h - 2, level) == Tree(join, h - 1, s)
    ensures JoinsLess(join, h, level, s)
  {
  }

  lemma JoinsLessHigh<T>(join: (T, T) -> T, h: nat, a: seq<T>, b: seq<T>, c: seq<T>, d: seq<T>)
    requires h > 1 && |a| == Pow2(h - 2) && 1 <= |b| <= Pow2(h - 2) && |c| == Pow2(h - 1) && 1 <= |d| <= Pow2(h - 1)
    requires JoinsLess(join, h - 1, a, c) && JoinsLess(join, h - 1, b, d)
    requires Tree(join, h - 2, a) == Tree(join, h - 1, c) && Tree(join, h - 2, b) == Tree(join, h - 1, d)
    ensures JoinsLess(join, h, a + b, c + d)
  {
    assert (a + b)[..|a|] == a && (a + b)[|a|..] == b && (c + d)[..|c|] == c && (c + d)[|c|..] == d;
  }

  /** The pairs joined above the first level are among those of the whole tree. */
  lemma {:induction false} JoinedOfLevel<T>(join: (T, T) -> T, h: nat, s: seq<T>)
    requires h >= 1 && 1 <= |s| <= Pow2(h)
    ensures |Level(join, s)| <= Pow2(h - 1) && JoinsLess(join, h, Level(join, s), s)
    decreases h, |s|
  {
    TreeOfLevel(join, h, s);
    if h > 1 {
      var m := Pow2(h - 1);
      Pow2Even(h - 1);
      if |s| <= m {
        TreeOfLevel(join, h - 1, s);
        JoinedOfLevel(join, h - 1, s);
        JoinsLessLow(join, h, Level(join, s), s);
      } else {
        LevelSplits(join, s, m);
        JoinedOfHalves(join, h, s[..m], s[m..]);
        assert s == s[..m] + s[m..];
      }
    }
  }

  lemma LevelSize<T>(join: (T, T) -> T, h: nat, s: seq<T>)
    requires h >= 1 && 1 <= |s| <= Pow2(h)
    ensures 1 <= |Level(join, s)| <= Pow2(h - 1) && (|s| == Pow2(h) ==> |Level(join, s)| == Pow2(h - 1))
  {
  }

  lemma {:induction false} JoinedOfHalves<T>(join: (T, T) -> T, h: nat, c: seq<T>, d: seq<T>)
    requires h > 1 && |c| == Pow2(h - 1) && 1 <= |d| <= Pow2(h - 1)
    ensures |Level(join, c) + Level(join, d)| <= Pow2(h - 1)
    ensures JoinsLess(join, h, Level(join, c) + Level(join, d), c + d)
    decreases h, |c|, 0
  {
    var a, b := Level(join, c), Level(join, d);
    LevelSize(join, h - 1, c);
    LevelSize(join, h - 1, d);
    TreeOfLevel(join, h - 1, c);
    TreeOfLevel(join, h - 1, d);
    JoinedOfLevel(join, h - 1, c);
    JoinedOfLevel(join, h - 1, d);
    JoinsLessHigh(join, h, a, b, c, d);
  }

  ghost function LevelsUp<T>(join: (T, T) -> T, d: nat, s: seq<T>): seq<T>
    decreases d
  {
    if d == 0 then s else LevelsUp(join, d - 1, Level(join, s))
  }

  /** The tree over some leaves is the tree, d lower, over their d-th level. */
  lemma {:induction false} TreeOfLevelsUp<T>(join: (T, T) -> T, h: nat, d: nat, s: seq<T>)
    requires 1 <= |s| <= Pow2(h + d)
    ensures 1 <= |LevelsUp(join, d, s)| <= Pow2(h)
    ensures Tree(join, h + d, s) == Tree(join, h, LevelsUp(join, d, s))
    ensures Joined(join, h, LevelsUp(join, d, s)) <= Joined(join, h + d, s)
    decreases d
  {
    if d > 0 {
      TreeOfLevel(join, h + d, s);
      JoinedOfLevel(join, h + d, s);
      TreeOfLevelsUp(join, h, d - 1, Level(join, s));
    }
  }

  /** Trees of one height agree exactly when the filled-up leaves do, or two pairs they join clash. */
  lemma TreesAgreeExactly<T(!new)>(join: (T, T) -> T, h: nat, s: seq<T>, t: seq<T>)
    requires 1 <= |s| <= Pow2(h) && 1 <= |t| <= Pow2(h)
    ensures Padded(h, s) == Padded(h, t) ==> Tree(join, h, s) == Tree(join, h, t)
    ensures Tree(join, h, s) == Tree(join, h, t) ==>
              Padded(h, s) == Padded(h, t) || Clash(join, Joined(join, h, s), Joined(join, h, t))
  {
    TreeOfPadded(join, h, s);
    TreeOfPadded(join, h, t);
    if Tree(join, h, s) == Tree(join, h, t) {
      SameTreeSameLeaves(join, h, Padded(h, s), Padded(h, t));
    }
  }

  /** The same for heights that differ, by way of the taller tree's level at the lower height. */
  lemma TreesOfHeights<T(!new)>(join: (T, T) -> T, h: nat, d: nat, s: seq<T>, t: seq<T>, level: seq<T>)
    requires 1 <= |s| <= Pow2(h) && 1 <= |t| <= Pow2(h + d) && level == LevelsUp(join, d, t)
    ensures 1 <= |level| <= Pow2(h)
    ensures Padded(h, s) == Padded(h, level) ==> Tree(join, h, s) == Tree(join, h + d, t)
    ensures Tree(join, h, s) == Tree(join, h + d, t) ==>
              Padded(h, s) == Padded(h, level) || Clash(join, Joined(join, h, s), Joined(join, h + d, t))
  {
    TreeOfLevelsUp(join, h, d, t);
    TreesAgreeExactly(join, h, s, level);
    if Clash(join, Joined(join, h, s), Joined(join, h, level)) {
      ClashGrows(join, Joined(join, h, s), Joined(join, h, level), Joined(join, h, s), Joined(join, h + d, t));
    }
  }

  /** Two lists share a root exactly when the shorter, filled up, is the other's level at that height, filled up. */
  lemma RootsAgreeExactly<T(!new)>(join: (T, T) -> T, none: T, s: seq<T>, t: seq<T>)
    requires s != [] && t != [] && Height(|s|) <= Height(|t|)
    ensures var h, d := Height(|s|), Height(|t|) - Height(|s|);
            var level := LevelsUp(join, d, t);
            && 1 <= |level| <= Pow2(h)
            && (Padded(h, s) == Padded(h, level) ==> Root(join, none, s) == Root(join, none, t))
            && (Root(join, none, s) == Root(join, none, t) ==>
                  Padded(h, s) == Padded(h, level) || Clash(join, Joined(join, h, s), Joined(join, h + d, t)))
  {
    var h, d := Height(|s|), Height(|t|) - Height(|s|);
    assert h + d == Height(|t|);
    TreesOfHeights(join, h, d, s, t, LevelsUp(join, d, t));
  }

  /** Six leaves and the eight that repeat the last two of them. */
  lemma SixAndEight<T>(join: (T, T) -> T, none: T, a: seq<T>)
    requires |a| == 6
    ensures Root(join, none, a + a[4..]) == Root(join, none, a)
  {
    var b := a + a[4..];
    assert Height(6) == 3 && Height(8) == 3 by {
      HeightOfLevel(6);
      HeightOfLevel(8);
      HeightOfLevel(3);
      HeightOfLevel(4);
      HeightOfLevel(2);
    }
    assert Pow2(1) == 2 && Pow2(2) == 4 && Pow2(3) == 8;
    assert b[..4] == a[..4] && b[4..][..2] == a[4..] && b[4..][2..] == a[4..];
    var x := Tree(join, 1, a[4..]);
    assert Tree(join, 2, a[4..]) == join(x, x) && Tree(join, 2, b[4..]) == join(x, x);
  }

  /** In particular, from three leaves on, an odd list and the one repeating its last leaf agree. */
  lemma RepeatedLastLeafSameRoot<T>(join: (T, T) -> T, none: T, s: seq<T>)
    requires |s| % 2 == 1 && |s| >= 3
    ensures Root(join, none, s + [s[|s| - 1]]) == Root(join, none, s)
  {
    var t := s + [s[|s| - 1]];
    assert Level(join, t) == Level(join, s) by {
      assert forall i :: 0 <= i < |Level(join, s)| ==> Pair(join, t, i) == Pair(join, s, i);
    }
    TreeOfLevel(join, Height(|s|), s);
    TreeOfLevel(join, Height(|t|), t);
  }

  /** Leaves of uneven length can be shifted into each other without any collision. */
  lemma UnevenLeavesSameRoot(sha: string -> string)
    ensures RootOf(sha, ["ab", "c"]) == RootOf(sha, ["a", "bc"])
  {
    HeightOfLevel(2);
    assert ["ab", "c"][..1] == ["ab"] && ["ab", "c"][1..] == ["c"];
    assert ["a", "bc"][..1] == ["a"] && ["a", "bc"][1..] == ["bc"];
    assert "ab" + "c" == "abc" && "a" + "bc" == "abc";
  }
}
