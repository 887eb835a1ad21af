/** Merkle commitments (origin-canary). Nodes are hex text of 32-byte digests; a parent hashes the bytes
    of its two children end to end. An odd node at the end of a level is paired with itself. */
module Merkle {
  import opened Wrappers
  import Hex

  type HashFn = Bytes -> Bytes

  const DIGEST_LEN := 32

  ghost predicate Digests(h: HashFn) {
    forall x: Bytes :: |h(x)| == DIGEST_LEN
  }

  /** Two different inputs with the same hash. */
  ghost predicate Collision(h: HashFn, a: Bytes, b: Bytes) {
    a != b && h(a) == h(b)
  }

  datatype Tree = Tree(leaves: seq<string>, root: string, levels: seq<seq<string>>)

  predicate Decodes(s: string) {
    Hex.Decode(s).Some?
  }

  /** The bytes a text stands for; none if it is not hex. */
  function Raw(s: string): Bytes {
    match Hex.Decode(s)
    case Some(b) => b
    case None => []
  }

  function Join(h: HashFn, left: string, right: string): string {
    Hex.Encode(h(Raw(left) + Raw(right)))
  }

  lemma JoinRaw(h: HashFn, left: string, right: string)
    ensures Decodes(Join(h, left, right)) && Raw(Join(h, left, right)) == h(Raw(left) + Raw(right))
  {
    Hex.DecodeEncode(h(Raw(left) + Raw(right)));
  }

  // ---------------------------------------------------------------- levels

  function Partner(n: nat, i: nat): (j: nat)
    requires i < n
    ensures j < n
  {
    if i % 2 == 1 then i - 1 else if i + 1 < n then i + 1 else i
  }

  /** Node `i` of the level above. */
  function Parent(h: HashFn, level: seq<string>, i: nat): string
    requires 2 * i < |level|
  {
    Join(h, level[2 * i], level[Partner(|level|, 2 * i)])
  }

  ghost function Above(h: HashFn, level: seq<string>): (r: seq<string>)
    ensures |r| == (|level| + 1) / 2
  {
    seq((|level| + 1) / 2, i requires 0 <= i < (|level| + 1) / 2 => Parent(h, level, i))
  }

  ghost function Levels(h: HashFn, level: seq<string>): (r: seq<seq<string>>)
    requires level != []
    ensures r != [] && r[0] == level
    decreases |level|
  {
    if |level| == 1 then [level] else [level] + Levels(h, Above(h, level))
  }

  ghost function Root(h: HashFn, level: seq<string>): string
    requires level != []
    decreases |level|
  {
    if |level| == 1 then level[0] else Root(h, Above(h, level))
  }

  /** How many levels there are above one of `n` nodes. */
  function Depth(n: nat): nat {
    if n <= 1 then 0 else 1 + Depth((n + 1) / 2)
  }

  ghost predicate IsTree(h: HashFn, leaves: seq<string>, t: Tree)
    requires leaves != []
  {
    t == Tree(leaves, Root(h, leaves), Levels(h, leaves))
  }

  /** A single leaf is its own root and is never decoded; any others must be hex. */
  method Build(h: HashFn, leaves: seq<string>) returns (t: Tree)
    requires leaves != []
    requires |leaves| > 1 ==> forall s <- leaves :: Decodes(s)
    ensures IsTree(h, leaves, t)
  {
    hide Levels, Root, Above, Decodes;
    var levels := [leaves];
    var current := leaves;
    assert [] + Levels(h, leaves) == Levels(h, leaves);
    while |current| > 1
      invariant current != [] && levels != [] && levels[|levels| - 1] == current
      invariant levels[..|levels| - 1] + Levels(h, current) == Levels(h, leaves)
      invariant Root(h, current) == Root(h, leaves)
      invariant |current| > 1 ==> forall s <- current :: Decodes(s)
      decreases |current|
    {
      var next := BuildLevel(h, current);
      LevelsStep(h, current);
      ghost var before := levels[..|levels| - 1];
      assert before + ([current] + Levels(h, next)) == levels + Levels(h, next);
      levels := levels + [next];
      assert levels[..|levels| - 1] == before + [current];
      current := next;
    }
    LevelsStep(h, current);
    assert levels == levels[..|levels| - 1] + [current];
    t := Tree(leaves, current[0], levels);
  }

  lemma LevelsStep(h: HashFn, level: seq<string>)
    requires level != []
    ensures |level| == 1 ==> Levels(h, level) == [level] && Root(h, level) == level[0]
    ensures |level| > 1 ==>
              && Levels(h, level) == [level] + Levels(h, Above(h, level))
              && Root(h, level) == Root(h, Above(h, level))
  {}

  method BuildLevel(h: HashFn, level: seq<string>) returns (next: seq<string>)
    requires forall s <- level :: Decodes(s)
    ensures next == Above(h, level) && forall s <- next :: Decodes(s)
  {
    hide Join, Above, Decodes, Parent;
    next := [];
    var i := 0;
    while i < |level|
      invariant 0 <= i <= |level| && (i % 2 == 0 || i == |level|)
      invariant |next| == (i + 1) / 2 && next == Above(h, level)[..|next|]
      invariant forall s <- next :: Decodes(s)
      decreases |level| - i
    {
      AboveAt(h, level, i / 2);
      assert Above(h, level)[..|next| + 1] == next + [Above(h, level)[|next|]];
      if i + 1 < |level| {
        next := next + [HashPair(h, level[i], level[i + 1])];
        i := i + 2;
      } else {
        next := next + [HashPair(h, level[i], level[i])];
        i := i + 1;
      }
    }
  }

  lemma AboveAt(h: HashFn, level: seq<string>, i: nat)
    requires 2 * i < |level|
    ensures Above(h, level)[i] == Join(h, level[2 * i], level[Partner(|level|, 2 * i)]) && Decodes(Above(h, level)[i])
  {
    JoinRaw(h, level[2 * i], level[Partner(|level|, 2 * i)]);
  }

  function HashPair(h: HashFn, left: string, right: string): string
    requires Decodes(left) && Decodes(right)
  {
    Join(h, left, right)
  }

  // ---------------------------------------------------------------- proofs

  /** The siblings from level `k` up to below the root; none where the index lies outside. */
  function Siblings(levels: seq<seq<string>>, k: nat, index: nat): seq<string>
    decreases |levels| - k
  {
    if k + 1 >= |levels| then []
    else
      var level := levels[k];
      var sibling := if index % 2 == 0 then index + 1 else index - 1;
      (if sibling < |level| then [level[sibling]] else if index < |level| then [level[index]] else [])
      + Siblings(levels, k + 1, index / 2)
  }

  method GetProof(t: Tree, leafIndex: nat) returns (proof: seq<string>)
    ensures proof == Siblings(t.levels, 0, leafIndex)
  {
    hide Siblings;
    proof := [];
    var index: nat := leafIndex;
    var top := if |t.levels| == 0 then 0 else |t.levels| - 1;
    assert [] + Siblings(t.levels, 0, leafIndex) == Siblings(t.levels, 0, leafIndex);
    for k := 0 to top
      invariant proof + Siblings(t.levels, k, index) == Siblings(t.levels, 0, leafIndex)
    {
      var level := t.levels[k];
      var sibling := if index % 2 == 0 then index + 1 else index - 1;
      SiblingsStep(t.levels, k, index, proof);
      if sibling < |level| {
        proof := proof + [level[sibling]];
      } else if index < |level| {
        proof := proof + [level[index]];
      }
      index := index / 2;
    }
    SiblingsStep(t.levels, top, index, proof);
  }

  lemma SiblingsStep(levels: seq<seq<string>>, k: nat, index: nat, proof: seq<string>)
    ensures k + 1 >= |levels| ==> proof + Siblings(levels, k, index) == proof
    ensures k + 1 < |levels| ==>
              var level := levels[k];
              var sibling := if index % 2 == 0 then index + 1 else index - 1;
              proof + Siblings(levels, k, index)
              == (if sibling < |level| then proof + [level[sibling]] else if index < |level| then proof + [level[index]]
                  else proof)
                 + Siblings(levels, k + 1, index / 2)
  {}

  /** What verification hashes at a step: the bytes of the two texts, texts that are not hex left out. */
  function PairBytes(current: string, sibling: string, idx: nat): Bytes {
    if idx % 2 == 0 then Raw(current) + Raw(sibling) else Raw(sibling) + Raw(current)
  }

  function Climb(h: HashFn, leaf: string, proof: seq<string>, idx: nat): string
    decreases |proof|
  {
    if proof == [] then leaf
    else Climb(h, Hex.Encode(h(PairBytes(leaf, proof[0], idx))), proof[1..], idx / 2)
  }

  method Verify(h: HashFn, leaf: string, proof: seq<string>, leafIndex: nat, root: string) returns (ok: bool)
    ensures ok <==> Climb(h, leaf, proof, leafIndex) == root
  {
    var current := leaf;
    var idx := leafIndex;
    for k := 0 to |proof|
      invariant Climb(h, current, proof[k..], idx) == Climb(h, leaf, proof, leafIndex)
    {
      var sibling := proof[k];
      var (left, right) := if idx % 2 == 0 then (current, sibling) else (sibling, current);
      assert proof[k..][1..] == proof[k + 1..];
      var a, b := Hex.Decode(left), Hex.Decode(right);
      var combined := (if a.Some? then a.value else []) + (if b.Some? then b.value else []);
      current := Hex.Encode(h(combined));
      idx := idx / 2;
    }
    assert proof[|proof|..] == [];
    ok := current == root;
  }

  // ---------------------------------------------------------------- completeness

  /** The proof of node `i` of a level, told by partners. */
  ghost function ProofOf(h: HashFn, level: seq<string>, i: nat): (p: seq<string>)
    requires i < |level|
    ensures |p| == |Levels(h, level)| - 1 == Depth(|level|)
    decreases |level|
  {
    if |level| == 1 then [] else [level[Partner(|level|, i)]] + ProofOf(h, Above(h, level), i / 2)
  }

  lemma {:induction false} SiblingsAreProof(h: HashFn, levels: seq<seq<string>>, k: nat, level: seq<string>, i: nat)
    requires i < |level| && k < |levels| && levels[k..] == Levels(h, level)
    ensures Siblings(levels, k, i) == ProofOf(h, level, i)
    decreases |level|
  {
    assert levels[k] == levels[k..][0];
    if |level| > 1 {
      assert levels[k + 1..] == levels[k..][1..] == Levels(h, Above(h, level));
      SiblingsAreProof(h, levels, k + 1, Above(h, level), i / 2);
    }
  }

  /** The node of a level of `n` that verification reaches with index `i`: node `i` if there is one, and
      otherwise a node that was paired with itself on the way up. */
  function Resolve(n: nat, i: nat): (r: nat)
    requires n > 0
    ensures r < n
    ensures n > 1 ==> r / 2 == Resolve((n + 1) / 2, i / 2)
    ensures n > 1 ==> r % 2 == i % 2 || (r % 2 == 0 && r + 1 == n)
  {
    if n == 1 then 0
    else
      var child := 2 * Resolve((n + 1) / 2, i / 2) + i % 2;
      if child < n then child else n - 1
  }

  /** An index is taken at its word exactly when it is in range. */
  lemma {:induction false} ResolveInRange(n: nat, i: nat)
    requires n > 0
    ensures Resolve(n, i) == i <==> i < n
  {
    if n > 1 && i < n { ResolveInRange((n + 1) / 2, i / 2); }
  }

  /** Node `i` and its partner, in the order in which the tree hashed them. */
  ghost function PairAt(level: seq<string>, i: nat): Bytes
    requires i < |level|
  {
    PairBytes(level[i], level[Partner(|level|, i)], i)
  }

  lemma PairHash(h: HashFn, level: seq<string>, i: nat)
    requires i < |level| && |level| > 1
    ensures i / 2 < |Above(h, level)| && Above(h, level)[i / 2] == Hex.Encode(h(PairAt(level, i)))
  {
    hide Raw, Above;
    AboveAt(h, level, i / 2);
  }

  /** The order of a pair may be read off the index in place of the node it resolves to. */
  lemma PairAtIndex(level: seq<string>, i: nat)
    requires |level| > 1
    ensures var r := Resolve(|level|, i); PairBytes(level[r], level[Partner(|level|, r)], i) == PairAt(level, r)
  {
    hide Raw;
  }

  /** For every index at all, the node it resolves to has a proof that leads back to the root. */
  lemma {:induction false} Completeness(h: HashFn, level: seq<string>, i: nat)
    requires level != []
    ensures var r := Resolve(|level|, i); Climb(h, level[r], ProofOf(h, level, r), i) == Root(h, level)
    decreases |level|
  {
    hide Raw, PairBytes, Resolve, PairAt;
    if |level| > 1 {
      var r := Resolve(|level|, i);
      PairHash(h, level, r);
      PairAtIndex(level, i);
      Completeness(h, Above(h, level), i / 2);
    }
  }

  // ---------------------------------------------------------------- binding

  /** What a climb hashes, step by step. */
  function ClimbInputs(h: HashFn, leaf: string, proof: seq<string>, idx: nat): (r: seq<Bytes>)
    ensures |r| == |proof|
    decreases |proof|
  {
    if proof == [] then []
    else
      var pair := PairBytes(leaf, proof[0], idx);
      [pair] + ClimbInputs(h, Hex.Encode(h(pair)), proof[1..], idx / 2)
  }

  /** What building the tree hashed on the way from node `i` up. */
  ghost function PathInputs(h: HashFn, level: seq<string>, i: nat): (r: seq<Bytes>)
    requires i < |level|
    ensures |r| == Depth(|level|)
    decreases |level|
  {
    if |level| == 1 then [] else [PairAt(level, i)] + PathInputs(h, Above(h, level), i / 2)
  }

  ghost predicate Wide(level: seq<string>) {
    forall s <- level :: Decodes(s) && |Raw(s)| == DIGEST_LEN
  }

  /** The climb repeats the tree's own hashing; where there is nothing to hash, it starts at the root. */
  ghost predicate Retraces(h: HashFn, level: seq<string>, idx: nat, leaf: string, proof: seq<string>)
    requires level != []
  {
    if |level| == 1 then leaf == level[0]
    else ClimbInputs(h, leaf, proof, idx) == PathInputs(h, level, Resolve(|level|, idx))
  }

  /** Leaf and proof stand for the bytes of node `i` and of its own proof. */
  ghost predicate Genuine(h: HashFn, level: seq<string>, i: nat, leaf: string, proof: seq<string>)
    requires i < |level|
  {
    && Decodes(leaf) && Raw(leaf) == Raw(level[i])
    && SameRaw(proof, ProofOf(h, level, i))
  }

  /** Two lists of texts that stand for the same bytes. */
  ghost predicate SameRaw(a: seq<string>, b: seq<string>) {
    |a| == |b| && forall k :: 0 <= k < |a| ==> Raw(a[k]) == Raw(b[k])
  }

  lemma SameRawStep(a: seq<string>, b: seq<string>)
    requires a != [] && b != []
    ensures SameRaw(a, b) <==> Raw(a[0]) == Raw(b[0]) && SameRaw(a[1..], b[1..])
  {
    hide Raw;
    if Raw(a[0]) == Raw(b[0]) && SameRaw(a[1..], b[1..]) {
      forall k | 0 <= k < |a| ensures Raw(a[k]) == Raw(b[k]) {
        if k > 0 { assert a[k] == a[1..][k - 1] && b[k] == b[1..][k - 1]; }
      }
    }
  }

  lemma AboveWide(h: HashFn, level: seq<string>)
    requires Digests(h)
    ensures Wide(Above(h, level))
  {
    forall s <- Above(h, level) ensures Decodes(s) && |Raw(s)| == DIGEST_LEN {
      var i :| 0 <= i < |Above(h, level)| && Above(h, level)[i] == s;
      AboveAt(h, level, i);
      JoinRaw(h, level[2 * i], level[Partner(|level|, 2 * i)]);
    }
  }

  lemma EncodeRaw(b: Bytes)
    ensures Decodes(Hex.Encode(b)) && Raw(Hex.Encode(b)) == b
  {
    Hex.DecodeEncode(b);
  }

  /** One step of a climb beside one step up the tree. */
  lemma StepUp(h: HashFn, level: seq<string>, idx: nat, leaf: string, proof: seq<string>)
    requires |level| > 1 && |proof| == Depth(|level|)
    ensures proof != [] && |proof[1..]| == Depth(|Above(h, level)|)
    ensures var next := Hex.Encode(h(PairBytes(leaf, proof[0], idx)));
            && Climb(h, leaf, proof, idx) == Climb(h, next, proof[1..], idx / 2)
            && ClimbInputs(h, leaf, proof, idx)
            == [PairBytes(leaf, proof[0], idx)] + ClimbInputs(h, next, proof[1..], idx / 2)
    ensures var r := Resolve(|level|, idx);
            && r / 2 == Resolve(|Above(h, level)|, idx / 2)
            && PathInputs(h, level, r) == [PairAt(level, r)] + PathInputs(h, Above(h, level), r / 2)
            && ProofOf(h, level, r) == [level[Partner(|level|, r)]] + ProofOf(h, Above(h, level), r / 2)
    ensures Root(h, level) == Root(h, Above(h, level))
  {}

  /** Once the climb has hashed anything, it stands at text of full width, so retracing the rest means
      standing at the node itself. */
  lemma RetracedNode(h: HashFn, level: seq<string>, idx: nat, b: Bytes, proof: seq<string>)
    requires level != [] && |proof| == Depth(|level|) && Digests(h) && Wide(level)
    requires Retraces(h, level, idx, Hex.Encode(h(b)), proof)
    ensures h(b) == Raw(level[Resolve(|level|, idx)])
  {
    var leaf, r := Hex.Encode(h(b)), Resolve(|level|, idx);
    EncodeRaw(h(b));
    if |level| > 1 {
      StepUp(h, level, idx, leaf, proof);
      hide Above, Climb, ClimbInputs, PathInputs, Resolve, PairBytes, PairAt, Raw, Root, Wide;
      assert ClimbInputs(h, leaf, proof, idx)[0] == PathInputs(h, level, r)[0];
      SplitPair(level, idx, leaf, proof[0]);
    }
  }

  /** Which bytes of a pair are the node's own is decided by the width of the text it is given as. */
  lemma SplitPair(level: seq<string>, idx: nat, leaf: string, sibling: string)
    requires |level| > 1 && Wide(level)
    requires PairBytes(leaf, sibling, idx) == PairAt(level, Resolve(|level|, idx))
    ensures var r := Resolve(|level|, idx);
            |Raw(leaf)| == DIGEST_LEN <==> Raw(leaf) == Raw(level[r]) && Raw(sibling) == Raw(level[Partner(|level|, r)])
  {
    PairAtIndex(level, idx);
    var r := Resolve(|level|, idx);
    assert level[r] in level && level[Partner(|level|, r)] in level;
    var x, y := Raw(level[r]), Raw(level[Partner(|level|, r)]);
    hide Resolve, Raw, Partner, PairAt;
    if |Raw(leaf)| == DIGEST_LEN {
      if idx % 2 == 0 {
        assert Raw(leaf) == (Raw(leaf) + Raw(sibling))[..DIGEST_LEN] == (x + y)[..DIGEST_LEN];
        assert Raw(sibling) == (Raw(leaf) + Raw(sibling))[DIGEST_LEN..] == (x + y)[DIGEST_LEN..];
      } else {
        assert |Raw(sibling)| == DIGEST_LEN;
        assert Raw(sibling) == (Raw(sibling) + Raw(leaf))[..DIGEST_LEN] == (y + x)[..DIGEST_LEN];
        assert Raw(leaf) == (Raw(sibling) + Raw(leaf))[DIGEST_LEN..] == (y + x)[DIGEST_LEN..];
      }
    }
  }

  /** A proof of full length that leads to the root retraces the tree, or at some step it hashes
      something else than the tree did, with the same result. */
  lemma {:induction false} AcceptedRetraces(h: HashFn, level: seq<string>, idx: nat, leaf: string, proof: seq<string>)
    returns (k: nat)
    requires level != [] && |proof| == Depth(|level|) && Digests(h) && Wide(level)
    requires Climb(h, leaf, proof, idx) == Root(h, level)
    ensures || Retraces(h, level, idx, leaf, proof)
            || (k < |proof|
                && Collision(h, ClimbInputs(h, leaf, proof, idx)[k], PathInputs(h, level, Resolve(|level|, idx))[k]))
    decreases |level|
  {
    k := 0;
    if |level| > 1 {
      StepUp(h, level, idx, leaf, proof);
      AboveWide(h, level);
      var given, r := PairBytes(leaf, proof[0], idx), Resolve(|level|, idx);
      PairHash(h, level, r);
      EncodeRaw(h(PairAt(level, r)));
      hide Above, Climb, ClimbInputs, PathInputs, Resolve, PairBytes, PairAt, Raw, Root, Wide, Digests;
      var above := AcceptedRetraces(h, Above(h, level), idx / 2, Hex.Encode(h(given)), proof[1..]);
      if Retraces(h, Above(h, level), idx / 2, Hex.Encode(h(given)), proof[1..]) {
        RetracedNode(h, Above(h, level), idx / 2, given, proof[1..]);
      } else {
        k := above + 1;
      }
    }
  }

  /** With the first pair as the tree has it, the proof is genuine just when the leaf has full width. */
  lemma {:induction false} RetracedIsGenuine(h: HashFn, level: seq<string>, idx: nat, leaf: string, proof: seq<string>)
    requires level != [] && |proof| == Depth(|level|) && Digests(h) && Wide(level)
    requires Retraces(h, level, idx, leaf, proof)
    ensures Genuine(h, level, Resolve(|level|, idx), leaf, proof) <==> |Raw(leaf)| == DIGEST_LEN
    decreases |level|
  {
    var r := Resolve(|level|, idx);
    assert level[r] in level;
    if |level| > 1 {
      StepUp(h, level, idx, leaf, proof);
      AboveWide(h, level);
      var given := PairBytes(leaf, proof[0], idx);
      var up, next := Above(h, level), Hex.Encode(h(given));
      RetracesAbove(h, level, idx, leaf, proof);
      EncodeRaw(h(given));
      RetracedIsGenuine(h, up, idx / 2, next, proof[1..]);
      SplitPair(level, idx, leaf, proof[0]);
      hide Above, Climb, ClimbInputs, PathInputs, Resolve, PairBytes, PairAt, Root, Wide, Digests, Retraces, ProofOf, Partner;
      GenuineStep(h, level, idx, leaf, proof);
    }
  }

  lemma RetracesAbove(h: HashFn, level: seq<string>, idx: nat, leaf: string, proof: seq<string>)
    requires |level| > 1 && |proof| == Depth(|level|) && Digests(h) && Wide(level)
    requires Retraces(h, level, idx, leaf, proof)
    ensures PairBytes(leaf, proof[0], idx) == PairAt(level, Resolve(|level|, idx))
    ensures Retraces(h, Above(h, level), idx / 2, Hex.Encode(h(PairBytes(leaf, proof[0], idx))), proof[1..])
  {
    StepUp(h, level, idx, leaf, proof);
    var r := Resolve(|level|, idx);
    PairHash(h, level, r);
    hide Above, Climb, ClimbInputs, PathInputs, Resolve, PairBytes, PairAt, Root, Wide, Digests, ProofOf;
    var g, b := ClimbInputs(h, leaf, proof, idx), PathInputs(h, level, r);
    assert g[0] == b[0] && g[1..] == b[1..];
  }

  lemma GenuineStep(h: HashFn, level: seq<string>, idx: nat, leaf: string, proof: seq<string>)
    requires |level| > 1 && |proof| == Depth(|level|)
    ensures var r := Resolve(|level|, idx);
            Genuine(h, level, r, leaf, proof) <==>
              && Decodes(leaf) && Raw(leaf) == Raw(level[r]) && Raw(proof[0]) == Raw(level[Partner(|level|, r)])
              && SameRaw(proof[1..], ProofOf(h, Above(h, level), r / 2))
  {
    StepUp(h, level, idx, leaf, proof);
    var p := ProofOf(h, level, Resolve(|level|, idx));
    hide Above, Climb, ClimbInputs, PathInputs, Resolve, PairBytes, PairAt, Root, ProofOf, Raw, Decodes, SameRaw, Partner;
    SameRawStep(proof, p);
  }

  /** The level `k` steps up. */
  ghost function Up(h: HashFn, level: seq<string>, k: nat): (r: seq<string>)
    requires level != [] && k <= Depth(|level|)
    ensures r != [] && Depth(|r|) == Depth(|level|) - k && Root(h, r) == Root(h, level)
    ensures Digests(h) && Wide(level) ==> Wide(r)
    decreases k
  {
    if k == 0 then level
    else
      AboveStep(h, level);
      Up(h, Above(h, level), k - 1)
  }

  lemma AboveStep(h: HashFn, level: seq<string>)
    requires Depth(|level|) > 0
    ensures Above(h, level) != [] && Depth(|Above(h, level)|) == Depth(|level|) - 1
    ensures Root(h, Above(h, level)) == Root(h, level)
    ensures Digests(h) ==> Wide(Above(h, level))
  {
    if Digests(h) { AboveWide(h, level); }
  }

  /** Retracing the tree leads to the root. */
  lemma {:induction false} RetracesAccepted(h: HashFn, level: seq<string>, idx: nat, leaf: string, proof: seq<string>)
    requires level != [] && |proof| == Depth(|level|) && Digests(h) && Wide(level)
    requires Retraces(h, level, idx, leaf, proof)
    ensures Climb(h, leaf, proof, idx) == Root(h, level)
    decreases |level|
  {
    if |level| > 1 {
      StepUp(h, level, idx, leaf, proof);
      RetracesAbove(h, level, idx, leaf, proof);
      AboveWide(h, level);
      hide Above, Climb, ClimbInputs, PathInputs, Resolve, PairBytes, PairAt, Root, Wide, Digests, Retraces;
      RetracesAccepted(h, Above(h, level), idx / 2, Hex.Encode(h(PairBytes(leaf, proof[0], idx))), proof[1..]);
    }
  }

  /** What is genuine retraces the tree, once there is anything to hash. */
  lemma {:induction false} GenuineRetraces(h: HashFn, level: seq<string>, idx: nat, leaf: string, proof: seq<string>)
    requires |level| > 1 && Genuine(h, level, Resolve(|level|, idx), leaf, proof)
    ensures Retraces(h, level, idx, leaf, proof)
    decreases |level|
  {
    var r := Resolve(|level|, idx);
    var up, given := Above(h, level), PairBytes(leaf, proof[0], idx);
    StepUp(h, level, idx, leaf, proof);
    GenuineStep(h, level, idx, leaf, proof);
    PairAtIndex(level, idx);
    PairHash(h, level, r);
    EncodeRaw(h(given));
    assert given == PairAt(level, r);
    hide Above, Climb, Resolve, PairBytes, PairAt, Root, ProofOf, Partner, SameRaw, Raw, Decodes;
    if |up| > 1 {
      GenuineRetraces(h, up, idx / 2, Hex.Encode(h(given)), proof[1..]);
    }
  }

  /** Leaf and proof are those of node `i` of the level `k` steps up. */
  ghost predicate OfNode(h: HashFn, level: seq<string>, k: nat, i: nat, leaf: string, proof: seq<string>)
    requires level != []
  {
    k <= Depth(|level|) && i < |Up(h, level, k)| && Genuine(h, Up(h, level, k), i, leaf, proof)
  }

  ghost predicate OfSomeNode(h: HashFn, level: seq<string>, leaf: string, proof: seq<string>)
    requires level != []
  {
    exists k, i :: OfNode(h, level, k, i, leaf, proof)
  }

  /** The index after some steps. */
  function Halved(idx: nat, times: nat): nat {
    if times == 0 then idx else Halved(idx / 2, times - 1)
  }

  /** Counted from the root down, the climb and the tree hash different inputs with the same result, `x`
      steps above where both begin. */
  ghost predicate Collides(h: HashFn, level: seq<string>, idx: nat, leaf: string, proof: seq<string>, x: nat)
    requires level != []
  {
    var depth, inputs := Depth(|level|), ClimbInputs(h, leaf, proof, idx);
    if |proof| <= depth then
      var up := Up(h, level, depth - |proof|);
      x < |proof| && Collision(h, inputs[x], PathInputs(h, up, Resolve(|up|, idx))[x])
    else
      var m := |proof| - depth;
      x < depth && Collision(h, inputs[m + x], PathInputs(h, level, Resolve(|level|, Halved(idx, m)))[x])
  }

  /** About a node of the tree exactly when the proof is no longer than the tree is deep and the text to be
      proved has the width of a digest; and then about the node that length and index point at. */
  ghost predicate Bound(h: HashFn, level: seq<string>, idx: nat, leaf: string, proof: seq<string>)
    requires level != []
  {
    var k := Depth(|level|) - |proof|;
    && (OfSomeNode(h, level, leaf, proof) <==> k >= 0 && |Raw(leaf)| == DIGEST_LEN)
    && (k >= 0 && |Raw(leaf)| == DIGEST_LEN ==> OfNode(h, level, k, Resolve(|Up(h, level, k)|, idx), leaf, proof))
  }

  /** Whatever text, proof and index are given, a proof that leads to the root is bound to the tree in this
      way or collides with it at the step named. */
  lemma Binding(h: HashFn, level: seq<string>, idx: nat, leaf: string, proof: seq<string>) returns (x: nat)
    requires level != [] && Digests(h) && Wide(level)
    requires Climb(h, leaf, proof, idx) == Root(h, level)
    ensures Bound(h, level, idx, leaf, proof) || Collides(h, level, idx, leaf, proof, x)
  {
    hide Up, Climb, Root, Wide, Digests, Resolve, OfNode, OfSomeNode, Collides, Depth, Raw;
    NodeShape(h, level, leaf, proof);
    x := 0;
    if |proof| <= Depth(|level|) {
      x := BindingUpTo(h, level, idx, leaf, proof);
      var k := Depth(|level|) - |proof|;
      var r := Resolve(|Up(h, level, k)|, idx);
      if OfNode(h, level, k, r, leaf, proof) { SomeNode(h, level, k, r, leaf, proof); }
    }
  }

  lemma SomeNode(h: HashFn, level: seq<string>, k: nat, i: nat, leaf: string, proof: seq<string>)
    requires level != [] && OfNode(h, level, k, i, leaf, proof)
    ensures OfSomeNode(h, level, leaf, proof)
  {}

  /** Every node's text is a digest, and no node has a proof longer than the tree is deep. */
  lemma NodeShape(h: HashFn, level: seq<string>, leaf: string, proof: seq<string>)
    requires level != [] && Digests(h) && Wide(level)
    ensures OfSomeNode(h, level, leaf, proof) ==> |proof| <= Depth(|level|) && |Raw(leaf)| == DIGEST_LEN
  {
    hide Up, Depth, Raw, Wide, Digests, Genuine;
    if k, i :| OfNode(h, level, k, i, leaf, proof) {
      GenuineShape(h, Up(h, level, k), i, leaf, proof);
    }
  }

  lemma GenuineShape(h: HashFn, level: seq<string>, i: nat, leaf: string, proof: seq<string>)
    requires i < |level| && Wide(level) && Genuine(h, level, i, leaf, proof)
    ensures |proof| == Depth(|level|) && |Raw(leaf)| == DIGEST_LEN
  {
    assert level[i] in level;
  }

  lemma BindingUpTo(h: HashFn, level: seq<string>, idx: nat, leaf: string, proof: seq<string>) returns (x: nat)
    requires level != [] && Digests(h) && Wide(level) && |proof| <= Depth(|level|)
    requires Climb(h, leaf, proof, idx) == Root(h, level)
    ensures var k := Depth(|level|) - |proof|;
            || Collides(h, level, idx, leaf, proof, x)
            || (OfNode(h, level, k, Resolve(|Up(h, level, k)|, idx), leaf, proof) <==> |Raw(leaf)| == DIGEST_LEN)
  {
    hide *;
    var up := Up(h, level, Depth(|level|) - |proof|);
    x := AcceptedRetraces(h, up, idx, leaf, proof);
    NodeHere(h, level, idx, leaf, proof, x);
    if Retraces(h, up, idx, leaf, proof) {
      RetracedIsGenuine(h, up, idx, leaf, proof);
    }
  }

  lemma NodeHere(h: HashFn, level: seq<string>, idx: nat, leaf: string, proof: seq<string>, x: nat)
    requires level != [] && |proof| <= Depth(|level|)
    ensures var k := Depth(|level|) - |proof|;
            var up := Up(h, level, k);
            var r := Resolve(|up|, idx);
            && (OfNode(h, level, k, r, leaf, proof) <==> Genuine(h, up, r, leaf, proof))
            && (Collides(h, level, idx, leaf, proof, x) <==>
                  x < |proof| && Collision(h, ClimbInputs(h, leaf, proof, idx)[x], PathInputs(h, up, r)[x]))
  {
    hide Up, Resolve, Genuine, ClimbInputs, PathInputs, Collision, Depth;
  }

  // ---------------------------------------------------------------- what verification does not check

  /** The length: with `k` siblings less, a node `k` levels up passes as a leaf. */
  lemma InteriorNodeAccepted(h: HashFn, level: seq<string>, k: nat, idx: nat)
    requires level != [] && k <= Depth(|level|)
    ensures var up := Up(h, level, k);
            var r := Resolve(|up|, idx);
            && |ProofOf(h, up, r)| == Depth(|level|) - k
            && Climb(h, up[r], ProofOf(h, up, r), idx) == Root(h, level)
  {
    Completeness(h, Up(h, level, k), idx);
  }

  /** The index: any number past the end passes for some node, which is not at that place. */
  lemma PhantomNeighbour(h: HashFn, level: seq<string>, idx: nat)
    requires level != [] && idx >= |level|
    ensures var r := Resolve(|level|, idx);
            r != idx && Climb(h, level[r], ProofOf(h, level, r), idx) == Root(h, level)
  {
    Completeness(h, level, idx);
    ResolveInRange(|level|, idx);
  }

  lemma {:induction false} OwnProofRetraces(h: HashFn, level: seq<string>, idx: nat)
    requires level != []
    ensures var r := Resolve(|level|, idx); Retraces(h, level, idx, level[r], ProofOf(h, level, r))
    decreases |level|
  {
    if |level| > 1 {
      var r := Resolve(|level|, idx);
      PairAtIndex(level, idx);
      PairHash(h, level, r);
      StepUp(h, level, idx, level[r], ProofOf(h, level, r));
      hide Above, Climb, Resolve, PairBytes, PairAt, Root, ProofOf, Partner;
      OwnProofRetraces(h, Above(h, level), idx / 2);
    }
  }

  /** The widths: however the bytes of the first pair are divided between leaf and sibling, the proof
      leads to the root, and it is genuine only for the division into two digests. */
  lemma RegroupedAccepted(h: HashFn, level: seq<string>, idx: nat, leaf: string, sibling: string)
    requires |level| > 1 && Digests(h) && Wide(level)
    requires PairBytes(leaf, sibling, idx) == PairAt(level, Resolve(|level|, idx))
    ensures var r := Resolve(|level|, idx);
            var proof := [sibling] + ProofOf(h, level, r)[1..];
            && Climb(h, leaf, proof, idx) == Root(h, level)
            && (Genuine(h, level, r, leaf, proof) <==> |Raw(leaf)| == DIGEST_LEN)
  {
    var r := Resolve(|level|, idx);
    var own := ProofOf(h, level, r);
    var proof := [sibling] + own[1..];
    StepUp(h, level, idx, leaf, proof);
    StepUp(h, level, idx, level[r], own);
    PairHash(h, level, r);
    PairAtIndex(level, idx);
    Completeness(h, level, idx);
    OwnProofRetraces(h, level, idx);
    hide Above, Climb, Resolve, PairBytes, PairAt, Root, ProofOf, Partner, Wide, Digests, Genuine, ClimbInputs, PathInputs;
    assert proof[1..] == own[1..];
    RetracedIsGenuine(h, level, idx, leaf, proof);
  }

  /** So every width but that of a digest lets something pass that is not in the tree. */
  lemma AnyWidthAccepted(h: HashFn, level: seq<string>, idx: nat, width: nat) returns (leaf: string, sibling: string)
    requires |level| > 1 && Digests(h) && Wide(level) && width <= 2 * DIGEST_LEN
    ensures var r := Resolve(|level|, idx);
            var proof := [sibling] + ProofOf(h, level, r)[1..];
            && |Raw(leaf)| == width
            && Climb(h, leaf, proof, idx) == Root(h, level)
            && (Genuine(h, level, r, leaf, proof) <==> width == DIGEST_LEN)
  {
    hide *;
    var r := Resolve(|level|, idx);
    PairWidth(level, r);
    leaf, sibling := Divided(PairAt(level, r), width, idx);
    RegroupedAccepted(h, level, idx, leaf, sibling);
  }

  lemma PairWidth(level: seq<string>, i: nat)
    requires i < |level| && Wide(level)
    ensures |PairAt(level, i)| == 2 * DIGEST_LEN
  {
    assert level[i] in level && level[Partner(|level|, i)] in level;
  }

  /** Bytes divided between a text of the given width and a sibling. */
  lemma Divided(pair: Bytes, width: nat, idx: nat) returns (leaf: string, sibling: string)
    requires width <= |pair|
    ensures |Raw(leaf)| == width && PairBytes(leaf, sibling, idx) == pair
  {
    hide Raw, Decodes;
    var cut := if idx % 2 == 0 then width else |pair| - width;
    EncodeRaw(pair[..cut]);
    EncodeRaw(pair[cut..]);
    assert pair == pair[..cut] + pair[cut..];
    leaf, sibling := Hex.Encode(pair[..cut]), Hex.Encode(pair[cut..]);
    if idx % 2 != 0 { leaf, sibling := sibling, leaf; }
    hide Hex.Encode;
  }

  /** Also text that is no hex at all: beside a sibling that holds both digests it is skipped. */
  lemma NonsenseAccepted(h: HashFn, level: seq<string>, idx: nat, nonsense: string)
    requires |level| > 1 && Digests(h) && Wide(level) && !Decodes(nonsense)
    ensures var r := Resolve(|level|, idx);
            Climb(h, nonsense, [Hex.Encode(PairAt(level, r))] + ProofOf(h, level, r)[1..], idx) == Root(h, level)
  {
    var pair := PairAt(level, Resolve(|level|, idx));
    EncodeRaw(pair);
    assert Raw(nonsense) == [] && [] + pair == pair == pair + [];
    RegroupedAccepted(h, level, idx, nonsense, Hex.Encode(pair));
  }

  lemma {:induction false} ClimbSplit(h: HashFn, leaf: string, proof: seq<string>, idx: nat, m: nat)
    requires m <= |proof|
    ensures var there := Climb(h, leaf, proof[..m], idx);
            && Climb(h, leaf, proof, idx) == Climb(h, there, proof[m..], Halved(idx, m))
            && ClimbInputs(h, leaf, proof, idx)[m..] == ClimbInputs(h, there, proof[m..], Halved(idx, m))
            && (m > 0 ==> there == Hex.Encode(h(ClimbInputs(h, leaf, proof, idx)[m - 1])))
    decreases m
  {
    if m > 0 {
      var next := Hex.Encode(h(PairBytes(leaf, proof[0], idx)));
      assert proof[..m][1..] == proof[1..][..m - 1] && proof[m..] == proof[1..][m - 1..];
      ClimbSplit(h, next, proof[1..], idx / 2, m - 1);
    } else {
      assert proof[..0] == [] && proof[0..] == proof;
    }
  }

  /** A text and a proof of full length that stand for the node an index leads to; in a tree of one node, the
      text must be that node's own. */
  ghost predicate Arrives(h: HashFn, level: seq<string>, idx: nat, text: string, proof: seq<string>)
    requires level != []
  {
    if |level| == 1 then text == level[0] else Genuine(h, level, Resolve(|level|, idx), text, proof)
  }

  lemma ArrivesIff(h: HashFn, level: seq<string>, idx: nat, b: Bytes, proof: seq<string>)
    requires level != [] && |proof| == Depth(|level|) && Digests(h) && Wide(level)
    ensures Arrives(h, level, idx, Hex.Encode(h(b)), proof) <==> Retraces(h, level, idx, Hex.Encode(h(b)), proof)
  {
    if |level| > 1 {
      EncodeRaw(h(b));
      hide Genuine, Climb, ClimbInputs, PathInputs, Resolve, Root, Wide, Raw;
      if Retraces(h, level, idx, Hex.Encode(h(b)), proof) { RetracedIsGenuine(h, level, idx, Hex.Encode(h(b)), proof); }
      if Genuine(h, level, Resolve(|level|, idx), Hex.Encode(h(b)), proof) {
        GenuineRetraces(h, level, idx, Hex.Encode(h(b)), proof);
      }
    }
  }

  /** The length again: a proof longer than the tree is deep leads to the root exactly when what the climb
      hashed last before it comes to the leaves has the hash of a leaf, and the rest is that leaf's proof;
      barring a collision. */
  lemma LongerProof(h: HashFn, level: seq<string>, idx: nat, leaf: string, proof: seq<string>) returns (x: nat)
    requires level != [] && Digests(h) && Wide(level) && |proof| > Depth(|level|)
    ensures var m := |proof| - Depth(|level|);
            var below := ClimbInputs(h, leaf, proof, idx)[m - 1];
            var arrives := Arrives(h, level, Halved(idx, m), Hex.Encode(h(below)), proof[m..]);
            && (arrives ==> Climb(h, leaf, proof, idx) == Root(h, level))
            && (Climb(h, leaf, proof, idx) == Root(h, level) ==> arrives || Collides(h, level, idx, leaf, proof, x))
  {
    var m := |proof| - Depth(|level|);
    var inputs := ClimbInputs(h, leaf, proof, idx);
    var below, at := inputs[m - 1], Halved(idx, m);
    var there := Hex.Encode(h(below));
    ClimbSplit(h, leaf, proof, idx, m);
    assert forall y :: 0 <= y < Depth(|level|) ==> inputs[m..][y] == inputs[m + y];
    hide Above, Resolve, Climb, ClimbInputs, PathInputs, Root, Wide, Digests, Raw, Halved, Arrives, Retraces;
    ArrivesIff(h, level, at, below, proof[m..]);
    x := 0;
    if Climb(h, leaf, proof, idx) == Root(h, level) {
      x := AcceptedRetraces(h, level, at, there, proof[m..]);
    }
    if Retraces(h, level, at, there, proof[m..]) { RetracesAccepted(h, level, at, there, proof[m..]); }
  }

  /** So a leaf's own preimage, divided anywhere between a text and a sibling more, passes below that leaf,
      and is no node of the tree. */
  lemma PreimageAccepted(h: HashFn, level: seq<string>, idx: nat, leaf: string, sibling: string)
    requires level != [] && Digests(h) && Wide(level)
    requires level[Resolve(|level|, idx / 2)] == Hex.Encode(h(PairBytes(leaf, sibling, idx)))
    ensures var proof := [sibling] + ProofOf(h, level, Resolve(|level|, idx / 2));
            && |proof| == Depth(|level|) + 1
            && Climb(h, leaf, proof, idx) == Root(h, level)
            && !OfSomeNode(h, level, leaf, proof)
  {
    var own := ProofOf(h, level, Resolve(|level|, idx / 2));
    assert ([sibling] + own)[1..] == own;
    Completeness(h, level, idx / 2);
    NodeShape(h, level, leaf, [sibling] + own);
  }
}
