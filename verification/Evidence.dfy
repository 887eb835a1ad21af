/** From embedded canary tokens to evidence (origin-canary): the commitment that embedding makes,
    and the chain that an evidence package rebuilds from secrets found elsewhere. */
module Evidence {
  import opened Wrappers
  import opened Merkle
  import Hex

  /** What follows the secret in the text a leaf hashes: "|project|distribution|index". */
  type TailFn = (nat, string, nat) -> Bytes

  function LeafData(tail: TailFn, secret: Bytes, projectId: nat, distributionId: string, index: nat): Bytes {
    secret + tail(projectId, distributionId, index)
  }

  function LeafText(h: HashFn, tail: TailFn, secret: Bytes, projectId: nat, distributionId: string, index: nat): string {
    Hex.Encode(h(LeafData(tail, secret, projectId, distributionId, index)))
  }

  /** Secrets are given by their bytes. */
  datatype CanaryToken = CanaryToken(secret: Bytes, merkleLeaf: Option<string>, merkleProof: seq<string>)

  datatype Manifest = Manifest(
    projectId: nat, distributionId: string, tokens: seq<CanaryToken>, merkleRoot: Option<string>)

  datatype MatchEvidence = MatchEvidence(secret: Bytes, leaf: string, proof: seq<string>, leafIndex: nat, proofOk: bool)

  datatype AssembleError = NoMerkleRoot | UnknownSecret(secret: Bytes)

  ghost function LeavesOf(h: HashFn, tail: TailFn, projectId: nat, distributionId: string, secrets: seq<Bytes>)
    : (r: seq<string>)
    ensures |r| == |secrets|
  {
    seq(|secrets|, i requires 0 <= i < |secrets| => LeafText(h, tail, secrets[i], projectId, distributionId, i))
  }

  ghost function SecretsOf(tokens: seq<CanaryToken>): (r: seq<Bytes>)
    ensures |r| == |tokens|
  {
    seq(|tokens|, i requires 0 <= i < |tokens| => tokens[i].secret)
  }

  /** The manifest commits to its own tokens: each carries its leaf and its proof to the root. */
  ghost predicate Committed(h: HashFn, tail: TailFn, m: Manifest) {
    && m.tokens != []
    && var leaves := LeavesOf(h, tail, m.projectId, m.distributionId, SecretsOf(m.tokens));
       && m.merkleRoot == Some(Root(h, leaves))
       && forall i :: 0 <= i < |m.tokens| ==>
            && m.tokens[i].merkleLeaf == Some(leaves[i])
            && m.tokens[i].merkleProof == ProofOf(h, leaves, i)
  }

  method Embed(h: HashFn, tail: TailFn, projectId: nat, distributionId: string, secrets: seq<Bytes>)
    returns (m: Manifest)
    requires secrets != []
    ensures Committed(h, tail, m) && SecretsOf(m.tokens) == secrets
    ensures m.projectId == projectId && m.distributionId == distributionId
  {
    var tokens: seq<CanaryToken> := seq(|secrets|, i requires 0 <= i < |secrets| => CanaryToken(secrets[i], None, []));
    var leaves := seq(|secrets|, i requires 0 <= i < |secrets| =>
      LeafText(h, tail, secrets[i], projectId, distributionId, i));
    assert leaves == LeavesOf(h, tail, projectId, distributionId, secrets);
    LeavesDecode(h, tail, projectId, distributionId, secrets);
    var tree := Build(h, leaves);
    for i := 0 to |tokens|
      invariant |tokens| == |secrets|
      invariant forall j :: 0 <= j < |secrets| ==> tokens[j].secret == secrets[j]
      invariant forall j :: 0 <= j < i ==>
                  tokens[j].merkleLeaf == Some(leaves[j]) && tokens[j].merkleProof == ProofOf(h, leaves, j)
    {
      var proof := GetProof(tree, i);
      assert tree.levels[0..] == tree.levels;
      SiblingsAreProof(h, tree.levels, 0, leaves, i);
      tokens := tokens[i := tokens[i].(merkleLeaf := Some(tree.leaves[i]), merkleProof := proof)];
    }
    assert SecretsOf(tokens) == secrets;
    m := Manifest(projectId, distributionId, tokens, Some(tree.root));
  }

  lemma LeavesDecode(h: HashFn, tail: TailFn, projectId: nat, distributionId: string, secrets: seq<Bytes>)
    ensures forall s <- LeavesOf(h, tail, projectId, distributionId, secrets) :: Decodes(s)
  {
    forall i | 0 <= i < |secrets| ensures Decodes(LeavesOf(h, tail, projectId, distributionId, secrets)[i]) {
      EncodeRaw(h(LeafData(tail, secrets[i], projectId, distributionId, i)));
    }
  }

  /** The first token with a given secret. */
  method FindToken(tokens: seq<CanaryToken>, secret: Bytes) returns (r: Option<nat>)
    ensures r.Some? ==> r.value < |tokens| && tokens[r.value].secret == secret
    ensures r.Some? ==> forall j :: 0 <= j < r.value ==> tokens[j].secret != secret
    ensures r.None? ==> secret !in SecretsOf(tokens)
  {
    for i := 0 to |tokens|
      invariant forall j :: 0 <= j < i ==> tokens[j].secret != secret
    {
      if tokens[i].secret == secret {
        return Some(i);
      }
    }
    return None;
  }

  /** What one package entry must be: the recomputed leaf, the stored proof, and an honest verdict. */
  ghost predicate Recomputed(h: HashFn, tail: TailFn, m: Manifest, root: string, secret: Bytes,
                             ev: MatchEvidence) {
    && ev.secret == secret
    && ev.leafIndex < |m.tokens| && m.tokens[ev.leafIndex].secret == secret
    && (forall j :: 0 <= j < ev.leafIndex ==> m.tokens[j].secret != secret)
    && ev.leaf == LeafText(h, tail, secret, m.projectId, m.distributionId, ev.leafIndex)
    && ev.proof == m.tokens[ev.leafIndex].merkleProof
    && (ev.proofOk <==> Climb(h, ev.leaf, ev.proof, ev.leafIndex) == root)
  }

  /** Fails exactly on a manifest without root or a secret nobody embedded; never drops a match. */
  method Assemble(h: HashFn, tail: TailFn, m: Manifest, found: seq<Bytes>)
    returns (r: Result<seq<MatchEvidence>, AssembleError>)
    ensures r.Ok? <==> m.merkleRoot.Some? && forall s :: s in found ==> s in SecretsOf(m.tokens)
    ensures r == Err(NoMerkleRoot) <==> m.merkleRoot.None?
    ensures r.Err? && r.error.UnknownSecret? ==> r.error.secret in found && r.error.secret !in SecretsOf(m.tokens)
    ensures r.Ok? ==> |r.value| == |found|
    ensures r.Ok? ==> forall k :: 0 <= k < |found| ==> Recomputed(h, tail, m, m.merkleRoot.value, found[k], r.value[k])
  {
    if m.merkleRoot.None? {
      return Err(NoMerkleRoot);
    }
    var root := m.merkleRoot.value;
    var gathered := Gather(h, tail, m, root, found);
    if gathered.Err? {
      return gathered;
    }
    var evidence := WalkProofs(h, tail, m, root, found, gathered.value);
    return Ok(evidence);
  }

  /** First loop: recomputed leaves and stored proofs, their verdicts still to come. */
  method Gather(h: HashFn, tail: TailFn, m: Manifest, root: string, found: seq<Bytes>)
    returns (r: Result<seq<MatchEvidence>, AssembleError>)
    ensures r.Ok? <==> forall s :: s in found ==> s in SecretsOf(m.tokens)
    ensures r.Err? ==> r.error.UnknownSecret? && r.error.secret in found && r.error.secret !in SecretsOf(m.tokens)
    ensures r.Ok? ==> |r.value| == |found|
    ensures r.Ok? ==> forall k :: 0 <= k < |found| ==> Recomputed(h, tail, m, root, found[k], Walked(h, root, r.value[k]))
  {
    var evidence: seq<MatchEvidence> := [];
    for k := 0 to |found|
      invariant |evidence| == k
      invariant forall j :: 0 <= j < k ==> found[j] in SecretsOf(m.tokens)
      invariant forall j :: 0 <= j < k ==> Recomputed(h, tail, m, root, found[j], Walked(h, root, evidence[j]))
    {
      var index := FindToken(m.tokens, found[k]);
      if index.None? {
        return Err(UnknownSecret(found[k]));
      }
      var i := index.value;
      assert SecretsOf(m.tokens)[i] == found[k];
      evidence := evidence + [MatchEvidence(found[k], LeafText(h, tail, found[k], m.projectId, m.distributionId, i),
                                            m.tokens[i].merkleProof, i, true)];
    }
    return Ok(evidence);
  }

  /** Second loop: every proof is walked and its verdict recorded in place. */
  method WalkProofs(h: HashFn, tail: TailFn, m: Manifest, root: string, found: seq<Bytes>,
                    gathered: seq<MatchEvidence>) returns (evidence: seq<MatchEvidence>)
    requires |gathered| == |found|
    requires forall k :: 0 <= k < |found| ==> Recomputed(h, tail, m, root, found[k], Walked(h, root, gathered[k]))
    ensures |evidence| == |found|
    ensures forall k :: 0 <= k < |found| ==> Recomputed(h, tail, m, root, found[k], evidence[k])
  {
    hide Recomputed;
    evidence := gathered;
    for k := 0 to |evidence|
      invariant |evidence| == |found|
      invariant forall j :: 0 <= j < k ==> evidence[j] == Walked(h, root, gathered[j])
      invariant forall j :: k <= j < |found| ==> evidence[j] == gathered[j]
    {
      var ev := evidence[k];
      var ok := Verify(h, ev.leaf, ev.proof, ev.leafIndex, root);
      evidence := evidence[k := ev.(proofOk := ok)];
    }
  }

  ghost function Walked(h: HashFn, root: string, ev: MatchEvidence): MatchEvidence {
    ev.(proofOk := Climb(h, ev.leaf, ev.proof, ev.leafIndex) == root)
  }

  /** Check 3 of a package: there are matches, and every proof leads to the root. */
  method ProofsOk(h: HashFn, root: string, matches: seq<MatchEvidence>) returns (ok: bool)
    ensures ok <==> matches != [] && forall k :: 0 <= k < |matches| ==> Sound(h, root, matches[k])
  {
    if matches == [] {
      return false;
    }
    for k := 0 to |matches|
      invariant forall j :: 0 <= j < k ==> Sound(h, root, matches[j])
    {
      var m := matches[k];
      var walk := Verify(h, m.leaf, m.proof, m.leafIndex, root);
      if !(m.proofOk && walk) {
        return false;
      }
    }
    return true;
  }

  ghost predicate Sound(h: HashFn, root: string, ev: MatchEvidence) {
    ev.proofOk && Climb(h, ev.leaf, ev.proof, ev.leafIndex) == root
  }

  /** End to end: for a manifest that embedding produced, every match gets a proof that holds, also
      when two tokens share a secret. */
  lemma MatchesHold(h: HashFn, tail: TailFn, m: Manifest, secret: Bytes, ev: MatchEvidence)
    requires Committed(h, tail, m) && Recomputed(h, tail, m, m.merkleRoot.value, secret, ev)
    ensures Sound(h, m.merkleRoot.value, ev)
  {
    var leaves := TokenLeaves(h, tail, m);
    assert leaves[ev.leafIndex] == ev.leaf;
    Completeness(h, leaves, ev.leafIndex);
    ResolveInRange(|leaves|, ev.leafIndex);
  }

  ghost function TokenLeaves(h: HashFn, tail: TailFn, m: Manifest): (r: seq<string>)
    ensures |r| == |m.tokens|
  {
    LeavesOf(h, tail, m.projectId, m.distributionId, SecretsOf(m.tokens))
  }

  lemma LeavesWide(h: HashFn, tail: TailFn, m: Manifest)
    requires Digests(h)
    ensures Wide(TokenLeaves(h, tail, m))
    ensures forall i :: 0 <= i < |m.tokens| ==>
              Raw(TokenLeaves(h, tail, m)[i]) == h(LeafData(tail, m.tokens[i].secret, m.projectId, m.distributionId, i))
  {
    forall i | 0 <= i < |m.tokens|
      ensures && Decodes(TokenLeaves(h, tail, m)[i])
              && Raw(TokenLeaves(h, tail, m)[i])
              == h(LeafData(tail, m.tokens[i].secret, m.projectId, m.distributionId, i))
    {
      EncodeRaw(h(LeafData(tail, m.tokens[i].secret, m.projectId, m.distributionId, i)));
    }
  }

  lemma CommittedIs(h: HashFn, tail: TailFn, m: Manifest, i: nat)
    requires Committed(h, tail, m)
    ensures TokenLeaves(h, tail, m) != [] && m.merkleRoot == Some(Root(h, TokenLeaves(h, tail, m)))
    ensures i < |m.tokens| ==> m.tokens[i].merkleProof == ProofOf(h, TokenLeaves(h, tail, m), i)
  {}

  lemma SoundIs(h: HashFn, root: string, ev: MatchEvidence)
    ensures Sound(h, root, ev) <==> ev.proofOk && Climb(h, ev.leaf, ev.proof, ev.leafIndex) == root
  {}

  /** Conversely, evidence that passes check 3 is bound to the tree or collides with it at the step named. */
  lemma EvidenceBinds(h: HashFn, tail: TailFn, m: Manifest, ev: MatchEvidence) returns (x: nat)
    requires Digests(h) && Committed(h, tail, m) && Sound(h, m.merkleRoot.value, ev)
    ensures var leaves := TokenLeaves(h, tail, m);
            || Bound(h, leaves, ev.leafIndex, ev.leaf, ev.proof)
            || Collides(h, leaves, ev.leafIndex, ev.leaf, ev.proof, x)
  {
    hide *;
    LeavesWide(h, tail, m);
    CommittedIs(h, tail, m, 0);
    SoundIs(h, m.merkleRoot.value, ev);
    x := Binding(h, TokenLeaves(h, tail, m), ev.leafIndex, ev.leaf, ev.proof);
  }

  /** The text a token's leaf hashes, cut anywhere in two, passes check 3 with one sibling more than the tree
      is deep, and is no node of it: also where the first part has the width of a digest. */
  lemma PreimagePasses(h: HashFn, tail: TailFn, m: Manifest, i: nat, x: Bytes, y: Bytes, secret: Bytes)
    requires Digests(h) && Committed(h, tail, m) && i < |m.tokens|
    requires x + y == LeafData(tail, m.tokens[i].secret, m.projectId, m.distributionId, i)
    ensures var ev := MatchEvidence(secret, Hex.Encode(x), [Hex.Encode(y)] + m.tokens[i].merkleProof, 2 * i, true);
            && Sound(h, m.merkleRoot.value, ev)
            && |ev.proof| == Depth(|m.tokens|) + 1 && |Raw(ev.leaf)| == |x|
            && !OfSomeNode(h, TokenLeaves(h, tail, m), ev.leaf, ev.proof)
  {
    hide *;
    assert 2 * i % 2 == 0 && 2 * i / 2 == i;
    var leaves := TokenLeaves(h, tail, m);
    var ev := MatchEvidence(secret, Hex.Encode(x), [Hex.Encode(y)] + m.tokens[i].merkleProof, 2 * i, true);
    LeavesWide(h, tail, m);
    LeafAt(h, tail, m, i);
    CommittedIs(h, tail, m, i);
    SoundIs(h, m.merkleRoot.value, ev);
    ResolveInRange(|leaves|, i);
    PairOf(x, y, 2 * i);
    PreimageAccepted(h, leaves, 2 * i, Hex.Encode(x), Hex.Encode(y));
  }

  lemma LeafAt(h: HashFn, tail: TailFn, m: Manifest, i: nat)
    requires i < |m.tokens|
    ensures TokenLeaves(h, tail, m)[i]
         == Hex.Encode(h(LeafData(tail, m.tokens[i].secret, m.projectId, m.distributionId, i)))
  {}

  lemma PairOf(x: Bytes, y: Bytes, idx: nat)
    ensures |Raw(Hex.Encode(x))| == |x|
    ensures idx % 2 == 0 ==> PairBytes(Hex.Encode(x), Hex.Encode(y), idx) == x + y
  {
    EncodeRaw(x);
    EncodeRaw(y);
  }

  /** A package does not check again that a leaf belongs to its secret: whatever secret is written in,
      it passes. With a leaf of digest width, full length and an index in range, and no collision, the
      secret is the embedded one exactly when the leaf is recomputed from it. */
  lemma EvidenceNames(h: HashFn, tail: TailFn, m: Manifest, ev: MatchEvidence, other: Bytes) returns (x: nat)
    requires Digests(h) && Committed(h, tail, m) && Sound(h, m.merkleRoot.value, ev)
    requires ev.leafIndex < |m.tokens| && |ev.proof| == Depth(|m.tokens|) && |Raw(ev.leaf)| == DIGEST_LEN
    ensures Sound(h, m.merkleRoot.value, ev.(secret := other))
    ensures var token := m.tokens[ev.leafIndex];
            var own := LeafData(tail, token.secret, m.projectId, m.distributionId, ev.leafIndex);
            var claimed := LeafData(tail, ev.secret, m.projectId, m.distributionId, ev.leafIndex);
            || Collides(h, TokenLeaves(h, tail, m), ev.leafIndex, ev.leaf, ev.proof, x)
            || Collision(h, own, claimed)
            || (ev.secret == token.secret <==> Raw(ev.leaf) == h(claimed))
  {
    hide *;
    var leaves, i := TokenLeaves(h, tail, m), ev.leafIndex;
    LeavesWide(h, tail, m);
    ResolveInRange(|leaves|, i);
    CommittedIs(h, tail, m, i);
    SoundIs(h, m.merkleRoot.value, ev);
    SoundIs(h, m.merkleRoot.value, ev.(secret := other));
    BoundHere(h, leaves, i, ev.leaf, ev.proof);
    SameData(h, tail, m, i, m.tokens[i].secret, ev.secret);
    x := EvidenceBinds(h, tail, m, ev);
  }

  lemma BoundHere(h: HashFn, leaves: seq<string>, i: nat, leaf: string, proof: seq<string>)
    requires i < |leaves| && |proof| == Depth(|leaves|) && |Raw(leaf)| == DIGEST_LEN && Resolve(|leaves|, i) == i
    ensures Bound(h, leaves, i, leaf, proof) ==> Raw(leaf) == Raw(leaves[i])
  {
    assert Up(h, leaves, 0) == leaves;
    hide Up, Depth, Raw, Resolve;
  }

  /** Tokens that share a secret have leaves of their own: where what follows the secret differs with the
      index, equal leaves are a collision. */
  lemma LeavesApart(h: HashFn, tail: TailFn, m: Manifest, i: nat, j: nat)
    requires i < |m.tokens| && j < |m.tokens| && m.tokens[i].secret == m.tokens[j].secret
    requires tail(m.projectId, m.distributionId, i) != tail(m.projectId, m.distributionId, j)
    ensures TokenLeaves(h, tail, m)[i] == TokenLeaves(h, tail, m)[j] ==>
              Collision(h, m.tokens[i].secret + tail(m.projectId, m.distributionId, i),
                        m.tokens[j].secret + tail(m.projectId, m.distributionId, j))
  {
    var secret := m.tokens[i].secret;
    var x, y := secret + tail(m.projectId, m.distributionId, i), secret + tail(m.projectId, m.distributionId, j);
    assert x[|secret|..] == tail(m.projectId, m.distributionId, i) && y[|secret|..] == tail(m.projectId, m.distributionId, j);
    LeafAt(h, tail, m, i);
    LeafAt(h, tail, m, j);
    EncodeRaw(h(x));
    EncodeRaw(h(y));
  }

  /** Leaf data of the same token differ with the secret only. */
  lemma SameData(h: HashFn, tail: TailFn, m: Manifest, i: nat, a: Bytes, b: Bytes)
    ensures var x := LeafData(tail, a, m.projectId, m.distributionId, i);
            var y := LeafData(tail, b, m.projectId, m.distributionId, i);
            (x == y <==> a == b) && (Collision(h, x, y) <==> a != b && h(x) == h(y))
  {
    SameTail(a, b, tail(m.projectId, m.distributionId, i));
  }

  lemma SameTail(a: Bytes, b: Bytes, end: Bytes)
    ensures a + end == b + end <==> a == b
  {
    assert (a + end)[..|a + end| - |end|] == a && (b + end)[..|b + end| - |end|] == b;
  }
}
