/** Evidence hash chain (engine/documentation/chain.py). The digests are arbitrary
    functions: nothing is assumed about them, so tamper evidence is stated by exhibiting a
    collision, or a preimage of the genesis value, whenever the chains differ. */
module Chain {
  import opened Common

  /** What a link hash is computed from; its JSON text determines all five fields. */
  datatype Canonical = Canonical(linkIndex: int, evidenceId: Uuid, contentHash: string, timestamp: string,
                                 previousHash: string)

  type Digest = Canonical -> string

  datatype ChainLink = ChainLink(linkIndex: int, evidenceId: Uuid, contentHash: string, timestamp: string,
                                 previousHash: string, linkHash: string, metadata: map<string, string>)

  /** Sixty-four zeros. */
  const GENESIS_HASH := "0000000000000000000000000000000000000000000000000000000000000000"

  function CanonicalOf(previous: string, l: ChainLink): Canonical {
    Canonical(l.linkIndex, l.evidenceId, l.contentHash, l.timestamp, previous)
  }

  function TailOf(links: seq<ChainLink>): string {
    if links == [] then GENESIS_HASH else links[|links| - 1].linkHash
  }

  /** Every link hash is the digest of the link's fields and the hash before it. */
  predicate Verifies(sha: Digest, links: seq<ChainLink>) {
    forall k :: 0 <= k < |links| ==> sha(CanonicalOf(TailOf(links[..k]), links[k])) == links[k].linkHash
  }

  predicate Indexed(links: seq<ChainLink>) {
    forall k :: 0 <= k < |links| ==> links[k].linkIndex == k
  }

  /** The fields `verify` looks at. */
  predicate SameHashed(a: ChainLink, b: ChainLink) {
    CanonicalOf("", a) == CanonicalOf("", b) && a.linkHash == b.linkHash
  }

  predicate AllSame(a: seq<ChainLink>, b: seq<ChainLink>) {
    |a| == |b| && forall k :: 0 <= k < |a| ==> SameHashed(a[k], b[k])
  }

  datatype Finding = Same | Collision(x: Canonical, y: Canonical) | Preimage(x: Canonical)

  ghost predicate Proves(sha: Digest, a: seq<ChainLink>, b: seq<ChainLink>, f: Finding) {
    match f
    case Same => AllSame(a, b)
    case Collision(x, y) => x != y && sha(x) == sha(y)
    case Preimage(x) => sha(x) == GENESIS_HASH
  }

  function LastCanonical(links: seq<ChainLink>): Canonical
    requires links != []
  {
    CanonicalOf(TailOf(links[..|links| - 1]), links[|links| - 1])
  }

  lemma FrontVerifies(sha: Digest, links: seq<ChainLink>)
    requires Verifies(sha, links) && links != []
    ensures Verifies(sha, links[..|links| - 1]) && sha(LastCanonical(links)) == TailOf(links)
  {
    var n := |links| - 1;
    forall k | 0 <= k < n
      ensures sha(CanonicalOf(TailOf(links[..n][..k]), links[..n][k])) == links[..n][k].linkHash
    {
      assert links[..n][..k] == links[..k];
    }
  }

  lemma SameAtEnd(a: seq<ChainLink>, b: seq<ChainLink>)
    requires a != [] && b != [] && AllSame(a[..|a| - 1], b[..|b| - 1])
    requires LastCanonical(a) == LastCanonical(b) && TailOf(a) == TailOf(b)
    ensures AllSame(a, b)
  {
    var n := |a| - 1;
    forall k | 0 <= k < |a|
      ensures SameHashed(a[k], b[k])
    {
      assert k < n ==> SameHashed(a[..n][k], b[..n][k]);
    }
  }

  /** Two verifying chains with the same tail hash have the same hashed fields in every
      link, or they exhibit a digest collision or a preimage of the genesis hash. */
  lemma {:induction false} SameTailSameChain(sha: Digest, a: seq<ChainLink>, b: seq<ChainLink>) returns (f: Finding)
    requires Verifies(sha, a) && Verifies(sha, b) && TailOf(a) == TailOf(b)
    ensures Proves(sha, a, b, f)
    ensures |a| == |b| ==> !f.Preimage?
  {
    if a != [] {
      FrontVerifies(sha, a);
    }
    if b != [] {
      FrontVerifies(sha, b);
    }
    if a == [] && b == [] {
      f := Same;
    } else if a == [] {
      f := Preimage(LastCanonical(b));
    } else if b == [] {
      f := Preimage(LastCanonical(a));
    } else if LastCanonical(a) != LastCanonical(b) {
      f := Collision(LastCanonical(a), LastCanonical(b));
    } else {
      f := SameTailSameChain(sha, a[..|a| - 1], b[..|b| - 1]);
      if f.Same? {
        SameAtEnd(a, b);
      }
    }
  }

  /** Non-empty chains whose links carry their positions, as appending leaves them, need no
      assumption about the genesis hash: only a collision can tell them apart. */
  lemma AppendedChainsCollide(sha: Digest, a: seq<ChainLink>, b: seq<ChainLink>) returns (f: Finding)
    requires Verifies(sha, a) && Verifies(sha, b) && TailOf(a) == TailOf(b)
    requires Indexed(a) && Indexed(b) && a != [] && b != []
    ensures Proves(sha, a, b, f) && !f.Preimage?
  {
    if |a| == |b| {
      f := SameTailSameChain(sha, a, b);
    } else {
      FrontVerifies(sha, a);
      FrontVerifies(sha, b);
      f := Collision(LastCanonical(a), LastCanonical(b));
    }
  }

  /** Altering one hashed field of one link of a verifying chain, tail hash untouched, makes
      verification fail unless the altered chain exhibits a collision. */
  lemma AlterationIsCaught(sha: Digest, links: seq<ChainLink>, i: nat, altered: ChainLink) returns (f: Finding)
    requires Verifies(sha, links) && i < |links| && !SameHashed(links[i], altered)
    requires i < |links| - 1 || altered.linkHash == links[i].linkHash
    ensures Verifies(sha, links[i := altered]) ==> f.Collision? && Proves(sha, links, links[i := altered], f)
  {
    f := Same;
    var b := links[i := altered];
    if Verifies(sha, b) {
      AlteringKeepsTail(links, i, altered);
      f := SameTailSameChain(sha, links, b);
      assert !SameHashed(links[i], b[i]);
    }
  }

  lemma AlteringKeepsTail(links: seq<ChainLink>, i: nat, altered: ChainLink)
    requires i < |links| && (i < |links| - 1 || altered.linkHash == links[i].linkHash)
    ensures TailOf(links[i := altered]) == TailOf(links)
  {
  }

  /** Verification sees the hashed fields and nothing else: the stored previous hash and
      the metadata can be anything. */
  lemma VerificationSeesHashedFields(sha: Digest, a: seq<ChainLink>, b: seq<ChainLink>)
    requires AllSame(a, b)
    ensures Verifies(sha, a) <==> Verifies(sha, b)
  {
    if Verifies(sha, a) {
      SameHashedVerifies(sha, a, b);
    }
    if Verifies(sha, b) {
      assert forall k :: 0 <= k < |b| ==> SameHashed(a[k], b[k]);
      SameHashedVerifies(sha, b, a);
    }
  }

  lemma SameHashedVerifies(sha: Digest, a: seq<ChainLink>, b: seq<ChainLink>)
    requires AllSame(a, b) && Verifies(sha, a)
    ensures Verifies(sha, b)
  {
    forall k | 0 <= k < |b|
      ensures sha(CanonicalOf(TailOf(b[..k]), b[k])) == b[k].linkHash
    {
      SameCanonical(a, b, k);
    }
  }

  lemma SameCanonical(a: seq<ChainLink>, b: seq<ChainLink>, k: nat)
    requires AllSame(a, b) && k < |a|
    ensures CanonicalOf(TailOf(a[..k]), a[k]) == CanonicalOf(TailOf(b[..k]), b[k]) && a[k].linkHash == b[k].linkHash
  {
    assert SameHashed(a[k], b[k]);
    if k > 0 {
      assert SameHashed(a[k - 1], b[k - 1]);
    }
  }

  /** So a forged `previous_hash` passes. */
  lemma ForgedPreviousHashPasses(sha: Digest, links: seq<ChainLink>, i: nat, forged: string)
    requires Verifies(sha, links) && i < |links| && forged != links[i].previousHash
    ensures links[i := links[i].(previousHash := forged)] != links
    ensures Verifies(sha, links[i := links[i].(previousHash := forged)])
  {
    var b := links[i := links[i].(previousHash := forged)];
    assert b[i] != links[i];
    VerificationSeesHashedFields(sha, links, b);
  }

  // ---- The chain object ----

  class EvidenceHashChain {
    const linkSha: Digest
    const contentSha: string -> string
    var links: seq<ChainLink>
    var tailHash: string

    ghost predicate Valid()
      reads this
    {
      && Verifies(linkSha, links) && Indexed(links) && tailHash == TailOf(links)
      && forall k :: 0 <= k < |links| ==> links[k].previousHash == TailOf(links[..k])
    }

    constructor (linkSha: Digest, contentSha: string -> string)
      ensures Valid() && links == [] && this.linkSha == linkSha && this.contentSha == contentSha
    {
      this.linkSha, this.contentSha, links, tailHash := linkSha, contentSha, [], GENESIS_HASH;
    }

    /** `clock` is the current time; it is used when no timestamp, or an empty one, is given. */
    method Append(evidenceId: Uuid, content: string, metadata: map<string, string>, timestamp: Option<string>,
                  clock: string)
      returns (link: ChainLink)
      requires Valid()
      modifies this
      ensures Valid() && links == old(links) + [link] && tailHash == link.linkHash
      ensures link.evidenceId == evidenceId && link.contentHash == contentSha(content) && link.metadata == metadata
      ensures link.timestamp == if timestamp.Some? && timestamp.value != "" then timestamp.value else clock
    {
      var ts := if timestamp.Some? && timestamp.value != "" then timestamp.value else clock;
      var contentHash := contentSha(content);
      var idx := |links|;
      var linkHash := linkSha(Canonical(idx, evidenceId, contentHash, ts, tailHash));
      link := ChainLink(idx, evidenceId, contentHash, ts, tailHash, linkHash, metadata);
      ghost var before := links;
      links := links + [link];
      tailHash := linkHash;
      assert forall k :: 0 <= k <= |before| ==> links[..k] == before[..k];
    }

    /** True exactly when every link hash checks; always true of a chain built by appending. */
    method Verify() returns (ok: bool)
      ensures ok <==> Verifies(linkSha, links)
      ensures Valid() ==> ok
    {
      var prev := GENESIS_HASH;
      for k := 0 to |links|
        invariant prev == TailOf(links[..k])
        invariant forall j :: 0 <= j < k ==> linkSha(CanonicalOf(TailOf(links[..j]), links[j])) == links[j].linkHash
      {
        var link := links[k];
        var expected := linkSha(Canonical(link.linkIndex, link.evidenceId, link.contentHash, link.timestamp, prev));
        if expected != link.linkHash {
          return false;
        }
        prev := link.linkHash;
        assert links[..k + 1][k] == link;
      }
      ok := true;
    }
  }
}
