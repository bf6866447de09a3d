/**
 * The hash of a three-layer context: the digest of the concatenated 32-byte shard digests.
 * `sha` stands for SHA-256; what it must not do is collide on the few messages hashed.
 */
module CompositeHash {
  import opened CanonicalJson
  import opened CanonicalWriter
  import opened CanonicalOrder

  type Bytes = seq<int>
  type Digest = Bytes -> Bytes

  ghost predicate IsDigest(sha: Digest) {
    forall m :: |sha(m)| == 32
  }

  ghost predicate CollisionFree(sha: Digest, messages: set<Bytes>) {
    forall m, n :: m in messages && n in messages && sha(m) == sha(n) ==> m == n
  }

  /** Root, domain and local: the serialized layers. */
  datatype Layers<T> = Layers(root: T, domain: T, local: T)

  function Concatenated(sha: Digest, l: Layers<Bytes>): Bytes {
    sha(l.root) + sha(l.domain) + sha(l.local)
  }

  function Composite(sha: Digest, l: Layers<Bytes>): Bytes {
    sha(Concatenated(sha, l))
  }

  /** Every message hashed for one context. */
  ghost function Hashed(sha: Digest, l: Layers<Bytes>): set<Bytes> {
    {l.root, l.domain, l.local, Concatenated(sha, l)}
  }

  /** The fixed width of the shard digests is what makes the concatenation unambiguous. */
  lemma CompositeBinds(sha: Digest, a: Layers<Bytes>, b: Layers<Bytes>)
    requires IsDigest(sha) && CollisionFree(sha, Hashed(sha, a) + Hashed(sha, b))
    ensures Composite(sha, a) == Composite(sha, b) <==> a == b
  {
    if Composite(sha, a) == Composite(sha, b) {
      var ca, cb := Concatenated(sha, a), Concatenated(sha, b);
      assert ca == cb;
      assert sha(a.root) == ca[..32] && sha(b.root) == cb[..32];
      assert sha(a.domain) == ca[32..64] && sha(b.domain) == cb[32..64];
      assert sha(a.local) == ca[64..] && sha(b.local) == cb[64..];
    }
  }

  // ----- rust/noe_core/src/hash.rs -----

  /** `json_str.as_bytes()`: the text is ASCII, so a character is a byte. */
  function AsBytes(s: string): (r: Bytes)
    ensures |r| == |s|
  {
    seq(|s|, i requires 0 <= i < |s| => s[i] as int)
  }

  lemma AsBytesIsInjective(s: string, t: string)
    ensures AsBytes(s) == AsBytes(t) ==> s == t
  {
    if AsBytes(s) == AsBytes(t) {
      forall i | 0 <= i < |s| ensures s[i] == t[i] {
        assert AsBytes(s)[i] == AsBytes(t)[i];
      }
    }
  }

  predicate FloatFree(l: Layers<Value>) {
    !HasFloat(l.root) && !HasFloat(l.domain) && !HasFloat(l.local)
  }

  function Serialized(l: Layers<Value>): Layers<Bytes>
    requires FloatFree(l)
  {
    Layers(AsBytes(CanonicalText(l.root)), AsBytes(CanonicalText(l.domain)), AsBytes(CanonicalText(l.local)))
  }

  /** `shard_digest` */
  method ShardDigest(sha: Digest, v: Value) returns (raw: Bytes)
    requires !HasFloat(v)
    ensures raw == sha(AsBytes(CanonicalText(v)))
  {
    var json := CanonicalBytes(v);
    raw := sha(AsBytes(json.value));
  }

  method CopyFromSlice(target: array<int>, start: nat, source: Bytes)
    requires start + |source| <= target.Length
    modifies target
    ensures target[..] == old(target[..start]) + source + old(target[start + |source|..])
  {
    for i := 0 to |source|
      invariant target[..] == old(target[..start]) + source[..i] + old(target[start + i..])
    {
      target[start + i] := source[i];
    }
  }

  /** `composite_hash`: a 96-byte buffer, filled and hashed. */
  method CompositeHash(sha: Digest, layers: Layers<Value>) returns (total: Bytes)
    requires IsDigest(sha) && FloatFree(layers)
    ensures total == Composite(sha, Serialized(layers))
    ensures total == sha(
      sha(AsBytes(CanonicalText(layers.root))) +
      sha(AsBytes(CanonicalText(layers.domain))) +
      sha(AsBytes(CanonicalText(layers.local))))
  {
    var rootRaw := ShardDigest(sha, layers.root);
    var domainRaw := ShardDigest(sha, layers.domain);
    var localRaw := ShardDigest(sha, layers.local);
    var combined := new int[96];
    CopyFromSlice(combined, 0, rootRaw);
    CopyFromSlice(combined, 32, domainRaw);
    CopyFromSlice(combined, 64, localRaw);
    assert combined[..] == rootRaw + domainRaw + localRaw;
    total := sha(combined[..]);
  }

  /** Two contexts have one composite hash iff their layers denote the same values. */
  lemma CompositeHashBindsContext(sha: Digest, a: Layers<Value>, b: Layers<Value>)
    requires FloatFree(a) && FloatFree(b) && IsDigest(sha)
    requires CollisionFree(sha, Hashed(sha, Serialized(a)) + Hashed(sha, Serialized(b)))
    ensures Composite(sha, Serialized(a)) == Composite(sha, Serialized(b)) <==>
      Denote(a.root) == Denote(b.root) && Denote(a.domain) == Denote(b.domain) && Denote(a.local) == Denote(b.local)
  {
    CompositeBinds(sha, Serialized(a), Serialized(b));
    SameBytesSameMeaning(a.root, b.root);
    SameBytesSameMeaning(a.domain, b.domain);
    SameBytesSameMeaning(a.local, b.local);
  }

  lemma SameBytesSameMeaning(a: Value, b: Value)
    requires !HasFloat(a) && !HasFloat(b)
    ensures AsBytes(CanonicalText(a)) == AsBytes(CanonicalText(b)) <==> Denote(a) == Denote(b)
  {
    AsBytesIsInjective(CanonicalText(a), CanonicalText(b));
    CanonicalTextIsInjective(a, b);
  }
}
