/** File contents and their SHA-256 digests. */
module Digests {
  import opened Prelude

  predicate IsHexDigest(d: string) {
    |d| == 64 && forall c | c in d :: '0' <= c <= '9' || 'a' <= c <= 'f'
  }

  type HexDigest = d: string | IsHexDigest(d)
    witness seq(64, _ => '0')

  /** File contents: payload bytes, or the decimal install time of a sidecar. */
  datatype Content = Data(bytes: seq<bv8>) | Stamp(nanos: int)

  /** SHA-256 in lower-case hex. Every result holds for every such function. */
  type HashFn = Content -> HexDigest

  /** The comparison `strings.EqualFold("sha256:"+sum, digest)`. */
  predicate DigestMatches(sum: HexDigest, digest: string) {
    EqualFold("sha256:" + sum, digest)
  }

  lemma HexIsLower(d: HexDigest)
    ensures ToLower(d) == d
  {
    forall i | 0 <= i < |d| ensures LowerChar(d[i]) == d[i] {
      assert d[i] in d;
    }
  }
}
