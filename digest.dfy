/** The digest step shared by every proof constructor: Blake2b-256 over the
    UTF-8 bytes of each input string, narrowed to a 32-byte array with
    `.try_into().expect("Wrong length")`. The hash itself is a parameter. */
module Digest {
  import opened Bytes
  import opened Outcomes

  const DigestLength := 32

  type Digest32 = s: seq<byte> | |s| == DigestLength witness seq(DigestLength, _ => 0)

  /** A byte-string hash function standing for `Blake2b256::digest`. */
  type Hash = seq<byte> -> seq<byte>

  /** The property Blake2b-256 has and the code relies on: every output is 32 bytes. */
  ghost predicate Is256(hash: Hash) {
    forall data :: |hash(data)| == DigestLength
  }

  /** `Blake2b256::digest(input.as_bytes()).as_slice().try_into().expect("Wrong length")`. */
  function DigestOf(hash: Hash, input: string): (r: Run<Digest32>)
    ensures r.Done? <==> |hash(Utf8(input))| == DigestLength
    ensures r.Done? ==> r.value == hash(Utf8(input))
    ensures r.Panic? ==> r.message == WrongLength
  {
    var d := hash(Utf8(input));
    if |d| == DigestLength then Done(d) else Panic(WrongLength)
  }

  /** The metadata digest, then the dataset digest; a wrong-length metadata
      digest panics before the dataset is hashed. */
  function DigestPair(hash: Hash, metadata: string, dataset: string): (r: Run<(Digest32, Digest32)>)
    ensures r.Done? <==> DigestOf(hash, metadata).Done? && DigestOf(hash, dataset).Done?
    ensures r.Done? ==> r.value == (hash(Utf8(metadata)), hash(Utf8(dataset)))
    ensures r.Panic? ==> r.message == WrongLength
  {
    match DigestOf(hash, metadata)
    case Panic(m) => Panic(m)
    case Done(dm) =>
      match DigestOf(hash, dataset)
      case Panic(m) => Panic(m)
      case Done(dd) => Done((dm, dd))
  }

  /** With a 256-bit hash the "Wrong length" check never fires. */
  lemma DigestPairNeverPanics(hash: Hash, metadata: string, dataset: string)
    requires Is256(hash)
    ensures DigestPair(hash, metadata, dataset).Done?
  {
    assert |hash(Utf8(metadata))| == DigestLength;
    assert |hash(Utf8(dataset))| == DigestLength;
  }
}
