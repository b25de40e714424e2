/** The relationship record of `actix-server/src/models/proof.rs` and its
    conversion into a BSON document. */
module ProofRecord {
  import opened Outcomes
  import opened Bson
  import Serde

  datatype Proof = Proof(proofId: string, assetId: string)

  /** The Rust field names, in declaration order. */
  const ProofIdField: string := "proof_id"
  const AssetIdField: string := "asset_id"
  const FieldNames: seq<string> := [ProofIdField, AssetIdField]

  /** The entries `From<Proof> for Bson` produces, in insertion order. */
  function ProofEntries(proof: Proof): (entries: seq<(string, Bson)>) {
    [("proofId", BString(proof.proofId)), ("assetId", BString(proof.assetId))]
  }

  /** `impl From<Proof> for Bson`: a new document, two inserts, wrapped as a document value. */
  method IntoBson(proof: Proof) returns (b: Bson)
    ensures b == BDocument(ProofEntries(proof))
  {
    var document := new Document();
    var _ := document.Insert("proofId", BString(proof.proofId));
    var _ := document.Insert("assetId", BString(proof.assetId));
    b := BDocument(document.entries);
  }

  /** The document has exactly the keys proofId, assetId in that order, they
      are serde's camelCase names of the struct fields, and each holds its
      field unchanged. */
  lemma ProofEntriesSpec(proof: Proof)
    ensures Keys(ProofEntries(proof)) == ["proofId", "assetId"] == Serde.CamelCaseAll(FieldNames)
    ensures DistinctKeys(ProofEntries(proof))
    ensures Get(ProofEntries(proof), "proofId") == Some(BString(proof.proofId))
    ensures Get(ProofEntries(proof), "assetId") == Some(BString(proof.assetId))
  {
    ProofIdFieldName();
    AssetIdFieldName();
    Serde.CamelCaseAllOfTwo(ProofIdField, AssetIdField, "proofId", "assetId");
    var entries := ProofEntries(proof);
    IndexOfDistinct(entries, 0, "proofId");
    IndexOfDistinct(entries, 1, "assetId");
  }

  lemma ProofIdFieldName()
    ensures Serde.CamelCase(ProofIdField) == "proofId"
  {
    Serde.TwoWordField("proof", "id", ProofIdField, "proofId");
  }

  lemma AssetIdFieldName()
    ensures Serde.CamelCase(AssetIdField) == "assetId"
  {
    Serde.TwoWordField("asset", "id", AssetIdField, "assetId");
  }
}

/** The relationship record of `actix-server/src/models/asset.rs` and its
    conversion into a BSON document. */
module AssetRecord {
  import opened Outcomes
  import opened Bson
  import Serde

  datatype Asset = Asset(assetId: string, proofId: string, nftAddr: Option<string>)

  const AssetIdField: string := "asset_id"
  const ProofIdField: string := "proof_id"
  const NftAddrField: string := "nft_addr"
  const FieldNames: seq<string> := [AssetIdField, ProofIdField, NftAddrField]

  /** The entries `From<Asset> for Bson` produces, in insertion order. */
  function AssetEntries(asset: Asset): (entries: seq<(string, Bson)>) {
    [("assetId", BString(asset.assetId)), ("proofId", BString(asset.proofId)), ("nftAddr", FromOption(asset.nftAddr))]
  }

  /** `impl From<Asset> for Bson`: a new document, three inserts. */
  method IntoBson(asset: Asset) returns (b: Bson)
    ensures b == BDocument(AssetEntries(asset))
  {
    var document := new Document();
    var _ := document.Insert("assetId", BString(asset.assetId));
    var _ := document.Insert("proofId", BString(asset.proofId));
    var _ := document.Insert("nftAddr", FromOption(asset.nftAddr));
    b := BDocument(document.entries);
  }

  /** Exactly the keys assetId, proofId, nftAddr in that order (serde's
      camelCase field names); nftAddr is there even when the address is
      absent, holding null then. */
  lemma AssetEntriesSpec(asset: Asset)
    ensures Keys(AssetEntries(asset)) == ["assetId", "proofId", "nftAddr"] == Serde.CamelCaseAll(FieldNames)
    ensures DistinctKeys(AssetEntries(asset))
    ensures Get(AssetEntries(asset), "assetId") == Some(BString(asset.assetId))
    ensures Get(AssetEntries(asset), "proofId") == Some(BString(asset.proofId))
    ensures Get(AssetEntries(asset), "nftAddr") == Some(if asset.nftAddr.None? then BNull else BString(asset.nftAddr.value))
  {
    SerdeKeys();
    AssetKeys(asset);
    var entries := AssetEntries(asset);
    IndexOfDistinct(entries, 0, "assetId");
    IndexOfDistinct(entries, 1, "proofId");
    IndexOfDistinct(entries, 2, "nftAddr");
  }

  lemma AssetKeys(asset: Asset)
    ensures Keys(AssetEntries(asset)) == ["assetId", "proofId", "nftAddr"]
    ensures DistinctKeys(AssetEntries(asset))
  {
    var keys := Keys(AssetEntries(asset));
    assert |keys| == 3 && keys[0] == "assetId" && keys[1] == "proofId" && keys[2] == "nftAddr";
  }

  lemma SerdeKeys()
    ensures Serde.CamelCaseAll(FieldNames) == ["assetId", "proofId", "nftAddr"]
  {
    AssetIdFieldName();
    ProofIdFieldName();
    NftAddrFieldName();
    Serde.CamelCaseAllOfThree(AssetIdField, ProofIdField, NftAddrField, "assetId", "proofId", "nftAddr");
  }

  lemma AssetIdFieldName()
    ensures Serde.CamelCase(AssetIdField) == "assetId"
  {
    Serde.TwoWordField("asset", "id", AssetIdField, "assetId");
  }

  lemma ProofIdFieldName()
    ensures Serde.CamelCase(ProofIdField) == "proofId"
  {
    Serde.TwoWordField("proof", "id", ProofIdField, "proofId");
  }

  lemma NftAddrFieldName()
    ensures Serde.CamelCase(NftAddrField) == "nftAddr"
  {
    Serde.TwoWordField("nft", "addr", NftAddrField, "nftAddr");
  }
}
