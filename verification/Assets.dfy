/** Asset nodes, as both halves of the attack graph see them. */
module Assets {
  datatype AssetNode = AssetNode(name: string, target: string, criticality: string, exposure: string)

  /** Entry points are the assets tagged as internet-facing. */
  function Exposure(tags: seq<string>): string {
    if exists t :: t in tags && t in {"public", "external", "internet"} then "external" else "internal"
  }

  lemma ExposureIff(tags: seq<string>)
    ensures Exposure(tags) == "external" <==> "public" in tags || "external" in tags || "internet" in tags
    ensures Exposure(tags) == "external" || Exposure(tags) == "internal"
  {
    assert "external" != "internal" by {
      assert "external"[0] == 'e' && "internal"[0] == 'i';
    }
  }
}
