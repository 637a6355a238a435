/**
 * `ModelPreset`: a model choice offered in the chat toolbar, identified by
 * provider and model, and shown under a short family name.
 */
module ModelPresets {
  import Text

  /** The family names `shortName` looks for, in the order it tries them. */
  const Keywords: seq<string> := ["Opus", "Sonnet", "Gemini", "GPT"]

  datatype ModelPreset = ModelPreset(displayName: string, providerID: string, modelID: string)
  {
    /** `id`: provider and model joined by `/`. */
    function Id(): (r: string)
      ensures |r| == |providerID| + 1 + |modelID|
      ensures r[..|providerID|] == providerID && r[|providerID|] == '/' && r[|providerID| + 1..] == modelID
    {
      providerID + "/" + modelID
    }

    /** `shortName`: the first family name the display name contains, else the display name. */
    function ShortName(): (r: string)
      ensures r in Keywords || r == displayName
    {
      if Text.Contains(displayName, Keywords[0]) then Keywords[0]
      else if Text.Contains(displayName, Keywords[1]) then Keywords[1]
      else if Text.Contains(displayName, Keywords[2]) then Keywords[2]
      else if Text.Contains(displayName, Keywords[3]) then Keywords[3]
      else displayName
    }
  }

  // ---------------------------------------------------------------------------
  // Properties

  /** When the provider has no `/`, the id splits back at its first `/` into provider and model. */
  lemma IdSplits(p: ModelPreset)
    requires '/' !in p.providerID
    ensures Text.Before(p.Id(), '/') == p.providerID
    ensures p.Id()[|Text.Before(p.Id(), '/')| + 1..] == p.modelID
  {
    var id := p.Id();
    Text.BeforeFirst(id, '/', |p.providerID|);
  }

  /** Presets with `/`-free providers and equal ids agree on provider and model. */
  lemma IdInjective(p: ModelPreset, q: ModelPreset)
    requires '/' !in p.providerID && '/' !in q.providerID
    requires p.Id() == q.Id()
    ensures p.providerID == q.providerID && p.modelID == q.modelID
  {
    IdSplits(p);
    IdSplits(q);
  }

  /** The first family name found, in the fixed order, is the short name. */
  lemma FirstKeywordWins(p: ModelPreset, i: nat)
    requires i < |Keywords| && Text.Contains(p.displayName, Keywords[i])
    requires forall j | 0 <= j < i :: !Text.Contains(p.displayName, Keywords[j])
    ensures p.ShortName() == Keywords[i]
  {
    if i > 0 { assert !Text.Contains(p.displayName, Keywords[0]); }
    if i > 1 { assert !Text.Contains(p.displayName, Keywords[1]); }
    if i > 2 { assert !Text.Contains(p.displayName, Keywords[2]); }
  }

  /** A display name with none of the family names is shown unchanged. */
  lemma NoKeywordKeepsName(p: ModelPreset)
    requires forall j | 0 <= j < |Keywords| :: !Text.Contains(p.displayName, Keywords[j])
    ensures p.ShortName() == p.displayName
  {
    assert !Text.Contains(p.displayName, Keywords[0]);
    assert !Text.Contains(p.displayName, Keywords[1]);
    assert !Text.Contains(p.displayName, Keywords[2]);
    assert !Text.Contains(p.displayName, Keywords[3]);
  }

  /** `Opus` is tried before `GPT`, so a name mentioning both is shown as `Opus`. */
  lemma OpusBeforeGpt()
    ensures ModelPreset("GPT vs Opus", "p", "m").ShortName() == "Opus"
  {
    var d := "GPT vs Opus";
    assert d[7..] == "Opus";
    assert Keywords[0] <= d[7..];
    FirstKeywordWins(ModelPreset(d, "p", "m"), 0);
  }
}
