/**
 * `AgentInfo`: an agent reported by the server, its identity, the short
 * name shown in the chat toolbar and whether the selector lists it.
 */
module Agents {
  import opened Wrappers
  import Text

  const Primary := "primary"
  const All := "all"

  datatype AgentInfo = AgentInfo(
    name: string,
    description: Option<string>,
    mode: Option<string>,
    hidden: Option<bool>,
    native: Option<bool>)
  {
    /** `id`: agents are identified by name. */
    function Id(): (r: string)
      ensures r == name
    {
      name
    }

    /**
     * `shortName`: the text before the first `(`, trimmed of whitespace;
     * failing that, the text before the first space; failing that, the name.
     */
    function ShortName(): (r: string)
      ensures '(' !in r
      ensures Text.IsInfix(r, name)
    {
      if '(' in name then
        var head := Text.Before(name, '(');
        var r := Text.Trim(head, Text.IsWhitespace);
        Text.PrefixIsInfix(head, name);
        Text.InfixTransitive(r, head, name);
        Text.InfixExcludes(r, head, '(');
        r
      else if ' ' in name then
        var r := Text.Before(name, ' ');
        Text.PrefixIsInfix(r, name);
        r
      else
        Text.PrefixIsInfix(name, name);
        name
    }

    /** `isVisible`: hidden agents never; otherwise a missing mode, `primary` or `all`. */
    predicate IsVisible()
      ensures IsVisible() ==> hidden != Some(true) && (mode.None? || mode == Some(Primary) || mode == Some(All))
    {
      if hidden == Some(true) then false
      else match mode
        case None => true
        case Some(m) => m == Primary || m == All
    }
  }

  // ---------------------------------------------------------------------------
  // Properties

  /** With a `(`, the short name is the text before the first `(` with surrounding whitespace trimmed. */
  lemma ShortNameBeforeParen(a: AgentInfo, i: nat)
    requires i < |a.name| && a.name[i] == '(' && '(' !in a.name[..i]
    ensures a.ShortName() == Text.Trim(a.name[..i], Text.IsWhitespace)
  {
    Text.BeforeFirst(a.name, '(', i);
  }

  /**
   * The `(` rule wins over the space rule: for `Plan B(beta)` the short name
   * is `Plan B`, space included, not `Plan`.
   */
  lemma ParenBeforeSpace(a: AgentInfo, i: nat)
    requires i < |a.name| && a.name[i] == '(' && '(' !in a.name[..i]
    requires ' ' in a.name[..i]
    requires i > 0 && !Text.IsWhitespace(a.name[0]) && !Text.IsWhitespace(a.name[i - 1])
    ensures a.ShortName() == a.name[..i]
    ensures ' ' in a.ShortName()
  {
    ShortNameBeforeParen(a, i);
    var head := a.name[..i];
    assert head[0] == a.name[0] && head[i - 1] == a.name[i - 1];
  }

  /** Without a `(` but with a space, the short name is the text before the first space, which holds no space. */
  lemma ShortNameBeforeSpace(a: AgentInfo, i: nat)
    requires '(' !in a.name
    requires i < |a.name| && a.name[i] == ' ' && ' ' !in a.name[..i]
    ensures a.ShortName() == a.name[..i]
    ensures ' ' !in a.ShortName() && |a.ShortName()| < |a.name|
  {
    Text.BeforeFirst(a.name, ' ', i);
  }

  /** With neither `(` nor space, the short name is the whole name, which is also the id. */
  lemma ShortNameWhole(a: AgentInfo)
    requires '(' !in a.name && ' ' !in a.name
    ensures a.ShortName() == a.name == a.Id()
  {
  }

  /** An agent that is not hidden is visible exactly when its mode is absent, `primary` or `all`. */
  lemma VisibleByMode(a: AgentInfo)
    requires a.hidden != Some(true)
    ensures a.IsVisible() <==> a.mode.None? || a.mode == Some(Primary) || a.mode == Some(All)
  {
  }

  /** So a `subagent` is never listed. */
  lemma SubagentHidden(a: AgentInfo)
    requires a.mode == Some("subagent")
    ensures !a.IsVisible()
  {
    assert "subagent" != Primary by { assert "subagent"[0] != Primary[0]; }
    assert "subagent" != All by { assert "subagent"[0] != All[0]; }
  }
}
