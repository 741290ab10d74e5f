/**
 * Rule presets: the official rule set, the custom template, the bounds validator and the
 * two constructors of rule records (common/rulePresets.js).
 */
module RulePresets {
  import opened Optional

  /** A rules record; every numeric field is a plain JavaScript number, here an integer. */
  datatype Rules = Rules(
    name: string,
    description: string,
    initialMeldPoints: int,
    turnTimerSeconds: int,
    jokerCount: int,
    minSetSize: int,
    maxSetSize: int,
    tilesPerPlayer: int,
    minPlayers: int,
    maxPlayers: int)

  /** OFFICIAL_RULES */
  const OfficialRules: Rules :=
    Rules("Official", "Standard Rummikub rules", 30, 120, 2, 3, 13, 14, 2, 4)

  /** CUSTOM_RULES_TEMPLATE */
  const CustomRulesTemplate: Rules :=
    Rules("Custom", "Customizable rules", 30, 120, 2, 3, 13, 14, 2, 4)

  const MeldPointsError := "Initial meld points must be between 0 and 100"
  const TurnTimerError := "Turn timer must be between 15 and 300 seconds"
  const JokerCountError := "Joker count must be between 0 and 4"
  const TilesPerPlayerError := "Tiles per player must be between 7 and 21"

  /** The four bounds, in the order the validator tests them. */
  predicate MeldPointsInBounds(rules: Rules) { 0 <= rules.initialMeldPoints <= 100 }
  predicate TurnTimerInBounds(rules: Rules) { 15 <= rules.turnTimerSeconds <= 300 }
  predicate JokerCountInBounds(rules: Rules) { 0 <= rules.jokerCount <= 4 }
  predicate TilesPerPlayerInBounds(rules: Rules) { 7 <= rules.tilesPerPlayer <= 21 }

  /** `[msg]` when the check fails, `[]` when it passes. */
  function ErrorIf(ok: bool, msg: string): seq<string> {
    if ok then [] else [msg]
  }

  /** The errors list `validateCustomRules` builds. */
  function RuleErrors(rules: Rules): seq<string> {
    ErrorIf(MeldPointsInBounds(rules), MeldPointsError)
    + ErrorIf(TurnTimerInBounds(rules), TurnTimerError)
    + ErrorIf(JokerCountInBounds(rules), JokerCountError)
    + ErrorIf(TilesPerPlayerInBounds(rules), TilesPerPlayerError)
  }

  datatype RulesCheck = RulesCheck(valid: bool, errors: seq<string>)

  /** validateCustomRules: one test per bounded field, each pushing its message on failure. */
  method ValidateCustomRules(rules: Rules) returns (result: RulesCheck)
    ensures result.errors == RuleErrors(rules)
    ensures result.valid <==> result.errors == []
    ensures result.valid <==>
      MeldPointsInBounds(rules) && TurnTimerInBounds(rules)
      && JokerCountInBounds(rules) && TilesPerPlayerInBounds(rules)
  {
    var errors: seq<string> := [];
    if rules.initialMeldPoints < 0 || rules.initialMeldPoints > 100 {
      errors := errors + [MeldPointsError];
    }
    if rules.turnTimerSeconds < 15 || rules.turnTimerSeconds > 300 {
      errors := errors + [TurnTimerError];
    }
    if rules.jokerCount < 0 || rules.jokerCount > 4 {
      errors := errors + [JokerCountError];
    }
    if rules.tilesPerPlayer < 7 || rules.tilesPerPlayer > 21 {
      errors := errors + [TilesPerPlayerError];
    }
    result := RulesCheck(|errors| == 0, errors);
  }

  /**
   * Each message is reported exactly when its field is out of bounds, there are at most
   * four, and they come in the fixed order meld points, timer, jokers, tiles per player.
   */
  lemma RuleErrorsExact(rules: Rules)
    ensures |RuleErrors(rules)| <= 4
    ensures MeldPointsError in RuleErrors(rules) <==> !MeldPointsInBounds(rules)
    ensures TurnTimerError in RuleErrors(rules) <==> !TurnTimerInBounds(rules)
    ensures JokerCountError in RuleErrors(rules) <==> !JokerCountInBounds(rules)
    ensures TilesPerPlayerError in RuleErrors(rules) <==> !TilesPerPlayerInBounds(rules)
    ensures forall i, j :: 0 <= i < j < |RuleErrors(rules)| ==>
      MessageRank(RuleErrors(rules)[i]) < MessageRank(RuleErrors(rules)[j])
  {
    var e := RuleErrors(rules);
    var a := ErrorIf(MeldPointsInBounds(rules), MeldPointsError);
    var b := ErrorIf(TurnTimerInBounds(rules), TurnTimerError);
    var c := ErrorIf(JokerCountInBounds(rules), JokerCountError);
    var d := ErrorIf(TilesPerPlayerInBounds(rules), TilesPerPlayerError);
    assert e == a + b + c + d;
    assert forall i :: 0 <= i < |e| ==>
      MessageRank(e[i]) == (if i < |a| then 0 else if i < |a| + |b| then 1 else if i < |a| + |b| + |c| then 2 else 3);
  }

  /** Position of a message in the validator's order (4 for any other text). */
  function MessageRank(msg: string): nat {
    if msg == MeldPointsError then 0
    else if msg == TurnTimerError then 1
    else if msg == JokerCountError then 2
    else if msg == TilesPerPlayerError then 3
    else 4
  }

  /** getDefaultRules: a copy of OFFICIAL_RULES, which itself passes validation. */
  function GetDefaultRules(): (r: Rules)
    ensures r == OfficialRules
    ensures RuleErrors(r) == []
  {
    OfficialRules
  }

  /**
   * The object spread `{...overrides}`: a field absent from the overrides is `None`.
   * (An override may also set `name`; it is overwritten afterwards.)
   */
  datatype Overrides = Overrides(
    name: Option<string>,
    description: Option<string>,
    initialMeldPoints: Option<int>,
    turnTimerSeconds: Option<int>,
    jokerCount: Option<int>,
    minSetSize: Option<int>,
    maxSetSize: Option<int>,
    tilesPerPlayer: Option<int>,
    minPlayers: Option<int>,
    maxPlayers: Option<int>)

  const NoOverrides: Overrides :=
    Overrides(None, None, None, None, None, None, None, None, None, None)

  function Override<T>(o: Option<T>, fallback: T): T {
    if o.Some? then o.value else fallback
  }

  /** `{ ...base, ...overrides }` */
  function ApplyOverrides(base: Rules, overrides: Overrides): Rules {
    Rules(
      Override(overrides.name, base.name),
      Override(overrides.description, base.description),
      Override(overrides.initialMeldPoints, base.initialMeldPoints),
      Override(overrides.turnTimerSeconds, base.turnTimerSeconds),
      Override(overrides.jokerCount, base.jokerCount),
      Override(overrides.minSetSize, base.minSetSize),
      Override(overrides.maxSetSize, base.maxSetSize),
      Override(overrides.tilesPerPlayer, base.tilesPerPlayer),
      Override(overrides.minPlayers, base.minPlayers),
      Override(overrides.maxPlayers, base.maxPlayers))
  }

  /** createCustomRules: the template, then the overrides, then `name: 'Custom'`. */
  function CreateCustomRules(overrides: Overrides): (r: Rules)
    ensures r.name == "Custom"
    ensures overrides.description.Some? ==> r.description == overrides.description.value
    ensures overrides.description.None? ==> r.description == CustomRulesTemplate.description
    ensures overrides.initialMeldPoints.Some? ==> r.initialMeldPoints == overrides.initialMeldPoints.value
    ensures overrides.initialMeldPoints.None? ==> r.initialMeldPoints == CustomRulesTemplate.initialMeldPoints
    ensures overrides.turnTimerSeconds.Some? ==> r.turnTimerSeconds == overrides.turnTimerSeconds.value
    ensures overrides.turnTimerSeconds.None? ==> r.turnTimerSeconds == CustomRulesTemplate.turnTimerSeconds
    ensures overrides.jokerCount.Some? ==> r.jokerCount == overrides.jokerCount.value
    ensures overrides.jokerCount.None? ==> r.jokerCount == CustomRulesTemplate.jokerCount
    ensures overrides.minSetSize.Some? ==> r.minSetSize == overrides.minSetSize.value
    ensures overrides.minSetSize.None? ==> r.minSetSize == CustomRulesTemplate.minSetSize
    ensures overrides.maxSetSize.Some? ==> r.maxSetSize == overrides.maxSetSize.value
    ensures overrides.maxSetSize.None? ==> r.maxSetSize == CustomRulesTemplate.maxSetSize
    ensures overrides.tilesPerPlayer.Some? ==> r.tilesPerPlayer == overrides.tilesPerPlayer.value
    ensures overrides.tilesPerPlayer.None? ==> r.tilesPerPlayer == CustomRulesTemplate.tilesPerPlayer
    ensures overrides.minPlayers.Some? ==> r.minPlayers == overrides.minPlayers.value
    ensures overrides.minPlayers.None? ==> r.minPlayers == CustomRulesTemplate.minPlayers
    ensures overrides.maxPlayers.Some? ==> r.maxPlayers == overrides.maxPlayers.value
    ensures overrides.maxPlayers.None? ==> r.maxPlayers == CustomRulesTemplate.maxPlayers
  {
    ApplyOverrides(CustomRulesTemplate, overrides).(name := "Custom")
  }

  /**
   * Overriding with nothing gives the template; a `name` override never survives; any
   * other override is taken over exactly, so overriding a field with the template's own
   * value changes nothing.
   */
  lemma CreateCustomRulesOverrides(overrides: Overrides)
    ensures CreateCustomRules(NoOverrides) == CustomRulesTemplate
    ensures CreateCustomRules(overrides) == CreateCustomRules(overrides.(name := None))
    ensures overrides.jokerCount.Some? ==> CreateCustomRules(overrides).jokerCount == overrides.jokerCount.value
    ensures overrides.tilesPerPlayer.None? ==> CreateCustomRules(overrides).tilesPerPlayer == 14
    ensures RuleErrors(CreateCustomRules(NoOverrides)) == []
  {
  }

  /** Spreading no overrides changes nothing; spreading the same overrides twice is spreading them once. */
  lemma ApplyOverridesLaws(base: Rules, overrides: Overrides)
    ensures ApplyOverrides(base, NoOverrides) == base
    ensures ApplyOverrides(ApplyOverrides(base, overrides), overrides) == ApplyOverrides(base, overrides)
  {
  }
}
