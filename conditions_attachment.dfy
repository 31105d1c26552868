/** AbstractConditionsAttachment as an object: its chance "x:y" and the adjustment of the
    chance after a roll, the lookup of child conditions by name among the players' rule
    attachments, and the setters and resetters its property map exposes. */
module ConditionsAttachments {
  import opened Results
  import opened Text
  import opened GameValues
  import opened Attachments
  import opened PropertyChanges
  import opened Conditions

  /** Neither side of a chance may exceed 120. */
  const MAX_CHANCE := 120

  // ---------------------------------------------------------------- chance

  /** The chance texts setChance stores: integers x and y before the first and second colon
      with 0 <= x <= y <= 120; text after a second colon is not looked at. */
  predicate ChanceAccepted(chance: string) {
    var s := SplitOnColon(chance);
    |s| >= 2 && ParsesAsInt(s[0]) && ParsesAsInt(s[1]) && 0 <= IntValue(s[0]) <= IntValue(s[1]) <= MAX_CHANCE
  }

  /** setChance's check, in the code's order: a bad first number is an invalid declaration;
      a missing second number escapes as an index error (it is not an IllegalArgumentException
      and so is not caught); a bad second number is an invalid declaration; numbers out of
      order or out of 0..120 are rejected as out of range. */
  function CheckChance(chance: string): (r: Outcome)
    ensures r.Pass? <==> ChanceAccepted(chance)
    ensures r == Fail(ChanceIndexOutOfBounds(chance)) <==> ParsesAsInt(SplitOnColon(chance)[0]) && ':' !in chance
    ensures r == Fail(InvalidChanceDeclaration(chance)) <==>
              var s := SplitOnColon(chance);
              !ParsesAsInt(s[0]) || (|s| >= 2 && !ParsesAsInt(s[1]))
    ensures r.Fail? ==> r.error in {InvalidChanceDeclaration(chance), ChanceIndexOutOfBounds(chance), ChanceOutOfRange(chance)}
  {
    var s := SplitOnColon(chance);
    OccurrencesZero(chance, ':');
    match GetInt(s[0])
    case Err(_) => Fail(InvalidChanceDeclaration(chance))
    case Ok(i) =>
      if |s| < 2 then Fail(ChanceIndexOutOfBounds(chance))
      else
        match GetInt(s[1])
        case Err(_) => Fail(InvalidChanceDeclaration(chance))
        case Ok(j) =>
          if i > j || i < 0 || i > MAX_CHANCE || j > MAX_CHANCE then Fail(ChanceOutOfRange(chance)) else Pass
  }

  /** getChanceToHit: the number before the first colon. */
  function ChanceToHit(chance: string): (r: Result<int>)
    ensures ChanceAccepted(chance) ==> r.Ok? && 0 <= r.value <= MAX_CHANCE
    ensures r.Err? ==> r.error == NotAnInt(SplitOnColon(chance)[0])
    ensures ':' !in chance ==> r == GetInt(chance)
  {
    assert ':' !in chance ==> SplitOnColon(chance)[0] == chance by {
      if ':' !in chance { SplitWithoutSeparator(chance, ':'); }
    }
    GetInt(SplitOnColon(chance)[0])
  }

  /** getChanceDiceSides: the number after the first colon; text without a colon has none. */
  function ChanceDiceSides(chance: string): (r: Result<int>)
    ensures ChanceAccepted(chance) ==> r.Ok? && ChanceToHit(chance).value <= r.value <= MAX_CHANCE
    ensures r == Err(ChanceIndexOutOfBounds(chance)) <==> ':' !in chance
    ensures r.Err? && ':' in chance ==> r.error == NotAnInt(SplitOnColon(chance)[1])
  {
    var s := SplitOnColon(chance);
    OccurrencesZero(chance, ':');
    if |s| < 2 then Err(ChanceIndexOutOfBounds(chance)) else GetInt(s[1])
  }

  /** The text newToHit + ":" + diceSides. */
  function ChanceText(toHit: int, sides: int): string {
    IntToString(toHit) + ":" + IntToString(sides)
  }

  /** A chance written as x:y is split back into x and y, and is accepted exactly when
      0 <= x <= y <= 120. */
  lemma ChanceTextRoundTrip(toHit: Int32, sides: Int32)
    ensures SplitOnColon(ChanceText(toHit, sides)) == [IntToString(toHit), IntToString(sides)]
    ensures ChanceToHit(ChanceText(toHit, sides)) == Ok(toHit)
    ensures ChanceDiceSides(ChanceText(toHit, sides)) == Ok(sides)
    ensures ChanceAccepted(ChanceText(toHit, sides)) <==> 0 <= toHit <= sides <= MAX_CHANCE
    ensures CheckChance(ChanceText(toHit, sides)) ==
              if 0 <= toHit <= sides <= MAX_CHANCE then Pass else Fail(ChanceOutOfRange(ChanceText(toHit, sides)))
  {
    var a, b := IntToString(toHit), IntToString(sides);
    IntToStringAvoids(toHit, ':');
    IntToStringAvoids(sides, ':');
    SplitPair(a, b, ':');
    assert ChanceText(toHit, sides) == a + [':'] + b;
    IntToStringValue(toHit);
    IntToStringValue(sides);
  }

  /** The default chance "1:1" is accepted and always hits. */
  lemma DefaultChanceAccepted()
    ensures ChanceText(1, 1) == DEFAULT_CHANCE
    ensures CheckChance(DEFAULT_CHANCE) == Pass
    ensures ChanceToHit(DEFAULT_CHANCE) == Ok(1) && ChanceDiceSides(DEFAULT_CHANCE) == Ok(1)
  {
    assert IntToString(1) == "1";
    ChanceTextRoundTrip(1, 1);
  }

  /** Whatever follows a second colon has no effect on acceptance or on the numbers read. */
  lemma ChanceIgnoresTrailingText(x: string, y: string, rest: string)
    requires ':' !in x && ':' !in y
    ensures CheckChance(x + ":" + y + ":" + rest).Pass? == CheckChance(x + ":" + y).Pass?
    ensures ChanceToHit(x + ":" + y + ":" + rest) == ChanceToHit(x + ":" + y)
    ensures ChanceDiceSides(x + ":" + y + ":" + rest) == ChanceDiceSides(x + ":" + y)
  {
    var long := x + ":" + y + ":" + rest;
    assert long == x + [':'] + (y + [':'] + rest);
    SplitAfterPrefix(x, y + [':'] + rest, ':');
    SplitAfterPrefix(y, rest, ':');
    assert x + ":" + y == x + [':'] + y;
    SplitPair(x, y, ':');
    assert SplitOnColon(long)[0] == x && SplitOnColon(long)[1] == y;
    assert SplitOnColon(x + ":" + y) == [x, y];
    assert |SplitOnColon(long)| >= 2;
    assert ':' in long by { assert long[|x|] == ':'; }
    assert ':' in x + ":" + y by { assert (x + ":" + y)[|x|] == ':'; }
  }

  /** The new to-hit number after a roll, in unbounded arithmetic: the old number moved by the
      delta (down on success, up on failure) and held within 0..diceSides. */
  function AdjustedToHit(oldToHit: int, diceSides: int, delta: int, success: bool): (r: int)
    requires 0 <= diceSides
    ensures 0 <= r <= diceSides
    ensures var moved := if success then oldToHit - delta else oldToHit + delta;
            (0 <= moved <= diceSides ==> r == moved) && (moved < 0 ==> r == 0) && (moved > diceSides ==> r == diceSides)
  {
    var moved := if success then oldToHit - delta else oldToHit + delta;
    if moved < 0 then 0 else if moved > diceSides then diceSides else moved
  }

  /** A non-negative decrement never raises a valid to-hit number, and a non-negative
      increment never lowers it. */
  lemma AdjustedToHitMonotone(oldToHit: int, diceSides: int, delta: int, success: bool)
    requires 0 <= oldToHit <= diceSides && 0 <= delta
    ensures success ==> AdjustedToHit(oldToHit, diceSides, delta, success) <= oldToHit
    ensures !success ==> AdjustedToHit(oldToHit, diceSides, delta, success) >= oldToHit
  {
  }

  /** The adjustment as the code computes it: the sum or difference is a Java int and wraps
      before it is clamped. */
  function AdjustedToHitAsWritten(oldToHit: Int32, diceSides: Int32, delta: Int32, success: bool): (r: Int32)
    requires 0 <= diceSides
    ensures 0 <= r <= diceSides
    ensures var moved := if success then oldToHit - delta else oldToHit + delta;
            -0x8000_0000 <= moved < 0x8000_0000 ==> r == AdjustedToHit(oldToHit, diceSides, delta, success)
  {
    var moved := ToInt32(if success then oldToHit - delta else oldToHit + delta);
    if moved < 0 then 0 else if moved > diceSides then diceSides else moved
  }

  /** A failure with an increment of Integer.MAX_VALUE on a 5:10 chance wraps the sum negative
      and drops the to-hit number to 0, where the clamp evidently means to raise it to 10. */
  lemma AdjustedToHitAsWrittenWraps()
    ensures AdjustedToHitAsWritten(5, 10, 0x7FFF_FFFF, false) == 0
    ensures AdjustedToHit(5, 10, 0x7FFF_FFFF, false) == 10
  {
  }

  /** What changeChanceDecrementOrIncrementOnSuccessOrFailure sends to the delegate bridge:
      a history event (a new one, or a child of the current one), and the chance change. */
  datatype BridgeEffect = StartEvent | AddChildToEvent | AddChange(change: Change)

  // ---------------------------------------------------------------- rule lookup

  /** The first player holding an attachment of the given name. */
  function FirstHolder(players: seq<map<string, AttachmentRecord>>, name: string): (r: Option<nat>)
    ensures r.Some? ==> r.value < |players| && name in players[r.value]
                        && forall q :: 0 <= q < r.value ==> name !in players[q]
    ensures r.None? <==> forall q :: 0 <= q < |players| ==> name !in players[q]
    decreases |players|
  {
    if |players| == 0 then None
    else if name in players[0] then Some(0)
    else
      match FirstHolder(players[1..], name)
      case None => None
      case Some(i) => Some(i + 1)
  }

  /** A child condition named in setConditions: the attachment of that name on the first
      player that has one, which must be a rules attachment (of that class or one extending
      it); no holder at all is an error. */
  function FindRule(players: seq<map<string, AttachmentRecord>>, name: string): (r: Result<Id>)
    ensures r.Err? ==> r.error in {RuleNotFound(name), WrongAttachmentType(name, RULES_ATTACHMENT)}
  {
    match FirstHolder(players, name)
    case None => Err(RuleNotFound(name))
    case Some(p) =>
      var a := players[p][name];
      if RULES_ATTACHMENT in a.classes then Ok(a.id) else Err(WrongAttachmentType(name, RULES_ATTACHMENT))
  }

  /** The rule found is the attachment of the first player holding the name, when that one is
      a rules attachment; the rule is not found exactly when no player holds the name. */
  lemma FindRuleUsesFirstHolder(players: seq<map<string, AttachmentRecord>>, name: string)
    ensures FindRule(players, name) == Err(RuleNotFound(name)) <==>
              forall q :: 0 <= q < |players| ==> name !in players[q]
    ensures forall p :: 0 <= p < |players| && name in players[p] && (forall q :: 0 <= q < p ==> name !in players[q]) ==>
              FindRule(players, name) ==
                if RULES_ATTACHMENT in players[p][name].classes then Ok(players[p][name].id)
                else Err(WrongAttachmentType(name, RULES_ATTACHMENT))
  {
    var h := FirstHolder(players, name);
    forall p | 0 <= p < |players| && name in players[p] && (forall q :: 0 <= q < p ==> name !in players[q])
      ensures h == Some(p)
    {
    }
  }

  /** The number of leading names that resolve to rules: setConditions stops at the first
      one that does not. */
  function ResolvedCount(players: seq<map<string, AttachmentRecord>>, names: seq<string>): (k: nat)
    ensures k <= |names|
    ensures forall i :: 0 <= i < k ==> FindRule(players, names[i]).Ok?
    ensures k < |names| ==> FindRule(players, names[k]).Err?
  {
    ResolvedFrom(players, names, 0)
  }

  /** The index of the first name from j on that does not resolve, or the end. */
  function ResolvedFrom(players: seq<map<string, AttachmentRecord>>, names: seq<string>, j: nat): (k: nat)
    requires j <= |names|
    ensures j <= k <= |names|
    ensures forall i :: j <= i < k ==> FindRule(players, names[i]).Ok?
    ensures k < |names| ==> FindRule(players, names[k]).Err?
    decreases |names| - j
  {
    if j == |names| || FindRule(players, names[j]).Err? then j else ResolvedFrom(players, names, j + 1)
  }

  /** The rules the first k names resolve to, in order. */
  function Resolved(players: seq<map<string, AttachmentRecord>>, names: seq<string>, k: nat): (ids: seq<Id>)
    requires k <= ResolvedCount(players, names)
    ensures |ids| == k && forall i :: 0 <= i < k ==> ids[i] == FindRule(players, names[i]).value
  {
    if k == 0 then [] else Resolved(players, names, k - 1) + [FindRule(players, names[k - 1]).value]
  }

  // ---------------------------------------------------------------- the attachment

  class ConditionsAttachment {
    const id: Id
    var conditions: seq<Id>
    var conditionType: string
    var invert: bool
    var chance: string
    var chanceIncrementOnFailure: Int32
    var chanceDecrementOnSuccess: Int32

    /** What the setters guarantee of the stored texts. */
    ghost predicate Valid()
      reads this
    {
      AcceptedConditionType(conditionType) && ChanceAccepted(chance)
    }

    /** The condition as the evaluator sees it: a valid attachment gives a node whose type
        setConditionType accepts again as it is, and whose chance setChance accepts. */
    function Node(): (n: Condition)
      reads this
      ensures Valid() ==> ParseConditionType(n.conditionType) == Ok(n.conditionType)
                          && CheckChance(n.chance) == Pass
    {
      var n := Condition(conditions, conditionType, invert, chance, chanceIncrementOnFailure, chanceDecrementOnSuccess);
      assert Valid() ==> ParseConditionType(n.conditionType) == Ok(n.conditionType) by {
        if Valid() { AcceptedIsUpperCase(conditionType); }
      }
      n
    }

    /** isSatisfied on the attachment object: a null memo is an error, a stored entry is the
        answer, and otherwise areConditionsMet over the attachment's conditions, negated by
        invert. It answers as the evaluator does for any graph in which this attachment's id
        is its node. */
    method IsSatisfied(testedConditions: Option<map<Id, bool>>) returns (r: Result<bool>)
      requires testedConditions.Some? && id !in testedConditions.value ==>
        Evaluable(conditionType) && forall c :: c in conditions ==> c in testedConditions.value
      ensures forall g: Graph {:trigger g[id]} :: id in g && g[id] == Node() ==>
                r == Conditions.IsSatisfied(g, id, testedConditions)
      ensures testedConditions.Some? && id !in testedConditions.value ==>
                r == Ok(ConditionsMet(conditions, testedConditions.value, conditionType) != invert)
    {
      if testedConditions.None? {
        return Err(NullTestedConditions);
      }
      var memo := testedConditions.value;
      if id in memo {
        return Ok(memo[id]);
      }
      var met := AreConditionsMet(conditions, memo, conditionType);
      r := Ok(met != invert);
    }

    constructor (id: Id)
      ensures this.id == id && conditions == [] && conditionType == AND && !invert
      ensures chance == DEFAULT_CHANCE && chanceIncrementOnFailure == 0 && chanceDecrementOnSuccess == 0
      ensures Valid()
    {
      this.id := id;
      conditions := [];
      conditionType := AND;
      invert := false;
      chance := DEFAULT_CHANCE;
      chanceIncrementOnFailure := 0;
      chanceDecrementOnSuccess := 0;
      new;
      DefaultChanceAccepted();
      SinglePieceUnlessRange(AND);
    }

    /** setConditions(String): each colon-separated name is looked up and appended in turn;
        an unknown name stops the loop with the rules before it already appended. */
    method SetConditions(players: seq<map<string, AttachmentRecord>>, text: string) returns (r: Outcome)
      requires Valid()
      modifies this
      ensures Valid()
      ensures var names := SplitOnColon(text);
              var k := ResolvedCount(players, names);
              conditions == old(conditions) + Resolved(players, names, k)
              && r == if k == |names| then Pass else Fail(FindRule(players, names[k]).error)
      ensures conditionType == old(conditionType) && invert == old(invert) && chance == old(chance)
      ensures chanceIncrementOnFailure == old(chanceIncrementOnFailure)
      ensures chanceDecrementOnSuccess == old(chanceDecrementOnSuccess)
    {
      var names := SplitOnColon(text);
      ghost var k := ResolvedCount(players, names);
      var i := 0;
      while i < |names|
        invariant 0 <= i <= k
        invariant conditions == old(conditions) + Resolved(players, names, i)
        invariant conditionType == old(conditionType) && invert == old(invert) && chance == old(chance)
        invariant chanceIncrementOnFailure == old(chanceIncrementOnFailure)
        invariant chanceDecrementOnSuccess == old(chanceDecrementOnSuccess)
      {
        var found := FindRule(players, names[i]);
        if found.Err? {
          r := Fail(found.error);
          return;
        }
        assert i < k;
        conditions := conditions + [found.value];
        i := i + 1;
      }
      r := Pass;
    }

    /** setConditions(List): the list replaces the current one. */
    method SetConditionsList(value: seq<Id>)
      requires Valid()
      modifies this
      ensures Valid()
      ensures conditions == value
      ensures conditionType == old(conditionType) && invert == old(invert) && chance == old(chance)
      ensures chanceIncrementOnFailure == old(chanceIncrementOnFailure)
      ensures chanceDecrementOnSuccess == old(chanceDecrementOnSuccess)
    {
      conditions := value;
    }

    method ResetConditions()
      requires Valid()
      modifies this
      ensures Valid()
      ensures conditions == []
      ensures conditionType == old(conditionType) && invert == old(invert) && chance == old(chance)
      ensures chanceIncrementOnFailure == old(chanceIncrementOnFailure)
      ensures chanceDecrementOnSuccess == old(chanceDecrementOnSuccess)
    {
      conditions := [];
    }

    method SetInvert(value: bool)
      requires Valid()
      modifies this
      ensures Valid()
      ensures invert == value
      ensures conditions == old(conditions) && conditionType == old(conditionType) && chance == old(chance)
      ensures chanceIncrementOnFailure == old(chanceIncrementOnFailure)
      ensures chanceDecrementOnSuccess == old(chanceDecrementOnSuccess)
    {
      invert := value;
    }

    /** setConditionType: the upper-cased text is stored when it is accepted; otherwise the
        error, with the stored type kept. */
    method SetConditionType(value: string) returns (r: Outcome)
      requires Valid()
      modifies this
      ensures Valid()
      ensures match ParseConditionType(value)
              case Ok(u) => r == Pass && conditionType == u
              case Err(e) => r == Fail(e) && conditionType == old(conditionType)
      ensures conditions == old(conditions) && invert == old(invert) && chance == old(chance)
      ensures chanceIncrementOnFailure == old(chanceIncrementOnFailure)
      ensures chanceDecrementOnSuccess == old(chanceDecrementOnSuccess)
    {
      var parsed := ParseConditionType(value);
      match parsed
      case Ok(u) =>
        conditionType := u;
        r := Pass;
      case Err(e) =>
        r := Fail(e);
    }

    method ResetConditionType()
      requires Valid()
      modifies this
      ensures Valid()
      ensures conditionType == AND
      ensures conditions == old(conditions) && invert == old(invert) && chance == old(chance)
      ensures chanceIncrementOnFailure == old(chanceIncrementOnFailure)
      ensures chanceDecrementOnSuccess == old(chanceDecrementOnSuccess)
    {
      conditionType := AND;
      SinglePieceUnlessRange(AND);
    }

    /** setChance: the text is stored as given when it is accepted; otherwise the error, with
        the stored chance kept. */
    method SetChance(value: string) returns (r: Outcome)
      requires Valid()
      modifies this
      ensures Valid()
      ensures r == CheckChance(value)
      ensures chance == if r.Pass? then value else old(chance)
      ensures conditions == old(conditions) && conditionType == old(conditionType) && invert == old(invert)
      ensures chanceIncrementOnFailure == old(chanceIncrementOnFailure)
      ensures chanceDecrementOnSuccess == old(chanceDecrementOnSuccess)
    {
      r := CheckChance(value);
      if r.Pass? {
        chance := value;
      }
    }

    method ResetChance()
      requires Valid()
      modifies this
      ensures Valid()
      ensures chance == DEFAULT_CHANCE
      ensures conditions == old(conditions) && conditionType == old(conditionType) && invert == old(invert)
      ensures chanceIncrementOnFailure == old(chanceIncrementOnFailure)
      ensures chanceDecrementOnSuccess == old(chanceDecrementOnSuccess)
    {
      chance := DEFAULT_CHANCE;
      DefaultChanceAccepted();
    }

    method SetChanceIncrementOnFailure(value: Int32)
      requires Valid()
      modifies this
      ensures Valid()
      ensures chanceIncrementOnFailure == value
      ensures conditions == old(conditions) && conditionType == old(conditionType) && invert == old(invert)
      ensures chance == old(chance) && chanceDecrementOnSuccess == old(chanceDecrementOnSuccess)
    {
      chanceIncrementOnFailure := value;
    }

    method SetChanceDecrementOnSuccess(value: Int32)
      requires Valid()
      modifies this
      ensures Valid()
      ensures chanceDecrementOnSuccess == value
      ensures conditions == old(conditions) && conditionType == old(conditionType) && invert == old(invert)
      ensures chance == old(chance) && chanceIncrementOnFailure == old(chanceIncrementOnFailure)
    {
      chanceDecrementOnSuccess := value;
    }

    /** After a roll: with a zero delta, or a delta the clamp cancels, nothing is sent;
        otherwise a history event (a child event only after a failure with historyChild) and
        a change of the chance property to newToHit:diceSides. The new to-hit number is the
        code's: the sum or difference wraps as a Java int before the clamp. */
    method ChangeChanceDecrementOrIncrementOnSuccessOrFailure(success: bool, historyChild: bool)
      returns (effects: seq<BridgeEffect>)
      requires Valid()
      ensures var delta := if success then chanceDecrementOnSuccess else chanceIncrementOnFailure;
              var toHit := ChanceToHit(chance).value;
              var sides := ChanceDiceSides(chance).value;
              var newToHit := AdjustedToHitAsWritten(toHit, sides, delta, success);
              effects == if delta == 0 || newToHit == toHit then []
                         else [if !success && historyChild then AddChildToEvent else StartEvent,
                               AddChange(AttachmentProperty(id, CHANCE, Str(ChanceText(newToHit, sides))))]
      ensures effects != [] ==>
                effects[1].AddChange? && effects[1].change.AttachmentProperty?
                && effects[1].change.newValue.Str?
                && var text := effects[1].change.newValue.s;
                   CheckChance(text) == Pass && ChanceDiceSides(text) == ChanceDiceSides(chance)
                   && ChanceToHit(text) != ChanceToHit(chance)
    {
      var delta := if success then chanceDecrementOnSuccess else chanceIncrementOnFailure;
      if delta == 0 {
        return [];
      }
      var toHit := ChanceToHit(chance).value;
      var sides := ChanceDiceSides(chance).value;
      var newToHit := AdjustedToHitAsWritten(toHit, sides, delta, success);
      if newToHit == toHit {
        return [];
      }
      var text := ChanceText(newToHit, sides);
      ChanceTextRoundTrip(newToHit, sides);
      var event := if !success && historyChild then AddChildToEvent else StartEvent;
      effects := [event, AddChange(AttachmentProperty(id, CHANCE, Str(text)))];
    }

    /** A property set from map text through getPropertyMap: each name goes to its setter,
        invert through getBool and the two chance deltas through getInt; an unknown name is
        an error and changes nothing. */
    method SetProperty(players: seq<map<string, AttachmentRecord>>, property: string, value: string)
      returns (r: Outcome)
      requires Valid()
      modifies this
      ensures Valid()
      ensures property !in PropertyNames ==> r == Fail(NoSuchProperty(property)) && Node() == old(Node())
      ensures property == "conditions" ==>
                var names := SplitOnColon(value);
                var k := ResolvedCount(players, names);
                conditions == old(conditions) + Resolved(players, names, k)
                && r == (if k == |names| then Pass else Fail(FindRule(players, names[k]).error))
      ensures property == "conditionType" ==>
                match ParseConditionType(value)
                case Ok(u) => r == Pass && conditionType == u
                case Err(e) => r == Fail(e) && conditionType == old(conditionType)
      ensures property == "invert" ==>
                match GetBool(value)
                case Ok(b) => r == Pass && invert == b
                case Err(e) => r == Fail(e) && invert == old(invert)
      ensures property == CHANCE ==>
                r == CheckChance(value) && chance == if r.Pass? then value else old(chance)
      ensures property == "chanceIncrementOnFailure" ==>
                match GetInt(value)
                case Ok(n) => r == Pass && chanceIncrementOnFailure == n
                case Err(e) => r == Fail(e) && chanceIncrementOnFailure == old(chanceIncrementOnFailure)
      ensures property == "chanceDecrementOnSuccess" ==>
                match GetInt(value)
                case Ok(n) => r == Pass && chanceDecrementOnSuccess == n
                case Err(e) => r == Fail(e) && chanceDecrementOnSuccess == old(chanceDecrementOnSuccess)
      ensures property != "conditions" ==> conditions == old(conditions)
      ensures property != "conditionType" ==> conditionType == old(conditionType)
      ensures property != "invert" ==> invert == old(invert)
      ensures property != CHANCE ==> chance == old(chance)
      ensures property != "chanceIncrementOnFailure" ==> chanceIncrementOnFailure == old(chanceIncrementOnFailure)
      ensures property != "chanceDecrementOnSuccess" ==> chanceDecrementOnSuccess == old(chanceDecrementOnSuccess)
    {
      if property == "conditions" {
        r := SetConditions(players, value);
      } else if property == "conditionType" {
        r := SetConditionType(value);
      } else if property == "invert" {
        var b := GetBool(value);
        if b.Ok? {
          SetInvert(b.value);
          r := Pass;
        } else {
          r := Fail(b.error);
        }
      } else if property == CHANCE {
        r := SetChance(value);
      } else if property == "chanceIncrementOnFailure" || property == "chanceDecrementOnSuccess" {
        var n := GetInt(value);
        if n.Err? {
          r := Fail(n.error);
        } else if property == "chanceIncrementOnFailure" {
          SetChanceIncrementOnFailure(n.value);
          r := Pass;
        } else {
          SetChanceDecrementOnSuccess(n.value);
          r := Pass;
        }
      } else {
        r := Fail(NoSuchProperty(property));
      }
    }

    /** A property reset through getPropertyMap: back to its default (no conditions, AND,
        not inverted, 1:1, no deltas); an unknown name is an error and changes nothing. */
    method ResetProperty(property: string) returns (r: Outcome)
      requires Valid()
      modifies this
      ensures Valid()
      ensures r == if property in PropertyNames then Pass else Fail(NoSuchProperty(property))
      ensures conditions == if property == "conditions" then [] else old(conditions)
      ensures conditionType == if property == "conditionType" then AND else old(conditionType)
      ensures invert == if property == "invert" then false else old(invert)
      ensures chance == if property == CHANCE then DEFAULT_CHANCE else old(chance)
      ensures chanceIncrementOnFailure == if property == "chanceIncrementOnFailure" then 0 else old(chanceIncrementOnFailure)
      ensures chanceDecrementOnSuccess == if property == "chanceDecrementOnSuccess" then 0 else old(chanceDecrementOnSuccess)
    {
      r := Pass;
      if property == "conditions" {
        ResetConditions();
      } else if property == "conditionType" {
        ResetConditionType();
      } else if property == "invert" {
        SetInvert(false);
      } else if property == CHANCE {
        ResetChance();
      } else if property == "chanceIncrementOnFailure" {
        SetChanceIncrementOnFailure(0);
      } else if property == "chanceDecrementOnSuccess" {
        SetChanceDecrementOnSuccess(0);
      } else {
        r := Fail(NoSuchProperty(property));
      }
    }
  }

  /** The names getPropertyMap registers. */
  const PropertyNames: set<string> :=
    {"conditions", "conditionType", "invert", CHANCE, "chanceIncrementOnFailure", "chanceDecrementOnSuccess"}

  /** A chance sent by the adjustment after a roll is one setChance accepts, so the engine
      performing the change keeps the attachment valid. */
  lemma AdjustedChanceAccepted(chance: string, delta: Int32, success: bool)
    requires ChanceAccepted(chance)
    ensures var sides := ChanceDiceSides(chance).value;
            var newToHit := AdjustedToHitAsWritten(ChanceToHit(chance).value, sides, delta, success);
            CheckChance(ChanceText(newToHit, sides)) == Pass
            && ChanceToHit(ChanceText(newToHit, sides)) == Ok(newToHit)
  {
    var sides := ChanceDiceSides(chance).value;
    var newToHit := AdjustedToHitAsWritten(ChanceToHit(chance).value, sides, delta, success);
    ChanceTextRoundTrip(newToHit, sides);
  }
}
