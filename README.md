# Conditions, attachments, property changes and original owners

A Dafny model of four pieces of TripleA's game-rules machinery.

- **Conditions** (`AbstractConditionsAttachment`). A condition names child conditions. It has a
  combinator (`AND`, `OR`, `XOR`, an exact count `n`, or a range `n-m`), an invert flag, and a
  chance `x:y` with an increment on failure and a decrement on success.
  - The evaluator collects every condition reachable through child references.
  - It fills a memo from each condition to its truth value, children before parents.
  - It folds the memo's child values by the combinator.
  - The validators check the combinator and chance texts when rules are loaded.
  - After a roll, the chance adjustment emits a change of the `chance` property.
  - The attachment object is a class with its setters, resetters and property map.
- **Attachment helpers** (`DefaultAttachment`). These are `getInt`, `getBool`,
  `splitOnColon`, the lookup of a named attachment, the raw property string, and
  `equals`/`hashCode` over the attached-to object and the name.
- **Property changes** (`ObjectPropertyChange`). A change captures the old value when it is
  made. Its inverse swaps old and new, and perform sets exactly one property.
- **Original owners** (`OriginalOwnerTracker`). These are the changes that record a territory's
  or a unit's original owner, and the query for the territories a player originally owned.

Modules, one concept each:

| file | module | covers |
|---|---|---|
| `results.dfy` | `Results` | `Option`, `Result`, `Outcome`; one `Error` constructor per exception |
| `text.dfy` | `Text` | decimal digits, `Integer.parseInt`/`toString`, Guava's `Splitter`, ASCII case |
| `game_values.dfy` | `GameValues` | identities, players, property values, Java int wrap-around |
| `attachments.dfy` | `Attachments` | `DefaultAttachment` |
| `property_changes.dfy` | `PropertyChanges` | `ObjectPropertyChange`, and the kinds of change built here |
| `conditions.dfy` | `Conditions` | the condition graph, the validators and the evaluator |
| `conditions_attachment.dfy` | `ConditionsAttachments` | the chance, the rule lookup, and the attachment class |
| `original_owners.dfy` | `OriginalOwners` | `OriginalOwnerTracker` |

Modelling decisions:

- **Exceptions.** Each one the code throws becomes an `Err`/`Fail` value naming it.
- **The condition graph.** It is a `map<Id, Condition>`. The memo is a `map<Id, bool>`.
- **Sets and maps updated in place.** `getAllConditionsRecursive` and
  `testAllConditionsRecursive` add to a `HashSet`/`HashMap` while they recurse. The methods are
  written as the same loops, and each nested call passes in the set or map and gets it back.
- **Termination of `testAllConditionsRecursive`.** The recursion never enters a condition that
  is already in the memo. It stops when no cycle of child references avoids the initial memo, so a
  cycle through a memo entry is harmless. The methods take a ghost ranking of the conditions
  outside the memo only: each child of a ranked condition is in the memo or ranked lower.
  `RankedHasNoCycle` shows that such a ranking leaves no cycle outside the memo, and
  `CycleThroughMemoRanked` ranks a cycle that passes through the memo.
- **Result of the collection and the memo.** Both are proved against reachability in the graph.
  The memo is also proved against a reference semantics, `EvalNode`.
- **The delegate bridge.** The history writer and the bridge become the returned sequence
  of `BridgeEffect`s.

## Model

| member | source | states |
|---|---|---|
| Attachments.GetInt | game-core/src/main/java/games/strategy/engine/data/DefaultAttachment.java:70-76 | succeeds exactly on integer text (an optional sign and one or more ASCII digits) whose value fits in an int; the value is the sign times the digits' decimal value; anything else, text beyond the int range included, is `NotAnInt` naming the value |
| Attachments.GetIntRoundTrip | game-core/src/main/java/games/strategy/engine/data/DefaultAttachment.java:70-76 | every int parses back from the text Java renders it as |
| Attachments.GetBool | game-core/src/main/java/games/strategy/engine/data/DefaultAttachment.java:81-88 | true exactly for "true" ignoring case, false exactly for "false" ignoring case, `NotABoolean` naming the value for everything else |
| Attachments.GetBoolRoundTrip | game-core/src/main/java/games/strategy/engine/data/DefaultAttachment.java:81-88 | a boolean parses back from its rendering, also in capitals |
| Attachments.SplitOnColon | game-core/src/main/java/games/strategy/engine/data/DefaultAttachment.java:90-94 | one piece more than there are colons, empty pieces kept, no piece holds a colon, and joining with ':' gives back the input |
| Attachments.GetAttachment | game-core/src/main/java/games/strategy/engine/data/DefaultAttachment.java:54-65 | the named attachment when it is present and its class is the requested type or extends it; a missing one is an error naming the attachment, the type and the object; one of any other class is a cast error |
| Attachments.GetRawPropertyString | game-core/src/main/java/games/strategy/engine/data/DefaultAttachment.java:103-108 | null exactly when the property is absent or holds null, otherwise the value's string form |
| Attachments.RawPropertyStringRoundTrip | game-core/src/main/java/games/strategy/engine/data/DefaultAttachment.java:103-108 | the raw string of an int property parses back to the int, and that of a boolean to the boolean |
| Attachments.EqualsAsWritten | game-core/src/main/java/games/strategy/engine/data/DefaultAttachment.java:146-163 | true exactly for the same class, attached-to texts that match (or both null) and the same name text; it dereferences null exactly when this side is attached to something and the other to null |
| Attachments.ToStringCancels | game-core/src/main/java/games/strategy/engine/data/DefaultAttachment.java:136-139 | once class and attached-to text agree, the toString texts agree exactly when the name texts do |
| Attachments.HashCodeDependsOnlyOnAttachedToAndName | game-core/src/main/java/games/strategy/engine/data/DefaultAttachment.java:141-144 | the hash code depends only on the attached-to object and the name |
| Attachments.EqualsAsWrittenThrowsOnNullAttachedTo | game-core/src/main/java/games/strategy/engine/data/DefaultAttachment.java:155-159 | with the same class, one attached to an object and the other to null: one direction throws, the other answers false |
| Attachments.EqualsAsWrittenBreaksHashCode | game-core/src/main/java/games/strategy/engine/data/DefaultAttachment.java:141-162 | a null name and the name "null" compare equal, yet their hash codes differ |
| Attachments.Equals | game-core/src/main/java/games/strategy/engine/data/DefaultAttachment.java:146-163 | equal attachments have the same class |
| Attachments.EqualsIsEquivalence | game-core/src/main/java/games/strategy/engine/data/DefaultAttachment.java:146-163 | the corrected equals is reflexive, symmetric and transitive |
| Attachments.EqualsAgreesWithAsWritten | game-core/src/main/java/games/strategy/engine/data/DefaultAttachment.java:146-163 | wherever the code answers and both names are null or both non-null, the corrected equals gives the code's answer |
| Attachments.EqualsImpliesSameHashCode | game-core/src/main/java/games/strategy/engine/data/DefaultAttachment.java:141-163 | with the corrected equals, equal attachments have equal hash codes |
| Attachments.DefaultAttachment.constructor | game-core/src/main/java/games/strategy/engine/data/DefaultAttachment.java:36-40 | the name and attached-to object are those given |
| Attachments.DefaultAttachment.SetName | game-core/src/main/java/games/strategy/engine/data/DefaultAttachment.java:126-130 | sets the name and leaves the attached-to object |
| Attachments.DefaultAttachment.SetAttachedTo | game-core/src/main/java/games/strategy/engine/data/DefaultAttachment.java:115-119 | sets the attached-to object and leaves the name |
| PropertyChanges.Create | game-core/src/main/java/games/strategy/engine/data/changefactory/ObjectPropertyChange.java:21-26 | the new value is the argument and the old value is the property's value at construction; a unit without the property is an error |
| PropertyChanges.Invert | game-core/src/main/java/games/strategy/engine/data/changefactory/ObjectPropertyChange.java:42-45 | same unit and property, with old and new swapped, without reading live state |
| PropertyChanges.InvertInvolution | game-core/src/main/java/games/strategy/engine/data/changefactory/ObjectPropertyChange.java:42-45 | inverting twice gives back the change |
| PropertyChanges.Apply | game-core/src/main/java/games/strategy/engine/data/changefactory/ObjectPropertyChange.java:47-58 | succeeds exactly when the property exists and its setter accepts the value; then it sets that property to the new value and nothing else; otherwise it is the error and nothing changes |
| PropertyChanges.PerformThenInvertRestores | game-core/src/main/java/games/strategy/engine/data/changefactory/ObjectPropertyChange.java:21-50 | performing a new change, then its inverse, restores the property values it was made from |
| PropertyChanges.InvertAppliesToLaterState | game-core/src/main/java/games/strategy/engine/data/changefactory/ObjectPropertyChange.java:42-50 | the inverse puts back the captured value whatever the state has become, and changes nothing else |
| PropertyChanges.UnitProperties.Perform | game-core/src/main/java/games/strategy/engine/data/changefactory/ObjectPropertyChange.java:47-58 | updates the live values in place as `Apply` says; a rejected value leaves every value as it was |
| Conditions.SplitOnHyphen | game-core/src/main/java/games/strategy/triplea/attachments/AbstractConditionsAttachment.java:114-118 | one piece more than there are hyphens, and joining with '-' gives back the input |
| Conditions.ParseConditionType | game-core/src/main/java/games/strategy/triplea/attachments/AbstractConditionsAttachment.java:101-112 | accepts exactly the upper-cased text that is AND, OR, XOR, n, or n-m with both ends ints and m above n, and stores the upper-cased text; a range end beyond the int range is a number-format error naming that end (the upper end is read first); anything else is an invalid-type error |
| Conditions.SinglePieceUnlessRange | game-core/src/main/java/games/strategy/triplea/attachments/AbstractConditionsAttachment.java:103-105 | the words and plain numbers split into one piece and are not ranges |
| Conditions.AcceptedIsUpperCase | game-core/src/main/java/games/strategy/triplea/attachments/AbstractConditionsAttachment.java:101-112 | text matching the pattern is already upper case |
| Conditions.ParseConditionTypeIdempotent | game-core/src/main/java/games/strategy/triplea/attachments/AbstractConditionsAttachment.java:101-112 | a stored type passes validation again and is stored unchanged |
| Conditions.RangeMustIncrease | game-core/src/main/java/games/strategy/triplea/attachments/AbstractConditionsAttachment.java:104-105 | n-m is accepted exactly when both ends are ints and m is above n, so 2-2 and 3-2 are rejected |
| Conditions.ExactlyTextRoundTrip | game-core/src/main/java/games/strategy/triplea/attachments/AbstractConditionsAttachment.java:101-112 | the text of a count is accepted and decodes to that count |
| Conditions.BetweenTextRoundTrip | game-core/src/main/java/games/strategy/triplea/attachments/AbstractConditionsAttachment.java:101-112 | the text of an increasing range decodes to that range; it is accepted when the upper end is an int, and otherwise is a number-format error naming the upper end |
| Conditions.CombinatorTextRoundTrip | game-core/src/main/java/games/strategy/triplea/attachments/AbstractConditionsAttachment.java:101-112 | every combinator with an increasing range decodes back from its canonical text, which is accepted unless it is a range whose upper end is beyond the int range |
| Conditions.CountTrueIsMultiplicity | game-core/src/main/java/games/strategy/triplea/attachments/AbstractConditionsAttachment.java:223-229 | the count is the multiplicity of true among the values |
| Conditions.AllMet | game-core/src/main/java/games/strategy/triplea/attachments/AbstractConditionsAttachment.java:205-211 | the AND loop is true exactly when there is at least one child and every child is true; an empty list is false |
| Conditions.AnyMet | game-core/src/main/java/games/strategy/triplea/attachments/AbstractConditionsAttachment.java:212-218 | the OR loop is true exactly when some child is true; an empty list is false |
| Conditions.CountMet | game-core/src/main/java/games/strategy/triplea/attachments/AbstractConditionsAttachment.java:219-243 | the count loops give the number of true children |
| Conditions.AreConditionsMet | game-core/src/main/java/games/strategy/triplea/attachments/AbstractConditionsAttachment.java:202-245 | AND, OR, n (exactly n true) and n-m (between n and m true, inclusive) as `Evaluate` defines them |
| Conditions.IsSatisfied | game-core/src/main/java/games/strategy/triplea/attachments/AbstractConditionsAttachment.java:143-153 | a null memo is an error; a cached verdict is returned unchanged; otherwise the combinator over the children's memo values, negated by invert |
| Conditions.ReachableRoot | game-core/src/main/java/games/strategy/triplea/attachments/AbstractConditionsAttachment.java:166 | every starting condition counts as reachable |
| Conditions.ReachableVia | game-core/src/main/java/games/strategy/triplea/attachments/AbstractConditionsAttachment.java:168-171 | what is reachable from a child is reachable from its parent |
| Conditions.PathStaysInClosed | game-core/src/main/java/games/strategy/triplea/attachments/AbstractConditionsAttachment.java:162-176 | a walk that starts in a set closed under child references stays in it |
| Conditions.ClosedContainsReachable | game-core/src/main/java/games/strategy/triplea/attachments/AbstractConditionsAttachment.java:162-176 | a closed set holding the roots holds everything reachable from them |
| Conditions.NestedCollectionKeeps | game-core/src/main/java/games/strategy/triplea/attachments/AbstractConditionsAttachment.java:169-171 | what the nested call for one child adds keeps the collection sound and expanded |
| Conditions.GetAllConditionsRecursive | game-core/src/main/java/games/strategy/triplea/attachments/AbstractConditionsAttachment.java:162-176 | the result holds the initial and starting sets; everything added is reachable from the starting set; the starting conditions and every added one have all their children in the result; it stops on cyclic references too |
| Conditions.AddSubConditions | game-core/src/main/java/games/strategy/triplea/attachments/AbstractConditionsAttachment.java:168-173 | after the inner loop every child of the condition is collected, and the collection stays sound |
| Conditions.CollectedExactly | game-core/src/main/java/games/strategy/triplea/attachments/AbstractConditionsAttachment.java:162-176 | with a closed (or null) initial set, the result is exactly the initial conditions and those reachable from the starting ones |
| Conditions.Settles | game-core/src/main/java/games/strategy/triplea/attachments/AbstractConditionsAttachment.java:188-190 | an entry that is its condition's verdict stays so when later entries are added, since none is overwritten |
| Conditions.ConsistentChain | game-core/src/main/java/games/strategy/triplea/attachments/AbstractConditionsAttachment.java:187-192 | two consistent stretches of filling the memo make one |
| Conditions.BottomUpAppend | game-core/src/main/java/games/strategy/triplea/attachments/AbstractConditionsAttachment.java:187-192 | two bottom-up stretches of storing make one |
| Conditions.StoreKeepsConsistent | game-core/src/main/java/games/strategy/triplea/attachments/AbstractConditionsAttachment.java:190 | storing a condition's verdict after its children keeps the memo consistent |
| Conditions.StoreKeepsBottomUp | game-core/src/main/java/games/strategy/triplea/attachments/AbstractConditionsAttachment.java:189-190 | storing a condition after the entries of its children keeps the order bottom-up |
| Conditions.StoreKeepsWithin | game-core/src/main/java/games/strategy/triplea/attachments/AbstractConditionsAttachment.java:189-190 | what testing one condition stores is reachable from it |
| Conditions.StoredWithinAppend | game-core/src/main/java/games/strategy/triplea/attachments/AbstractConditionsAttachment.java:187-192 | what testing one rule stores is reachable from the rules |
| Conditions.TestAllConditionsRecursive | game-core/src/main/java/games/strategy/triplea/attachments/AbstractConditionsAttachment.java:183-194 | existing entries are never overwritten; every rule gets an entry; each new entry is its condition's verdict over its children's entries and is stored after them; every new entry is reachable from the rules; it needs a ranking only of the conditions it enters, those outside the memo, in which each child is in the memo or ranked lower |
| Conditions.TestCondition | game-core/src/main/java/games/strategy/triplea/attachments/AbstractConditionsAttachment.java:188-191 | a rule not in the memo gets its entry after the entries of its children; its children need no rank when they are already in the memo |
| Conditions.RankedOutsideMore | game-core/src/main/java/games/strategy/triplea/attachments/AbstractConditionsAttachment.java:186-190 | a ranking of the conditions outside the memo still serves once the memo has grown |
| Conditions.RankedHasNoCycle | game-core/src/main/java/games/strategy/triplea/attachments/AbstractConditionsAttachment.java:183-194 | along a walk from a ranked condition that meets no memo entry before its end the rank falls, so the walk does not return to its start: no cycle the recursion could enter avoids the memo |
| Conditions.CycleThroughMemoRanked | game-core/src/main/java/games/strategy/triplea/attachments/AbstractConditionsAttachment.java:186-191 | two conditions naming each other, one already in the memo: the other alone is ranked, so the recursion stops, and its verdict is AND over the stored entry |
| Conditions.MemoAgreesWithEval | game-core/src/main/java/games/strategy/triplea/attachments/AbstractConditionsAttachment.java:183-194 | every entry of a consistent memo is its condition's reference verdict |
| Conditions.SatisfiedAfterTestAll | game-core/src/main/java/games/strategy/triplea/attachments/AbstractConditionsAttachment.java:143-194 | after testing, isSatisfied of every rule answers from the memo with the rule's reference verdict |
| Conditions.TestedCoversReachable | game-core/src/main/java/games/strategy/triplea/attachments/AbstractConditionsAttachment.java:183-194 | with a closed (or null) initial memo, every condition reachable from the rules gets an entry |
| ConditionsAttachments.CheckChance | game-core/src/main/java/games/strategy/triplea/attachments/AbstractConditionsAttachment.java:247-262 | passes exactly when the first two colon-separated parts are ints (integer text within the int range) with 0 <= x <= y <= 120; a bad part is an invalid declaration; a missing second part is an index error; numbers that are out of order or out of range are rejected |
| ConditionsAttachments.ChanceToHit | game-core/src/main/java/games/strategy/triplea/attachments/AbstractConditionsAttachment.java:275-277 | an accepted chance reads back a to-hit number within 0..120 |
| ConditionsAttachments.ChanceDiceSides | game-core/src/main/java/games/strategy/triplea/attachments/AbstractConditionsAttachment.java:279-281 | an accepted chance reads back a number of sides from the to-hit number up to 120; text without a colon is an index error |
| ConditionsAttachments.ChanceTextRoundTrip | game-core/src/main/java/games/strategy/triplea/attachments/AbstractConditionsAttachment.java:247-281 | x:y reads back as x and y, and is accepted exactly when 0 <= x <= y <= 120 |
| ConditionsAttachments.DefaultChanceAccepted | game-core/src/main/java/games/strategy/triplea/attachments/AbstractConditionsAttachment.java:40-53 | the default chance 1:1 is accepted and reads back as 1 out of 1 |
| ConditionsAttachments.ChanceIgnoresTrailingText | game-core/src/main/java/games/strategy/triplea/attachments/AbstractConditionsAttachment.java:247-262 | text after a second colon changes neither acceptance nor the numbers read |
| ConditionsAttachments.AdjustedToHit | game-core/src/main/java/games/strategy/triplea/attachments/AbstractConditionsAttachment.java:299-336 | the new to-hit number is the old one minus the decrement on success (plus the increment on failure), held within 0..diceSides |
| ConditionsAttachments.AdjustedToHitMonotone | game-core/src/main/java/games/strategy/triplea/attachments/AbstractConditionsAttachment.java:299-336 | a non-negative decrement never raises the to-hit number, and a non-negative increment never lowers it |
| ConditionsAttachments.AdjustedToHitAsWritten | game-core/src/main/java/games/strategy/triplea/attachments/AbstractConditionsAttachment.java:308-322 | in int arithmetic the result stays within 0..diceSides, and agrees with the unbounded adjustment whenever the sum does not wrap |
| ConditionsAttachments.AdjustedToHitAsWrittenWraps | game-core/src/main/java/games/strategy/triplea/attachments/AbstractConditionsAttachment.java:322 | an increment of Integer.MAX_VALUE after a failed 5:10 roll gives 0 as written, against 10 unbounded |
| ConditionsAttachments.FirstHolder | game-core/src/main/java/games/strategy/triplea/attachments/AbstractConditionsAttachment.java:70-74 | the first player with an attachment of the name, or none when no player has one |
| ConditionsAttachments.FindRule | game-core/src/main/java/games/strategy/triplea/attachments/AbstractConditionsAttachment.java:70-75 | a lookup fails only with rule not found or with a cast error naming the rules attachment type; a found rule's attachment is of the rules attachment class or one extending it |
| ConditionsAttachments.FindRuleUsesFirstHolder | game-core/src/main/java/games/strategy/triplea/attachments/AbstractConditionsAttachment.java:70-75 | rule not found exactly when no player holds an attachment of the name; otherwise the first holder's attachment when its class is the rules attachment class or extends it, and a cast error when not |
| ConditionsAttachments.ResolvedCount | game-core/src/main/java/games/strategy/triplea/attachments/AbstractConditionsAttachment.java:69-76 | the names before the first unresolvable one all resolve |
| ConditionsAttachments.Resolved | game-core/src/main/java/games/strategy/triplea/attachments/AbstractConditionsAttachment.java:69-76 | the rules of the first k names, in the order the names were given, one per name |
| ConditionsAttachments.ConditionsAttachment.constructor | game-core/src/main/java/games/strategy/triplea/attachments/AbstractConditionsAttachment.java:45-58 | no conditions, AND, not inverted, chance 1:1, no deltas; the stored texts are valid |
| ConditionsAttachments.ConditionsAttachment.Node | game-core/src/main/java/games/strategy/triplea/attachments/AbstractConditionsAttachment.java:84-122 | the node the evaluator reads from a valid attachment has a type that setConditionType accepts again unchanged and a chance that setChance accepts |
| ConditionsAttachments.ConditionsAttachment.IsSatisfied | game-core/src/main/java/games/strategy/triplea/attachments/AbstractConditionsAttachment.java:143-153 | a null memo is an error; otherwise it answers as the graph-level `isSatisfied` does for any graph holding this attachment as its node: the stored entry when there is one, else the combinator over the children's entries, negated by invert |
| ConditionsAttachments.ConditionsAttachment.SetConditions | game-core/src/main/java/games/strategy/triplea/attachments/AbstractConditionsAttachment.java:64-77 | appends the rules of each name in turn; on the first name that does not resolve it stops with that error, keeping the rules already appended; nothing else changes |
| ConditionsAttachments.ConditionsAttachment.SetConditionsList | game-core/src/main/java/games/strategy/triplea/attachments/AbstractConditionsAttachment.java:79-81 | the list replaces the conditions; nothing else changes |
| ConditionsAttachments.ConditionsAttachment.ResetConditions | game-core/src/main/java/games/strategy/triplea/attachments/AbstractConditionsAttachment.java:88-90 | no conditions; nothing else changes |
| ConditionsAttachments.ConditionsAttachment.SetInvert | game-core/src/main/java/games/strategy/triplea/attachments/AbstractConditionsAttachment.java:92-94 | sets the flag; nothing else changes |
| ConditionsAttachments.ConditionsAttachment.SetConditionType | game-core/src/main/java/games/strategy/triplea/attachments/AbstractConditionsAttachment.java:101-112 | stores the upper-cased type when it is accepted; otherwise the error with the type unchanged; the stored type stays valid |
| ConditionsAttachments.ConditionsAttachment.ResetConditionType | game-core/src/main/java/games/strategy/triplea/attachments/AbstractConditionsAttachment.java:124-126 | back to AND; nothing else changes |
| ConditionsAttachments.ConditionsAttachment.SetChance | game-core/src/main/java/games/strategy/triplea/attachments/AbstractConditionsAttachment.java:247-262 | stores the text as given when it is accepted; otherwise the error with the chance unchanged; the stored chance stays valid |
| ConditionsAttachments.ConditionsAttachment.ResetChance | game-core/src/main/java/games/strategy/triplea/attachments/AbstractConditionsAttachment.java:271-273 | back to 1:1; nothing else changes |
| ConditionsAttachments.ConditionsAttachment.SetChanceIncrementOnFailure | game-core/src/main/java/games/strategy/triplea/attachments/AbstractConditionsAttachment.java:283-285 | sets the increment; nothing else changes |
| ConditionsAttachments.ConditionsAttachment.SetChanceDecrementOnSuccess | game-core/src/main/java/games/strategy/triplea/attachments/AbstractConditionsAttachment.java:291-293 | sets the decrement; nothing else changes |
| ConditionsAttachments.ConditionsAttachment.ChangeChanceDecrementOrIncrementOnSuccessOrFailure | game-core/src/main/java/games/strategy/triplea/attachments/AbstractConditionsAttachment.java:299-336 | nothing is emitted when the delta is 0 or the new to-hit number, computed in wrapping int arithmetic as the code does, equals the old; otherwise one history event (a child event only after a failure with historyChild), then one change of `chance` to newToHit:diceSides, which setChance accepts and which keeps the dice sides |
| ConditionsAttachments.ConditionsAttachment.SetProperty | game-core/src/main/java/games/strategy/triplea/attachments/AbstractConditionsAttachment.java:338-376 | each registered name goes to its setter (invert through getBool, the deltas through getInt) and changes only its own field; an unknown name is an error and changes nothing |
| ConditionsAttachments.ConditionsAttachment.ResetProperty | game-core/src/main/java/games/strategy/triplea/attachments/AbstractConditionsAttachment.java:338-376 | each registered name goes back to its default (no conditions, AND, false, 1:1, 0, 0) and changes only its own field; an unknown name is an error |
| ConditionsAttachments.AdjustedChanceAccepted | game-core/src/main/java/games/strategy/triplea/attachments/AbstractConditionsAttachment.java:299-336 | for every int delta, the chance text emitted after a roll, with the code's wrapping arithmetic, is one setChance accepts, and it reads back the new to-hit number |
| OriginalOwners.TerritoryOriginalOwnerChange | game-core/src/main/java/games/strategy/triplea/delegate/OriginalOwnerTracker.java:28-30 | a change of the original owner, to the player, on the territory's attachment; a territory without one is a null dereference |
| OriginalOwners.UnitOriginalOwnerChange | game-core/src/main/java/games/strategy/triplea/delegate/OriginalOwnerTracker.java:32-34 | a property change of the unit's original owner to the player, capturing the current owner |
| OriginalOwners.UnitOriginalOwnerChangeSetsOwner | game-core/src/main/java/games/strategy/triplea/delegate/OriginalOwnerTracker.java:32-34 | performing it sets that unit's original owner and nothing else, and its inverse puts the old owner back |
| OriginalOwners.UnitsOriginalOwnerChange | game-core/src/main/java/games/strategy/triplea/delegate/OriginalOwnerTracker.java:36-42 | a composite with exactly one unit change per unit, in the units' order; no units give an empty composite |
| OriginalOwners.TerritoryOriginalOwner | game-core/src/main/java/games/strategy/triplea/delegate/OriginalOwnerTracker.java:48-54 | null without a territory attachment, otherwise the attachment's original owner |
| OriginalOwners.GetOriginallyOwned | game-core/src/main/java/games/strategy/triplea/delegate/OriginalOwnerTracker.java:56-68 | the map's territories in map order whose original owner, with a missing one taken as the null player, is the player |
| OriginalOwners.OriginallyOwnedMembers | game-core/src/main/java/games/strategy/triplea/delegate/OriginalOwnerTracker.java:56-68 | a territory is listed exactly when it is on the map and originally owned by the player |
| OriginalOwners.OriginallyOwnedConcat | game-core/src/main/java/games/strategy/triplea/delegate/OriginalOwnerTracker.java:58-66 | map order is kept: two stretches of the map give the first stretch's territories, then the second's |
| OriginalOwners.OriginallyOwnedShorter | game-core/src/main/java/games/strategy/triplea/delegate/OriginalOwnerTracker.java:56-68 | never more territories than the map has |
| OriginalOwners.NullPlayerOwnsUnrecorded | game-core/src/main/java/games/strategy/triplea/delegate/OriginalOwnerTracker.java:59-63 | asking for the null player lists every territory with no recorded original owner, and only those and the ones recorded as the null player's |

## Left out

- Conditions.Evaluate and Conditions.ConditionsMet require a combinator other than XOR, and numbers within the int range. XOR passes validation, but `areConditionsMet` has no XOR branch and would parse "XOR" as a number; a count beyond the int range passes the pattern but fails `Integer.parseInt`. Both would throw `NumberFormatException`, which is not modelled, so the ranking `TestAllConditionsRecursive` takes requires every ranked condition to have an evaluable type.
- Conditions.AreConditionsMet requires every listed child to be in the memo. A missing entry would unbox null. The AND and OR loops would not reach a missing entry after they stop, but the model still asks for it.
- Subclass overrides of `isSatisfied`. `RulesAttachment` and `TriggerAttachment` consult game state, and they are not part of this model. Leaf verdicts reach `TestAllConditionsRecursive` through the initial memo.
- Conditions.TestAllConditionsRecursive does not model the non-terminating runs, on a cycle of child references that avoids the memo. It requires a ranking outside the memo instead. `RankedHasNoCycle` shows that a ranking excludes such cycles; the converse, that every graph without them has a ranking, is not proved.
- Attachments.GetInt accepts ASCII digits only. `Integer.parseInt` also accepts the decimal digits of other Unicode scripts.
- Attachments.StringHash sums Unicode scalar values, while `String.hashCode` sums UTF-16 code units; the two agree on text within the Basic Multilingual Plane only.
- Text.ToUpper and Text.EqualsIgnoreCase fold only ASCII letters.
- Message texts are not modelled: the `GameParseException` and `IllegalStateException` messages, `thisErrorMsg`, and the history texts written with `MyFormatter`. An error keeps only the value it names.
- `GameParseException` is taken to be a checked exception, so the `IllegalArgumentException` handler in `setChance` does not catch the out-of-range error.
- `ChangeFactory` and `CompositeChange` are not part of this model. A composite is its ordered sequence of changes. An attachment property change records the attachment, the property and the new value. A unit property change is taken to be built by the package-private `ObjectPropertyChange` constructor. Performing composites and attachment changes is not modelled.
- Assumed values: `Constants.ORIGINAL_OWNER` is "originalOwner"; `Constants.PROPERTY_TRUE` and `PROPERTY_FALSE` are "true" and "false"; `PlayerID.NULL_PLAYERID` is the player named "Neutral"; `PlayerID.toString` is the player's name, which is how an owner value is rendered as text.
- `TerritoryAttachment.get` is taken to return the territory's attachment or null. An attachment change on a null attachment is taken to be a null dereference.
- `getOriginalOwner(Unit)` is not modelled. It reads `TripleAUnit`, which is not part of this model.
- ConditionsAttachments.FindRule and Attachments.GetAttachment model `Class.cast` by the set of class names an attachment has (its own and those it extends); the class hierarchy itself is not modelled. `findAny` on the sequential stream is taken to be the first match.
- Aliasing of the shared `HashSet`/`HashMap` is modelled by value. Each nested call returns the set or map it was given, with entries added.
- Strings and lists in the model cannot be null. The null checks in `splitOnColon` and `splitOnHyphen` and the `m_conditions == null` reset in `setConditions` are therefore not modelled.
- ConditionsAttachments.ConditionsAttachment.SetProperty and ResetProperty stand for `getPropertyMap`. `MutableProperty` is not part of this model, so the registry is modelled as a dispatch on the property name, and an unknown name is reported as `NoSuchProperty`.
- The `isSatisfied` overload without a bridge, and the getters that only return a field.
- Java serialization (`readObject`, `intern`, `serialVersionUID`).
- ConditionsAttachments.ChanceIgnoresTrailingText states that acceptance agrees, but makes no claim about the errors. The errors name the whole text, so they differ.

## Findings

| source | as written | input that shows it | evidently intended | confidence | as-written member | corrected member |
|---|---|---|---|---|---|---|
| game-core/src/main/java/games/strategy/engine/data/DefaultAttachment.java:155-159 | when this attachment is attached to an object and the other to null, `other.m_attachedTo.toString()` dereferences null | two attachments of one class, the first attached to a territory and the second to nothing | answer false, as the reverse comparison does | high (not executed) | Attachments.EqualsAsWritten, Attachments.EqualsAsWrittenThrowsOnNullAttachedTo | Attachments.Equals, Attachments.EqualsIsEquivalence |
| game-core/src/main/java/games/strategy/engine/data/DefaultAttachment.java:141-162 | the `toString` fallback makes a null name equal to the name "null", while `hashCode` hashes them differently | two attachments of one class and owner, one named null and one named "null" | equal attachments have equal hash codes | high (not executed) | Attachments.EqualsAsWritten, Attachments.EqualsAsWrittenBreaksHashCode | Attachments.Equals, Attachments.EqualsImpliesSameHashCode |
| game-core/src/main/java/games/strategy/triplea/attachments/AbstractConditionsAttachment.java:308-322 | `oldToHit + m_chanceIncrementOnFailure` (and `oldToHit - m_chanceDecrementOnSuccess`) is int arithmetic and wraps before the clamp | chance 5:10, increment on failure 2147483647, a failed roll: the sum wraps negative and the new to-hit is 0 | the clamp raises it to the dice sides, 10 | medium (not executed) | ConditionsAttachments.AdjustedToHitAsWritten, ConditionsAttachments.AdjustedToHitAsWrittenWraps | ConditionsAttachments.AdjustedToHit, ConditionsAttachments.AdjustedToHitMonotone |
