/** AbstractConditionsAttachment: the condition graph and its evaluator. A condition names
    child conditions, a combinator (AND, OR, XOR, an exact count n or a range n-m), an
    invert flag and a chance "x:y" with an increment on failure and a decrement on
    success. Evaluation fills a memo that maps each condition to its truth value, children
    before parents; the chance adjustment emits a change of the "chance" property. */
module Conditions {
  import opened Results
  import opened Text
  import opened GameValues
  import opened Attachments
  import opened PropertyChanges

  const AND := "AND"
  const OR := "OR"
  const XOR := "XOR"
  const DEFAULT_CHANCE := "1:1"
  const CHANCE := "chance"
  /** The attachment type child conditions must have. */
  const RULES_ATTACHMENT := "RulesAttachment"

  /** Conditions are attachments, referred to by identity. */
  type Id = AttachmentId

  /** A condition as the evaluator sees it. */
  datatype Condition = Condition(
    conditions: seq<Id>,
    conditionType: string,
    invert: bool,
    chance: string,
    chanceIncrementOnFailure: int,
    chanceDecrementOnSuccess: int)

  /** Every condition in play, by identity. */
  type Graph = map<Id, Condition>

  // ---------------------------------------------------------------- condition types

  /** splitOnHyphen */
  function SplitOnHyphen(value: string): (parts: seq<string>)
    ensures |parts| == Occurrences(value, '-') + 1
    ensures Join(parts, '-') == value
  {
    Split(value, '-')
  }

  /** n-m with n and m decimal digit strings. */
  predicate IsRangeText(u: string) {
    var p := SplitOnHyphen(u);
    |p| == 2 && IsDigits(p[0]) && IsDigits(p[1])
  }

  function RangeLow(u: string): nat
    requires IsRangeText(u)
  {
    DigitsValue(SplitOnHyphen(u)[0])
  }

  function RangeHigh(u: string): nat
    requires IsRangeText(u)
  {
    DigitsValue(SplitOnHyphen(u)[1])
  }

  /** The pattern AND|X?OR|\d+(?:-\d+)? */
  predicate MatchesConditionTypePattern(u: string) {
    u == AND || u == OR || u == XOR || IsDigits(u) || IsRangeText(u)
  }

  /** Both ends of a range are read by Integer.parseInt, so both must fit in an int. */
  predicate RangeFits(u: string)
    requires IsRangeText(u)
  {
    ParsesAsInt(SplitOnHyphen(u)[0]) && ParsesAsInt(SplitOnHyphen(u)[1])
  }

  /** What setConditionType stores: the pattern, with a range's ends ints and its upper end
      above its lower end. A single number is stored unread. */
  predicate AcceptedConditionType(u: string) {
    MatchesConditionTypePattern(u) && (IsRangeText(u) ==> RangeFits(u) && RangeHigh(u) > RangeLow(u))
  }

  /** The types areConditionsMet folds: XOR passes validation but has no branch of its own,
      and a number beyond the int range cannot be read; both raise NumberFormatException. */
  predicate Evaluable(u: string) {
    u == AND || u == OR || (IsDigits(u) && ParsesAsInt(u)) || (IsRangeText(u) && RangeFits(u))
  }

  /** The words and digit strings hold no hyphen, so they split into one piece. */
  lemma SinglePieceUnlessRange(u: string)
    requires u == AND || u == OR || u == XOR || IsDigits(u)
    ensures SplitOnHyphen(u) == [u] && !IsRangeText(u)
  {
    assert '-' !in u;
    SplitWithoutSeparator(u, '-');
  }

  /** setConditionType's check: upper-case the text; accept AND, OR, XOR, n, or n-m with m above
      n. The ends of a range are read upper end first, and one that is no int escapes as a
      NumberFormatException. */
  function ParseConditionType(value: string): (r: Result<string>)
    ensures r.Ok? <==> AcceptedConditionType(ToUpper(value))
    ensures r.Ok? ==> r.value == ToUpper(value)
    ensures var u := ToUpper(value);
            r == Err(InvalidConditionType(value)) <==>
              !MatchesConditionTypePattern(u) || (IsRangeText(u) && RangeFits(u) && RangeHigh(u) <= RangeLow(u))
    ensures var u := ToUpper(value);
            IsRangeText(u) && !RangeFits(u) ==>
              var p := SplitOnHyphen(u);
              r == Err(NumberFormat(if ParsesAsInt(p[1]) then p[0] else p[1]))
  {
    var u := ToUpper(value);
    if MatchesConditionTypePattern(u) then
      var split := SplitOnHyphen(u);
      if |split| != 2 then
        Ok(u)
      else
        assert IsRangeText(u) by {
          if u == AND || u == OR || u == XOR || IsDigits(u) { SinglePieceUnlessRange(u); }
        }
        if !ParsesAsInt(split[1]) then Err(NumberFormat(split[1]))
        else if !ParsesAsInt(split[0]) then Err(NumberFormat(split[0]))
        else if DigitsValue(split[1]) > DigitsValue(split[0]) then Ok(u) else Err(InvalidConditionType(value))
    else
      Err(InvalidConditionType(value))
  }

  /** A range's characters are digits and one hyphen, none of which upper-casing changes. */
  lemma RangeTextIsUpperCase(low: string, high: string)
    requires IsDigits(low) && IsDigits(high)
    ensures ToUpper(low + ['-'] + high) == low + ['-'] + high
  {
    var u := low + ['-'] + high;
    forall i | 0 <= i < |u| ensures !('a' <= u[i] <= 'z') {
      if i < |low| { assert u[i] == low[i]; }
      else if i > |low| { assert u[i] == high[i - |low| - 1]; }
    }
    ToUpperFixed(u);
  }

  /** The characters of an accepted type are upper-case letters, digits or the hyphen. */
  lemma AcceptedIsUpperCase(u: string)
    requires MatchesConditionTypePattern(u)
    ensures ToUpper(u) == u
  {
    if IsRangeText(u) {
      var p := SplitOnHyphen(u);
      assert u == p[0] + ['-'] + p[1] by {
        assert p[1..] == [p[1]];
        assert Join(p[1..], '-') == p[1];
        assert Join(p, '-') == p[0] + ['-'] + Join(p[1..], '-');
      }
      RangeTextIsUpperCase(p[0], p[1]);
    } else {
      ToUpperFixed(u);
    }
  }

  /** Validation is idempotent: a stored type passes again and is stored unchanged. */
  lemma ParseConditionTypeIdempotent(value: string)
    requires ParseConditionType(value).Ok?
    ensures ParseConditionType(ParseConditionType(value).value) == ParseConditionType(value)
  {
    AcceptedIsUpperCase(ToUpper(value));
  }

  /** A range n-m is accepted exactly when both ends are ints and m is above n; so 2-2 and
      3-2 are rejected. */
  lemma RangeMustIncrease(low: string, high: string)
    requires IsDigits(low) && IsDigits(high)
    ensures ParseConditionType(low + "-" + high).Ok? <==>
              ParsesAsInt(low) && ParsesAsInt(high) && DigitsValue(high) > DigitsValue(low)
  {
    RangeTextShape(low, high);
  }

  /** The text n-m splits back into n and m, is a range and no word or number, and is
      already upper case. */
  lemma RangeTextShape(low: string, high: string)
    requires IsDigits(low) && IsDigits(high)
    ensures var u := low + "-" + high;
            SplitOnHyphen(u) == [low, high] && IsRangeText(u) && !IsDigits(u)
            && u != AND && u != OR && u != XOR && ToUpper(u) == u
  {
    var u := low + "-" + high;
    assert '-' !in low && '-' !in high;
    SplitPair(low, high, '-');
    assert u == low + ['-'] + high;
    assert !IsDigits(u) by { assert u[|low|] == '-'; }
    assert u != AND && u != OR && u != XOR by { assert IsDigit(u[0]); }
    RangeTextIsUpperCase(low, high);
  }

  /** The combinator a type stands for. */
  datatype Combinator = And | Or | Xor | Exactly(count: nat) | Between(low: nat, high: nat)

  function Decode(u: string): Combinator
    requires MatchesConditionTypePattern(u)
  {
    if u == AND then And
    else if u == OR then Or
    else if u == XOR then Xor
    else if IsDigits(u) then Exactly(DigitsValue(u))
    else Between(RangeLow(u), RangeHigh(u))
  }

  /** The canonical text of a combinator. */
  function CombinatorText(c: Combinator): string {
    match c
    case And => AND
    case Or => OR
    case Xor => XOR
    case Exactly(n) => NatToString(n)
    case Between(low, high) => NatToString(low) + "-" + NatToString(high)
  }

  lemma KeywordTextRoundTrip(u: string)
    requires u == AND || u == OR || u == XOR
    ensures ParseConditionType(u) == Ok(u)
  {
    SinglePieceUnlessRange(u);
    AcceptedIsUpperCase(u);
  }

  lemma ExactlyTextRoundTrip(n: nat)
    ensures ParseConditionType(NatToString(n)) == Ok(NatToString(n))
    ensures MatchesConditionTypePattern(NatToString(n)) && Decode(NatToString(n)) == Exactly(n)
  {
    var t := NatToString(n);
    NatToStringValue(n);
    assert t != AND && t != OR && t != XOR by { assert IsDigit(t[0]); }
    SinglePieceUnlessRange(t);
    AcceptedIsUpperCase(t);
  }

  lemma BetweenTextRoundTrip(low: nat, high: nat)
    requires high > low
    ensures ParseConditionType(CombinatorText(Between(low, high))) ==
              if high < 0x8000_0000 then Ok(CombinatorText(Between(low, high)))
              else Err(NumberFormat(NatToString(high)))
    ensures MatchesConditionTypePattern(CombinatorText(Between(low, high)))
    ensures Decode(CombinatorText(Between(low, high))) == Between(low, high)
  {
    var a, b := NatToString(low), NatToString(high);
    NatToStringValue(low);
    NatToStringValue(high);
    RangeTextShape(a, b);
  }

  /** Every combinator whose range increases decodes back from its canonical text, which is
      accepted unless the upper end of a range is beyond the int range. */
  lemma CombinatorTextRoundTrip(c: Combinator)
    requires c.Between? ==> c.high > c.low
    ensures ParseConditionType(CombinatorText(c)) ==
              if c.Between? && c.high >= 0x8000_0000 then Err(NumberFormat(NatToString(c.high)))
              else Ok(CombinatorText(c))
    ensures MatchesConditionTypePattern(CombinatorText(c)) && Decode(CombinatorText(c)) == c
  {
    match c
    case And => KeywordTextRoundTrip(AND);
    case Or => KeywordTextRoundTrip(OR);
    case Xor => KeywordTextRoundTrip(XOR);
    case Exactly(n) => ExactlyTextRoundTrip(n);
    case Between(low, high) => BetweenTextRoundTrip(low, high);
  }

  // ---------------------------------------------------------------- evaluation

  /** Number of true values. */
  function CountTrue(values: seq<bool>): (n: nat)
    ensures n <= |values|
    decreases |values|
  {
    if |values| == 0 then 0 else CountTrue(values[..|values| - 1]) + (if values[|values| - 1] then 1 else 0)
  }

  lemma {:induction false} CountTrueIsMultiplicity(values: seq<bool>)
    ensures CountTrue(values) == multiset(values)[true]
    decreases |values|
  {
    if |values| > 0 {
      var init := values[..|values| - 1];
      CountTrueIsMultiplicity(init);
      assert values == init + [values[|values| - 1]];
    }
  }

  /** What a combinator makes of its children's values: AND needs at least one child and
      all true, OR needs some true child, n needs exactly n true, n-m between n and m true. */
  function Evaluate(c: Combinator, values: seq<bool>): bool
    requires !c.Xor?
  {
    match c
    case And => |values| > 0 && forall i :: 0 <= i < |values| ==> values[i]
    case Or => exists i :: 0 <= i < |values| && values[i]
    case Exactly(n) => CountTrue(values) == n
    case Between(low, high) => low <= CountTrue(values) <= high
  }

  /** The memo's values for a list of conditions, in order. */
  function Lookup(ids: seq<Id>, memo: map<Id, bool>): (values: seq<bool>)
    requires forall c :: c in ids ==> c in memo
    ensures |values| == |ids| && forall i :: 0 <= i < |ids| ==> values[i] == memo[ids[i]]
  {
    seq(|ids|, i requires 0 <= i < |ids| => memo[ids[i]])
  }

  /** The value areConditionsMet computes. */
  function ConditionsMet(ids: seq<Id>, memo: map<Id, bool>, conditionType: string): bool
    requires Evaluable(conditionType)
    requires forall c :: c in ids ==> c in memo
  {
    Evaluate(Decode(conditionType), Lookup(ids, memo))
  }

  /** The loop of the AND branch: stops at the first false value. */
  method AllMet(rulesToTest: seq<Id>, testedConditions: map<Id, bool>) returns (met: bool)
    requires forall c :: c in rulesToTest ==> c in testedConditions
    ensures met == Evaluate(And, Lookup(rulesToTest, testedConditions))
  {
    ghost var values := Lookup(rulesToTest, testedConditions);
    met := false;
    var i := 0;
    while i < |rulesToTest|
      invariant 0 <= i <= |rulesToTest|
      invariant forall k :: 0 <= k < i ==> values[k]
      invariant met == (i > 0)
    {
      met := testedConditions[rulesToTest[i]];
      if !met {
        return;
      }
      i := i + 1;
    }
  }

  /** The loop of the OR branch: stops at the first true value. */
  method AnyMet(rulesToTest: seq<Id>, testedConditions: map<Id, bool>) returns (met: bool)
    requires forall c :: c in rulesToTest ==> c in testedConditions
    ensures met == Evaluate(Or, Lookup(rulesToTest, testedConditions))
  {
    ghost var values := Lookup(rulesToTest, testedConditions);
    met := false;
    var i := 0;
    while i < |rulesToTest|
      invariant 0 <= i <= |rulesToTest|
      invariant forall k :: 0 <= k < i ==> !values[k]
      invariant !met
    {
      met := testedConditions[rulesToTest[i]];
      if met {
        return;
      }
      i := i + 1;
    }
  }

  /** The loop of the count branches: the number of true values. */
  method CountMet(rulesToTest: seq<Id>, testedConditions: map<Id, bool>) returns (count: nat)
    requires forall c :: c in rulesToTest ==> c in testedConditions
    ensures count == CountTrue(Lookup(rulesToTest, testedConditions))
  {
    ghost var values := Lookup(rulesToTest, testedConditions);
    count := 0;
    var i := 0;
    while i < |rulesToTest|
      invariant 0 <= i <= |rulesToTest|
      invariant count == CountTrue(values[..i])
    {
      if testedConditions[rulesToTest[i]] {
        count := count + 1;
      }
      assert values[..i + 1][..i] == values[..i];
      i := i + 1;
    }
    assert values[..i] == values;
  }

  /** areConditionsMet: folds the memo's values of the listed conditions by the type. */
  method AreConditionsMet(rulesToTest: seq<Id>, testedConditions: map<Id, bool>, conditionType: string)
    returns (met: bool)
    requires Evaluable(conditionType)
    requires forall c :: c in rulesToTest ==> c in testedConditions
    ensures met == ConditionsMet(rulesToTest, testedConditions, conditionType)
  {
    if conditionType == AND {
      met := AllMet(rulesToTest, testedConditions);
    } else if conditionType == OR {
      met := AnyMet(rulesToTest, testedConditions);
    } else {
      var nums := SplitOnHyphen(conditionType);
      if IsDigits(conditionType) {
        SinglePieceUnlessRange(conditionType);
      }
      var count := CountMet(rulesToTest, testedConditions);
      if |nums| == 1 {
        var start := GetInt(nums[0]).value;
        met := count == start;
      } else {
        // the pattern leaves two pieces here: nums.length == 2
        var start := GetInt(nums[0]).value;
        var end := GetInt(nums[1]).value;
        met := count >= start && count <= end;
      }
    }
  }

  // ---------------------------------------------------------------- isSatisfied

  /** A condition's own verdict over a memo holding its children: the combinator's result
      differs from the invert flag. */
  predicate Combine(g: Graph, x: Id, memo: map<Id, bool>)
    requires x in g && Evaluable(g[x].conditionType)
    requires forall c :: c in g[x].conditions ==> c in memo
  {
    ConditionsMet(g[x].conditions, memo, g[x].conditionType) != g[x].invert
  }

  /** isSatisfied(testedConditions): a missing memo is an error, a cached verdict is returned
      as it is, and otherwise the combinator's verdict over the children, negated by invert. */
  function IsSatisfied(g: Graph, id: Id, testedConditions: Option<map<Id, bool>>): (r: Result<bool>)
    requires id in g
    requires testedConditions.Some? && id !in testedConditions.value ==>
      Evaluable(g[id].conditionType) && forall c :: c in g[id].conditions ==> c in testedConditions.value
    ensures testedConditions.None? <==> r == Err(NullTestedConditions)
    ensures testedConditions.Some? && id in testedConditions.value ==> r == Ok(testedConditions.value[id])
    ensures testedConditions.Some? && id !in testedConditions.value ==>
      r == Ok(Evaluate(Decode(g[id].conditionType), Lookup(g[id].conditions, testedConditions.value)) != g[id].invert)
  {
    match testedConditions
    case None => Err(NullTestedConditions)
    case Some(memo) =>
      if id in memo then Ok(memo[id]) else Ok(Combine(g, id, memo))
  }

  // ---------------------------------------------------------------- reachability

  /** A walk along child references inside the graph. */
  ghost predicate IsPath(g: Graph, p: seq<Id>)
    decreases |p|
  {
    |p| > 0 && p[0] in g && (|p| == 1 || (p[1] in g[p[0]].conditions && IsPath(g, p[1..])))
  }

  /** y can be reached from one of the roots through child references. */
  ghost predicate Reachable(g: Graph, roots: set<Id>, y: Id) {
    exists p :: IsPath(g, p) && p[0] in roots && p[|p| - 1] == y
  }

  /** Every child reference leads to a condition of the graph. */
  ghost predicate ClosedGraph(g: Graph) {
    forall x {:trigger ChildrenIn(g, x, g.Keys)} :: x in g ==> ChildrenIn(g, x, g.Keys)
  }

  /** The set holds every child of x. */
  ghost predicate ChildrenIn(g: Graph, x: Id, s: set<Id>)
    requires x in g
  {
    forall i :: 0 <= i < |g[x].conditions| ==> g[x].conditions[i] in s
  }

  /** The set holds the children of each of its conditions. */
  ghost predicate ClosedIn(g: Graph, s: set<Id>) {
    forall x :: x in s && x in g ==> ChildrenIn(g, x, s)
  }

  lemma ReachableRoot(g: Graph, roots: set<Id>, x: Id)
    requires x in roots && x in g
    ensures Reachable(g, roots, x)
  {
    assert IsPath(g, [x]);
  }

  /** Reaching y from some children of c means reaching it from any set holding c. */
  lemma ReachableVia(g: Graph, roots: set<Id>, c: Id, children: set<Id>, y: Id)
    requires c in roots && c in g
    requires forall s :: s in children ==> s in g[c].conditions
    requires Reachable(g, children, y)
    ensures Reachable(g, roots, y)
  {
    var p :| IsPath(g, p) && p[0] in children && p[|p| - 1] == y;
    var q := [c] + p;
    assert q[1..] == p;
    assert IsPath(g, q);
  }

  /** A path that starts in a closed set stays in it. */
  lemma {:induction false} PathStaysInClosed(g: Graph, s: set<Id>, p: seq<Id>)
    requires ClosedIn(g, s) && IsPath(g, p) && p[0] in s
    ensures p[|p| - 1] in s
    decreases |p|
  {
    if |p| > 1 {
      assert p[1] in g[p[0]].conditions;
      PathStaysInClosed(g, s, p[1..]);
    }
  }

  /** A closed set holding the roots holds everything reachable from them. */
  lemma ClosedContainsReachable(g: Graph, s: set<Id>, roots: set<Id>, y: Id)
    requires ClosedIn(g, s) && roots <= s && Reachable(g, roots, y)
    ensures y in s
  {
    var p :| IsPath(g, p) && p[0] in roots && p[|p| - 1] == y;
    PathStaysInClosed(g, s, p);
  }

  // ---------------------------------------------------------------- getAllConditionsRecursive

  /** Everything collected was there initially or is reachable from the starting set. */
  ghost predicate Sound(g: Graph, init: set<Id>, starting: set<Id>, all: set<Id>) {
    forall y {:trigger Reachable(g, starting, y)} :: y in all ==> y in init || Reachable(g, starting, y)
  }

  /** The starting conditions already visited, and every condition added beyond the starting
      and initial ones, have all their children collected. */
  ghost predicate Expanded(g: Graph, init: set<Id>, starting: set<Id>, pending: set<Id>, all: set<Id>)
    requires all <= g.Keys
  {
    forall x {:trigger ChildrenIn(g, x, all)} ::
      x in all && ((x in starting && x !in pending) || (x !in init && x !in starting)) ==> ChildrenIn(g, x, all)
  }

  /** The starting conditions, and every condition added to the initial ones, have all their
      children collected. */
  ghost predicate Saturated(g: Graph, init: set<Id>, starting: set<Id>, all: set<Id>)
    requires all <= g.Keys
  {
    forall x {:trigger ChildrenIn(g, x, all)} :: x in all && (x in starting || x !in init) ==> ChildrenIn(g, x, all)
  }

  /** What a nested call of getAllConditionsRecursive for one child contributes keeps the
      collection sound and expanded. */
  lemma NestedCollectionKeeps(g: Graph, init: set<Id>, starting: set<Id>, pending: set<Id>,
                              all: set<Id>, condition: Id, sub: Id, more: set<Id>)
    requires condition in pending && pending <= starting && condition in g
    requires sub in g[condition].conditions && sub !in all
    requires init + starting <= all && all + {sub} <= more <= g.Keys
    requires Sound(g, init, starting, all) && Expanded(g, init, starting, pending, all)
    requires Sound(g, all, {sub}, more)
    requires Saturated(g, all, {sub}, more)
    ensures Sound(g, init, starting, more) && Expanded(g, init, starting, pending, more)
  {
    forall y | y in more && y !in all ensures Reachable(g, starting, y) {
      ReachableVia(g, starting, condition, {sub}, y);
    }
    forall x | x in more && ((x in starting && x !in pending) || (x !in init && x !in starting))
      ensures ChildrenIn(g, x, more)
    {
      if x in all {
        assert ChildrenIn(g, x, all);
      } else {
        assert ChildrenIn(g, x, more);
      }
    }
  }

  /** getAllConditionsRecursive: adds the starting conditions, and everything reachable from
      them that is not yet present, to the initial set (a null initial set is empty). The
      visited check makes it stop on cyclic references too. */
  method GetAllConditionsRecursive(g: Graph, starting: set<Id>, initial: Option<set<Id>>)
    returns (all: set<Id>)
    requires ClosedGraph(g)
    requires starting <= g.Keys && initial.GetOr({}) <= g.Keys
    ensures initial.GetOr({}) + starting <= all <= g.Keys
    ensures Sound(g, initial.GetOr({}), starting, all)
    ensures Saturated(g, initial.GetOr({}), starting, all)
    decreases g.Keys - (initial.GetOr({}) + starting), 1
  {
    var init := initial.GetOr({});
    all := init + starting;
    forall y | y in starting ensures Reachable(g, starting, y) {
      ReachableRoot(g, starting, y);
    }
    var rest := starting;
    while rest != {}
      invariant rest <= starting
      invariant init + starting <= all <= g.Keys
      invariant Sound(g, init, starting, all) && Expanded(g, init, starting, rest, all)
      decreases |rest|
    {
      var condition :| condition in rest;
      all := AddSubConditions(g, init, starting, rest, condition, all);
      rest := rest - {condition};
    }
  }

  /** The inner loop of getAllConditionsRecursive: collects, through a nested call, each child
      of one starting condition that is not collected yet. */
  method AddSubConditions(g: Graph, ghost init: set<Id>, ghost starting: set<Id>, ghost pending: set<Id>,
                          condition: Id, collected: set<Id>)
    returns (all: set<Id>)
    requires ClosedGraph(g)
    requires condition in pending && pending <= starting && starting <= g.Keys
    requires init + starting <= collected <= g.Keys
    requires Sound(g, init, starting, collected) && Expanded(g, init, starting, pending, collected)
    ensures collected <= all <= g.Keys
    ensures Sound(g, init, starting, all) && Expanded(g, init, starting, pending, all)
    ensures ChildrenIn(g, condition, all)
    decreases g.Keys - collected, 0
  {
    all := collected;
    var subs := g[condition].conditions;
    assert ChildrenIn(g, condition, g.Keys);
    var j := 0;
    while j < |subs|
      invariant 0 <= j <= |subs|
      invariant collected <= all <= g.Keys
      invariant Sound(g, init, starting, all) && Expanded(g, init, starting, pending, all)
      invariant forall k :: 0 <= k < j ==> subs[k] in all
    {
      var sub := subs[j];
      if sub !in all {
        // the nested call adds to the very set it is given, so addAll of its result adds nothing more
        var more := GetAllConditionsRecursive(g, {sub}, Some(all));
        NestedCollectionKeeps(g, init, starting, pending, all, condition, sub, more);
        all := more;
      }
      j := j + 1;
    }
  }

  /** With a closed initial set (a null one in particular), getAllConditionsRecursive returns
      exactly the initial conditions and those reachable from the starting ones. */
  lemma CollectedExactly(g: Graph, init: set<Id>, starting: set<Id>, all: set<Id>)
    requires ClosedIn(g, init)
    requires init + starting <= all <= g.Keys
    requires Sound(g, init, starting, all) && Saturated(g, init, starting, all)
    ensures forall y :: y in all <==> y in init || Reachable(g, starting, y)
  {
    assert ClosedIn(g, all);
    forall y | Reachable(g, starting, y) ensures y in all {
      ClosedContainsReachable(g, all, starting, y);
    }
  }

  // ---------------------------------------------------------------- testAllConditionsRecursive

  /** The ranking that bounds the recursion, which never enters a condition already in the
      memo: every ranked condition outside the memo keys is ranked as RankedNode says.
      Conditions the recursion cannot reach without passing a memo key need no rank. */
  ghost predicate RankedOutside(g: Graph, rank: map<Id, nat>, keys: set<Id>) {
    forall x {:trigger RankedNode(g, rank, keys, x)} :: x in rank && x !in keys ==> RankedNode(g, rank, keys, x)
  }

  /** x is a condition with a type the evaluator folds, and each of its children is a memo key
      or a ranked condition of lower rank. */
  ghost predicate RankedNode(g: Graph, rank: map<Id, nat>, keys: set<Id>, x: Id)
    requires x in rank
  {
    x in g && Evaluable(g[x].conditionType) &&
    forall i :: 0 <= i < |g[x].conditions| ==>
      g[x].conditions[i] in g &&
      (g[x].conditions[i] in keys || (g[x].conditions[i] in rank && rank[g[x].conditions[i]] < rank[x]))
  }

  /** A ranking outside some memo keys serves for any memo holding more. */
  lemma RankedOutsideMore(g: Graph, rank: map<Id, nat>, keys: set<Id>, more: set<Id>)
    requires RankedOutside(g, rank, keys) && keys <= more
    ensures RankedOutside(g, rank, more)
  {
    forall x | x in rank && x !in more ensures RankedNode(g, rank, more, x) {
      assert RankedNode(g, rank, keys, x);
    }
  }

  /** The later memo keeps every entry of the earlier one. */
  ghost predicate Extends(before: map<Id, bool>, after: map<Id, bool>) {
    forall k :: k in before ==> k in after && after[k] == before[k]
  }

  /** x's entry is its own verdict over the memo, which holds all its children. */
  ghost predicate Settled(g: Graph, memo: map<Id, bool>, x: Id) {
    x in g && x in memo && Evaluable(g[x].conditionType) && ChildrenIn(g, x, memo.Keys) &&
    memo[x] == Combine(g, x, memo)
  }

  /** The memo keeps the initial entries, and every entry it adds is settled. */
  ghost predicate ConsistentMemo(g: Graph, init: map<Id, bool>, memo: map<Id, bool>) {
    Extends(init, memo) && forall x {:trigger Settled(g, memo, x)} :: x in memo && x !in init ==> Settled(g, memo, x)
  }

  function Elements(s: seq<Id>): set<Id> {
    set x | x in s
  }

  lemma ElementsConcat(a: seq<Id>, b: seq<Id>)
    ensures Elements(a + b) == Elements(a) + Elements(b)
  {
    assert forall x :: x in a + b <==> x in a || x in b;
  }

  /** The conditions in the order their entries were stored: each one new, and each one's
      children already present, initially or stored before it. */
  ghost predicate BottomUp(g: Graph, base: set<Id>, order: seq<Id>) {
    forall i {:trigger StoredAfterChildren(g, base, order, i)} :: 0 <= i < |order| ==>
      StoredAfterChildren(g, base, order, i)
  }

  /** The i-th stored condition is new and its children were present before it. */
  ghost predicate StoredAfterChildren(g: Graph, base: set<Id>, order: seq<Id>, i: nat)
    requires i < |order|
  {
    order[i] in g && order[i] !in base && order[i] !in order[..i] &&
    ChildrenIn(g, order[i], base + Elements(order[..i]))
  }

  /** Every stored condition ranks below the bound and is reachable from the rules. */
  ghost predicate StoredWithin(g: Graph, rank: map<Id, nat>, bound: nat, rules: set<Id>, order: seq<Id>) {
    forall i :: 0 <= i < |order| ==>
      order[i] in rank && rank[order[i]] < bound && Reachable(g, rules, order[i])
  }

  lemma Settles(g: Graph, memo: map<Id, bool>, x: Id, later: map<Id, bool>)
    requires Settled(g, memo, x) && Extends(memo, later)
    ensures Settled(g, later, x)
  {
    var cs := g[x].conditions;
    assert Lookup(cs, memo) == Lookup(cs, later);
  }

  lemma ConsistentChain(g: Graph, a: map<Id, bool>, b: map<Id, bool>, c: map<Id, bool>)
    requires ConsistentMemo(g, a, b) && ConsistentMemo(g, b, c)
    ensures ConsistentMemo(g, a, c)
  {
    forall x | x in c && x !in a ensures Settled(g, c, x) {
      if x in b {
        Settles(g, b, x, c);
      }
    }
  }

  lemma BottomUpAppend(g: Graph, base: set<Id>, first: seq<Id>, second: seq<Id>)
    requires BottomUp(g, base, first) && BottomUp(g, base + Elements(first), second)
    ensures BottomUp(g, base, first + second)
  {
    var o := first + second;
    forall i | 0 <= i < |o| ensures StoredAfterChildren(g, base, o, i) {
      if i < |first| {
        assert StoredAfterChildren(g, base, first, i);
        assert o[..i] == first[..i];
      } else {
        var k := i - |first|;
        assert StoredAfterChildren(g, base + Elements(first), second, k);
        assert o[..i] == first + second[..k];
        ElementsConcat(first, second[..k]);
      }
    }
  }

  /** Storing c's verdict after its children keeps the memo consistent. */
  lemma StoreKeepsConsistent(g: Graph, init: map<Id, bool>, tested: map<Id, bool>, memo: map<Id, bool>, c: Id)
    requires c in g && c !in memo && Evaluable(g[c].conditionType) && ChildrenIn(g, c, memo.Keys)
    requires ConsistentMemo(g, init, tested) && ConsistentMemo(g, tested, memo)
    ensures ConsistentMemo(g, init, memo[c := Combine(g, c, memo)])
  {
    var after := memo[c := Combine(g, c, memo)];
    ConsistentChain(g, init, tested, memo);
    assert Lookup(g[c].conditions, memo) == Lookup(g[c].conditions, after);
    assert Settled(g, after, c);
    forall x | x in after && x !in init ensures Settled(g, after, x) {
      if x != c {
        Settles(g, memo, x, after);
      }
    }
  }

  /** Appending c after the conditions that hold its children keeps the order bottom-up. */
  lemma StoreKeepsBottomUp(g: Graph, base: set<Id>, o: seq<Id>, c: Id)
    requires BottomUp(g, base, o) && c in g && c !in base && c !in Elements(o)
    requires ChildrenIn(g, c, base + Elements(o))
    ensures BottomUp(g, base, o + [c])
  {
    forall i | 0 <= i < |o + [c]| ensures StoredAfterChildren(g, base, o + [c], i) {
      if i < |o| {
        assert StoredAfterChildren(g, base, o, i);
        assert (o + [c])[..i] == o[..i];
      } else {
        assert (o + [c])[..i] == o;
      }
    }
  }

  /** The conditions stored for c's children, then c itself, are reachable from c. */
  lemma StoreKeepsWithin(g: Graph, rank: map<Id, nat>, c: Id, subOrder: seq<Id>)
    requires c in g && c in rank
    requires StoredWithin(g, rank, rank[c], Elements(g[c].conditions), subOrder)
    ensures StoredWithin(g, rank, rank[c] + 1, {c}, subOrder + [c])
  {
    var o := subOrder + [c];
    forall i | 0 <= i < |o|
      ensures o[i] in rank && rank[o[i]] < rank[c] + 1 && Reachable(g, {c}, o[i])
    {
      if i < |subOrder| {
        assert o[i] == subOrder[i];
        assert Reachable(g, Elements(g[c].conditions), o[i]);
        ReachableVia(g, {c}, c, Elements(g[c].conditions), o[i]);
      } else {
        ReachableRoot(g, {c}, c);
      }
    }
  }

  /** What one rule stores is reachable from the rules. */
  lemma StoredWithinAppend(g: Graph, rank: map<Id, nat>, bound: nat, rules: set<Id>,
                           order: seq<Id>, c: Id, more: seq<Id>)
    requires c in rules && c in rank && rank[c] < bound
    requires StoredWithin(g, rank, bound, rules, order)
    requires StoredWithin(g, rank, rank[c] + 1, {c}, more)
    ensures StoredWithin(g, rank, bound, rules, order + more)
  {
    var o := order + more;
    forall i | 0 <= i < |o|
      ensures o[i] in rank && rank[o[i]] < bound && Reachable(g, rules, o[i])
    {
      if i < |order| {
        assert o[i] == order[i];
      } else {
        var y := more[i - |order|];
        assert o[i] == y;
        assert Reachable(g, {c}, y);
        var p :| IsPath(g, p) && p[0] in {c} && p[|p| - 1] == y;
      }
    }
  }

  /** testAllConditionsRecursive: for each rule not yet in the memo (a null memo is empty),
      first tests its children, then stores the rule's own verdict. Existing entries are never
      overwritten. The ghost ranking of the conditions the recursion enters, those outside the
      memo, is what it needs to stop. */
  method TestAllConditionsRecursive(g: Graph, rules: set<Id>, initial: Option<map<Id, bool>>,
                                    ghost rank: map<Id, nat>, ghost bound: nat)
    returns (tested: map<Id, bool>, ghost order: seq<Id>)
    requires RankedOutside(g, rank, initial.GetOr(map[]).Keys) && rules <= g.Keys
    requires forall x :: x in rules && x !in initial.GetOr(map[]) ==> x in rank && rank[x] < bound
    ensures ConsistentMemo(g, initial.GetOr(map[]), tested)
    ensures rules <= tested.Keys
    ensures tested.Keys == initial.GetOr(map[]).Keys + Elements(order)
    ensures BottomUp(g, initial.GetOr(map[]).Keys, order)
    ensures StoredWithin(g, rank, bound, rules, order)
    decreases bound, 0
  {
    var init := initial.GetOr(map[]);
    tested := init;
    order := [];
    var rest := rules;
    while rest != {}
      invariant rest <= rules && rules - rest <= tested.Keys
      invariant Progress(g, rank, bound, rules, init, tested, order)
      decreases |rest|
    {
      var c :| c in rest;
      if c !in tested {
        ghost var before := tested;
        ghost var more;
        RankedOutsideMore(g, rank, init.Keys, tested.Keys);
        tested, more := TestCondition(g, c, tested, rank);
        ProgressStep(g, rank, bound, rules, init, before, order, c, tested, more);
        order := order + more;
      }
      rest := rest - {c};
    }
  }

  /** What testAllConditionsRecursive's loop keeps: the memo is consistent with the
      evaluation, and its new entries were stored bottom-up from the rules' reach. */
  ghost predicate Progress(g: Graph, rank: map<Id, nat>, bound: nat, rules: set<Id>,
                           init: map<Id, bool>, tested: map<Id, bool>, order: seq<Id>) {
    ConsistentMemo(g, init, tested) && tested.Keys == init.Keys + Elements(order)
    && BottomUp(g, init.Keys, order) && StoredWithin(g, rank, bound, rules, order)
  }

  /** One rule's nested evaluation keeps the loop's progress. */
  lemma ProgressStep(g: Graph, rank: map<Id, nat>, bound: nat, rules: set<Id>, init: map<Id, bool>,
                     before: map<Id, bool>, order: seq<Id>, c: Id, after: map<Id, bool>, more: seq<Id>)
    requires Progress(g, rank, bound, rules, init, before, order)
    requires c in rules && c in rank && rank[c] < bound
    requires ConsistentMemo(g, before, after) && after.Keys == before.Keys + Elements(more)
    requires BottomUp(g, before.Keys, more) && StoredWithin(g, rank, rank[c] + 1, {c}, more)
    ensures Progress(g, rank, bound, rules, init, after, order + more)
  {
    ConsistentChain(g, init, before, after);
    BottomUpAppend(g, init.Keys, order, more);
    StoredWithinAppend(g, rank, bound, rules, order, c, more);
    ElementsConcat(order, more);
  }

  /** The body of testAllConditionsRecursive's loop for a rule c that is not in the memo: the
      nested call for c's children, then c's own verdict stored in the same memo. */
  method TestCondition(g: Graph, c: Id, tested: map<Id, bool>, ghost rank: map<Id, nat>)
    returns (after: map<Id, bool>, ghost order: seq<Id>)
    requires RankedOutside(g, rank, tested.Keys) && c in rank && c !in tested
    ensures ConsistentMemo(g, tested, after) && c in after
    ensures after.Keys == tested.Keys + Elements(order)
    ensures BottomUp(g, tested.Keys, order)
    ensures StoredWithin(g, rank, rank[c] + 1, {c}, order)
    decreases rank[c], 1
  {
    assert RankedNode(g, rank, tested.Keys, c);
    var children := Elements(g[c].conditions);
    var memo, subOrder := TestAllConditionsRecursive(g, children, Some(tested), rank, rank[c]);
    assert c !in Elements(subOrder);
    StoreKeepsConsistent(g, tested, tested, memo, c);
    StoreKeepsBottomUp(g, tested.Keys, subOrder, c);
    StoreKeepsWithin(g, rank, c, subOrder);
    ElementsConcat(subOrder, [c]);
    assert Elements([c]) == {c};
    after := memo[c := IsSatisfied(g, c, Some(memo)).value];
    order := subOrder + [c];
  }

  /** Along a walk from a ranked condition that meets no memo key before its last step the rank
      falls, so the walk does not come back to its start: every cycle of child references
      the recursion could enter passes through the memo. */
  lemma {:induction false} RankedHasNoCycle(g: Graph, rank: map<Id, nat>, keys: set<Id>, p: seq<Id>)
    requires RankedOutside(g, rank, keys) && IsPath(g, p) && |p| > 1
    requires p[0] in rank && forall i :: 0 <= i < |p| - 1 ==> p[i] !in keys
    ensures p[|p| - 1] in keys || (p[|p| - 1] in rank && rank[p[|p| - 1]] < rank[p[0]])
    ensures p[|p| - 1] != p[0]
    decreases |p|
  {
    assert RankedNode(g, rank, keys, p[0]);
    assert p[1] in g[p[0]].conditions;
    if |p| > 2 {
      assert p[1] !in keys;
      RankedHasNoCycle(g, rank, keys, p[1..]);
    }
  }

  /** Two conditions that name each other, the second already tested: ranking the first alone
      bounds the recursion, and its reference verdict is AND over the stored entry. */
  lemma CycleThroughMemoRanked()
    ensures var g := map[0 := Condition([1], AND, false, DEFAULT_CHANCE, 0, 0),
                         1 := Condition([0], AND, false, DEFAULT_CHANCE, 0, 0)];
            RankedOutside(g, map[0 := 0], {1}) && EvalNode(g, map[1 := true], map[0 := 0], 0)
  {
    var g := map[0 := Condition([1], AND, false, DEFAULT_CHANCE, 0, 0),
                 1 := Condition([0], AND, false, DEFAULT_CHANCE, 0, 0)];
    assert RankedNode(g, map[0 := 0], {1}, 0);
  }

  // ---------------------------------------------------------------- reference semantics

  /** The reference semantics of a condition: its initial entry when it has one, and otherwise
      its combinator over its children's verdicts, negated by invert. */
  ghost function EvalNode(g: Graph, init: map<Id, bool>, rank: map<Id, nat>, x: Id): bool
    requires RankedOutside(g, rank, init.Keys) && (x in init || x in rank)
    decreases if x in init then 0 else rank[x] + 1
  {
    if x in init then init[x]
    else
      assert RankedNode(g, rank, init.Keys, x);
      var cs := g[x].conditions;
      var verdicts := seq(|cs|, i requires 0 <= i < |cs| => EvalNode(g, init, rank, cs[i]));
      Evaluate(Decode(g[x].conditionType), verdicts) != g[x].invert
  }

  /** Every entry of a consistent memo is the reference verdict of its condition. */
  lemma {:induction false} MemoAgreesWithEval(g: Graph, init: map<Id, bool>, rank: map<Id, nat>,
                                              memo: map<Id, bool>, x: Id)
    requires RankedOutside(g, rank, init.Keys) && ConsistentMemo(g, init, memo)
    requires x in memo && (x in init || x in rank)
    ensures memo[x] == EvalNode(g, init, rank, x)
    decreases if x in init then 0 else rank[x] + 1
  {
    if x !in init {
      assert Settled(g, memo, x);
      assert RankedNode(g, rank, init.Keys, x);
      var cs := g[x].conditions;
      forall i | 0 <= i < |cs| ensures memo[cs[i]] == EvalNode(g, init, rank, cs[i]) {
        MemoAgreesWithEval(g, init, rank, memo, cs[i]);
      }
      assert Lookup(cs, memo) == seq(|cs|, i requires 0 <= i < |cs| => EvalNode(g, init, rank, cs[i]));
    }
  }

  /** After testAllConditionsRecursive, isSatisfied of every rule answers from the memo with
      the rule's reference verdict. */
  lemma SatisfiedAfterTestAll(g: Graph, rules: set<Id>, init: map<Id, bool>, rank: map<Id, nat>,
                              tested: map<Id, bool>)
    requires RankedOutside(g, rank, init.Keys)
    requires rules <= g.Keys && forall r :: r in rules && r !in init ==> r in rank
    requires ConsistentMemo(g, init, tested) && rules <= tested.Keys
    ensures forall r :: r in rules ==> IsSatisfied(g, r, Some(tested)) == Ok(EvalNode(g, init, rank, r))
  {
    forall r | r in rules ensures IsSatisfied(g, r, Some(tested)) == Ok(EvalNode(g, init, rank, r)) {
      MemoAgreesWithEval(g, init, rank, tested, r);
    }
  }

  /** With a closed initial memo (a null one in particular), testAllConditionsRecursive leaves
      an entry for every condition reachable from the rules. */
  lemma TestedCoversReachable(g: Graph, init: set<Id>, rules: set<Id>, tested: set<Id>, order: seq<Id>)
    requires ClosedIn(g, init) && rules <= tested
    requires tested == init + Elements(order) && BottomUp(g, init, order)
    ensures forall y :: Reachable(g, rules, y) ==> y in tested
  {
    forall x | x in tested && x in g ensures ChildrenIn(g, x, tested) {
      if x in init {
        assert ChildrenIn(g, x, init);
      } else {
        var i :| 0 <= i < |order| && order[i] == x;
        assert StoredAfterChildren(g, init, order, i);
        assert Elements(order[..i]) <= Elements(order);
      }
    }
    assert ClosedIn(g, tested);
    forall y | Reachable(g, rules, y) ensures y in tested {
      ClosedContainsReachable(g, tested, rules, y);
    }
  }
}
