/** The typing-behaviour rules: which behaviours one keystroke shows, given the state
    before it, the state after it, and the recent history, and the bounded history
    itself. */
module BehaviorDetection {
  import opened Wrappers
  import opened Personality

  /** `MAX_HISTORY_LENGTH`. */
  const MaxHistory: nat := 20

  /** The position of each rule in the order `detectBehaviors` applies them. */
  function Rank(b: Behavior): nat {
    match b
    case StartedTyping => 0
    case ClearedAll => 1
    case PastedBig => 2
    case AddedTld => 3
    case RemovedTld => 4
    case FixedError => 5
    case BrokeValidity => 6
    case Oscillating => 7
    case HasSpaces => 8
    case HasPort => 9
    case HasSwearwords => 10
    case TooShort => 11
    case DotWithoutTld => 12
    case UsingHttp => 13
    case Typing => 14
  }

  /** Strictly increasing rank: the rules' order, each behaviour at most once. */
  predicate InRuleOrder(r: seq<Behavior>) {
    forall i, j :: 0 <= i < j < |r| ==> Rank(r[i]) < Rank(r[j])
  }

  /** The rules of the non-empty path, in the order `detectBehaviors` checks them. */
  const RuleOrder: seq<Behavior> := [
    StartedTyping, PastedBig, AddedTld, RemovedTld, FixedError, BrokeValidity,
    Oscillating, HasSpaces, HasPort, HasSwearwords, TooShort, DotWithoutTld, UsingHttp]

  /** Where rule `b` stands in `RuleOrder`. */
  function RuleIndex(b: Behavior): (k: nat)
    requires b != Typing && b != ClearedAll
    ensures k < |RuleOrder| && RuleOrder[k] == b
  {
    match b
    case StartedTyping => 0
    case PastedBig => 1
    case AddedTld => 2
    case RemovedTld => 3
    case FixedError => 4
    case BrokeValidity => 5
    case Oscillating => 6
    case HasSpaces => 7
    case HasPort => 8
    case HasSwearwords => 9
    case TooShort => 10
    case DotWithoutTld => 11
    case UsingHttp => 12
  }

  lemma RuleOrderIsOrdered()
    ensures InRuleOrder(RuleOrder)
    ensures Typing !in RuleOrder && ClearedAll !in RuleOrder
  {
  }

  /** `!prev || !prev.value`: nothing was typed before this keystroke. */
  predicate StartsEmpty(prev: Option<InputState>) {
    prev.None? || prev.value.value == ""
  }

  /** The value three entries back in the history comes back. */
  predicate Oscillates(next: InputState, history: seq<InputState>) {
    |history| >= 3 && history[|history| - 3].value == next.value
  }

  /** The guard of each `behaviors.push` on the non-empty path, aligned with
      `RuleOrder`. The comparisons with the previous state sit under `if (prev)`. */
  function Guards(prev: Option<InputState>, next: InputState, history: seq<InputState>): (g: seq<bool>)
    ensures |g| == |RuleOrder|
  {
    var some := prev.Some?;
    var p := if some then prev.value.flags else next.flags;
    var grew := some && |next.value| - |prev.value.value| > 10;
    var f := next.flags;
    [ StartsEmpty(prev),
      grew,
      some && !p.hasTld && f.hasTld,
      some && p.hasTld && !f.hasTld,
      some && !p.valid && f.valid,
      some && p.valid && !f.valid,
      Oscillates(next, history),
      f.hasSpaces,
      f.hasPort && next.parsed.Some?,
      f.hasSwearwords,
      f.isShort && f.valid,
      f.dotWithoutTld,
      f.isHttp && f.valid ]
  }

  /** The rules whose guard holds, in order: the sequence of guarded pushes. */
  function Select(g: seq<bool>, rules: seq<Behavior>): (r: seq<Behavior>)
    requires |g| == |rules|
    ensures forall b :: b in r ==> b in rules
  {
    if |rules| == 0 then []
    else (if g[0] then [rules[0]] else []) + Select(g[1..], rules[1..])
  }

  /** A rule of an ordered list is selected exactly when its own guard holds. */
  lemma {:induction false} SelectMembership(g: seq<bool>, rules: seq<Behavior>, k: nat)
    requires |g| == |rules| && k < |rules| && InRuleOrder(rules)
    ensures rules[k] in Select(g, rules) <==> g[k]
    decreases |rules|
  {
    var rest := Select(g[1..], rules[1..]);
    if k == 0 {
      assert rules[0] !in rules[1..] by {
        forall i | 0 <= i < |rules| - 1 ensures rules[1..][i] != rules[0] {
          assert Rank(rules[0]) < Rank(rules[i + 1]);
        }
      }
    } else {
      assert rules[k] == rules[1..][k - 1];
      SelectMembership(g[1..], rules[1..], k - 1);
      if g[0] {
        assert Rank(rules[0]) < Rank(rules[k]);
      }
    }
  }

  /** Selecting from an ordered list keeps it ordered. */
  lemma {:induction false} SelectInRuleOrder(g: seq<bool>, rules: seq<Behavior>)
    requires |g| == |rules| && InRuleOrder(rules)
    ensures InRuleOrder(Select(g, rules))
    decreases |rules|
  {
    if |rules| > 0 {
      var rest := Select(g[1..], rules[1..]);
      SelectInRuleOrder(g[1..], rules[1..]);
      if g[0] {
        var r := [rules[0]] + rest;
        forall i, j | 0 <= i < j < |r| ensures Rank(r[i]) < Rank(r[j]) {
          if i == 0 {
            assert r[j] == rest[j - 1] && r[j] in rules[1..];
            var m :| 0 <= m < |rules[1..]| && rules[1..][m] == r[j];
            assert Rank(rules[0]) < Rank(rules[m + 1]);
          } else {
            assert r[i] == rest[i - 1] && r[j] == rest[j - 1];
          }
        }
      }
    }
  }

  /** The rules that apply to a keystroke that leaves the input non-empty, in order. */
  function Rules(prev: Option<InputState>, next: InputState, history: seq<InputState>): (r: seq<Behavior>)
    ensures InRuleOrder(r)
    ensures Typing !in r && ClearedAll !in r
  {
    RuleOrderIsOrdered();
    SelectInRuleOrder(Guards(prev, next, history), RuleOrder);
    Select(Guards(prev, next, history), RuleOrder)
  }

  /** `detectBehaviors`: an emptied input is `typing` or `cleared_all` alone; otherwise
      every rule that applies, in rule order, or `typing` when none does. */
  function DetectBehaviors(prev: Option<InputState>, next: InputState, history: seq<InputState>): (r: seq<Behavior>)
    ensures |r| > 0
    ensures InRuleOrder(r)
    ensures Typing in r ==> r == [Typing]
    ensures ClearedAll in r ==> r == [ClearedAll]
  {
    if next.value == "" then
      if StartsEmpty(prev) then [Typing] else [ClearedAll]
    else
      var rules := Rules(prev, next, history);
      if rules == [] then [Typing] else rules
  }

  /** Whether rule `b` applies to the keystroke on its own terms, independently of the
      other rules (`typing` aside, which is what is left when nothing else applies). */
  predicate Applies(prev: Option<InputState>, next: InputState, history: seq<InputState>, b: Behavior) {
    var typed := next.value != "";
    var f := next.flags;
    match b
    case StartedTyping => typed && StartsEmpty(prev)
    case ClearedAll => !typed && !StartsEmpty(prev)
    case PastedBig => typed && prev.Some? && |next.value| - |prev.value.value| > 10
    case AddedTld => typed && prev.Some? && !prev.value.flags.hasTld && f.hasTld
    case RemovedTld => typed && prev.Some? && prev.value.flags.hasTld && !f.hasTld
    case FixedError => typed && prev.Some? && !prev.value.flags.valid && f.valid
    case BrokeValidity => typed && prev.Some? && prev.value.flags.valid && !f.valid
    case Oscillating => typed && Oscillates(next, history)
    case HasSpaces => typed && f.hasSpaces
    case HasPort => typed && f.hasPort && next.parsed.Some?
    case HasSwearwords => typed && f.hasSwearwords
    case TooShort => typed && f.isShort && f.valid
    case DotWithoutTld => typed && f.dotWithoutTld
    case UsingHttp => typed && f.isHttp && f.valid
    case Typing => false
  }

  /** The guard of a rule says the same as its own condition once the input is
      non-empty. */
  lemma GuardsAgree(prev: Option<InputState>, next: InputState, history: seq<InputState>, b: Behavior)
    requires next.value != "" && b != Typing && b != ClearedAll
    ensures Guards(prev, next, history)[RuleIndex(b)] == Applies(prev, next, history, b)
  {
    var g := Guards(prev, next, history);
    match b {
      case StartedTyping =>
      case PastedBig =>
      case AddedTld =>
      case RemovedTld =>
      case FixedError =>
      case BrokeValidity =>
      case Oscillating =>
      case HasSpaces =>
      case HasPort =>
      case HasSwearwords =>
      case TooShort =>
      case DotWithoutTld =>
      case UsingHttp =>
    }
  }

  /** Membership of a rule in the result of `Rules`. */
  lemma RulesMembership(prev: Option<InputState>, next: InputState, history: seq<InputState>, b: Behavior)
    requires next.value != "" && b != Typing && b != ClearedAll
    ensures b in Rules(prev, next, history) <==> Applies(prev, next, history, b)
  {
    RuleOrderIsOrdered();
    SelectMembership(Guards(prev, next, history), RuleOrder, RuleIndex(b));
    GuardsAgree(prev, next, history, b);
  }

  /** The result holds exactly the rules that apply. */
  lemma DetectBehaviorsMembership(prev: Option<InputState>, next: InputState, history: seq<InputState>, b: Behavior)
    requires b != Typing
    ensures b in DetectBehaviors(prev, next, history) <==> Applies(prev, next, history, b)
  {
    if next.value != "" && b != ClearedAll {
      RulesMembership(prev, next, history, b);
    }
  }

  /** The result is `typing` exactly when no rule applies. */
  lemma TypingWhenNothingApplies(prev: Option<InputState>, next: InputState, history: seq<InputState>)
    ensures Typing in DetectBehaviors(prev, next, history) <==>
              forall x :: !Applies(prev, next, history, x)
  {
    var r := DetectBehaviors(prev, next, history);
    if Typing in r {
      forall x ensures !Applies(prev, next, history, x) {
        if x != Typing {
          DetectBehaviorsMembership(prev, next, history, x);
        }
      }
    } else {
      assert r[0] in r && r[0] != Typing;
      DetectBehaviorsMembership(prev, next, history, r[0]);
    }
  }

  /** The two emptied-input answers. */
  lemma EmptiedInput(prev: Option<InputState>, next: InputState, history: seq<InputState>)
    requires next.value == ""
    ensures StartsEmpty(prev) ==> DetectBehaviors(prev, next, history) == [Typing]
    ensures !StartsEmpty(prev) ==> DetectBehaviors(prev, next, history) == [ClearedAll]
  {
  }

  /** The paired rules exclude each other. */
  lemma OpposedRulesExclusive(prev: Option<InputState>, next: InputState, history: seq<InputState>)
    ensures var r := DetectBehaviors(prev, next, history);
            !(AddedTld in r && RemovedTld in r) && !(FixedError in r && BrokeValidity in r)
  {
    DetectBehaviorsMembership(prev, next, history, AddedTld);
    DetectBehaviorsMembership(prev, next, history, RemovedTld);
    DetectBehaviorsMembership(prev, next, history, FixedError);
    DetectBehaviorsMembership(prev, next, history, BrokeValidity);
  }

  /** `too_short` and `using_http` are reported only for a valid URL. */
  lemma ValidityGatedRules(prev: Option<InputState>, next: InputState, history: seq<InputState>, b: Behavior)
    requires b == TooShort || b == UsingHttp
    ensures b in DetectBehaviors(prev, next, history) ==> next.flags.valid
  {
    DetectBehaviorsMembership(prev, next, history, b);
  }

  /** `has_port` is reported only when the input parsed as a URL. */
  lemma PortNeedsParsedUrl(prev: Option<InputState>, next: InputState, history: seq<InputState>)
    ensures HasPort in DetectBehaviors(prev, next, history) ==> next.flags.hasPort && next.parsed.Some?
  {
    DetectBehaviorsMembership(prev, next, history, HasPort);
  }

  /** `pasted_big` is a growth of more than ten characters over a previous state, and
      `oscillating` a non-empty return to the value three entries back. */
  lemma GrowthAndReturnRules(prev: Option<InputState>, next: InputState, history: seq<InputState>)
    ensures var r := DetectBehaviors(prev, next, history);
            && (PastedBig in r <==> prev.Some? && |next.value| - |prev.value.value| > 10)
            && (Oscillating in r <==> next.value != "" && Oscillates(next, history))
  {
    DetectBehaviorsMembership(prev, next, history, PastedBig);
    DetectBehaviorsMembership(prev, next, history, Oscillating);
  }

  /** `detectBehavior`: the first behaviour `detectBehaviors` reports, which is the
      applying rule that comes first in rule order, or `typing` when none applies. */
  function DetectBehavior(prev: Option<InputState>, next: InputState, history: seq<InputState>): (b: Behavior)
    ensures b in DetectBehaviors(prev, next, history)
    ensures forall x :: x in DetectBehaviors(prev, next, history) ==> Rank(b) <= Rank(x)
  {
    var r := DetectBehaviors(prev, next, history);
    assert forall x :: x in r ==> Rank(r[0]) <= Rank(x) by {
      forall x | x in r ensures Rank(r[0]) <= Rank(x) {
        var k :| 0 <= k < |r| && r[k] == x;
        assert k == 0 || Rank(r[0]) < Rank(r[k]);
      }
    }
    r[0]
  }

  /** `detectBehavior` picks, among the rules that apply, the one the rules check first. */
  lemma DetectBehaviorFirstApplying(prev: Option<InputState>, next: InputState, history: seq<InputState>, x: Behavior)
    requires Applies(prev, next, history, x)
    ensures Applies(prev, next, history, DetectBehavior(prev, next, history))
    ensures Rank(DetectBehavior(prev, next, history)) <= Rank(x)
  {
    var b := DetectBehavior(prev, next, history);
    assert x != Typing;
    DetectBehaviorsMembership(prev, next, history, x);
    if b == Typing {
      TypingWhenNothingApplies(prev, next, history);
    } else {
      DetectBehaviorsMembership(prev, next, history, b);
    }
  }

  /** `createInitialState`. */
  function InitialState(): (s: InputState)
    ensures s.value == "" && s.parsed.None? && !s.flags.valid
  {
    InputState("", None, UrlFlags(false, false, false, false, false, false, false, false))
  }

  /** The first character typed into a fresh input is `started_typing`. */
  lemma FirstKeystrokeStartsTyping(next: InputState, history: seq<InputState>)
    requires next.value != ""
    ensures DetectBehavior(Some(InitialState()), next, history) == StartedTyping
  {
    DetectBehaviorFirstApplying(Some(InitialState()), next, history, StartedTyping);
  }

  /** `updateHistory`: the new state appended, keeping only the last `MaxHistory`. */
  function UpdateHistory(history: seq<InputState>, newState: InputState): (h: seq<InputState>)
    ensures |h| == if |history| + 1 > MaxHistory then MaxHistory else |history| + 1
    ensures h == (history + [newState])[|history| + 1 - |h|..]
    ensures h[|h| - 1] == newState
  {
    var updated := history + [newState];
    if |updated| > MaxHistory then updated[|updated| - MaxHistory..] else updated
  }

  /** The last `n` entries of `s`, or all of them. */
  function LastN(s: seq<InputState>, n: nat): (r: seq<InputState>)
    ensures |r| <= n && |r| <= |s|
  {
    if |s| > n then s[|s| - n..] else s
  }

  /** Recording keystrokes one at a time. */
  function UpdateAll(history: seq<InputState>, states: seq<InputState>): seq<InputState>
    decreases |states|
  {
    if |states| == 0 then history
    else UpdateAll(UpdateHistory(history, states[0]), states[1..])
  }

  /** However many keystrokes are recorded, the history is the last `MaxHistory` of all
      states seen. */
  lemma {:induction false} UpdateAllKeepsLast(history: seq<InputState>, states: seq<InputState>)
    requires |history| <= MaxHistory
    ensures UpdateAll(history, states) == LastN(history + states, MaxHistory)
    decreases |states|
  {
    if |states| == 0 {
      assert history + states == history;
    } else {
      var h := UpdateHistory(history, states[0]);
      UpdateAllKeepsLast(h, states[1..]);
      var all := history + states;
      assert (history + [states[0]]) + states[1..] == all;
      LastNOfSuffix(history + [states[0]], states[1..], |history| + 1 - |h|);
    }
  }

  /** Dropping a prefix that leaves at least `MaxHistory` entries does not change the
      last `MaxHistory`. */
  lemma LastNOfSuffix(a: seq<InputState>, b: seq<InputState>, k: nat)
    requires k <= |a| && (k > 0 ==> |a| - k == MaxHistory)
    ensures LastN(a[k..] + b, MaxHistory) == LastN(a + b, MaxHistory)
  {
    if k > 0 {
      assert a[k..] + b == (a + b)[k..];
    }
  }
}
