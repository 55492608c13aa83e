/** The message engine of the URL input: which behaviours get a message, in which
    order, how several messages are joined into one, and which source of messages wins.
    The mood packs and the pair templates are data the engine only looks up, so they
    are parameters; every call of `random` draws from its own roll. */
module MessageEngine {
  import opened Wrappers
  import opened Strings
  import opened Personality

  /** The roll at position `i`, or 0 past the end. */
  function Roll(rolls: seq<nat>, i: nat): nat {
    if i < |rolls| then rolls[i] else 0
  }

  /** `random(array)` on a non-empty array: `Math.floor(Math.random() * n)` is some
      index below `n`, which the roll names. */
  function Pick(xs: seq<string>, roll: nat): (x: string)
    requires |xs| > 0
    ensures x in xs
  {
    xs[roll % |xs|]
  }

  /** `random(array)` on any array: `undefined` for an empty one. */
  function PickAny(xs: seq<string>, roll: nat): (x: Option<string>)
    ensures x.Some? <==> |xs| > 0
    ensures x.Some? ==> x.value in xs
  {
    if |xs| == 0 then None else Some(Pick(xs, roll))
  }

  // ---------------------------------------------------------------------------
  // Capitalisation and punctuation

  /** `normalizeForCombination`: a message that goes second in a sentence starts in
      lower case, unless it opens with `?` or `!`. */
  function NormalizeForCombination(msg: string): (r: string)
    ensures |r| == |msg|
    ensures |msg| > 0 ==> r[1..] == msg[1..]
    ensures |msg| > 0 && (msg[0] == '?' || msg[0] == '!') ==> r == msg
    ensures |msg| > 0 ==> r[0] == AsciiLower(msg[0])
  {
    if |msg| == 0 || msg[0] == '?' || msg[0] == '!' then msg
    else [AsciiLower(msg[0])] + msg[1..]
  }

  /** Normalising a message that is already normalised changes nothing. */
  lemma NormalizeIdempotent(msg: string)
    ensures NormalizeForCombination(NormalizeForCombination(msg)) == NormalizeForCombination(msg)
  {
    var r := NormalizeForCombination(msg);
    if |msg| > 0 {
      assert NormalizeForCombination(r)[1..] == r[1..];
      assert NormalizeForCombination(r)[0] == AsciiLower(r[0]) == r[0];
    }
  }

  predicate IsPunctuation(c: char) {
    c == '.' || c == '!' || c == '?'
  }

  /** `msg[k]` is punctuation and only whitespace follows it. */
  predicate PunctuatedAt(msg: string, k: int) {
    0 <= k < |msg| && IsPunctuation(msg[k]) && forall j :: k < j < |msg| ==> IsJsSpace(msg[j])
  }

  /** `endsWithPunctuation`: the last character that is not whitespace is `.`, `!` or
      `?`. */
  function EndsWithPunctuation(msg: string): (b: bool)
    ensures b <==> exists k :: PunctuatedAt(msg, k)
  {
    var t := Trim(msg);
    if |t| > 0 && IsPunctuation(t[|t| - 1]) then
      TrimmedEndIsPunctuated(msg);
      true
    else
      assert forall k :: !PunctuatedAt(msg, k) by {
        forall k | PunctuatedAt(msg, k) ensures false {
          PunctuatedIsTrimmedEnd(msg, k);
        }
      }
      false
  }

  /** The last character of the trimmed message sits where only whitespace follows. */
  lemma TrimmedEndIsPunctuated(msg: string)
    requires |Trim(msg)| > 0 && IsPunctuation(Trim(msg)[|Trim(msg)| - 1])
    ensures PunctuatedAt(msg, |msg| - |TrimStart(msg)| + |Trim(msg)| - 1)
  {
    TrimLast(msg);
  }

  /** A punctuation mark followed only by whitespace ends the trimmed message. */
  lemma PunctuatedIsTrimmedEnd(msg: string, k: int)
    requires PunctuatedAt(msg, k)
    ensures |Trim(msg)| > 0 && Trim(msg)[|Trim(msg)| - 1] == msg[k]
  {
    TrimLast(msg);
    var t := Trim(msg);
    var e := |msg| - |TrimStart(msg)| + |t|;
    assert !IsJsSpace(msg[k]);
    assert !AllSpace(msg);
    assert |t| > 0;
  }

  // ---------------------------------------------------------------------------
  // Combining messages

  /** The three behaviour pairs that have a joint template. */
  datatype Pair = SpacesAndHttp | ShortAndHttp | SpacesAndSwearwords

  /** The unordered pairs `getContextualCombination` recognises. */
  const ContextualPairs: set<set<Behavior>> :=
    {{HasSpaces, UsingHttp}, {TooShort, UsingHttp}, {HasSpaces, HasSwearwords}}

  /** Which joint template a pair of behaviours has, in either order. */
  function PairOf(b1: Behavior, b2: Behavior): (p: Option<Pair>)
    ensures p.Some? <==> {b1, b2} in ContextualPairs
  {
    if (b1 == HasSpaces && b2 == UsingHttp) || (b1 == UsingHttp && b2 == HasSpaces) then
      assert {b1, b2} == {HasSpaces, UsingHttp};
      Some(SpacesAndHttp)
    else if (b1 == TooShort && b2 == UsingHttp) || (b1 == UsingHttp && b2 == TooShort) then
      assert {b1, b2} == {TooShort, UsingHttp};
      Some(ShortAndHttp)
    else if (b1 == HasSpaces && b2 == HasSwearwords) || (b1 == HasSwearwords && b2 == HasSpaces) then
      assert {b1, b2} == {HasSpaces, HasSwearwords};
      Some(SpacesAndSwearwords)
    else
      None
  }

  /** The order of the pair does not matter. */
  lemma PairOfSymmetric(b1: Behavior, b2: Behavior)
    ensures PairOf(b1, b2) == PairOf(b2, b1)
  {
  }

  /** The joint templates, per pair and mood. */
  type Templates = (Pair, Mood) -> seq<string>

  /** `getContextualCombination`: a template for a recognised pair, when there is a
      non-empty one to draw. */
  function Contextual(b1: Behavior, b2: Behavior, mood: Mood, templates: Templates, roll: nat): (r: Option<string>)
    ensures r.Some? ==> PairOf(b1, b2).Some? && r.value in templates(PairOf(b1, b2).value, mood) && r.value != ""
    ensures PairOf(b1, b2).None? ==> r.None?
  {
    match PairOf(b1, b2)
    case None => None
    case Some(p) =>
      var t := PickAny(templates(p, mood), roll);
      if t.Some? && t.value != "" then t else None
  }

  /** The connectors between two messages. */
  function PairConnectors(mood: Mood): (cs: seq<string>)
    ensures |cs| > 0
  {
    match mood
    case Sassy => [" Also,", " Plus,", " And", " Oh, and", " Not to mention,"]
    case Bored => [" Also,", " Plus,", " And", " On top of that,"]
    case Bruh => [" Also,", " Bruh,", " And", " Plus, bruh,"]
    case Bro => [" Also,", " Plus,", " And", " Not only that,"]
    case Party => [" ALSO!", " PLUS!", " AND", " NOT TO MENTION!"]
    case Chill => [" Also,", " Plus,", " And", " On top of that,"]
    case Wholesome => [" Also,", " Plus,", " And", " Not only that,"]
  }

  /** The connectors inside a list of three or more messages; the three-message table
      and the longer-list table are the same. */
  function ListConnectors(mood: Mood): (cs: seq<string>)
    ensures |cs| > 0
  {
    match mood
    case Sassy => [" Also,", " Plus,", " And", " Oh, and"]
    case Bruh => [" Also,", " Bruh,", " And"]
    case Party => [" ALSO!", " PLUS!", " AND"]
    case _ => [" Also,", " Plus,", " And"]
  }

  /** The connectors before the third of three messages. */
  function FinalConnectors(mood: Mood): (cs: seq<string>)
    ensures |cs| > 0
  {
    match mood
    case Sassy => [" And", " Plus,", " Oh, and"]
    case Bruh => [" And", " Bruh,", " Plus,"]
    case Party => [" AND", " PLUS!"]
    case _ => [" And", " Plus,"]
  }

  /** The loop over the messages after the first, given the connector drawn on each
      pass: every message normalised after its connector and a space, except the last,
      which follows ` and ` (its connector is drawn but unused). */
  function ListBody(rest: seq<string>, cs: seq<string>): (r: string)
    requires |rest| >= 1 && |cs| >= |rest| - 1
    ensures EndsWith(r, " and " + NormalizeForCombination(rest[|rest| - 1]))
    decreases |rest|
  {
    if |rest| == 1 then " and " + NormalizeForCombination(rest[0])
    else
      var piece := cs[0] + " " + NormalizeForCombination(rest[0]);
      var tail := ListBody(rest[1..], cs[1..]);
      EndsWithPrepend(piece, tail, " and " + NormalizeForCombination(rest[|rest| - 1]));
      piece + tail
  }

  /** `r` is the first message followed by the list shape of the others, for some
      choice of list connectors. */
  ghost predicate ListJoin(messages: seq<string>, mood: Mood, r: string)
    requires |messages| >= 2
  {
    exists cs :: IsListDraw(cs, |messages| - 1, mood) && r == messages[0] + ListBody(messages[1..], cs)
  }

  /** `n` connectors, each from the mood's list table. */
  predicate IsListDraw(cs: seq<string>, n: int, mood: Mood) {
    |cs| == n && forall j :: 0 <= j < |cs| ==> cs[j] in ListConnectors(mood)
  }

  /** The connectors the loop draws from the `i`th pass on, one roll per pass. */
  function Drawn(mood: Mood, rolls: seq<nat>, i: nat, n: nat): (cs: seq<string>)
    ensures IsListDraw(cs, n, mood)
    decreases n
  {
    if n == 0 then [] else [Pick(ListConnectors(mood), Roll(rolls, 1 + i))] + Drawn(mood, rolls, i + 1, n - 1)
  }

  /** One message off the front of the list shape. */
  lemma ListBodyStep(r: seq<string>, cs: seq<string>, c: string, tail: string)
    requires |r| >= 2 && |cs| >= |r| - 1 && cs[0] == c
    requires tail == ListBody(r[1..], cs[1..])
    ensures ListBody(r, cs) == (c + " " + NormalizeForCombination(r[0])) + tail
  {
  }

  /** `r` is the first message, then `c1`, a space and the second message normalised,
      then `c2`, a space and the third message normalised. */
  predicate ThreeJoinWith(m0: string, m1: string, m2: string, mood: Mood, r: string, c1: string, c2: string) {
    && c1 in ListConnectors(mood) && c2 in FinalConnectors(mood)
    && r == m0 + (c1 + " " + NormalizeForCombination(m1) + c2 + " " + NormalizeForCombination(m2))
  }

  /** `r` is the three messages joined by a list connector and a final connector. */
  ghost predicate ThreeJoin(m0: string, m1: string, m2: string, mood: Mood, r: string) {
    exists c1, c2 :: ThreeJoinWith(m0, m1, m2, mood, r, c1, c2)
  }

  /** `combineMessages`. */
  function CombineMessages(messages: seq<string>, behaviors: seq<Behavior>, mood: Mood,
                           templates: Templates, rolls: seq<nat>): (r: string)
    ensures |messages| == 0 ==> r == ""
    ensures |messages| == 1 ==> r == messages[0]
    ensures |messages| >= 3 ==> StartsWith(r, messages[0])
    ensures |messages| == 3 ==> ThreeJoin(messages[0], messages[1], messages[2], mood, r)
    ensures |messages| >= 4 ==> EndsWith(r, " and " + NormalizeForCombination(messages[|messages| - 1]))
    ensures |messages| >= 4 ==> ListJoin(messages, mood, r)
  {
    if |messages| == 0 then ""
    else if |messages| == 1 then messages[0]
    else if |messages| == 2 then CombineTwo(messages[0], messages[1], behaviors, mood, templates, rolls)
    else if |messages| == 3 then CombineThree(messages[0], messages[1], messages[2], mood, rolls)
    else CombineList(messages, mood, rolls)
  }

  /** Two messages: the pair's template when there is one, else a connector between
      them. */
  function CombineTwo(m0: string, m1: string, behaviors: seq<Behavior>, mood: Mood,
                      templates: Templates, rolls: seq<nat>): string
  {
    var contextual := if |behaviors| == 2 then Contextual(behaviors[0], behaviors[1], mood, templates, Roll(rolls, 0)) else None;
    if contextual.Some? then contextual.value
    else m0 + Pick(PairConnectors(mood), Roll(rolls, 1)) + " " + NormalizeForCombination(m1)
  }

  /** Three messages: a list connector before the second and a final one before the
      third. */
  function CombineThree(m0: string, m1: string, m2: string, mood: Mood, rolls: seq<nat>): (r: string)
    ensures StartsWith(r, m0)
    ensures ThreeJoin(m0, m1, m2, mood, r)
  {
    var c1 := Pick(ListConnectors(mood), Roll(rolls, 1));
    var c2 := Pick(FinalConnectors(mood), Roll(rolls, 2));
    var tail := c1 + " " + NormalizeForCombination(m1) + c2 + " " + NormalizeForCombination(m2);
    StartsWithAppend(m0, tail);
    assert ThreeJoinWith(m0, m1, m2, mood, m0 + tail, c1, c2);
    m0 + tail
  }

  /** Four or more messages: the first, then one connector drawn per later message. */
  function CombineList(messages: seq<string>, mood: Mood, rolls: seq<nat>): (r: string)
    requires |messages| >= 4
    ensures StartsWith(r, messages[0])
    ensures EndsWith(r, " and " + NormalizeForCombination(messages[|messages| - 1]))
    ensures ListJoin(messages, mood, r)
  {
    var cs := Drawn(mood, rolls, 0, |messages| - 1);
    var tail := ListBody(messages[1..], cs);
    StartsWithAppend(messages[0], tail);
    EndsWithPrepend(messages[0], tail, " and " + NormalizeForCombination(messages[|messages| - 1]));
    messages[0] + tail
  }

  /** `whole` is `piece` with `pre` before it and `post` after it. */
  predicate PieceAt(whole: string, pre: string, piece: string, post: string) {
    whole == pre + piece + post
  }

  /** A string's head is a piece of it, with nothing before. */
  lemma PieceAtFront(head: string, tail: string)
    ensures PieceAt(head + tail, [], head, tail)
  {
    assert [] + head == head;
  }

  /** A piece of a string is a piece of anything ending with it. */
  lemma PieceShift(head: string, whole: string, pre: string, piece: string, post: string)
    requires PieceAt(whole, pre, piece, post)
    ensures PieceAt(head + whole, head + pre, piece, post)
  {
    assert head + (pre + piece + post) == (head + pre) + piece + post;
  }

  /** In the list shape, each message but the last appears normalised right after its
      connector and a space. */
  lemma {:induction false} ListBodyPieces(rest: seq<string>, cs: seq<string>, k: nat)
    requires |rest| >= 1 && |cs| >= |rest| - 1 && k < |rest| - 1
    ensures exists pre, post ::
              PieceAt(ListBody(rest, cs), pre, cs[k] + " " + NormalizeForCombination(rest[k]), post)
    decreases k
  {
    var tail := ListBody(rest[1..], cs[1..]);
    var head := cs[0] + " " + NormalizeForCombination(rest[0]);
    ListBodyStep(rest, cs, cs[0], tail);
    if k == 0 {
      PieceAtFront(head, tail);
      assert PieceAt(ListBody(rest, cs), [], head, tail);
    } else {
      ListBodyPieces(rest[1..], cs[1..], k - 1);
      assert cs[1..][k - 1] == cs[k] && rest[1..][k - 1] == rest[k];
      var piece := cs[k] + " " + NormalizeForCombination(rest[k]);
      var pre, post :| PieceAt(tail, pre, piece, post);
      PieceShift(head, tail, pre, piece, post);
      assert PieceAt(ListBody(rest, cs), head + pre, piece, post);
    }
  }

  /** In `r`, message `m` appears normalised right after the list connector `c` and a
      space, with `pre` before and `post` after. */
  predicate FollowsConnector(r: string, m: string, mood: Mood, c: string, pre: string, post: string) {
    c in ListConnectors(mood) && PieceAt(r, pre, c + " " + NormalizeForCombination(m), post)
  }

  /** With four or more messages, every message between the first and the last
      appears normalised right after a list connector and a space. */
  lemma MiddleMessagesFollowConnectors(messages: seq<string>, behaviors: seq<Behavior>, mood: Mood,
                                       templates: Templates, rolls: seq<nat>, k: nat)
    requires |messages| >= 4 && 1 <= k < |messages| - 1
    ensures exists c, pre, post ::
              FollowsConnector(CombineMessages(messages, behaviors, mood, templates, rolls),
                               messages[k], mood, c, pre, post)
  {
    var r := CombineMessages(messages, behaviors, mood, templates, rolls);
    var rest := messages[1..];
    var cs :| IsListDraw(cs, |messages| - 1, mood) && r == messages[0] + ListBody(rest, cs);
    ListBodyPieces(rest, cs, k - 1);
    var piece := cs[k - 1] + " " + NormalizeForCombination(rest[k - 1]);
    var pre, post :| PieceAt(ListBody(rest, cs), pre, piece, post);
    PieceShift(messages[0], ListBody(rest, cs), pre, piece, post);
    assert rest[k - 1] == messages[k];
    assert FollowsConnector(r, messages[k], mood, cs[k - 1], messages[0] + pre, post);
  }

  /** Two messages whose behaviours are not one of the recognised pairs are joined by
      a connector: the first message, a connector, a space, and the second message
      normalised. */
  lemma TwoMessagesJoined(m0: string, m1: string, behaviors: seq<Behavior>, mood: Mood,
                          templates: Templates, rolls: seq<nat>)
    requires |behaviors| != 2 || PairOf(behaviors[0], behaviors[1]).None?
    ensures exists c :: c in PairConnectors(mood) &&
              CombineMessages([m0, m1], behaviors, mood, templates, rolls) == m0 + c + " " + NormalizeForCombination(m1)
  {
    var c := Pick(PairConnectors(mood), Roll(rolls, 1));
    assert CombineMessages([m0, m1], behaviors, mood, templates, rolls) == m0 + c + " " + NormalizeForCombination(m1);
  }

  /** Two messages whose behaviours are a recognised pair, in either order, are
      replaced by the pair's template whenever it has a non-empty one to draw. */
  lemma RecognisedPairUsesTemplate(m0: string, m1: string, b0: Behavior, b1: Behavior, mood: Mood,
                                   templates: Templates, rolls: seq<nat>)
    requires {b0, b1} in ContextualPairs
    requires forall t :: t in templates(PairOf(b0, b1).value, mood) ==> t != ""
    requires |templates(PairOf(b0, b1).value, mood)| > 0
    ensures CombineMessages([m0, m1], [b0, b1], mood, templates, rolls) in templates(PairOf(b0, b1).value, mood)
    ensures CombineMessages([m0, m1], [b0, b1], mood, templates, rolls) ==
            CombineMessages([m0, m1], [b1, b0], mood, templates, rolls)
  {
    PairOfSymmetric(b0, b1);
  }

  // ---------------------------------------------------------------------------
  // Which behaviours speak, and in which order

  /** Behaviours that point at a problem in the URL itself. The source's list also names
      an invisible-characters behaviour, which is not a behaviour the detector reports. */
  predicate IsStructural(b: Behavior) {
    || b == HasSpaces || b == DotWithoutTld || b == HasSwearwords || b == UsingHttp
    || b == HasPort || b == TooShort || b == BrokeValidity
  }

  /** Behaviours about how the input changed rather than what it holds. */
  predicate IsTransitional(b: Behavior) {
    b == FixedError || b == AddedTld || b == RemovedTld || b == StartedTyping || b == Oscillating
  }

  predicate HasStructural(behaviors: seq<Behavior>) {
    exists b :: b in behaviors && IsStructural(b)
  }

  /** A behaviour of the list is considered for a message unless it is `typing`, or it
      is transitional while a structural behaviour is present. */
  predicate Considered(behaviors: seq<Behavior>, b: Behavior) {
    b != Typing && !(HasStructural(behaviors) && IsTransitional(b))
  }

  /** `Array.prototype.filter`: the elements `keep` accepts, in their order. */
  function Keep(bs: seq<Behavior>, keep: Behavior -> bool): (r: seq<Behavior>)
    ensures forall b :: multiset(r)[b] == if keep(b) then multiset(bs)[b] else 0
  {
    if |bs| == 0 then []
    else
      assert bs == [bs[0]] + bs[1..];
      (if keep(bs[0]) then [bs[0]] else []) + Keep(bs[1..], keep)
  }

  /** Filtering keeps the order, so it keeps a sorted sequence sorted. */
  lemma {:induction false} KeepSorted(bs: seq<Behavior>, keep: Behavior -> bool)
    requires SortedByPriority(bs)
    ensures SortedByPriority(Keep(bs, keep))
  {
    if |bs| > 0 {
      SortedTail(bs);
      KeepSorted(bs[1..], keep);
      if keep(bs[0]) {
        var rest := Keep(bs[1..], keep);
        assert Keep(bs, keep) == [bs[0]] + rest;
        LeastFirst(bs[0], bs[1..], rest);
      }
    }
  }

  /** The non-typing behaviours, and of those only the non-transitional ones when a
      structural behaviour is among them. */
  function FilteredBehaviors(behaviors: seq<Behavior>): (r: seq<Behavior>)
    ensures forall b :: multiset(r)[b] == if Considered(behaviors, b) then multiset(behaviors)[b] else 0
  {
    var nonTyping := Keep(behaviors, b => b != Typing);
    TypingIsNotStructural(behaviors, nonTyping);
    if HasStructural(nonTyping) then Keep(nonTyping, b => !IsTransitional(b)) else nonTyping
  }

  /** Dropping `typing` from a list keeps its structural behaviours. */
  lemma TypingIsNotStructural(behaviors: seq<Behavior>, nonTyping: seq<Behavior>)
    requires forall b :: multiset(nonTyping)[b] == if b != Typing then multiset(behaviors)[b] else 0
    ensures HasStructural(nonTyping) == HasStructural(behaviors)
  {
    if HasStructural(behaviors) {
      var b :| b in behaviors && IsStructural(b);
      assert multiset(nonTyping)[b] > 0;
    }
    if HasStructural(nonTyping) {
      var b :| b in nonTyping && IsStructural(b);
      assert multiset(behaviors)[b] > 0;
    }
  }

  /** `behaviorPriority`; a behaviour the table leaves out is `undefined`. */
  function PriorityEntry(b: Behavior): Option<nat> {
    match b
    case HasSpaces => Some(1)
    case DotWithoutTld => Some(3)
    case HasSwearwords => Some(4)
    case UsingHttp => Some(5)
    case HasPort => Some(6)
    case TooShort => Some(7)
    case BrokeValidity => Some(8)
    case FixedError => Some(9)
    case RemovedTld => Some(10)
    case AddedTld => Some(11)
    case Oscillating => Some(12)
    case ClearedAll => Some(13)
    case StartedTyping => Some(14)
    case Typing => Some(99)
    case PastedBig => None
  }

  /** `behaviorPriority[b] || 50`: a missing or zero entry counts as 50. */
  function Priority(b: Behavior): nat {
    match PriorityEntry(b)
    case Some(p) => if p != 0 then p else 50
    case None => 50
  }

  /** No two behaviours share a priority, so sorting has no ties between different
      behaviours to break. */
  lemma PriorityInjective(a: Behavior, b: Behavior)
    ensures Priority(a) == Priority(b) ==> a == b
  {
  }

  /** Structural issues come before every other behaviour. */
  lemma StructuralFirst(a: Behavior, b: Behavior)
    requires IsStructural(a) && !IsStructural(b)
    ensures Priority(a) < Priority(b)
  {
  }

  predicate SortedByPriority(s: seq<Behavior>) {
    forall i, j :: 0 <= i < j < |s| ==> Priority(s[i]) <= Priority(s[j])
  }

  lemma SortedTail(s: seq<Behavior>)
    requires |s| > 0 && SortedByPriority(s)
    ensures SortedByPriority(s[1..])
    ensures forall y :: y in s[1..] ==> Priority(s[0]) <= Priority(y)
  {
  }

  /** `x` put in front of a sorted sequence whose elements all come from `s` keeps it
      sorted when `x` comes no later than any element of `s`. */
  lemma LeastFirst(x: Behavior, s: seq<Behavior>, r: seq<Behavior>)
    requires SortedByPriority(r)
    requires forall y :: y in s ==> Priority(x) <= Priority(y)
    requires forall y :: multiset(r)[y] > 0 ==> multiset(s)[y] > 0
    ensures SortedByPriority([x] + r)
  {
    forall j | 0 <= j < |r| ensures Priority(x) <= Priority(r[j]) {
      assert multiset(r)[r[j]] > 0;
    }
  }

  /** One insertion step of a stable sort: `x` goes before the first element that comes
      strictly later. */
  function InsertByPriority(x: Behavior, s: seq<Behavior>): (r: seq<Behavior>)
    requires SortedByPriority(s)
    ensures SortedByPriority(r)
    ensures multiset(r) == multiset(s) + multiset{x}
  {
    if |s| == 0 || Priority(x) <= Priority(s[0]) then
      [x] + s
    else
      SortedTail(s);
      var rest := InsertByPriority(x, s[1..]);
      InsertedAfterHead(x, s, rest);
      [s[0]] + rest
  }

  /** The else-branch of an insertion: `x` went into the tail, after the head. */
  lemma InsertedAfterHead(x: Behavior, s: seq<Behavior>, rest: seq<Behavior>)
    requires |s| > 0 && SortedByPriority(s) && Priority(s[0]) < Priority(x)
    requires SortedByPriority(rest) && multiset(rest) == multiset(s[1..]) + multiset{x}
    ensures SortedByPriority([s[0]] + rest)
    ensures multiset([s[0]] + rest) == multiset(s) + multiset{x}
  {
    SortedTail(s);
    HeadBeforeInserted(x, s, rest);
    assert s == [s[0]] + s[1..];
  }

  lemma HeadBeforeInserted(x: Behavior, s: seq<Behavior>, rest: seq<Behavior>)
    requires |s| > 0 && Priority(s[0]) < Priority(x)
    requires forall y :: y in s[1..] ==> Priority(s[0]) <= Priority(y)
    requires SortedByPriority(rest) && multiset(rest) == multiset(s[1..]) + multiset{x}
    ensures SortedByPriority([s[0]] + rest)
  {
    forall j | 0 <= j < |rest| ensures Priority(s[0]) <= Priority(rest[j]) {
      assert rest[j] in multiset(rest);
      if rest[j] != x {
        assert rest[j] in multiset(s[1..]);
      }
    }
  }

  /** The sort of `behaviors` by priority. */
  function SortByPriority(s: seq<Behavior>): (r: seq<Behavior>)
    ensures SortedByPriority(r)
    ensures multiset(r) == multiset(s)
  {
    if |s| == 0 then []
    else
      assert s == [s[0]] + s[1..];
      InsertByPriority(s[0], SortByPriority(s[1..]))
  }

  /** Since priorities are distinct, a sequence sorted by priority is determined by its
      elements: every sort, stable or not, yields `SortByPriority`. */
  lemma {:induction false} SortedUnique(a: seq<Behavior>, b: seq<Behavior>)
    requires SortedByPriority(a) && SortedByPriority(b)
    requires multiset(a) == multiset(b)
    ensures a == b
  {
    assert |a| == |multiset(a)| == |multiset(b)| == |b|;
    if |a| > 0 {
      HeadsAgree(a, b);
      SortedTail(a);
      SortedTail(b);
      SortedUnique(a[1..], b[1..]);
      assert a == [a[0]] + a[1..];
      assert b == [b[0]] + b[1..];
    }
  }

  /** The first element of a sorted sequence comes no later than any of its elements. */
  lemma SortedHeadIsLeast(a: seq<Behavior>, y: Behavior)
    requires SortedByPriority(a) && y in multiset(a)
    ensures |a| > 0 && Priority(a[0]) <= Priority(y)
  {
    var i :| 0 <= i < |a| && a[i] == y;
  }

  lemma TailElements(a: seq<Behavior>)
    requires |a| > 0
    ensures multiset(a[1..]) == multiset(a) - multiset{a[0]}
  {
    assert a == [a[0]] + a[1..];
  }

  /** Two sorted sequences with the same elements start alike, and what follows their
      first elements has the same elements again. */
  lemma HeadsAgree(a: seq<Behavior>, b: seq<Behavior>)
    requires SortedByPriority(a) && SortedByPriority(b)
    requires multiset(a) == multiset(b) && |a| > 0
    ensures |b| > 0 && a[0] == b[0]
    ensures multiset(a[1..]) == multiset(b[1..])
  {
    SortedHeadIsLeast(a, b[0]);
    SortedHeadIsLeast(b, a[0]);
    PriorityInjective(a[0], b[0]);
    TailElements(a);
    TailElements(b);
  }

  // ---------------------------------------------------------------------------
  // Picking the message

  /** The behaviours whose messages are combined, in the order they are combined: the
      considered ones, by priority, that have messages in the mood pack's behaviour table. */
  function SpeakingBehaviors(behaviors: seq<Behavior>, lists: Behavior -> seq<string>): (r: seq<Behavior>)
    ensures SortedByPriority(r)
    ensures forall b :: multiset(r)[b] ==
              if Considered(behaviors, b) && |lists(b)| > 0 then multiset(behaviors)[b] else 0
  {
    var sorted := SortByPriority(FilteredBehaviors(behaviors));
    KeepSorted(sorted, b => |lists(b)| > 0);
    Keep(sorted, b => |lists(b)| > 0)
  }

  /** One message drawn from each speaking behaviour's list. */
  function Draw(types: seq<Behavior>, lists: Behavior -> seq<string>, rolls: seq<nat>): (ms: seq<string>)
    requires forall b :: b in types ==> |lists(b)| > 0
    ensures |ms| == |types|
    ensures forall k :: 0 <= k < |types| ==> ms[k] in lists(types[k])
  {
    seq(|types|, k requires 0 <= k < |types| => Pick(lists(types[k]), Roll(rolls, k)))
  }

  /** Some considered behaviour has a message in the mood pack. */
  predicate HasBehaviorMessage(behaviors: seq<Behavior>, lists: Behavior -> seq<string>) {
    exists b :: b in behaviors && Considered(behaviors, b) && |lists(b)| > 0
  }

  /** Behaviours speak exactly when some considered behaviour has a message. */
  lemma SpeakingWhenSomeHasMessage(behaviors: seq<Behavior>, lists: Behavior -> seq<string>)
    ensures |SpeakingBehaviors(behaviors, lists)| > 0 <==> HasBehaviorMessage(behaviors, lists)
  {
    if HasBehaviorMessage(behaviors, lists) {
      var b :| b in behaviors && Considered(behaviors, b) && |lists(b)| > 0;
      SpeakerCounted(behaviors, lists, b);
    }
    if |SpeakingBehaviors(behaviors, lists)| > 0 {
      SpeakerIsConsidered(behaviors, lists);
    }
  }

  lemma SpeakerCounted(behaviors: seq<Behavior>, lists: Behavior -> seq<string>, b: Behavior)
    requires b in behaviors && Considered(behaviors, b) && |lists(b)| > 0
    ensures b in SpeakingBehaviors(behaviors, lists)
  {
    assert multiset(SpeakingBehaviors(behaviors, lists))[b] == multiset(behaviors)[b];
  }

  lemma SpeakerIsConsidered(behaviors: seq<Behavior>, lists: Behavior -> seq<string>)
    requires |SpeakingBehaviors(behaviors, lists)| > 0
    ensures HasBehaviorMessage(behaviors, lists)
  {
    var r := SpeakingBehaviors(behaviors, lists);
    assert multiset(r)[r[0]] > 0;
    assert r[0] in behaviors && Considered(behaviors, r[0]) && |lists(r[0])| > 0;
  }

  /** The first behaviour to speak comes no later than any considered behaviour that
      has a message: structural issues lead. */
  lemma FirstSpeakerHasTopPriority(behaviors: seq<Behavior>, lists: Behavior -> seq<string>, b: Behavior)
    requires b in behaviors && Considered(behaviors, b) && |lists(b)| > 0
    ensures |SpeakingBehaviors(behaviors, lists)| > 0
    ensures Priority(SpeakingBehaviors(behaviors, lists)[0]) <= Priority(b)
  {
    SpeakerCounted(behaviors, lists, b);
    SortedHeadIsLeast(SpeakingBehaviors(behaviors, lists), b);
  }

  /** A mood's message data. A table the data lacks reads as empty lists, and
      `validDefault` is absent when there is no valid table. */
  datatype MoodPack = MoodPack(
    behavior: Behavior -> seq<string>,
    invalid: Pattern -> seq<string>,
    valid: Pattern -> seq<string>,
    validDefault: Option<seq<string>>)

  /** The rolls of one call: one per speaking behaviour, those `combineMessages` uses,
      and the one for a pattern message. */
  datatype Dice = Dice(behavior: seq<nat>, combine: seq<nat>, pattern: nat)

  /** `MessageResult`; `message` is absent when the default list is empty, which is
      where `random` yields `undefined`. */
  datatype MessageResult = MessageResult(
    message: Option<string>,
    mood: Mood,
    behaviors: seq<Behavior>,
    pattern: Pattern,
    parsed: Option<string>)

  predicate IsInvalidPattern(p: Pattern) {
    p == MissingTld || p == MissingProtocol || p == InvalidGeneral
  }

  predicate IsValidPattern(p: Pattern) {
    p == Valid || p == InsanelyLong || p == UtmTracking || p == LoginPage || p == AdminPage || p == IpAddress
  }

  const Fallback := "URL input detected."

  /** `pickMessage`: behaviour messages first, then the invalid pattern's messages, then
      for a parsed URL the valid pattern's messages or the valid default, then a fixed
      fallback. The result echoes its inputs. */
  function PickMessage(mood: Mood, pattern: Pattern, behaviors: seq<Behavior>, parsed: Option<string>,
                       packs: Mood -> MoodPack, templates: Templates, dice: Dice): (r: MessageResult)
    ensures r.mood == mood && r.pattern == pattern && r.behaviors == behaviors && r.parsed == parsed
    ensures r.message.Some? || (parsed.Some? && packs(mood).validDefault == Some([]))
  {
    var pack := packs(mood);
    var speaking := SpeakingBehaviors(behaviors, pack.behavior);
    var message :=
      if |speaking| > 0 then
        assert forall b :: b in speaking ==> multiset(speaking)[b] > 0;
        Some(CombineMessages(Draw(speaking, pack.behavior, dice.behavior), speaking, mood, templates, dice.combine))
      else
        PatternMessage(pattern, parsed, pack, dice.pattern);
    MessageResult(message, mood, behaviors, pattern, parsed)
  }

  /** The message when no behaviour speaks: the invalid pattern's messages, then for a
      parsed URL the valid pattern's messages or the valid default, then the fallback. */
  function PatternMessage(pattern: Pattern, parsed: Option<string>, pack: MoodPack, roll: nat): (m: Option<string>)
    ensures m.None? ==> parsed.Some? && pack.validDefault == Some([])
  {
    if IsInvalidPattern(pattern) && |pack.invalid(pattern)| > 0 then
      Some(Pick(pack.invalid(pattern), roll))
    else if parsed.Some? && IsValidPattern(pattern) && |pack.valid(pattern)| > 0 then
      Some(Pick(pack.valid(pattern), roll))
    else if parsed.Some? && IsValidPattern(pattern) && pack.validDefault.Some? then
      PickAny(pack.validDefault.value, roll)
    else
      Some(Fallback)
  }

  /** Without a behaviour message, the pattern decides. */
  lemma PatternDecides(mood: Mood, pattern: Pattern, behaviors: seq<Behavior>, parsed: Option<string>,
                       packs: Mood -> MoodPack, templates: Templates, dice: Dice)
    requires !HasBehaviorMessage(behaviors, packs(mood).behavior)
    ensures PickMessage(mood, pattern, behaviors, parsed, packs, templates, dice).message ==
            PatternMessage(pattern, parsed, packs(mood), dice.pattern)
  {
    SpeakingWhenSomeHasMessage(behaviors, packs(mood).behavior);
  }

  /** With one speaking behaviour, the message is one of its messages; with three or
      more, it opens with one of the first speaker's messages. */
  lemma BehaviorMessageLeads(mood: Mood, pattern: Pattern, behaviors: seq<Behavior>, parsed: Option<string>,
                             packs: Mood -> MoodPack, templates: Templates, dice: Dice)
    requires HasBehaviorMessage(behaviors, packs(mood).behavior)
    ensures var speaking := SpeakingBehaviors(behaviors, packs(mood).behavior);
            var m := PickMessage(mood, pattern, behaviors, parsed, packs, templates, dice).message;
            && m.Some?
            && (|speaking| == 1 ==> m.value in packs(mood).behavior(speaking[0]))
            && (|speaking| >= 3 ==> exists first :: first in packs(mood).behavior(speaking[0]) && StartsWith(m.value, first))
  {
    SpeakingWhenSomeHasMessage(behaviors, packs(mood).behavior);
  }

  /** An invalid pattern with messages speaks first among the patterns. */
  lemma InvalidPatternFirst(pattern: Pattern, parsed: Option<string>, pack: MoodPack, roll: nat)
    requires IsInvalidPattern(pattern) && |pack.invalid(pattern)| > 0
    ensures var m := PatternMessage(pattern, parsed, pack, roll);
            m.Some? && m.value in pack.invalid(pattern)
  {
  }

  /** A parsed URL with a valid pattern that has messages gets one of them. */
  lemma ValidPatternNext(pattern: Pattern, parsed: Option<string>, pack: MoodPack, roll: nat)
    requires parsed.Some? && IsValidPattern(pattern) && |pack.valid(pattern)| > 0
    ensures var m := PatternMessage(pattern, parsed, pack, roll);
            m.Some? && m.value in pack.valid(pattern)
  {
  }

  /** Failing that, the message comes from the valid default list, and is absent only
      when that list is empty. */
  lemma ValidDefaultNext(pattern: Pattern, parsed: Option<string>, pack: MoodPack, roll: nat)
    requires parsed.Some? && IsValidPattern(pattern) && |pack.valid(pattern)| == 0
    requires pack.validDefault.Some?
    ensures var m := PatternMessage(pattern, parsed, pack, roll);
            && (m.Some? <==> |pack.validDefault.value| > 0)
            && (m.Some? ==> m.value in pack.validDefault.value)
  {
  }

  /** When no pattern source has a message, the fixed fallback speaks. */
  lemma FallbackLast(pattern: Pattern, parsed: Option<string>, pack: MoodPack, roll: nat)
    requires !(IsInvalidPattern(pattern) && |pack.invalid(pattern)| > 0)
    requires !(parsed.Some? && IsValidPattern(pattern) && (|pack.valid(pattern)| > 0 || pack.validDefault.Some?))
    ensures PatternMessage(pattern, parsed, pack, roll) == Some(Fallback)
  {
  }

  /** The two pattern lists never compete: no pattern is both invalid and valid, and
      every pattern is one of the two. */
  lemma PatternKindsPartition(p: Pattern)
    ensures IsInvalidPattern(p) != IsValidPattern(p)
  {
  }

  /** `typing` never speaks, and a structural issue silences every transitional
      behaviour. */
  lemma SilencedBehaviors(behaviors: seq<Behavior>, lists: Behavior -> seq<string>, b: Behavior)
    requires b == Typing || (HasStructural(behaviors) && IsTransitional(b))
    ensures b !in SpeakingBehaviors(behaviors, lists)
  {
    assert multiset(SpeakingBehaviors(behaviors, lists))[b] == 0;
  }
}
