/**
 * The conversation engine's rule table as the behaviours fill it: a rule
 * fires in one state on one of its trigger words, moves the NPC to its
 * target state, says one of its replies and runs its action.  Rules for the
 * current state are tried before rules registered for ANY state, each kind
 * in registration order.
 */
module Conversation {
  import opened JavaLang

  // Conversation states.  IDLE, ATTENDING, QUEST_OFFERED and ANY are
  // symbolic in the engine; 20, 30 and 40 are the literals the seller,
  // buyer and healer use for "waiting for a yes or no".
  const ANY: int := -1
  const IDLE: int := 0
  const ATTENDING: int := 1
  const QUEST_OFFERED: int := 2
  const SELL_CONFIRM: int := 20
  const BUY_CONFIRM: int := 30
  const HEAL_CONFIRM: int := 40

  /** The actions the behaviours attach to their rules. */
  datatype Act =
    | NoAction
    | SellerPropose        // "buy [amount] <item>"
    | SellerConfirm        // "yes" after a seller quote
    | BuyerPropose         // "sell [amount] <item>"
    | BuyerConfirm         // "yes" after a buyer quote
    | HealerPropose        // "heal"
    | HealerConfirm        // "yes" after a healing quote
    | CallerAction(id: nat) // an action handed in by the caller of addGreeting

  /** `replies` empty: no reply (null); several: one of them is said. */
  datatype Rule = Rule(source: int, triggers: seq<string>, target: int, replies: seq<string>, action: Act)

  predicate Matches(r: Rule, state: int, word: string)
  {
    r.source == state && word in r.triggers
  }

  /** The first rule registered for exactly `state` with trigger `word`. */
  function FirstMatch(rules: seq<Rule>, state: int, word: string): (m: Option<Rule>)
    ensures m.Some? ==> m.value in rules && Matches(m.value, state, word)
    ensures m.None? ==> forall r :: r in rules ==> !Matches(r, state, word)
  {
    if rules == [] then None
    else if Matches(rules[0], state, word) then Some(rules[0])
    else FirstMatch(rules[1..], state, word)
  }

  /** The rule that fires: one for the current state, else one for ANY state. */
  function Resolve(rules: seq<Rule>, state: int, word: string): (m: Option<Rule>)
    ensures m.Some? ==> m.value in rules && word in m.value.triggers
    ensures m.Some? ==> m.value.source == state || m.value.source == ANY
    ensures m.None? ==> forall r :: r in rules && word in r.triggers ==> r.source != state && r.source != ANY
  {
    match FirstMatch(rules, state, word)
    case Some(r) => Some(r)
    case None => FirstMatch(rules, ANY, word)
  }

  /** Registration order decides between two tables. */
  lemma {:induction false} FirstMatchAppend(a: seq<Rule>, b: seq<Rule>, state: int, word: string)
    ensures FirstMatch(a + b, state, word) ==
      if FirstMatch(a, state, word).Some? then FirstMatch(a, state, word) else FirstMatch(b, state, word)
  {
    if a == [] {
      assert a + b == b;
    } else {
      assert (a + b)[0] == a[0];
      assert (a + b)[1..] == a[1..] + b;
      FirstMatchAppend(a[1..], b, state, word);
    }
  }

  /** The first rule that matches, found by its position. */
  lemma {:induction false} FirstMatchAt(rules: seq<Rule>, state: int, word: string, j: nat)
    requires j < |rules| && Matches(rules[j], state, word)
    requires forall i :: 0 <= i < j ==> !Matches(rules[i], state, word)
    ensures FirstMatch(rules, state, word) == Some(rules[j])
  {
    if j > 0 {
      FirstMatchAt(rules[1..], state, word, j - 1);
    }
  }

  predicate Silent(rules: seq<Rule>, state: int, word: string)
  {
    forall r :: r in rules ==> !Matches(r, state, word)
  }

  lemma SilentNone(rules: seq<Rule>, state: int, word: string)
    requires Silent(rules, state, word)
    ensures FirstMatch(rules, state, word) == None
  {
  }

  /**
   * A table registered between others answers `word` in `state` as it would
   * alone, as long as the earlier registrations have nothing for that state
   * and word.
   */
  lemma Embedded(pre: seq<Rule>, mid: seq<Rule>, post: seq<Rule>, state: int, word: string)
    requires Silent(pre, state, word) && FirstMatch(mid, state, word).Some?
    ensures Resolve(pre + mid + post, state, word) == FirstMatch(mid, state, word)
  {
    SilentNone(pre, state, word);
    FirstMatchAppend(pre, mid, state, word);
    FirstMatchAppend(pre + mid, post, state, word);
  }

  /**
   * A rule for ANY state fires on its word in every state no other rule
   * claims, wherever it sits in the table.
   */
  lemma AnyStateFallback(pre: seq<Rule>, r: Rule, post: seq<Rule>, state: int, word: string)
    requires r.source == ANY && word in r.triggers
    requires Silent(pre + [r] + post, state, word)
    requires Silent(pre, ANY, word)
    ensures Resolve(pre + [r] + post, state, word) == Some(r)
  {
    SilentNone(pre + [r] + post, state, word);
    SilentNone(pre, ANY, word);
    FirstMatchAppend(pre, [r], ANY, word);
    FirstMatchAppend(pre + [r], post, ANY, word);
  }
}
