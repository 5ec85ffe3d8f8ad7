/**
 * The stock NPC behaviours: greeting, replies, goodbye, and the seller,
 * buyer and healer trades.  Each registration appends rules to the NPC's
 * table; the trade actions move money and items between the player's
 * slots with the loops of the original, each proved equal to a function
 * of the Inventory module.
 */
module Behaviours {
  import opened JavaLang
  import opened Inventory
  import opened Players
  import opened Conversation

  // ---------------------------------------------------------------------
  // The rule tables each registration adds

  const GREETING_WORDS: seq<string> := ["hi", "hello", "greetings", "hola"]
  const BYE_WORDS: seq<string> := ["bye", "farewell", "cya", "adios"]
  const QUEST_WORDS: seq<string> := ["quest", "task"]
  const JOB_WORDS: seq<string> := ["job", "work"]
  const HELP_WORDS: seq<string> := ["help", "ayuda"]
  const DEFAULT_GREETING: string := "Greetings! How may I help you?"
  const DEFAULT_GOODBYE: string := "Bye."

  function GreetingRule(text: string, action: Act): (r: Rule)
    ensures r.source == IDLE && r.target == ATTENDING && r.replies == [text]
    ensures forall w :: w in GREETING_WORDS ==> Matches(r, IDLE, w)
  {
    Rule(IDLE, GREETING_WORDS, ATTENDING, [text], action)
  }

  /** addReply, addJob, addHelp: a question answered while attending. */
  function ReplyRule(triggers: seq<string>, text: string): (r: Rule)
    ensures r.source == ATTENDING && r.target == ATTENDING && r.replies == [text]
    ensures forall w :: w in triggers ==> Matches(r, ATTENDING, w)
  {
    Rule(ATTENDING, triggers, ATTENDING, [text], NoAction)
  }

  /** addQuest: one text, or one of several. */
  function QuestRule(texts: seq<string>): (r: Rule)
    ensures r.source == ATTENDING && r.target == ATTENDING && r.replies == texts
    ensures Matches(r, ATTENDING, "quest") && Matches(r, ATTENDING, "task")
  {
    Rule(ATTENDING, QUEST_WORDS, ATTENDING, texts, NoAction)
  }

  function GoodbyeRule(text: string): (r: Rule)
    ensures r.source == ANY && r.target == IDLE && r.replies == [text]
    ensures forall w :: w in BYE_WORDS ==> Matches(r, ANY, w)
  {
    Rule(ANY, BYE_WORDS, IDLE, [text], NoAction)
  }

  /** The item list of an offer: each item followed by ", ", in iteration order. */
  function Listing(order: seq<string>): string
  {
    if order == [] then "" else order[0] + ", " + Listing(order[1..])
  }

  /** The optional "offer" rule of a trader. */
  function OfferRule(text: string, offer: bool): seq<Rule>
  {
    if offer then [Rule(ATTENDING, ["offer"], ATTENDING, [text], NoAction)] else []
  }

  function SellerCore(): seq<Rule>
  {
    [ Rule(ATTENDING, ["buy"], SELL_CONFIRM, [], SellerPropose),
      Rule(SELL_CONFIRM, ["yes"], ATTENDING, ["Thanks."], SellerConfirm),
      Rule(SELL_CONFIRM, ["no"], ATTENDING, ["Ok, how may I help you?"], NoAction) ]
  }

  function BuyerCore(): seq<Rule>
  {
    [ Rule(ATTENDING, ["sell"], BUY_CONFIRM, [], BuyerPropose),
      Rule(BUY_CONFIRM, ["yes"], ATTENDING, ["Thanks."], BuyerConfirm),
      Rule(BUY_CONFIRM, ["no"], ATTENDING, ["Ok, how may I help you?"], NoAction) ]
  }

  function SellerRules(listing: string, offer: bool): seq<Rule>
  {
    OfferRule("I sell " + listing, offer) + SellerCore()
  }

  function BuyerRules(listing: string, offer: bool): seq<Rule>
  {
    OfferRule("I buy " + listing, offer) + BuyerCore()
  }

  function HealerCore(): seq<Rule>
  {
    [ Rule(ATTENDING, ["heal"], HEAL_CONFIRM, [], HealerPropose),
      Rule(HEAL_CONFIRM, ["yes"], ATTENDING, ["Thanks."], HealerConfirm),
      Rule(HEAL_CONFIRM, ["no"], ATTENDING, ["OK, how may I help you?"], NoAction) ]
  }

  /** The healer always answers "offer". */
  function HealerRules(): seq<Rule>
  {
    OfferRule("I heal", true) + HealerCore()
  }

  // ---------------------------------------------------------------------
  // What the tables do in a conversation

  /** Every item of the order is offered, in order, each followed by ", ". */
  lemma {:induction false} ListingSplits(order: seq<string>, i: nat)
    requires i < |order|
    ensures Listing(order) == Listing(order[..i]) + order[i] + ", " + Listing(order[i + 1..])
  {
    if i == 0 {
      assert order[..0] == [];
      assert order[1..] == order[i + 1..];
    } else {
      ListingSplits(order[1..], i - 1);
      assert order[1..][..i - 1] == order[1..i];
      assert order[1..][i..] == order[i + 1..];
      assert order[..i][0] == order[0] && order[..i][1..] == order[1..i];
    }
  }

  /** A greeting word wakes the NPC: from IDLE the greeting rule fires and leads to ATTENDING. */
  lemma GreetingOpens(pre: seq<Rule>, post: seq<Rule>, text: string, action: Act, w: string)
    requires w in GREETING_WORDS && Silent(pre, IDLE, w)
    ensures Resolve(pre + [GreetingRule(text, action)] + post, IDLE, w) == Some(GreetingRule(text, action))
    ensures Resolve(pre + [GreetingRule(text, action)] + post, IDLE, w).value.target == ATTENDING
  {
    Embedded(pre, [GreetingRule(text, action)], post, IDLE, w);
  }

  /**
   * A reply (addReply, addJob, addHelp) answers each of its triggers while
   * attending, unless an earlier rule claims the word.
   */
  lemma ReplyAnswers(pre: seq<Rule>, post: seq<Rule>, triggers: seq<string>, text: string, w: string)
    requires w in triggers && Silent(pre, ATTENDING, w)
    ensures Resolve(pre + [ReplyRule(triggers, text)] + post, ATTENDING, w) == Some(ReplyRule(triggers, text))
    ensures Resolve(pre + [ReplyRule(triggers, text)] + post, ATTENDING, w).value.replies == [text]
  {
    Embedded(pre, [ReplyRule(triggers, text)], post, ATTENDING, w);
  }

  /** A goodbye word ends the conversation from every state no other rule claims it in. */
  lemma GoodbyeCloses(pre: seq<Rule>, post: seq<Rule>, text: string, state: int, w: string)
    requires w in BYE_WORDS
    requires Silent(pre + [GoodbyeRule(text)] + post, state, w) && Silent(pre, ANY, w)
    ensures Resolve(pre + [GoodbyeRule(text)] + post, state, w) == Some(GoodbyeRule(text))
    ensures Resolve(pre + [GoodbyeRule(text)] + post, state, w).value.target == IDLE
  {
    AnyStateFallback(pre, GoodbyeRule(text), post, state, w);
  }

  /**
   * A trader's table registered after rules that do not compete with it
   * answers the trade words as its core rules do, with or without the
   * "offer" rule in front.
   */
  lemma TraderEmbedded(pre: seq<Rule>, offerText: string, offer: bool, core: seq<Rule>, post: seq<Rule>, state: int, word: string)
    requires word != "offer" && Silent(pre, state, word) && FirstMatch(core, state, word).Some?
    ensures Resolve(pre + (OfferRule(offerText, offer) + core) + post, state, word) == FirstMatch(core, state, word)
  {
    var front := pre + OfferRule(offerText, offer);
    assert pre + (OfferRule(offerText, offer) + core) + post == front + core + post;
    Embedded(front, core, post, state, word);
  }

  /**
   * The seller's table: "buy" leads to the confirmation state 20 with the
   * proposal action, and there "yes" confirms and "no" declines, both back
   * to ATTENDING.
   */
  lemma SellerDialogue(pre: seq<Rule>, post: seq<Rule>, listing: string, offer: bool)
    requires Silent(pre, ATTENDING, "buy") && Silent(pre, SELL_CONFIRM, "yes") && Silent(pre, SELL_CONFIRM, "no")
    ensures var t := pre + SellerRules(listing, offer) + post;
      Resolve(t, ATTENDING, "buy") == Some(Rule(ATTENDING, ["buy"], SELL_CONFIRM, [], SellerPropose)) &&
      Resolve(t, SELL_CONFIRM, "yes") == Some(Rule(SELL_CONFIRM, ["yes"], ATTENDING, ["Thanks."], SellerConfirm)) &&
      Resolve(t, SELL_CONFIRM, "no") == Some(Rule(SELL_CONFIRM, ["no"], ATTENDING, ["Ok, how may I help you?"], NoAction))
  {
    TraderEmbedded(pre, "I sell " + listing, offer, SellerCore(), post, ATTENDING, "buy");
    TraderEmbedded(pre, "I sell " + listing, offer, SellerCore(), post, SELL_CONFIRM, "yes");
    TraderEmbedded(pre, "I sell " + listing, offer, SellerCore(), post, SELL_CONFIRM, "no");
  }

  /** The buyer's table: "sell" leads to state 30, then "yes" or "no" back to ATTENDING. */
  lemma BuyerDialogue(pre: seq<Rule>, post: seq<Rule>, listing: string, offer: bool)
    requires Silent(pre, ATTENDING, "sell") && Silent(pre, BUY_CONFIRM, "yes") && Silent(pre, BUY_CONFIRM, "no")
    ensures var t := pre + BuyerRules(listing, offer) + post;
      Resolve(t, ATTENDING, "sell") == Some(Rule(ATTENDING, ["sell"], BUY_CONFIRM, [], BuyerPropose)) &&
      Resolve(t, BUY_CONFIRM, "yes") == Some(Rule(BUY_CONFIRM, ["yes"], ATTENDING, ["Thanks."], BuyerConfirm)) &&
      Resolve(t, BUY_CONFIRM, "no") == Some(Rule(BUY_CONFIRM, ["no"], ATTENDING, ["Ok, how may I help you?"], NoAction))
  {
    TraderEmbedded(pre, "I buy " + listing, offer, BuyerCore(), post, ATTENDING, "sell");
    TraderEmbedded(pre, "I buy " + listing, offer, BuyerCore(), post, BUY_CONFIRM, "yes");
    TraderEmbedded(pre, "I buy " + listing, offer, BuyerCore(), post, BUY_CONFIRM, "no");
  }

  /** The healer's table: "heal" leads to state 40, then "yes" or "no" back to ATTENDING. */
  lemma HealerDialogue(pre: seq<Rule>, post: seq<Rule>)
    requires Silent(pre, ATTENDING, "heal") && Silent(pre, HEAL_CONFIRM, "yes") && Silent(pre, HEAL_CONFIRM, "no")
    ensures var t := pre + HealerRules() + post;
      Resolve(t, ATTENDING, "heal") == Some(Rule(ATTENDING, ["heal"], HEAL_CONFIRM, [], HealerPropose)) &&
      Resolve(t, HEAL_CONFIRM, "yes") == Some(Rule(HEAL_CONFIRM, ["yes"], ATTENDING, ["Thanks."], HealerConfirm)) &&
      Resolve(t, HEAL_CONFIRM, "no") == Some(Rule(HEAL_CONFIRM, ["no"], ATTENDING, ["OK, how may I help you?"], NoAction))
  {
    TraderEmbedded(pre, "I heal", true, HealerCore(), post, ATTENDING, "heal");
    TraderEmbedded(pre, "I heal", true, HealerCore(), post, HEAL_CONFIRM, "yes");
    TraderEmbedded(pre, "I heal", true, HealerCore(), post, HEAL_CONFIRM, "no");
  }

  // ---------------------------------------------------------------------
  // Parsing "buy [amount] <item>" and "sell [amount] <item>"

  datatype Command = Command(item: Option<string>, amountText: string)

  /** The words split at ' ' and trimmed: the item is the third word, or else the second. */
  function ParseCommand(text: string): Command
  {
    var words := Split(text, ' ');
    if |words| > 2 then Command(Some(Trim(words[2])), Trim(words[1]))
    else if |words| > 1 then Command(Some(Trim(words[1])), "1")
    else Command(None, "1")
  }

  /** A word without blanks (no character at or below ' '). */
  predicate IsWord(w: string)
  {
    |w| > 0 && forall k :: 0 <= k < |w| ==> !IsBlank(w[k])
  }

  lemma WordFacts(w: string)
    requires IsWord(w)
    ensures ' ' !in w && Trim(w) == w
  {
    TrimKeepsInner(w);
  }

  /** setAmount(text): the number the text spells as a Java int, else 1. */
  function AmountOf(text: string): (n: int)
    ensures IsInt(n)
  {
    match ParseInt(text)
    case Some(v) => v
    case None => 1
  }

  lemma AmountOfNumber(n: int)
    requires IsInt(n)
    ensures AmountOf(IntToString(n)) == n
  {
    ParseIntToString(n, INT_MIN, INT_MAX);
  }

  lemma AmountOfNonNumber(text: string, i: nat)
    requires 0 < i < |text| && !IsDigit(text[i])
    ensures AmountOf(text) == 1
  {
    ParseRejectsNonDigit(text, INT_MIN, INT_MAX, i);
  }

  /** Three words joined by single blanks split back into those words. */
  lemma SplitThreeWords(verb: string, amount: string, item: string)
    requires ' ' !in verb && ' ' !in amount && ' ' !in item && item != ""
    ensures Split(verb + " " + amount + " " + item, ' ') == [verb, amount, item]
  {
    var text := verb + " " + amount + " " + item;
    assert text == verb + [' '] + (amount + [' '] + item);
    SplitFirstPiece(verb, amount + [' '] + item, ' ');
    SplitFirstPiece(amount, item, ' ');
    PiecesNoSep(item, ' ');
    assert ' ' in text by { assert text[|verb|] == ' '; }
    assert Pieces(text, ' ') == [verb, amount, item];
  }

  /** Two words joined by a single blank split back into those words. */
  lemma SplitTwoWords(verb: string, item: string)
    requires ' ' !in verb && ' ' !in item && item != ""
    ensures Split(verb + " " + item, ' ') == [verb, item]
  {
    var text := verb + " " + item;
    assert text == verb + [' '] + item;
    SplitFirstPiece(verb, item, ' ');
    PiecesNoSep(item, ' ');
    assert ' ' in text by { assert text[|verb|] == ' '; }
    assert Pieces(text, ' ') == [verb, item];
  }

  /** "buy 3 apple": amount text "3", item "apple". */
  lemma ParseThreeWords(verb: string, amount: string, item: string)
    requires IsWord(verb) && IsWord(amount) && IsWord(item)
    ensures ParseCommand(verb + " " + amount + " " + item) == Command(Some(item), amount)
  {
    WordFacts(verb); WordFacts(amount); WordFacts(item);
    SplitThreeWords(verb, amount, item);
  }

  /** "buy apple": item "apple", amount text "1". */
  lemma ParseTwoWords(verb: string, item: string)
    requires IsWord(verb) && IsWord(item)
    ensures ParseCommand(verb + " " + item) == Command(Some(item), "1")
  {
    WordFacts(verb); WordFacts(item);
    SplitTwoWords(verb, item);
  }

  /** A bare "buy": no item. */
  lemma ParseOneWord(verb: string)
    requires IsWord(verb)
    ensures ParseCommand(verb) == Command(None, "1")
  {
    WordFacts(verb);
  }

  function NameOrNull(item: Option<string>): string
  {
    match item
    case Some(s) => s
    case None => "null"
  }

  // ---------------------------------------------------------------------
  // The NPC as the behaviours see it

  class SpeakerNPC {
    var rules: seq<Rule>
    var state: int
    /** Everything the NPC has said, oldest first. */
    var said: seq<string>
    var byeMessage: Option<string>
    var hasWaitAction: bool
    var seller: SellerBehaviour?
    var buyer: BuyerBehaviour?
    var healer: HealerBehaviour?

    constructor ()
      ensures rules == [] && state == IDLE && said == [] && byeMessage == None && !hasWaitAction
      ensures seller == null && buyer == null && healer == null
    {
      rules, state, said, byeMessage, hasWaitAction := [], IDLE, [], None, false;
      seller, buyer, healer := null, null, null;
    }

    method Say(text: string)
      modifies this`said
      ensures said == old(said) + [text]
    {
      said := said + [text];
    }

    method Add(rs: seq<Rule>)
      modifies this`rules
      ensures rules == old(rules) + rs
    {
      rules := rules + rs;
    }
  }

  // ---------------------------------------------------------------------
  // Registrations

  method AddGreeting(npc: SpeakerNPC, text: string, action: Act)
    modifies npc`rules, npc`hasWaitAction
    ensures npc.rules == old(npc.rules) + [GreetingRule(text, action)] && npc.hasWaitAction
  {
    npc.Add([GreetingRule(text, action)]);
    npc.hasWaitAction := true;
  }

  /** addReply with one trigger or several; addJob and addHelp are addReply with fixed words. */
  method AddReply(npc: SpeakerNPC, triggers: seq<string>, text: string)
    modifies npc`rules
    ensures npc.rules == old(npc.rules) + [ReplyRule(triggers, text)]
  {
    npc.Add([ReplyRule(triggers, text)]);
  }

  method AddJob(npc: SpeakerNPC, jobDescription: string)
    modifies npc`rules
    ensures npc.rules == old(npc.rules) + [ReplyRule(JOB_WORDS, jobDescription)]
  {
    AddReply(npc, JOB_WORDS, jobDescription);
  }

  method AddHelp(npc: SpeakerNPC, helpDescription: string)
    modifies npc`rules
    ensures npc.rules == old(npc.rules) + [ReplyRule(HELP_WORDS, helpDescription)]
  {
    AddReply(npc, HELP_WORDS, helpDescription);
  }

  method AddQuest(npc: SpeakerNPC, texts: seq<string>)
    modifies npc`rules
    ensures npc.rules == old(npc.rules) + [QuestRule(texts)]
  {
    npc.Add([QuestRule(texts)]);
  }

  method AddGoodbye(npc: SpeakerNPC, text: string)
    modifies npc`rules, npc`byeMessage
    ensures npc.rules == old(npc.rules) + [GoodbyeRule(text)] && npc.byeMessage == Some(text)
  {
    npc.byeMessage := Some(text);
    npc.Add([GoodbyeRule(text)]);
  }

  /** The StringBuffer loop of addSeller and addBuyer. */
  method BuildListing(order: seq<string>) returns (st: string)
    ensures st == Listing(order)
  {
    st := "";
    var k := 0;
    while k < |order|
      invariant 0 <= k <= |order|
      invariant st == Listing(order[..k])
    {
      ListingAppend(order[..k], [order[k]]);
      assert order[..k + 1] == order[..k] + [order[k]];
      st := st + order[k] + ", ";
      k := k + 1;
    }
    assert order[..k] == order;
  }

  lemma {:induction false} ListingAppend(a: seq<string>, b: seq<string>)
    ensures Listing(a + b) == Listing(a) + Listing(b)
  {
    if a == [] {
      assert a + b == b;
    } else {
      assert (a + b)[0] == a[0] && (a + b)[1..] == a[1..] + b;
      ListingAppend(a[1..], b);
    }
  }

  method AddSeller(npc: SpeakerNPC, items: SellerBehaviour, offer: bool)
    modifies npc`rules, npc`seller
    ensures npc.seller == items
    ensures npc.rules == old(npc.rules) + SellerRules(Listing(items.itemOrder), offer)
  {
    npc.seller := items;
    var st := BuildListing(items.itemOrder);
    npc.Add(SellerRules(st, offer));
  }

  method AddBuyer(npc: SpeakerNPC, items: BuyerBehaviour, offer: bool)
    modifies npc`rules, npc`buyer
    ensures npc.buyer == items
    ensures npc.rules == old(npc.rules) + BuyerRules(Listing(items.itemOrder), offer)
  {
    npc.buyer := items;
    var st := BuildListing(items.itemOrder);
    npc.Add(BuyerRules(st, offer));
  }

  method AddHealer(npc: SpeakerNPC, cost: int)
    modifies npc`rules, npc`healer
    ensures npc.healer != null && fresh(npc.healer) && npc.healer.items == map["heal" := cost]
    ensures npc.rules == old(npc.rules) + HealerRules()
  {
    npc.healer := new HealerBehaviour(cost);
    npc.Add(HealerRules());
  }

  // ---------------------------------------------------------------------
  // Money: playerMoney and chargePlayer

  /** `order` enumerates the keys of `items`, each once (the map's iteration order). */
  ghost predicate ListsKeys(order: seq<string>, items: map<string, int>)
  {
    (forall k :: k in items <==> k in order) &&
    (forall i, j :: 0 <= i < j < |order| ==> order[i] != order[j])
  }

  /** The sum of every money stack in every slot. */
  method PlayerMoney(player: Player) returns (money: int)
    ensures money == TotalMoney(player.slots)
  {
    money := 0;
    var slots := player.slots;
    var i := 0;
    while i < |slots|
      invariant 0 <= i <= |slots|
      invariant money == TotalMoney(slots[..i])
    {
      var objs := slots[i].objects;
      var j := 0;
      while j < |objs|
        invariant 0 <= j <= |objs|
        invariant money == TotalMoney(slots[..i]) + SlotMoney(objs[..j])
      {
        if objs[j].Money? {
          money := money + objs[j].quantity;
        }
        ConcatMoney(objs[..j], [objs[j]]);
        assert objs[..j + 1] == objs[..j] + [objs[j]];
        j := j + 1;
      }
      assert objs[..j] == objs;
      TotalConcat(slots[..i], [slots[i]]);
      assert slots[..i + 1] == slots[..i] + [slots[i]];
      i := i + 1;
    }
    assert slots[..i] == slots;
  }

  /** The inner loop of chargePlayer over one slot; a removal restarts the iterator. */
  method ChargeSlot(objs: seq<Obj>, left0: int) returns (rest: seq<Obj>, left: int)
    ensures (rest, left) == ChargeObjs(objs, 0, left0)
  {
    rest, left := objs, left0;
    var j := 0;
    while j < |rest|
      invariant 0 <= j <= |rest|
      invariant ChargeObjs(rest, j, left) == ChargeObjs(objs, 0, left0)
      decreases |rest|, |rest| - j
    {
      if rest[j].Money? {
        var quantity := rest[j].quantity;
        if left >= quantity {
          rest := rest[..j] + rest[j + 1..];
          left := left - quantity;
          j := 0;
        } else {
          rest := rest[j := Money(quantity - left)];
          left := 0;
          return;
        }
      } else {
        j := j + 1;
      }
    }
  }

  /** chargePlayer: slots in order, while something is left to charge. */
  method ChargePlayer(player: Player, amount: int) returns (ok: bool)
    modifies player`slots
    ensures (player.slots, ok) == Charge(old(player.slots), amount)
  {
    var left := amount;
    var i := 0;
    while i < |player.slots| && left != 0
      invariant 0 <= i <= |player.slots|
      invariant ChargeSlots(player.slots, i, left) == ChargeSlots(old(player.slots), 0, amount)
      decreases |player.slots| - i
    {
      var rest, l := ChargeSlot(player.slots[i].objects, left);
      player.slots := player.slots[i := player.slots[i].(objects := rest)];
      left := l;
      i := i + 1;
    }
    ok := left == 0;
  }

  // ---------------------------------------------------------------------
  // The seller

  class SellerBehaviour {
    const items: map<string, int>
    const itemOrder: seq<string>
    var chosenItem: Option<string>
    var amount: int

    constructor (items: map<string, int>, itemOrder: seq<string>)
      requires ListsKeys(itemOrder, items)
      ensures this.items == items && this.itemOrder == itemOrder
      ensures chosenItem == None && amount == 0
    {
      this.items, this.itemOrder := items, itemOrder;
      chosenItem, amount := None, 0;
    }

    /** hasItem: a null item is never sold. */
    predicate HasItem(item: Option<string>)
    {
      item.Some? && item.value in items
    }

    method SetAmount(text: string)
      modifies this`amount
      ensures amount == AmountOf(text)
    {
      amount := AmountOf(text);
    }

    /** The item and amount of a quote, remembered for the "yes". */
    method Choose(item: Option<string>, text: string)
      modifies this`chosenItem, this`amount
      ensures chosenItem == item && amount == AmountOf(text)
    {
      chosenItem := item;
      SetAmount(text);
    }

    /**
     * onSell: an unknown item is refused without a word; a non-stackable
     * item is sold one at a time whatever the amount; the player pays only
     * if the item could be equipped, and pays for what was handed over.
     */
    method OnSell(npc: SpeakerNPC, player: Player, itemName: string, amount: int, itemPrice: int,
                  catalog: map<string, bool>, canEquip: bool) returns (ok: bool)
      requires canEquip ==> HasBag(player.slots)
      modifies npc`said, player`slots
      ensures itemName !in catalog ==> !ok && player.slots == old(player.slots) && npc.said == old(npc.said)
      ensures itemName in catalog && canEquip ==>
        var q := if catalog[itemName] then amount else 1;
        ok && player.slots == Sale(old(player.slots), itemName, q, itemPrice) &&
        npc.said == old(npc.said) + ["Congratulations! Here is your " + itemName + "!"]
      ensures itemName in catalog && !canEquip ==>
        !ok && player.slots == old(player.slots) &&
        npc.said == old(npc.said) + ["Sorry, but you cannot equip the " + itemName + "."]
    {
      if itemName !in catalog {
        return false;
      }
      var q := if catalog[itemName] then amount else 1;
      if canEquip {
        player.slots := EquipToBag(player.slots, NewItem(itemName, q));
        var _ := ChargePlayer(player, Wrap32(itemPrice * q));
        npc.Say("Congratulations! Here is your " + itemName + "!");
        ok := true;
      } else {
        npc.Say("Sorry, but you cannot equip the " + itemName + ".");
        ok := false;
      }
    }
  }

  /** What a sale does to the slots: the item goes into the bag, then the price is charged. */
  function Sale(slots: seq<Slot>, itemName: string, q: int, itemPrice: int): seq<Slot>
    requires HasBag(slots)
  {
    Charge(EquipToBag(slots, NewItem(itemName, q)), Wrap32(itemPrice * q)).0
  }

  // ---------------------------------------------------------------------
  // The buyer

  /** The inner loop of payPlayer over one slot: every money stack grows by `amount`. */
  method PaySlot(objs: seq<Obj>, amount: int) returns (paid: seq<Obj>, found: bool)
    ensures paid == PayObjs(objs, amount)
    ensures found <==> !NoMoney(objs)
  {
    paid, found := objs, false;
    var j := 0;
    while j < |objs|
      invariant 0 <= j <= |objs| == |paid|
      invariant forall k :: 0 <= k < j ==> paid[k] == Bump(objs[k], amount)
      invariant forall k :: j <= k < |objs| ==> paid[k] == objs[k]
      invariant found <==> exists k :: 0 <= k < j && objs[k].Money?
    {
      if paid[j].Money? {
        paid := paid[j := Money(paid[j].quantity + amount)];
        found := true;
      }
      j := j + 1;
    }
  }

  class BuyerBehaviour {
    const items: map<string, int>
    const itemOrder: seq<string>
    var chosenItem: Option<string>
    var amount: int

    constructor (items: map<string, int>, itemOrder: seq<string>)
      requires ListsKeys(itemOrder, items)
      ensures this.items == items && this.itemOrder == itemOrder
      ensures chosenItem == None && amount == 0
    {
      this.items, this.itemOrder := items, itemOrder;
      chosenItem, amount := None, 0;
    }

    predicate HasItem(item: Option<string>)
    {
      item.Some? && item.value in items
    }

    method SetAmount(text: string)
      modifies this`amount
      ensures amount == AmountOf(text)
    {
      amount := AmountOf(text);
    }

    /** The item and amount of a quote, remembered for the "yes". */
    method Choose(item: Option<string>, text: string)
      modifies this`chosenItem, this`amount
      ensures chosenItem == item && amount == AmountOf(text)
    {
      chosenItem := item;
      SetAmount(text);
    }

    /** payPlayer: add to every money stack; only without any, a new stack in the bag. */
    method PayPlayer(player: Player, amount: int)
      requires HasBag(player.slots)
      modifies player`slots
      ensures player.slots == Pay(old(player.slots), amount)
    {
      var found := false;
      var i := 0;
      while i < |player.slots|
        invariant 0 <= i <= |player.slots| == |old(player.slots)|
        invariant forall k :: 0 <= k < i ==>
          player.slots[k] == old(player.slots)[k].(objects := PayObjs(old(player.slots)[k].objects, amount))
        invariant forall k :: i <= k < |player.slots| ==> player.slots[k] == old(player.slots)[k]
        invariant found <==> exists k :: 0 <= k < i && !NoMoney(old(player.slots)[k].objects)
      {
        var paid, f := PaySlot(player.slots[i].objects, amount);
        player.slots := player.slots[i := player.slots[i].(objects := paid)];
        found := found || f;
        i := i + 1;
      }
      assert player.slots == PayAll(old(player.slots), amount);
      if !found {
        PayAllNoMoney(old(player.slots), amount);
        var b := FindSlot(player.slots, "bag").value;
        player.slots := player.slots[b := player.slots[b].(objects := player.slots[b].objects + [Money(amount)])];
      }
    }

    /**
     * The slot-level removeItem: count matching items until `amount` are
     * seen, remembering them; with too few, change nothing; otherwise
     * remove the remembered ones.
     */
    method RemoveItemFromSlot(objs: seq<Obj>, itemName: string, amount: int) returns (rest: seq<Obj>, ok: bool)
      ensures (rest, ok) == RemoveFromSlot(objs, itemName, amount)
    {
      var count := 0;
      var toBeRemoved: set<nat> := {};
      var j := 0;
      while j < |objs| && count < amount
        invariant 0 <= j <= |objs|
        invariant count == CountBefore(objs, itemName, j)
        invariant StopFrom(objs, itemName, amount, j) == StopFrom(objs, itemName, amount, 0)
        invariant forall k: nat :: k in toBeRemoved <==> k < j && IsItemNamed(objs[k], itemName)
      {
        if IsItemNamed(objs[j], itemName) {
          count := count + 1;
          toBeRemoved := toBeRemoved + {j};
        }
        j := j + 1;
      }
      if count < amount {
        return objs, false;
      }
      rest := [];
      var k := 0;
      while k < |objs|
        invariant 0 <= k <= |objs|
        invariant rest == DropBefore(objs, itemName, j, k)
      {
        if k !in toBeRemoved {
          rest := rest + [objs[k]];
        }
        k := k + 1;
      }
      ok := true;
    }

    /** The player-level removeItem: the bag first, then every slot in order. */
    method RemoveItem(player: Player, itemName: string, amount: int) returns (ok: bool)
      requires HasBag(player.slots)
      modifies player`slots
      ensures (player.slots, ok) == RemoveFromPlayer(old(player.slots), itemName, amount)
    {
      var b := FindSlot(player.slots, "bag").value;
      var rest, done := RemoveItemFromSlot(player.slots[b].objects, itemName, amount);
      if done {
        player.slots := WithObjects(player.slots, b, rest);
        return true;
      }
      var i := 0;
      while i < |player.slots|
        invariant 0 <= i <= |player.slots|
        invariant player.slots == old(player.slots)
        invariant RemoveFromSlots(player.slots, i, itemName, amount) == RemoveFromSlots(player.slots, 0, itemName, amount)
      {
        rest, done := RemoveItemFromSlot(player.slots[i].objects, itemName, amount);
        if done {
          player.slots := WithObjects(player.slots, i, rest);
          return true;
        }
        i := i + 1;
      }
      return false;
    }

    /** onBuy: the player is paid only when the items could be taken. */
    method OnBuy(npc: SpeakerNPC, player: Player, itemName: string, amount: int, itemPrice: int) returns (ok: bool)
      requires HasBag(player.slots)
      modifies npc`said, player`slots
      ensures var r := RemoveFromPlayer(old(player.slots), itemName, amount);
        ok == r.1 &&
        (ok ==> player.slots == Pay(r.0, Wrap32(itemPrice * amount)) &&
                npc.said == old(npc.said) + ["Thanks! Here is your money."]) &&
        (!ok ==> player.slots == old(player.slots) &&
                 npc.said == old(npc.said) + ["Sorry! You don't have enough " + itemName + "."])
    {
      RemoveFromPlayerSpec(player.slots, itemName, amount);
      ok := RemoveItem(player, itemName, amount);
      if ok {
        PayPlayer(player, Wrap32(itemPrice * amount));
        npc.Say("Thanks! Here is your money.");
      } else {
        npc.Say("Sorry! You don't have enough " + itemName + ".");
      }
    }
  }

  // ---------------------------------------------------------------------
  // The healer

  class HealerBehaviour {
    const items: map<string, int>

    constructor (cost: int)
      ensures items == map["heal" := cost]
    {
      items := map["heal" := cost];
    }

    /** heal: full hit points and no poison. */
    method Heal(player: Player)
      modifies player`hp, player`poisoned
      ensures player.hp == player.baseHp && !player.poisoned
    {
      player.hp := player.baseHp;
      player.poisoned := false;
    }
  }

  // ---------------------------------------------------------------------
  // What a sale and a purchase do to the player's money

  lemma EquipTotal(slots: seq<Slot>, o: Obj)
    requires HasBag(slots) && !o.Money?
    ensures TotalMoney(EquipToBag(slots, o)) == TotalMoney(slots)
  {
    var b := FindSlot(slots, "bag").value;
    TotalUpdate(slots, b, slots[b].objects + [o]);
    ConcatMoney(slots[b].objects, [o]);
  }

  lemma EquipBag(slots: seq<Slot>, o: Obj)
    requires HasBag(slots) && !o.Money?
    ensures var b := FindSlot(slots, "bag").value;
      NonMoney(EquipToBag(slots, o)[b].objects) == NonMoney(slots[b].objects) + [o]
  {
    var b := FindSlot(slots, "bag").value;
    ConcatNonMoney(slots[b].objects, [o]);
  }

  lemma EquipMoneyStacks(slots: seq<Slot>, o: Obj)
    requires HasBag(slots) && !o.Money?
    ensures NonNegMoney(slots) ==> NonNegMoney(EquipToBag(slots, o))
    ensures NoMoneyAnywhere(EquipToBag(slots, o)) <==> NoMoneyAnywhere(slots)
  {
    var b := FindSlot(slots, "bag").value;
    var e := EquipToBag(slots, o);
    var objs := slots[b].objects + [o];
    assert e[b].objects == objs;
    forall k | 0 <= k < |slots|
      ensures NoMoney(e[k].objects) <==> NoMoney(slots[k].objects)
      ensures NonNegObjs(slots[k].objects) ==> NonNegObjs(e[k].objects)
    {
      if k == b {
        assert forall m :: 0 <= m < |slots[b].objects| ==> objs[m] == slots[b].objects[m];
      }
    }
  }

  /**
   * A sale the player can afford: the item is added to the bag (the rest
   * of every slot keeps its items) and the money drops by exactly the price.
   */
  lemma SaleSpec(slots: seq<Slot>, itemName: string, q: int, itemPrice: int)
    requires HasBag(slots) && NonNegMoney(slots) && itemName != "money"
    requires 0 <= Wrap32(itemPrice * q) <= TotalMoney(slots)
    ensures var r := Sale(slots, itemName, q, itemPrice); var b := FindSlot(slots, "bag").value;
      |r| == |slots| &&
      TotalMoney(r) == TotalMoney(slots) - Wrap32(itemPrice * q) &&
      NonMoney(r[b].objects) == NonMoney(slots[b].objects) + [NewItem(itemName, q)] &&
      forall k :: 0 <= k < |slots| && k != b ==> NonMoney(r[k].objects) == NonMoney(slots[k].objects)
  {
    var e := EquipToBag(slots, NewItem(itemName, q));
    EquipTotal(slots, NewItem(itemName, q));
    EquipBag(slots, NewItem(itemName, q));
    EquipMoneyStacks(slots, NewItem(itemName, q));
    ChargeSpec(e, Wrap32(itemPrice * q));
    ChargeKeepsNonMoney(e, Wrap32(itemPrice * q));
  }

  lemma {:induction false} ChargeObjsNegative(objs: seq<Obj>, j: nat, left: int)
    requires j <= |objs| && left < 0 && NonNegObjs(objs) && NoMoney(objs[..j])
    ensures ChargeObjs(objs, j, left).1 == if NoMoney(objs) then left else 0
    decreases |objs| - j
  {
    if j < |objs| {
      if !objs[j].Money? {
        assert objs[..j + 1] == objs[..j] + [objs[j]];
        ChargeObjsNegative(objs, j + 1, left);
      }
    } else {
      assert objs[..j] == objs;
    }
  }

  lemma {:induction false} ChargeSlotsNegative(slots: seq<Slot>, i: nat, left: int)
    requires i <= |slots| && left < 0 && NonNegMoney(slots)
    ensures ChargeSlots(slots, i, left).1 ==
      if forall k :: i <= k < |slots| ==> NoMoney(slots[k].objects) then left else 0
    decreases |slots| - i
  {
    if i < |slots| {
      var objs := slots[i].objects;
      assert objs[..0] == [];
      ChargeObjsNegative(objs, 0, left);
      if NoMoney(objs) {
        ChargeObjsNone(objs, 0, left);
        assert slots[i := slots[i].(objects := objs)] == slots;
        ChargeSlotsNegative(slots, i + 1, left);
      } else {
        var r := ChargeObjs(objs, 0, left);
        assert ChargeSlots(slots[i := slots[i].(objects := r.0)], i + 1, 0).1 == 0;
      }
    }
  }

  lemma {:induction false} ChargeObjsNone(objs: seq<Obj>, j: nat, left: int)
    requires j <= |objs| && NoMoney(objs)
    ensures ChargeObjs(objs, j, left) == (objs, left)
    decreases |objs| - j
  {
    if j < |objs| {
      ChargeObjsNone(objs, j + 1, left);
    }
  }

  /**
   * chargePlayer with a negative amount (the price of "buy -5 apple")
   * succeeds as soon as the player holds any money, and the player's money
   * then GROWS by the absolute amount.
   */
  lemma NegativeCharge(slots: seq<Slot>, amount: int)
    requires NonNegMoney(slots) && amount < 0
    ensures Charge(slots, amount).1 <==> !NoMoneyAnywhere(slots)
    ensures Charge(slots, amount).1 ==> TotalMoney(Charge(slots, amount).0) == TotalMoney(slots) - amount
  {
    ChargeSlotsNegative(slots, 0, amount);
    ChargeKeepsNonMoney(slots, amount);
  }

  /**
   * A sale at a negative price: the seller's affordability check passes
   * (any money is at least a negative price) and the player ends up with the
   * item AND more money than before.
   */
  lemma NegativeSale(slots: seq<Slot>, itemName: string, q: int, itemPrice: int)
    requires HasBag(slots) && NonNegMoney(slots) && itemName != "money" && !NoMoneyAnywhere(slots)
    requires Wrap32(itemPrice * q) < 0
    ensures TotalMoney(slots) >= Wrap32(itemPrice * q)
    ensures TotalMoney(Sale(slots, itemName, q, itemPrice)) == TotalMoney(slots) - Wrap32(itemPrice * q)
    ensures TotalMoney(Sale(slots, itemName, q, itemPrice)) > TotalMoney(slots)
  {
    NonNegTotal(slots);
    var e := EquipToBag(slots, NewItem(itemName, q));
    EquipTotal(slots, NewItem(itemName, q));
    EquipMoneyStacks(slots, NewItem(itemName, q));
    NegativeCharge(e, Wrap32(itemPrice * q));
  }

  /**
   * A purchase pays the price once per money stack of the player after the
   * items were taken, or once if there is none.
   */
  lemma PurchaseSpec(slots: seq<Slot>, itemName: string, amount: int, itemPrice: int)
    requires HasBag(slots)
    ensures var r := RemoveFromPlayer(slots, itemName, amount);
      r.1 ==> var p := Pay(r.0, Wrap32(itemPrice * amount));
        TotalMoney(p) == TotalMoney(r.0) +
          Wrap32(itemPrice * amount) * (if TotalCount(r.0) == 0 then 1 else TotalCount(r.0))
  {
    var r := RemoveFromPlayer(slots, itemName, amount);
    if r.1 {
      PayTotal(r.0, Wrap32(itemPrice * amount));
    }
  }

  // ---------------------------------------------------------------------
  // The actions of the trade rules

  /** "buy [amount] <item>": quote the price of a known item, or refuse and go back to ATTENDING. */
  method SellerProposeAction(npc: SpeakerNPC, text: string)
    requires npc.seller != null
    modifies npc`said, npc`state, npc.seller
    ensures Extends(old(npc.said), npc.said)
    ensures var c := ParseCommand(text);
      if npc.seller.HasItem(c.item) then
        npc.seller.chosenItem == c.item && npc.seller.amount == AmountOf(c.amountText) &&
        npc.said == old(npc.said) + [c.amountText + " " + c.item.value + " costs " +
          IntToString(Wrap32(npc.seller.items[c.item.value] * npc.seller.amount)) + ". Do you want to buy?"] &&
        npc.state == old(npc.state)
      else
        npc.seller.chosenItem == old(npc.seller.chosenItem) && npc.seller.amount == old(npc.seller.amount) &&
        npc.said == old(npc.said) + ["Sorry, I don't sell " + NameOrNull(c.item)] &&
        npc.state == ATTENDING
  {
    var seller := npc.seller;
    var c := ParseCommand(text);
    if seller.HasItem(c.item) {
      seller.Choose(c.item, c.amountText);
      var price := Wrap32(seller.items[c.item.value] * seller.amount);
      npc.Say(c.amountText + " " + c.item.value + " costs " + IntToString(price) + ". Do you want to buy?");
    } else {
      npc.Say("Sorry, I don't sell " + NameOrNull(c.item));
      npc.state := ATTENDING;
    }
  }

  /** "yes" to a seller: refuse when the player's money is below the quote, otherwise sell. */
  method SellerConfirmAction(npc: SpeakerNPC, player: Player, catalog: map<string, bool>, canEquip: bool)
    requires npc.seller != null && npc.seller.chosenItem.Some? && npc.seller.chosenItem.value in npc.seller.items
    requires canEquip ==> HasBag(player.slots)
    modifies npc`said, player`slots
    ensures Extends(old(npc.said), npc.said)
    ensures var seller := npc.seller; var name := seller.chosenItem.value; var price := seller.items[name];
      if TotalMoney(old(player.slots)) < Wrap32(price * seller.amount) then
        npc.said == old(npc.said) + ["A real pity! You don't have enough money!"] && player.slots == old(player.slots)
      else if name in catalog && canEquip then
        player.slots == Sale(old(player.slots), name, if catalog[name] then seller.amount else 1, price) &&
        npc.said == old(npc.said) + ["Congratulations! Here is your " + name + "!"]
      else if name in catalog then
        player.slots == old(player.slots) &&
        npc.said == old(npc.said) + ["Sorry, but you cannot equip the " + name + "."]
      else
        player.slots == old(player.slots) && npc.said == old(npc.said)
  {
    var seller := npc.seller;
    var name := seller.chosenItem.value;
    var price := seller.items[name];
    var money := PlayerMoney(player);
    if money < Wrap32(price * seller.amount) {
      npc.Say("A real pity! You don't have enough money!");
      return;
    }
    var _ := seller.OnSell(npc, player, name, seller.amount, price, catalog, canEquip);
  }

  /** "sell [amount] <item>": quote what a known item is worth, or refuse and go back to ATTENDING. */
  method BuyerProposeAction(npc: SpeakerNPC, text: string)
    requires npc.buyer != null
    modifies npc`said, npc`state, npc.buyer
    ensures Extends(old(npc.said), npc.said)
    ensures var c := ParseCommand(text);
      if npc.buyer.HasItem(c.item) then
        npc.buyer.chosenItem == c.item && npc.buyer.amount == AmountOf(c.amountText) &&
        npc.said == old(npc.said) + [c.amountText + " " + c.item.value + " is worth " +
          IntToString(Wrap32(npc.buyer.items[c.item.value] * npc.buyer.amount)) + ". Do you want to sell?"] &&
        npc.state == old(npc.state)
      else
        npc.buyer.chosenItem == old(npc.buyer.chosenItem) && npc.buyer.amount == old(npc.buyer.amount) &&
        npc.said == old(npc.said) + ["Sorry, I don't buy " + NameOrNull(c.item)] &&
        npc.state == ATTENDING
  {
    var buyer := npc.buyer;
    var c := ParseCommand(text);
    if buyer.HasItem(c.item) {
      buyer.Choose(c.item, c.amountText);
      var price := Wrap32(buyer.items[c.item.value] * buyer.amount);
      npc.Say(c.amountText + " " + c.item.value + " is worth " + IntToString(price) + ". Do you want to sell?");
    } else {
      npc.Say("Sorry, I don't buy " + NameOrNull(c.item));
      npc.state := ATTENDING;
    }
  }

  /** "yes" to a buyer: take the items, and pay only when that worked. */
  method BuyerConfirmAction(npc: SpeakerNPC, player: Player)
    requires npc.buyer != null && npc.buyer.chosenItem.Some? && npc.buyer.chosenItem.value in npc.buyer.items
    requires HasBag(player.slots)
    modifies npc`said, player`slots
    ensures Extends(old(npc.said), npc.said)
    ensures var buyer := npc.buyer; var name := buyer.chosenItem.value;
      var r := RemoveFromPlayer(old(player.slots), name, buyer.amount);
      (r.1 ==> player.slots == Pay(r.0, Wrap32(buyer.items[name] * buyer.amount)) &&
               npc.said == old(npc.said) + ["Thanks! Here is your money."]) &&
      (!r.1 ==> player.slots == old(player.slots) &&
                npc.said == old(npc.said) + ["Sorry! You don't have enough " + name + "."])
  {
    var buyer := npc.buyer;
    var name := buyer.chosenItem.value;
    var _ := buyer.OnBuy(npc, player, name, buyer.amount, buyer.items[name]);
  }

  /** "heal": quote a positive cost; at no cost, heal at once and go back to ATTENDING. */
  method HealerProposeAction(npc: SpeakerNPC, player: Player)
    requires npc.healer != null && "heal" in npc.healer.items
    modifies npc`said, npc`state, player`hp, player`poisoned
    ensures Extends(old(npc.said), npc.said)
    ensures var cost := npc.healer.items["heal"];
      if cost > 0 then
        npc.said == old(npc.said) + ["Healing costs " + IntToString(cost) + ". Do you want to pay?"] &&
        npc.state == old(npc.state) && player.hp == old(player.hp) && player.poisoned == old(player.poisoned)
      else
        npc.said == old(npc.said) + ["You are healed. How may I help you?"] &&
        player.hp == player.baseHp && !player.poisoned && npc.state == ATTENDING
  {
    var healer := npc.healer;
    var cost := healer.items["heal"];
    if cost > 0 {
      npc.Say("Healing costs " + IntToString(cost) + ". Do you want to pay?");
    } else {
      npc.Say("You are healed. How may I help you?");
      healer.Heal(player);
      npc.state := ATTENDING;
    }
  }

  /**
   * "yes" to a healer: charge the cost when the player can pay it.  The
   * player is charged but not healed.
   */
  method HealerConfirmAction(npc: SpeakerNPC, player: Player)
    requires npc.healer != null && "heal" in npc.healer.items
    modifies npc`said, player`slots
    ensures Extends(old(npc.said), npc.said)
    ensures var price := npc.healer.items["heal"];
      if TotalMoney(old(player.slots)) < price then
        npc.said == old(npc.said) + ["A real pity! You don't have enough money!"] && player.slots == old(player.slots)
      else
        npc.said == old(npc.said) && player.slots == Charge(old(player.slots), price).0
    ensures player.hp == old(player.hp) && player.poisoned == old(player.poisoned)
  {
    var price := npc.healer.items["heal"];
    var money := PlayerMoney(player);
    if money < price {
      npc.Say("A real pity! You don't have enough money!");
      return;
    }
    var _ := ChargePlayer(player, price);
  }

  // ---------------------------------------------------------------------
  // Firing a rule

  /** What the action of a rule needs of the NPC (its behaviour) and of the player. */
  predicate ActionReady(npc: SpeakerNPC, a: Act, player: Player, canEquip: bool)
    reads npc, npc.seller, npc.buyer, player
  {
    match a
    case SellerPropose => npc.seller != null
    case SellerConfirm =>
      npc.seller != null && npc.seller.chosenItem.Some? && npc.seller.chosenItem.value in npc.seller.items &&
      (canEquip ==> HasBag(player.slots))
    case BuyerPropose => npc.buyer != null
    case BuyerConfirm =>
      npc.buyer != null && npc.buyer.chosenItem.Some? && npc.buyer.chosenItem.value in npc.buyer.items &&
      HasBag(player.slots)
    case HealerPropose => npc.healer != null && "heal" in npc.healer.items
    case HealerConfirm => npc.healer != null && "heal" in npc.healer.items
    case _ => true
  }

  /** `now` continues `before`: the NPC only ever adds to what it said. */
  predicate Extends(before: seq<string>, now: seq<string>)
  {
    |before| <= |now| && now[..|before|] == before
  }

  /** What a rule's action may change: the NPC's words and state, the traders' choice, the player's money, items and health. */
  datatype Snapshot = Snapshot(
    said: seq<string>, state: int, slots: seq<Slot>, hp: int, poisoned: bool,
    sellerChosen: Option<string>, sellerAmount: int, buyerChosen: Option<string>, buyerAmount: int)

  function Snap(npc: SpeakerNPC, player: Player): Snapshot
    reads npc, npc.seller, npc.buyer, player
  {
    Snapshot(npc.said, npc.state, player.slots, player.hp, player.poisoned,
             if npc.seller != null then npc.seller.chosenItem else None,
             if npc.seller != null then npc.seller.amount else 0,
             if npc.buyer != null then npc.buyer.chosenItem else None,
             if npc.buyer != null then npc.buyer.amount else 0)
  }

  /** The seller's actions, from the state `b` to the current one. */
  predicate SellerDone(b: Snapshot, npc: SpeakerNPC, a: Act, player: Player, text: string,
                       catalog: map<string, bool>, canEquip: bool)
    requires a == SellerPropose || a == SellerConfirm
    reads npc, npc.seller, npc.buyer, player
  {
    var s := Snap(npc, player);
    npc.seller != null &&
    if a == SellerPropose then
      var c := ParseCommand(text);
      if npc.seller.HasItem(c.item) then
        var n := AmountOf(c.amountText);
        s == b.(said := b.said + [c.amountText + " " + c.item.value + " costs " +
                  IntToString(Wrap32(npc.seller.items[c.item.value] * n)) + ". Do you want to buy?"],
                sellerChosen := c.item, sellerAmount := n)
      else
        s == b.(said := b.said + ["Sorry, I don't sell " + NameOrNull(c.item)], state := ATTENDING)
    else
      b.sellerChosen.Some? && b.sellerChosen.value in npc.seller.items && (canEquip ==> HasBag(b.slots)) &&
      var name := b.sellerChosen.value;
      var price := npc.seller.items[name];
      if TotalMoney(b.slots) < Wrap32(price * b.sellerAmount) then
        s == b.(said := b.said + ["A real pity! You don't have enough money!"])
      else if name in catalog && canEquip then
        s == b.(said := b.said + ["Congratulations! Here is your " + name + "!"],
                slots := Sale(b.slots, name, if catalog[name] then b.sellerAmount else 1, price))
      else if name in catalog then
        s == b.(said := b.said + ["Sorry, but you cannot equip the " + name + "."])
      else
        s == b
  }

  /** The buyer's actions, from the state `b` to the current one. */
  predicate BuyerDone(b: Snapshot, npc: SpeakerNPC, a: Act, player: Player, text: string)
    requires a == BuyerPropose || a == BuyerConfirm
    reads npc, npc.seller, npc.buyer, player
  {
    var s := Snap(npc, player);
    npc.buyer != null &&
    if a == BuyerPropose then
      var c := ParseCommand(text);
      if npc.buyer.HasItem(c.item) then
        var n := AmountOf(c.amountText);
        s == b.(said := b.said + [c.amountText + " " + c.item.value + " is worth " +
                  IntToString(Wrap32(npc.buyer.items[c.item.value] * n)) + ". Do you want to sell?"],
                buyerChosen := c.item, buyerAmount := n)
      else
        s == b.(said := b.said + ["Sorry, I don't buy " + NameOrNull(c.item)], state := ATTENDING)
    else
      b.buyerChosen.Some? && b.buyerChosen.value in npc.buyer.items && HasBag(b.slots) &&
      var name := b.buyerChosen.value;
      var r := RemoveFromPlayer(b.slots, name, b.buyerAmount);
      if r.1 then
        s == b.(said := b.said + ["Thanks! Here is your money."],
                slots := Pay(r.0, Wrap32(npc.buyer.items[name] * b.buyerAmount)))
      else
        s == b.(said := b.said + ["Sorry! You don't have enough " + name + "."])
  }

  /** The healer's actions, from the state `b` to the current one. */
  predicate HealerDone(b: Snapshot, npc: SpeakerNPC, a: Act, player: Player)
    requires a == HealerPropose || a == HealerConfirm
    reads npc, npc.seller, npc.buyer, npc.healer, player
  {
    var s := Snap(npc, player);
    npc.healer != null && "heal" in npc.healer.items &&
    var cost := npc.healer.items["heal"];
    if a == HealerPropose then
      if cost > 0 then
        s == b.(said := b.said + ["Healing costs " + IntToString(cost) + ". Do you want to pay?"])
      else
        s == b.(said := b.said + ["You are healed. How may I help you?"], state := ATTENDING,
                hp := player.baseHp, poisoned := false)
    else if TotalMoney(b.slots) < cost then
      s == b.(said := b.said + ["A real pity! You don't have enough money!"])
    else
      s == b.(slots := Charge(b.slots, cost).0)
  }

  /**
   * What the action `a` did, from the state `b` to the current one.  An
   * action handed in by the caller of addGreeting changes nothing here.
   */
  predicate ActionDone(b: Snapshot, npc: SpeakerNPC, a: Act, player: Player, text: string,
                       catalog: map<string, bool>, canEquip: bool)
    reads npc, npc.seller, npc.buyer, npc.healer, player
  {
    match a
    case SellerPropose => SellerDone(b, npc, a, player, text, catalog, canEquip)
    case SellerConfirm => SellerDone(b, npc, a, player, text, catalog, canEquip)
    case BuyerPropose => BuyerDone(b, npc, a, player, text)
    case BuyerConfirm => BuyerDone(b, npc, a, player, text)
    case HealerPropose => HealerDone(b, npc, a, player)
    case HealerConfirm => HealerDone(b, npc, a, player)
    case _ => Snap(npc, player) == b
  }

  method RunSellerAction(npc: SpeakerNPC, a: Act, player: Player, text: string, catalog: map<string, bool>, canEquip: bool)
    requires a == SellerPropose || a == SellerConfirm
    requires ActionReady(npc, a, player, canEquip)
    modifies npc`said, npc`state, npc.seller, player`slots
    ensures Extends(old(npc.said), npc.said)
    ensures npc.state == if a == SellerPropose && !npc.seller.HasItem(ParseCommand(text).item) then ATTENDING else old(npc.state)
    ensures SellerDone(old(Snap(npc, player)), npc, a, player, text, catalog, canEquip)
  {
    if a == SellerPropose {
      SellerProposeAction(npc, text);
    } else {
      SellerConfirmAction(npc, player, catalog, canEquip);
    }
  }

  method RunBuyerAction(npc: SpeakerNPC, a: Act, player: Player, text: string)
    requires a == BuyerPropose || a == BuyerConfirm
    requires ActionReady(npc, a, player, false)
    modifies npc`said, npc`state, npc.buyer, player`slots
    ensures Extends(old(npc.said), npc.said)
    ensures npc.state == if a == BuyerPropose && !npc.buyer.HasItem(ParseCommand(text).item) then ATTENDING else old(npc.state)
    ensures BuyerDone(old(Snap(npc, player)), npc, a, player, text)
  {
    if a == BuyerPropose {
      BuyerProposeAction(npc, text);
    } else {
      BuyerConfirmAction(npc, player);
    }
  }

  method RunHealerAction(npc: SpeakerNPC, a: Act, player: Player)
    requires a == HealerPropose || a == HealerConfirm
    requires ActionReady(npc, a, player, false)
    modifies npc`said, npc`state, player`slots, player`hp, player`poisoned
    ensures Extends(old(npc.said), npc.said)
    ensures npc.state == if a == HealerPropose && npc.healer.items["heal"] <= 0 then ATTENDING else old(npc.state)
    ensures HealerDone(old(Snap(npc, player)), npc, a, player)
  {
    if a == HealerPropose {
      HealerProposeAction(npc, player);
    } else {
      HealerConfirmAction(npc, player);
    }
  }

  /** The action of a rule, after the rule moved the NPC to its target state. */
  method RunAction(npc: SpeakerNPC, a: Act, player: Player, text: string, catalog: map<string, bool>, canEquip: bool)
    requires ActionReady(npc, a, player, canEquip)
    modifies npc`said, npc`state, npc.seller, npc.buyer, player`slots, player`hp, player`poisoned
    ensures Extends(old(npc.said), npc.said)
    ensures a == SellerPropose ==>
      npc.state == if npc.seller.HasItem(ParseCommand(text).item) then old(npc.state) else ATTENDING
    ensures a == BuyerPropose ==>
      npc.state == if npc.buyer.HasItem(ParseCommand(text).item) then old(npc.state) else ATTENDING
    ensures a == HealerPropose ==>
      npc.state == if npc.healer.items["heal"] > 0 then old(npc.state) else ATTENDING
    ensures !(a.SellerPropose? || a.BuyerPropose? || a.HealerPropose?) ==> npc.state == old(npc.state)
    ensures ActionDone(old(Snap(npc, player)), npc, a, player, text, catalog, canEquip)
  {
    if a == SellerPropose || a == SellerConfirm {
      RunSellerAction(npc, a, player, text, catalog, canEquip);
    } else if a == BuyerPropose || a == BuyerConfirm {
      RunBuyerAction(npc, a, player, text);
    } else if a == HealerPropose || a == HealerConfirm {
      RunHealerAction(npc, a, player);
    }
  }

  /** The reply a rule says: the `choice`-th of its replies, or none. */
  function Reply(rule: Rule, choice: nat): seq<string>
  {
    if rule.replies != [] then [rule.replies[choice % |rule.replies|]] else []
  }

  /** The first half of firing a rule: the NPC moves to the rule's target and says the reply. */
  method Announce(npc: SpeakerNPC, rule: Rule, choice: nat)
    modifies npc`said, npc`state
    ensures npc.said == old(npc.said) + Reply(rule, choice) && npc.state == rule.target
  {
    npc.state := rule.target;
    if rule.replies != [] {
      npc.Say(rule.replies[choice % |rule.replies|]);
    }
  }

  /**
   * A rule fires: the NPC moves to the rule's target state, says the reply
   * (the `choice`-th of several), then runs the action, which may move the
   * NPC elsewhere; the action's state wins over the rule's target.
   */
  method Fire(npc: SpeakerNPC, rule: Rule, player: Player, text: string,
              catalog: map<string, bool>, canEquip: bool, choice: nat)
    requires ActionReady(npc, rule.action, player, canEquip)
    modifies npc`said, npc`state, npc.seller, npc.buyer, player`slots, player`hp, player`poisoned
    ensures Extends(old(npc.said) + Reply(rule, choice), npc.said)
    ensures rule.action == SellerPropose ==>
      npc.state == if npc.seller.HasItem(ParseCommand(text).item) then rule.target else ATTENDING
    ensures rule.action == BuyerPropose ==>
      npc.state == if npc.buyer.HasItem(ParseCommand(text).item) then rule.target else ATTENDING
    ensures rule.action == HealerPropose ==>
      npc.state == if npc.healer.items["heal"] > 0 then rule.target else ATTENDING
    ensures !(rule.action.SellerPropose? || rule.action.BuyerPropose? || rule.action.HealerPropose?) ==>
      npc.state == rule.target
    ensures ActionDone(old(Snap(npc, player)).(said := old(npc.said) + Reply(rule, choice), state := rule.target),
                       npc, rule.action, player, text, catalog, canEquip)
  {
    Announce(npc, rule, choice);
    ghost var b := Snap(npc, player);
    assert b == old(Snap(npc, player)).(said := old(npc.said) + Reply(rule, choice), state := rule.target);
    RunAction(npc, rule.action, player, text, catalog, canEquip);
  }
}
