/**
 * The delivery quest task (the pizza delivery): the baker hands the player a
 * pizza for one of the customers the player's level allows, dresses them in
 * the delivery uniform and notes the customer and the baking time in the
 * quest slot; reminding checks the delivery deadline, and the quest history
 * is written from the same slot.
 */
module DeliverItem {
  import opened JavaLang
  import opened Inventory
  import opened Players
  import opened Conversation
  import opened Behaviours

  /** The quest slot every part of the task reads (whatever slot the quest was built with). */
  const QUEST_SLOT: string := "pizza_delivery"

  /** The item the task hands out. */
  const ITEM_NAME: string := "pizza"

  /** The uniform: only the second of the nine outfit layers is set, to 990. */
  const UNIFORM: Outfit := Outfit([None, Some(990), None, None, None, None, None, None, None])

  /** One customer's order. */
  datatype Order = Order(level: int, expectedMinutes: int, flavor: string, npcDescription: string)

  /**
   * The task's orders by customer name; `keys` is the map's iteration
   * order, which decides the order of the allowed customers and of the
   * baker's replies.
   */
  datatype Task = Task(orders: map<string, Order>, keys: seq<string>)

  ghost predicate ValidTask(t: Task)
  {
    (forall k :: k in t.orders <==> k in t.keys) &&
    (forall i, j :: 0 <= i < j < |t.keys| ==> t.keys[i] != t.keys[j])
  }

  // ---------------------------------------------------------------------
  // getAllowedCustomers

  /** The customers among `keys` whose order level the player has reached, in order. */
  function Allowed(keys: seq<string>, orders: map<string, Order>, level: int): (r: seq<string>)
    requires forall k :: k in keys ==> k in orders
    ensures forall n :: n in r <==> n in keys && level >= orders[n].level
    ensures |r| <= |keys|
  {
    if keys == [] then []
    else
      var init := Allowed(keys[..|keys| - 1], orders, level);
      var last := keys[|keys| - 1];
      assert keys == keys[..|keys| - 1] + [last];
      if level >= orders[last].level then init + [last] else init
  }

  method AllowedCustomers(task: Task, player: Player) returns (allowed: seq<string>)
    requires ValidTask(task)
    ensures allowed == Allowed(task.keys, task.orders, player.level)
    ensures forall n :: n in allowed <==> n in task.orders && player.level >= task.orders[n].level
  {
    allowed := [];
    var level := player.level;
    var i := 0;
    while i < |task.keys|
      invariant 0 <= i <= |task.keys|
      invariant allowed == Allowed(task.keys[..i], task.orders, level)
    {
      var name := task.keys[i];
      assert task.keys[..i + 1][..i] == task.keys[..i];
      if level >= task.orders[name].level {
        allowed := allowed + [name];
      }
      i := i + 1;
    }
    assert task.keys[..i] == task.keys;
  }

  // ---------------------------------------------------------------------
  // isDeliveryTooLate

  /** 60 * 1000 * expectedMinutes, evaluated in Java long arithmetic. */
  function DeadlineOffset(o: Order): int
  {
    Wrap64(60 * 1000 * o.expectedMinutes)
  }

  /**
   * isDeliveryTooLate at time `now` (milliseconds): false without an open
   * delivery; otherwise the slot holds "customer;bakeTime" and the delivery
   * is late once `now` passes bakeTime plus the order's minutes.  None is the
   * exception the Java code raises when the slot has no second field, a
   * time that does not parse as a long, or an unknown customer.
   */
  function IsDeliveryTooLate(task: Task, q: Quests, now: int): (r: Option<bool>)
    ensures !HasQuest(q, QUEST_SLOT) || IsQuestCompleted(q, QUEST_SLOT) ==> r == Some(false)
  {
    if !HasQuest(q, QUEST_SLOT) || IsQuestCompleted(q, QUEST_SLOT) then Some(false)
    else
      var data := Split(q[QUEST_SLOT], ';');
      if |data| < 2 then None
      else
        match ParseLong(data[1])
        case None => None
        case Some(bake) =>
          if data[0] !in task.orders then None
          else Some(now > Wrap64(bake + DeadlineOffset(task.orders[data[0]])))
  }

  /** The decimal form of a number contains no field separator. */
  lemma NoSeparatorInNumber(n: int)
    ensures ';' !in IntToString(n)
  {
    var s := IntToString(n);
    if n < 0 {
      assert s == "-" + NatToString(-n);
      assert forall k :: 1 <= k < |s| ==> s[k] == NatToString(-n)[k - 1];
    }
  }

  /**
   * The slot written when a delivery starts in QUEST_SLOT itself:
   * field 0 the customer, field 1 the baking time.
   */
  function StartedSlot(q: Quests, questSlot: string, name: string, bake: int): Quests
  {
    SetQuestField(SetQuestField(q, QUEST_SLOT, 0, name), questSlot, 1, IntToString(bake))
  }

  /**
   * Reading back what a start wrote into QUEST_SLOT: the first two fields
   * of the slot are the customer and the baking time.
   */
  lemma StartedFields(q: Quests, name: string, bake: int)
    requires ';' !in name
    ensures var data := Split(StartedSlot(q, QUEST_SLOT, name, bake)[QUEST_SLOT], ';');
      |data| >= 2 && data[0] == name && data[1] == IntToString(bake)
  {
    var ts := IntToString(bake);
    NoSeparatorInNumber(bake);
    var q1 := SetQuestField(q, QUEST_SLOT, 0, name);
    SetThenGet(q, QUEST_SLOT, 0, name, 0);
    SetThenGet(q1, QUEST_SLOT, 1, ts, 0);
    var q2 := SetQuestField(q1, QUEST_SLOT, 1, ts);
    var data := Split(q2[QUEST_SLOT], ';');
    assert QuestField(q2, QUEST_SLOT, 1) == Some(ts);
    assert QuestField(q2, QUEST_SLOT, 0) == Some(name);
  }

  /** After a start into QUEST_SLOT, field 0 of the slot names the customer. */
  lemma StartedCustomer(q: Quests, name: string, bake: int)
    requires ';' !in name
    ensures QuestField(StartedSlot(q, QUEST_SLOT, name, bake), QUEST_SLOT, 0) == Some(name)
  {
    NoSeparatorInNumber(bake);
    SetThenGet(SetQuestField(q, QUEST_SLOT, 0, name), QUEST_SLOT, 1, IntToString(bake), 0);
    SetThenGet(q, QUEST_SLOT, 0, name, 0);
  }

  /** The deadline check on a slot whose first two fields are a customer and a time. */
  lemma LateFromFields(task: Task, q: Quests, name: string, bake: int, now: int)
    requires name in task.orders && name != "done" && IsLong(bake)
    requires HasQuest(q, QUEST_SLOT) && QuestField(q, QUEST_SLOT, 0) == Some(name)
    requires var data := Split(q[QUEST_SLOT], ';');
      |data| >= 2 && data[0] == name && data[1] == IntToString(bake)
    ensures IsDeliveryTooLate(task, q, now) == Some(now > Wrap64(bake + DeadlineOffset(task.orders[name])))
  {
    ParseIntToString(bake, LONG_MIN, LONG_MAX);
  }

  /**
   * A delivery started at `bake` into QUEST_SLOT is late at `now` exactly
   * when `now` is past bake + 60000 * expectedMinutes (in long arithmetic).
   */
  lemma LateAfterStart(task: Task, q: Quests, name: string, bake: int, now: int)
    requires name in task.orders && ';' !in name && name != "done"
    requires IsLong(bake)
    ensures IsDeliveryTooLate(task, StartedSlot(q, QUEST_SLOT, name, bake), now)
      == Some(now > Wrap64(bake + DeadlineOffset(task.orders[name])))
  {
    var q2 := StartedSlot(q, QUEST_SLOT, name, bake);
    StartedFields(q, name, bake);
    StartedCustomer(q, name, bake);
    LateFromFields(task, q2, name, bake, now);
  }

  /**
   * A delivery started into another slot leaves QUEST_SLOT without a baking
   * time: when QUEST_SLOT was empty before, the deadline check then throws.
   */
  lemma StartElsewhereBreaksDeadline(task: Task, q: Quests, questSlot: string, name: string, bake: int, now: int)
    requires questSlot != QUEST_SLOT && QUEST_SLOT !in q
    requires ';' !in name && name != "done"
    ensures IsDeliveryTooLate(task, StartedSlot(q, questSlot, name, bake), now) == None
  {
    var q1 := SetQuestField(q, QUEST_SLOT, 0, name);
    assert Pad([], 1) == [""];
    assert q1[QUEST_SLOT] == name;
    SetThenGet(q, QUEST_SLOT, 0, name, 0);
    var q2 := StartedSlot(q, questSlot, name, bake);
    assert q2[QUEST_SLOT] == name;
  }

  // ---------------------------------------------------------------------
  // putOffUniform (also the reject action)

  /** Takes the uniform off again when every part of it is worn. */
  method PutOffUniform(player: Player)
    modifies player`outfit, player`originalOutfit
    ensures IsPartOf(UNIFORM, old(player.outfit)) && old(player.originalOutfit).Some? ==>
      player.outfit == old(player.originalOutfit).value && player.originalOutfit == None
    ensures IsPartOf(UNIFORM, old(player.outfit)) && old(player.originalOutfit).None? ==>
      player.outfit == old(player.outfit) && player.originalOutfit == None
    ensures !IsPartOf(UNIFORM, old(player.outfit)) ==>
      player.outfit == old(player.outfit) && player.originalOutfit == old(player.originalOutfit)
  {
    if IsPartOf(UNIFORM, player.outfit) {
      player.ReturnToOriginalOutfit();
    }
  }

  /** Wearing the uniform over any nine-layer outfit is wearing all of it. */
  lemma UniformWorn(o: Outfit)
    requires |o.parts| == |UNIFORM.parts|
    ensures IsPartOf(UNIFORM, Overlay(UNIFORM, o))
    ensures Overlay(UNIFORM, o).parts[1] == Some(990)
    ensures forall k :: 0 <= k < |o.parts| && k != 1 ==> Overlay(UNIFORM, o).parts[k] == o.parts[k]
  {
  }
  // ---------------------------------------------------------------------
  // prepareBaker: the baker describes every customer

  /** The baker's reply rules: one per customer, the name answered by the description. */
  function BakerReplies(task: Task): (r: seq<Rule>)
    requires ValidTask(task)
    ensures |r| == |task.keys|
    ensures forall i :: 0 <= i < |r| ==> r[i] == ReplyRule([task.keys[i]], task.orders[task.keys[i]].npcDescription)
  {
    seq(|task.keys|, i requires 0 <= i < |task.keys| =>
      ReplyRule([task.keys[i]], task.orders[task.keys[i]].npcDescription))
  }

  method PrepareBaker(task: Task, baker: SpeakerNPC)
    requires ValidTask(task)
    modifies baker`rules
    ensures baker.rules == old(baker.rules) + BakerReplies(task)
  {
    var i := 0;
    while i < |task.keys|
      invariant 0 <= i <= |task.keys|
      invariant baker.rules == old(baker.rules) + BakerReplies(task)[..i]
    {
      var name := task.keys[i];
      AddReply(baker, [name], task.orders[name].npcDescription);
      assert BakerReplies(task)[..i + 1] == BakerReplies(task)[..i] + [BakerReplies(task)[i]];
      i := i + 1;
    }
    assert BakerReplies(task)[..i] == BakerReplies(task);
  }

  /**
   * Asked for a customer's name while attending, the baker answers with that
   * customer's description, as long as no earlier rule claims the name
   * (so preparing the baker a second time changes no answer).
   */
  lemma BakerDescribes(pre: seq<Rule>, task: Task, post: seq<Rule>, name: string)
    requires ValidTask(task) && name in task.orders
    requires Silent(pre, ATTENDING, name)
    ensures Resolve(pre + BakerReplies(task) + post, ATTENDING, name)
      == Some(ReplyRule([name], task.orders[name].npcDescription))
  {
    var rs := BakerReplies(task);
    var j :| 0 <= j < |task.keys| && task.keys[j] == name;
    assert Matches(rs[j], ATTENDING, name);
    forall i | 0 <= i < j
      ensures !Matches(rs[i], ATTENDING, name)
    {
      assert rs[i].triggers == [task.keys[i]];
    }
    FirstMatchAt(rs, ATTENDING, name, j);
    Embedded(pre, rs, post, ATTENDING, name);
  }

  // ---------------------------------------------------------------------
  // The start action

  /**
   * Text helpers the task calls but does not define: StringUtils.substitute
   * (fill "[key]" placeholders from a map), Grammar.quoteHash and
   * Grammar.quantityplnoun.
   */
  datatype TextHelpers = TextHelpers(
    substitute: (string, map<string, string>) -> string,
    quoteHash: string -> string,
    quantityPlNoun: (int, string, string) -> string)

  const START_TEXT: string :=
    "You must bring this [flavor] to [customerName] within [time]. Say \"pizza\" so that [customerName] knows that I sent you. Oh, and please wear this uniform on your way."
  const NO_SPACE_TEXT: string := "Come back when you have space to carry the pizza!"
  const FAILED_TEXT: string :=
    "I see you failed to deliver the pizza to [customerName] in time. Are you sure you will be more reliable this time?"
  const HURRY_TEXT: string := "You still have to deliver a pizza to [customerName], and hurry!"

  function StartParams(o: Order, name: string, h: TextHelpers): map<string, string>
  {
    map["flavor" := o.flavor, "customerName" := h.quoteHash("#" + name),
        "time" := h.quantityPlNoun(o.expectedMinutes, "minute", "one")]
  }

  /** The pizza handed out: flavour as its info string, bound to the player. */
  function Pizza(flavor: string, owner: string): (o: Obj)
    ensures IsItemNamed(o, ITEM_NAME) && !o.Money?
  {
    Item(ITEM_NAME, 1, Some(flavor), Some(owner))
  }

  /** None of what the delivery actions change has changed. */
  twostate predicate Untouched(npc: SpeakerNPC, player: Player)
    reads npc, player
  {
    npc.said == old(npc.said) && player.slots == old(player.slots) &&
    player.quests == old(player.quests) && player.outfit == old(player.outfit) &&
    player.originalOutfit == old(player.originalOutfit)
  }

  /**
   * Handing out the pizza for `name`: if it fits into the bag it goes there,
   * the NPC gives the instructions, the player wears the uniform, QUEST_SLOT
   * field 0 names the customer and field 1 of `questSlot` holds the time;
   * if it does not fit, the NPC only says so.
   */
  twostate predicate HandedOut(task: Task, npc: SpeakerNPC, player: Player, questSlot: string,
                               now: int, canCarry: bool, h: TextHelpers, name: string)
    requires name in task.orders
    reads npc, player
  {
    var o := task.orders[name];
    (canCarry ==>
      HasBag(old(player.slots)) &&
      player.slots == EquipToBag(old(player.slots), Pizza(o.flavor, player.name)) &&
      npc.said == old(npc.said) + [h.substitute(START_TEXT, StartParams(o, name, h))] &&
      |old(player.outfit.parts)| == |UNIFORM.parts| &&
      player.outfit == Overlay(UNIFORM, old(player.outfit)) &&
      player.originalOutfit == (if old(player.originalOutfit).None? then Some(old(player.outfit)) else old(player.originalOutfit)) &&
      player.quests == StartedSlot(old(player.quests), questSlot, name, now)) &&
    (!canCarry ==>
      npc.said == old(npc.said) + [NO_SPACE_TEXT] && player.slots == old(player.slots) &&
      player.quests == old(player.quests) && player.outfit == old(player.outfit) &&
      player.originalOutfit == old(player.originalOutfit))
  }

  /**
   * What the start action does.  With no allowed customer the random choice
   * throws and nothing changes (chosen == None); otherwise the pizza for one
   * allowed customer is handed out.
   */
  twostate predicate Started(task: Task, npc: SpeakerNPC, player: Player, questSlot: string,
                             now: int, canCarry: bool, h: TextHelpers, new chosen: Option<string>)
    requires ValidTask(task)
    reads npc, player
  {
    (chosen.None? <==> Allowed(task.keys, task.orders, player.level) == []) &&
    (chosen.None? ==> Untouched(npc, player)) &&
    (chosen.Some? ==>
      chosen.value in task.orders && player.level >= task.orders[chosen.value].level &&
      HandedOut(task, npc, player, questSlot, now, canCarry, h, chosen.value))
  }

  /** The player puts on the uniform and the delivery is recorded. */
  method DressAndRecord(player: Player, questSlot: string, now: int, name: string)
    requires |player.outfit.parts| == |UNIFORM.parts|
    modifies player`quests, player`outfit, player`originalOutfit
    ensures player.outfit == Overlay(UNIFORM, old(player.outfit))
    ensures player.originalOutfit == (if old(player.originalOutfit).None? then Some(old(player.outfit)) else old(player.originalOutfit))
    ensures player.quests == StartedSlot(old(player.quests), questSlot, name, now)
  {
    player.SetOutfitTemporarily(UNIFORM);
    player.SetQuest(QUEST_SLOT, 0, name);
    player.SetQuest(questSlot, 1, IntToString(now));
  }

  /** The pizza fits: it goes to the bag, the instructions are given, the delivery starts. */
  method GivePizza(o: Order, npc: SpeakerNPC, player: Player, questSlot: string,
                   now: int, h: TextHelpers, name: string, text: string)
    requires HasBag(player.slots)
    requires |player.outfit.parts| == |UNIFORM.parts|
    modifies npc`said, player`slots, player`quests, player`outfit, player`originalOutfit
    ensures player.slots == EquipToBag(old(player.slots), Pizza(o.flavor, player.name))
    ensures npc.said == old(npc.said) + [h.substitute(text, StartParams(o, name, h))]
    ensures player.outfit == Overlay(UNIFORM, old(player.outfit))
    ensures player.originalOutfit == (if old(player.originalOutfit).None? then Some(old(player.outfit)) else old(player.originalOutfit))
    ensures player.quests == StartedSlot(old(player.quests), questSlot, name, now)
  {
    player.slots := EquipToBag(player.slots, Pizza(o.flavor, player.name));
    npc.Say(h.substitute(text, StartParams(o, name, h)));
    DressAndRecord(player, questSlot, now, name);
  }

  method HandOut(task: Task, npc: SpeakerNPC, player: Player, questSlot: string,
                 now: int, canCarry: bool, h: TextHelpers, name: string)
    requires name in task.orders
    requires canCarry ==> HasBag(player.slots)
    requires |player.outfit.parts| == |UNIFORM.parts|
    modifies npc`said, player`slots, player`quests, player`outfit, player`originalOutfit
    ensures HandedOut(task, npc, player, questSlot, now, canCarry, h, name)
  {
    if canCarry {
      GivePizza(task.orders[name], npc, player, questSlot, now, h, name, START_TEXT);
    } else {
      npc.Say(NO_SPACE_TEXT);
    }
  }

  /** Rand.rand on a non-empty list: any one of its elements. */
  method Pick(allowed: seq<string>) returns (name: string)
    requires allowed != []
    ensures name in allowed
  {
    assert allowed[0] in allowed;
    name :| name in allowed;
  }

  /**
   * The start action.  `now` is the clock reading SetQuestToTimeStampAction
   * stores; `canCarry` is whether equipToInventoryOnly finds room for the
   * pizza (room means the pizza goes to the bag).
   */
  method StartQuest(task: Task, npc: SpeakerNPC, player: Player, questSlot: string,
                    now: int, canCarry: bool, h: TextHelpers) returns (chosen: Option<string>)
    requires ValidTask(task)
    requires canCarry ==> HasBag(player.slots)
    requires |player.outfit.parts| == |UNIFORM.parts|
    modifies npc`said, player`slots, player`quests, player`outfit, player`originalOutfit
    ensures Started(task, npc, player, questSlot, now, canCarry, h, chosen)
  {
    var allowed := AllowedCustomers(task, player);
    if allowed == [] {
      return None;
    }
    var name := Pick(allowed);
    chosen := Some(name);
    HandOut(task, npc, player, questSlot, now, canCarry, h, name);
  }
  // ---------------------------------------------------------------------
  // The remind action

  /** A pizza the baker handed out: an item "pizza" with an info string. */
  predicate IsDeliveryPizza(o: Obj)
  {
    o.Item? && o.name == ITEM_NAME && o.info.Some?
  }

  /** A slot's objects without the handed-out pizzas, in their order. */
  function KeepUntagged(objs: seq<Obj>): (r: seq<Obj>)
    ensures forall o :: o in r <==> o in objs && !IsDeliveryPizza(o)
    ensures |r| <= |objs|
  {
    if objs == [] then []
    else
      var init := KeepUntagged(objs[..|objs| - 1]);
      var last := objs[|objs| - 1];
      assert objs == objs[..|objs| - 1] + [last];
      if IsDeliveryPizza(last) then init else init + [last]
  }

  /** Every slot without the handed-out pizzas. */
  function WithoutPizzas(slots: seq<Slot>): (r: seq<Slot>)
    ensures |r| == |slots|
    ensures forall i :: 0 <= i < |r| ==> r[i] == slots[i].(objects := KeepUntagged(slots[i].objects))
  {
    seq(|slots|, i requires 0 <= i < |slots| => slots[i].(objects := KeepUntagged(slots[i].objects)))
  }

  /** Taking the pizzas away keeps every coin. */
  lemma {:induction false} KeepUntaggedMoney(objs: seq<Obj>)
    ensures SlotMoney(KeepUntagged(objs)) == SlotMoney(objs)
  {
    if objs != [] {
      var init := objs[..|objs| - 1];
      var last := objs[|objs| - 1];
      assert objs == init + [last];
      KeepUntaggedMoney(init);
      ConcatMoney(init, [last]);
      ConcatMoney(KeepUntagged(init), [last]);
    }
  }

  lemma {:induction false} WithoutPizzasMoney(slots: seq<Slot>)
    ensures TotalMoney(WithoutPizzas(slots)) == TotalMoney(slots)
  {
    if slots != [] {
      assert WithoutPizzas(slots)[1..] == WithoutPizzas(slots[1..]);
      KeepUntaggedMoney(slots[0].objects);
      WithoutPizzasMoney(slots[1..]);
    }
  }

  /** One slot's objects without the handed-out pizzas. */
  method DropFromSlot(objs: seq<Obj>) returns (kept: seq<Obj>)
    ensures kept == KeepUntagged(objs)
  {
    kept := [];
    var j := 0;
    while j < |objs|
      invariant 0 <= j <= |objs|
      invariant kept == KeepUntagged(objs[..j])
    {
      assert objs[..j + 1][..j] == objs[..j];
      if !IsDeliveryPizza(objs[j]) {
        kept := kept + [objs[j]];
      }
      j := j + 1;
    }
    assert objs[..j] == objs;
  }

  /** The pizzas still due are taken away: every handed-out pizza is dropped. */
  method DropDeliveryPizzas(player: Player)
    modifies player`slots
    ensures player.slots == WithoutPizzas(old(player.slots))
  {
    ghost var slots0 := player.slots;
    var i := 0;
    while i < |player.slots|
      invariant 0 <= i <= |player.slots| == |slots0|
      invariant forall k :: 0 <= k < i ==> player.slots[k] == WithoutPizzas(slots0)[k]
      invariant forall k :: i <= k < |slots0| ==> player.slots[k] == slots0[k]
    {
      var kept := DropFromSlot(player.slots[i].objects);
      player.slots := player.slots[i := player.slots[i].(objects := kept)];
      i := i + 1;
    }
  }

  function RemindParams(customer: string, h: TextHelpers): map<string, string>
  {
    map["customerName" := h.quoteHash("#" + customer)]
  }

  /** Too late: the pizzas are taken back and the quest is offered again. */
  method RemindLate(npc: SpeakerNPC, player: Player, customer: string, h: TextHelpers, text: string)
    modifies npc`said, npc`state, player`slots
    ensures player.slots == WithoutPizzas(old(player.slots))
    ensures npc.said == old(npc.said) + [h.substitute(text, RemindParams(customer, h))]
    ensures npc.state == QUEST_OFFERED
  {
    DropDeliveryPizzas(player);
    npc.Say(h.substitute(text, RemindParams(customer, h)));
    npc.state := QUEST_OFFERED;
  }

  /** Still in time: the NPC urges the player on. */
  method RemindInTime(npc: SpeakerNPC, customer: string, h: TextHelpers, text: string)
    modifies npc`said, npc`state
    ensures npc.said == old(npc.said) + [h.substitute(text, RemindParams(customer, h))]
    ensures npc.state == ATTENDING
  {
    npc.Say(h.substitute(text, RemindParams(customer, h)));
    npc.state := ATTENDING;
  }

  /** The remind action on an open delivery for `customer`. */
  method RemindDelivery(task: Task, npc: SpeakerNPC, player: Player, customer: string,
                        now: int, h: TextHelpers, failed: string, hurry: string) returns (ok: bool)
    modifies npc`said, npc`state, player`slots
    ensures var late := IsDeliveryTooLate(task, player.quests, now);
      (late.None? ==> !ok && npc.said == old(npc.said) && npc.state == old(npc.state) && player.slots == old(player.slots)) &&
      (late == Some(true) ==>
        ok && player.slots == WithoutPizzas(old(player.slots)) &&
        npc.said == old(npc.said) + [h.substitute(failed, RemindParams(customer, h))] && npc.state == QUEST_OFFERED) &&
      (late == Some(false) ==>
        ok && player.slots == old(player.slots) &&
        npc.said == old(npc.said) + [h.substitute(hurry, RemindParams(customer, h))] && npc.state == ATTENDING)
  {
    var late := IsDeliveryTooLate(task, player.quests, now);
    if late.None? {
      return false;
    }
    if late.value {
      RemindLate(npc, player, customer, h, failed);
    } else {
      RemindInTime(npc, customer, h, hurry);
    }
    ok := true;
  }

  /** A rejected quest asked about again: the start action is built (preparing the baker) and run. */
  method Restart(task: Task, npc: SpeakerNPC, baker: SpeakerNPC, player: Player, questSlot: string,
                 now: int, canCarry: bool, h: TextHelpers) returns (restarted: Option<string>)
    requires ValidTask(task)
    requires canCarry ==> HasBag(player.slots)
    requires |player.outfit.parts| == |UNIFORM.parts|
    modifies npc`said, baker`rules, player`slots, player`quests, player`outfit, player`originalOutfit
    ensures baker.rules == old(baker.rules) + BakerReplies(task)
    ensures Started(task, npc, player, questSlot, now, canCarry, h, restarted)
  {
    PrepareBaker(task, baker);
    restarted := StartQuest(task, npc, player, questSlot, now, canCarry, h);
  }

  /**
   * The remind action.  Without a delivery quest reading field 0 throws
   * (ok false); a rejected quest prepares the baker again and runs the
   * start action; otherwise the deadline decides, and a deadline check
   * that throws changes nothing either.
   */
  method RemindQuest(task: Task, npc: SpeakerNPC, baker: SpeakerNPC, player: Player, questSlot: string,
                     now: int, canCarry: bool, h: TextHelpers) returns (ok: bool, restarted: Option<string>)
    requires ValidTask(task)
    requires canCarry ==> HasBag(player.slots)
    requires |player.outfit.parts| == |UNIFORM.parts|
    modifies npc`said, npc`state, baker`rules, player`slots, player`quests, player`outfit, player`originalOutfit
    ensures var field := QuestField(old(player.quests), QUEST_SLOT, 0);
      field.None? ==> !ok && Untouched(npc, player) && npc.state == old(npc.state) && baker.rules == old(baker.rules)
    ensures QuestField(old(player.quests), QUEST_SLOT, 0) == Some("rejected") ==>
      ok && baker.rules == old(baker.rules) + BakerReplies(task) && npc.state == old(npc.state) &&
      Started(task, npc, player, questSlot, now, canCarry, h, restarted)
    ensures var field := QuestField(old(player.quests), QUEST_SLOT, 0);
      var late := IsDeliveryTooLate(task, old(player.quests), now);
      field.Some? && field.value != "rejected" ==>
        (late.None? ==> !ok && Untouched(npc, player) && npc.state == old(npc.state) && baker.rules == old(baker.rules)) &&
        (late == Some(true) ==>
          ok && player.slots == WithoutPizzas(old(player.slots)) &&
          npc.said == old(npc.said) + [h.substitute(FAILED_TEXT, RemindParams(field.value, h))] &&
          npc.state == QUEST_OFFERED && baker.rules == old(baker.rules) &&
          player.quests == old(player.quests) && player.outfit == old(player.outfit) &&
          player.originalOutfit == old(player.originalOutfit)) &&
        (late == Some(false) ==>
          ok && npc.said == old(npc.said) + [h.substitute(HURRY_TEXT, RemindParams(field.value, h))] &&
          npc.state == ATTENDING && baker.rules == old(baker.rules) && player.slots == old(player.slots) &&
          player.quests == old(player.quests) && player.outfit == old(player.outfit) &&
          player.originalOutfit == old(player.originalOutfit))
  {
    restarted := None;
    var field := QuestField(player.quests, QUEST_SLOT, 0);
    if field.None? {
      return false, None;
    }
    var customer := field.value;
    if customer == "rejected" {
      restarted := Restart(task, npc, baker, player, questSlot, now, canCarry, h);
      return true, restarted;
    }
    ok := RemindDelivery(task, npc, player, customer, now, h, FAILED_TEXT, HURRY_TEXT);
  }
  // ---------------------------------------------------------------------
  // Completion: the task is never completed by talking, and has no complete action

  /** buildQuestCompletedCondition: a condition that never holds. */
  function CompletedCondition(q: Quests): (holds: bool)
    ensures !holds
  {
    false
  }

  /** buildQuestCompleteAction: no action (null). */
  function CompleteAction(): (a: Option<Act>)
    ensures a.None?
  {
    None
  }

  // ---------------------------------------------------------------------
  // calculateHistoryProgress

  /** The history texts of the delivery quest, with their placeholders. */
  datatype DeliveryHistory = DeliveryHistory(
    whenItemWasGiven: string, whenToldAboutCustomer: string,
    whenInTime: string, whenOutOfTime: string)

  function HistoryParams(o: Order, customer: string): map<string, string>
  {
    map["flavor" := o.flavor, "customerName" := customer, "customerDescription" := o.npcDescription]
  }

  /**
   * calculateHistoryProgress, always on QUEST_SLOT: nothing once the
   * delivery is done; otherwise the pizza was given, the customer was
   * named, and the delivery is in time or late.  None is the exception the
   * Java code raises without a quest, for an unknown customer, or when the
   * deadline check throws.
   */
  function HistoryProgress(task: Task, hist: DeliveryHistory, h: TextHelpers, q: Quests, now: int): (r: Option<seq<string>>)
    ensures QuestField(q, QUEST_SLOT, 0).None? ==> r.None?
    ensures QuestField(q, QUEST_SLOT, 0) == Some("done") ==> r == Some([])
    ensures r.Some? && r.value != [] ==>
      |r.value| == 3 && IsDeliveryTooLate(task, q, now).Some? && QuestField(q, QUEST_SLOT, 0).value in task.orders
    ensures var state := QuestField(q, QUEST_SLOT, 0);
      var late := IsDeliveryTooLate(task, q, now);
      state.Some? && state.value != "done" && state.value in task.orders && late.Some? ==>
        var params := HistoryParams(task.orders[state.value], state.value);
        r == Some([h.substitute(hist.whenItemWasGiven, params),
                   h.substitute(hist.whenToldAboutCustomer, params),
                   h.substitute(if late.value then hist.whenOutOfTime else hist.whenInTime, params)])
    ensures var state := QuestField(q, QUEST_SLOT, 0);
      state.Some? && state.value != "done" && (state.value !in task.orders || IsDeliveryTooLate(task, q, now).None?) ==>
        r.None?
  {
    match QuestField(q, QUEST_SLOT, 0)
    case None => None
    case Some(state) =>
      if state == "done" then Some([])
      else
        var customer := Split(state, ';')[0];
        if customer !in task.orders then None
        else
          var params := HistoryParams(task.orders[customer], customer);
          match IsDeliveryTooLate(task, q, now)
          case None => None
          case Some(late) =>
            Some([h.substitute(hist.whenItemWasGiven, params),
                  h.substitute(hist.whenToldAboutCustomer, params),
                  h.substitute(if late then hist.whenOutOfTime else hist.whenInTime, params)])
  }

  /**
   * The history of a delivery started at `bake`: given, told, and in time
   * exactly until the deadline passes.
   */
  lemma HistoryAfterStart(task: Task, hist: DeliveryHistory, h: TextHelpers, q: Quests,
                          name: string, bake: int, now: int)
    requires name in task.orders && ';' !in name && name != "done"
    requires IsLong(bake)
    ensures var params := HistoryParams(task.orders[name], name);
      var late := now > Wrap64(bake + DeadlineOffset(task.orders[name]));
      HistoryProgress(task, hist, h, StartedSlot(q, QUEST_SLOT, name, bake), now) ==
        Some([h.substitute(hist.whenItemWasGiven, params),
              h.substitute(hist.whenToldAboutCustomer, params),
              h.substitute(if late then hist.whenOutOfTime else hist.whenInTime, params)])
  {
    LateAfterStart(task, q, name, bake, now);
    StartedCustomer(q, name, bake);
  }
}
