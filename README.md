# Stendhal NPC trading and the pizza delivery quest, in Dafny

This project models the part of the Stendhal game server that teaches
non-player characters (NPCs) to talk and trade, and the bookkeeping of a
quest built with the quest builder:

- `Behaviours` registers the standard conversation rules of an NPC
  (greeting, replies, job, help, quest, goodbye). It also makes an NPC a
  seller, a buyer or a healer. A seller quotes a price for "buy [amount]
  item" and, on "yes", charges the player's money and hands over the item.
  A buyer quotes for "sell [amount] item" and, on "yes", takes the items
  and pays the player. A healer quotes the cost of "heal" and charges it.
- `DeliverItemTask` is the pizza delivery task. The baker picks a customer
  the player's level allows. The player gets a bound pizza and a uniform,
  and the quest slot records the customer and the time. Asked again, the
  baker checks the deadline: a late player loses the pizzas and is offered
  the quest again. The task also writes its part of the quest history.
- `BuiltQuest` takes its quest slot from the lower-cased internal name,
  assembles the player's travel log (the quest history) and decides whether
  a finished quest may be repeated.
- `QuestNotStartedCondition` is the chat condition "the player has not
  started this quest", with its `equals`, `hashCode` and `toString`.

The Dafny modules follow that structure:

| file | module | models |
|---|---|---|
| java.dfy | `JavaLang` | the Java library pieces the code relies on: 32- and 64-bit wrap-around, `Integer.parseInt`/`Long.parseLong`, `String.split`, `trim`, `toLowerCase`, `indexOf`, `replace`, `String.hashCode` |
| inventory.dfy | `Inventory` | the player's slots and what is in them: money stacks, items, charging, paying, removing and equipping |
| player.dfy | `Players` | the player: outfit, the quest slots as `;`-separated fields, `setQuest`, temporary outfits |
| conversation.dfy | `Conversation` | the NPC's rule table and how a heard word selects a rule |
| behaviours.dfy | `Behaviours` | `Behaviours.java`: the registrations, the three behaviours and the rule actions |
| deliver.dfy | `DeliverItem` | `DeliverItemTask.java` |
| builtquest.dfy | `BuiltQuests` | `BuiltQuest.java` |
| condition.dfy | `QuestConditions` | `QuestNotStartedCondition.java` |

State that the Java code changes in place is modelled by classes:
`SpeakerNPC` (its rule table, current state and what it has said),
`SellerBehaviour`, `BuyerBehaviour`, `HealerBehaviour` and `Player`.
The trade and quest methods are proved against specification functions on
values (`Charge`, `Pay`, `RemoveFromPlayer`, `Sale`, `Allowed`,
`BakerReplies`, `WithoutPizzas`, ...), and the lemmas are proved about those
functions. The methods that dispatch a rule's action (`RunSellerAction`,
`RunBuyerAction`, `RunHealerAction`, `RunAction`, `Fire`) are instead tied
to the predicates `SellerDone`, `BuyerDone`, `HealerDone` and `ActionDone`.
These compare a snapshot of the NPC, its traders and the player before and
after the action.
Java exceptions (a null pointer, a number that does not parse, a random
pick from an empty list) are modelled as `None`, `ok == false` or "nothing
changed".

## Model

Paths are relative to the repository root.

| member | source | states |
|---|---|---|
| JavaLang.ParseIntToString | src/games/stendhal/server/entity/npc/Behaviours.java:146-152 | `Integer.parseInt` reads back the decimal form of every Java int |
| JavaLang.ParseRejectsNonDigit | src/games/stendhal/server/entity/npc/Behaviours.java:146-152 | a text with a character that is not an ASCII digit after its first character does not parse (within any bounds) |
| JavaLang.ReplaceAbsent | src/games/stendhal/server/entity/npc/quest/BuiltQuest.java:79-84 | `replace` leaves a text without the pattern unchanged |
| Conversation.Resolve | src/games/stendhal/server/entity/npc/Behaviours.java:105-109 | a selected rule is registered, listens to the word and belongs to the current state or to ANY; no selection means no such rule exists |
| Conversation.Embedded | src/games/stendhal/server/entity/npc/Behaviours.java:62-75 | rules added after earlier rules that ignore the word answer it as they would alone |
| Conversation.AnyStateFallback | src/games/stendhal/server/entity/npc/Behaviours.java:105-109 | an ANY-state rule answers in a state where no rule of that state listens |
| Behaviours.GreetingOpens | src/games/stendhal/server/entity/npc/Behaviours.java:42-45 | "hi", "hello", "greetings" or "hola" in IDLE selects the greeting rule, which leads to ATTENDING |
| Behaviours.ReplyAnswers | src/games/stendhal/server/entity/npc/Behaviours.java:62-75 | every trigger of a reply is answered with its text while attending |
| Behaviours.GoodbyeCloses | src/games/stendhal/server/entity/npc/Behaviours.java:105-109 | "bye", "farewell", "cya" or "adios" ends the conversation (IDLE) in any state that has no own rule for it |
| Behaviours.AddGreeting | src/games/stendhal/server/entity/npc/Behaviours.java:34-53 | exactly the greeting rule is appended and the wait action is set |
| Behaviours.AddReply | src/games/stendhal/server/entity/npc/Behaviours.java:62-75 | exactly one ATTENDING-to-ATTENDING reply rule for the triggers is appended |
| Behaviours.AddJob | src/games/stendhal/server/entity/npc/Behaviours.java:93-95 | a reply for "job" and "work" is appended |
| Behaviours.AddHelp | src/games/stendhal/server/entity/npc/Behaviours.java:97-99 | a reply for "help" and "ayuda" is appended |
| Behaviours.AddQuest | src/games/stendhal/server/entity/npc/Behaviours.java:85-91 | a rule answering "quest" and "task" with the given texts is appended |
| Behaviours.AddGoodbye | src/games/stendhal/server/entity/npc/Behaviours.java:101-109 | the goodbye rule for ANY state is appended and the bye message is set |
| Behaviours.BuildListing | src/games/stendhal/server/entity/npc/Behaviours.java:244-247 | the offer text lists every item in order, each followed by ", " |
| Behaviours.ListingSplits | src/games/stendhal/server/entity/npc/Behaviours.java:244-247 | each item of the order appears at its place in the listing |
| Behaviours.AddSeller | src/games/stendhal/server/entity/npc/Behaviours.java:236-331 | the seller is stored and its rule table (optional offer, "buy", "yes", "no") is appended |
| Behaviours.SellerDialogue | src/games/stendhal/server/entity/npc/Behaviours.java:249-330 | in that table "buy" leads to state 20, where "yes" confirms and "no" declines, both back to ATTENDING |
| Behaviours.AddBuyer | src/games/stendhal/server/entity/npc/Behaviours.java:472-558 | the buyer is stored and its rule table (optional offer, "sell", "yes", "no") is appended |
| Behaviours.BuyerDialogue | src/games/stendhal/server/entity/npc/Behaviours.java:485-557 | "sell" leads to state 30, where "yes" confirms and "no" declines |
| Behaviours.AddHealer | src/games/stendhal/server/entity/npc/Behaviours.java:573-627 | a new healer priced at `cost` is stored and its rule table is appended |
| Behaviours.HealerDialogue | src/games/stendhal/server/entity/npc/Behaviours.java:576-626 | "heal" leads to state 40, where "yes" confirms and "no" declines |
| Behaviours.ParseThreeWords | src/games/stendhal/server/entity/npc/Behaviours.java:270-279 | "buy 3 apple" names the item "apple" and the amount text "3" |
| Behaviours.ParseTwoWords | src/games/stendhal/server/entity/npc/Behaviours.java:270-279 | "buy apple" names "apple" with amount text "1" |
| Behaviours.ParseOneWord | src/games/stendhal/server/entity/npc/Behaviours.java:270-279 | a bare "buy" names no item (null) |
| Behaviours.AmountOfNumber | src/games/stendhal/server/entity/npc/Behaviours.java:146-152 | setAmount takes the number a text spells |
| Behaviours.AmountOfNonNumber | src/games/stendhal/server/entity/npc/Behaviours.java:146-152 | a text that is not a number gives the amount 1 |
| Behaviours.SellerBehaviour.SetAmount | src/games/stendhal/server/entity/npc/Behaviours.java:146-152 | the amount becomes the parsed number, or 1 |
| Behaviours.BuyerBehaviour.SetAmount | src/games/stendhal/server/entity/npc/Behaviours.java:364-370 | the same for the buyer |
| Behaviours.PlayerMoney | src/games/stendhal/server/entity/npc/Behaviours.java:158-172 | the result is the sum of every money stack in every slot |
| Behaviours.ChargePlayer | src/games/stendhal/server/entity/npc/Behaviours.java:174-203 | the slots become `Charge` of the old slots, and the result says whether the whole amount was taken |
| Inventory.ChargeSpec | src/games/stendhal/server/entity/npc/Behaviours.java:174-203 | a non-negative charge succeeds exactly when the player has that much money; it then leaves the total less the amount, and otherwise takes all money |
| Inventory.ChargeKeepsNonMoney | src/games/stendhal/server/entity/npc/Behaviours.java:174-203 | charging touches only money: the other objects stay as they were |
| Behaviours.NegativeCharge | src/games/stendhal/server/entity/npc/Behaviours.java:174-203 | a negative charge succeeds exactly when the player has some money stack, and then adds the amount's magnitude to the money |
| Behaviours.SellerBehaviour.OnSell | src/games/stendhal/server/entity/npc/Behaviours.java:205-233 | an unknown item changes nothing; a non-stackable one counts as amount 1; if equip works the item goes to the bag and the price is charged; otherwise the NPC apologises and the slots stay |
| Behaviours.SaleSpec | src/games/stendhal/server/entity/npc/Behaviours.java:205-233 | when the player can pay, after a sale the bag also holds the new item and the money total drops by exactly the price |
| Behaviours.NegativeSale | src/games/stendhal/server/entity/npc/Behaviours.java:300-323 | a negative price times amount passes the money check and the sale then raises the player's money |
| Behaviours.EquipTotal | src/games/stendhal/server/entity/npc/Behaviours.java:225-226 | equipping an item leaves the money total unchanged |
| Behaviours.SellerProposeAction | src/games/stendhal/server/entity/npc/Behaviours.java:264-296 | a sold item is chosen with its amount and the quote is said; otherwise the NPC says it does not sell it and returns to ATTENDING |
| Behaviours.SellerConfirmAction | src/games/stendhal/server/entity/npc/Behaviours.java:305-322 | with less money than the quote the NPC refuses and nothing changes; otherwise the sale of OnSell happens |
| Behaviours.BuyerBehaviour.PayPlayer | src/games/stendhal/server/entity/npc/Behaviours.java:376-400 | the slots become `Pay` of the old slots |
| Inventory.PayWithMoney | src/games/stendhal/server/entity/npc/Behaviours.java:376-400 | when the player has money stacks, each stack grows by the amount, so the total grows by the amount once per stack |
| Inventory.PayWithoutMoney | src/games/stendhal/server/entity/npc/Behaviours.java:376-400 | with no money stack, a new stack of the amount goes to the bag |
| Inventory.PayTotal | src/games/stendhal/server/entity/npc/Behaviours.java:376-400 | the money after paying in terms of the number of stacks |
| Behaviours.BuyerBehaviour.RemoveItemFromSlot | src/games/stendhal/server/entity/npc/Behaviours.java:410-437 | the result is `RemoveFromSlot` of the slot's objects |
| Inventory.RemoveFromSlotSpec | src/games/stendhal/server/entity/npc/Behaviours.java:410-437 | removal succeeds exactly when the slot holds enough of the item; it then takes exactly that many and keeps every other object in order; a failure changes nothing |
| Behaviours.BuyerBehaviour.RemoveItem | src/games/stendhal/server/entity/npc/Behaviours.java:439-457 | the slots become `RemoveFromPlayer` of the old slots |
| Inventory.RemoveFromPlayerSpec | src/games/stendhal/server/entity/npc/Behaviours.java:439-457 | removal from the player succeeds exactly when some slot can give the whole amount, and then changes only such a slot (the bag when it can) |
| Behaviours.PurchaseSpec | src/games/stendhal/server/entity/npc/Behaviours.java:459-469 | what a purchase leaves: removed items, then the payment |
| Behaviours.BuyerBehaviour.OnBuy | src/games/stendhal/server/entity/npc/Behaviours.java:459-469 | the player is paid price times amount exactly when the items could be taken; otherwise nothing changes and the NPC says so |
| Behaviours.BuyerProposeAction | src/games/stendhal/server/entity/npc/Behaviours.java:500-527 | a bought item is chosen with its amount and quoted; otherwise the NPC refuses and returns to ATTENDING |
| Behaviours.BuyerConfirmAction | src/games/stendhal/server/entity/npc/Behaviours.java:537-548 | the purchase of OnBuy for the chosen item and amount |
| Behaviours.HealerBehaviour.Heal | src/games/stendhal/server/entity/npc/Behaviours.java:566-570 | the player is back at full health and not poisoned |
| Behaviours.HealerProposeAction | src/games/stendhal/server/entity/npc/Behaviours.java:583-599 | a positive cost is quoted; at no cost the player is healed at once and the NPC returns to ATTENDING |
| Behaviours.HealerConfirmAction | src/games/stendhal/server/entity/npc/Behaviours.java:601-619 | the cost is charged when the player can pay it, and the player is not healed |
| Behaviours.RunSellerAction | src/games/stendhal/server/entity/npc/Behaviours.java:263-323 | `SellerDone`: a known item is quoted and chosen, an unknown one refused with a return to ATTENDING; a confirmation says "pity" without enough money, otherwise makes the `Sale` and congratulates, or says the item cannot be equipped; nothing else changes |
| Behaviours.RunBuyerAction | src/games/stendhal/server/entity/npc/Behaviours.java:499-550 | `BuyerDone`: a known item is quoted and chosen, an unknown one refused with a return to ATTENDING; a confirmation pays the player for the items `RemoveFromPlayer` takes, or says the player has not enough of them; nothing else changes |
| Behaviours.RunHealerAction | src/games/stendhal/server/entity/npc/Behaviours.java:583-619 | `HealerDone`: a positive cost is quoted; at no cost the player is healed and the NPC returns to ATTENDING; a confirmation says "pity" without enough money, otherwise charges the cost; nothing else changes |
| Behaviours.RunAction | src/games/stendhal/server/entity/npc/Behaviours.java:236-627 | `ActionDone`: a trader action has exactly the effect of that trader's method; any other action changes nothing; what the NPC said is only appended to; the state changes only on a refused proposal or a free heal, to ATTENDING |
| Behaviours.Fire | src/games/stendhal/server/entity/npc/Behaviours.java:249-626 | firing a rule moves the NPC to the rule's target and says its chosen reply, then the action has exactly the `ActionDone` effect from there, so a state the action sets wins |
| Players.SetThenGet | src/games/stendhal/server/entity/npc/quest/DeliverItemTask.java:132-133 | after `setQuest(slot, i, v)` field i reads v, other fields and other slots are unchanged |
| Players.Player.SetOutfitTemporarily | src/games/stendhal/server/entity/npc/quest/DeliverItemTask.java:131 | the uniform is worn over the outfit, and the original is kept unless one is kept already |
| Players.Player.ReturnToOriginalOutfit | src/games/stendhal/server/entity/npc/quest/DeliverItemTask.java:90-94 | the kept original outfit is restored and forgotten |
| DeliverItem.Allowed | src/games/stendhal/server/entity/npc/quest/DeliverItemTask.java:52-61 | a customer is allowed exactly when the player's level reaches its order's level |
| DeliverItem.AllowedCustomers | src/games/stendhal/server/entity/npc/quest/DeliverItemTask.java:52-61 | the loop returns the allowed customers in order |
| DeliverItem.IsDeliveryTooLate | src/games/stendhal/server/entity/npc/quest/DeliverItemTask.java:72-86 | no delivery or a finished one is never late |
| DeliverItem.LateAfterStart | src/games/stendhal/server/entity/npc/quest/DeliverItemTask.java:72-86 | right after a start at `bake`, the delivery is late exactly when `now` is past bake plus the order's minutes |
| DeliverItem.StartElsewhereBreaksDeadline | src/games/stendhal/server/entity/npc/quest/DeliverItemTask.java:132-133 | when the start time goes to another slot than the delivery slot, the deadline check fails (throws) |
| DeliverItem.PutOffUniform | src/games/stendhal/server/entity/npc/quest/DeliverItemTask.java:90-94 | the original outfit comes back only when the whole uniform is worn |
| DeliverItem.BakerReplies | src/games/stendhal/server/entity/npc/quest/DeliverItemTask.java:96-102 | one reply per customer, answering the name with the description |
| DeliverItem.PrepareBaker | src/games/stendhal/server/entity/npc/quest/DeliverItemTask.java:96-102 | the baker's rules gain exactly those replies |
| DeliverItem.BakerDescribes | src/games/stendhal/server/entity/npc/quest/DeliverItemTask.java:96-102 | asked for a customer's name, the baker answers with that customer's description |
| DeliverItem.StartQuest | src/games/stendhal/server/entity/npc/quest/DeliverItemTask.java:110-140 | without an allowed customer nothing changes; otherwise an allowed customer is picked; with room the pizza goes to the bag, the player wears the uniform and the slots record customer and time; without room the NPC only says so |
| DeliverItem.RemindDelivery | src/games/stendhal/server/entity/npc/quest/DeliverItemTask.java:166-186 | late: every handed-out pizza is dropped and the quest is offered again; in time: the player is urged on |
| DeliverItem.WithoutPizzasMoney | src/games/stendhal/server/entity/npc/quest/DeliverItemTask.java:175-179 | dropping the pizzas keeps all money |
| DeliverItem.DropDeliveryPizzas | src/games/stendhal/server/entity/npc/quest/DeliverItemTask.java:175-179 | exactly the pizzas with an info string are removed from every slot |
| DeliverItem.RemindQuest | src/games/stendhal/server/entity/npc/quest/DeliverItemTask.java:158-189 | no quest: nothing changes; "rejected": the baker is prepared and the start action runs; otherwise the deadline decides as in RemindDelivery |
| DeliverItem.CompletedCondition | src/games/stendhal/server/entity/npc/quest/DeliverItemTask.java:191-194 | the completed condition never holds |
| DeliverItem.CompleteAction | src/games/stendhal/server/entity/npc/quest/DeliverItemTask.java:196-199 | there is no complete action |
| DeliverItem.HistoryProgress | src/games/stendhal/server/entity/npc/quest/DeliverItemTask.java:212-235 | None without a quest; no progress lines once done; for a known customer whose deadline check succeeds, the item-given line, the told-about-customer line and the in-time or out-of-time line for that check, all with the customer's parameters; an unknown customer or a failed check gives None |
| DeliverItem.HistoryAfterStart | src/games/stendhal/server/entity/npc/quest/DeliverItemTask.java:212-235 | right after a start, the lines are "given", "told", then "in time" exactly until the deadline passes |
| BuiltQuests.NewBuiltQuest | src/games/stendhal/server/entity/npc/quest/BuiltQuest.java:40-43 | the slot is the internal name in lower case, otherwise unchanged |
| BuiltQuests.SlotIgnoresCase | src/games/stendhal/server/entity/npc/quest/BuiltQuest.java:40-43 | names that differ only in case give the same slot |
| BuiltQuests.RepeatableFlag | src/games/stendhal/server/entity/npc/quest/BuiltQuest.java:93-97 | the quest is listed as repeatable exactly for a positive repeat time |
| BuiltQuests.RepeatableFlagAtZero | src/games/stendhal/server/entity/npc/quest/BuiltQuest.java:93-97 | with a repeat time of 0 a finished quest is repeatable but not listed as repeatable |
| BuiltQuests.RepeatableFlagAgrees | src/games/stendhal/server/entity/npc/quest/BuiltQuest.java:135-139 | for every other repeat time the listing agrees with isRepeatable |
| BuiltQuests.CompletionsWithoutPlaceholder | src/games/stendhal/server/entity/npc/quest/BuiltQuest.java:75-88 | a completions text without "[" is shown as is |
| BuiltQuests.CompletionsLeadingCount | src/games/stendhal/server/entity/npc/quest/BuiltQuest.java:75-88 | "[count]" is replaced by the completion count |
| BuiltQuests.CompletionsPluralWord | src/games/stendhal/server/entity/npc/quest/BuiltQuest.java:79-86 | "[count]" becomes the count and the first bracketed word after it becomes `plnoun` of the count and that word; the rest of the text is kept |
| BuiltQuests.CompletionsLine | src/games/stendhal/server/entity/npc/quest/BuiltQuest.java:75-88 | the completions line appears exactly when its text is set and field 2 holds a positive count |
| BuiltQuests.GetHistory | src/games/stendhal/server/entity/npc/quest/BuiltQuest.java:46-90 | no quest: no lines; rejected: met and rejected; otherwise met, accepted, then the task's progress |
| BuiltQuests.HistoryLength | src/games/stendhal/server/entity/npc/quest/BuiltQuest.java:46-90 | the number of lines of an accepted quest's history |
| BuiltQuests.DoneHistory | src/games/stendhal/server/entity/npc/quest/BuiltQuest.java:64-72 | a finished quest's progress is followed by the task line (when set) and the completion line |
| BuiltQuests.OpenQuestHistory | src/games/stendhal/server/entity/npc/quest/BuiltQuest.java:46-90 | an open quest whose task is not completed shows met, accepted, the progress and at most the completions line |
| BuiltQuests.DeliveryHistoryAfterStart | src/games/stendhal/server/entity/npc/quest/BuiltQuest.java:46-90 | a pizza delivery just started shows met, accepted, three progress lines and at most the completions line |
| QuestConditions.Fire | src/games/stendhal/server/entity/npc/condition/QuestNotStartedCondition.java:23-25 | the condition holds exactly when the player has no entry for the slot |
| QuestConditions.StartedAfterSet | src/games/stendhal/server/entity/npc/condition/QuestNotStartedCondition.java:23-25 | once any field of the slot is written the condition fails |
| QuestConditions.OtherSlotsIrrelevant | src/games/stendhal/server/entity/npc/condition/QuestNotStartedCondition.java:23-25 | writing other slots does not change it |
| QuestConditions.Equals | src/games/stendhal/server/entity/npc/condition/QuestNotStartedCondition.java:41-50 | equal exactly to a condition of this class on the same slot, null slots included |
| QuestConditions.EqualsIsEquivalence | src/games/stendhal/server/entity/npc/condition/QuestNotStartedCondition.java:41-50 | equals is reflexive, symmetric and transitive, and false for null |
| QuestConditions.HashCode | src/games/stendhal/server/entity/npc/condition/QuestNotStartedCondition.java:33-38 | a Java int; 31 for a null slot |
| QuestConditions.HashAgreesWithEquals | src/games/stendhal/server/entity/npc/condition/QuestNotStartedCondition.java:33-50 | equal conditions have equal hash codes |
| QuestConditions.NullAndEmptyCollide | src/games/stendhal/server/entity/npc/condition/QuestNotStartedCondition.java:33-50 | a null slot and the empty slot name hash alike but are not equal |
| QuestConditions.ToString | src/games/stendhal/server/entity/npc/condition/QuestNotStartedCondition.java:28-30 | "QuestNotStarted <" + slot + ">" |
| QuestConditions.ToStringNamesSlot | src/games/stendhal/server/entity/npc/condition/QuestNotStartedCondition.java:28-30 | different slot names print differently |
| QuestConditions.NullPrintsAsNull | src/games/stendhal/server/entity/npc/condition/QuestNotStartedCondition.java:28-30 | a null slot prints like a slot named "null", though the two are not equal |

## Left out

- The rule engine of `SpeakerNPC` is not part of this model. `Conversation.Resolve` assumes that rules of the current state are tried before ANY-state rules, in the order of registration. On firing, the rule's target becomes the state, the reply is said, then the action runs, and a state the action sets wins.
- Sums of money in `playerMoney` and in the charge loop are unbounded integers. Java would wrap them at 32 bits. Price times amount is wrapped, as in the code.
- `EntityManager.getItem`, `player.equip` and `equipToInventoryOnly` are outside the code modelled. Whether the item exists and whether it can be stacked is a parameter (`catalog`), and so is whether equipping works. A successful equip appends the item to the bag.
- Zone and object IDs, `world.modify` and logging are left out. They do not change what the player holds.
- A `Player` is assumed to have a bag. The paths that equip or pay require one.
- Outfits are assumed to have nine layers, like the uniform (a requirement of the start action).
- `Players.IsQuestCompleted` assumes `isQuestCompleted` means field 0 is "done".
- A missing field of a quest reads as the empty string.
- The wait message ("Please wait! I am attending ...") is only recorded as set. The name of the attended player is not modelled.
- The action passed to `addGreeting` is code of the caller. It is modelled as `CallerAction`, which changes nothing.
- The deprecated `addReply` overload that takes a `List` is left out. It only converts the list to an array.
- The NPC "Leander" is looked up by name in a global list. The model passes the baker NPC in instead.
- `Rand.rand` is a nondeterministic choice among the allowed customers. The clock is the parameter `now`.
- `SetQuestToTimeStampAction` is assumed to write `now` as field 1 of the given slot.
- `StringUtils.substitute`, `Grammar.quoteHash`, `Grammar.quantityplnoun` and `Grammar.plnoun` are passed in as functions. Their behaviour is not modelled.
- The pizza's description text is not modelled. The name, the info string and the binding are.
- `buildQuestPreCondition` (`OutfitCompatibleWithClothesCondition`) is not part of this model.
- `simulate` is an empty stub and is left out.
- `getItemName` is the constant `DeliverItem.ITEM_NAME`.
- `TimePassedCondition` and the task's `isCompleted` are boolean inputs of `GetHistory`.
- `MathHelper.parseIntDefault` is assumed to be `Integer.parseInt` with a default.
- `BuiltQuests.GetHistory` takes the task's progress as an input. `BuiltQuest.java` calls `calculateHistoryProgress` with three arguments, while `DeliverItemTask.java` overrides a two-argument version that always reads the delivery slot. The model follows the task file.
- Of the history texts, only the two that the code checks for null may be missing.
- `toLowerCase` is modelled for ASCII letters only.
- `JavaLang.ParseRejectsNonDigit`: `ParseSigned` and `IsDigit` accept ASCII digits only. Java's `Integer.parseInt` also accepts the other Unicode decimal digits, so the lemma does not hold of Java for those.
- `JavaLang.StringHash` runs over the characters of a Dafny string, which are Unicode scalar values. Java's `hashCode` runs over UTF-16 code units, so the two differ for characters outside the Basic Multilingual Plane.
- The rest of `addToWorld` (quest registration with the world) and the quest's getters other than the slot name are left out.
- The browser client's user-interface factory is not part of this model.
