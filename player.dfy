/**
 * The player record as the NPC behaviours and quests use it: the inventory
 * slots, the quest slots (each a ';'-separated string), level, name, outfit
 * and health.  The record itself belongs to the game engine; this module
 * gives the few operations those files call their natural meaning.
 */
module Players {
  import opened JavaLang
  import opened Inventory

  // ---------------------------------------------------------------------
  // Outfits

  /** An outfit: one optional part per layer (null = "no change"). */
  datatype Outfit = Outfit(parts: seq<Option<int>>)

  /** Every part `u` sets is already worn in `o`. */
  predicate IsPartOf(u: Outfit, o: Outfit)
  {
    |u.parts| == |o.parts| &&
    forall k :: 0 <= k < |u.parts| && u.parts[k].Some? ==> o.parts[k] == u.parts[k]
  }

  /** `u` put on top of `o`: its set parts replace those of `o`. */
  function Overlay(u: Outfit, o: Outfit): (r: Outfit)
    requires |u.parts| == |o.parts|
    ensures IsPartOf(u, r)
  {
    Outfit(seq(|o.parts|, k requires 0 <= k < |o.parts| => if u.parts[k].Some? then u.parts[k] else o.parts[k]))
  }

  // ---------------------------------------------------------------------
  // Quest slots

  type Quests = map<string, string>

  predicate HasQuest(q: Quests, slot: string) { slot in q }

  /** player.getQuest(slot, i): field i of the slot, "" past the end, null (None) without a quest. */
  function QuestField(q: Quests, slot: string, i: nat): (r: Option<string>)
    ensures r.Some? <==> HasQuest(q, slot)
    ensures r.Some? ==> ';' !in r.value
  {
    if slot !in q then None
    else
      var fields := Split(q[slot], ';');
      if i < |fields| then Some(fields[i]) else Some("")
  }

  /** player.isQuestCompleted(slot): the first field is "done". */
  predicate IsQuestCompleted(q: Quests, slot: string)
  {
    QuestField(q, slot, 0) == Some("done")
  }

  function Pad(fields: seq<string>, n: nat): (r: seq<string>)
    ensures |r| == if |fields| < n then n else |fields|
    ensures forall k :: 0 <= k < |r| ==> r[k] == if k < |fields| then fields[k] else ""
    decreases n - |fields|
  {
    if |fields| >= n then fields else Pad(fields + [""], n)
  }

  /** player.setQuest(slot, i, v): field i becomes v, missing fields are filled with "". */
  function SetQuestField(q: Quests, slot: string, i: nat, v: string): (r: Quests)
    ensures slot in r && r.Keys == q.Keys + {slot}
    ensures forall s :: s in q && s != slot ==> r[s] == q[s]
  {
    var fields := if slot in q then Split(q[slot], ';') else [];
    q[slot := Join(Pad(fields, i + 1)[i := v], ';')]
  }

  /** Field k of a joined list is its element k (trailing empty fields read as ""). */
  lemma FieldOfJoin(ps: seq<string>, k: nat)
    requires |ps| >= 1 && forall j :: 0 <= j < |ps| ==> ';' !in ps[j]
    ensures var f := Split(Join(ps, ';'), ';');
      (if k < |f| then f[k] else "") == (if k < |ps| then ps[k] else "")
  {
    JoinPieces(ps, ';');
    var s := Join(ps, ';');
    if ';' !in s {
      PiecesNoSep(s, ';');
    }
  }

  /** The field written reads back as the new value. */
  lemma SetThenGetSame(q: Quests, slot: string, i: nat, v: string)
    requires ';' !in v
    ensures QuestField(SetQuestField(q, slot, i, v), slot, i) == Some(v)
  {
    var fields := if slot in q then Split(q[slot], ';') else [];
    FieldOfJoin(Pad(fields, i + 1)[i := v], i);
  }

  /** Every other field of the slot keeps its value. */
  lemma SetThenGetOther(q: Quests, slot: string, i: nat, v: string, k: nat)
    requires ';' !in v && k != i && HasQuest(q, slot)
    ensures QuestField(SetQuestField(q, slot, i, v), slot, k) == QuestField(q, slot, k)
  {
    var fields := Split(q[slot], ';');
    FieldOfJoin(Pad(fields, i + 1)[i := v], k);
  }

  /**
   * Writing a field and reading it back: the field holds the new value and
   * every other field, and every other quest slot, keeps its old value.
   */
  lemma SetThenGet(q: Quests, slot: string, i: nat, v: string, k: nat)
    requires ';' !in v
    ensures QuestField(SetQuestField(q, slot, i, v), slot, i) == Some(v)
    ensures k != i && HasQuest(q, slot) ==>
      QuestField(SetQuestField(q, slot, i, v), slot, k) == QuestField(q, slot, k)
    ensures forall s :: s != slot ==> QuestField(SetQuestField(q, slot, i, v), s, k) == QuestField(q, s, k)
  {
    SetThenGetSame(q, slot, i, v);
    if k != i && HasQuest(q, slot) {
      SetThenGetOther(q, slot, i, v, k);
    }
  }

  // ---------------------------------------------------------------------
  // The player

  class Player {
    var name: string
    var level: int
    var slots: seq<Slot>
    var quests: Quests
    var outfit: Outfit
    var originalOutfit: Option<Outfit>
    var hp: int
    var baseHp: int
    var poisoned: bool

    constructor (name: string, level: int, slots: seq<Slot>, quests: Quests, outfit: Outfit, baseHp: int)
      ensures this.name == name && this.level == level && this.slots == slots
      ensures this.quests == quests && this.outfit == outfit && originalOutfit == None
      ensures hp == baseHp && this.baseHp == baseHp && !poisoned
    {
      this.name, this.level, this.slots, this.quests := name, level, slots, quests;
      this.outfit, originalOutfit := outfit, None;
      hp, this.baseHp, poisoned := baseHp, baseHp, false;
    }

    method SetQuest(slot: string, i: nat, v: string)
      modifies this`quests
      ensures quests == SetQuestField(old(quests), slot, i, v)
    {
      quests := SetQuestField(quests, slot, i, v);
    }

    /** setOutfit(u, true): remember the original outfit once, then wear `u` on top. */
    method SetOutfitTemporarily(u: Outfit)
      requires |u.parts| == |outfit.parts|
      modifies this`outfit, this`originalOutfit
      ensures outfit == Overlay(u, old(outfit))
      ensures originalOutfit == if old(originalOutfit).None? then Some(old(outfit)) else old(originalOutfit)
    {
      if originalOutfit.None? {
        originalOutfit := Some(outfit);
      }
      outfit := Overlay(u, outfit);
    }

    /** returnToOriginalOutfit: put the remembered outfit back, if any. */
    method ReturnToOriginalOutfit()
      modifies this`outfit, this`originalOutfit
      ensures old(originalOutfit).Some? ==> outfit == old(originalOutfit).value && originalOutfit == None
      ensures old(originalOutfit).None? ==> outfit == old(outfit) && originalOutfit == None
    {
      if originalOutfit.Some? {
        outfit := originalOutfit.value;
      }
      originalOutfit := None;
    }
  }
}
