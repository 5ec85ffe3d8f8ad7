/**
 * The chat condition "this quest has not been started": it holds while the
 * player has no entry for the quest slot.  Two conditions are equal when
 * they name the same slot (null included), with the matching hash code and
 * printed form.
 */
module QuestConditions {
  import opened JavaLang
  import opened Players

  /** The condition; the slot name may be null (None). */
  datatype QuestNotStarted = QuestNotStarted(questname: Option<string>)

  /** What `equals` may be handed: null, this kind of condition, or an object of another class. */
  datatype Other = Null | Condition(c: QuestNotStarted) | OtherClass(className: string)

  /** fire: the player has no entry for the slot (a null slot names none). */
  function Fire(c: QuestNotStarted, q: Quests): (holds: bool)
    ensures c.questname.None? ==> holds
    ensures c.questname.Some? ==> (holds <==> QuestField(q, c.questname.value, 0).None?)
  {
    match c.questname
    case None => true
    case Some(slot) => !HasQuest(q, slot)
  }

  /** Writing any field of the slot starts the quest: the condition no longer holds. */
  lemma StartedAfterSet(c: QuestNotStarted, q: Quests, i: nat, v: string)
    requires c.questname.Some?
    ensures !Fire(c, SetQuestField(q, c.questname.value, i, v))
  {
  }

  /** Writing other slots does not change the answer. */
  lemma OtherSlotsIrrelevant(c: QuestNotStarted, q: Quests, slot: string, i: nat, v: string)
    requires c.questname.Some? && slot != c.questname.value
    ensures Fire(c, SetQuestField(q, slot, i, v)) == Fire(c, q)
  {
  }

  /** equals: only another condition of this class on the same slot (both null counts). */
  function Equals(c: QuestNotStarted, o: Other): (eq: bool)
    ensures eq <==> o == Condition(c)
  {
    match o
    case Null => false
    case OtherClass(_) => false
    case Condition(d) =>
      if c.questname.None? then d.questname.None?
      else d.questname.Some? && c.questname.value == d.questname.value
  }

  lemma EqualsIsEquivalence(a: QuestNotStarted, b: QuestNotStarted, c: QuestNotStarted)
    ensures Equals(a, Condition(a))
    ensures Equals(a, Condition(b)) <==> Equals(b, Condition(a))
    ensures Equals(a, Condition(b)) && Equals(b, Condition(c)) ==> Equals(a, Condition(c))
    ensures !Equals(a, Null)
  {
  }

  /** hashCode: 31 * 1 plus the slot's String.hashCode (0 for null), in int arithmetic. */
  function HashCode(c: QuestNotStarted): (h: int)
    ensures IsInt(h)
    ensures c.questname.None? ==> h == 31
  {
    var PRIME := 31;
    var result := 1;
    Wrap32(PRIME * result + (match c.questname case None => 0 case Some(s) => StringHash(s)))
  }

  /** Equal conditions hash alike, as the hashCode contract demands. */
  lemma HashAgreesWithEquals(a: QuestNotStarted, b: QuestNotStarted)
    requires Equals(a, Condition(b))
    ensures HashCode(a) == HashCode(b)
  {
  }

  /** A null slot and the empty slot name hash alike although they are not equal. */
  lemma NullAndEmptyCollide()
    ensures HashCode(QuestNotStarted(None)) == HashCode(QuestNotStarted(Some("")))
    ensures !Equals(QuestNotStarted(None), Condition(QuestNotStarted(Some(""))))
  {
  }

  /** toString: "QuestNotStarted <slot>", where a null slot prints as null. */
  function ToString(c: QuestNotStarted): (s: string)
    ensures |s| >= |"QuestNotStarted <>"|
    ensures s[..17] == "QuestNotStarted <" && s[|s| - 1] == '>'
  {
    "QuestNotStarted <" + (match c.questname case None => "null" case Some(n) => n) + ">"
  }

  /** The printed form names the slot: conditions on different slots print differently. */
  lemma ToStringNamesSlot(a: string, b: string)
    requires ToString(QuestNotStarted(Some(a))) == ToString(QuestNotStarted(Some(b)))
    ensures a == b
  {
    var sa := ToString(QuestNotStarted(Some(a)));
    assert sa[17..|sa| - 1] == a;
    var sb := ToString(QuestNotStarted(Some(b)));
    assert sb[17..|sb| - 1] == b;
  }

  /** ...except that a null slot prints like a slot literally named "null". */
  lemma NullPrintsAsNull()
    ensures ToString(QuestNotStarted(None)) == ToString(QuestNotStarted(Some("null")))
    ensures !Equals(QuestNotStarted(None), Condition(QuestNotStarted(Some("null"))))
  {
  }
}
