/**
 * A quest assembled by the quest builder: it takes its quest slot from the
 * lower-cased internal name, writes the travel log (the quest history) from
 * the slot and the task, and decides whether a completed quest may be
 * repeated.
 */
module BuiltQuests {
  import opened JavaLang
  import opened Players
  import DeliverItem

  /** The quest description the builder collects. */
  datatype QuestInfo = QuestInfo(
    name: string, internalName: string, description: string,
    questGiverNpc: string, region: string, minLevel: int,
    repeatableAfterMinutes: int)

  /**
   * The history texts; the two optional ones may be null and are then
   * left out of the history.
   */
  datatype HistoryTexts = HistoryTexts(
    whenNpcWasMet: string, whenQuestWasRejected: string, whenQuestWasAccepted: string,
    whenTaskWasCompleted: Option<string>, whenQuestWasCompleted: string,
    whenQuestCanBeRepeated: string, whenCompletionsShown: Option<string>)

  datatype BuiltQuest = BuiltQuest(info: QuestInfo, slot: string)

  predicate IsLowerCase(s: string)
  {
    forall k :: 0 <= k < |s| ==> !('A' <= s[k] <= 'Z')
  }

  /** The constructor: the quest slot is the internal name in lower case. */
  function NewBuiltQuest(info: QuestInfo): (b: BuiltQuest)
    ensures b.info == info
    ensures |b.slot| == |info.internalName| && IsLowerCase(b.slot)
    ensures forall k :: 0 <= k < |b.slot| && !('A' <= info.internalName[k] <= 'Z') ==> b.slot[k] == info.internalName[k]
  {
    BuiltQuest(info, ToLower(info.internalName))
  }

  /** Names that differ only in the case of their letters share one slot, and lower-casing twice changes nothing. */
  lemma SlotIgnoresCase(a: QuestInfo, b: QuestInfo)
    requires |a.internalName| == |b.internalName|
    requires forall k :: 0 <= k < |a.internalName| ==> LowerChar(a.internalName[k]) == LowerChar(b.internalName[k])
    ensures NewBuiltQuest(a).slot == NewBuiltQuest(b).slot
    ensures ToLower(NewBuiltQuest(a).slot) == NewBuiltQuest(a).slot
  {
    var s := NewBuiltQuest(a).slot;
    assert forall k :: 0 <= k < |s| ==> LowerChar(s[k]) == s[k];
  }

  // ---------------------------------------------------------------------
  // Repeating

  /**
   * isRepeatable: a repeat time of 0 or more minutes, the quest completed,
   * and that many minutes passed since the time in field 1 (`timePassed`,
   * the outcome of the time condition).
   */
  predicate IsRepeatable(b: BuiltQuest, q: Quests, timePassed: bool)
  {
    b.info.repeatableAfterMinutes > -1 && IsQuestCompleted(q, b.slot) && timePassed
  }

  /** The "repeatable" flag addToWorld publishes with the quest information. */
  function RepeatableFlag(info: QuestInfo): (f: bool)
    ensures f ==> info.repeatableAfterMinutes >= 1
    ensures !f ==> info.repeatableAfterMinutes <= 0
  {
    info.repeatableAfterMinutes > 0
  }

  /**
   * The published flag and isRepeatable disagree on a repeat time of 0:
   * the quest is announced as not repeatable, yet a completed one can be
   * repeated at once.  For every other repeat time they agree on a
   * completed quest whose time has passed.
   */
  lemma RepeatableFlagAtZero(b: BuiltQuest, q: Quests)
    requires b.info.repeatableAfterMinutes == 0 && IsQuestCompleted(q, b.slot)
    ensures IsRepeatable(b, q, true) && !RepeatableFlag(b.info)
  {
  }

  lemma RepeatableFlagAgrees(b: BuiltQuest, q: Quests)
    requires b.info.repeatableAfterMinutes != 0 && IsQuestCompleted(q, b.slot)
    ensures IsRepeatable(b, q, true) <==> RepeatableFlag(b.info)
  {
  }

  // ---------------------------------------------------------------------
  // The count of completions

  /** MathHelper.parseIntDefault: the number, or the default when it does not parse. */
  function ParseIntDefault(s: string, d: int): int
  {
    match ParseInt(s)
    case Some(n) => n
    case None => d
  }

  /**
   * The completions line: "[count]" becomes the count, then the first
   * bracketed word (if it is not empty) becomes its plural for that count.
   */
  function CompletionsText(text: string, count: int, plnoun: (int, string) -> string): string
  {
    var c := Replace(text, "[count]", IntToString(count));
    var i1 := IndexOf(c, "[");
    var i2 := IndexOf(c, "]");
    if i1 > -1 && i2 > i1 + 1 then
      var ctype := c[i1 + 1..i2];
      Replace(c, "[" + ctype + "]", plnoun(count, ctype))
    else c
  }

  /** A text without brackets comes out unchanged. */
  lemma CompletionsWithoutPlaceholder(text: string, count: int, plnoun: (int, string) -> string)
    requires '[' !in text
    ensures CompletionsText(text, count, plnoun) == text
  {
    forall j | 0 <= j <= |text| ensures !OccursAt(text, "[count]", j) {
      if j + 7 <= |text| {
        assert text[j..j + 7][0] == text[j] && text[j] in text;
      }
    }
    ReplaceAbsent(text, "[count]", IntToString(count));
  }

  /** A leading "[count]" becomes the decimal count. */
  lemma CompletionsLeadingCount(rest: string, count: int, plnoun: (int, string) -> string)
    requires '[' !in rest
    ensures CompletionsText("[count]" + rest, count, plnoun) == IntToString(count) + rest
  {
    ReplaceLeading("[count]", rest, IntToString(count));
    forall j | 0 <= j <= |rest| ensures !OccursAt(rest, "[count]", j) {
      if j + 7 <= |rest| {
        assert rest[j..j + 7][0] == rest[j] && rest[j] in rest;
      }
    }
    ReplaceAbsent(rest, "[count]", IntToString(count));
    var c := IntToString(count) + rest;
    assert '[' !in IntToString(count) by { DigitsNoBracket(count); }
    forall j | 0 <= j <= |c| ensures !OccursAt(c, "[", j) {
      if j + 1 <= |c| {
        assert c[j..j + 1][0] == c[j] && c[j] in c;
      }
    }
  }

  /** A "[" not followed by "count]" survives the count replacement. */
  lemma WordSurvivesCount(w: string, post: string, n: string)
    requires '[' !in w && ']' !in w && w != "count" && '[' !in post
    ensures Replace("[" + w + "]" + post, "[count]", n) == "[" + w + "]" + post
  {
    var tail := "[" + w + "]" + post;
    var rest := w + "]" + post;
    assert tail == "[" + rest && tail[1..] == rest;
    ReplaceNone(rest, "[count]", n);
    if |tail| >= 7 {
      if |w| >= 6 {
        assert tail[..7][6] == w[5] && w[5] in w;
      } else if |w| == 5 {
        assert tail[..7][1..6] == w;
      } else {
        assert tail[..7][|w| + 1] == ']';
      }
    }
  }

  /** The count replacement only meets the leading "[count]". */
  lemma CountReplaced(pre: string, mid: string, w: string, post: string, n: string)
    requires '[' !in pre && '[' !in mid && '[' !in w && ']' !in w && w != "count" && '[' !in post
    ensures Replace(pre + "[count]" + mid + "[" + w + "]" + post, "[count]", n)
      == pre + n + mid + ("[" + w + "]" + post)
  {
    var tail := "[" + w + "]" + post;
    assert pre + "[count]" + mid + "[" + w + "]" + post == pre + ("[count]" + (mid + tail));
    ReplaceSkip(pre, "[count]" + (mid + tail), "[count]", n);
    ReplaceLeading("[count]", mid + tail, n);
    ReplaceSkip(mid, tail, "[count]", n);
    WordSurvivesCount(w, post, n);
  }

  /**
   * "[count]" becomes the count, and the bracketed word after it becomes
   * its plural for that count (the word must not itself be "count", which
   * the first replacement would already have taken).
   */
  lemma CompletionsPluralWord(pre: string, mid: string, w: string, post: string,
                              count: int, plnoun: (int, string) -> string)
    requires '[' !in pre && ']' !in pre && '[' !in mid && ']' !in mid
    requires '[' !in w && ']' !in w && w != "" && w != "count"
    requires '[' !in post
    ensures CompletionsText(pre + "[count]" + mid + "[" + w + "]" + post, count, plnoun)
      == pre + IntToString(count) + mid + plnoun(count, w) + post
  {
    var n := IntToString(count);
    DigitsNoBracket(count);
    CountReplaced(pre, mid, w, post, n);
    var front := pre + n + mid;
    assert pre + n + mid + ("[" + w + "]" + post) == front + ("[" + w + "]" + post);
    WordBracketsFirst(front, w, post);
    WordReplaced(front, w, post, plnoun(count, w));
  }

  /** The first "[" and the first "]" are the brackets around `w`. */
  lemma WordBracketsFirst(front: string, w: string, post: string)
    requires '[' !in front && ']' !in front && '[' !in w && ']' !in w
    ensures var c := front + ("[" + w + "]" + post);
      IndexOf(c, "[") == |front| && IndexOf(c, "]") == |front| + 1 + |w| &&
      c[|front| + 1..|front| + 1 + |w|] == w
  {
    var c := front + ("[" + w + "]" + post);
    IndexOfAfter(front, "[" + w + "]" + post, '[');
    assert c == (front + "[" + w) + ("]" + post);
    IndexOfAfter(front + "[" + w, "]" + post, ']');
  }

  /** Replacing "[w]" meets only the bracketed word. */
  lemma WordReplaced(front: string, w: string, post: string, p: string)
    requires '[' !in front && '[' !in post
    ensures Replace(front + ("[" + w + "]" + post), "[" + w + "]", p) == front + p + post
  {
    var word := "[" + w + "]";
    ReplaceSkip(front, word + post, word, p);
    ReplaceLeading(word, post, p);
    ReplaceNone(post, word, p);
  }

  lemma DigitsNoBracket(n: int)
    ensures '[' !in IntToString(n) && ']' !in IntToString(n)
  {
    var s := IntToString(n);
    if n < 0 {
      assert s == "-" + NatToString(-n);
      assert forall k :: 1 <= k < |s| ==> s[k] == NatToString(-n)[k - 1];
    }
  }

  /** The completions line, shown when the text is set and field 2 holds a positive count. */
  function CompletionsLine(hist: HistoryTexts, q: Quests, slot: string, plnoun: (int, string) -> string): (r: seq<string>)
    requires HasQuest(q, slot)
    ensures |r| <= 1
    ensures |r| == 1 <==> hist.whenCompletionsShown.Some? && ParseIntDefault(QuestField(q, slot, 2).value, 0) > 0
  {
    match hist.whenCompletionsShown
    case None => []
    case Some(text) =>
      var count := ParseIntDefault(QuestField(q, slot, 2).value, 0);
      if count > 0 then [CompletionsText(text, count, plnoun)] else []
  }

  // ---------------------------------------------------------------------
  // getHistory

  /**
   * getHistory.  `progress` is what the task reports (null read as
   * nothing), `taskCompleted` the task's own completion check and
   * `timePassed` the repeat-time condition.
   */
  function GetHistory(b: BuiltQuest, hist: HistoryTexts, q: Quests, progress: seq<string>,
                      taskCompleted: bool, timePassed: bool, plnoun: (int, string) -> string): (r: seq<string>)
    ensures !HasQuest(q, b.slot) ==> r == []
    ensures HasQuest(q, b.slot) ==> |r| >= 2 && r[0] == hist.whenNpcWasMet
    ensures QuestField(q, b.slot, 0) == Some("rejected") ==> r == [hist.whenNpcWasMet, hist.whenQuestWasRejected]
    ensures HasQuest(q, b.slot) && QuestField(q, b.slot, 0) != Some("rejected") ==>
      |r| >= 2 + |progress| && r[..2 + |progress|] == [hist.whenNpcWasMet, hist.whenQuestWasAccepted] + progress
  {
    if !HasQuest(q, b.slot) then []
    else
      var state := QuestField(q, b.slot, 0).value;
      if state == "rejected" then [hist.whenNpcWasMet, hist.whenQuestWasRejected]
      else
        var head := [hist.whenNpcWasMet, hist.whenQuestWasAccepted] + progress;
        var tail :=
          (if (state == "done" || taskCompleted) && hist.whenTaskWasCompleted.Some?
           then [hist.whenTaskWasCompleted.value] else []) +
          (if state == "done" then [hist.whenQuestWasCompleted] else []) +
          (if IsRepeatable(b, q, timePassed) then [hist.whenQuestCanBeRepeated] else []) +
          CompletionsLine(hist, q, b.slot, plnoun);
        assert (head + tail)[..|head|] == head;
        head + tail
  }

  function Count(c: bool): nat { if c then 1 else 0 }

  /** How many lines an accepted quest's history has. */
  lemma HistoryLength(b: BuiltQuest, hist: HistoryTexts, q: Quests, progress: seq<string>,
                      taskCompleted: bool, timePassed: bool, plnoun: (int, string) -> string)
    requires HasQuest(q, b.slot) && QuestField(q, b.slot, 0) != Some("rejected")
    ensures var done := QuestField(q, b.slot, 0) == Some("done");
      |GetHistory(b, hist, q, progress, taskCompleted, timePassed, plnoun)| ==
        2 + |progress| + Count((done || taskCompleted) && hist.whenTaskWasCompleted.Some?) + Count(done)
          + Count(IsRepeatable(b, q, timePassed)) + |CompletionsLine(hist, q, b.slot, plnoun)|
  {
  }

  /** A finished quest's history ends its progress with the task line (when set), then the completion line. */
  lemma DoneHistory(b: BuiltQuest, hist: HistoryTexts, q: Quests, progress: seq<string>,
                    taskCompleted: bool, timePassed: bool, plnoun: (int, string) -> string)
    requires QuestField(q, b.slot, 0) == Some("done")
    ensures var r := GetHistory(b, hist, q, progress, taskCompleted, timePassed, plnoun);
      var n := 2 + |progress|;
      match hist.whenTaskWasCompleted
      case Some(t) => |r| >= n + 2 && r[n] == t && r[n + 1] == hist.whenQuestWasCompleted
      case None => |r| >= n + 1 && r[n] == hist.whenQuestWasCompleted
  {
  }

  /**
   * An open quest (neither rejected nor done) whose task is not completed:
   * met, accepted, the task's progress and at most the completions line.
   */
  lemma OpenQuestHistory(b: BuiltQuest, hist: HistoryTexts, q: Quests, progress: seq<string>,
                         timePassed: bool, plnoun: (int, string) -> string)
    requires HasQuest(q, b.slot)
    requires QuestField(q, b.slot, 0) != Some("rejected") && QuestField(q, b.slot, 0) != Some("done")
    ensures GetHistory(b, hist, q, progress, false, timePassed, plnoun) ==
      [hist.whenNpcWasMet, hist.whenQuestWasAccepted] + progress + CompletionsLine(hist, q, b.slot, plnoun)
  {
    assert !IsRepeatable(b, q, timePassed);
  }

  /**
   * The travel log of a pizza delivery built on QUEST_SLOT just after it
   * started: met, accepted, the three lines of the delivery's progress and
   * at most the completions line; no completion and no repeat line.
   */
  lemma DeliveryHistoryAfterStart(b: BuiltQuest, hist: HistoryTexts, dh: DeliverItem.DeliveryHistory,
                                  h: DeliverItem.TextHelpers, task: DeliverItem.Task, q0: Quests,
                                  name: string, bake: int, now: int, timePassed: bool, plnoun: (int, string) -> string)
    requires b.slot == DeliverItem.QUEST_SLOT
    requires name in task.orders && ';' !in name && name != "done" && name != "rejected"
    requires IsLong(bake)
    ensures var q := DeliverItem.StartedSlot(q0, DeliverItem.QUEST_SLOT, name, bake);
      var p := DeliverItem.HistoryProgress(task, dh, h, q, now);
      p.Some? && |p.value| == 3 &&
      GetHistory(b, hist, q, p.value, false, timePassed, plnoun) ==
        [hist.whenNpcWasMet, hist.whenQuestWasAccepted] + p.value + CompletionsLine(hist, q, b.slot, plnoun)
  {
    var q := DeliverItem.StartedSlot(q0, DeliverItem.QUEST_SLOT, name, bake);
    DeliverItem.HistoryAfterStart(task, dh, h, q0, name, bake, now);
    DeliverItem.StartedCustomer(q0, name, bake);
    var p := DeliverItem.HistoryProgress(task, dh, h, q, now);
    OpenQuestHistory(b, hist, q, p.value, timePassed, plnoun);
  }
}
