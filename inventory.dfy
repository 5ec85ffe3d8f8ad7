/**
 * A player's inventory as the trade behaviours see it: named slots, each a
 * sequence of objects; money is a stackable item whose quantity is what the
 * seller counts, charges and pays.  This module holds the specification
 * functions of chargePlayer, payPlayer and removeItem and the lemmas that
 * say what each of them promises.
 */
module Inventory {
  import opened JavaLang

  /** An object in a slot: a money stack, another item, or a non-item entity. */
  datatype Obj =
    | Money(quantity: int)
    | Item(name: string, quantity: int, info: Option<string>, boundTo: Option<string>)
    | Entity(kind: string)

  datatype Slot = Slot(name: string, objects: seq<Obj>)

  /** The "name" attribute that removeItem compares; money is the item "money". */
  predicate IsItemNamed(o: Obj, itemName: string)
  {
    (o.Item? && o.name == itemName) || (o.Money? && itemName == "money")
  }

  // ---------------------------------------------------------------------
  // Counting money

  function SlotMoney(objs: seq<Obj>): int
  {
    if objs == [] then 0
    else (if objs[0].Money? then objs[0].quantity else 0) + SlotMoney(objs[1..])
  }

  function MoneyCount(objs: seq<Obj>): nat
  {
    if objs == [] then 0 else (if objs[0].Money? then 1 else 0) + MoneyCount(objs[1..])
  }

  /** The objects of a slot that are not money, in order. */
  function NonMoney(objs: seq<Obj>): seq<Obj>
  {
    if objs == [] then [] else (if objs[0].Money? then [] else [objs[0]]) + NonMoney(objs[1..])
  }

  function TotalMoney(slots: seq<Slot>): int
  {
    if slots == [] then 0 else SlotMoney(slots[0].objects) + TotalMoney(slots[1..])
  }

  predicate NonNegObjs(objs: seq<Obj>)
  {
    forall k :: 0 <= k < |objs| && objs[k].Money? ==> objs[k].quantity >= 0
  }

  predicate NonNegMoney(slots: seq<Slot>)
  {
    forall i :: 0 <= i < |slots| ==> NonNegObjs(slots[i].objects)
  }

  predicate NoMoney(objs: seq<Obj>)
  {
    forall k :: 0 <= k < |objs| ==> !objs[k].Money?
  }

  predicate NoMoneyAnywhere(slots: seq<Slot>)
  {
    forall i :: 0 <= i < |slots| ==> NoMoney(slots[i].objects)
  }

  lemma {:induction false} ConcatMoney(a: seq<Obj>, b: seq<Obj>)
    ensures SlotMoney(a + b) == SlotMoney(a) + SlotMoney(b)
  {
    if a == [] {
      assert a + b == b;
    } else {
      assert (a + b)[0] == a[0];
      assert (a + b)[1..] == a[1..] + b;
      ConcatMoney(a[1..], b);
    }
  }

  lemma {:induction false} ConcatCount(a: seq<Obj>, b: seq<Obj>)
    ensures MoneyCount(a + b) == MoneyCount(a) + MoneyCount(b)
  {
    if a == [] {
      assert a + b == b;
    } else {
      assert (a + b)[0] == a[0];
      assert (a + b)[1..] == a[1..] + b;
      ConcatCount(a[1..], b);
    }
  }

  lemma {:induction false} ConcatNonMoney(a: seq<Obj>, b: seq<Obj>)
    ensures NonMoney(a + b) == NonMoney(a) + NonMoney(b)
  {
    if a == [] {
      assert a + b == b;
    } else {
      assert (a + b)[0] == a[0];
      assert (a + b)[1..] == a[1..] + b;
      ConcatNonMoney(a[1..], b);
    }
  }

  lemma RemoveAtFacts(objs: seq<Obj>, j: nat)
    requires j < |objs| && objs[j].Money?
    ensures SlotMoney(objs[..j] + objs[j + 1..]) == SlotMoney(objs) - objs[j].quantity
    ensures NonMoney(objs[..j] + objs[j + 1..]) == NonMoney(objs)
  {
    var a, m, c := objs[..j], [objs[j]], objs[j + 1..];
    assert objs == a + (m + c);
    RemoveMiddleMoney(a, m, c);
    RemoveMiddleNonMoney(a, m, c);
  }

  lemma RemoveMiddleMoney(a: seq<Obj>, m: seq<Obj>, c: seq<Obj>)
    requires |m| == 1 && m[0].Money?
    ensures SlotMoney(a + c) == SlotMoney(a + (m + c)) - m[0].quantity
  {
    assert m[1..] == [];
    ConcatMoney(a, m + c);
    ConcatMoney(m, c);
    ConcatMoney(a, c);
  }

  lemma RemoveMiddleNonMoney(a: seq<Obj>, m: seq<Obj>, c: seq<Obj>)
    requires |m| == 1 && m[0].Money?
    ensures NonMoney(a + c) == NonMoney(a + (m + c))
  {
    assert m[1..] == [];
    ConcatNonMoney(a, m + c);
    ConcatNonMoney(m, c);
    ConcatNonMoney(a, c);
  }

  lemma ReplaceAtFacts(objs: seq<Obj>, j: nat, q: int)
    requires j < |objs| && objs[j].Money?
    ensures SlotMoney(objs[j := Money(q)]) == SlotMoney(objs) - objs[j].quantity + q
    ensures NonMoney(objs[j := Money(q)]) == NonMoney(objs)
  {
    var a, m, m', c := objs[..j], [objs[j]], [Money(q)], objs[j + 1..];
    assert objs == a + (m + c);
    assert objs[j := Money(q)] == a + (m' + c);
    assert m[1..] == [] && m'[1..] == [];
    ConcatMoney(a, m + c);
    ConcatMoney(m, c);
    ConcatMoney(a, m' + c);
    ConcatMoney(m', c);
    ConcatNonMoney(a, m + c);
    ConcatNonMoney(m, c);
    ConcatNonMoney(a, m' + c);
    ConcatNonMoney(m', c);
  }

  lemma RemoveAtNonNeg(objs: seq<Obj>, j: nat)
    requires j < |objs| && NonNegObjs(objs)
    ensures NonNegObjs(objs[..j] + objs[j + 1..])
  {
    var rest := objs[..j] + objs[j + 1..];
    forall k | 0 <= k < |rest| && rest[k].Money? ensures rest[k].quantity >= 0 {
      if k < j { assert rest[k] == objs[k]; } else { assert rest[k] == objs[k + 1]; }
    }
  }

  lemma {:induction false} NoMoneyFacts(objs: seq<Obj>)
    requires NoMoney(objs)
    ensures SlotMoney(objs) == 0 && MoneyCount(objs) == 0 && NonMoney(objs) == objs
  {
    if objs != [] {
      NoMoneyFacts(objs[1..]);
    }
  }

  lemma {:induction false} MoneyCountZero(objs: seq<Obj>)
    requires MoneyCount(objs) == 0
    ensures NoMoney(objs)
  {
    if objs != [] {
      MoneyCountZero(objs[1..]);
      forall k | 1 <= k < |objs| ensures !objs[k].Money? {
        assert objs[1..][k - 1] == objs[k];
      }
    }
  }

  lemma {:induction false} NonNegSlotMoney(objs: seq<Obj>)
    requires NonNegObjs(objs)
    ensures SlotMoney(objs) >= 0
  {
    if objs != [] {
      assert NonNegObjs(objs[1..]) by {
        forall k | 0 <= k < |objs[1..]| && objs[1..][k].Money? ensures objs[1..][k].quantity >= 0 {
          assert objs[1..][k] == objs[k + 1];
        }
      }
      NonNegSlotMoney(objs[1..]);
    }
  }

  lemma {:induction false} NonNegTotal(slots: seq<Slot>)
    requires NonNegMoney(slots)
    ensures TotalMoney(slots) >= 0
  {
    if slots != [] {
      NonNegSlotMoney(slots[0].objects);
      assert NonNegMoney(slots[1..]) by {
        forall i | 0 <= i < |slots[1..]| ensures NonNegObjs(slots[1..][i].objects) {
          assert slots[1..][i] == slots[i + 1];
        }
      }
      NonNegTotal(slots[1..]);
    }
  }

  /** Replacing one slot's objects changes the total by that slot's difference. */
  lemma {:induction false} TotalUpdate(slots: seq<Slot>, i: nat, objs: seq<Obj>)
    requires i < |slots|
    ensures TotalMoney(slots[i := slots[i].(objects := objs)])
         == TotalMoney(slots) - SlotMoney(slots[i].objects) + SlotMoney(objs)
  {
    var s' := slots[i := slots[i].(objects := objs)];
    if i > 0 {
      assert s'[1..] == slots[1..][i - 1 := slots[i].(objects := objs)];
      TotalUpdate(slots[1..], i - 1, objs);
    } else {
      assert s'[1..] == slots[1..];
    }
  }

  lemma {:induction false} NoMoneyTotal(slots: seq<Slot>)
    requires NoMoneyAnywhere(slots)
    ensures TotalMoney(slots) == 0
  {
    if slots != [] {
      NoMoneyFacts(slots[0].objects);
      assert NoMoneyAnywhere(slots[1..]) by {
        forall i | 0 <= i < |slots[1..]| ensures NoMoney(slots[1..][i].objects) {
          assert slots[1..][i] == slots[i + 1];
        }
      }
      NoMoneyTotal(slots[1..]);
    }
  }

  // ---------------------------------------------------------------------
  // chargePlayer

  /**
   * The inner loop of chargePlayer over one slot, from position j with
   * `left` still to charge: a stack no larger than `left` is removed and the
   * iterator restarts from the front; a larger one is reduced by `left` and
   * the scan stops with nothing left.  Result: the slot and what is left.
   */
  function ChargeObjs(objs: seq<Obj>, j: nat, left: int): (seq<Obj>, int)
    requires j <= |objs|
    decreases |objs|, |objs| - j
  {
    if j == |objs| then (objs, left)
    else if objs[j].Money? then
      if left >= objs[j].quantity then
        ChargeObjs(objs[..j] + objs[j + 1..], 0, left - objs[j].quantity)
      else (objs[j := Money(objs[j].quantity - left)], 0)
    else ChargeObjs(objs, j + 1, left)
  }

  /** The outer loop of chargePlayer: slots from i on, while something is left. */
  function ChargeSlots(slots: seq<Slot>, i: nat, left: int): (r: (seq<Slot>, int))
    requires i <= |slots|
    ensures |r.0| == |slots|
    decreases |slots| - i
  {
    if i == |slots| || left == 0 then (slots, left)
    else
      var r := ChargeObjs(slots[i].objects, 0, left);
      ChargeSlots(slots[i := slots[i].(objects := r.0)], i + 1, r.1)
  }

  /** chargePlayer(amount): the new slots and whether everything was charged. */
  function Charge(slots: seq<Slot>, amount: int): (seq<Slot>, bool)
  {
    var r := ChargeSlots(slots, 0, amount);
    (r.0, r.1 == 0)
  }

  lemma {:induction false} ChargeObjsFacts(objs: seq<Obj>, j: nat, left: int)
    requires j <= |objs| && NoMoney(objs[..j])
    ensures NonMoney(ChargeObjs(objs, j, left).0) == NonMoney(objs)
    ensures SlotMoney(ChargeObjs(objs, j, left).0) == SlotMoney(objs) - (left - ChargeObjs(objs, j, left).1)
    ensures NonNegObjs(objs) && left >= 0 ==>
      var r := ChargeObjs(objs, j, left);
      NonNegObjs(r.0) && 0 <= r.1 <= left && (r.1 > 0 ==> NoMoney(r.0))
    decreases |objs|, |objs| - j
  {
    if j == |objs| {
      assert objs[..j] == objs;
    } else if objs[j].Money? {
      var q := objs[j].quantity;
      if left >= q {
        var rest := objs[..j] + objs[j + 1..];
        RemoveAtFacts(objs, j);
        if NonNegObjs(objs) { RemoveAtNonNeg(objs, j); }
        assert rest[..0] == [];
        ChargeObjsFacts(rest, 0, left - q);
      } else {
        ReplaceAtFacts(objs, j, q - left);
      }
    } else {
      assert objs[..j + 1] == objs[..j] + [objs[j]];
      ChargeObjsFacts(objs, j + 1, left);
    }
  }

  predicate SameShape(a: seq<Slot>, b: seq<Slot>)
  {
    |a| == |b| &&
    forall k :: 0 <= k < |a| ==> a[k].name == b[k].name && NonMoney(a[k].objects) == NonMoney(b[k].objects)
  }

  lemma {:induction false} ChargeSlotsShape(slots: seq<Slot>, i: nat, left: int)
    requires i <= |slots|
    ensures var r := ChargeSlots(slots, i, left);
      SameShape(r.0, slots) && r.0[..i] == slots[..i]
    decreases |slots| - i
  {
    if i < |slots| && left != 0 {
      var c := ChargeObjs(slots[i].objects, 0, left);
      var s' := slots[i := slots[i].(objects := c.0)];
      ChargeObjsFacts(slots[i].objects, 0, left);
      ChargeSlotsShape(s', i + 1, c.1);
      var r := ChargeSlots(s', i + 1, c.1);
      assert r.0[..i] == s'[..i];
      assert SameShape(s', slots);
    }
  }

  lemma {:induction false} ChargeSlotsTotal(slots: seq<Slot>, i: nat, left: int)
    requires i <= |slots|
    ensures var r := ChargeSlots(slots, i, left);
      TotalMoney(r.0) == TotalMoney(slots) - (left - r.1)
    decreases |slots| - i
  {
    if i < |slots| && left != 0 {
      var c := ChargeObjs(slots[i].objects, 0, left);
      var s' := slots[i := slots[i].(objects := c.0)];
      ChargeObjsFacts(slots[i].objects, 0, left);
      TotalUpdate(slots, i, c.0);
      ChargeSlotsTotal(s', i + 1, c.1);
    }
  }

  lemma ChargeSlotsFacts(slots: seq<Slot>, i: nat, left: int)
    requires i <= |slots|
    ensures var r := ChargeSlots(slots, i, left);
      SameShape(r.0, slots) &&
      r.0[..i] == slots[..i] &&
      TotalMoney(r.0) == TotalMoney(slots) - (left - r.1)
  {
    ChargeSlotsShape(slots, i, left);
    ChargeSlotsTotal(slots, i, left);
  }

  lemma {:induction false} ChargeSlotsNonNeg(slots: seq<Slot>, i: nat, left: int)
    requires i <= |slots| && NonNegMoney(slots) && left >= 0
    ensures var r := ChargeSlots(slots, i, left);
      NonNegMoney(r.0) && 0 <= r.1 <= left &&
      (r.1 > 0 ==> forall k :: i <= k < |slots| ==> NoMoney(r.0[k].objects))
    decreases |slots| - i
  {
    if i < |slots| && left != 0 {
      var c := ChargeObjs(slots[i].objects, 0, left);
      var s' := slots[i := slots[i].(objects := c.0)];
      ChargeObjsFacts(slots[i].objects, 0, left);
      assert NonNegMoney(s');
      ChargeSlotsNonNeg(s', i + 1, c.1);
      ChargeSlotsShape(s', i + 1, c.1);
      var r := ChargeSlots(s', i + 1, c.1);
      if r.1 > 0 {
        assert r.0[..i + 1] == s'[..i + 1];
        assert r.0[i] == s'[i];
        assert NoMoney(s'[i].objects);
      }
    }
  }

  /** chargePlayer never touches anything but money, and removes exactly what it charged. */
  lemma ChargeKeepsNonMoney(slots: seq<Slot>, amount: int)
    ensures SameShape(Charge(slots, amount).0, slots)
    ensures Charge(slots, amount).1 ==> TotalMoney(Charge(slots, amount).0) == TotalMoney(slots) - amount
  {
    ChargeSlotsFacts(slots, 0, amount);
  }

  /**
   * With non-negative stacks and a non-negative amount: the charge succeeds
   * exactly when the player has at least `amount`, a success lowers the
   * total by exactly `amount`, and a failure leaves no money stack at all.
   */
  lemma ChargeSpec(slots: seq<Slot>, amount: int)
    requires NonNegMoney(slots) && amount >= 0
    ensures Charge(slots, amount).1 <==> TotalMoney(slots) >= amount
    ensures Charge(slots, amount).1 ==> TotalMoney(Charge(slots, amount).0) == TotalMoney(slots) - amount
    ensures !Charge(slots, amount).1 ==> NoMoneyAnywhere(Charge(slots, amount).0) && TotalMoney(Charge(slots, amount).0) == 0
  {
    ChargeSlotsFacts(slots, 0, amount);
    ChargeSlotsNonNeg(slots, 0, amount);
    var r := ChargeSlots(slots, 0, amount);
    NonNegTotal(r.0);
    if r.1 > 0 {
      NoMoneyTotal(r.0);
    }
  }

  // ---------------------------------------------------------------------
  // payPlayer

  function Bump(o: Obj, amount: int): Obj
  {
    if o.Money? then Money(o.quantity + amount) else o
  }

  /** Money.add(amount) on every money stack of one slot. */
  function PayObjs(objs: seq<Obj>, amount: int): (r: seq<Obj>)
    ensures |r| == |objs|
  {
    seq(|objs|, k requires 0 <= k < |objs| => Bump(objs[k], amount))
  }

  function PayAll(slots: seq<Slot>, amount: int): (r: seq<Slot>)
    ensures |r| == |slots|
    ensures forall i :: 0 <= i < |slots| ==> r[i] == slots[i].(objects := PayObjs(slots[i].objects, amount))
  {
    if slots == [] then []
    else [slots[0].(objects := PayObjs(slots[0].objects, amount))] + PayAll(slots[1..], amount)
  }

  /** player.getSlot("bag"): the first slot of that name. */
  function FindSlot(slots: seq<Slot>, name: string): (r: Option<nat>)
    ensures r.Some? ==> r.value < |slots| && slots[r.value].name == name
    ensures r.Some? ==> forall k :: 0 <= k < r.value ==> slots[k].name != name
    ensures r.None? ==> forall k :: 0 <= k < |slots| ==> slots[k].name != name
  {
    if slots == [] then None
    else if slots[0].name == name then Some(0)
    else match FindSlot(slots[1..], name)
      case None => None
      case Some(k) => Some(k + 1)
  }

  predicate HasBag(slots: seq<Slot>)
  {
    FindSlot(slots, "bag").Some?
  }

  /**
   * payPlayer(amount): every existing money stack grows by `amount`; when
   * there is none, one new stack of `amount` goes at the end of the bag.
   */
  function Pay(slots: seq<Slot>, amount: int): (r: seq<Slot>)
    requires HasBag(slots)
  {
    if NoMoneyAnywhere(slots) then
      var b := FindSlot(slots, "bag").value;
      slots[b := slots[b].(objects := slots[b].objects + [Money(amount)])]
    else PayAll(slots, amount)
  }

  function TotalCount(slots: seq<Slot>): nat
  {
    if slots == [] then 0 else MoneyCount(slots[0].objects) + TotalCount(slots[1..])
  }

  lemma {:induction false} PayObjsMoney(objs: seq<Obj>, amount: int)
    ensures SlotMoney(PayObjs(objs, amount)) == SlotMoney(objs) + amount * MoneyCount(objs)
  {
    if objs != [] {
      assert PayObjs(objs, amount)[1..] == PayObjs(objs[1..], amount);
      PayObjsMoney(objs[1..], amount);
    }
  }

  lemma {:induction false} PayObjsKeeps(objs: seq<Obj>, amount: int)
    ensures NonMoney(PayObjs(objs, amount)) == NonMoney(objs)
    ensures MoneyCount(PayObjs(objs, amount)) == MoneyCount(objs)
  {
    if objs != [] {
      assert PayObjs(objs, amount)[1..] == PayObjs(objs[1..], amount);
      PayObjsKeeps(objs[1..], amount);
    }
  }

  lemma PayObjsFacts(objs: seq<Obj>, amount: int)
    ensures SlotMoney(PayObjs(objs, amount)) == SlotMoney(objs) + amount * MoneyCount(objs)
    ensures NonMoney(PayObjs(objs, amount)) == NonMoney(objs)
    ensures MoneyCount(PayObjs(objs, amount)) == MoneyCount(objs)
  {
    PayObjsMoney(objs, amount);
    PayObjsKeeps(objs, amount);
  }

  lemma {:induction false} PayAllFacts(slots: seq<Slot>, amount: int)
    ensures TotalMoney(PayAll(slots, amount)) == TotalMoney(slots) + amount * TotalCount(slots)
  {
    if slots != [] {
      var p := PayAll(slots, amount);
      assert p[1..] == PayAll(slots[1..], amount);
      PayObjsFacts(slots[0].objects, amount);
      PayAllFacts(slots[1..], amount);
      Distribute(amount, MoneyCount(slots[0].objects), TotalCount(slots[1..]));
    }
  }

  lemma Distribute(a: int, b: int, c: int)
    ensures a * (b + c) == a * b + a * c
  {
  }

  lemma PayAllShape(slots: seq<Slot>, amount: int)
    ensures SameShape(PayAll(slots, amount), slots)
  {
    forall k | 0 <= k < |slots| ensures NonMoney(PayAll(slots, amount)[k].objects) == NonMoney(slots[k].objects) {
      PayObjsFacts(slots[k].objects, amount);
    }
  }

  /** With no money anywhere, payPlayer adds exactly one stack of `amount`, to the bag. */
  lemma PayWithoutMoney(slots: seq<Slot>, amount: int)
    requires HasBag(slots) && NoMoneyAnywhere(slots)
    ensures var b := FindSlot(slots, "bag").value;
      Pay(slots, amount) == slots[b := Slot("bag", slots[b].objects + [Money(amount)])]
    ensures TotalMoney(Pay(slots, amount)) == amount
    ensures SameShape(Pay(slots, amount), slots)
  {
    var b := FindSlot(slots, "bag").value;
    var objs := slots[b].objects + [Money(amount)];
    NoMoneyTotal(slots);
    TotalUpdate(slots, b, objs);
    NoMoneyFacts(slots[b].objects);
    ConcatMoney(slots[b].objects, [Money(amount)]);
    ConcatNonMoney(slots[b].objects, [Money(amount)]);
    assert NonMoney([Money(amount)]) == [];
  }

  /**
   * With some money stack present, payPlayer raises EVERY stack by
   * `amount`, so the total grows by `amount` times the number of stacks.
   */
  lemma PayWithMoney(slots: seq<Slot>, amount: int)
    requires HasBag(slots) && !NoMoneyAnywhere(slots)
    ensures var r := Pay(slots, amount);
      |r| == |slots| &&
      forall i, k :: 0 <= i < |slots| && 0 <= k < |slots[i].objects| && slots[i].objects[k].Money? ==>
        r[i].objects[k] == Money(slots[i].objects[k].quantity + amount)
    ensures TotalMoney(Pay(slots, amount)) == TotalMoney(slots) + amount * TotalCount(slots)
    ensures SameShape(Pay(slots, amount), slots)
  {
    assert Pay(slots, amount) == PayAll(slots, amount);
    PayAllFacts(slots, amount);
    PayAllShape(slots, amount);
    PayAllStacks(slots, amount);
  }

  lemma PayAllStacks(slots: seq<Slot>, amount: int)
    ensures forall i, k :: 0 <= i < |slots| && 0 <= k < |slots[i].objects| && slots[i].objects[k].Money? ==>
      PayAll(slots, amount)[i].objects[k] == Money(slots[i].objects[k].quantity + amount)
  {
  }

  // ---------------------------------------------------------------------
  // removeItem on one slot

  /** How many of the first j objects are items called `itemName`. */
  function CountBefore(objs: seq<Obj>, itemName: string, j: nat): nat
    requires j <= |objs|
  {
    if j == 0 then 0
    else CountBefore(objs, itemName, j - 1) + (if IsItemNamed(objs[j - 1], itemName) then 1 else 0)
  }

  function CountNamed(objs: seq<Obj>, itemName: string): nat
  {
    CountBefore(objs, itemName, |objs|)
  }

  /**
   * Where the counting loop of removeItem stops: the first position by
   * which `amount` matching items have been seen, or the end of the slot.
   */
  function StopFrom(objs: seq<Obj>, itemName: string, amount: int, j: nat): (stop: nat)
    requires j <= |objs|
    ensures j <= stop <= |objs|
    decreases |objs| - j
  {
    if j == |objs| || CountBefore(objs, itemName, j) >= amount then j
    else StopFrom(objs, itemName, amount, j + 1)
  }

  /** The slot without the matching items at positions before `stop`. */
  function DropBefore(objs: seq<Obj>, itemName: string, stop: nat, n: nat): seq<Obj>
    requires n <= |objs|
  {
    if n == 0 then []
    else DropBefore(objs, itemName, stop, n - 1) +
         (if n - 1 < stop && IsItemNamed(objs[n - 1], itemName) then [] else [objs[n - 1]])
  }

  /** The objects that are not items called `itemName`, in order. */
  function Others(objs: seq<Obj>, itemName: string): seq<Obj>
  {
    if objs == [] then []
    else Others(objs[..|objs| - 1], itemName) +
         (if IsItemNamed(objs[|objs| - 1], itemName) then [] else [objs[|objs| - 1]])
  }

  /**
   * The slot-level removeItem: with at least `amount` matching items the
   * first `amount` of them are removed (true), otherwise nothing changes.
   */
  function RemoveFromSlot(objs: seq<Obj>, itemName: string, amount: int): (seq<Obj>, bool)
  {
    var stop := StopFrom(objs, itemName, amount, 0);
    if CountBefore(objs, itemName, stop) < amount then (objs, false)
    else (DropBefore(objs, itemName, stop, |objs|), true)
  }

  lemma {:induction false} CountMonotone(objs: seq<Obj>, itemName: string, i: nat, j: nat)
    requires i <= j <= |objs|
    ensures CountBefore(objs, itemName, i) <= CountBefore(objs, itemName, j) <= CountBefore(objs, itemName, i) + (j - i)
    decreases j - i
  {
    if i < j {
      CountMonotone(objs, itemName, i, j - 1);
    }
  }

  lemma {:induction false} StopFacts(objs: seq<Obj>, itemName: string, amount: int, j: nat)
    requires j <= |objs|
    requires CountBefore(objs, itemName, j) <= amount || j == 0
    ensures var stop := StopFrom(objs, itemName, amount, j);
      (CountBefore(objs, itemName, stop) >= amount ==> CountBefore(objs, itemName, stop) == (if amount < 0 then 0 else amount)) &&
      (CountBefore(objs, itemName, stop) < amount ==> stop == |objs|)
    decreases |objs| - j
  {
    if j == |objs| || CountBefore(objs, itemName, j) >= amount {
      if j == 0 { assert CountBefore(objs, itemName, 0) == 0; }
    } else {
      CountMonotone(objs, itemName, j, j + 1);
      StopFacts(objs, itemName, amount, j + 1);
    }
  }

  lemma {:induction false} DropBeforeOthers(objs: seq<Obj>, itemName: string, stop: nat, n: nat)
    requires n <= |objs|
    ensures Others(DropBefore(objs, itemName, stop, n), itemName) == Others(objs[..n], itemName)
  {
    if n > 0 {
      DropBeforeOthers(objs, itemName, stop, n - 1);
      var d := DropBefore(objs, itemName, stop, n - 1);
      var x := objs[n - 1];
      assert objs[..n][..n - 1] == objs[..n - 1];
      assert objs[..n][n - 1] == x;
      assert Others(objs[..n], itemName) == Others(objs[..n - 1], itemName) + (if IsItemNamed(x, itemName) then [] else [x]);
      if n - 1 < stop && IsItemNamed(x, itemName) {
        assert DropBefore(objs, itemName, stop, n) == d + [];
        assert d + [] == d;
      } else {
        assert DropBefore(objs, itemName, stop, n) == d + [x];
        assert (d + [x])[..|d + [x]| - 1] == d;
        assert (d + [x])[|d + [x]| - 1] == x;
      }
    }
  }

  lemma {:induction false} DropBeforeCount(objs: seq<Obj>, itemName: string, stop: nat, n: nat)
    requires n <= |objs|
    ensures CountNamed(DropBefore(objs, itemName, stop, n), itemName)
         == CountBefore(objs, itemName, n) - CountBefore(objs, itemName, if stop < n then stop else n)
    ensures |DropBefore(objs, itemName, stop, n)| == n - CountBefore(objs, itemName, if stop < n then stop else n)
  {
    if n > 0 {
      DropBeforeCount(objs, itemName, stop, n - 1);
      var d := DropBefore(objs, itemName, stop, n - 1);
      var x := objs[n - 1];
      assert CountBefore(objs, itemName, n) == CountBefore(objs, itemName, n - 1) + (if IsItemNamed(x, itemName) then 1 else 0);
      if n - 1 < stop && IsItemNamed(x, itemName) {
        assert DropBefore(objs, itemName, stop, n) == d + [];
        assert d + [] == d;
      } else {
        assert DropBefore(objs, itemName, stop, n) == d + [x];
        CountAppend(d, x, itemName);
      }
    }
  }

  lemma CountAppend(d: seq<Obj>, x: Obj, itemName: string)
    ensures CountNamed(d + [x], itemName) == CountNamed(d, itemName) + (if IsItemNamed(x, itemName) then 1 else 0)
  {
    CountPrefix(d + [x], d, itemName, |d|);
  }

  lemma {:induction false} CountPrefix(a: seq<Obj>, b: seq<Obj>, itemName: string, j: nat)
    requires j <= |b| && j <= |a| && a[..j] == b[..j]
    ensures CountBefore(a, itemName, j) == CountBefore(b, itemName, j)
  {
    if j > 0 {
      assert a[j - 1] == a[..j][j - 1] == b[..j][j - 1] == b[j - 1];
      assert a[..j - 1] == a[..j][..j - 1];
      assert b[..j - 1] == b[..j][..j - 1];
      CountPrefix(a, b, itemName, j - 1);
    }
  }

  /**
   * removeItem on one slot is all-or-nothing: it succeeds iff the slot holds
   * at least `amount` matching items; then exactly `amount` (none when
   * `amount` is not positive) of them are gone and every other object is
   * still there in order; otherwise the slot is unchanged.
   */
  lemma RemoveFromSlotSpec(objs: seq<Obj>, itemName: string, amount: int)
    ensures RemoveFromSlot(objs, itemName, amount).1 <==> CountNamed(objs, itemName) >= amount
    ensures !RemoveFromSlot(objs, itemName, amount).1 ==> RemoveFromSlot(objs, itemName, amount).0 == objs
    ensures RemoveFromSlot(objs, itemName, amount).1 ==>
      var rest := RemoveFromSlot(objs, itemName, amount).0;
      var removed := if amount < 0 then 0 else amount;
      CountNamed(rest, itemName) == CountNamed(objs, itemName) - removed &&
      |rest| == |objs| - removed &&
      Others(rest, itemName) == Others(objs, itemName)
  {
    var stop := StopFrom(objs, itemName, amount, 0);
    StopFacts(objs, itemName, amount, 0);
    CountMonotone(objs, itemName, stop, |objs|);
    DropBeforeOthers(objs, itemName, stop, |objs|);
    DropBeforeCount(objs, itemName, stop, |objs|);
    assert objs[..|objs|] == objs;
  }

  // ---------------------------------------------------------------------
  // removeItem on the player

  function WithObjects(slots: seq<Slot>, i: nat, objs: seq<Obj>): (r: seq<Slot>)
    requires i < |slots|
    ensures |r| == |slots| && forall k :: 0 <= k < |r| ==> r[k].name == slots[k].name
  {
    slots[i := slots[i].(objects := objs)]
  }

  /** The loop over every slot in order: the first slot that can give `amount` does. */
  function RemoveFromSlots(slots: seq<Slot>, i: nat, itemName: string, amount: int): (r: (seq<Slot>, bool))
    requires i <= |slots|
    ensures |r.0| == |slots| && forall k :: 0 <= k < |slots| ==> r.0[k].name == slots[k].name
    decreases |slots| - i
  {
    if i == |slots| then (slots, false)
    else
      var r := RemoveFromSlot(slots[i].objects, itemName, amount);
      if r.1 then (WithObjects(slots, i, r.0), true)
      else RemoveFromSlots(slots, i + 1, itemName, amount)
  }

  /** The player-level removeItem: the bag first, then every slot in order. */
  function RemoveFromPlayer(slots: seq<Slot>, itemName: string, amount: int): (r: (seq<Slot>, bool))
    requires HasBag(slots)
    ensures HasBag(r.0)
  {
    var b := FindSlot(slots, "bag").value;
    var r := RemoveFromSlot(slots[b].objects, itemName, amount);
    var out := if r.1 then (WithObjects(slots, b, r.0), true) else RemoveFromSlots(slots, 0, itemName, amount);
    assert FindSlot(out.0, "bag").Some? by { FindSlotSameNames(slots, out.0, "bag"); }
    out
  }

  predicate CanGive(slots: seq<Slot>, k: nat, itemName: string, amount: int)
    requires k < |slots|
  {
    CountNamed(slots[k].objects, itemName) >= amount
  }

  lemma {:induction false} RemoveFromSlotsSpec(slots: seq<Slot>, i: nat, itemName: string, amount: int)
    requires i <= |slots|
    ensures var r := RemoveFromSlots(slots, i, itemName, amount);
      (r.1 <==> exists k :: i <= k < |slots| && CanGive(slots, k, itemName, amount)) &&
      (!r.1 ==> r.0 == slots) &&
      (r.1 ==> exists k :: i <= k < |slots| && CanGive(slots, k, itemName, amount) &&
                 (forall j :: i <= j < k ==> !CanGive(slots, j, itemName, amount)) &&
                 r.0 == WithObjects(slots, k, RemoveFromSlot(slots[k].objects, itemName, amount).0))
    decreases |slots| - i
  {
    if i < |slots| {
      RemoveFromSlotSpec(slots[i].objects, itemName, amount);
      RemoveFromSlotsSpec(slots, i + 1, itemName, amount);
      var r := RemoveFromSlots(slots, i, itemName, amount);
      if !RemoveFromSlot(slots[i].objects, itemName, amount).1 {
        if r.1 {
          var k :| i + 1 <= k < |slots| && CanGive(slots, k, itemName, amount) &&
                 (forall j :: i + 1 <= j < k ==> !CanGive(slots, j, itemName, amount)) &&
                 r.0 == WithObjects(slots, k, RemoveFromSlot(slots[k].objects, itemName, amount).0);
          assert forall j :: i <= j < k ==> !CanGive(slots, j, itemName, amount);
        }
      } else {
        assert CanGive(slots, i, itemName, amount);
      }
    }
  }

  /**
   * The player-level removeItem takes everything from ONE slot: on success
   * exactly one slot changed, by the all-or-nothing removal of that slot,
   * and it is the bag whenever the bag holds enough; it fails, changing
   * nothing, iff no single slot holds `amount` matching items, however many
   * the slots hold together.
   */
  lemma RemoveFromPlayerSpec(slots: seq<Slot>, itemName: string, amount: int)
    requires HasBag(slots)
    ensures var r := RemoveFromPlayer(slots, itemName, amount);
      (r.1 <==> exists k :: 0 <= k < |slots| && CanGive(slots, k, itemName, amount)) &&
      (!r.1 ==> r.0 == slots) &&
      (r.1 ==> exists k :: 0 <= k < |slots| && CanGive(slots, k, itemName, amount) &&
                 r.0 == WithObjects(slots, k, RemoveFromSlot(slots[k].objects, itemName, amount).0))
    ensures var b := FindSlot(slots, "bag").value;
      CanGive(slots, b, itemName, amount) ==>
      RemoveFromPlayer(slots, itemName, amount).0 == WithObjects(slots, b, RemoveFromSlot(slots[b].objects, itemName, amount).0)
  {
    var b := FindSlot(slots, "bag").value;
    RemoveFromSlotSpec(slots[b].objects, itemName, amount);
    RemoveFromSlotsSpec(slots, 0, itemName, amount);
    if RemoveFromSlot(slots[b].objects, itemName, amount).1 {
      assert CanGive(slots, b, itemName, amount);
    }
  }

  // ---------------------------------------------------------------------
  // Equipping

  /** player.equip(o) when it succeeds: `o` goes at the end of the bag. */
  function EquipToBag(slots: seq<Slot>, o: Obj): (r: seq<Slot>)
    requires HasBag(slots)
    ensures |r| == |slots| && HasBag(r)
  {
    var b := FindSlot(slots, "bag").value;
    var r := WithObjects(slots, b, slots[b].objects + [o]);
    assert forall k :: 0 <= k < |r| ==> r[k].name == slots[k].name;
    assert FindSlot(r, "bag").Some? by { FindSlotSameNames(slots, r, "bag"); }
    r
  }

  lemma {:induction false} FindSlotSameNames(a: seq<Slot>, b: seq<Slot>, name: string)
    requires |a| == |b| && forall k :: 0 <= k < |a| ==> a[k].name == b[k].name
    ensures FindSlot(a, name) == FindSlot(b, name)
  {
    if a != [] {
      FindSlotSameNames(a[1..], b[1..], name);
    }
  }

  lemma ShapeKeepsBag(a: seq<Slot>, b: seq<Slot>)
    requires SameShape(a, b)
    ensures FindSlot(a, "bag") == FindSlot(b, "bag")
  {
    FindSlotSameNames(a, b, "bag");
  }

  // ---------------------------------------------------------------------
  // Facts the loops of the behaviours use

  lemma {:induction false} TotalConcat(a: seq<Slot>, b: seq<Slot>)
    ensures TotalMoney(a + b) == TotalMoney(a) + TotalMoney(b)
  {
    if a == [] {
      assert a + b == b;
    } else {
      assert (a + b)[0] == a[0];
      assert (a + b)[1..] == a[1..] + b;
      TotalConcat(a[1..], b);
    }
  }

  lemma PayObjsNoMoney(objs: seq<Obj>, amount: int)
    requires NoMoney(objs)
    ensures PayObjs(objs, amount) == objs
  {
  }

  lemma PayAllNoMoney(slots: seq<Slot>, amount: int)
    requires NoMoneyAnywhere(slots)
    ensures PayAll(slots, amount) == slots
  {
    forall i | 0 <= i < |slots| ensures PayAll(slots, amount)[i] == slots[i] {
      PayObjsNoMoney(slots[i].objects, amount);
    }
  }

  lemma {:induction false} TotalCountZero(slots: seq<Slot>)
    ensures TotalCount(slots) == 0 <==> NoMoneyAnywhere(slots)
  {
    if slots != [] {
      TotalCountZero(slots[1..]);
      if MoneyCount(slots[0].objects) == 0 {
        MoneyCountZero(slots[0].objects);
      } else {
        assert !NoMoney(slots[0].objects) by {
          if NoMoney(slots[0].objects) { NoMoneyFacts(slots[0].objects); }
        }
      }
      if NoMoneyAnywhere(slots) {
        assert NoMoneyAnywhere(slots[1..]) by {
          forall i | 0 <= i < |slots[1..]| ensures NoMoney(slots[1..][i].objects) {
            assert slots[1..][i] == slots[i + 1];
          }
        }
        NoMoneyFacts(slots[0].objects);
      }
    }
  }

  /**
   * payPlayer(amount) pays `amount` once per money stack the player holds,
   * and once when there is none: the total grows by amount times the
   * number of stacks, or by amount.
   */
  lemma PayTotal(slots: seq<Slot>, amount: int)
    requires HasBag(slots)
    ensures TotalMoney(Pay(slots, amount)) ==
      TotalMoney(slots) + amount * (if TotalCount(slots) == 0 then 1 else TotalCount(slots))
  {
    TotalCountZero(slots);
    if NoMoneyAnywhere(slots) {
      PayWithoutMoney(slots, amount);
      NoMoneyTotal(slots);
    } else {
      PayWithMoney(slots, amount);
    }
  }

  /** manager.getItem(name) with its quantity set: a money stack for "money", an item otherwise. */
  function NewItem(itemName: string, quantity: int): (o: Obj)
    ensures IsItemNamed(o, itemName)
    ensures o.Money? <==> itemName == "money"
  {
    if itemName == "money" then Money(quantity) else Item(itemName, quantity, None, None)
  }
}
